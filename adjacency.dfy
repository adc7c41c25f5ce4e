/**
  The adjacency bookkeeping of `Graph` as values: the dictionary from a vertex id to its
  list of neighbour ids (one `LinkedList<int>` per vertex, kept in insertion order), the
  two list operations the source uses on it (`AddLast` and `LinkedList.Remove`, which
  deletes the first occurrence only), and the states that `AddEdge` and `RemoveVertex`
  produce. The class in graph.dfy is proved to compute exactly these states; the lemmas
  here say what the states mean.
*/
module Adjacency {

  /** Vertex id -> neighbour ids, in the order they were appended. */
  type Lists = map<int, seq<int>>

  /** Number of occurrences of `v` in `s`. */
  function Count(s: seq<int>, v: int): nat
  {
    if s == [] then 0 else (if s[0] == v then 1 else 0) + Count(s[1..], v)
  }

  lemma {:induction false} CountAppend(a: seq<int>, b: seq<int>, v: int)
    ensures Count(a + b, v) == Count(a, v) + Count(b, v)
  {
    if a == [] {
      assert a + b == b;
    } else {
      assert (a + b)[1..] == a[1..] + b;
      CountAppend(a[1..], b, v);
    }
  }

  lemma {:induction false} CountPositive(s: seq<int>, v: int)
    ensures Count(s, v) > 0 <==> v in s
  {
    if s != [] {
      CountPositive(s[1..], v);
      assert s == [s[0]] + s[1..];
    }
  }

  /** How many times `v` occurs in the list of `u`; zero when `u` is not a vertex. */
  function Mult(g: Lists, u: int, v: int): nat
  {
    if u in g then Count(g[u], v) else 0
  }

  /**
    Undirected adjacency by multiplicity: `v` is listed by `u` exactly as often as `u`
    is listed by `v`. Since a missing vertex lists nothing, this also says that every
    listed neighbour is a vertex.
  */
  ghost predicate Symmetric(g: Lists)
  {
    forall u, v :: Mult(g, u, v) == Mult(g, v, u)
  }

  /** No list mentions `x`. */
  ghost predicate Unmentioned(g: Lists, x: int)
  {
    forall i :: i in g ==> x !in g[i]
  }

  /** Under symmetry an id that is not a vertex is in no list. */
  lemma AbsentIsUnmentioned(g: Lists, x: int)
    requires Symmetric(g) && x !in g
    ensures Unmentioned(g, x)
  {
    forall i | i in g ensures x !in g[i] {
      assert Mult(g, i, x) == Mult(g, x, i) == 0;
      CountPositive(g[i], x);
    }
  }

  /** Under symmetry every id in a list is itself a vertex. */
  lemma SymmetricListsAreClosed(g: Lists, u: int, v: int)
    requires Symmetric(g) && u in g && v in g[u]
    ensures v in g
  {
    CountPositive(g[u], v);
    assert Mult(g, v, u) == Mult(g, u, v) > 0;
  }

  // ---------------------------------------------------------------------------
  // LinkedList.Remove: delete the first occurrence, if any

  /** `list.Remove(x)` on a linked list: the first node holding `x` goes, nothing else. */
  function RemoveFirst(s: seq<int>, x: int): (r: seq<int>)
    ensures Count(r, x) == if Count(s, x) == 0 then 0 else Count(s, x) - 1
    ensures forall v :: v != x ==> Count(r, v) == Count(s, v)
    ensures Count(s, x) == 0 ==> r == s
    ensures Count(s, x) > 0 ==> |r| == |s| - 1
  {
    if s == [] then []
    else if s[0] == x then s[1..]
    else
      var r := [s[0]] + RemoveFirst(s[1..], x);
      assert r[1..] == RemoveFirst(s[1..], x);
      r
  }

  /** The node removed is the first one: everything before it and after it stays in order. */
  lemma {:induction false} RemoveFirstAt(s: seq<int>, x: int, k: nat)
    requires k < |s| && s[k] == x
    requires forall j :: 0 <= j < k ==> s[j] != x
    ensures RemoveFirst(s, x) == s[..k] + s[k + 1..]
  {
    if k > 0 {
      var t := s[1..];
      RemoveFirstAt(t, x, k - 1);
      calc {
        RemoveFirst(s, x);
        [s[0]] + RemoveFirst(t, x);
        [s[0]] + (t[..k - 1] + t[k..]);
        { assert [s[0]] + t[..k - 1] == s[..k]; assert t[k..] == s[k + 1..]; }
        s[..k] + s[k + 1..];
      }
    }
  }

  /** `n` successive calls of `list.Remove(x)`. */
  function RemoveRepeatedly(s: seq<int>, x: int, n: nat): (r: seq<int>)
    ensures Count(r, x) == if Count(s, x) <= n then 0 else Count(s, x) - n
    ensures forall v :: v != x ==> Count(r, v) == Count(s, v)
  {
    if n == 0 then s else RemoveFirst(RemoveRepeatedly(s, x, n - 1), x)
  }

  // ---------------------------------------------------------------------------
  // AddEdge: u's list gets v appended, then v's list gets u appended

  /** The lists after `vertices[u].AddLast(v); vertices[v].AddLast(u);`. */
  function Linked(g: Lists, u: int, v: int): (h: Lists)
    requires u in g && v in g
    ensures h.Keys == g.Keys
  {
    var g1 := g[u := g[u] + [v]];
    g1[v := g1[v] + [u]]
  }

  /** Appending `v` to a list adds one occurrence of `v` and nothing else. */
  lemma CountSnoc(s: seq<int>, v: int, b: int)
    ensures Count(s + [v], b) == Count(s, b) + (if v == b then 1 else 0)
  {
    CountAppend(s, [v], b);
    assert [v][1..] == [];
  }

  /**
    Linking adds exactly one occurrence of `v` to `u`'s list and one of `u` to `v`'s
    (two of `u` to its own list when `u == v`); nothing else changes and an existing
    edge is not detected, so repeating the call adds a parallel edge.
  */
  lemma LinkedMult(g: Lists, u: int, v: int, a: int, b: int)
    requires u in g && v in g
    ensures Mult(Linked(g, u, v), a, b)
         == Mult(g, a, b) + (if a == u && b == v then 1 else 0) + (if a == v && b == u then 1 else 0)
  {
    var g1 := g[u := g[u] + [v]];
    CountSnoc(g[u], v, b);
    CountSnoc(g1[v], u, b);
  }

  /** Each list other than `u`'s and `v`'s is untouched by linking. */
  lemma LinkedElsewhere(g: Lists, u: int, v: int, w: int)
    requires u in g && v in g && w in g && w != u && w != v
    ensures Linked(g, u, v)[w] == g[w]
  {
  }

  /** `AddEdge` keeps adjacency symmetric. */
  lemma {:induction false} LinkedPreservesSymmetry(g: Lists, u: int, v: int)
    requires u in g && v in g && Symmetric(g)
    ensures Symmetric(Linked(g, u, v))
  {
    forall a, b ensures Mult(Linked(g, u, v), a, b) == Mult(Linked(g, u, v), b, a) {
      LinkedMult(g, u, v, a, b);
      LinkedMult(g, u, v, b, a);
    }
  }

  // ---------------------------------------------------------------------------
  // RemoveVertex: every neighbour i drops one x per occurrence of i in x's list

  /**
    The removal loop run over `done`: for each id `i` in turn, `vertices[i].Remove(x)`.
    (An id that is not a vertex is skipped here; the source would throw on it.)
  */
  function RemoveFromEach(g: Lists, x: int, done: seq<int>): (h: Lists)
    ensures h.Keys == g.Keys
    decreases |done|
  {
    if done == [] then g
    else
      var h := RemoveFromEach(g, x, done[..|done| - 1]);
      var i := done[|done| - 1];
      if i in h then h[i := RemoveFirst(h[i], x)] else h
  }

  /** One more turn of the removal loop, over the next id `s[k]` of the list. */
  lemma RemoveFromEachStep(g: Lists, x: int, s: seq<int>, k: nat)
    requires k < |s| && s[k] in g
    ensures RemoveFromEach(g, x, s[..k + 1])
         == RemoveFromEach(g, x, s[..k])[s[k] := RemoveFirst(RemoveFromEach(g, x, s[..k])[s[k]], x)]
  {
    assert s[..k + 1][..k] == s[..k];
  }

  /** The lists after `RemoveVertex(x)`: the loop over `x`'s list, then `x` dropped. */
  function Detached(g: Lists, x: int): (h: Lists)
    requires x in g
    ensures h.Keys == g.Keys - {x}
  {
    RemoveFromEach(g, x, g[x]) - {x}
  }

  /**
    The loop's effect on one other vertex `j`: one removal of the first `x` per
    occurrence of `j` among the ids handled, whatever order they came in.
  */
  lemma {:induction false} RemoveFromEachAt(g: Lists, x: int, done: seq<int>, j: int)
    requires j in g && j != x
    ensures RemoveFromEach(g, x, done)[j] == RemoveRepeatedly(g[j], x, Count(done, j))
  {
    if done != [] {
      var prefix := done[..|done| - 1];
      var i := done[|done| - 1];
      assert done == prefix + [i];
      CountSnoc(prefix, i, j);
      RemoveFromEachAt(g, x, prefix, j);
    }
  }

  /**
    What removal does to every multiplicity: `x` is gone, links between other vertices
    are kept, and a neighbour `a` keeps only the occurrences of `x` that outnumber the
    occurrences of `a` in `x`'s list.
  */
  lemma DetachedMult(g: Lists, x: int, a: int, b: int)
    requires x in g
    ensures Mult(Detached(g, x), a, b)
         == if a == x || a !in g then 0
            else if b != x then Mult(g, a, b)
            else if Mult(g, a, x) <= Mult(g, x, a) then 0
            else Mult(g, a, x) - Mult(g, x, a)
  {
    if a != x && a in g {
      RemoveFromEachAt(g, x, g[x], a);
    }
  }

  /**
    On a symmetric graph, removing `x` leaves a symmetric graph in which no list
    mentions `x` any more.
  */
  lemma {:induction false} DetachedPreservesSymmetry(g: Lists, x: int)
    requires x in g && Symmetric(g)
    ensures Symmetric(Detached(g, x))
    ensures Unmentioned(Detached(g, x), x)
  {
    var h := Detached(g, x);
    forall a, b ensures Mult(h, a, b) == Mult(h, b, a) {
      DetachedMult(g, x, a, b);
      DetachedMult(g, x, b, a);
    }
    forall i | i in h ensures x !in h[i] {
      DetachedMult(g, x, i, x);
      assert Mult(g, i, x) == Mult(g, x, i);
      CountPositive(h[i], x);
    }
  }

  /** Lists of vertices that are not neighbours of `x` are untouched by its removal. */
  lemma DetachedElsewhere(g: Lists, x: int, w: int)
    requires x in g && w in g && w != x && w !in g[x]
    ensures Detached(g, x)[w] == g[w]
  {
    RemoveFromEachAt(g, x, g[x], w);
    CountPositive(g[x], w);
  }
}
