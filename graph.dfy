/**
  The `Graph` class: an undirected graph of integer-labelled vertices kept as two
  parallel dictionaries, `vertices` (id -> neighbour list) and `vertexViews`
  (id -> the `Node` record holding the vertex's scene object and one edge-object slot).

  Scene objects are opaque here. Each `GameObject.CreatePrimitive` or
  `Object.Instantiate` call is modelled as handing out a new `Visual` numbered by a
  counter, and each `Object.Destroy` call as an entry appended to the `destroyed` log.
*/
module GraphStore {
  import opened Options
  import opened Adjacency
  import opened PrintFormat

  /** An engine object created on the graph's behalf (a sphere or an edge line). */
  datatype Visual = Visual(serial: nat)

  /**
    The record kept per vertex: its sphere, and the edge object most recently created
    for one of its edges (`None` while the vertex has no edge: the field starts null).
  */
  datatype Node = Node(vertexView: Visual, edgeView: Option<Visual>)
  {
    /** Every object the record refers to was handed out before serial `bound`. */
    predicate IssuedBelow(bound: nat)
    {
      vertexView.serial < bound && (edgeView.Some? ==> edgeView.value.serial < bound)
    }

    /**
      The objects `Node.Destroy` destroys, in call order: the edge object when the slot
      holds one, then the sphere. This is the intended behaviour; the code as written
      is `DestroyAsWritten`.
    */
    function Destroyed(): (r: seq<Visual>)
      ensures |r| == if edgeView.Some? then 2 else 1
      ensures r[|r| - 1] == vertexView
      ensures forall o :: o in r <==> o == vertexView || edgeView == Some(o)
    {
      match edgeView
      case Some(e) => [e, vertexView]
      case None => [vertexView]
    }
  }

  /**
    `Node.Destroy` as written: it reads the edge object out of the slot without a null
    check, so on a record whose slot is still empty it throws (`None`) before
    destroying anything. An edge object already destroyed through the other endpoint
    is not tracked (the engine would reject that access too).
  */
  function DestroyAsWritten(node: Node): (r: Option<seq<Visual>>)
    ensures r.None? <==> node.edgeView.None?
    ensures r.Some? ==> |r.value| == 2 && Some(r.value[0]) == node.edgeView && r.value[1] == node.vertexView
  {
    if node.edgeView.None? then None else Some([node.edgeView.value, node.vertexView])
  }

  /**
    The two agree exactly when the record holds an edge object; a record without one
    (every vertex that never got an edge) makes the code as written throw, where the
    intended behaviour destroys just the sphere.
  */
  lemma DestroyAsWrittenDiffers(node: Node)
    ensures DestroyAsWritten(node).Some? <==> node.edgeView.Some?
    ensures DestroyAsWritten(node).Some? ==> DestroyAsWritten(node).value == node.Destroyed()
    ensures node.edgeView.None? ==> node.Destroyed() == [node.vertexView]
  {
  }

  /** Where `RemoveVertex` as written stops, and the state it leaves behind. */
  datatype Outcome = Outcome(thrown: bool, vertices: Lists, views: map<int, Node>, destroyed: seq<Visual>)

  /**
    `RemoveVertex` as written on an existing vertex `x` without a self-loop and whose
    listed neighbours are all vertices (the loop itself throws otherwise, as for
    `Graph.RemoveVertex`): the neighbour loop and `vertices.Remove(x)` run, then `Node.Destroy` either throws, leaving the record in
    place, or destroys its objects, after which the record is removed.
  */
  function RemoveVertexAsWritten(vs: Lists, views: map<int, Node>, destroyed: seq<Visual>, x: int): (r: Outcome)
    requires x in vs && x in views
    requires x !in vs[x] && forall i :: i in vs[x] ==> i in vs
    ensures r.vertices == Detached(vs, x)
  {
    var lists := Detached(vs, x);
    match DestroyAsWritten(views[x])
    case None => Outcome(true, lists, views, destroyed)
    case Some(objects) => Outcome(false, lists, views - {x}, destroyed + objects)
  }

  /**
    The code as written throws exactly on a vertex whose edge slot is empty, and then
    the key sets of the two dictionaries no longer agree. When it does not throw, it
    ends in the state of the intended removal, with equal key sets.
  */
  lemma EdgelessRemovalAsWritten(vs: Lists, views: map<int, Node>, destroyed: seq<Visual>, x: int)
    requires vs.Keys == views.Keys && x in vs
    requires x !in vs[x] && forall i :: i in vs[x] ==> i in vs
    ensures RemoveVertexAsWritten(vs, views, destroyed, x).thrown <==> views[x].edgeView.None?
    ensures var r := RemoveVertexAsWritten(vs, views, destroyed, x);
      r.thrown ==> r.vertices.Keys != r.views.Keys
    ensures var r := RemoveVertexAsWritten(vs, views, destroyed, x);
      !r.thrown ==> r.views == views - {x} && r.destroyed == destroyed + views[x].Destroyed()
                    && r.vertices.Keys == r.views.Keys
  {
    var r := RemoveVertexAsWritten(vs, views, destroyed, x);
    if r.thrown {
      assert x in r.views.Keys && x !in r.vertices.Keys;
    }
  }

  /** The two warnings the graph logs instead of failing. */
  datatype Warning = DuplicateVertex(id: int) | MissingVertex(id: int)

  class Graph {
    var vertices: Lists
    var vertexViews: map<int, Node>
    /** Serial of the next engine object to be created. */
    var nextVisual: nat
    /** Every object passed to `Object.Destroy`, in call order. */
    var destroyed: seq<Visual>

    /**
      The two dictionaries have the same keys, and every object a record refers to was
      created earlier, so a newly created object is held by no record.
    */
    ghost predicate Valid()
      reads this
    {
      && vertices.Keys == vertexViews.Keys
      && forall id :: id in vertexViews ==> vertexViews[id].IssuedBelow(nextVisual)
    }

    /** `new Graph(edgePrefab)`: no vertices. */
    constructor ()
      ensures Valid() && Symmetric(vertices)
      ensures vertices == map[] && vertexViews == map[]
      ensures nextVisual == 0 && destroyed == []
    {
      vertices := map[];
      vertexViews := map[];
      nextVisual := 0;
      destroyed := [];
    }

    /**
      Adds vertex `value` with no neighbours and a new sphere. An id that is already a
      vertex only produces a warning; nothing changes.
    */
    method AddVertex(value: int) returns (warning: Option<Warning>)
      requires Valid()
      modifies this
      ensures Valid()
      ensures Symmetric(old(vertices)) ==> Symmetric(vertices)
      ensures old(value in vertices) ==>
                warning == Some(DuplicateVertex(value)) && unchanged(this)
      ensures old(value !in vertices) ==>
                && warning == None
                && vertices == old(vertices)[value := []]
                && vertexViews == old(vertexViews)[value := Node(Visual(old(nextVisual)), None)]
                && nextVisual == old(nextVisual) + 1
                && destroyed == old(destroyed)
    {
      if value in vertices {
        warning := Some(DuplicateVertex(value));
        return;
      }
      warning := None;
      ghost var g := vertices;
      vertices := vertices[value := []];
      var sphere := Visual(nextVisual);
      nextVisual := nextVisual + 1;
      vertexViews := vertexViews[value := Node(sphere, None)];
      if Symmetric(g) {
        AddedVertexKeepsSymmetry(g, value);
      }
    }

    /**
      Adds the undirected edge `u`-`v`: `v` goes at the end of `u`'s list, then `u` at
      the end of `v`'s, and one new edge object is put in the slot of both records,
      replacing whatever they held. Both ids must be vertices: otherwise the source's
      dictionary lookup throws.
    */
    method AddEdge(u: int, v: int)
      requires Valid()
      requires u in vertices && v in vertices
      modifies this
      ensures Valid()
      ensures vertices == Linked(old(vertices), u, v)
      ensures Symmetric(old(vertices)) ==> Symmetric(vertices)
      ensures nextVisual == old(nextVisual) + 1
      ensures vertexViews == old(vertexViews)
                [u := old(vertexViews)[u].(edgeView := Some(Visual(old(nextVisual))))]
                [v := old(vertexViews)[v].(edgeView := Some(Visual(old(nextVisual))))]
      ensures forall id :: id in old(vertexViews) ==> old(vertexViews)[id].edgeView != Some(Visual(old(nextVisual)))
      ensures destroyed == old(destroyed)
    {
      ghost var g := vertices;
      vertices := vertices[u := vertices[u] + [v]];
      vertices := vertices[v := vertices[v] + [u]];
      CreateEdgeView(u, v);
      if Symmetric(g) {
        LinkedPreservesSymmetry(g, u, v);
      }
    }

    /**
      The slot assignment of `CreateEdgeView`: one new edge object, stored in the
      records of both endpoints.
    */
    method CreateEdgeView(start: int, end: int)
      requires Valid()
      requires start in vertexViews && end in vertexViews
      modifies this`vertexViews, this`nextVisual
      ensures Valid()
      ensures nextVisual == old(nextVisual) + 1
      ensures vertexViews == old(vertexViews)
                [start := old(vertexViews)[start].(edgeView := Some(Visual(old(nextVisual))))]
                [end := old(vertexViews)[end].(edgeView := Some(Visual(old(nextVisual))))]
    {
      var edge := Visual(nextVisual);
      nextVisual := nextVisual + 1;
      vertexViews := vertexViews[start := vertexViews[start].(edgeView := Some(edge))];
      vertexViews := vertexViews[end := vertexViews[end].(edgeView := Some(edge))];
    }

    /**
      Removes vertex `vertex`: every neighbour listed by it loses its first occurrence
      of `vertex`, once per listing; then the vertex's list and record go, and its edge
      object (if it has one) and sphere are destroyed, in that order, and the graph is
      printed. An id that is not a vertex only produces a warning.

      The source fails on two inputs, excluded here: a listed neighbour that is not a
      vertex (dictionary lookup throws) and a self-loop (the loop removes from the list
      it is enumerating). Its third failure, an empty edge slot, is corrected here (see
      `DestroyAsWritten`).
    */
    method RemoveVertex(vertex: int) returns (warning: Option<Warning>, log: seq<string>)
      requires Valid()
      requires vertex in vertices ==> forall i :: i in vertices[vertex] ==> i in vertices
      requires vertex in vertices ==> vertex !in vertices[vertex]
      modifies this
      ensures Valid()
      ensures old(vertex !in vertices) ==>
                warning == Some(MissingVertex(vertex)) && log == [] && unchanged(this)
      ensures old(vertex in vertices) ==>
                && warning == None
                && vertices == Detached(old(vertices), vertex)
                && vertexViews == old(vertexViews) - {vertex}
                && destroyed == old(destroyed) + old(vertexViews)[vertex].Destroyed()
                && nextVisual == old(nextVisual)
      ensures old(vertex in vertices) ==>
                && |log| == |vertices| + 1 && log[|vertices|] == EndMarker
                && (forall id :: id in vertices ==> LineText(id, vertices[id]) in log)
                && (forall j :: 0 <= j < |vertices| ==> IsLineOf(vertices, log[j]))
      ensures Symmetric(old(vertices)) ==> Symmetric(vertices) && Unmentioned(vertices, vertex)
    {
      if vertex !in vertices {
        warning := Some(MissingVertex(vertex));
        log := [];
        if Symmetric(vertices) {
          AbsentIsUnmentioned(vertices, vertex);
        }
        return;
      }
      warning := None;
      ghost var g := vertices;
      DropFromNeighbours(vertex);
      vertices := vertices - {vertex};
      assert vertices == Detached(g, vertex);

      var node := vertexViews[vertex];
      destroyed := destroyed + node.Destroyed();
      vertexViews := vertexViews - {vertex};

      if Symmetric(g) {
        DetachedPreservesSymmetry(g, vertex);
      }
      assert Valid() && destroyed == old(destroyed) + old(vertexViews)[vertex].Destroyed();
      log := Print();
    }

    /**
      The `foreach` loop of `RemoveVertex`: for each id `i` in `vertex`'s list, in list
      order, `vertices[i].Remove(vertex)`.
    */
    method DropFromNeighbours(vertex: int)
      requires vertex in vertices && vertex !in vertices[vertex]
      requires forall i :: i in vertices[vertex] ==> i in vertices
      modifies this`vertices
      ensures vertices == RemoveFromEach(old(vertices), vertex, old(vertices)[vertex])
    {
      ghost var g := vertices;
      var around := vertices[vertex];
      var k := 0;
      while k < |around|
        invariant k <= |around|
        invariant vertices == RemoveFromEach(g, vertex, around[..k])
      {
        var i := around[k];
        assert i in g by {
          assert i in g[vertex];
        }
        RemoveFromEachStep(g, vertex, around, k);
        vertices := vertices[i := RemoveFirst(vertices[i], vertex)];
        k := k + 1;
      }
      assert around[..k] == around;
    }

    /**
      The lines `Print` logs: one `LineText` line per vertex, each vertex exactly once
      and in no particular order (dictionary order), then the end marker.
    */
    method Print() returns (log: seq<string>)
      ensures |log| == |vertices| + 1 && log[|vertices|] == EndMarker
      ensures forall id :: id in vertices ==> LineText(id, vertices[id]) in log
      ensures forall j :: 0 <= j < |vertices| ==> IsLineOf(vertices, log[j])
    {
      log := DumpLines(vertices);
    }
  }

  /**
    Two vertices, one edge between them, then the first vertex removed: only the
    second is left, with an empty list, and the dump shows just its line. The edge
    object and the first sphere are destroyed.
  */
  method AddLinkRemove() returns (vertices: Lists, log: seq<string>, destroyed: seq<Visual>)
    ensures vertices == map[2 := []]
    ensures log == ["[2]: ", EndMarker]
    ensures destroyed == [Visual(2), Visual(0)]
  {
    var graph := LinkedPair();
    var w3;
    w3, log := graph.RemoveVertex(1);
    vertices := graph.vertices;
    destroyed := graph.destroyed;
    DetachOne();
    SingleVertexDump(log);
  }

  /** A new graph with vertices 1 and 2 (in that order) and the edge 1-2. */
  method LinkedPair() returns (graph: Graph)
    ensures fresh(graph) && graph.Valid()
    ensures graph.vertices == map[1 := [2], 2 := [1]]
    ensures graph.vertexViews == map[1 := Node(Visual(0), Some(Visual(2))), 2 := Node(Visual(1), Some(Visual(2)))]
    ensures graph.nextVisual == 3 && graph.destroyed == []
  {
    graph := new Graph();
    var w1 := graph.AddVertex(1);
    var w2 := graph.AddVertex(2);
    assert graph.vertices == map[1 := [], 2 := []];
    graph.AddEdge(1, 2);
    LinkOneTwo();
  }

  /**
    The two records of an edge share its object (`AddEdge` puts the same one in both
    slots). Removing one endpoint destroys the object but leaves the other record
    holding it, so removing the other endpoint passes it to `Object.Destroy` again.
  */
  lemma SharedEdgeDestroyedTwice(views: map<int, Node>, u: int, v: int, e: Visual)
    requires u != v && u in views && v in views
    requires views[u].edgeView == Some(e) && views[v].edgeView == Some(e)
    ensures e in views[u].Destroyed()
    ensures v in views - {u} && (views - {u})[v].edgeView == Some(e)
    ensures e in (views - {u})[v].Destroyed()
  {
  }

  /** Linking 1 and 2 in a graph of two lone vertices. */
  lemma LinkOneTwo()
    ensures Linked(map[1 := [], 2 := []], 1, 2) == map[1 := [2], 2 := [1]]
  {
    assert [] + [2] == [2] && [] + [1] == [1];
  }

  /** Removing 1 from the graph with the single edge 1-2. */
  lemma DetachOne()
    ensures Detached(map[1 := [2], 2 := [1]], 1) == map[2 := []]
  {
    var linked: Lists := map[1 := [2], 2 := [1]];
    assert RemoveFromEach(linked, 1, [2]) == linked[2 := []] by {
      assert [2][..0] == [];
      assert RemoveFirst([1], 1) == [];
    }
  }

  /** A dump of a graph with the single vertex 2 and no edges. */
  lemma SingleVertexDump(log: seq<string>)
    requires |log| == 2 && log[1] == EndMarker && LineText(2, []) in log
    ensures log == ["[2]: ", EndMarker]
  {
    assert LineText(2, []) == "[2]: ";
    LineTextIsNotEndMarker(2, []);
  }

  /** A new vertex with an empty list keeps adjacency symmetric. */
  lemma AddedVertexKeepsSymmetry(g: Lists, x: int)
    requires x !in g && Symmetric(g)
    ensures Symmetric(g[x := []])
  {
    var h := g[x := []];
    forall a, b ensures Mult(h, a, b) == Mult(h, b, a) {
      assert Mult(h, a, b) == if a == x then 0 else Mult(g, a, b);
      assert Mult(h, b, a) == if b == x then 0 else Mult(g, b, a);
      if a == x && b in g {
        assert Mult(g, b, x) == Mult(g, x, b) == 0;
      }
      if b == x && a in g {
        assert Mult(g, a, x) == Mult(g, x, a) == 0;
      }
    }
  }
}
