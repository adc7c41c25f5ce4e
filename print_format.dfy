/**
  The text of one line of `Graph.Print`: `"[k]: "` followed by `"-> i "` for every
  neighbour `i`, with integers written the way C#'s `int.ToString()` writes them
  (decimal, a leading `-` for negative values). The format is shown to be readable
  back: `ParseLine` recovers the key and the whole neighbour list from a line.
*/
module PrintFormat {
  import opened Options

  /** The line `Print` logs after the vertex lines. */
  const EndMarker: string := "========== END OUTPUT =========="

  predicate IsDigit(c: char)
  {
    '0' <= c <= '9'
  }

  predicate AllDigits(s: string)
  {
    forall k :: 0 <= k < |s| ==> IsDigit(s[k])
  }

  function DigitChar(d: nat): (c: char)
    requires d < 10
    ensures IsDigit(c) && c as int - '0' as int == d
  {
    ('0' as int + d) as char
  }

  /** Decimal digits of a natural number, most significant first, no leading zeros. */
  function NatText(n: nat): string
  {
    if n < 10 then [DigitChar(n)] else NatText(n / 10) + [DigitChar(n % 10)]
  }

  lemma {:induction false} NatTextDigits(n: nat)
    ensures |NatText(n)| > 0 && AllDigits(NatText(n))
  {
    if n >= 10 {
      NatTextDigits(n / 10);
    }
  }

  /** `n.ToString()` for a C# `int`: a minus sign exactly for negative values. */
  function IntText(n: int): (s: string)
    ensures |s| > 0 && (s[0] == '-' <==> n < 0)
  {
    NatTextDigits(if n < 0 then -n else n);
    if n < 0 then "-" + NatText(-n) else NatText(n)
  }

  /** The text appended for one neighbour. */
  function ArrowText(i: int): string
  {
    "-> " + IntText(i) + " "
  }

  /** The text appended for a neighbour list, in list order. */
  function ArrowsText(ns: seq<int>): string
  {
    if ns == [] then "" else ArrowText(ns[0]) + ArrowsText(ns[1..])
  }

  /** The text a line starts with, before any neighbour. */
  function KeyText(key: int): string
  {
    "[" + IntText(key) + "]: "
  }

  /**
    The line logged for vertex `key` with neighbour list `ns`. It opens with `[` and,
    whether or not there are neighbours, ends with a space.
  */
  function LineText(key: int, ns: seq<int>): (line: string)
    ensures |line| >= 4 && line[0] == '[' && line[|line| - 1] == ' '
  {
    ArrowsTextEnd(ns);
    KeyText(key) + ArrowsText(ns)
  }

  lemma {:induction false} ArrowsTextEnd(ns: seq<int>)
    ensures ns == [] <==> ArrowsText(ns) == []
    ensures ns != [] ==> ArrowsText(ns)[|ArrowsText(ns)| - 1] == ' '
  {
    if ns != [] {
      ArrowsTextEnd(ns[1..]);
    }
  }

  lemma {:induction false} ArrowsTextSnoc(ns: seq<int>, i: int)
    ensures ArrowsText(ns + [i]) == ArrowsText(ns) + ArrowText(i)
  {
    if ns == [] {
      assert ns + [i] == [i] && [i][1..] == [];
    } else {
      var head := ArrowText(ns[0]);
      calc {
        ArrowsText(ns + [i]);
        { assert (ns + [i])[0] == ns[0] && (ns + [i])[1..] == ns[1..] + [i]; }
        head + ArrowsText(ns[1..] + [i]);
        { ArrowsTextSnoc(ns[1..], i); }
        head + (ArrowsText(ns[1..]) + ArrowText(i));
        (head + ArrowsText(ns[1..])) + ArrowText(i);
      }
    }
  }

  lemma LineTextStep(key: int, ns: seq<int>, j: nat)
    requires j < |ns|
    ensures LineText(key, ns[..j + 1]) == LineText(key, ns[..j]) + ArrowText(ns[j])
  {
    assert ns[..j + 1] == ns[..j] + [ns[j]];
    ArrowsTextSnoc(ns[..j], ns[j]);
  }

  /**
    The StringBuilder loop of `Print` for one vertex: the key, then one arrow per
    neighbour in list order.
  */
  method FormatLine(key: int, ns: seq<int>) returns (line: string)
    ensures line == LineText(key, ns)
  {
    line := KeyText(key);
    assert line == LineText(key, ns[..0]);
    var j := 0;
    while j < |ns|
      invariant j <= |ns|
      invariant line == LineText(key, ns[..j])
    {
      LineTextStep(key, ns, j);
      line := line + ArrowText(ns[j]);
      j := j + 1;
    }
    assert ns[..|ns|] == ns;
  }

  /** The lines for the vertices in `order`, in that order. */
  function LinesFor(g: map<int, seq<int>>, order: seq<int>): (lines: seq<string>)
    requires forall j :: 0 <= j < |order| ==> order[j] in g
    ensures |lines| == |order|
  {
    if order == [] then []
    else LinesFor(g, order[..|order| - 1]) + [LineText(order[|order| - 1], g[order[|order| - 1]])]
  }

  lemma {:induction false} LinesForAt(g: map<int, seq<int>>, order: seq<int>, j: nat)
    requires forall k :: 0 <= k < |order| ==> order[k] in g
    requires j < |order|
    ensures LinesFor(g, order)[j] == LineText(order[j], g[order[j]])
  {
    if j < |order| - 1 {
      LinesForAt(g, order[..|order| - 1], j);
    }
  }

  /**
    The order in which a dictionary enumerates its keys: each key exactly once. The
    order itself is not fixed (it is the dictionary's internal order).
  */
  method Enumerate(keys: set<int>) returns (order: seq<int>)
    ensures |order| == |keys|
    ensures forall j :: 0 <= j < |order| ==> order[j] in keys
    ensures forall id :: id in keys ==> id in order
    ensures forall i, j :: 0 <= i < j < |order| ==> order[i] != order[j]
  {
    order := [];
    var todo := keys;
    while todo != {}
      invariant todo <= keys
      invariant |order| + |todo| == |keys|
      invariant forall j :: 0 <= j < |order| ==> order[j] in keys && order[j] !in todo
      invariant forall id :: id in keys && id !in todo ==> id in order
      invariant forall i, j :: 0 <= i < j < |order| ==> order[i] != order[j]
      decreases |todo|
    {
      var id := Pick(todo);
      order := order + [id];
      todo := todo - {id};
    }
  }

  /** When `order` lists every key of `g`, the lines for `order` hold the line of every vertex. */
  lemma LinesForComplete(g: map<int, seq<int>>, order: seq<int>)
    requires forall j :: 0 <= j < |order| ==> order[j] in g
    requires forall id :: id in g ==> id in order
    ensures forall id :: id in g ==> LineText(id, g[id]) in LinesFor(g, order)
  {
    forall id | id in g ensures LineText(id, g[id]) in LinesFor(g, order) {
      var j :| 0 <= j < |order| && order[j] == id;
      LinesForAt(g, order, j);
    }
  }

  /**
    `line` is the line of a vertex of `g`: it reads back as a vertex and that
    vertex's list, and is exactly the line printed for them.
  */
  predicate IsLineOf(g: map<int, seq<int>>, line: string)
  {
    match ParseLine(line)
    case Some((key, ns)) => key in g && g[key] == ns && line == LineText(key, ns)
    case None => false
  }

  /** The lines for `order` are lines of vertices of `g` and nothing else. */
  lemma LinesForSound(g: map<int, seq<int>>, order: seq<int>)
    requires forall j :: 0 <= j < |order| ==> order[j] in g
    ensures forall j :: 0 <= j < |order| ==> IsLineOf(g, LinesFor(g, order)[j])
  {
    forall j | 0 <= j < |order| ensures IsLineOf(g, LinesFor(g, order)[j]) {
      LinesForAt(g, order, j);
      ParseLineText(order[j], g[order[j]]);
    }
  }

  /** Some element of a non-empty set (which one is not fixed). */
  method Pick(s: set<int>) returns (x: int)
    requires s != {}
    ensures x in s
  {
    NonEmptyHasMember(s);
    x :| x in s;
  }

  lemma NonEmptyHasMember(s: set<int>)
    requires s != {}
    ensures exists x :: x in s
  {
    if forall x :: x !in s {
      assert false;
    }
  }

  /**
    The loop of `Print` over the adjacency dictionary `g`: one `LineText` line per
    vertex, each vertex exactly once, in the order the dictionary yields them, then
    the end marker.
  */
  method DumpLines(g: map<int, seq<int>>) returns (log: seq<string>)
    ensures |log| == |g| + 1 && log[|g|] == EndMarker
    ensures forall id :: id in g ==> LineText(id, g[id]) in log
    ensures forall j :: 0 <= j < |g| ==> IsLineOf(g, log[j])
  {
    var order := Enumerate(g.Keys);
    log := [];
    var k := 0;
    while k < |order|
      invariant k <= |order|
      invariant log == LinesFor(g, order[..k])
    {
      var line := FormatLine(order[k], g[order[k]]);
      LinesForStep(g, order, k);
      log := log + [line];
      k := k + 1;
    }
    assert order[..k] == order;
    DumpShape(g, order);
    log := log + [EndMarker];
  }

  lemma LinesForStep(g: map<int, seq<int>>, order: seq<int>, k: nat)
    requires forall j :: 0 <= j < |order| ==> order[j] in g
    requires k < |order|
    ensures LinesFor(g, order[..k + 1]) == LinesFor(g, order[..k]) + [LineText(order[k], g[order[k]])]
  {
    assert order[..k + 1][..k] == order[..k];
  }

  /** The log for an enumeration `order` of `g`'s keys: every vertex's line and only those. */
  lemma DumpShape(g: map<int, seq<int>>, order: seq<int>)
    requires |order| == |g.Keys|
    requires forall j :: 0 <= j < |order| ==> order[j] in g
    requires forall id :: id in g ==> id in order
    ensures var log := LinesFor(g, order) + [EndMarker];
      && |log| == |g| + 1 && log[|g|] == EndMarker
      && (forall id :: id in g ==> LineText(id, g[id]) in log)
      && (forall j :: 0 <= j < |g| ==> IsLineOf(g, log[j]))
  {
    assert |g| == |g.Keys|;
    LinesForComplete(g, order);
    LinesForSound(g, order);
    var log := LinesFor(g, order) + [EndMarker];
    forall id | id in g ensures LineText(id, g[id]) in log {
      assert LineText(id, g[id]) in LinesFor(g, order);
    }
    forall j | 0 <= j < |g| ensures IsLineOf(g, log[j]) {
      assert log[j] == LinesFor(g, order)[j];
    }
  }

  // ---------------------------------------------------------------------------
  // Reading a line back

  /** Length of the run of digits at the start of `s`. */
  function DigitRun(s: string): (n: nat)
    ensures n <= |s| && AllDigits(s[..n])
    ensures n < |s| ==> !IsDigit(s[n])
  {
    if s != [] && IsDigit(s[0]) then
      var n := 1 + DigitRun(s[1..]);
      assert s[..n] == [s[0]] + s[1..][..n - 1];
      n
    else 0
  }

  /** The value of a string of decimal digits, most significant first. */
  function DigitsValue(ds: string): nat
    requires AllDigits(ds)
  {
    if ds == [] then 0
    else DigitsValue(ds[..|ds| - 1]) * 10 + (ds[|ds| - 1] as int - '0' as int)
  }

  function ParseNat(s: string): (r: Option<(nat, string)>)
    ensures r.Some? ==> |r.value.1| < |s|
  {
    var n := DigitRun(s);
    if n == 0 then None else Some((DigitsValue(s[..n]), s[n..]))
  }

  function ParseInt(s: string): (r: Option<(int, string)>)
    ensures r.Some? ==> |r.value.1| < |s|
  {
    if s != [] && s[0] == '-' then
      match ParseNat(s[1..])
      case Some((n, rest)) => Some((-(n as int), rest))
      case None => None
    else
      match ParseNat(s)
      case Some((n, rest)) => Some((n, rest))
      case None => None
  }

  /** Reads a run of `"-> i "` groups that makes up the whole of `s`. */
  function ParseArrows(s: string): Option<seq<int>>
    decreases |s|
  {
    if s == [] then Some([])
    else if |s| >= 3 && s[..3] == "-> " then
      match ParseInt(s[3..])
      case Some((i, rest)) =>
        if |rest| >= 1 && rest[0] == ' ' then
          match ParseArrows(rest[1..])
          case Some(ns) => Some([i] + ns)
          case None => None
        else None
      case None => None
    else None
  }

  /** Reads a whole `Print` line back into its key and neighbour list. */
  function ParseLine(s: string): Option<(int, seq<int>)>
  {
    if |s| >= 1 && s[0] == '[' then
      match ParseInt(s[1..])
      case Some((k, rest)) =>
        if |rest| >= 3 && rest[..3] == "]: " then
          match ParseArrows(rest[3..])
          case Some(ns) => Some((k, ns))
          case None => None
        else None
      case None => None
    else None
  }

  lemma {:induction false} DigitRunOf(ds: string, rest: string)
    requires AllDigits(ds)
    requires rest == [] || !IsDigit(rest[0])
    ensures DigitRun(ds + rest) == |ds|
  {
    if ds != [] {
      assert (ds + rest)[1..] == ds[1..] + rest;
      DigitRunOf(ds[1..], rest);
    } else {
      assert ds + rest == rest;
    }
  }

  lemma {:induction false} DigitsValueOfNatText(n: nat)
    ensures AllDigits(NatText(n)) && DigitsValue(NatText(n)) == n
  {
    NatTextDigits(n);
    if n >= 10 {
      var s := NatText(n);
      assert s[..|s| - 1] == NatText(n / 10);
      DigitsValueOfNatText(n / 10);
    }
  }

  /** Reading an integer back stops at the first character that is not a digit. */
  lemma ParseIntText(n: int, rest: string)
    requires rest == [] || !IsDigit(rest[0])
    ensures ParseInt(IntText(n) + rest) == Some((n, rest))
  {
    var ds := NatText(if n < 0 then -n else n);
    NatTextDigits(if n < 0 then -n else n);
    DigitRunOf(ds, rest);
    assert (ds + rest)[..|ds|] == ds;
    assert (ds + rest)[|ds|..] == rest;
    DigitsValueOfNatText(if n < 0 then -n else n);
    if n < 0 {
      assert ("-" + ds + rest)[1..] == ds + rest;
    } else {
      assert IsDigit((ds + rest)[0]);
    }
  }

  /** Reading one group: the arrow, an integer, a space, then the rest. */
  lemma ParseArrowsGroup(s: string, i: int, tail: string)
    requires |s| >= 3 && s[..3] == "-> "
    requires ParseInt(s[3..]) == Some((i, " " + tail))
    ensures ParseArrows(s)
         == match ParseArrows(tail)
            case Some(ns) => Some([i] + ns)
            case None => None
  {
    assert (" " + tail)[1..] == tail;
  }

  /** One `"-> i "` group followed by more text reads as `i` followed by what that text reads as. */
  lemma ParseArrowsCons(i: int, tail: string)
    ensures ParseArrows(ArrowText(i) + tail)
         == match ParseArrows(tail)
            case Some(ns) => Some([i] + ns)
            case None => None
  {
    var digits := IntText(i);
    var s := ArrowText(i) + tail;
    assert s == "-> " + (digits + (" " + tail));
    ParseIntText(i, " " + tail);
    ParseArrowsGroup(s, i, tail);
  }

  lemma {:induction false} ParseArrowsText(ns: seq<int>)
    ensures ParseArrows(ArrowsText(ns)) == Some(ns)
  {
    if ns != [] {
      ParseArrowsCons(ns[0], ArrowsText(ns[1..]));
      ParseArrowsText(ns[1..]);
      assert [ns[0]] + ns[1..] == ns;
    }
  }

  /** Reading a line: the bracket, an integer, `"]: "`, then the neighbour groups. */
  lemma ParseLineParts(s: string, key: int, tail: string)
    requires |s| >= 1 && s[0] == '['
    requires ParseInt(s[1..]) == Some((key, "]: " + tail))
    ensures ParseLine(s)
         == match ParseArrows(tail)
            case Some(ns) => Some((key, ns))
            case None => None
  {
    var after := "]: " + tail;
    assert after[..3] == "]: ";
    assert after[3..] == tail;
  }

  /** The key part of a line reads back, and the rest reads as a neighbour list. */
  lemma ParseLineKey(key: int, tail: string)
    ensures ParseLine(KeyText(key) + tail)
         == match ParseArrows(tail)
            case Some(ns) => Some((key, ns))
            case None => None
  {
    var after := "]: " + tail;
    var s := KeyText(key) + tail;
    assert s == "[" + (IntText(key) + after);
    ParseIntText(key, after);
    ParseLineParts(s, key, tail);
  }

  /** Every `Print` line reads back as the key and neighbour list it was made from. */
  lemma ParseLineText(key: int, ns: seq<int>)
    ensures ParseLine(LineText(key, ns)) == Some((key, ns))
  {
    ParseLineKey(key, ArrowsText(ns));
    ParseArrowsText(ns);
  }

  /** Two vertices print the same line only when they have the same key and the same list. */
  lemma LineTextInjective(k1: int, ns1: seq<int>, k2: int, ns2: seq<int>)
    requires LineText(k1, ns1) == LineText(k2, ns2)
    ensures k1 == k2 && ns1 == ns2
  {
    ParseLineText(k1, ns1);
    ParseLineText(k2, ns2);
  }

  /** No vertex line can be mistaken for the end marker. */
  lemma LineTextIsNotEndMarker(key: int, ns: seq<int>)
    ensures LineText(key, ns) != EndMarker
  {
    assert LineText(key, ns)[0] == '[';
    assert EndMarker[0] == '=';
  }
}
