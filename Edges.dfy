/** The edge list: every pair of nodes closer than `connectionDistance`,
    enumerated by the nested loop `i`, then `k = j + i + 1` over the nodes
    after `i`, with ids of the form "i-k". */
module Edges {
  import opened Geometry

  datatype Edge = Edge(id: string, nodeA: nat, nodeB: nat)

  // ---- Decimal ids ----

  predicate IsDigit(ch: char) { '0' <= ch <= '9' }

  function DigitChar(d: nat): (ch: char)
    requires d < 10
    ensures IsDigit(ch) && (ch as int) - ('0' as int) == d
  {
    (('0' as int) + d) as char
  }

  /** The decimal numeral of `n`, as a template literal prints it. */
  function NatToString(n: nat): string
    decreases n
  {
    if n < 10 then [DigitChar(n)] else NatToString(n / 10) + [DigitChar(n % 10)]
  }

  /** Reads a decimal numeral back. */
  function ParseNat(s: string): nat
    decreases |s|
  {
    if s == [] then 0
    else
      var ch := s[|s| - 1];
      ParseNat(s[..|s| - 1]) * 10 + (if IsDigit(ch) then (ch as int) - ('0' as int) else 0)
  }

  /** A numeral is a non-empty run of digits that reads back as `n`. */
  lemma {:induction false} NatToStringRoundTrip(n: nat)
    ensures var s := NatToString(n);
      0 < |s| && (forall c :: 0 <= c < |s| ==> IsDigit(s[c])) && ParseNat(s) == n
    decreases n
  {
    if 10 <= n {
      NatToStringRoundTrip(n / 10);
      var s := NatToString(n);
      assert s[..|s| - 1] == NatToString(n / 10);
    }
  }

  lemma NatToStringInjective(a: nat, b: nat)
    requires NatToString(a) == NatToString(b)
    ensures a == b
  {
    NatToStringRoundTrip(a);
    NatToStringRoundTrip(b);
  }

  /** The id of the edge between nodes `i` and `k`. */
  function EdgeId(i: nat, k: nat): string
  {
    NatToString(i) + "-" + NatToString(k)
  }

  /** Position of the first '-' in `s` (or `|s|` if there is none). */
  function DashIndex(s: string): (r: nat)
    ensures r <= |s|
    decreases |s|
  {
    if s == [] || s[0] == '-' then 0 else 1 + DashIndex(s[1..])
  }

  lemma {:induction false} DashIndexAfter(a: string, b: string)
    requires '-' !in a
    ensures DashIndex(a + "-" + b) == |a|
    decreases |a|
  {
    if a != [] {
      assert (a + "-" + b)[1..] == a[1..] + "-" + b;
      DashIndexAfter(a[1..], b);
    }
  }

  /** Joining two dash-free strings with a dash can be undone. */
  lemma SplitAtDash(a: string, b: string, c: string, d: string)
    requires '-' !in a && '-' !in c
    requires a + "-" + b == c + "-" + d
    ensures a == c && b == d
  {
    var s := a + "-" + b;
    DashIndexAfter(a, b);
    DashIndexAfter(c, d);
    assert a == s[..|a|] == c;
    assert b == s[|a| + 1..] == d;
  }

  /** Distinct pairs get distinct ids. */
  lemma EdgeIdInjective(i: nat, k: nat, i2: nat, k2: nat)
    requires EdgeId(i, k) == EdgeId(i2, k2)
    ensures i == i2 && k == k2
  {
    NatToStringRoundTrip(i);
    NatToStringRoundTrip(i2);
    assert '-' !in NatToString(i) && '-' !in NatToString(i2);
    SplitAtDash(NatToString(i), NatToString(k), NatToString(i2), NatToString(k2));
    NatToStringInjective(i, i2);
    NatToStringInjective(k, k2);
  }

  // ---- The edge list ----

  /** Nodes `i` and `k` are closer than `cd`. */
  predicate Close(num: Numerics, nodes: seq<Node>, cd: real, i: nat, k: nat)
    requires i < |nodes| && k < |nodes|
  {
    Distance(num, Pos(nodes[i]), Pos(nodes[k])) < cd
  }

  function EdgeOf(i: nat, k: nat): Edge { Edge(EdgeId(i, k), i, k) }

  /** The edges the inner loop for node `i` has produced after its first
      `j` iterations, i.e. for `k` in `i+1 .. i+j`. */
  function Row(num: Numerics, nodes: seq<Node>, cd: real, i: nat, j: nat): seq<Edge>
    requires i < |nodes| && i + j < |nodes|
    decreases j
  {
    if j == 0 then []
    else
      var row := Row(num, nodes, cd, i, j - 1);
      var k := (j - 1) + i + 1;
      if Close(num, nodes, cd, i, k) then row + [EdgeOf(i, k)] else row
  }

  /** The edges the outer loop has produced after its first `m` iterations. */
  function EdgesUpTo(num: Numerics, nodes: seq<Node>, cd: real, m: nat): seq<Edge>
    requires m <= |nodes|
    decreases m
  {
    if m == 0 then []
    else EdgesUpTo(num, nodes, cd, m - 1) + Row(num, nodes, cd, m - 1, |nodes| - m)
  }

  /** calculateEdges' result. */
  function AllEdges(num: Numerics, nodes: seq<Node>, cd: real): seq<Edge>
  {
    EdgesUpTo(num, nodes, cd, |nodes|)
  }

  /** Strict lexicographic order on `(nodeA, nodeB)`. */
  predicate Before(e: Edge, f: Edge)
  {
    e.nodeA < f.nodeA || (e.nodeA == f.nodeA && e.nodeB < f.nodeB)
  }

  predicate Sorted(es: seq<Edge>)
  {
    forall x, y :: 0 <= x < y < |es| ==> Before(es[x], es[y])
  }

  /** An edge between two close nodes `a < b`, with its canonical id. */
  predicate Proper(num: Numerics, nodes: seq<Node>, cd: real, e: Edge)
  {
    e.nodeA < e.nodeB < |nodes| && e == EdgeOf(e.nodeA, e.nodeB) &&
    Close(num, nodes, cd, e.nodeA, e.nodeB)
  }

  lemma {:induction false} RowShape(num: Numerics, nodes: seq<Node>, cd: real, i: nat, j: nat)
    requires i < |nodes| && i + j < |nodes|
    ensures var row := Row(num, nodes, cd, i, j);
      Sorted(row) &&
      forall x :: 0 <= x < |row| ==>
        Proper(num, nodes, cd, row[x]) && row[x].nodeA == i && row[x].nodeB <= i + j
    decreases j
  {
    if j > 0 {
      RowShape(num, nodes, cd, i, j - 1);
    }
  }

  lemma {:induction false} RowComplete(num: Numerics, nodes: seq<Node>, cd: real, i: nat, j: nat, k: nat)
    requires i < |nodes| && i + j < |nodes|
    requires i < k <= i + j && Close(num, nodes, cd, i, k)
    ensures EdgeOf(i, k) in Row(num, nodes, cd, i, j)
    decreases j
  {
    if k < i + j {
      RowComplete(num, nodes, cd, i, j - 1, k);
    }
  }

  lemma {:induction false} UpToShape(num: Numerics, nodes: seq<Node>, cd: real, m: nat)
    requires m <= |nodes|
    ensures var es := EdgesUpTo(num, nodes, cd, m);
      Sorted(es) &&
      forall x :: 0 <= x < |es| ==> Proper(num, nodes, cd, es[x]) && es[x].nodeA < m
    decreases m
  {
    if m > 0 {
      UpToShape(num, nodes, cd, m - 1);
      RowShape(num, nodes, cd, m - 1, |nodes| - m);
      var a := EdgesUpTo(num, nodes, cd, m - 1);
      var r := Row(num, nodes, cd, m - 1, |nodes| - m);
      var es := a + r;
      forall x, y | 0 <= x < y < |es| ensures Before(es[x], es[y]) {
        if y < |a| {
          assert es[x] == a[x] && es[y] == a[y];
        } else if x >= |a| {
          assert es[x] == r[x - |a|] && es[y] == r[y - |a|];
        } else {
          assert es[x] == a[x] && es[y] == r[y - |a|];
        }
      }
    }
  }

  lemma {:induction false} UpToComplete(num: Numerics, nodes: seq<Node>, cd: real, m: nat, i: nat, k: nat)
    requires m <= |nodes|
    requires i < m && i < k < |nodes| && Close(num, nodes, cd, i, k)
    ensures EdgeOf(i, k) in EdgesUpTo(num, nodes, cd, m)
    decreases m
  {
    if i < m - 1 {
      UpToComplete(num, nodes, cd, m - 1, i, k);
    } else {
      RowComplete(num, nodes, cd, i, |nodes| - m, k);
    }
  }

  /** Every edge joins two close nodes `a < b` in range, under its "a-b" id,
      and the list is in strictly increasing `(a, b)` order. */
  lemma EdgesWellFormed(num: Numerics, nodes: seq<Node>, cd: real)
    ensures var es := AllEdges(num, nodes, cd);
      Sorted(es) && forall x :: 0 <= x < |es| ==> Proper(num, nodes, cd, es[x])
  {
    UpToShape(num, nodes, cd, |nodes|);
  }

  /** A pair `i < k` is listed exactly when the two nodes are closer than
      `connectionDistance`, and then at exactly one position. */
  lemma EdgeMembership(num: Numerics, nodes: seq<Node>, cd: real, i: nat, k: nat)
    requires i < k < |nodes|
    ensures var es := AllEdges(num, nodes, cd);
      (EdgeOf(i, k) in es <==> Close(num, nodes, cd, i, k)) &&
      forall x, y :: (0 <= x < |es| && 0 <= y < |es| &&
        es[x].nodeA == i && es[x].nodeB == k && es[y].nodeA == i && es[y].nodeB == k) ==> x == y
  {
    var es := AllEdges(num, nodes, cd);
    UpToShape(num, nodes, cd, |nodes|);
    if Close(num, nodes, cd, i, k) {
      UpToComplete(num, nodes, cd, |nodes|, i, k);
    }
    if EdgeOf(i, k) in es {
      var x :| 0 <= x < |es| && es[x] == EdgeOf(i, k);
      assert Proper(num, nodes, cd, es[x]);
    }
  }

  /** No two edges share an id. */
  lemma EdgeIdsUnique(num: Numerics, nodes: seq<Node>, cd: real)
    ensures var es := AllEdges(num, nodes, cd);
      forall x, y :: 0 <= x < y < |es| ==> es[x].id != es[y].id
  {
    var es := AllEdges(num, nodes, cd);
    UpToShape(num, nodes, cd, |nodes|);
    forall x, y | 0 <= x < y < |es| ensures es[x].id != es[y].id {
      assert Proper(num, nodes, cd, es[x]) && Proper(num, nodes, cd, es[y]);
      assert Before(es[x], es[y]);
      if es[x].id == es[y].id {
        EdgeIdInjective(es[x].nodeA, es[x].nodeB, es[y].nodeA, es[y].nodeB);
      }
    }
  }

  /** With a genuine square root, a non-empty edge list needs a positive
      `connectionDistance`: no distance is below zero. */
  lemma EdgesNeedReach(num: Numerics, nodes: seq<Node>, cd: real)
    requires ValidNumerics(num)
    ensures AllEdges(num, nodes, cd) != [] ==> 0.0 < cd
  {
    var es := AllEdges(num, nodes, cd);
    if es != [] {
      EdgesWellFormed(num, nodes, cd);
      assert Proper(num, nodes, cd, es[0]);
      DistanceProps(num, Pos(nodes[es[0].nodeA]), Pos(nodes[es[0].nodeB]));
    }
  }

  /** calculateEdges: the nested loop over `i` and `k = j + i + 1`. */
  method BuildEdges(num: Numerics, nodes: seq<Node>, cd: real) returns (edges: seq<Edge>)
    ensures edges == AllEdges(num, nodes, cd)
  {
    edges := [];
    var i := 0;
    while i < |nodes|
      invariant 0 <= i <= |nodes|
      invariant edges == EdgesUpTo(num, nodes, cd, i)
    {
      var j := 0;
      while j < |nodes| - (i + 1)
        invariant 0 <= j <= |nodes| - (i + 1)
        invariant edges == EdgesUpTo(num, nodes, cd, i) + Row(num, nodes, cd, i, j)
      {
        var k := j + i + 1;
        if Distance(num, Pos(nodes[i]), Pos(nodes[k])) < cd {
          edges := edges + [Edge(EdgeId(i, k), i, k)];
        }
        j := j + 1;
      }
      i := i + 1;
    }
  }
}
