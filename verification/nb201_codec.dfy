/**
 * The NAS-Bench-201 graph codec of the meta-predictor: a cell is a list of
 * rows `[type, b_0, b_1, ...]`, one per vertex, where bit b_j = 1 asks for
 * an edge j -> i. The igraph graph it decodes to is modelled as the `type`
 * attribute of every vertex and the list of edges in insertion order.
 */
module Nb201Codec {
  import opened Wrappers

  /** A directed igraph graph: the type of each vertex and the edges in the order they were added. */
  datatype Graph = Graph(types: seq<int>, edges: seq<(int, int)>)

  /** Every edge joins two vertices of the graph. */
  ghost predicate WellFormed(g: Graph) {
    forall e :: e in g.edges ==> 0 <= e.0 < |g.types| && 0 <= e.1 < |g.types|
  }

  /* ---------------------------------------------------------------- decoding */

  /** The edges j -> i asked for by the connection bits of the row of vertex i. */
  function BitSources(bits: seq<int>, i: int): (r: seq<(int, int)>)
    ensures |r| <= |bits|
  {
    if |bits| == 0 then []
    else BitSources(bits[..|bits| - 1], i) + (if bits[|bits| - 1] == 1 then [(|bits| - 1, i)] else [])
  }

  /** The edges are exactly those from each set bit's position to i. */
  lemma {:induction false} BitSourcesMeaning(bits: seq<int>, i: int)
    ensures forall e :: e in BitSources(bits, i) <==> e.1 == i && 0 <= e.0 < |bits| && bits[e.0] == 1
  {
    if |bits| > 0 {
      BitSourcesMeaning(bits[..|bits| - 1], i);
      assert forall j :: 0 <= j < |bits| - 1 ==> bits[..|bits| - 1][j] == bits[j];
    }
  }

  /** Taking one more bit adds at most its edge at the end. */
  lemma BitSourcesStep(bits: seq<int>, j: int, i: int)
    requires 0 <= j < |bits|
    ensures BitSources(bits[..j + 1], i) == BitSources(bits[..j], i) + (if bits[j] == 1 then [(j, i)] else [])
  {
    assert bits[..j + 1][..j] == bits[..j];
  }

  /**
   * The edges the row of vertex i adds to a graph of n vertices: the chain
   * edge i -> i + 1 for 0 < i < n - 2, then one edge per set bit.
   */
  function RowEdges(node: seq<int>, i: int, n: int): seq<(int, int)>
    requires |node| > 0
  {
    (if 0 < i < n - 2 then [(i, i + 1)] else []) + BitSources(node[1..], i)
  }

  /** Every set bit of the row names a vertex of a graph of n vertices. */
  predicate SourcesInRange(node: seq<int>, n: int) {
    forall j | 1 <= j < |node| :: node[j] == 1 ==> j - 1 < n
  }

  /** Row i can be decoded: it holds a type, and its set bits name existing vertices. */
  predicate RowOk(rows: seq<seq<int>>, i: int)
    requires 0 <= i < |rows|
  {
    |rows[i]| > 0 && SourcesInRange(rows[i], |rows|)
  }

  /** The chain edge of a vertex i among the first m rows of n. */
  ghost predicate ChainEdge(n: int, m: int, e: (int, int)) {
    0 < e.0 < m && e.0 < n - 2 && e.1 == e.0 + 1
  }

  /** The edge asked for by bit e.0 of the row of vertex e.1, one of the first m rows. */
  ghost predicate BitEdge(rows: seq<seq<int>>, m: int, e: (int, int))
    requires m <= |rows|
  {
    0 <= e.1 < m && 0 <= e.0 && e.0 + 1 < |rows[e.1]| && rows[e.1][e.0 + 1] == 1
  }

  /**
   * The graph of the first m rows, or the exception decoding them raises:
   * IndexError for a row without a type, ValueError (igraph's refusal of
   * an unknown vertex) for a bit naming a vertex past the last one.
   */
  function DecodeRows(rows: seq<seq<int>>, m: nat): (r: Result<Graph, Error>)
    requires m <= |rows|
    ensures r.Err? ==> r.error == IndexError || r.error == ValueError
  {
    if m == 0 then Ok(Graph([], []))
    else
      match DecodeRows(rows, m - 1)
      case Err(e) => Err(e)
      case Ok(g) =>
        var node := rows[m - 1];
        if |node| == 0 then Err(IndexError)
        else if !SourcesInRange(node, |rows|) then Err(ValueError)
        else Ok(Graph(g.types + [node[0]], g.edges + RowEdges(node, m - 1, |rows|)))
  }

  /**
   * The first m rows decode iff each has a type and names existing
   * vertices; the graph then has a vertex per row, typed by the row's first
   * entry, and exactly the chain edges and the edges the bits ask for.
   */
  lemma {:induction false} DecodeRowsMeaning(rows: seq<seq<int>>, m: nat)
    requires m <= |rows|
    ensures var r := DecodeRows(rows, m);
      && (r.Ok? <==> forall i :: 0 <= i < m ==> RowOk(rows, i))
      && (r.Ok? ==> |r.value.types| == m && forall i :: 0 <= i < m ==> |rows[i]| > 0 && r.value.types[i] == rows[i][0])
      && (r.Ok? ==> forall e :: e in r.value.edges <==> ChainEdge(|rows|, m, e) || BitEdge(rows, m, e))
  {
    if m > 0 {
      DecodeRowsMeaning(rows, m - 1);
      var node := rows[m - 1];
      if DecodeRows(rows, m - 1).Ok? && |node| > 0 {
        BitSourcesMeaning(node[1..], m - 1);
        assert forall j :: 0 <= j < |node| - 1 ==> node[1..][j] == node[j + 1];
      }
      if !RowOk(rows, m - 1) {
        assert DecodeRows(rows, m).Err?;
      }
    }
  }

  /**
   * decode_metad2a_to_igraph: one vertex per row, typed by the row's first
   * entry, with the chain edges and the edges the bits ask for.
   */
  function DecodeMetaD2A(rows: seq<seq<int>>): (r: Result<Graph, Error>)
    ensures r.Err? ==> r.error == IndexError || r.error == ValueError
  {
    DecodeRows(rows, |rows|)
  }

  /**
   * A list of rows decodes iff every row has a type and names existing
   * vertices. The graph then has one vertex per row, typed by the row's
   * first entry, exactly the chain edges and the edges the bits ask for,
   * and no edge leaves the graph.
   */
  lemma DecodeMetaD2AMeaning(rows: seq<seq<int>>)
    ensures var r := DecodeMetaD2A(rows);
      && (r.Ok? <==> forall i :: 0 <= i < |rows| ==> RowOk(rows, i))
      && (r.Ok? ==> |r.value.types| == |rows| && forall i :: 0 <= i < |rows| ==> |rows[i]| > 0 && r.value.types[i] == rows[i][0])
      && (r.Ok? ==> forall e :: e in r.value.edges <==> ChainEdge(|rows|, |rows|, e) || BitEdge(rows, |rows|, e))
      && (r.Ok? ==> WellFormed(r.value))
  {
    DecodeRowsMeaning(rows, |rows|);
    var r := DecodeRows(rows, |rows|);
    if r.Ok? {
      forall e | e in r.value.edges
        ensures 0 <= e.0 < |rows| && 0 <= e.1 < |rows|
      {
        if BitEdge(rows, |rows|, e) {
          assert RowOk(rows, e.1);
          assert rows[e.1][e.0 + 1] == 1;
        }
      }
    }
  }

  /** Once a prefix of the rows fails to decode, every longer prefix fails with the same exception. */
  lemma {:induction false} ErrorPersists(rows: seq<seq<int>>, m: nat, m': nat)
    requires m <= m' <= |rows| && DecodeRows(rows, m).Err?
    ensures DecodeRows(rows, m') == DecodeRows(rows, m)
    decreases m' - m
  {
    if m < m' {
      ErrorPersists(rows, m, m' - 1);
    }
  }

  /**
   * The inner loop of decode_NAS_BENCH_201_8_to_igraph: adds the edge of
   * every set bit of the row of vertex i to `edges`, failing with
   * ValueError at the first bit that names no vertex of the n.
   */
  method AddBitEdges(node: seq<int>, i: int, n: int, edges: seq<(int, int)>) returns (r: Result<seq<(int, int)>, Error>)
    requires |node| > 0
    ensures r == if SourcesInRange(node, n) then Ok(edges + BitSources(node[1..], i)) else Err(ValueError)
  {
    var bits := node[1..];
    var added := edges;
    var j := 0;
    while j < |bits|
      invariant 0 <= j <= |bits|
      invariant added == edges + BitSources(bits[..j], i)
      invariant forall t :: 0 <= t < j && bits[t] == 1 ==> t < n
    {
      BitSourcesStep(bits, j, i);
      if bits[j] == 1 {
        if j >= n {
          assert node[j + 1] == 1;
          return Err(ValueError);
        }
        added := added + [(j, i)];
      }
      j := j + 1;
    }
    assert bits[..j] == bits;
    assert forall t :: 1 <= t < |node| ==> node[t] == bits[t - 1];
    r := Ok(added);
  }

  /**
   * decode_NAS_BENCH_201_8_to_igraph: the same decoding, adding the type
   * and the edges of one row after another.
   */
  method DecodeNasBench201ToGraph(rows: seq<seq<int>>) returns (r: Result<Graph, Error>)
    ensures r == DecodeMetaD2A(rows)
  {
    var n := |rows|;
    var types: seq<int> := [];
    var edges: seq<(int, int)> := [];
    var i := 0;
    r := Ok(Graph(types, edges));
    while i < n && r.Ok?
      invariant 0 <= i <= n
      invariant r == DecodeRows(rows, i)
      invariant r.Ok? ==> r.value == Graph(types, edges)
    {
      var node := rows[i];
      if |node| == 0 {
        r := Err(IndexError);
      } else {
        types := types + [node[0]];
        var chained := edges + (if 0 < i < n - 2 then [(i, i + 1)] else []);
        var added := AddBitEdges(node, i, n, chained);
        if added.Ok? {
          assert added.value == edges + RowEdges(node, i, n);
          edges := added.value;
          r := Ok(Graph(types, edges));
        } else {
          r := Err(added.error);
        }
      }
      i := i + 1;
    }
    if r.Err? {
      ErrorPersists(rows, i, n);
    }
  }

  /**
   * When row i holds at most i connection bits, every decoded edge leads
   * from a lower to a higher vertex.
   */
  lemma DecodedEdgesForward(rows: seq<seq<int>>)
    requires forall i :: 0 <= i < |rows| ==> |rows[i]| <= i + 1
    requires DecodeMetaD2A(rows).Ok?
    ensures forall e :: e in DecodeMetaD2A(rows).value.edges ==> e.0 < e.1
  {
    DecodeMetaD2AMeaning(rows);
  }

  /** A decoded cell whose row i holds at most i bits is acyclic. */
  lemma DecodedIsDag(rows: seq<seq<int>>)
    requires forall i :: 0 <= i < |rows| ==> |rows[i]| <= i + 1
    requires DecodeMetaD2A(rows).Ok?
    ensures IsDag(DecodeMetaD2A(rows).value) && Acyclic(DecodeMetaD2A(rows).value)
  {
    var g := DecodeMetaD2A(rows).value;
    DecodeMetaD2AMeaning(rows);
    DecodedEdgesForward(rows);
    ForwardIsDag(g);
    DagIffAcyclic(g);
  }

  /* ------------------------------------------------------------ acyclicity */

  /** The heads of the edges leaving a vertex of S. */
  function Successors(g: Graph, S: set<int>): set<int> {
    set e | e in g.edges && e.0 in S :: e.1
  }

  /** The vertices reached from S by walks of 1 to k edges. */
  function Reach(g: Graph, S: set<int>, k: nat): set<int>
    decreases k
  {
    if k == 0 then {} else Successors(g, S) + Reach(g, Successors(g, S), k - 1)
  }

  /** igraph's is_dag: no vertex is reached from itself by a walk of at most |V| edges. */
  function IsDag(g: Graph): bool {
    forall v | 0 <= v < |g.types| :: v !in Reach(g, {v}, |g.types|)
  }

  /** p is a walk: consecutive vertices are joined by an edge. */
  ghost predicate IsWalk(g: Graph, p: seq<int>) {
    |p| >= 1 && forall t :: 0 <= t < |p| - 1 ==> (p[t], p[t + 1]) in g.edges
  }

  /** p is a closed walk of at least one edge. */
  ghost predicate IsCycle(g: Graph, p: seq<int>) {
    IsWalk(g, p) && |p| >= 2 && p[0] == p[|p| - 1]
  }

  /** The graph has no directed cycle. */
  ghost predicate Acyclic(g: Graph) {
    forall p :: !IsCycle(g, p)
  }

  /** A vertex reached within k edges ends a walk of 1 to k edges from S. */
  lemma {:induction false} ReachHasWalk(g: Graph, S: set<int>, k: nat, u: int)
    requires u in Reach(g, S, k)
    ensures exists p :: IsWalk(g, p) && 2 <= |p| <= k + 1 && p[0] in S && p[|p| - 1] == u
    decreases k
  {
    var N := Successors(g, S);
    if u in N {
      var e :| e in g.edges && e.0 in S && e.1 == u;
      assert IsWalk(g, [e.0, u]);
    } else {
      ReachHasWalk(g, N, k - 1, u);
      var p :| IsWalk(g, p) && 2 <= |p| <= k && p[0] in N && p[|p| - 1] == u;
      var e :| e in g.edges && e.0 in S && e.1 == p[0];
      var q := [e.0] + p;
      assert forall t :: 0 < t < |q| - 1 ==> (q[t], q[t + 1]) == (p[t - 1], p[t]);
      assert IsWalk(g, q);
    }
  }

  /** The end of a walk of at least one edge from S is reached within its length. */
  lemma {:induction false} WalkReaches(g: Graph, S: set<int>, p: seq<int>)
    requires IsWalk(g, p) && |p| >= 2 && p[0] in S
    ensures p[|p| - 1] in Reach(g, S, |p| - 1)
    decreases |p|
  {
    var N := Successors(g, S);
    assert (p[0], p[1]) in g.edges;
    assert p[1] in N;
    if |p| > 2 {
      var q := p[1..];
      assert forall t :: 0 <= t < |q| - 1 ==> (q[t], q[t + 1]) == (p[t + 1], p[t + 2]);
      WalkReaches(g, N, q);
    }
  }

  /** Reach grows with the number of edges allowed. */
  lemma {:induction false} ReachGrows(g: Graph, S: set<int>, k: nat, k': nat)
    requires k <= k'
    ensures Reach(g, S, k) <= Reach(g, S, k')
    decreases k
  {
    if k > 0 {
      ReachGrows(g, Successors(g, S), k - 1, k' - 1);
    }
  }

  /** Among more than n values below n, two are equal. */
  lemma {:induction false} DistinctBound(s: seq<int>, n: nat)
    requires forall t :: 0 <= t < |s| ==> 0 <= s[t] < n
    requires forall a, b :: 0 <= a < b < |s| ==> s[a] != s[b]
    ensures |s| <= n
    decreases |s|
  {
    if |s| > 0 {
      // drop the last value x, and let x stand for n - 1 in the rest
      var x := s[|s| - 1];
      var rest := seq(|s| - 1, t requires 0 <= t < |s| - 1 => if s[t] == n - 1 then x else s[t]);
      forall a, b | 0 <= a < b < |rest|
        ensures rest[a] != rest[b]
      {
        assert s[a] != s[b] && s[a] != x && s[b] != x;
      }
      forall t | 0 <= t < |rest|
        ensures 0 <= rest[t] < n - 1
      {
        assert s[t] != x;
        if s[t] == n - 1 {
          assert x != n - 1;
        }
      }
      DistinctBound(rest, n - 1);
    }
  }

  /** A cycle can be shortened to one of at most |V| edges. */
  lemma {:induction false} ShortCycle(g: Graph, p: seq<int>)
    requires WellFormed(g) && IsCycle(g, p)
    ensures exists q :: IsCycle(g, q) && |q| - 1 <= |g.types|
    decreases |p|
  {
    var n := |g.types|;
    var L := |p| - 1;
    if L > n {
      var s := p[..L];
      forall t | 0 <= t < L
        ensures 0 <= s[t] < n
      {
        var e := (p[t], p[t + 1]);
        assert e in g.edges;
      }
      if forall a, b :: 0 <= a < b < L ==> s[a] != s[b] {
        DistinctBound(s, n);
        assert false;
      }
      var a, b :| 0 <= a < b < L && s[a] == s[b];
      var q := p[a..b + 1];
      assert forall t :: 0 <= t < |q| - 1 ==> (q[t], q[t + 1]) == (p[a + t], p[a + t + 1]);
      assert IsCycle(g, q);
      ShortCycle(g, q);
    } else {
      assert IsCycle(g, p);
    }
  }

  /** IsDag is exactly the absence of directed cycles. */
  lemma DagIffAcyclic(g: Graph)
    requires WellFormed(g)
    ensures IsDag(g) <==> Acyclic(g)
  {
    var n := |g.types|;
    if !IsDag(g) {
      var v :| 0 <= v < n && v in Reach(g, {v}, n);
      ReachHasWalk(g, {v}, n, v);
      var p :| IsWalk(g, p) && 2 <= |p| <= n + 1 && p[0] in {v} && p[|p| - 1] == v;
      assert IsCycle(g, p);
    }
    if !Acyclic(g) {
      var p :| IsCycle(g, p);
      ShortCycle(g, p);
      var q :| IsCycle(g, q) && |q| - 1 <= n;
      var v := q[0];
      assert (q[0], q[1]) in g.edges;
      WalkReaches(g, {v}, q);
      ReachGrows(g, {v}, |q| - 1, n);
      assert v in Reach(g, {v}, n);
    }
  }

  /** Walks along edges that all point upwards never come back below where they started. */
  lemma {:induction false} ReachAbove(g: Graph, S: set<int>, k: nat, m: int)
    requires forall e :: e in g.edges ==> e.0 < e.1
    requires forall x :: x in S ==> x >= m
    ensures forall u :: u in Reach(g, S, k) ==> u > m
    decreases k
  {
    if k > 0 {
      var N := Successors(g, S);
      assert forall u :: u in N ==> u > m;
      ReachAbove(g, N, k - 1, m);
    }
  }

  /** A graph whose edges all point upwards is a DAG. */
  lemma ForwardIsDag(g: Graph)
    requires forall e :: e in g.edges ==> e.0 < e.1
    ensures IsDag(g)
  {
    forall v | 0 <= v < |g.types|
      ensures v !in Reach(g, {v}, |g.types|)
    {
      ReachAbove(g, {v}, |g.types|, v);
    }
  }

  /* -------------------------------------------------------------- validity */

  /** The number of edges entering v: igraph's in-degree. */
  function InDegree(edges: seq<(int, int)>, v: int): (c: nat)
    ensures c == 0 <==> forall t :: 0 <= t < |edges| ==> edges[t].1 != v
  {
    if |edges| == 0 then 0
    else InDegree(edges[..|edges| - 1], v) + (if edges[|edges| - 1].1 == v then 1 else 0)
  }

  /** The number of edges leaving v: igraph's out-degree. */
  function OutDegree(edges: seq<(int, int)>, v: int): (c: nat)
    ensures c == 0 <==> forall t :: 0 <= t < |edges| ==> edges[t].0 != v
  {
    if |edges| == 0 then 0
    else OutDegree(edges[..|edges| - 1], v) + (if edges[|edges| - 1].0 == v then 1 else 0)
  }

  /** The number of vertices of type t. */
  function CountType(types: seq<int>, t: int): nat {
    if |types| == 0 then 0
    else CountType(types[..|types| - 1], t) + (if types[|types| - 1] == t then 1 else 0)
  }

  /** Exactly one vertex has type t. */
  ghost predicate ExactlyOne(types: seq<int>, t: int) {
    exists v :: 0 <= v < |types| && types[v] == t && forall u :: 0 <= u < |types| && types[u] == t ==> u == v
  }

  /** Counting finds no vertex of type t iff there is none. */
  lemma {:induction false} CountTypeZero(types: seq<int>, t: int)
    ensures CountType(types, t) == 0 <==> t !in types
  {
    if |types| > 0 {
      CountTypeZero(types[..|types| - 1], t);
      assert types == types[..|types| - 1] + [types[|types| - 1]];
    }
  }

  /** Exactly one vertex of prev + [x] has type t iff x is the only one, or x is not of type t and prev has exactly one. */
  lemma ExactlyOneSnoc(prev: seq<int>, x: int, t: int)
    ensures ExactlyOne(prev + [x], t) <==> if x == t then t !in prev else ExactlyOne(prev, t)
  {
    var s := prev + [x];
    if ExactlyOne(s, t) {
      var v :| 0 <= v < |s| && s[v] == t && forall u :: 0 <= u < |s| && s[u] == t ==> u == v;
      if x == t {
        assert v == |prev|;
        forall u | 0 <= u < |prev|
          ensures prev[u] != t
        {
          assert s[u] == prev[u];
        }
      } else {
        assert s[v] == prev[v];
        forall u | 0 <= u < |prev| && prev[u] == t
          ensures u == v
        {
          assert s[u] == prev[u];
        }
      }
    }
    if x == t && t !in prev {
      assert s[|prev|] == t;
      forall u | 0 <= u < |prev|
        ensures s[u] != t
      {
        assert s[u] == prev[u];
      }
    }
    if x != t && ExactlyOne(prev, t) {
      var v :| 0 <= v < |prev| && prev[v] == t && forall u :: 0 <= u < |prev| && prev[u] == t ==> u == v;
      assert s[v] == t;
      forall u | 0 <= u < |s| && s[u] == t
        ensures u == v
      {
        assert u < |prev|;
        assert s[u] == prev[u];
      }
    }
  }

  /** Counting finds one vertex of type t iff there is exactly one. */
  lemma {:induction false} CountTypeOne(types: seq<int>, t: int)
    ensures CountType(types, t) == 1 <==> ExactlyOne(types, t)
  {
    if |types| == 0 {
      assert !ExactlyOne(types, t);
    } else {
      var prev := types[..|types| - 1];
      var x := types[|types| - 1];
      assert types == prev + [x];
      CountTypeOne(prev, t);
      CountTypeZero(prev, t);
      ExactlyOneSnoc(prev, x, t);
    }
  }

  /**
   * What is_valid_DAG accepts: an acyclic graph with a start type different
   * from the end type, exactly one vertex of each, and every vertex without
   * an incoming edge a start and every vertex without an outgoing edge an end.
   */
  ghost predicate ValidDag(g: Graph, startType: int, endType: int) {
    && IsDag(g)
    && startType != endType
    && ExactlyOne(g.types, startType)
    && ExactlyOne(g.types, endType)
    && (forall v :: 0 <= v < |g.types| && (forall e :: e in g.edges ==> e.1 != v) ==> g.types[v] == startType)
    && (forall v :: 0 <= v < |g.types| && (forall e :: e in g.edges ==> e.0 != v) ==> g.types[v] == endType)
  }

  /**
   * is_valid_DAG: counts the start and end vertices (a vertex of the start
   * type is not counted as an end) and stops at the first vertex that has
   * no incoming edge but is not a start, or no outgoing edge but is not an
   * end.
   */
  method IsValidDag(g: Graph, startType: int, endType: int) returns (ok: bool)
    ensures ok == ValidDag(g, startType, endType)
  {
    var res := IsDag(g);
    var nStart, nEnd := 0, 0;
    var v := 0;
    while v < |g.types|
      invariant 0 <= v <= |g.types|
      invariant nStart == CountType(g.types[..v], startType)
      invariant nEnd == if startType == endType then 0 else CountType(g.types[..v], endType)
      invariant forall u :: 0 <= u < v && (forall e :: e in g.edges ==> e.1 != u) ==> g.types[u] == startType
      invariant forall u :: 0 <= u < v && (forall e :: e in g.edges ==> e.0 != u) ==> g.types[u] == endType
    {
      assert g.types[..v + 1][..v] == g.types[..v];
      var t := g.types[v];
      if t == startType {
        nStart := nStart + 1;
      } else if t == endType {
        nEnd := nEnd + 1;
      }
      if InDegree(g.edges, v) == 0 && t != startType {
        return false;
      }
      if OutDegree(g.edges, v) == 0 && t != endType {
        return false;
      }
      v := v + 1;
    }
    assert g.types[..v] == g.types;
    CountTypeOne(g.types, startType);
    CountTypeOne(g.types, endType);
    ok := res && nStart == 1 && nEnd == 1;
  }

  /** What is_valid_NAS201 accepts: a valid DAG of 8 vertices whose inner vertices have neither type 0 nor 1. */
  ghost predicate ValidNas201(g: Graph, startType: int, endType: int) {
    && ValidDag(g, startType, endType)
    && |g.types| == 8
    && forall v :: 1 <= v < 7 ==> g.types[v] != 0 && g.types[v] != 1
  }

  /** is_valid_NAS201. */
  method IsValidNas201(g: Graph, startType: int, endType: int) returns (ok: bool)
    ensures ok == ValidNas201(g, startType, endType)
  {
    var res := IsValidDag(g, startType, endType);
    res := res && |g.types| == 8;
    res := res && 0 !in g.types[1..|g.types| - 1];
    res := res && 1 !in g.types[1..|g.types| - 1];
    ok := res;
  }

  /* ------------------------------------------------------- matrix and string */

  /** The positions of the operation matrix that decode_igraph_to_NAS201_matrix fills, vertex 1 to 6 in turn. */
  const Pairs: seq<(int, int)> := [(1, 0), (2, 0), (2, 1), (3, 0), (3, 1), (3, 2)]

  /** The vertex whose operation sits at entry (x, y) below the diagonal: the lower triangle read row by row. */
  function VertexAt(x: int, y: int): int {
    (if x == 1 then 0 else if x == 2 then 1 else 3) + y + 1
  }

  /**
   * m is the 4 x 4 operation matrix of the vertex types: below the diagonal,
   * the type of the vertex at that entry minus 2; zero elsewhere.
   */
  ghost predicate IsOpMatrix(types: seq<int>, m: seq<seq<real>>)
    requires |types| >= 7
  {
    && |m| == 4
    && (forall x :: 0 <= x < 4 ==> |m[x]| == 4)
    && forall x, y :: 0 <= x < 4 && 0 <= y < 4 ==>
         m[x][y] == if y < x then (types[VertexAt(x, y)] - 2) as real else 0.0
  }

  /**
   * decode_igraph_to_NAS201_matrix: writes the type of vertex i + 1, minus
   * 2, at the i-th position of Pairs; a graph of fewer than 7 vertices
   * raises IndexError.
   */
  method DecodeToMatrix(g: Graph) returns (r: Result<seq<seq<real>>, Error>)
    ensures r.Err? <==> |g.types| < 7
    ensures r.Err? ==> r.error == IndexError
    ensures r.Ok? ==> |g.types| >= 7 && IsOpMatrix(g.types, r.value)
  {
    var m: seq<seq<real>> := [[0.0, 0.0, 0.0, 0.0], [0.0, 0.0, 0.0, 0.0], [0.0, 0.0, 0.0, 0.0], [0.0, 0.0, 0.0, 0.0]];
    var i := 0;
    while i < |Pairs|
      invariant 0 <= i <= |Pairs|
      invariant i > 0 ==> |g.types| > i
      invariant |m| == 4 && forall x :: 0 <= x < 4 ==> |m[x]| == 4
      invariant forall x, y :: 0 <= x < 4 && 0 <= y < 4 ==>
        m[x][y] == if y < x && VertexAt(x, y) <= i then (g.types[VertexAt(x, y)] - 2) as real else 0.0
    {
      var (x, y) := Pairs[i];
      if i + 1 >= |g.types| {
        return Err(IndexError);
      }
      m := m[x := m[x][y := g.types[i + 1] as real - 2.0]];
      i := i + 1;
    }
    return Ok(m);
  }

  /** The operation names of NAS-Bench-201, indexed by operation matrix entry. */
  const OpNames: seq<string> := ["none", "skip_connect", "nor_conv_1x1", "nor_conv_3x3", "avg_pool_3x3"]

  /** The architecture string of the six operations on the edges (1,0), (2,0), (2,1), (3,0), (3,1), (3,2). */
  function ArchFormat(a: string, b: string, c: string, d: string, e: string, f: string): string {
    "|" + a + "~0|+|" + b + "~0|" + c + "~1|+|" + d + "~0|" + e + "~1|" + f + "~2|"
  }

  /** Python's int() of a float: truncation toward zero. */
  function Trunc(x: real): (r: int)
    ensures x >= 0.0 ==> r as real <= x < r as real + 1.0
    ensures x < 0.0 ==> r as real - 1.0 < x <= r as real
  {
    if x >= 0.0 then x.Floor else -((-x).Floor)
  }

  /** The name of the operation of vertex v, looked up with Python's (possibly negative) list index. */
  function OpOf(types: seq<int>, v: int): Option<string>
    requires 0 <= v < |types|
  {
    PyIndex(OpNames, types[v] - 2)
  }

  /**
   * The architecture string of the six inner vertices, in vertex order,
   * or IndexError when a type minus 2 is not a Python index of the five
   * names.
   */
  function ArchOf(types: seq<int>): (r: Result<string, Error>)
    requires |types| >= 7
    ensures r.Ok? <==> forall v :: 1 <= v < 7 ==> -3 <= types[v] <= 6
    ensures r.Err? ==> r.error == IndexError
  {
    var a, b, c := OpOf(types, 1), OpOf(types, 2), OpOf(types, 3);
    var d, e, f := OpOf(types, 4), OpOf(types, 5), OpOf(types, 6);
    if a.None? || b.None? || c.None? || d.None? || e.None? || f.None? then Err(IndexError)
    else Ok(ArchFormat(a.value, b.value, c.value, d.value, e.value, f.value))
  }

  /** With every inner type between 2 and 6, the string names OpNames[type - 2] for each inner vertex. */
  lemma ArchOfNames(types: seq<int>)
    requires |types| >= 7 && forall v :: 1 <= v < 7 ==> 2 <= types[v] <= 6
    ensures ArchOf(types) == Ok(ArchFormat(OpNames[types[1] - 2], OpNames[types[2] - 2], OpNames[types[3] - 2],
                                           OpNames[types[4] - 2], OpNames[types[5] - 2], OpNames[types[6] - 2]))
  {
    assert OpOf(types, 1).value == OpNames[types[1] - 2];
  }

  /**
   * decode_igraph_to_NAS_BENCH_201_string: None for a graph that is not a
   * valid NAS-Bench-201 cell, otherwise the string read off its operation
   * matrix.
   */
  method ArchString(g: Graph) returns (r: Result<Option<string>, Error>)
    ensures !ValidNas201(g, 0, 1) ==> r == Ok(None)
    ensures ValidNas201(g, 0, 1) ==> r == match ArchOf(g.types) case Ok(s) => Ok(Some(s)) case Err(e) => Err(e)
  {
    var valid := IsValidNas201(g, 0, 1);
    if !valid {
      return Ok(None);
    }
    var decoded := DecodeToMatrix(g);
    var m := decoded.value;
    var a := PyIndex(OpNames, Trunc(m[1][0]));
    var b := PyIndex(OpNames, Trunc(m[2][0]));
    var c := PyIndex(OpNames, Trunc(m[2][1]));
    var d := PyIndex(OpNames, Trunc(m[3][0]));
    var e := PyIndex(OpNames, Trunc(m[3][1]));
    var f := PyIndex(OpNames, Trunc(m[3][2]));
    assert a == OpOf(g.types, 1) && b == OpOf(g.types, 2) && c == OpOf(g.types, 3);
    assert d == OpOf(g.types, 4) && e == OpOf(g.types, 5) && f == OpOf(g.types, 6);
    if a.None? || b.None? || c.None? || d.None? || e.None? || f.None? {
      return Err(IndexError);
    }
    r := Ok(Some(ArchFormat(a.value, b.value, c.value, d.value, e.value, f.value)));
  }
}
