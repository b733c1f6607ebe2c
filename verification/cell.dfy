/**
 * The cell graph of a DARTS-style search cell and the flat action space of
 * the environment: `nodes` intermediate nodes plus the two input nodes 0
 * and 1, an adjacency matrix over them, and the numbering of directed
 * edges into the state table.
 */
module Cell {

  /**
   * `(x, y)` is a directed edge of the cell: two distinct nodes, not the
   * two input nodes 0 and 1 together. Every such pair appears once per
   * direction in the state table.
   */
  predicate IsCellEdge(k: (int, int), nodes: nat) {
    && 0 <= k.0 < nodes + 2
    && 0 <= k.1 < nodes + 2
    && k.0 != k.1
    && (k.0 >= 2 || k.1 >= 2)
  }

  /** The first m rows of the n x n matrix of ones minus the identity. */
  function OnesMinusEye(n: nat, m: nat): (E: seq<seq<int>>)
    requires m <= n
    ensures |E| == m
    ensures forall x :: 0 <= x < m ==> |E[x]| == n
    ensures forall x, y :: 0 <= x < m && 0 <= y < n ==> E[x][y] == (if x == y then 0 else 1)
  {
    if m == 0 then [] else OnesMinusEye(n, m - 1) + [OnesMinusEyeRow(m - 1, n)]
  }

  /** The first m entries of row x of ones minus the identity. */
  function OnesMinusEyeRow(x: nat, m: nat): (row: seq<int>)
    ensures |row| == m
    ensures forall y :: 0 <= y < m ==> row[y] == (if x == y then 0 else 1)
  {
    if m == 0 then [] else OnesMinusEyeRow(x, m - 1) + [if x == m - 1 then 0 else 1]
  }

  /**
   * The adjacency matrix `A`: all ones, minus the identity, with the
   * entries between the two input nodes cleared.
   */
  function Adjacency(nodes: nat): (A: seq<seq<int>>)
    ensures |A| == nodes + 2
    ensures forall x :: 0 <= x < |A| ==> |A[x]| == nodes + 2
    ensures forall x, y :: 0 <= x < nodes + 2 && 0 <= y < nodes + 2 ==>
      A[x][y] == (if x == y || (x == 0 && y == 1) || (x == 1 && y == 0) then 0 else 1)
    ensures forall x, y :: 0 <= x < nodes + 2 && 0 <= y < nodes + 2 ==>
      A[x][y] == A[y][x] && (A[x][y] > 0 <==> IsCellEdge((x, y), nodes))
  {
    var ones := OnesMinusEye(nodes + 2, nodes + 2);
    ones[0 := ones[0][1 := 0]][1 := ones[1][0 := 0]]
  }

  /** Number of discrete actions: |A| + 2 * |primitives| + 1. */
  function ActionSpaceSize(n: nat, nOps: nat): nat {
    n + 2 * nOps + 1
  }

  /** The four kinds of action encoded in one integer, and the integers outside them. */
  datatype Action =
    | Traverse(target: nat)
    | Increase(op: nat)
    | Decrease(op: nat)
    | Terminate
    | Ignored

  predicate IsValidAction(a: Action, n: nat, nOps: nat) {
    match a
    case Traverse(t) => t < n
    case Increase(op) => op < nOps
    case Decrease(op) => op < nOps
    case Terminate => true
    case Ignored => false
  }

  /** The integer the agent sends for an action. */
  function EncodeAction(a: Action, n: nat, nOps: nat): (action: int)
    requires IsValidAction(a, n, nOps)
    ensures 0 <= action < ActionSpaceSize(n, nOps)
  {
    match a
    case Traverse(t) => t
    case Increase(op) => n + op
    case Decrease(op) => n + nOps + op
    case Terminate => n + 2 * nOps
  }

  /**
   * The action an integer stands for: [0, n) traverses, [n, n + nOps)
   * increases, [n + nOps, n + 2 nOps) decreases, n + 2 nOps terminates.
   */
  function DecodeAction(action: int, n: nat, nOps: nat): (a: Action)
    ensures a.Ignored? <==> !(0 <= action < ActionSpaceSize(n, nOps))
    ensures !a.Ignored? ==> IsValidAction(a, n, nOps) && EncodeAction(a, n, nOps) == action
  {
    if 0 <= action < n then Traverse(action)
    else if n <= action < n + nOps then Increase(action - n)
    else if n + nOps <= action < n + 2 * nOps then Decrease(action - n - nOps)
    else if action == n + 2 * nOps then Terminate
    else Ignored
  }

  /** Decoding undoes encoding: the four ranges do not overlap. */
  lemma DecodeEncode(a: Action, n: nat, nOps: nat)
    requires IsValidAction(a, n, nOps)
    ensures DecodeAction(EncodeAction(a, n, nOps), n, nOps) == a
  {
  }

  // Numbering of directed edges. Row i of the weights holds the edges into
  // node i + 2, one from each lower node j; the state table lists, row by
  // row and edge by edge, the forward edge (j, i + 2) and then the reverse
  // edge (i + 2, j).

  /** The weight row of an edge: the one of its higher endpoint. */
  function RowOf(k: (int, int)): int {
    if k.0 < k.1 then k.1 - 2 else k.0 - 2
  }

  /** The position of an edge in its weight row: its lower endpoint. */
  function EdgeOf(k: (int, int)): int {
    if k.0 < k.1 then k.0 else k.1
  }

  /** `(row, position)` of the weights an edge mutates; the same for both directions. */
  function AlphaOf(k: (int, int)): (int, int) {
    (RowOf(k), EdgeOf(k))
  }

  /** First state-table index of weight row i: rows 0..i-1 hold 2 + 3 + ... + (i + 1) edges, two states each. */
  function RowStart(i: nat): nat {
    if i == 0 then 0 else RowStart(i - 1) + 2 * (i + 1)
  }

  /** Row i starts at index i * (i + 3). */
  lemma {:induction false} RowStartClosedForm(i: nat)
    ensures RowStart(i) == i * (i + 3)
  {
    if i > 0 {
      RowStartClosedForm(i - 1);
      assert (i - 1) * (i + 2) + 2 * (i + 1) == i * (i + 3);
    }
  }

  /** The state-table index of a directed edge. */
  function IndexOf(k: (int, int)): int
    requires RowOf(k) >= 0
  {
    RowStart(RowOf(k)) + 2 * EdgeOf(k) + (if k.0 < k.1 then 0 else 1)
  }

  lemma {:induction false} RowStartMonotone(i: nat, j: nat)
    requires i <= j
    ensures RowStart(i) <= RowStart(j)
    decreases j - i
  {
    if i < j {
      RowStartMonotone(i + 1, j);
      assert RowStart(i + 1) == RowStart(i) + 2 * (i + 2);
    }
  }

  /** Every cell edge of a row lands inside that row's block of the state table. */
  lemma IndexInRowBlock(k: (int, int), nodes: nat)
    requires IsCellEdge(k, nodes)
    ensures 0 <= RowOf(k) < nodes && 0 <= EdgeOf(k) < RowOf(k) + 2
    ensures RowStart(RowOf(k)) <= IndexOf(k) < RowStart(RowOf(k) + 1)
  {
    assert RowStart(RowOf(k) + 1) == RowStart(RowOf(k)) + 2 * (RowOf(k) + 2);
  }

  /** The row whose block of table indices holds s, searching upwards from row r. */
  function RowFrom(s: nat, r: nat): (row: nat)
    requires RowStart(r) <= s
    ensures r <= row && RowStart(row) <= s < RowStart(row + 1)
    decreases s - RowStart(r)
  {
    if s < RowStart(r + 1) then r else RowFrom(s, r + 1)
  }

  /**
   * The directed edge at table index s: in its row's block, position e
   * of the weight row holds the forward edge (e, row + 2) at an even
   * offset and the reverse edge (row + 2, e) at the odd offset after it.
   */
  function EdgeAt(s: nat): (int, int) {
    var row := RowFrom(s, 0);
    var e := (s - RowStart(row)) / 2;
    if (s - RowStart(row)) % 2 == 0 then (e, row + 2) else (row + 2, e)
  }

  /** Row blocks do not overlap. */
  lemma RowBlockUnique(s: nat, r: nat, r': nat)
    requires RowStart(r) <= s < RowStart(r + 1) && RowStart(r') <= s < RowStart(r' + 1)
    ensures r == r'
  {
    if r < r' {
      RowStartMonotone(r + 1, r');
    } else if r' < r {
      RowStartMonotone(r' + 1, r);
    }
  }

  /** Looking up the index of a cell edge gives the edge back. */
  lemma EdgeAtIndexOf(k: (int, int), nodes: nat)
    requires IsCellEdge(k, nodes)
    ensures EdgeAt(IndexOf(k)) == k
  {
    IndexInRowBlock(k, nodes);
    var s := IndexOf(k);
    var row := RowFrom(s, 0);
    RowBlockUnique(s, row, RowOf(k));
    var d := s - RowStart(row);
    if k.0 < k.1 {
      assert d == 2 * EdgeOf(k);
      assert d / 2 == EdgeOf(k) && d % 2 == 0;
      assert k == (EdgeOf(k), row + 2);
    } else {
      assert d == 2 * EdgeOf(k) + 1;
      assert d / 2 == EdgeOf(k) && d % 2 == 1;
      assert k == (row + 2, EdgeOf(k));
    }
  }

  /** Every index below RowStart(nodes) holds a cell edge numbered with that index. */
  lemma IndexOfEdgeAt(s: nat, nodes: nat)
    requires s < RowStart(nodes)
    ensures IsCellEdge(EdgeAt(s), nodes) && IndexOf(EdgeAt(s)) == s
  {
    var row := RowFrom(s, 0);
    if nodes <= row {
      RowStartMonotone(nodes, row);
    }
    assert RowStart(row + 1) == RowStart(row) + 2 * (row + 2);
    var d := s - RowStart(row);
    assert d == 2 * (d / 2) + d % 2;
  }

  /**
   * The state-table numbering of cell edges is a bijection onto
   * [0, RowStart(nodes)) with EdgeAt as its inverse: the edge at a cell
   * edge's index is that edge, and every index holds a cell edge
   * numbered with that index.
   */
  lemma Numbering(nodes: nat)
    ensures forall k :: IsCellEdge(k, nodes) ==> 0 <= IndexOf(k) < RowStart(nodes) && EdgeAt(IndexOf(k)) == k
    ensures forall s: nat :: s < RowStart(nodes) ==> IsCellEdge(EdgeAt(s), nodes) && IndexOf(EdgeAt(s)) == s
  {
    forall k | IsCellEdge(k, nodes)
      ensures 0 <= IndexOf(k) < RowStart(nodes) && EdgeAt(IndexOf(k)) == k
    {
      IndexInRowBlock(k, nodes);
      RowStartMonotone(RowOf(k) + 1, nodes);
      EdgeAtIndexOf(k, nodes);
    }
    forall s: nat | s < RowStart(nodes)
      ensures IsCellEdge(EdgeAt(s), nodes) && IndexOf(EdgeAt(s)) == s
    {
      IndexOfEdgeAt(s, nodes);
    }
  }

  /**
   * Hence distinct cell edges have distinct indices, and the two
   * directions of one edge sit at consecutive indices, forward first,
   * sharing one weight position.
   */
  lemma IndexOfBijective(k: (int, int), k': (int, int), nodes: nat)
    requires IsCellEdge(k, nodes) && IsCellEdge(k', nodes)
    ensures IndexOf(k) == IndexOf(k') <==> k == k'
    ensures k.0 < k.1 ==> IndexOf((k.1, k.0)) == IndexOf(k) + 1
    ensures AlphaOf((k.1, k.0)) == AlphaOf(k)
  {
    EdgeAtIndexOf(k, nodes);
    EdgeAtIndexOf(k', nodes);
  }
}
