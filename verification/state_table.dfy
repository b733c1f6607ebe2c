/**
 * The state table: two observations per cell edge, one per direction,
 * listed row by row and edge by edge, and the numbering that finds the
 * observation of a directed edge.
 */
module StateTable {
  import opened Selection
  import opened Cell
  import opened AlphaOps

  /**
   * One row of the state table, `[from, to, flag, A[to], weights]`: the
   * directed edge, whether its weight position is among the two salient
   * edges of its row, the adjacency row of the node it points into, and
   * the normalised weights of the edge.
   */
  datatype Observation = Observation(src: int, dst: int, flag: int, adjacency: seq<int>, weights: seq<real>)
  {
    function Edge(): (int, int) {
      (src, dst)
    }
  }

  /** Normalised weights in the DARTS shape of the cell `A` is the adjacency of, every edge non-empty. */
  ghost predicate Shaped(norm: seq<seq<seq<real>>>, A: seq<seq<int>>) {
    && |A| >= 2
    && |norm| == |A| - 2
    && forall i :: 0 <= i < |norm| ==> |norm[i]| == i + 2 && forall j :: 0 <= j < i + 2 ==> |norm[i][j]| > 0
  }

  lemma DartsShaped(norm: seq<seq<seq<real>>>, A: seq<seq<int>>, nodes: nat, nOps: nat)
    requires DartsShape(norm, nodes, nOps) && nOps >= 1 && |A| == nodes + 2
    ensures Shaped(norm, A)
  {
  }

  /** The two salient edges of a row: the top 2 of the per-edge maxima. */
  function Salient(row: seq<seq<real>>): seq<nat>
    requires |row| >= 2 && forall j :: 0 <= j < |row| ==> |row[j]| > 0
  {
    TopK(EdgeMaxima(row), 2)
  }

  function Flag(row: seq<seq<real>>, j: int): int
    requires |row| >= 2 && forall e :: 0 <= e < |row| ==> |row[e]| > 0
  {
    if j in Salient(row) then 1 else 0
  }

  /**
   * The observation of the directed cell edge k = (x, y): the edge, the
   * flag of its weight position, the adjacency row of y, and the
   * normalised weights of the position, which both directions share.
   */
  function ObservationOf(norm: seq<seq<seq<real>>>, A: seq<seq<int>>, k: (int, int)): Observation
    requires Shaped(norm, A) && IsCellEdge(k, |norm|)
  {
    var (row, e) := AlphaOf(k);
    Observation(k.0, k.1, Flag(norm[row], e), A[k.1], norm[row][e])
  }

  /** `k` is a cell edge whose row is before i, or is i with a position before j. */
  predicate InPrefix(k: (int, int), nodes: nat, i: int, j: int) {
    IsCellEdge(k, nodes) && (RowOf(k) < i || (RowOf(k) == i && EdgeOf(k) < j))
  }

  /**
   * `t` is the state table: RowStart(|norm|) observations, the one of
   * every directed cell edge at that edge's index.
   */
  ghost predicate IsStateTable(norm: seq<seq<seq<real>>>, A: seq<seq<int>>, t: seq<Observation>)
    requires Shaped(norm, A)
  {
    && |t| == RowStart(|norm|)
    && forall k {:trigger ObservationOf(norm, A, k)} :: IsCellEdge(k, |norm|) ==>
         0 <= IndexOf(k) < |t| && t[IndexOf(k)] == ObservationOf(norm, A, k)
  }

  /** `t` is the state table built up to edge j of row i. */
  ghost predicate TableUpTo(norm: seq<seq<seq<real>>>, A: seq<seq<int>>, t: seq<Observation>, i: nat, j: nat)
    requires Shaped(norm, A)
  {
    && |t| == RowStart(i) + 2 * j
    && forall k :: InPrefix(k, |norm|, i, j) ==>
         0 <= IndexOf(k) < |t| && t[IndexOf(k)] == ObservationOf(norm, A, k)
  }

  /** Appending both directions of edge j of row i extends the table by one position. */
  lemma TableStep(norm: seq<seq<seq<real>>>, A: seq<seq<int>>, t: seq<Observation>, i: nat, j: nat)
    requires Shaped(norm, A) && i < |norm| && j < i + 2
    requires TableUpTo(norm, A, t, i, j)
    ensures TableUpTo(norm, A, t + [ObservationOf(norm, A, (j, i + 2)), ObservationOf(norm, A, (i + 2, j))], i, j + 1)
  {
    var t' := t + [ObservationOf(norm, A, (j, i + 2)), ObservationOf(norm, A, (i + 2, j))];
    forall k | InPrefix(k, |norm|, i, j + 1)
      ensures 0 <= IndexOf(k) < |t'| && t'[IndexOf(k)] == ObservationOf(norm, A, k)
    {
      if InPrefix(k, |norm|, i, j) {
        assert t'[IndexOf(k)] == t[IndexOf(k)];
      } else if k.0 < k.1 {
        assert k == (j, i + 2);
      } else {
        assert k == (i + 2, j);
      }
    }
  }

  /** The table and both maps built up to edge j of row i. */
  ghost predicate BuiltUpTo(norm: seq<seq<seq<real>>>, A: seq<seq<int>>, t: seq<Observation>,
                            toIndex: map<(int, int), int>, toAlpha: map<(int, int), (int, int)>, i: nat, j: nat)
    requires Shaped(norm, A)
  {
    TableUpTo(norm, A, t, i, j) && IndexMapUpTo(toIndex, |norm|, i, j) && AlphaMapUpTo(toAlpha, |norm|, i, j)
  }

  /**
   * The rows update_states builds for edge j of row i, with the flag taken
   * from the row's top 2, are the observations of the two directions.
   */
  lemma EdgeObservations(norm: seq<seq<seq<real>>>, A: seq<seq<int>>, i: nat, j: nat, flag: int)
    requires Shaped(norm, A) && i < |norm| && j < i + 2
    requires flag == if j in TopK(EdgeMaxima(norm[i]), 2) then 1 else 0
    ensures IsCellEdge((j, i + 2), |norm|) && IsCellEdge((i + 2, j), |norm|)
    ensures Observation(j, i + 2, flag, A[i + 2], norm[i][j]) == ObservationOf(norm, A, (j, i + 2))
    ensures Observation(i + 2, j, flag, A[j], norm[i][j]) == ObservationOf(norm, A, (i + 2, j))
  {
  }

  /**
   * One step of the inner loop of update_states: appending the forward
   * row [j, i + 2, flag, A[i + 2], weights] and the reverse row
   * [i + 2, j, flag, A[j], weights] of edge j of row i, with the flag of j
   * in the row's top 2, and entering both directions in the maps with the
   * next two indices, extends the table and maps by one position.
   */
  lemma EdgeStep(norm: seq<seq<seq<real>>>, A: seq<seq<int>>, t: seq<Observation>,
                 toIndex: map<(int, int), int>, toAlpha: map<(int, int), (int, int)>, i: nat, j: nat, flag: int)
    requires Shaped(norm, A) && i < |norm| && j < i + 2
    requires flag == if j in TopK(EdgeMaxima(norm[i]), 2) then 1 else 0
    requires BuiltUpTo(norm, A, t, toIndex, toAlpha, i, j)
    ensures BuiltUpTo(norm, A,
                      t + [Observation(j, i + 2, flag, A[i + 2], norm[i][j]), Observation(i + 2, j, flag, A[j], norm[i][j])],
                      toIndex[(j, i + 2) := |t|][(i + 2, j) := |t| + 1],
                      toAlpha[(j, i + 2) := (i, j)][(i + 2, j) := (i, j)], i, j + 1)
  {
    EdgeObservations(norm, A, i, j, flag);
    TableStep(norm, A, t, i, j);
    IndexMapStep(toIndex, |norm|, i, j);
    AlphaMapStep(toAlpha, |norm|, i, j);
  }

  /** After its last edge a row is complete: the table and maps are those up to the next row. */
  lemma TableRowDone(norm: seq<seq<seq<real>>>, A: seq<seq<int>>, t: seq<Observation>,
                     toIndex: map<(int, int), int>, toAlpha: map<(int, int), (int, int)>, i: nat)
    requires Shaped(norm, A) && i < |norm|
    requires BuiltUpTo(norm, A, t, toIndex, toAlpha, i, i + 2)
    ensures BuiltUpTo(norm, A, t, toIndex, toAlpha, i + 1, 0)
  {
    RowComplete(|norm|, i, i + 2);
    assert RowStart(i + 1) == RowStart(i) + 2 * (i + 2);
  }

  /** Past the last row the table and both maps are complete. */
  lemma AllBuilt(norm: seq<seq<seq<real>>>, A: seq<seq<int>>, t: seq<Observation>,
                 toIndex: map<(int, int), int>, toAlpha: map<(int, int), (int, int)>)
    requires Shaped(norm, A) && BuiltUpTo(norm, A, t, toIndex, toAlpha, |norm|, 0)
    ensures IsStateTable(norm, A, t)
    ensures IndexMapUpTo(toIndex, |norm|, |norm|, 0) && AlphaMapUpTo(toAlpha, |norm|, |norm|, 0)
  {
    AllRows(|norm|);
  }

  /** The state table is unique: its indices are exactly those of the cell edges. */
  lemma TableUnique(norm: seq<seq<seq<real>>>, A: seq<seq<int>>, t: seq<Observation>, t': seq<Observation>)
    requires Shaped(norm, A) && IsStateTable(norm, A, t) && IsStateTable(norm, A, t')
    ensures t == t'
  {
    forall s | 0 <= s < |t|
      ensures t[s] == t'[s]
    {
      var k := EdgeAt(s);
      IndexOfEdgeAt(s, |norm|);
      assert t[IndexOf(k)] == ObservationOf(norm, A, k);
      SharedObservation(norm, A, k);
    }
  }

  /**
   * Every observation of the state table is the observation of a cell
   * edge the numbering sends back to the observation's own index.
   */
  lemma TableIndexing(norm: seq<seq<seq<real>>>, A: seq<seq<int>>, t: seq<Observation>)
    requires Shaped(norm, A) && IsStateTable(norm, A, t)
    ensures forall s :: 0 <= s < |t| ==>
      IsCellEdge(t[s].Edge(), |norm|) && IndexOf(t[s].Edge()) == s && t[s] == ObservationOf(norm, A, t[s].Edge())
  {
    forall s | 0 <= s < |t|
      ensures IsCellEdge(t[s].Edge(), |norm|) && IndexOf(t[s].Edge()) == s && t[s] == ObservationOf(norm, A, t[s].Edge())
    {
      var k := EdgeAt(s);
      IndexOfEdgeAt(s, |norm|);
      assert t[IndexOf(k)] == ObservationOf(norm, A, k);
      SharedObservation(norm, A, k);
    }
  }

  /**
   * An observation describes its own edge and the adjacency row of the
   * node the edge points into; the two directions of an edge show the same
   * flag and weights.
   */
  lemma SharedObservation(norm: seq<seq<seq<real>>>, A: seq<seq<int>>, k: (int, int))
    requires Shaped(norm, A) && IsCellEdge(k, |norm|)
    ensures IsCellEdge((k.1, k.0), |norm|)
    ensures var o, o' := ObservationOf(norm, A, k), ObservationOf(norm, A, (k.1, k.0));
      o.Edge() == k && o.adjacency == A[k.1] && o'.flag == o.flag && o'.weights == o.weights
  {
  }

  /** The table starts with the observation of the edge (0, 2). */
  lemma TableStart(norm: seq<seq<seq<real>>>, A: seq<seq<int>>, t: seq<Observation>)
    requires Shaped(norm, A) && |norm| >= 1 && IsStateTable(norm, A, t)
    ensures IsCellEdge((0, 2), |norm|) && IndexOf((0, 2)) == 0
    ensures |t| > 0 && t[0] == ObservationOf(norm, A, (0, 2)) && t[0].Edge() == (0, 2)
  {
  }

  /** A map from edges to table indices holding exactly the cell edges in InPrefix(_, nodes, i, j). */
  ghost predicate IndexMapUpTo(m: map<(int, int), int>, nodes: nat, i: int, j: int) {
    && (forall k :: k in m <==> InPrefix(k, nodes, i, j))
    && (forall k :: k in m ==> m[k] == IndexOf(k))
  }

  /** A map from edges to weight positions holding exactly the cell edges in InPrefix(_, nodes, i, j). */
  ghost predicate AlphaMapUpTo(m: map<(int, int), (int, int)>, nodes: nat, i: int, j: int) {
    && (forall k :: k in m <==> InPrefix(k, nodes, i, j))
    && (forall k :: k in m ==> m[k] == AlphaOf(k))
  }

  /** Entering both directions of edge j of row i, with the next two indices, extends the index map by one position. */
  lemma IndexMapStep(m: map<(int, int), int>, nodes: nat, i: nat, j: nat)
    requires IndexMapUpTo(m, nodes, i, j) && i < nodes && j < i + 2
    ensures IndexMapUpTo(m[(j, i + 2) := RowStart(i) + 2 * j][(i + 2, j) := RowStart(i) + 2 * j + 1], nodes, i, j + 1)
  {
    assert IndexOf((j, i + 2)) == RowStart(i) + 2 * j;
    assert IndexOf((i + 2, j)) == RowStart(i) + 2 * j + 1;
  }

  lemma AlphaMapStep(m: map<(int, int), (int, int)>, nodes: nat, i: nat, j: nat)
    requires AlphaMapUpTo(m, nodes, i, j) && i < nodes && j < i + 2
    ensures AlphaMapUpTo(m[(j, i + 2) := (i, j)][(i + 2, j) := (i, j)], nodes, i, j + 1)
  {
  }

  /** After its last edge a row is complete: the prefix is that of the next row's start. */
  lemma RowComplete(nodes: nat, i: nat, j: nat)
    requires j == i + 2
    ensures forall k :: InPrefix(k, nodes, i, j) <==> InPrefix(k, nodes, i + 1, 0)
  {
  }

  /** Past the last row every cell edge is in the prefix. */
  lemma AllRows(nodes: nat)
    ensures forall k :: InPrefix(k, nodes, nodes, 0) <==> IsCellEdge(k, nodes)
  {
  }

  /** Exactly two edges of every row are flagged, and no unflagged edge has a larger maximum than a flagged one. */
  lemma SalientPair(norm: seq<seq<seq<real>>>, A: seq<seq<int>>, i: nat)
    requires Shaped(norm, A) && i < |norm|
    ensures |set j | 0 <= j < |norm[i]| && Flag(norm[i], j) == 1| == 2
    ensures forall j, j' ::
      0 <= j < |norm[i]| && 0 <= j' < |norm[i]| && Flag(norm[i], j) == 1 && Flag(norm[i], j') == 0
      ==> Max(norm[i][j']) <= Max(norm[i][j])
  {
    var row := norm[i];
    var maxima := EdgeMaxima(row);
    var top := Salient(row);
    TopKIsTopK(maxima, 2);
    assert (set j | 0 <= j < |row| && Flag(row, j) == 1) == {top[0], top[1]};
    forall j, j' | 0 <= j < |row| && 0 <= j' < |row| && Flag(row, j) == 1 && Flag(row, j') == 0
      ensures Max(row[j']) <= Max(row[j])
    {
      var a :| 0 <= a < 2 && top[a] == j;
      assert maxima[j'] <= maxima[top[a]];
    }
  }
}
