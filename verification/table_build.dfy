/**
 * The double loop of update_states, which builds the state table and its
 * two maps row by row, proved against the state table's definition.
 */
module TableBuild {
  import opened Selection
  import opened Cell
  import opened StateTable

  /**
   * update_states' double loop: for each row i and each edge j of it, the
   * two directions (j, i + 2) and (i + 2, j) of the edge are appended to
   * the table with the next two indices, flagged when j is among the two
   * salient edges of the row, and entered in both maps.
   */
  method BuildStates(norm: seq<seq<seq<real>>>, A: seq<seq<int>>)
    returns (table: seq<Observation>, toIndex: map<(int, int), int>, toAlpha: map<(int, int), (int, int)>)
    requires Shaped(norm, A)
    ensures IsStateTable(norm, A, table)
    ensures IndexMapUpTo(toIndex, |norm|, |norm|, 0) && AlphaMapUpTo(toAlpha, |norm|, |norm|, 0)
  {
    table, toIndex, toAlpha := [], map[], map[];
    var i := 0;
    while i < |norm|
      invariant 0 <= i <= |norm|
      invariant BuiltUpTo(norm, A, table, toIndex, toAlpha, i, 0)
    {
      table, toIndex, toAlpha := BuildRow(norm, A, i, table, toIndex, toAlpha);
      i := i + 1;
    }
    AllBuilt(norm, A, table, toIndex, toAlpha);
  }

  /** The inner loop of update_states: the rows of the table for the edges into node i + 2. */
  method BuildRow(norm: seq<seq<seq<real>>>, A: seq<seq<int>>, i: nat,
                  table0: seq<Observation>, toIndex0: map<(int, int), int>, toAlpha0: map<(int, int), (int, int)>)
    returns (table: seq<Observation>, toIndex: map<(int, int), int>, toAlpha: map<(int, int), (int, int)>)
    requires Shaped(norm, A) && i < |norm|
    requires BuiltUpTo(norm, A, table0, toIndex0, toAlpha0, i, 0)
    ensures BuiltUpTo(norm, A, table, toIndex, toAlpha, i + 1, 0)
  {
    table, toIndex, toAlpha := table0, toIndex0, toAlpha0;
    var edges := norm[i];
    var edgeMax := EdgeMaxima(edges);
    var topkEdgeIndices := TopK(edgeMax, 2);
    var sIdx := |table|;
    var j := 0;
    while j < |edges|
      invariant 0 <= j <= |edges|
      invariant sIdx == |table|
      invariant BuiltUpTo(norm, A, table, toIndex, toAlpha, i, j)
    {
      var flag := if j in topkEdgeIndices then 1 else 0;
      var forward := Observation(j, i + 2, flag, A[i + 2], edges[j]);
      var backward := Observation(i + 2, j, flag, A[j], edges[j]);
      EdgeStep(norm, A, table, toIndex, toAlpha, i, j, flag);
      table := table + [forward, backward];
      toIndex := toIndex[(j, i + 2) := sIdx][(i + 2, j) := sIdx + 1];
      toAlpha := toAlpha[(j, i + 2) := (i, j)][(i + 2, j) := (i, j)];
      sIdx := sIdx + 2;
      j := j + 1;
    }
    TableRowDone(norm, A, table, toIndex, toAlpha, i);
  }
}
