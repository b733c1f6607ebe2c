/**
 * The consistency conditions the environment keeps, stated over values:
 * the settings fixed at construction, the state table rebuilt from the
 * model's weights, the agent's position on that table, and the weights a
 * mutation writes back.
 */
module EnvState {
  import opened Wrappers
  import opened Cell
  import opened AlphaOps
  import opened StateTable
  import opened Reward

  /** The description of what an action did (the `action` entry of the info dictionary). */
  datatype ActionInfo =
    | NoInfo
    | LegalMove(from: int, to: int)
    | IllegalMove(from: int, to: int)
    | IncreaseAlpha(row: int, edge: int, op: int)
    | DecreaseAlpha(row: int, edge: int, op: int)
    | TerminateAt(step: int)

  /** What performing one action returns: its description, reward and measured accuracy. */
  datatype Outcome = Outcome(info: ActionInfo, reward: real, acc: Option<real>)

  /**
   * The settings: at least one intermediate node and one primitive, the
   * cell's adjacency matrix, the size of the action space, and both
   * weight collections in the DARTS shape.
   */
  ghost predicate Settings(nodes: nat, primitives: seq<string>, nOps: nat, A: seq<seq<int>>,
                           actionSize: nat, normal: seq<seq<seq<real>>>, reduce: seq<seq<seq<real>>>)
  {
    && nodes >= 1
    && nOps == |primitives| && nOps >= 1
    && A == Adjacency(nodes)
    && actionSize == ActionSpaceSize(|A|, nOps)
    && DartsShape(normal, nodes, nOps)
    && DartsShape(reduce, nodes, nOps)
  }

  /**
   * `norm`, the table and its two maps are what update_states builds from
   * `alphas`: the row-wise softmax, and the observation, index and weight
   * position of every directed cell edge.
   */
  ghost predicate Built(num: Numerics, alphas: seq<seq<seq<real>>>, A: seq<seq<int>>, norm: seq<seq<seq<real>>>,
                        states: seq<Observation>, toIndex: map<(int, int), int>, toAlpha: map<(int, int), (int, int)>)
  {
    && norm == NormalizeAll(num, alphas)
    && Shaped(norm, A)
    && IsStateTable(norm, A, states)
    && IndexMapUpTo(toIndex, |norm|, |norm|, 0)
    && AlphaMapUpTo(toAlpha, |norm|, |norm|, 0)
  }

  /**
   * On a built table, a cell edge's entries in the two maps are its table
   * index and its weight position, and the normalised view holds the
   * softmax of that edge's weights in the DARTS shape.
   */
  lemma BuiltPosition(num: Numerics, alphas: seq<seq<seq<real>>>, A: seq<seq<int>>, norm: seq<seq<seq<real>>>,
                      states: seq<Observation>, toIndex: map<(int, int), int>, toAlpha: map<(int, int), (int, int)>,
                      nodes: nat, nOps: nat, k: (int, int))
    requires Built(num, alphas, A, norm, states, toIndex, toAlpha)
    requires DartsShape(alphas, nodes, nOps) && IsCellEdge(k, nodes)
    ensures DartsShape(norm, nodes, nOps)
    ensures k in toIndex && toIndex[k] == IndexOf(k)
    ensures k in toAlpha && toAlpha[k] == AlphaOf(k)
    ensures var (row, e) := AlphaOf(k);
      && 0 <= row < nodes && 0 <= e < row + 2
      && norm[row][e] == Softmax(num, alphas[row][e])
  {
    AllRows(nodes);
    IndexInRowBlock(k, nodes);
    NormalizedShape(num, alphas, nodes, nOps);
    NormalizeAllAt(num, alphas);
  }

  /** `o` is on the table: the observation of a cell edge, stored at that edge's index. */
  ghost predicate OnTable(nodes: nat, states: seq<Observation>, o: Observation) {
    && IsCellEdge(o.Edge(), nodes)
    && 0 <= IndexOf(o.Edge()) < |states|
    && o == states[IndexOf(o.Edge())]
  }

  /**
   * The normal-cell weights after increase_op (or decrease_op) on
   * operation `op` of edge `e` of row `row`: the mutated softmax of that
   * edge, mapped back by the inverse softmax, or the weights unchanged when
   * the mutation is refused.
   */
  function MutatedWeights(num: Numerics, alphas: seq<seq<seq<real>>>, row: int, e: int, increase: bool, op: int)
    : (r: seq<seq<seq<real>>>)
    requires 0 <= row < |alphas| && 0 <= e < |alphas[row]| && 0 <= op < |alphas[row][e]|
    ensures |r| == |alphas| && forall i :: 0 <= i < |r| && i != row ==> r[i] == alphas[i]
    ensures |r[row]| == |alphas[row]| && forall j :: 0 <= j < |r[row]| && j != e ==> r[row][j] == alphas[row][j]
  {
    var edge := Softmax(num, alphas[row][e]);
    var m := if increase then Increased(edge, op, DefaultProb) else Decreased(edge, op, DefaultProb);
    match m
    case None => alphas
    case Some(after) => alphas[row := alphas[row][e := InverseSoftmax(num, after)]]
  }

  /**
   * Helper: weights given by the case split of Increased or Decreased on the
   * softmax of the edge, as the mutation methods' contracts state them, are
   * MutatedWeights.
   */
  lemma WrittenWeights(num: Numerics, alphas: seq<seq<seq<real>>>, row: int, e: int, increase: bool, op: int,
                       after: seq<seq<seq<real>>>)
    requires 0 <= row < |alphas| && 0 <= e < |alphas[row]| && 0 <= op < |alphas[row][e]|
    requires var edge := Softmax(num, alphas[row][e]);
      match (if increase then Increased(edge, op, DefaultProb) else Decreased(edge, op, DefaultProb))
      case None => after == alphas
      case Some(x) => after == alphas[row := alphas[row][e := InverseSoftmax(num, x)]]
    ensures after == MutatedWeights(num, alphas, row, e, increase, op)
  {
  }

  /** What the increase and decrease actions return after the mutation: the scaled reward and the accuracy, or the error of scaling. */
  function Rewarded(baseline: real, estimate: real, info: ActionInfo): Result<Outcome, Error>
  {
    match ScaleReward(baseline, estimate)
    case Err(e) => Err(e)
    case Ok(reward) => Ok(Outcome(info, reward, Some(estimate)))
  }
}
