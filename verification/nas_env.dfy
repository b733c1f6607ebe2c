/**
 * The reinforcement-learning environment over a DARTS cell: the agent
 * walks the directed edges of the cell graph, raises or lowers one
 * operation's weight on the edge it stands on, or ends the episode, and is
 * rewarded by the accuracy change the mutation brings.
 *
 * The trainable model is reduced to its two collections of architecture
 * weights. The accuracy of the model after a mutation is measured by an
 * external fine-tuning run or predictor and enters as the `estimate`
 * argument.
 */
module Environment {
  import opened Wrappers
  import opened Selection
  import opened Cell
  import opened AlphaOps
  import opened StateTable
  import opened Reward
  import opened EnvState
  import opened TableBuild

  datatype CellType = Normal | Reduce

  /** The `cell_type` setting: any name but "normal" and "reduce" is a RuntimeError. */
  function ParseCellType(name: string): (r: Result<CellType, Error>)
    ensures r.Ok? <==> name == "normal" || name == "reduce"
    ensures r.Ok? ==> (r.value == Normal <==> name == "normal")
    ensures r.Err? ==> r.error == RuntimeError
  {
    if name == "normal" then Ok(Normal)
    else if name == "reduce" then Ok(Reduce)
    else Err(RuntimeError)
  }

  /** The info dictionary of a step, without its wall-clock running time. */
  datatype StepInfo = StepInfo(stepCount: int, actionId: int, action: ActionInfo, acc: Option<real>)

  datatype StepResult = StepResult(observation: Observation, reward: real, done: bool, info: StepInfo)

  /** The architecture weights of the trainable model, owned outside the environment. */
  class MetaModel {
    var alphaNormal: seq<seq<seq<real>>>
    var alphaReduce: seq<seq<seq<real>>>

    constructor (normal: seq<seq<seq<real>>>, reduce: seq<seq<seq<real>>>)
      ensures alphaNormal == normal && alphaReduce == reduce
    {
      alphaNormal := normal;
      alphaReduce := reduce;
    }
  }

  class NasEnv {
    const nodes: nat
    const primitives: seq<string>
    const nOps: nat
    const cellType: CellType
    const maxEpLen: int
    const num: Numerics
    const metaModel: MetaModel
    const A: seq<seq<int>>
    const actionSize: nat

    var stepCount: int
    var terminateEpisode: bool
    var baselineAcc: real
    var maxAcc: real
    var maxAlphas: seq<seq<seq<real>>>

    var normalizedAlphas: seq<seq<seq<real>>>
    var states: seq<Observation>
    var edgeToIndex: map<(int, int), int>
    var edgeToAlpha: map<(int, int), (int, int)>
    var currentStateIndex: int
    var currentState: Observation

    /** The weights of the configured cell type. */
    function CellAlphas(): seq<seq<seq<real>>>
      reads metaModel`alphaNormal, metaModel`alphaReduce
    {
      match cellType
      case Normal => metaModel.alphaNormal
      case Reduce => metaModel.alphaReduce
    }

    /** The settings fixed at construction, and the DARTS shape of the model's weights. */
    ghost predicate Configured()
      reads metaModel`alphaNormal, metaModel`alphaReduce
    {
      Settings(nodes, primitives, nOps, A, actionSize, metaModel.alphaNormal, metaModel.alphaReduce)
    }

    /** The state table, its two maps and the normalised weights agree with the model's weights. */
    ghost predicate TableBuilt()
      reads this`normalizedAlphas, this`states, this`edgeToIndex, this`edgeToAlpha
      reads metaModel`alphaNormal, metaModel`alphaReduce
      requires Configured()
    {
      Built(num, CellAlphas(), A, normalizedAlphas, states, edgeToIndex, edgeToAlpha)
    }

    /** What a weight mutation needs: the settings, and the normalised view in the DARTS shape. */
    ghost predicate Editable()
      reads this`normalizedAlphas, metaModel`alphaNormal, metaModel`alphaReduce
    {
      Configured() && DartsShape(normalizedAlphas, nodes, nOps)
    }

    /** The settings, the table built from the current weights, and the agent on a row of it. */
    ghost predicate Valid()
      reads this`normalizedAlphas, this`states, this`edgeToIndex, this`edgeToAlpha, this`currentState
      reads metaModel`alphaNormal, metaModel`alphaReduce
    {
      Configured() && TableBuilt() && OnTable(nodes, states, currentState)
    }

    constructor (nodes: nat, primitives: seq<string>, metaModel: MetaModel, cellType: CellType,
                 maxEpLen: int, num: Numerics)
      requires nodes >= 1 && |primitives| >= 1
      requires DartsShape(metaModel.alphaNormal, nodes, |primitives|)
      requires DartsShape(metaModel.alphaReduce, nodes, |primitives|)
      ensures Valid()
      ensures this.nodes == nodes && this.primitives == primitives && this.metaModel == metaModel
      ensures this.cellType == cellType && this.maxEpLen == maxEpLen && this.num == num
      ensures A == Adjacency(nodes) && actionSize == nodes + 2 + 2 * |primitives| + 1
      ensures stepCount == 0 && !terminateEpisode && baselineAcc == 0.0
      ensures maxAcc == 0.0 && maxAlphas == []
      ensures currentStateIndex == 0 && currentState == states[0] && currentState.Edge() == (0, 2)
    {
      this.nodes := nodes;
      this.primitives := primitives;
      this.nOps := |primitives|;
      this.cellType := cellType;
      this.maxEpLen := maxEpLen;
      this.num := num;
      this.metaModel := metaModel;
      stepCount := 0;
      terminateEpisode := false;
      baselineAcc := 0.0;
      var adjacency := Adjacency(nodes);
      A := adjacency;
      actionSize := |adjacency| + 2 * |primitives| + 1;
      maxAlphas := [];
      maxAcc := 0.0;
      new;
      UpdateStates();
      SetStartState();
    }

    /**
     * Rebuilds the normalised weights, the state table and its two maps
     * from the model's weights of the configured cell type.
     */
    method UpdateStates()
      requires Configured()
      modifies this`normalizedAlphas, this`states, this`edgeToIndex, this`edgeToAlpha
      ensures TableBuilt()
      ensures unchanged(metaModel) && unchanged(this`currentState, this`terminateEpisode)
      ensures unchanged(this`stepCount, this`baselineAcc, this`maxAcc, this`maxAlphas, this`currentStateIndex)
    {
      var norm;
      match cellType {
        case Normal => norm := NormalizeAll(num, metaModel.alphaNormal);
        case Reduce => norm := NormalizeAll(num, metaModel.alphaReduce);
      }
      NormalizedShape(num, CellAlphas(), nodes, nOps);
      DartsShaped(norm, A, nodes, nOps);
      states, edgeToIndex, edgeToAlpha := BuildStates(norm, A);
      normalizedAlphas := norm;
    }

    /** Puts the agent on the first row of the state table, the edge (0, 2). */
    method SetStartState()
      requires Configured() && TableBuilt()
      modifies this`currentStateIndex, this`currentState
      ensures Valid()
      ensures currentStateIndex == 0 && currentState == states[0] && currentState.Edge() == (0, 2)
      ensures unchanged(metaModel) && unchanged(this`normalizedAlphas, this`states, this`edgeToIndex, this`edgeToAlpha)
      ensures unchanged(this`stepCount, this`terminateEpisode, this`baselineAcc, this`maxAcc, this`maxAlphas)
    {
      currentStateIndex := 0;
      TableStart(normalizedAlphas, A, states);
      MoveTo(currentStateIndex);
    }

    /**
     * increase_op: raises operation `opIdx` of edge `edgeIdx` of row
     * `rowIdx` in the normalised view by `prob` (clamped near 1), adds the
     * 0.01 floor to the edge, and writes log(x) + ln 10 of the edge back
     * into the model's normal-cell weights. Returns whether it mutated.
     */
    method IncreaseOp(rowIdx: int, edgeIdx: int, opIdx: int, prob: real) returns (mutated: bool)
      requires Editable()
      requires 0 <= rowIdx < nodes && 0 <= edgeIdx < rowIdx + 2 && 0 <= opIdx < nOps
      modifies this`normalizedAlphas, metaModel`alphaNormal
      ensures Editable()
      ensures unchanged(metaModel`alphaReduce) && unchanged(this`states, this`edgeToIndex, this`edgeToAlpha, this`currentState)
      ensures unchanged(this`stepCount, this`terminateEpisode, this`baselineAcc, this`maxAcc, this`maxAlphas)
      ensures var edge := old(normalizedAlphas[rowIdx][edgeIdx]);
        match Increased(edge, opIdx, prob)
        case None =>
          && !mutated
          && normalizedAlphas == old(normalizedAlphas)
          && metaModel.alphaNormal == old(metaModel.alphaNormal)
        case Some(e) =>
          && mutated
          && normalizedAlphas == old(normalizedAlphas)[rowIdx := old(normalizedAlphas[rowIdx])[edgeIdx := e]]
          && metaModel.alphaNormal ==
               old(metaModel.alphaNormal)[rowIdx := old(metaModel.alphaNormal[rowIdx])[edgeIdx := InverseSoftmax(num, e)]]
    {
      var currEdge := normalizedAlphas[rowIdx][edgeIdx];
      var currOp := currEdge[opIdx];
      var p := prob;
      // clamp the amount so that the operation lands on 0.99
      if currOp + p > 1.0 {
        var surplus := currOp + p - 0.99;
        p := p - surplus;
      }
      if currOp + p < 1.0 {
        currEdge := ShiftOp(currEdge, opIdx, p);
        normalizedAlphas := normalizedAlphas[rowIdx := normalizedAlphas[rowIdx][edgeIdx := currEdge]];
        metaModel.alphaNormal :=
          metaModel.alphaNormal[rowIdx := metaModel.alphaNormal[rowIdx][edgeIdx := InverseSoftmax(num, currEdge)]];
        ShapeAfterWrite(old(normalizedAlphas), nodes, nOps, rowIdx, edgeIdx, currEdge);
        ShapeAfterWrite(old(metaModel.alphaNormal), nodes, nOps, rowIdx, edgeIdx, InverseSoftmax(num, currEdge));
        return true;
      }
      return false;
    }

    /**
     * decrease_op: lowers operation `opIdx` in the normalised view by
     * `prob` (clamped near 0), adds the 0.01 floor, and writes the edge
     * back like IncreaseOp. Returns whether it mutated.
     */
    method DecreaseOp(rowIdx: int, edgeIdx: int, opIdx: int, prob: real) returns (mutated: bool)
      requires Editable()
      requires 0 <= rowIdx < nodes && 0 <= edgeIdx < rowIdx + 2 && 0 <= opIdx < nOps
      modifies this`normalizedAlphas, metaModel`alphaNormal
      ensures Editable()
      ensures unchanged(metaModel`alphaReduce) && unchanged(this`states, this`edgeToIndex, this`edgeToAlpha, this`currentState)
      ensures unchanged(this`stepCount, this`terminateEpisode, this`baselineAcc, this`maxAcc, this`maxAlphas)
      ensures var edge := old(normalizedAlphas[rowIdx][edgeIdx]);
        match Decreased(edge, opIdx, prob)
        case None =>
          && !mutated
          && normalizedAlphas == old(normalizedAlphas)
          && metaModel.alphaNormal == old(metaModel.alphaNormal)
        case Some(e) =>
          && mutated
          && normalizedAlphas == old(normalizedAlphas)[rowIdx := old(normalizedAlphas[rowIdx])[edgeIdx := e]]
          && metaModel.alphaNormal ==
               old(metaModel.alphaNormal)[rowIdx := old(metaModel.alphaNormal[rowIdx])[edgeIdx := InverseSoftmax(num, e)]]
    {
      var currEdge := normalizedAlphas[rowIdx][edgeIdx];
      var currOp := currEdge[opIdx];
      var p := prob;
      if currOp - p < 0.0 {
        var surplus := p - currOp + 0.01;
        p := p - surplus;
      }
      if currOp - p > 0.0 {
        currEdge := ShiftOp(currEdge, opIdx, -p);
        normalizedAlphas := normalizedAlphas[rowIdx := normalizedAlphas[rowIdx][edgeIdx := currEdge]];
        metaModel.alphaNormal :=
          metaModel.alphaNormal[rowIdx := metaModel.alphaNormal[rowIdx][edgeIdx := InverseSoftmax(num, currEdge)]];
        ShapeAfterWrite(old(normalizedAlphas), nodes, nOps, rowIdx, edgeIdx, currEdge);
        ShapeAfterWrite(old(metaModel.alphaNormal), nodes, nOps, rowIdx, edgeIdx, InverseSoftmax(num, currEdge));
        return true;
      }
      return false;
    }

    /**
     * update_meta_model: raises or lowers a weight of the normal cell;
     * the reduction cell is refused with NotImplementedError before
     * anything changes. Returns whether the weights changed.
     */
    method UpdateMetaModel(increase: bool, rowIdx: int, edgeIdx: int, opIdx: int) returns (r: Result<bool, Error>)
      requires Editable()
      requires 0 <= rowIdx < nodes && 0 <= edgeIdx < rowIdx + 2 && 0 <= opIdx < nOps
      modifies this`normalizedAlphas, metaModel`alphaNormal
      ensures Editable()
      ensures unchanged(metaModel`alphaReduce) && unchanged(this`states, this`edgeToIndex, this`edgeToAlpha, this`currentState)
      ensures unchanged(this`stepCount, this`terminateEpisode, this`baselineAcc, this`maxAcc, this`maxAlphas)
      ensures cellType == Reduce ==>
        r == Err(NotImplementedError) && normalizedAlphas == old(normalizedAlphas) && metaModel.alphaNormal == old(metaModel.alphaNormal)
      ensures cellType == Normal ==> r.Ok?
      ensures cellType == Normal ==> var edge := old(normalizedAlphas[rowIdx][edgeIdx]);
        match (if increase then Increased(edge, opIdx, DefaultProb) else Decreased(edge, opIdx, DefaultProb))
        case None =>
          && !r.value
          && normalizedAlphas == old(normalizedAlphas)
          && metaModel.alphaNormal == old(metaModel.alphaNormal)
        case Some(e) =>
          && r.value
          && normalizedAlphas == old(normalizedAlphas)[rowIdx := old(normalizedAlphas[rowIdx])[edgeIdx := e]]
          && metaModel.alphaNormal ==
               old(metaModel.alphaNormal)[rowIdx := old(metaModel.alphaNormal[rowIdx])[edgeIdx := InverseSoftmax(num, e)]]
    {
      match cellType {
        case Normal =>
          var mutated;
          if increase {
            mutated := IncreaseOp(rowIdx, edgeIdx, opIdx, DefaultProb);
          } else {
            mutated := DecreaseOp(rowIdx, edgeIdx, opIdx, DefaultProb);
          }
          r := Ok(mutated);
        case Reduce =>
          r := Err(NotImplementedError);
      }
    }

    /**
     * The table rows, both maps, the normalised view and the model's
     * weights are those of the old state.
     */
    twostate predicate Kept()
      reads this`normalizedAlphas, this`states, this`edgeToIndex, this`edgeToAlpha, metaModel`alphaNormal
    {
      && normalizedAlphas == old(normalizedAlphas)
      && states == old(states)
      && edgeToIndex == old(edgeToIndex)
      && edgeToAlpha == old(edgeToAlpha)
      && metaModel.alphaNormal == old(metaModel.alphaNormal)
    }

    /**
     * What _perform_action does with `action`, the agent standing on the
     * directed edge (src, dst) and `estimate` the accuracy the estimator
     * reports after a mutation. Exactly one branch applies:
     * - a node t < |A| is a legal move iff A[dst][t] > 0; the agent moves
     *   to the edge (dst, t) for reward 0, otherwise it stays for -0.1;
     * - an increase or decrease rewrites the weights of the current edge
     *   (refused for the reduction cell), rebuilds the table, re-reads the
     *   current edge and scales the estimate against the baseline;
     * - the last action only sets the termination flag;
     * - any other integer changes nothing.
     */
    twostate predicate Performed(action: int, estimate: real, new r: Result<Outcome, Error>)
      requires old(Valid())
      reads this`normalizedAlphas, this`states, this`edgeToIndex, this`edgeToAlpha, this`currentState
      reads this`terminateEpisode, metaModel`alphaNormal, metaModel`alphaReduce
    {
      var k := old(currentState.Edge());
      match DecodeAction(action, |A|, nOps)
      case Traverse(t) =>
        && Kept()
        && terminateEpisode == old(terminateEpisode)
        && if A[k.1][t] > 0 then
             && IsCellEdge((k.1, t), nodes)
             && r == Ok(Outcome(LegalMove(k.1, t), 0.0, None))
             && 0 <= IndexOf((k.1, t)) < |states| && currentState == states[IndexOf((k.1, t))]
           else
             && r == Ok(Outcome(IllegalMove(k.0, t), -0.1, None))
             && currentState == old(currentState)
      case Increase(op) => Mutated(true, op, estimate, r)
      case Decrease(op) => Mutated(false, op, estimate, r)
      case Terminate =>
        && Kept()
        && terminateEpisode
        && currentState == old(currentState)
        && r == Ok(Outcome(TerminateAt(old(stepCount)), 0.0, None))
      case Ignored =>
        && Kept()
        && terminateEpisode == old(terminateEpisode)
        && currentState == old(currentState)
        && r == Ok(Outcome(NoInfo, 0.0, None))
    }

    /**
     * The increase or decrease branch of _perform_action for operation
     * `op` of the current edge k: the reduction cell is refused before any
     * change; for the normal cell the weights of k's position become
     * MutatedWeights, the agent stays on the row of k, and the outcome
     * carries the scaled reward, or the error of scaling it.
     */
    twostate predicate Mutated(increase: bool, op: nat, estimate: real, new r: Result<Outcome, Error>)
      requires old(Valid()) && op < nOps
      reads this`normalizedAlphas, this`states, this`edgeToIndex, this`edgeToAlpha, this`currentState
      reads this`terminateEpisode, metaModel`alphaNormal, metaModel`alphaReduce
    {
      var k := old(currentState.Edge());
      IndexInRowBlock(k, nodes);
      var (row, e) := AlphaOf(k);
      && terminateEpisode == old(terminateEpisode)
      && match cellType
         case Reduce =>
           && Kept()
           && currentState == old(currentState)
           && r == Err(NotImplementedError)
         case Normal =>
           && metaModel.alphaNormal == MutatedWeights(num, old(metaModel.alphaNormal), row, e, increase, op)
           && 0 <= IndexOf(k) < |states| && currentState == states[IndexOf(k)]
           && r == Rewarded(old(baselineAcc), estimate,
                            if increase then IncreaseAlpha(row, e, op) else DecreaseAlpha(row, e, op))
    }

    /** Puts the agent on row `sIdx` of the state table. */
    method MoveTo(sIdx: int)
      requires Configured() && TableBuilt()
      requires 0 <= sIdx < |states| && OnTable(nodes, states, states[sIdx])
      modifies this`currentState
      ensures Valid() && currentState == states[sIdx]
      ensures unchanged(metaModel) && unchanged(this`normalizedAlphas, this`states, this`edgeToIndex, this`edgeToAlpha)
      ensures unchanged(this`stepCount, this`terminateEpisode, this`baselineAcc, this`maxAcc, this`maxAlphas, this`currentStateIndex)
    {
      currentState := states[sIdx];
    }

    /** The traverse branch of _perform_action, for a node t < |A|. */
    method Traverse(t: int) returns (o: Outcome)
      requires Valid() && 0 <= t < |A|
      modifies this`currentState
      ensures Valid()
      ensures var k := old(currentState.Edge());
        if A[k.1][t] > 0 then
          && IsCellEdge((k.1, t), nodes)
          && o == Outcome(LegalMove(k.1, t), 0.0, None)
          && 0 <= IndexOf((k.1, t)) < |states| && currentState == states[IndexOf((k.1, t))]
        else
          && o == Outcome(IllegalMove(k.0, t), -0.1, None)
          && currentState == old(currentState)
      ensures unchanged(metaModel) && unchanged(this`normalizedAlphas, this`states, this`edgeToIndex, this`edgeToAlpha)
      ensures unchanged(this`stepCount, this`terminateEpisode, this`baselineAcc, this`maxAcc, this`maxAlphas)
    {
      var curNode := currentState.src;
      var nextNode := currentState.dst;
      if A[nextNode][t] > 0 {
        curNode, nextNode := nextNode, t;
        AllRows(nodes);
        var sIdx := edgeToIndex[(curNode, nextNode)];
        SharedObservation(normalizedAlphas, A, (curNode, nextNode));
        MoveTo(sIdx);
        o := Outcome(LegalMove(curNode, t), 0.0, None);
      } else {
        // the entries of A are 0 or 1: the source's `A[next][t] < 1` is the other case
        o := Outcome(IllegalMove(curNode, t), -0.1, None);
      }
    }

    /**
     * The end of a mutation: the state table rebuilt when the weights
     * changed, and the agent put back on row sIdx, the row of the edge k it
     * stood on.
     */
    method Resettle(rebuild: bool, k: (int, int), sIdx: int)
      requires Configured() && (rebuild || TableBuilt())
      requires IsCellEdge(k, nodes) && sIdx == IndexOf(k)
      modifies this`normalizedAlphas, this`states, this`edgeToIndex, this`edgeToAlpha, this`currentState
      ensures Valid() && 0 <= sIdx < |states| && currentState == states[sIdx]
      ensures unchanged(metaModel)
      ensures unchanged(this`stepCount, this`terminateEpisode, this`baselineAcc, this`maxAcc, this`maxAlphas)
    {
      if rebuild {
        UpdateStates();
      }
      SharedObservation(normalizedAlphas, A, k);
      MoveTo(sIdx);
    }

    /** The increase and decrease branches of _perform_action, on operation `op` of the current edge. */
    method MutateCurrentEdge(increase: bool, op: nat, estimate: real) returns (r: Result<Outcome, Error>)
      requires Valid() && op < nOps
      modifies this`normalizedAlphas, this`states, this`edgeToIndex, this`edgeToAlpha, this`currentState
      modifies metaModel`alphaNormal
      ensures Valid()
      ensures Mutated(increase, op, estimate, r)
      ensures unchanged(this`stepCount, this`terminateEpisode, this`baselineAcc, this`maxAcc, this`maxAlphas)
    {
      var k := currentState.Edge();
      var baseline := baselineAcc;
      BuiltPosition(num, CellAlphas(), A, normalizedAlphas, states, edgeToIndex, edgeToAlpha, nodes, nOps, k);
      var (rowIdx, edgeIdx) := edgeToAlpha[k];
      var sIdx := edgeToIndex[k];
      ghost var before := metaModel.alphaNormal;
      var update := UpdateMetaModel(increase, rowIdx, edgeIdx, op);
      if update.Ok? {
        WrittenWeights(num, before, rowIdx, edgeIdx, increase, op, metaModel.alphaNormal);
        Resettle(update.value, k, sIdx);
        var info := if increase then IncreaseAlpha(rowIdx, edgeIdx, op) else DecreaseAlpha(rowIdx, edgeIdx, op);
        r := Rewarded(baseline, estimate, info);
      } else {
        r := Err(update.error);
      }
    }

    /** _perform_action: applies one action to the model and the agent's position. */
    method PerformAction(action: int, estimate: real) returns (r: Result<Outcome, Error>)
      requires Valid()
      modifies this`normalizedAlphas, this`states, this`edgeToIndex, this`edgeToAlpha, this`currentState
      modifies this`terminateEpisode, metaModel`alphaNormal
      ensures Valid()
      ensures Performed(action, estimate, r)
      ensures unchanged(this`stepCount, this`baselineAcc, this`maxAcc, this`maxAlphas)
    {
      match DecodeAction(action, |A|, nOps) {
        case Traverse(t) =>
          var o := Traverse(t);
          r := Ok(o);
        case Increase(op) =>
          r := MutateCurrentEdge(true, op, estimate);
        case Decrease(op) =>
          r := MutateCurrentEdge(false, op, estimate);
        case Terminate =>
          terminateEpisode := true;
          r := Ok(Outcome(TerminateAt(stepCount), 0.0, None));
        case Ignored =>
          r := Ok(Outcome(NoInfo, 0.0, None));
      }
    }

    /**
     * The bookkeeping of step after an action that measured `acc`: an
     * accuracy above 0 becomes the baseline, and the best accuracy with a
     * snapshot of the normal-cell weights when it beats the best so far;
     * the step counter grows by one.
     */
    method KeepBooks(acc: Option<real>)
      modifies this`stepCount, this`baselineAcc, this`maxAcc, this`maxAlphas
      ensures stepCount == old(stepCount) + 1
      ensures if acc.Some? && acc.value > 0.0 then
          && baselineAcc == acc.value
          && maxAcc == (if old(maxAcc) < acc.value then acc.value else old(maxAcc))
          && maxAlphas == (if old(maxAcc) < acc.value then metaModel.alphaNormal else old(maxAlphas))
        else
          && baselineAcc == old(baselineAcc)
          && maxAcc == old(maxAcc)
          && maxAlphas == old(maxAlphas)
      ensures maxAcc >= old(maxAcc)
      ensures unchanged(metaModel) && unchanged(this`normalizedAlphas, this`states, this`edgeToIndex, this`edgeToAlpha)
      ensures unchanged(this`currentState, this`terminateEpisode)
    {
      if acc.Some? && acc.value > 0.0 {
        baselineAcc := acc.value;
        if maxAcc < acc.value {
          maxAcc := acc.value;
          maxAlphas := metaModel.alphaNormal;
        }
      }
      stepCount := stepCount + 1;
    }

    /**
     * step: performs the action, then keeps the books. A measured
     * accuracy above 0 becomes the new baseline, and the best accuracy and
     * a snapshot of the normal-cell weights when it beats the best so far;
     * the step counter grows by one; the episode is done at the length
     * limit or after the terminate action. An error of the action
     * propagates before the bookkeeping.
     */
    method Step(action: int, estimate: real) returns (r: Result<StepResult, Error>)
      requires Valid()
      modifies this`normalizedAlphas, this`states, this`edgeToIndex, this`edgeToAlpha, this`currentState
      modifies this`terminateEpisode, metaModel`alphaNormal
      modifies this`stepCount, this`baselineAcc, this`maxAcc, this`maxAlphas
      ensures Valid()
      ensures r.Err? ==>
        && Performed(action, estimate, Err(r.error))
        && stepCount == old(stepCount) && baselineAcc == old(baselineAcc)
        && maxAcc == old(maxAcc) && maxAlphas == old(maxAlphas)
      ensures r.Ok? ==>
        var acc := r.value.info.acc;
        && Performed(action, estimate, Ok(Outcome(r.value.info.action, r.value.reward, acc)))
        && stepCount == old(stepCount) + 1
        && r.value.observation == currentState
        && r.value.done == (stepCount == maxEpLen || terminateEpisode)
        && r.value.info.stepCount == stepCount && r.value.info.actionId == action
        && if acc.Some? && acc.value > 0.0 then
             && baselineAcc == acc.value
             && maxAcc == (if old(maxAcc) < acc.value then acc.value else old(maxAcc))
             && maxAlphas == (if old(maxAcc) < acc.value then metaModel.alphaNormal else old(maxAlphas))
           else
             && baselineAcc == old(baselineAcc)
             && maxAcc == old(maxAcc)
             && maxAlphas == old(maxAlphas)
      ensures maxAcc >= old(maxAcc)
    {
      var outcome := PerformAction(action, estimate);
      if outcome.Err? {
        return Err(outcome.error);
      }
      var o := outcome.value;
      KeepBooks(o.acc);
      var done := stepCount == maxEpLen || terminateEpisode;
      r := Ok(StepResult(currentState, o.reward, done, StepInfo(stepCount, action, o.info, o.acc)));
    }
  }
}
