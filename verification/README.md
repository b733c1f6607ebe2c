# metanas NAS environment and NAS-Bench-201 graph codec, in Dafny

This project models the core of the metanas reinforcement-learning
environment and proves properties about the model. In that environment an
agent walks the edges of a DARTS cell and edits the cell's architecture
weights ("alphas"). The environment has five parts, and the model covers
all of them:

- **Cell graph** (`cell.dfy`): the adjacency matrix `A` of a cell with
  `nodes` intermediate nodes and two input nodes. It also holds the flat
  action space `|A| + 2·|primitives| + 1`, decoded into a tagged action, and
  the numbering of directed cell edges, which are the rows of the state
  table.
- **Weights and mutations** (`alpha_ops.dfy`, `selection.dfy`):
  - the DARTS shape of the weights: row `i` holds the `i + 2` edges into
    node `i + 2`;
  - the softmax view the agent observes;
  - `increase_op` and `decrease_op`, which edit that view, clamp the change,
    add a 0.01 floor and write `log(x) + ln 10` back;
  - `torch.topk`, modelled as a stable selection with its defining property
    proved.
- **State table** (`state_table.dfy`, `table_build.dfy`): `update_states`
  builds two observations per cell edge, one per direction, with the two
  maps `edge_to_index` and `edge_to_alpha`. The loop is proved against a
  declarative definition of the table.
- **Environment** (`nas_env.dfy`, `env_state.dfy`): the `NasEnv` class and
  the weights it shares with the trainable model, `MetaModel`:
  - construction;
  - `update_states` and `set_start_state`;
  - `increase_op`, `decrease_op` and `update_meta_model`;
  - `_perform_action` and `step`.

  Each method states its whole new state. The invariant `Valid()` says
  that the table matches the current weights and that the agent stands on
  a row of it. The constructor, `SetStartState`, `MoveTo`, `Traverse`,
  `Resettle`, `MutateCurrentEdge`, `PerformAction` and `Step` ensure it.
  `IncreaseOp`, `DecreaseOp` and `UpdateMetaModel` keep only `Editable()`:
  after an applied mutation the table is stale until `update_states`
  rebuilds it, as in the source. `UpdateStates` takes a configured
  environment to one with a built table, and `KeepBooks` touches only the
  counters and the best-so-far record.
- **Reward** (`reward.dfy`): `scale_reward`, the piecewise-linear map of an
  accuracy against the baseline. Below the baseline it maps onto
  `[-0.1, 0]`; above it, onto `[0, 4]`.
- **Genotype and predictor graph** (`genotype.dfy`, `nb201_codec.dfy`):
  - `parse`, which keeps the top-k edges of each node and the strongest
    operation of each kept edge;
  - the node list that the meta-predictor estimation builds from a genotype;
  - the decoding of node lists into igraph graphs, in both copies of the
    decoder;
  - `is_valid_DAG` and `is_valid_NAS201`;
  - the operation matrix and the NAS-Bench-201 architecture string.

Python exceptions are modelled as `Err` values of a `Result`, named after
the exception (`wrappers.dfy`). At the entry points (`step`,
`_perform_action`, `scale_reward`, `parse`, the node list, the decoders,
the validity tests and the architecture string), nothing is modelled as a
precondition when the source handles it by raising. There are two
exceptions, both listed under "Left out": the environment's construction,
and the index preconditions of the internal methods `IncreaseOp`,
`DecreaseOp`, `UpdateMetaModel` and `MoveTo`.

## Model

| member | source | states |
|---|---|---|
| Cell.Adjacency | metanas/metanas/env/core.py:58-65 | `A[x][y]` is 0 exactly on the diagonal and between the two input nodes, and 1 elsewhere. A is symmetric, and `A[x][y] > 0` iff (x, y) is an edge of the cell. |
| Cell.DecodeAction | metanas/metanas/env/core.py:380-462 | An action id outside `[0, \|A\| + 2·\|primitives\| + 1)` selects no branch. Any other id decodes to the one traverse, increase, decrease or terminate action that encodes back to it. |
| Cell.EncodeAction | metanas/metanas/env/core.py:69-72 | Every traverse, increase, decrease or terminate action is an id inside the action space. |
| Cell.DecodeEncode | metanas/metanas/env/core.py:380-460 | The four id ranges do not overlap: decoding an encoded action gives the action back. |
| Cell.RowStartClosedForm | metanas/metanas/env/core.py:173-202 | Row i of the table starts at index i·(i + 3), since every earlier row r contributes 2·(r + 2) rows. |
| Cell.IndexInRowBlock | metanas/metanas/env/core.py:173-202 | A cell edge's weight position is a valid (row, edge) pair, and its index lies in the block of its row. |
| Cell.EdgeAtIndexOf | metanas/metanas/env/core.py:180-181 | Reading the edge back from its table index gives the edge. |
| Cell.IndexOfEdgeAt | metanas/metanas/env/core.py:180-181 | Every table index is the index of the cell edge read back from it. |
| Cell.Numbering | metanas/metanas/env/core.py:173-202 | `edge_to_index` numbers the directed cell edges bijectively onto `[0, 2·Σ(i + 2))`. |
| Cell.IndexOfBijective | metanas/metanas/env/core.py:180-184 | Two directed edges share an index iff they are equal. The reverse of a forward edge sits right after it, and both directions share one weight position. |
| AlphaOps.SoftmaxPositive | metanas/metanas/env/core.py:153-155 | Every normalised weight is positive. |
| AlphaOps.SoftmaxSumsToOne | metanas/metanas/env/core.py:153-155 | The normalised weights of an edge sum to 1. |
| AlphaOps.NormalizeAllAt | metanas/metanas/env/core.py:153-168 | The normalised view holds, at every position, the softmax of the weights at that position. |
| AlphaOps.NormalizedShape | metanas/metanas/env/core.py:153-168 | Normalising keeps the DARTS shape. |
| AlphaOps.SumExpInverse | metanas/metanas/env/core.py:213-214 | When `exp` inverts `log`, the written-back weights of a positive edge have exponentials summing to ten times the edge's sum. |
| AlphaOps.SoftmaxOfInverse | metanas/metanas/env/core.py:213-214 | Round trip of the write-back: for a positive edge, the softmax of `log(x) + ln 10` gives back each weight divided by the edge's sum, which is positive. So after the write-back at `core.py:241-243`, the softmax of `update_states` (`core.py:153-155`) recovers the mutated edge scaled to sum 1. |
| AlphaOps.IncreaseAmount | metanas/metanas/env/core.py:223-226 | The clamped amount takes the op to `cur + prob`, or to 0.99 when that sum would pass 1. For prob ≥ 0 the amount is non-negative when cur ≤ 0.99. It is negative when cur > 0.99 and `cur + prob` passes 1. |
| AlphaOps.IncreaseApplies | metanas/metanas/env/core.py:228 | The increase is applied iff `cur + prob ≠ 1`, and an applied increase leaves the op below 1. |
| AlphaOps.DecreaseAmount | metanas/metanas/env/core.py:257-260 | The clamped amount takes the op to `cur - prob`, or to 0.01 when that would go below 0. For prob ≥ 0 the amount is non-negative when cur ≥ 0.01. It is negative when cur < 0.01 and `cur - prob` goes below 0. |
| AlphaOps.DecreaseApplies | metanas/metanas/env/core.py:262 | The decrease is applied iff `cur ≠ prob`, and an applied decrease leaves the op above 0. |
| AlphaOps.ShiftOp | metanas/metanas/env/core.py:231-236 | The op moves by the amount, and every weight of the edge gains the 0.01 floor. |
| AlphaOps.ShiftOpSum | metanas/metanas/env/core.py:231-236 | The edited edge sums to the old sum, plus the amount, plus 0.01 per operation. |
| AlphaOps.Increased | metanas/metanas/env/core.py:216-248 | The increase mutates iff `cur + prob ≠ 1`. The mutated op stays below 1.01. For prob ≥ 0 on an edge with no negative weight, every mutated weight is at least 0.01. |
| AlphaOps.Decreased | metanas/metanas/env/core.py:250-280 | The decrease mutates iff `cur ≠ prob`. The mutated op stays above 0.01. On an edge with no negative weight, every mutated weight is at least 0.01. |
| AlphaOps.IncreaseAtCap | metanas/metanas/env/core.py:223-228 | At 0.99 the default increase is clamped to 0 but still applies: only the floor is added. |
| AlphaOps.MutationRestored | metanas/metanas/env/core.py:238-243 | For a non-negative edge, an applied increase (prob ≥ 0) or decrease writes back weights whose next softmax is exactly the mutated edge divided by its positive sum (`WriteBackRestores`); the same holds at the decrease's write-back, `core.py:272-275`. |
| AlphaOps.DecreaseAtZero | metanas/metanas/env/core.py:257-262 | At 0.0 the default decrease is clamped to -0.01 and applies: the subtraction takes the op to 0.01, and the 0.01 floor then takes it to 0.02. |
| Selection.MaxIsUpperBound | metanas/metanas/env/core.py:175 | The per-edge maximum bounds every weight of the edge. |
| Selection.EdgeMaxima | metanas/metanas/env/core.py:175 | Entry j is the largest normalised weight of edge j. |
| Selection.ArgMax | metanas/metanas/env/core.py:622-624 | Returns a position of the maximum, the first such position. |
| Selection.TopKDistinct | metanas/metanas/env/core.py:177 | The k selected edges are pairwise distinct. |
| Selection.TopKIsTopK | metanas/metanas/env/core.py:177 | The selection is a top-k: k distinct in-range indices, in non-increasing order of value, with no unselected value above a selected one. |
| Selection.TopKPrefix | metanas/metanas/env/core.py:177 | The top j is a prefix of the top k for j ≤ k. |
| StateTable.TableUnique | metanas/metanas/env/core.py:137-204 | At most one table satisfies the definition of the state table. |
| StateTable.TableIndexing | metanas/metanas/env/core.py:179-202 | Every table row is the observation of the cell edge whose index it sits at. |
| StateTable.SharedObservation | metanas/metanas/env/core.py:187-201 | Both directions of an edge carry the same flag and weights, and each carries the adjacency row of its own target. |
| StateTable.TableStart | metanas/metanas/env/core.py:206-210 | Row 0 of the table is the observation of the edge (0, 2). |
| StateTable.SalientPair | metanas/metanas/env/core.py:175-177 | In each row exactly two edges are flagged, and no unflagged edge has a larger maximum than a flagged one. |
| StateTable.AllRows | metanas/metanas/env/core.py:173-179 | The two loops visit exactly the cell edges. |
| TableBuild.BuildStates | metanas/metanas/env/core.py:173-202 | The loops build exactly the state table, and maps that send every cell edge to its index and its weight position. |
| TableBuild.BuildRow | metanas/metanas/env/core.py:179-202 | The inner loop appends the rows of node i + 2 and extends both maps, keeping the invariant of the outer loop. |
| EnvState.BuiltPosition | metanas/metanas/env/core.py:180-184 | On a built table, a cell edge maps to its index and to its weight position, and the normalised view at that position is the softmax of its weights. |
| EnvState.MutatedWeights | metanas/metanas/env/core.py:241-243 | A mutation changes only the weights of the one edge it edits. |
| Environment.ParseCellType | metanas/metanas/env/core.py:150-171 | Only "normal" and "reduce" are cell types. Any other name is a RuntimeError. |
| Environment.MetaModel.constructor | metanas/metanas/env/core.py:25-38 | The model holds the given normal-cell and reduction-cell weights. |
| Environment.NasEnv.constructor | metanas/metanas/env/core.py:25-135 | Construction stores the settings, sets the counters to 0, leaves the best weights empty, builds the table, and puts the agent on the edge (0, 2). |
| Environment.NasEnv.UpdateStates | metanas/metanas/env/core.py:137-204 | Rebuilds the normalised view, the table and both maps from the weights of the configured cell. Nothing else changes. |
| Environment.NasEnv.SetStartState | metanas/metanas/env/core.py:206-210 | Resets the index to 0 and puts the agent on row 0, the edge (0, 2). |
| Environment.NasEnv.IncreaseOp | metanas/metanas/env/core.py:216-248 | Returns whether the increase applied. If it did, the edge is replaced by the mutated distribution in the view and by its inverse softmax in the normal weights. Otherwise nothing changes. |
| Environment.NasEnv.DecreaseOp | metanas/metanas/env/core.py:250-280 | Returns whether the decrease applied. If it did, the edge is replaced by the mutated distribution in the view and by its inverse softmax in the normal weights. Otherwise nothing changes. |
| Environment.NasEnv.UpdateMetaModel | metanas/metanas/env/core.py:282-302 | The reduction cell gives NotImplementedError, with nothing changed. The normal cell increases or decreases with the default 0.3 and reports whether it mutated. |
| Environment.NasEnv.MoveTo | metanas/metanas/env/core.py:389-390 | Puts the agent on table row s and changes nothing else. |
| Environment.NasEnv.Resettle | metanas/metanas/env/core.py:417-422 | After an applied mutation the table is rebuilt, and the agent is put back on the row of the edge it stood on. |
| Environment.NasEnv.Traverse | metanas/metanas/env/core.py:380-399 | If `A[dst][t] > 0`, the agent moves to the edge (dst, t) for reward 0. Otherwise it stays and gets -0.1. |
| Environment.NasEnv.MutateCurrentEdge | metanas/metanas/env/core.py:401-455 | Mutates the current edge's weights: through `update_meta_model` (`core.py:282-296`) the normal-cell weights become exactly `MutatedWeights` of the old weights. The table is rebuilt and the agent stays on its edge's row. The reward is the scaled estimate. |
| Environment.NasEnv.PerformAction | metanas/metanas/env/core.py:368-464 | Exactly one branch runs: traverse, increase, decrease, terminate (sets the flag), or none for other ids. The table always matches the weights, and the agent stays on a row. |
| Environment.NasEnv.KeepBooks | metanas/metanas/env/core.py:324-339 | An accuracy above 0 becomes the baseline. When it beats the best, it is recorded with a snapshot of the normal weights. The best never decreases, and the step count grows by one. |
| Environment.NasEnv.Step | metanas/metanas/env/core.py:312-363 | Performs the action, then keeps the books. The episode is done at the step limit or after termination. The observation is the new current state, and an error leaves the counters alone. |
| Reward.Remap | metanas/metanas/env/core.py:489 | The linear remap fails with ZeroDivisionError iff the source segment has zero width. |
| Reward.RemapEnds | metanas/metanas/env/core.py:486-489 | For `a1 < a2` the remap sends `a1` to `b1` and `a2` to `b2`, and, when `b1 ≤ b2`, sends every point of `[a1, a2]` into `[b1, b2]`. |
| Reward.ScaleReward | metanas/metanas/env/core.py:481-514 | The reward is 0 at the baseline. Above the baseline it is positive, and at most 4 for accuracies up to 1. Below the baseline it is negative, and at least -0.1 for accuracies from 0. It fails with ZeroDivisionError iff the segment is empty: baseline 1 with accuracy above 1, or baseline 0 with accuracy below 0. |
| Reward.RewardInRange | metanas/metanas/env/core.py:481-514 | For a baseline and an accuracy in [0, 1] the reward exists and lies in [-0.1, 4], the environment's reward range. |
| Reward.RewardMonotone | metanas/metanas/env/core.py:481-514 | For a fixed baseline in [0, 1], a higher accuracy never gets a lower reward. |
| Reward.HalfwayExample | metanas/metanas/env/core.py:501-505 | A baseline of 0.5 and an accuracy of 0.75 give a reward of 2.0. |
| Genotype.GenesOfMeaning | metanas/metanas/env/core.py:630-633 | Each selected edge yields one gene, naming its strongest operation. The only exception is IndexError, for an operation index past the primitives. |
| Genotype.ParseRowMeaning | metanas/metanas/env/core.py:621-635 | A node gives RuntimeError iff it has an empty edge or k exceeds its edges. Otherwise its k genes sit on a top-k of the edge maxima, and each names its edge's strongest operation. |
| Genotype.ParseMeaning | metanas/metanas/env/core.py:619-636 | parse succeeds iff every node parses, and then holds each node's genes. Otherwise it raises the exception of the first failing node. |
| Genotype.FlattenLength | metanas/metanas/env/core.py:570-577 | With k genes per node, the genotype holds k·\|nodes\| genes. |
| Genotype.GeneRowsMeaning | metanas/metanas/env/core.py:570-577 | Gene rows exist iff there are at most 7 genes and each names a primitive. Row t is then `[p + 2] + connections[t]`, where p is the first position of gene t's operation in the primitives (`IsGeneRow`). |
| Genotype.NodeListMeaning | metanas/metanas/env/core.py:555-581 | The node list exists iff there are at most 7 genes, all primitives. It is the input row `[0]`, then one row per gene, then the output row `[1] + connections[-1]`. |
| Genotype.SixGenesMakeNas201Cell | metanas/metanas/env/core.py:555-583 | Six genes give a node list that decodes to a graph accepted by is_valid_NAS201, where inner vertex v is typed by gene v - 1's operation. |
| Genotype.SixGenesArchString | metanas/metanas/env/core.py:555-583 | With the NAS-Bench-201 names as primitives, the cell's architecture string names the six genes' operations in order. |
| Genotype.ArchOfGenes | metanas/metanas/meta_predictor/utils.py:87-96 | An architecture string built from six gene-typed vertices names the genes' operations. |
| Genotype.DartsParse | metanas/metanas/env/core.py:550-551 | Parsing weights of DARTS shape with k = 2 succeeds, giving two genes per node, each a primitive. |
| Genotype.EstimationCell | metanas/metanas/env/core.py:550-583 | For DARTS weights, the estimation's node list exists iff there are at most 3 nodes. With exactly 3 it decodes to a valid NAS-Bench-201 cell. |
| Genotype.PathGraphIsNas201 | metanas/metanas/meta_predictor/utils.py:68-75 | An 8-vertex DAG typed input/inner/output that contains the path 0 → 1 → … → 7 is a valid NAS-Bench-201 cell. |
| Nb201Codec.BitSourcesMeaning | metanas/metanas/env/core.py:613-615 | A row's bits ask for exactly the edges j → i with bit j set. |
| Nb201Codec.DecodeRowsMeaning | metanas/metanas/env/core.py:600-616 | A prefix of rows decodes iff every row has a type and names existing vertices. It then has exactly the chain edges and the requested edges. |
| Nb201Codec.DecodeMetaD2AMeaning | metanas/metanas/env/core.py:600-616 | A node list decodes iff every row has a type and names existing vertices. The graph then has one vertex per row, typed by its first entry, exactly the chain and bit edges, and none leaving it. |
| Nb201Codec.ErrorPersists | metanas/metanas/env/core.py:608-615 | The first failing row decides the exception. |
| Nb201Codec.DecodeNasBench201ToGraph | metanas/metanas/meta_predictor/utils.py:52-65 | The loop decoder computes the same graph, or the same exception, as the decoder in core.py. |
| Nb201Codec.AddBitEdges | metanas/metanas/meta_predictor/utils.py:62-64 | The inner loop appends exactly the edges the set bits ask for, in bit order. A bit naming a vertex past the last one gives ValueError. |
| Nb201Codec.DecodedEdgesForward | metanas/metanas/env/core.py:611-615 | When row i holds at most i bits, every decoded edge goes from a lower to a higher vertex. |
| Nb201Codec.DecodedIsDag | metanas/metanas/env/core.py:600-616 | Such a decoded graph is a DAG. |
| Nb201Codec.DagIffAcyclic | metanas/metanas/meta_predictor/utils.py:100 | The reachability test of is_dag holds iff the graph has no directed cycle. |
| Nb201Codec.ForwardIsDag | metanas/metanas/meta_predictor/utils.py:100 | A graph whose edges all go forward is a DAG. |
| Nb201Codec.InDegree | metanas/metanas/meta_predictor/utils.py:107 | The in-degree of v is 0 iff no edge enters v. |
| Nb201Codec.OutDegree | metanas/metanas/meta_predictor/utils.py:109 | The out-degree of v is 0 iff no edge leaves v. |
| Nb201Codec.CountTypeOne | metanas/metanas/meta_predictor/utils.py:101-111 | A count of 1 means exactly one vertex of that type. |
| Nb201Codec.IsValidDag | metanas/metanas/meta_predictor/utils.py:99-111 | The loop accepts iff the graph is a DAG, start ≠ end, there is exactly one start and one end vertex, every source is a start and every sink is an end. |
| Nb201Codec.IsValidNas201 | metanas/metanas/meta_predictor/utils.py:68-75 | Accepts iff the graph is a valid DAG with 8 vertices and no inner vertex typed 0 or 1. |
| Nb201Codec.DecodeToMatrix | metanas/metanas/meta_predictor/utils.py:78-84 | IndexError iff the graph has fewer than 7 vertices. Otherwise the 4 × 4 matrix holds, below the diagonal, the row-by-row vertex types minus 2, and zero elsewhere. |
| Nb201Codec.Trunc | metanas/metanas/meta_predictor/utils.py:94-96 | Python's `int()` of a float truncates toward zero. |
| Nb201Codec.ArchOf | metanas/metanas/meta_predictor/utils.py:91-96 | The string exists iff every inner type is in [-3, 6], a valid Python index into the five names. Otherwise it is IndexError. |
| Nb201Codec.ArchOfNames | metanas/metanas/meta_predictor/utils.py:91-96 | With inner types in [2, 6], the string names `OpNames[type - 2]` for vertices 1 to 6. |
| Nb201Codec.ArchString | metanas/metanas/meta_predictor/utils.py:87-96 | Returns None iff the graph is not a valid NAS-Bench-201 cell. Otherwise it returns the string of its types, or the IndexError of an out-of-range type. |
| Wrappers.PyIndex | metanas/metanas/meta_predictor/utils.py:94-96 | Python indexing: defined iff `-len ≤ k < len`, with negative indices counting from the end. |
| Wrappers.PyListIndex | metanas/metanas/env/core.py:574 | `list.index`: none iff the element is absent, otherwise its first position. |

## Left out

- Floating point: weights, accuracies and rewards are mathematical reals. `exp` and `log` are parameters (`Numerics`), and `exp` only needs to be positive. Rounding is not modelled, so `AlphaOps.IncreaseApplies` and `AlphaOps.DecreaseApplies` compare reals exactly, as the code's `<`/`>` tests do.
- `torch.topk` does not fix which index wins among equal values. `Selection.TopK` breaks ties toward the lower index, and `StateTable.Salient`, `StateTable.Flag`, `StateTable.IsStateTable`, `Environment.NasEnv.Valid`, `TableBuild.BuildRow` and `Genotype.ParseRow` use that concrete choice. Only `Selection.TopKIsTopK`, `StateTable.SalientPair` and `Genotype.ParseRowMeaning` state order-free facts (`Selection.IsTopK`). Under equal maxima the source (`core.py:177`, `core.py:626`) may flag or keep a different edge or operation than the model does.
- The fine-tuning estimation (`_darts_estimation`), the meta-predictor network, Adam and the test-mode random reward are not modelled. The accuracy an estimator reports is the `estimate` parameter of `PerformAction` and `Step`.
- `compute_reward`'s selection of an estimator is not modelled; only its scaling (`scale_reward`) is.
- gym spaces, `render`, `close`, `print`, `time.time()` and the `running_time` entry of the info dictionary are not modelled.
- `reset` and `set_task` are not modelled: they reload model state through `load_state_dict`, which is outside this model.
- The `eval(row)` branch for node lists given as strings is not modelled.
- The weight-saving code at the top of `meta_predictor/utils.py` is file I/O and is not modelled.
- `max_alphas` is modelled as a value snapshot of the normal-cell weights. The source stores tensor references, which can alias the live weights.
- The primitives, and `gt.PRIMITIVES_NAS_BENCH_201`, are parameters. `metanas/utils/genotypes.py` is not part of this model.
- Genotype.EstimationCell: parses and builds the node list with the same primitives. The source parses with the NAS-Bench-201 list and looks the operations up in the configured list, so the lemma holds when the two lists agree.
- igraph's exception for a vertex id out of range is modelled as `ValueError`, and igraph's graph as the vertex types with the edge list in insertion order.
- Environment.NasEnv.constructor: requires weights of DARTS shape and at least one node and one primitive, which the source does not check. With no nodes the source raises IndexError when it reads the first state (`core.py:209-210`); with no primitive `torch.topk` raises on an empty edge (`core.py:175`). The reduce-cell weights must have DARTS shape even in a normal-cell environment, where the source never reads them.
- IncreaseOp, DecreaseOp, UpdateMetaModel and MoveTo require in-range row, edge, operation and state indices. Out of range, the source's tensor indexing would raise or wrap around, and the model does not cover that. Every call site passes positions read from `edge_to_alpha`/`edge_to_index` and the action id, and these always meet the requirement.
- The normalised weights, the state table and the weights are modelled as possibly ragged nested sequences rather than tensors.

Where the code and its documentation differ, the model follows the code:

- `decrease_op` on a weight of 0.0 is applied: the subtraction takes the weight to 0.01 and the floor then to 0.02 in the normalised view (`AlphaOps.DecreaseAtZero`). It is not a no-op.
- `increase_op` refuses only when `cur + prob` equals 1.0 exactly, and `decrease_op` only when `cur` equals `prob` exactly.
- After a mutation the edited edge of the normalised view sums to `1 + amount + 0.01·n`, not to 1 (`AlphaOps.ShiftOpSum`).
- `is_valid_DAG` rejects `START_TYPE == END_TYPE`, because a start vertex is never counted as an end.
- The architecture string indexes with Python semantics, so a type of -3 to 1 selects a name from the end of the list.
- `current_state_index` stays 0 after `set_start_state`; moves update only `current_state`.
