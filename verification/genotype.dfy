/**
 * The meta-predictor's view of a cell: `parse` reads a genotype off the
 * weights (per node, the k strongest input edges and the strongest
 * operation of each), and the estimation turns the genotype into the node
 * list `[type, b_0, b_1, ...]` that the NAS-Bench-201 codec decodes.
 */
module Genotype {
  import opened Wrappers
  import opened Selection
  import opened AlphaOps
  import opened Nb201Codec

  /** One gene of a node: the chosen operation and the index of the input edge it sits on. */
  datatype Gene = Gene(op: string, edge: nat)

  /* ------------------------------------------------------------------ parse */

  /** Every edge of a node's weights holds at least one operation weight. */
  predicate EdgesNonEmpty(row: seq<seq<real>>) {
    forall j | 0 <= j < |row| :: |row[j]| > 0
  }

  /** The genes of the selected edges, in selection order, each naming the first strongest operation of its edge. */
  function GenesOf(row: seq<seq<real>>, idx: seq<nat>, primitives: seq<string>): (r: Result<seq<Gene>, Error>)
    requires EdgesNonEmpty(row)
    requires forall a :: 0 <= a < |idx| ==> idx[a] < |row|
    ensures r.Err? ==> r.error == IndexError
    ensures r.Ok? ==> |r.value| == |idx|
  {
    if |idx| == 0 then Ok([])
    else
      match GenesOf(row, idx[..|idx| - 1], primitives)
      case Err(e) => Err(e)
      case Ok(genes) =>
        var e := idx[|idx| - 1];
        var p := ArgMax(row[e]);
        if p < |primitives| then Ok(genes + [Gene(primitives[p], e)]) else Err(IndexError)
  }

  /**
   * The genes of a node: `torch.topk` over each edge's weights finds the
   * strongest operation (RuntimeError for an edge without weights), a
   * second `torch.topk` picks the k edges with the largest maxima
   * (RuntimeError when k exceeds the edges), and a strongest operation
   * beyond the primitives raises IndexError.
   */
  function ParseRow(row: seq<seq<real>>, k: nat, primitives: seq<string>): (r: Result<seq<Gene>, Error>)
    ensures r.Err? ==> r.error == RuntimeError || r.error == IndexError
  {
    if !EdgesNonEmpty(row) || k > |row| then Err(RuntimeError)
    else GenesOf(row, TopK(EdgeMaxima(row), k), primitives)
  }

  /** The input edges of a node's genes. */
  function EdgesOf(genes: seq<Gene>): (r: seq<nat>)
    ensures |r| == |genes| && forall a :: 0 <= a < |genes| ==> r[a] == genes[a].edge
  {
    if |genes| == 0 then [] else EdgesOf(genes[..|genes| - 1]) + [genes[|genes| - 1].edge]
  }

  /**
   * The gene names, as a primitive, an operation holding the largest
   * weight of its edge, and the first such operation.
   */
  ghost predicate Strongest(row: seq<seq<real>>, g: Gene, primitives: seq<string>) {
    && g.edge < |row|
    && exists p :: 0 <= p < |row[g.edge]| && p < |primitives| && g.op == primitives[p]
         && (forall o :: 0 <= o < |row[g.edge]| ==> row[g.edge][o] <= row[g.edge][p])
         && (forall o :: 0 <= o < p ==> row[g.edge][o] < row[g.edge][p])
  }

  /** GenesOf succeeds iff every selected edge's strongest operation is a primitive, and then names it. */
  lemma {:induction false} GenesOfMeaning(row: seq<seq<real>>, idx: seq<nat>, primitives: seq<string>)
    requires EdgesNonEmpty(row)
    requires forall a :: 0 <= a < |idx| ==> idx[a] < |row|
    ensures var r := GenesOf(row, idx, primitives);
      && (r.Ok? <==> forall a :: 0 <= a < |idx| ==> ArgMax(row[idx[a]]) < |primitives|)
      && (r.Ok? ==> forall a :: 0 <= a < |idx| ==> r.value[a] == Gene(primitives[ArgMax(row[idx[a]])], idx[a]))
  {
    if |idx| > 0 {
      GenesOfMeaning(row, idx[..|idx| - 1], primitives);
    }
  }

  /** A gene naming the primitive at the first largest weight of its edge names the strongest operation. */
  lemma ArgMaxIsStrongest(row: seq<seq<real>>, g: Gene, primitives: seq<string>)
    requires g.edge < |row| && |row[g.edge]| > 0
    requires ArgMax(row[g.edge]) < |primitives| && g.op == primitives[ArgMax(row[g.edge])]
    ensures Strongest(row, g, primitives)
  {
    var v := row[g.edge];
    var p := ArgMax(v);
    MaxIsUpperBound(v);
    assert 0 <= p < |v| && p < |primitives| && g.op == primitives[p]
      && (forall o :: 0 <= o < |v| ==> v[o] <= v[p])
      && (forall o :: 0 <= o < p ==> v[o] < v[p]);
  }

  /**
   * A node parses iff every edge has weights, k does not exceed the
   * edges, and the strongest operation of each selected edge is a
   * primitive. Its genes then sit on a top-k selection of the edge maxima,
   * in order, and each names the strongest operation of its edge.
   */
  lemma ParseRowMeaning(row: seq<seq<real>>, k: nat, primitives: seq<string>)
    ensures var r := ParseRow(row, k, primitives);
      && (r.Err? && r.error == RuntimeError <==> !EdgesNonEmpty(row) || k > |row|)
      && (r.Ok? ==> |r.value| == k && IsTopK(EdgeMaxima(row), EdgesOf(r.value), k))
      && (r.Ok? ==> forall a :: 0 <= a < k ==> Strongest(row, r.value[a], primitives))
  {
    var r := ParseRow(row, k, primitives);
    if EdgesNonEmpty(row) && k <= |row| {
      var idx := TopK(EdgeMaxima(row), k);
      GenesOfMeaning(row, idx, primitives);
      TopKIsTopK(EdgeMaxima(row), k);
      if r.Ok? {
        assert EdgesOf(r.value) == idx;
        forall a | 0 <= a < k
          ensures Strongest(row, r.value[a], primitives)
        {
          ArgMaxIsStrongest(row, r.value[a], primitives);
        }
      }
    }
  }

  /** The outcome of each node's parse, in node order. */
  function RowResults(alpha: seq<seq<seq<real>>>, k: nat, primitives: seq<string>): (r: seq<Result<seq<Gene>, Error>>)
    ensures |r| == |alpha|
  {
    if |alpha| == 0 then [] else RowResults(alpha[..|alpha| - 1], k, primitives) + [ParseRow(alpha[|alpha| - 1], k, primitives)]
  }

  /** The i-th outcome is the i-th node's parse. */
  lemma {:induction false} RowResultsAt(alpha: seq<seq<seq<real>>>, k: nat, primitives: seq<string>)
    ensures forall i :: 0 <= i < |alpha| ==> RowResults(alpha, k, primitives)[i] == ParseRow(alpha[i], k, primitives)
  {
    if |alpha| > 0 {
      var prefix := alpha[..|alpha| - 1];
      RowResultsAt(prefix, k, primitives);
      assert forall i :: 0 <= i < |prefix| ==> prefix[i] == alpha[i];
    }
  }

  /** Running steps one after another: the values of all, or the exception of the first that raises. */
  function Sequence<T>(rs: seq<Result<T, Error>>): (r: Result<seq<T>, Error>)
    ensures r.Ok? ==> |r.value| == |rs|
  {
    if |rs| == 0 then Ok([])
    else
      match Sequence(rs[..|rs| - 1])
      case Err(e) => Err(e)
      case Ok(vs) =>
        match rs[|rs| - 1]
        case Err(e) => Err(e)
        case Ok(v) => Ok(vs + [v])
  }

  /**
   * A sequence of steps succeeds iff every step does, and then holds each
   * step's value; otherwise it fails with the exception of the first step
   * that raises.
   */
  lemma {:induction false} SequenceMeaning<T>(rs: seq<Result<T, Error>>)
    ensures var r := Sequence(rs);
      && (r.Ok? <==> forall i :: 0 <= i < |rs| ==> rs[i].Ok?)
      && (r.Ok? ==> forall i :: 0 <= i < |rs| ==> r.value[i] == rs[i].value)
      && (r.Err? ==> exists i :: 0 <= i < |rs| && rs[i] == Err(r.error) && forall j :: 0 <= j < i ==> rs[j].Ok?)
  {
    if |rs| > 0 {
      var prefix := rs[..|rs| - 1];
      SequenceMeaning(prefix);
      assert forall i :: 0 <= i < |prefix| ==> prefix[i] == rs[i];
      if Sequence(prefix).Ok? && rs[|rs| - 1].Err? {
        assert rs[|rs| - 1] == Err(Sequence(rs).error);
      }
    }
  }

  /** parse: the genes of every node in turn; the first node that fails decides the exception. */
  function Parse(alpha: seq<seq<seq<real>>>, k: nat, primitives: seq<string>): (r: Result<seq<seq<Gene>>, Error>)
    ensures r.Ok? ==> |r.value| == |alpha|
  {
    Sequence(RowResults(alpha, k, primitives))
  }

  /**
   * parse succeeds iff every node parses, and then holds each node's genes;
   * otherwise it fails with the exception of the first node that does not
   * parse, a RuntimeError or an IndexError.
   */
  lemma ParseMeaning(alpha: seq<seq<seq<real>>>, k: nat, primitives: seq<string>)
    ensures var r := Parse(alpha, k, primitives);
      && (r.Ok? <==> forall i :: 0 <= i < |alpha| ==> ParseRow(alpha[i], k, primitives).Ok?)
      && (r.Ok? ==> forall i :: 0 <= i < |alpha| ==> r.value[i] == ParseRow(alpha[i], k, primitives).value)
      && (r.Err? ==> exists i :: 0 <= i < |alpha| && ParseRow(alpha[i], k, primitives) == Err(r.error)
                               && forall j :: 0 <= j < i ==> ParseRow(alpha[j], k, primitives).Ok?)
      && (r.Err? ==> r.error == RuntimeError || r.error == IndexError)
  {
    RowResultsAt(alpha, k, primitives);
    SequenceMeaning(RowResults(alpha, k, primitives));
  }

  /* -------------------------------------------------------------- node list */

  /** The connection bits of the i-th gene's vertex; the last row also serves the output vertex. */
  const Connections: seq<seq<int>> := [[1],
                                      [1, 0],
                                      [0, 1, 0],
                                      [1, 0, 0, 0],
                                      [0, 1, 0, 0, 0],
                                      [0, 0, 1, 1, 0, 0],
                                      [0, 0, 0, 0, 1, 1, 1]]

  /** The genes of all nodes, node after node. */
  function Flatten(geno: seq<seq<Gene>>): (r: seq<Gene>)
  {
    if |geno| == 0 then [] else Flatten(geno[..|geno| - 1]) + geno[|geno| - 1]
  }

  /** When every node has k genes, the genotype has k per node. */
  lemma {:induction false} FlattenLength(geno: seq<seq<Gene>>, k: nat)
    requires forall i :: 0 <= i < |geno| ==> |geno[i]| == k
    ensures |Flatten(geno)| == k * |geno|
  {
    if |geno| > 0 {
      FlattenLength(geno[..|geno| - 1], k);
    }
  }

  /**
   * The rows of the gene vertices: the position of the gene's operation in
   * the primitives plus 2 (ValueError for an unknown operation), then the
   * connections of its place (IndexError past the seventh gene).
   */
  function GeneRows(genes: seq<Gene>, primitives: seq<string>): (r: Result<seq<seq<int>>, Error>)
    ensures r.Err? ==> r.error == ValueError || r.error == IndexError
  {
    if |genes| == 0 then Ok([])
    else
      match GeneRows(genes[..|genes| - 1], primitives)
      case Err(e) => Err(e)
      case Ok(rows) =>
        var t := |genes| - 1;
        match PyListIndex(primitives, genes[t].op)
        case None => Err(ValueError)
        case Some(p) => if t < |Connections| then Ok(rows + [[p + 2] + Connections[t]]) else Err(IndexError)
  }

  /**
   * The node list of the meta-predictor estimation: the input vertex
   * `[0]`, a row per gene, and the output vertex of type 1 fed by the last
   * connection row.
   */
  function NodeList(geno: seq<seq<Gene>>, primitives: seq<string>): (r: Result<seq<seq<int>>, Error>)
    ensures r.Err? ==> r.error == ValueError || r.error == IndexError
  {
    match GeneRows(Flatten(geno), primitives)
    case Err(e) => Err(e)
    case Ok(rows) => Ok([[0]] + rows + [[1] + Connections[|Connections| - 1]])
  }

  /**
   * The row of gene g at place t: the first position of g's operation in
   * the primitives plus 2, then the connections of place t.
   */
  predicate IsGeneRow(row: seq<int>, t: nat, g: Gene, primitives: seq<string>) {
    && t < |Connections|
    && PyListIndex(primitives, g.op).Some?
    && row == [PyListIndex(primitives, g.op).value + 2] + Connections[t]
  }

  /** A gene row has t + 2 entries, a type naming the gene's operation, and the connections of place t. */
  lemma GeneRowFields(row: seq<int>, t: nat, g: Gene, primitives: seq<string>)
    requires IsGeneRow(row, t, g, primitives)
    ensures |row| == t + 2 && 2 <= row[0] < |primitives| + 2
    ensures primitives[row[0] - 2] == g.op && row[1..] == Connections[t]
  {
  }

  /**
   * The gene rows exist iff there are at most seven genes and each names a
   * primitive; row t is then the row of gene t at place t.
   */
  lemma {:induction false} GeneRowsMeaning(genes: seq<Gene>, primitives: seq<string>)
    ensures var r := GeneRows(genes, primitives);
      && (r.Ok? <==> |genes| <= 7 && forall t :: 0 <= t < |genes| ==> genes[t].op in primitives)
      && (r.Ok? ==> |r.value| == |genes| && forall t :: 0 <= t < |genes| ==> IsGeneRow(r.value[t], t, genes[t], primitives))
  {
    if |genes| > 0 {
      var prefix := genes[..|genes| - 1];
      GeneRowsMeaning(prefix, primitives);
      assert forall t :: 0 <= t < |prefix| ==> prefix[t] == genes[t];
    }
  }

  /**
   * The node list exists iff the genotype has at most seven genes, each
   * naming a primitive. It then has a row per gene between the input
   * vertex (type 0, no bits) and the output vertex (type 1), and the row
   * of vertex v, gene v - 1, has type at least 2, naming the gene's
   * operation, and v bits.
   */
  lemma NodeListMeaning(geno: seq<seq<Gene>>, primitives: seq<string>)
    ensures var flat := Flatten(geno);
      var r := NodeList(geno, primitives);
      && (r.Ok? <==> |flat| <= 7 && forall t :: 0 <= t < |flat| ==> flat[t].op in primitives)
      && (r.Ok? ==> && |r.value| == |flat| + 2
                    && r.value[0] == [0]
                    && r.value[|flat| + 1] == [1] + Connections[|Connections| - 1]
                    && forall v :: 1 <= v <= |flat| ==>
                         && |r.value[v]| == v + 1
                         && 2 <= r.value[v][0] < |primitives| + 2
                         && primitives[r.value[v][0] - 2] == flat[v - 1].op
                         && r.value[v][1..] == Connections[v - 1])
  {
    var flat := Flatten(geno);
    GeneRowsMeaning(flat, primitives);
    var r := NodeList(geno, primitives);
    if r.Ok? {
      var rows := GeneRows(flat, primitives).value;
      assert r.value == [[0]] + rows + [[1] + Connections[|Connections| - 1]];
      forall v | 1 <= v <= |flat|
        ensures |r.value[v]| == v + 1 && 2 <= r.value[v][0] < |primitives| + 2
        ensures primitives[r.value[v][0] - 2] == flat[v - 1].op && r.value[v][1..] == Connections[v - 1]
      {
        assert r.value[v] == rows[v - 1];
        GeneRowFields(rows[v - 1], v - 1, flat[v - 1], primitives);
      }
    }
  }

  /* ---------------------------------------------------------- the decoded cell */

  /** The edge from v to the next vertex. */
  function Hop(v: int): (int, int) {
    (v, v + 1)
  }

  /**
   * A DAG of eight vertices, typed 0 at the input, 1 at the output and at
   * least 2 in between, that contains the path 0 -> 1 -> ... -> 7 passes
   * is_valid_NAS201.
   */
  lemma PathGraphIsNas201(g: Graph)
    requires IsDag(g) && |g.types| == 8
    requires g.types[0] == 0 && g.types[7] == 1 && forall v :: 1 <= v < 7 ==> g.types[v] >= 2
    requires forall v :: 0 <= v < 7 ==> Hop(v) in g.edges
    ensures ValidNas201(g, 0, 1)
  {
    assert ExactlyOne(g.types, 0) by {
      assert forall u :: 0 <= u < 8 && g.types[u] == 0 ==> u == 0;
    }
    assert ExactlyOne(g.types, 1) by {
      assert forall u :: 0 <= u < 8 && g.types[u] == 1 ==> u == 7;
    }
    forall v | 0 <= v < 8
      ensures g.types[v] == 0 || Enters(g, v)
    {
      if v != 0 {
        assert Hop(v - 1) in g.edges;
      }
    }
    forall v | 0 <= v < 8
      ensures g.types[v] == 1 || Leaves(g, v)
    {
      if v != 7 {
        assert Hop(v) in g.edges;
      }
    }
  }

  /** Some edge enters v. */
  ghost predicate Enters(g: Graph, v: int) {
    exists e :: e in g.edges && e.1 == v
  }

  /** Some edge leaves v. */
  ghost predicate Leaves(g: Graph, v: int) {
    exists e :: e in g.edges && e.0 == v
  }

  /**
   * Eight rows, row i holding at most i bits, with bit 0 of row 1 and bit 6
   * of row 7 set, decode to a DAG typed by the rows' first entries that
   * contains the path 0 -> 1 -> ... -> 7 (the other steps are chain edges).
   */
  lemma PathRowsDecode(rows: seq<seq<int>>)
    requires |rows| == 8 && forall i :: 0 <= i < 8 ==> 0 < |rows[i]| <= i + 1
    requires |rows[1]| == 2 && rows[1][1] == 1 && |rows[7]| == 8 && rows[7][7] == 1
    ensures DecodeMetaD2A(rows).Ok?
    ensures var g := DecodeMetaD2A(rows).value;
      && IsDag(g) && |g.types| == 8
      && (forall i :: 0 <= i < 8 ==> g.types[i] == rows[i][0])
      && forall v :: 0 <= v < 7 ==> Hop(v) in g.edges
  {
    forall i | 0 <= i < 8
      ensures RowOk(rows, i)
    {
    }
    DecodeMetaD2AMeaning(rows);
    DecodedIsDag(rows);
    var g := DecodeMetaD2A(rows).value;
    assert BitEdge(rows, 8, Hop(0)) && BitEdge(rows, 8, Hop(6));
    forall v | 0 < v < 6
      ensures Hop(v) in g.edges
    {
      assert ChainEdge(8, 8, Hop(v));
    }
  }

  /**
   * The node list of six genes that name primitives: eight rows, the gene
   * rows typed by the operations' positions plus 2, and the rows that open
   * and close the path through the cell.
   */
  lemma SixGeneRows(geno: seq<seq<Gene>>, primitives: seq<string>)
    requires |Flatten(geno)| == 6 && forall t :: 0 <= t < 6 ==> Flatten(geno)[t].op in primitives
    ensures NodeList(geno, primitives).Ok?
    ensures var rows := NodeList(geno, primitives).value;
      && |rows| == 8 && (forall i :: 0 <= i < 8 ==> 0 < |rows[i]| <= i + 1)
      && |rows[1]| == 2 && rows[1][1] == 1 && |rows[7]| == 8 && rows[7][7] == 1
      && rows[0][0] == 0 && rows[7][0] == 1
      && forall v :: 1 <= v < 7 ==>
           2 <= rows[v][0] < |primitives| + 2 && primitives[rows[v][0] - 2] == Flatten(geno)[v - 1].op
  {
    NodeListMeaning(geno, primitives);
    var rows := NodeList(geno, primitives).value;
    var last := Connections[|Connections| - 1];
    assert last == [0, 0, 0, 0, 1, 1, 1];
    assert rows[7] == [1] + last;
    assert rows[1][1..] == Connections[0] == [1];
    assert rows[1][1] == rows[1][1..][0];
  }

  /**
   * Six genes, each naming a primitive, make a valid NAS-Bench-201 cell:
   * the node list decodes to eight vertices, vertex t + 1 typed by the
   * position of gene t's operation plus 2, and the graph passes
   * is_valid_NAS201.
   */
  lemma SixGenesMakeNas201Cell(geno: seq<seq<Gene>>, primitives: seq<string>)
    requires |Flatten(geno)| == 6 && forall t :: 0 <= t < 6 ==> Flatten(geno)[t].op in primitives
    ensures NodeList(geno, primitives).Ok?
    ensures var g := DecodeMetaD2A(NodeList(geno, primitives).value);
      && g.Ok?
      && ValidNas201(g.value, 0, 1)
      && forall v :: 1 <= v < 7 ==>
           2 <= g.value.types[v] < |primitives| + 2 && primitives[g.value.types[v] - 2] == Flatten(geno)[v - 1].op
  {
    SixGeneRows(geno, primitives);
    var rows := NodeList(geno, primitives).value;
    PathRowsDecode(rows);
    PathGraphIsNas201(DecodeMetaD2A(rows).value);
  }

  /**
   * With the NAS-Bench-201 operation names as the primitives, the
   * architecture string of the cell six genes make names the six genes'
   * operations in order.
   */
  lemma SixGenesArchString(geno: seq<seq<Gene>>)
    requires |Flatten(geno)| == 6 && forall t :: 0 <= t < 6 ==> Flatten(geno)[t].op in OpNames
    ensures NodeList(geno, OpNames).Ok? && DecodeMetaD2A(NodeList(geno, OpNames).value).Ok?
    ensures |DecodeMetaD2A(NodeList(geno, OpNames).value).value.types| == 8
    ensures var flat := Flatten(geno);
      ArchOf(DecodeMetaD2A(NodeList(geno, OpNames).value).value.types)
        == Ok(ArchFormat(flat[0].op, flat[1].op, flat[2].op, flat[3].op, flat[4].op, flat[5].op))
  {
    SixGenesMakeNas201Cell(geno, OpNames);
    ArchOfGenes(DecodeMetaD2A(NodeList(geno, OpNames).value).value.types, Flatten(geno));
  }

  /** The architecture string of inner vertex types that name six genes' operations. */
  lemma ArchOfGenes(types: seq<int>, flat: seq<Gene>)
    requires |types| == 8 && |flat| == 6
    requires forall v :: 1 <= v < 7 ==> 2 <= types[v] < |OpNames| + 2 && OpNames[types[v] - 2] == flat[v - 1].op
    ensures ArchOf(types) == Ok(ArchFormat(flat[0].op, flat[1].op, flat[2].op, flat[3].op, flat[4].op, flat[5].op))
  {
    ArchOfNames(types);
  }

  /** Every gene of a genotype whose nodes' genes name primitives names a primitive. */
  lemma {:induction false} FlattenOps(geno: seq<seq<Gene>>, primitives: seq<string>)
    requires forall i, a :: 0 <= i < |geno| && 0 <= a < |geno[i]| ==> geno[i][a].op in primitives
    ensures forall t :: 0 <= t < |Flatten(geno)| ==> Flatten(geno)[t].op in primitives
  {
    if |geno| > 0 {
      var prefix := geno[..|geno| - 1];
      FlattenOps(prefix, primitives);
      var last := geno[|geno| - 1];
      assert Flatten(geno) == Flatten(prefix) + last;
      forall t | |Flatten(prefix)| <= t < |Flatten(geno)|
        ensures Flatten(geno)[t].op in primitives
      {
        assert Flatten(geno)[t] == last[t - |Flatten(prefix)|];
      }
    }
  }

  /** The node's parse holds two genes, each naming a primitive. */
  ghost predicate TwoGenes(r: Result<seq<Gene>, Error>, primitives: seq<string>) {
    r.Ok? && |r.value| == 2 && r.value[0].op in primitives && r.value[1].op in primitives
  }

  /** In the DARTS shape, every node parses with k = 2 into two genes that name primitives. */
  lemma DartsRowsParse(alphas: seq<seq<seq<real>>>, nodes: nat, primitives: seq<string>)
    requires DartsShape(alphas, nodes, |primitives|) && |primitives| >= 1
    ensures forall i :: 0 <= i < nodes ==> TwoGenes(RowResults(alphas, 2, primitives)[i], primitives)
  {
    RowResultsAt(alphas, 2, primitives);
    forall i | 0 <= i < nodes
      ensures TwoGenes(ParseRow(alphas[i], 2, primitives), primitives)
    {
      var row := alphas[i];
      assert EdgesNonEmpty(row);
      GenesOfMeaning(row, TopK(EdgeMaxima(row), 2), primitives);
    }
  }

  /**
   * parse with k = 2 of weights in the DARTS shape succeeds, with two genes
   * per intermediate node, each naming a primitive.
   */
  lemma DartsParse(alphas: seq<seq<seq<real>>>, nodes: nat, primitives: seq<string>)
    requires DartsShape(alphas, nodes, |primitives|) && |primitives| >= 1
    ensures Parse(alphas, 2, primitives).Ok?
    ensures var flat := Flatten(Parse(alphas, 2, primitives).value);
      |flat| == 2 * nodes && forall t :: 0 <= t < |flat| ==> flat[t].op in primitives
  {
    var rs := RowResults(alphas, 2, primitives);
    DartsRowsParse(alphas, nodes, primitives);
    SequenceMeaning(rs);
    var geno: seq<seq<Gene>> := Parse(alphas, 2, primitives).value;
    forall i | 0 <= i < |geno|
      ensures |geno[i]| == 2 && forall a :: 0 <= a < |geno[i]| ==> geno[i][a].op in primitives
    {
      assert geno[i] == rs[i].value;
    }
    FlattenLength(geno, 2);
    FlattenOps(geno, primitives);
  }

  /**
   * The estimation's genotype of weights in the DARTS shape: the node list
   * exists iff the cell has at most three intermediate nodes (two genes
   * each, seven connection rows), and with exactly three it decodes to a
   * valid NAS-Bench-201 cell.
   */
  lemma EstimationCell(alphas: seq<seq<seq<real>>>, nodes: nat, primitives: seq<string>)
    requires DartsShape(alphas, nodes, |primitives|) && |primitives| >= 1
    ensures Parse(alphas, 2, primitives).Ok?
    ensures var geno := Parse(alphas, 2, primitives).value;
      && (NodeList(geno, primitives).Ok? <==> nodes <= 3)
      && (nodes == 3 ==> var g := DecodeMetaD2A(NodeList(geno, primitives).value); g.Ok? && ValidNas201(g.value, 0, 1))
  {
    DartsParse(alphas, nodes, primitives);
    var geno := Parse(alphas, 2, primitives).value;
    NodeListMeaning(geno, primitives);
    if nodes == 3 {
      SixGenesMakeNas201Cell(geno, primitives);
    }
  }
}
