/**
 * The FIFO worklist solver of lib/Worklist.py and L4/Worklist.py. The CFG is
 * read through a value view (`GNode`): its name, its block's instructions
 * and the keys of its predecessor map, which is all the solver reads.
 */
module Worklist {
  import opened Wrappers
  import opened Bril
  import opened PyDict
  import opened Blocks
  import opened CfgNode
  import opened Cfg
  import opened Dataflow

  /** What the solver sees of a CFG node. */
  datatype GNode = GNode(name: Name, instrs: seq<Instr>, preds: seq<Name>)

  type Graph = seq<GNode>

  /** A solver table: one fact map per node name. */
  type Table = map<Name, Facts>

  /** The view of the nodes of a built CFG, in the order of `cfg.nodes`. */
  function View(nodes: Dict<Name, BlockCFGNode>): (g: Graph)
    reads set i | 0 <= i < |nodes| :: nodes[i].1
    reads set i | 0 <= i < |nodes| :: nodes[i].1.block
    ensures |g| == |nodes|
    ensures forall i :: 0 <= i < |g| ==>
      g[i] == GNode(nodes[i].0, nodes[i].1.block.instrs, Keys(nodes[i].1.predecessors))
  {
    seq(|nodes|, i requires 0 <= i < |nodes|
                   reads set i | 0 <= i < |nodes| :: nodes[i].1, set i | 0 <= i < |nodes| :: nodes[i].1.block
                   => GNode(nodes[i].0, nodes[i].1.block.instrs, Keys(nodes[i].1.predecessors)))
  }

  /**
   * The graph `CFG(blocks)` builds, stated from the blocks and the edge list:
   * one node per distinct name, holding the last block of that name, whose
   * predecessors are the sources of the edges into it.
   */
  function GraphOf(blocks: seq<Block>, edges: seq<Edge>): (g: Graph)
    reads set b | b in blocks
  {
    var names := BlockNames(blocks);
    var keys := Dedup(names);
    seq(|keys|, i requires 0 <= i < |keys| reads set b | b in blocks =>
      GNode(keys[i], blocks[LastIndexOf(names, keys[i])].instrs, Sources(edges, keys[i])))
  }

  /** The view of the built CFG is the graph stated from the blocks. */
  lemma ViewOfBuilt(blocks: seq<Block>, nodes: Dict<Name, BlockCFGNode>, edges: seq<Edge>)
    requires NodesFor(blocks, nodes) && PredecessorsRecorded(nodes, edges)
    ensures View(nodes) == GraphOf(blocks, edges)
  {
    var g := View(nodes);
    var h := GraphOf(blocks, edges);
    assert |g| == |h|;
    forall i | 0 <= i < |g|
      ensures g[i] == h[i]
    {
      var ks := Sources(edges, nodes[i].0);
      var l := Lookup(nodes, ks);
      assert nodes[i].1.predecessors == l;
      assert Keys(l) == ks by {
        assert |Keys(l)| == |ks|;
        assert forall j :: 0 <= j < |ks| ==> Keys(l)[j] == l[j].0 == ks[j];
      }
      assert Keys(nodes)[i] == nodes[i].0;
    }
  }

  /** The built graph has one node per distinct name, so no node is queued twice. */
  lemma GraphOfDistinct(blocks: seq<Block>, edges: seq<Edge>)
    ensures Distinct(GraphOf(blocks, edges))
  {
    var g := GraphOf(blocks, edges);
    forall i, j | 0 <= i < j < |g|
      ensures g[i] != g[j]
    {
      assert g[i].name == Dedup(BlockNames(blocks))[i];
    }
  }

  // ---------------------------------------------------------------- solver state

  /** The two tables and the `nodes` queue. */
  datatype State = State(input: Table, output: Table, queue: seq<GNode>)

  function NamesOfGraph(g: Graph): set<Name>
  {
    set i | 0 <= i < |g| :: g[i].name
  }

  /**
   * What every step keeps: both tables are keyed by exactly the node names,
   * and the queue holds distinct nodes of the graph.
   */
  ghost predicate Valid(g: Graph, s: State)
  {
    && s.input.Keys == NamesOfGraph(g)
    && s.output.Keys == NamesOfGraph(g)
    && (forall i :: 0 <= i < |s.queue| ==> s.queue[i] in g)
    && Distinct(s.queue)
  }

  /** No node occurs twice. */
  predicate Distinct(g: Graph)
  {
    forall i, j :: 0 <= i < j < |g| ==> g[i] != g[j]
  }

  /** Empty input and output maps for every node, and every node queued in order. */
  function Init(g: Graph): (s: State)
    ensures Distinct(g) ==> Valid(g, s)
    ensures s.input.Keys == s.output.Keys == NamesOfGraph(g)
    ensures forall n :: n in s.input ==> s.input[n] == map[] && s.output[n] == map[]
    ensures s.queue == g
  {
    State(map n | n in NamesOfGraph(g) :: map[], map n | n in NamesOfGraph(g) :: map[], g)
  }

  /** `[output[p] for p in current.get_predecessors()]`. */
  function PredValues(preds: seq<Name>, output: Table): (r: Result<seq<Facts>>)
    ensures r.Ok? <==> forall p :: p in preds ==> p in output
    ensures r.Err? ==> r.error == KeyError
    ensures r.Ok? ==> |r.value| == |preds| && forall i :: 0 <= i < |preds| ==> r.value[i] == output[preds[i]]
  {
    if forall p :: p in preds ==> p in output then
      Ok(seq(|preds|, i requires 0 <= i < |preds| && preds[i] in output => output[preds[i]]))
    else
      Err(KeyError)
  }

  /** The merged facts flowing into `node`: a node without predecessors merges one empty map. */
  function Merged(merge: seq<Facts> -> Facts, node: GNode, output: Table): Result<Facts>
  {
    var vals := PredValues(node.preds, output);
    if vals.Err? then Err(KeyError)
    else Ok(merge(if vals.value == [] then [map[]] else vals.value))
  }

  /**
   * One iteration of the `while nodes:` loop. A node name missing from a
   * table is Python's `KeyError`; it does not arise from `Init`.
   */
  function Step(merge: seq<Facts> -> Facts, transfer: (GNode, Facts) -> Facts, s: State): Result<State>
    requires s.queue != []
  {
    var node := s.queue[0];
    var m := Merged(merge, node, s.output);
    if m.Err? then Err(m.error)
    else if node.name !in s.input || node.name !in s.output then Err(KeyError)
    else
      var input := s.input[node.name := s.input[node.name] + m.value];
      var out := transfer(node, m.value);
      if out != s.output[node.name] then
        Ok(State(input, s.output[node.name := out], s.queue[1..] + [node]))
      else
        Ok(State(input, s.output, s.queue[1..]))
  }

  /**
   * What one iteration does: it fails only on a predecessor without an output;
   * otherwise the front node's input gains the merged facts, the other inputs
   * stay, its output becomes the transfer result, and it is re-appended to the
   * back of the queue exactly when that output changed.
   */
  lemma StepSpec(g: Graph, merge: seq<Facts> -> Facts, transfer: (GNode, Facts) -> Facts, s: State)
    requires Valid(g, s) && s.queue != []
    ensures Step(merge, transfer, s).Err? <==> exists p :: p in s.queue[0].preds && p !in s.output
    ensures Step(merge, transfer, s).Err? ==> Step(merge, transfer, s).error == KeyError
    ensures s.queue[0].preds == [] ==> Merged(merge, s.queue[0], s.output) == Ok(merge([map[]]))
    ensures Step(merge, transfer, s).Ok? ==>
      var s' := Step(merge, transfer, s).value;
      var node := s.queue[0];
      var m := Merged(merge, node, s.output).value;
      var out := transfer(node, m);
      && Valid(g, s')
      && s'.input == s.input[node.name := s.input[node.name] + m]
      && s'.output == s.output[node.name := out]
      && (s'.queue == s.queue[1..] + [node] <==> out != s.output[node.name])
      && (s'.queue == s.queue[1..] <==> out == s.output[node.name])
  {
    var node := s.queue[0];
    assert node.name in NamesOfGraph(g);
    if Step(merge, transfer, s).Ok? {
      var s' := Step(merge, transfer, s).value;
      var q := s.queue[1..];
      assert |s'.queue| != |q| ==> s'.queue != q;
      assert s'.queue == q + [node] ==> s'.queue != q;
      forall i, j | 0 <= i < j < |s'.queue|
        ensures s'.queue[i] != s'.queue[j]
      {
        assert s'.queue[i] == s.queue[i + 1];
      }
    }
  }

  /** Input maps only gain keys in one step. */
  lemma StepInputsGrow(g: Graph, merge: seq<Facts> -> Facts, transfer: (GNode, Facts) -> Facts, s: State)
    requires Valid(g, s) && s.queue != [] && Step(merge, transfer, s).Ok?
    ensures forall n :: n in s.input ==> n in Step(merge, transfer, s).value.input &&
                                         s.input[n].Keys <= Step(merge, transfer, s).value.input[n].Keys
  {
    StepSpec(g, merge, transfer, s);
  }

  /** The solver loop; `fuel` bounds its iterations, since nothing guarantees the loop ends. */
  function Run(merge: seq<Facts> -> Facts, transfer: (GNode, Facts) -> Facts, s: State, fuel: nat): Result<State>
    decreases fuel
  {
    if s.queue == [] then Ok(s)
    else if fuel == 0 then Err(OutOfFuel)
    else
      var next := Step(merge, transfer, s);
      if next.Err? then Err(next.error)
      else Run(merge, transfer, next.value, fuel - 1)
  }

  /**
   * A finished run has an empty queue, keeps both tables keyed by every node
   * name, and never drops a key from an input map.
   */
  lemma {:induction false} RunSpec(g: Graph, merge: seq<Facts> -> Facts, transfer: (GNode, Facts) -> Facts, s: State, fuel: nat)
    requires Valid(g, s)
    ensures Run(merge, transfer, s, fuel).Err? ==> Run(merge, transfer, s, fuel).error in {KeyError, OutOfFuel}
    ensures Run(merge, transfer, s, fuel).Ok? ==>
      var t := Run(merge, transfer, s, fuel).value;
      && t.queue == [] && Valid(g, t)
      && forall n :: n in s.input ==> s.input[n].Keys <= t.input[n].Keys
    decreases fuel
  {
    if s.queue != [] && fuel != 0 {
      var next := Step(merge, transfer, s);
      StepSpec(g, merge, transfer, s);
      if next.Ok? {
        StepInputsGrow(g, merge, transfer, s);
        RunSpec(g, merge, transfer, next.value, fuel - 1);
      }
    }
  }

  /** The (input, output) pair the solver returns, swapped for a backward analysis. */
  function Answer(g: Graph, merge: seq<Facts> -> Facts, transfer: (GNode, Facts) -> Facts, inverse: bool, fuel: nat): Result<(Table, Table)>
  {
    var r := Run(merge, transfer, Init(g), fuel);
    if r.Err? then Err(r.error)
    else if inverse then Ok((r.value.output, r.value.input))
    else Ok((r.value.input, r.value.output))
  }

  /** Every node gets an input and an output map; a backward run returns them as (output, input). */
  lemma AnswerSpec(g: Graph, merge: seq<Facts> -> Facts, transfer: (GNode, Facts) -> Facts, inverse: bool, fuel: nat)
    requires Distinct(g)
    ensures Answer(g, merge, transfer, inverse, fuel).Ok? ==>
      var r := Run(merge, transfer, Init(g), fuel).value;
      && r.input.Keys == NamesOfGraph(g) && r.output.Keys == NamesOfGraph(g)
      && Answer(g, merge, transfer, inverse, fuel).value == (if inverse then (r.output, r.input) else (r.input, r.output))
  {
    RunSpec(g, merge, transfer, Init(g), fuel);
  }

  /** The queue loop of `worklist`, over the two tables and the `nodes` list. */
  method Solve(g: Graph, merge: seq<Facts> -> Facts, transfer: (GNode, Facts) -> Facts, fuel: nat)
    returns (r: Result<State>)
    ensures r == Run(merge, transfer, Init(g), fuel)
  {
    var s := Init(g);
    var steps := fuel;
    while s.queue != []
      invariant Run(merge, transfer, s, steps) == Run(merge, transfer, Init(g), fuel)
      decreases steps
    {
      if steps == 0 {
        return Err(OutOfFuel);
      }
      var next := Iterate(merge, transfer, s.input, s.output, s.queue);
      if next.Err? {
        return Err(next.error);
      }
      s := next.value;
      steps := steps - 1;
    }
    return Ok(s);
  }

  /** The body of the `while nodes:` loop: pop the front node, merge, update, transfer, compare. */
  method Iterate(merge: seq<Facts> -> Facts, transfer: (GNode, Facts) -> Facts,
                 input: Table, output: Table, nodes: seq<GNode>)
    returns (r: Result<State>)
    requires nodes != []
    ensures r == Step(merge, transfer, State(input, output, nodes))
  {
    var current := nodes[0];
    var rest := nodes[1..];
    var inputValues := PredValues(current.preds, output);
    if inputValues.Err? {
      return Err(KeyError);
    }
    var vals := if inputValues.value == [] then [map[]] else inputValues.value;
    var merged := merge(vals);
    if current.name !in input || current.name !in output {
      return Err(KeyError);
    }
    var input' := input[current.name := input[current.name] + merged];
    var newOutput := transfer(current, merged);
    var changed := newOutput != output[current.name];
    if changed {
      return Ok(State(input', output[current.name := newOutput], rest + [current]));
    }
    return Ok(State(input', output, rest));
  }

  /** Whether `CFG(blocks)` succeeds: every jump has labels and every label names a block. */
  ghost predicate Buildable(blocks: seq<Block>)
    reads set b | b in blocks
  {
    EdgeList(blocks).Ok? && forall e :: e in EdgeList(blocks).value ==> Some(e.1) in BlockNames(blocks)
  }

  /**
   * `worklist(blocks, merge, transfer, inverse)`: build the CFG, switch its
   * directions for a backward analysis, solve, and return (input, output),
   * swapped when `inverse` is set. `switch` stands for `switch_directions`.
   */
  method Worklist(blocks: seq<Block>, merge: seq<Facts> -> Facts, transfer: (GNode, Facts) -> Facts,
                  inverse: bool, switch: Graph -> Graph, fuel: nat)
    returns (r: Result<(Table, Table)>)
    ensures !Buildable(blocks) ==> r == Err(KeyError)
    ensures Buildable(blocks) ==>
      var g := GraphOf(blocks, EdgeList(blocks).value);
      r == Answer(if inverse then switch(g) else g, merge, transfer, inverse, fuel)
  {
    var built := CFG.Build(blocks);
    if built.Err? {
      return Err(KeyError);
    }
    var cfg := built.value;
    var g := View(cfg.nodes);
    ViewOfBuilt(blocks, cfg.nodes, EdgeList(blocks).value);
    if inverse {
      g := switch(g);
    }
    var s := Solve(g, merge, transfer, fuel);
    if s.Err? {
      return Err(s.error);
    }
    if inverse {
      return Ok((s.value.output, s.value.input));
    }
    return Ok((s.value.input, s.value.output));
  }

  // ---------------------------------------------------------------- the methods table

  /**
   * The routines the shown files call but do not define: a block's annotated
   * definitions, its full definitions, and the order in which Python iterates
   * the `uses` set of the block.
   */
  datatype Oracle = Oracle(annotated: GNode -> Facts, full: GNode -> Facts, order: GNode -> seq<string>)

  /** The `order` oracle enumerates exactly the block's uses. */
  ghost predicate OrderIsUses(o: Oracle)
  {
    forall n: GNode :: (set x | x in o.order(n)) == UsesOf(n.instrs)
  }

  datatype Analysis = Reaching | Defined | Live | Cprop

  /** An entry of `methods`. */
  datatype Method = Method(merge: seq<Facts> -> Facts, transfer: (GNode, Facts) -> Facts, inverse: bool)

  /** The `methods` table. */
  function Methods(a: Analysis, o: Oracle): Method
  {
    match a
    case Reaching => Method(UnionOf, (n, y) => TransferReaching(o.annotated(n), y), false)
    case Defined => Method(UnionOf, (n, y) => TransferDefined(o.annotated(n), y), false)
    case Live => Method(UnionOf, (n, y) => TransferLive(o.order(n), o.annotated(n), y), true)
    case Cprop => Method(CpropUnionOf, (n, y) => CpropUnionOf([o.full(n), y]), false)
  }

  /**
   * Only liveness is backward; cprop merges with the `"?"` union and all others
   * with the plain union; and each transfer keeps the keys its analysis
   * promises: reaching and defined add the block's definitions to the incoming
   * facts, liveness keeps incoming facts not defined in the block plus the
   * block's uses.
   */
  lemma MethodsSpec(a: Analysis, o: Oracle, n: GNode, y: Facts)
    requires OrderIsUses(o)
    ensures Methods(a, o).inverse <==> a == Live
    ensures Methods(a, o).merge == (if a == Cprop then CpropUnionOf else UnionOf)
    ensures a == Reaching || a == Defined ==> Methods(a, o).transfer(n, y).Keys == y.Keys + o.annotated(n).Keys
    ensures a == Reaching ==> forall k :: k in o.annotated(n) ==> Methods(a, o).transfer(n, y)[k] == o.annotated(n)[k]
    ensures a == Defined ==> forall k :: k in y ==> Methods(a, o).transfer(n, y)[k] == y[k]
    ensures a == Live ==> Methods(a, o).transfer(n, y).Keys == (y.Keys - o.annotated(n).Keys) + UsesOf(n.instrs)
    ensures a == Cprop ==> Methods(a, o).transfer(n, y).Keys == o.full(n).Keys + y.Keys
  {
    if a == Cprop {
      forall k ensures k in Methods(a, o).transfer(n, y) <==> k in o.full(n) || k in y {
        CpropTransferFacts(o.full(n), y, k);
      }
    }
  }
}
