/**
 * lib/BlockCFGNode.py: a CFG node wraps a block and keeps its predecessors
 * and successors in name-keyed maps (insertion ordered).
 */
module CfgNode {
  import opened Wrappers
  import opened Bril
  import opened PyDict
  import opened Blocks

  class BlockCFGNode {
    const block: Block
    var predecessors: Dict<Name, BlockCFGNode>
    var successors: Dict<Name, BlockCFGNode>

    constructor (b: Block)
      ensures block == b
      ensures predecessors == [] && successors == []
    {
      block := b;
      predecessors := [];
      successors := [];
    }

    /** `get_name`: the wrapped block's name. */
    function GetName(): (r: Name)
      ensures r == block.GetBlockName()
    {
      block.name
    }

    /** `add_predecessor`: keyed by the predecessor's name; an existing key is overwritten in place. */
    method AddPredecessor(p: BlockCFGNode)
      modifies this`predecessors
      ensures predecessors == Put(old(predecessors), p.GetName(), p)
      ensures HasKey(old(predecessors), p.GetName()) ==> |predecessors| == |old(predecessors)|
    {
      predecessors := Put(predecessors, p.GetName(), p);
    }

    /** `add_successor`. */
    method AddSuccessor(s: BlockCFGNode)
      modifies this`successors
      ensures successors == Put(old(successors), s.GetName(), s)
      ensures HasSuccessor(s.GetName())
    {
      PutFacts(successors, s.GetName(), s);
      successors := Put(successors, s.GetName(), s);
    }

    /** `has_successor`: membership of a name among the successor keys. */
    predicate HasSuccessor(n: Name)
      reads this
    {
      HasKey(successors, n)
    }

    /**
     * `get_outputs(seen)`: the node's inputs (collected with the shared `seen`
     * set) plus its own definitions. The result is exactly the definitions of
     * this block and of every block whose name the call newly added to `seen`.
     */
    method GetOutputs(seen: set<Name>, ghost graph: set<BlockCFGNode>) returns (outputs: set<string>, seen': set<Name>)
      requires this in graph && Closed(graph) && NamesUnique(graph)
      ensures seen <= seen' <= seen + NamesOf(graph)
      ensures forall d :: d in Dests(block.instrs) ==> d in outputs
      ensures outputs == DefsNamed(graph, seen' - seen) + SetOf(Dests(block.instrs))
      decreases NamesOf(graph) - seen, 1
    {
      outputs, seen' := GetInputsFrom(seen, graph);
      var defs := Dests(block.instrs);
      var k := 0;
      while k < |defs|
        invariant k <= |defs|
        invariant outputs == DefsNamed(graph, seen' - seen) + SetOf(defs[..k])
      {
        assert defs[..k + 1] == defs[..k] + [defs[k]];
        SetOfAppend(defs[..k], defs[k]);
        outputs := outputs + {defs[k]};
        k := k + 1;
      }
      assert defs[..k] == defs;
    }

    /**
     * `_get_inputs(seen)`: for each predecessor whose name is not yet in
     * `seen`, add the name and collect that predecessor's outputs.
     */
    method GetInputsFrom(seen: set<Name>, ghost graph: set<BlockCFGNode>) returns (inputs: set<string>, seen': set<Name>)
      requires this in graph && Closed(graph) && NamesUnique(graph)
      ensures seen <= seen' <= seen + NamesOf(graph)
      ensures forall i :: 0 <= i < |predecessors| ==> predecessors[i].1.GetName() in seen'
      ensures predecessors == [] ==> inputs == {} && seen' == seen
      ensures inputs == DefsNamed(graph, seen' - seen)
      decreases NamesOf(graph) - seen, 0
    {
      inputs := {};
      seen' := seen;
      var preds := predecessors;
      var k := 0;
      while k < |preds|
        invariant k <= |preds|
        invariant seen <= seen' <= seen + NamesOf(graph)
        invariant NodeNames(preds[..k]) <= seen'
        invariant inputs == DefsNamed(graph, seen' - seen)
        invariant k == 0 ==> inputs == {} && seen' == seen
      {
        var p := preds[k].1;
        if p.GetName() !in seen' {
          assert p in graph;
          var before := seen';
          assert p.GetName() in NamesOf(graph);
          seen' := seen' + {p.GetName()};
          var out, after := p.GetOutputs(seen', graph);
          DefsNamedStep(graph, seen, before, p, after);
          seen' := after;
          inputs := inputs + out;
        }
        assert preds[..k + 1] == preds[..k] + [preds[k]];
        k := k + 1;
      }
      assert preds[..k] == preds;
    }

    /** `get_inputs()`: `_get_inputs` from an empty `seen`. */
    method GetInputs(ghost graph: set<BlockCFGNode>) returns (inputs: set<string>)
      requires this in graph && Closed(graph) && NamesUnique(graph)
      ensures predecessors == [] ==> inputs == {}
      ensures exists marked :: (marked <= NamesOf(graph) && inputs == DefsNamed(graph, marked)
        && forall i :: 0 <= i < |predecessors| ==> predecessors[i].1.GetName() in marked)
    {
      var seen';
      inputs, seen' := GetInputsFrom({}, graph);
      assert seen' - {} == seen';
    }
  }

  /** The set of elements of a sequence. */
  function SetOf(s: seq<string>): (r: set<string>)
    ensures forall x :: x in r <==> x in s
  {
    set x | x in s
  }

  lemma SetOfAppend(s: seq<string>, x: string)
    ensures SetOf(s + [x]) == SetOf(s) + {x}
  {
  }

  /** Names of the nodes in the values of a node map. */
  function NodeNames(ps: seq<(Name, BlockCFGNode)>): (r: set<Name>)
    ensures forall i :: 0 <= i < |ps| ==> ps[i].1.GetName() in r
  {
    if ps == [] then {} else NodeNames(ps[..|ps| - 1]) + {ps[|ps| - 1].1.GetName()}
  }

  /** Names of the nodes of a graph. */
  function NamesOf(graph: set<BlockCFGNode>): set<Name>
  {
    set n | n in graph :: n.GetName()
  }

  /** Every predecessor of a node of `graph` is in `graph`. */
  ghost predicate Closed(graph: set<BlockCFGNode>)
    reads graph
  {
    forall n, i :: n in graph && 0 <= i < |n.predecessors| ==> n.predecessors[i].1 in graph
  }

  /** No two nodes of `graph` share a name (the CFG keys its nodes by name). */
  ghost predicate NamesUnique(graph: set<BlockCFGNode>)
  {
    forall a, b :: a in graph && b in graph && a.GetName() == b.GetName() ==> a == b
  }

  /** The definitions of the blocks of `graph` whose names are in `names`. */
  ghost function DefsNamed(graph: set<BlockCFGNode>, names: set<Name>): set<string>
    reads set n | n in graph :: n.block
  {
    set n, d | n in graph && n.GetName() in names && d in Dests(n.block.instrs) :: d
  }

  lemma DefsNamedUnion(graph: set<BlockCFGNode>, a: set<Name>, b: set<Name>)
    ensures DefsNamed(graph, a + b) == DefsNamed(graph, a) + DefsNamed(graph, b)
  {
  }

  lemma DefsNamedSingle(graph: set<BlockCFGNode>, p: BlockCFGNode)
    requires p in graph && NamesUnique(graph)
    ensures DefsNamed(graph, {p.GetName()}) == SetOf(Dests(p.block.instrs))
  {
  }

  /** One step of `_get_inputs`: marking `p` and collecting its outputs. */
  lemma DefsNamedStep(graph: set<BlockCFGNode>, seen: set<Name>, before: set<Name>, p: BlockCFGNode, after: set<Name>)
    requires p in graph && NamesUnique(graph)
    requires seen <= before && p.GetName() !in before && before + {p.GetName()} <= after
    ensures DefsNamed(graph, after - seen)
         == DefsNamed(graph, before - seen)
            + (DefsNamed(graph, after - (before + {p.GetName()})) + SetOf(Dests(p.block.instrs)))
  {
    var mid := before + {p.GetName()};
    assert after - seen == (before - seen) + ({p.GetName()} + (after - mid));
    DefsNamedUnion(graph, before - seen, {p.GetName()} + (after - mid));
    DefsNamedUnion(graph, {p.GetName()}, after - mid);
    DefsNamedSingle(graph, p);
  }
}
