/**
 * lib/CFG.py: one node per distinct block name, and an edge X -> L for every
 * label L of every `jmp`/`br` in block X other than X's own name. Edges are
 * recorded on both ends: L becomes a successor of X and X a predecessor of L.
 */
module Cfg {
  import opened Wrappers
  import opened Bril
  import opened PyDict
  import opened Blocks
  import opened CfgNode

  /** A control-flow edge: the source block's name and the target label. */
  type Edge = (Name, string)

  /** The names of the blocks, in list order, duplicates kept. */
  function BlockNames(blocks: seq<Block>): (r: seq<Name>)
    ensures |r| == |blocks|
    ensures forall i :: 0 <= i < |blocks| ==> r[i] == blocks[i].name
  {
    seq(|blocks|, i requires 0 <= i < |blocks| => blocks[i].name)
  }

  /** The elements of `s`, each kept at its first occurrence. */
  function Dedup<T(==, !new)>(s: seq<T>): (r: seq<T>)
    ensures forall x :: x in r <==> x in s
    ensures forall i, j :: 0 <= i < j < |r| ==> r[i] != r[j]
  {
    if s == [] then []
    else
      var d := Dedup(s[..|s| - 1]);
      assert forall x :: x in s <==> x in s[..|s| - 1] || x == s[|s| - 1];
      if s[|s| - 1] in d then d else d + [s[|s| - 1]]
  }

  /** The edges one instruction list contributes from `src`; a jump without labels fails. */
  function InstrEdges(src: Name, instrs: seq<Instr>): (r: Result<seq<Edge>>)
    ensures r.Ok? <==> forall i :: 0 <= i < |instrs| && IsJump(instrs[i]) ==> instrs[i].labels.Some?
    ensures r.Err? ==> r.error == KeyError
    ensures r.Ok? ==> forall e :: e in r.value <==> (e.0 == src && Some(e.1) != src
      && exists i :: 0 <= i < |instrs| && IsJump(instrs[i]) && e.1 in instrs[i].labels.value)
  {
    if instrs == [] then Ok([])
    else
      var init := instrs[..|instrs| - 1];
      var x := instrs[|instrs| - 1];
      assert forall i :: 0 <= i < |init| ==> init[i] == instrs[i];
      match InstrEdges(src, init)
      case Err(e) => Err(e)
      case Ok(es) =>
        if !IsJump(x) then Ok(es)
        else if x.labels.None? then Err(KeyError)
        else Ok(es + LabelEdges(src, x.labels.value))
  }

  /** `(src, l)` for each label `l` that is not `src` itself. */
  function LabelEdges(src: Name, labels: seq<string>): (r: seq<Edge>)
    ensures forall e :: e in r <==> e.0 == src && e.1 in labels && Some(e.1) != src
  {
    if labels == [] then []
    else
      var l := labels[|labels| - 1];
      assert forall x :: x in labels <==> x in labels[..|labels| - 1] || x == l;
      LabelEdges(src, labels[..|labels| - 1]) + (if Some(l) != src then [(src, l)] else [])
  }

  /** Every `jmp`/`br` in the blocks has a `labels` list. */
  ghost predicate JumpsLabelled(blocks: seq<Block>)
    reads set b | b in blocks
  {
    forall j, i :: 0 <= j < |blocks| && 0 <= i < |blocks[j].instrs| && IsJump(blocks[j].instrs[i])
      ==> blocks[j].instrs[i].labels.Some?
  }

  /** `e` leads from a block to a label of one of its `jmp`/`br` instructions, and is not a self-loop. */
  ghost predicate IsEdgeOf(blocks: seq<Block>, e: Edge)
    reads set b | b in blocks
  {
    exists j :: 0 <= j < |blocks| && e.0 == blocks[j].name && Some(e.1) != e.0 && HasJumpTo(blocks[j].instrs, e.1)
  }

  /** Some `jmp`/`br` of `instrs` lists `l` among its labels. */
  predicate HasJumpTo(instrs: seq<Instr>, l: string)
  {
    exists i :: 0 <= i < |instrs| && IsJump(instrs[i]) && instrs[i].labels.Some? && l in instrs[i].labels.value
  }

  /** The edges of all blocks, in the order the nested loops visit them. */
  function EdgeList(blocks: seq<Block>): (r: Result<seq<Edge>>)
    reads set b | b in blocks
    ensures r.Err? ==> r.error == KeyError
  {
    if blocks == [] then Ok([])
    else
      var b := blocks[|blocks| - 1];
      match EdgeList(blocks[..|blocks| - 1])
      case Err(e) => Err(e)
      case Ok(es) =>
        match InstrEdges(b.name, b.instrs)
        case Err(e) => Err(e)
        case Ok(bs) => Ok(es + bs)
  }

  /** The edge list exists exactly when every jump has labels, and then holds exactly the edges. */
  lemma {:induction false} EdgeListSpec(blocks: seq<Block>)
    ensures EdgeList(blocks).Ok? <==> JumpsLabelled(blocks)
    ensures EdgeList(blocks).Ok? ==> forall e :: e in EdgeList(blocks).value <==> IsEdgeOf(blocks, e)
    decreases |blocks|
  {
    if blocks != [] {
      var init := blocks[..|blocks| - 1];
      var b := blocks[|blocks| - 1];
      assert forall j :: 0 <= j < |init| ==> init[j] == blocks[j];
      EdgeListSpec(init);
      if EdgeList(blocks).Ok? {
        forall e
          ensures e in EdgeList(blocks).value <==> IsEdgeOf(blocks, e)
        {
          if IsEdgeOf(blocks, e) && !IsEdgeOf(init, e) {
            var j :| 0 <= j < |blocks| && e.0 == blocks[j].name && Some(e.1) != e.0 && HasJumpTo(blocks[j].instrs, e.1);
            assert j == |blocks| - 1;
          }
        }
      }
    }
  }

  /** Targets of the edges leaving `src`, in edge order, each once. */
  function Targets(edges: seq<Edge>, src: Name): (r: seq<Name>)
    ensures forall t :: t in r <==> exists l :: t == Some(l) && (src, l) in edges
    ensures forall i, j :: 0 <= i < j < |r| ==> r[i] != r[j]
  {
    if edges == [] then []
    else
      var init := edges[..|edges| - 1];
      var e := edges[|edges| - 1];
      assert forall x :: x in edges <==> x in init || x == e;
      var t := Targets(init, src);
      if e.0 == src && Some(e.1) !in t then t + [Some(e.1)] else t
  }

  /** Sources of the edges entering `dst`, in edge order, each once. */
  function Sources(edges: seq<Edge>, dst: Name): (r: seq<Name>)
    ensures forall s :: s in r <==> exists l :: dst == Some(l) && (s, l) in edges
    ensures forall i, j :: 0 <= i < j < |r| ==> r[i] != r[j]
  {
    if edges == [] then []
    else
      var init := edges[..|edges| - 1];
      var e := edges[|edges| - 1];
      assert forall x :: x in edges <==> x in init || x == e;
      var s := Sources(init, dst);
      if Some(e.1) == dst && e.0 !in s then s + [e.0] else s
  }

  /** Edges are symmetric: `t` is a successor of `s` exactly when `s` is a predecessor of `t`. */
  lemma EdgesSymmetric(edges: seq<Edge>, s: Name, t: Name)
    ensures t in Targets(edges, s) <==> s in Sources(edges, t)
  {
  }

  /** The map `k -> nodes[k]` over the keys `ks`, in their order. */
  function Lookup(nodes: Dict<Name, BlockCFGNode>, ks: seq<Name>): (r: Dict<Name, BlockCFGNode>)
    requires forall k :: k in ks ==> HasKey(nodes, k)
    ensures |r| == |ks|
    ensures forall i :: 0 <= i < |ks| ==> r[i] == (ks[i], Get(nodes, ks[i]))
  {
    seq(|ks|, i requires 0 <= i < |ks| => (ks[i], Get(nodes, ks[i])))
  }

  /** Storing `nodes[t]` under `t` extends the looked-up map by `t` unless it is already there. */
  lemma PutLookup(nodes: Dict<Name, BlockCFGNode>, ks: seq<Name>, t: Name)
    requires forall k :: k in ks ==> HasKey(nodes, k)
    requires HasKey(nodes, t)
    requires forall i, j :: 0 <= i < j < |ks| ==> ks[i] != ks[j]
    ensures Put(Lookup(nodes, ks), t, Get(nodes, t)) == Lookup(nodes, if t in ks then ks else ks + [t])
  {
    var d := Lookup(nodes, ks);
    var r := Put(d, t, Get(nodes, t));
    HasKeyIndex(d, t);
    if t in ks {
      PutKeys(d, t, Get(nodes, t));
      PutEntries(d, t, Get(nodes, t));
      assert Keys(r) == Keys(d);
      forall i | 0 <= i < |d|
        ensures r[i] == d[i]
      {
        assert r[i].0 == Keys(r)[i] == d[i].0;
      }
    } else {
      var ks' := ks + [t];
      assert ks'[..|ks|] == ks;
    }
  }

  /** Index of the last occurrence of `n`. */
  function LastIndexOf(names: seq<Name>, n: Name): (j: nat)
    requires n in names
    ensures j < |names| && names[j] == n
    ensures forall j' :: j < j' < |names| ==> names[j'] != n
  {
    if names[|names| - 1] == n then |names| - 1 else LastIndexOf(names[..|names| - 1], n)
  }

  /**
   * `nodes` holds one node per distinct name of `blocks`, in first-occurrence
   * order; each node wraps the last block carrying its key as name.
   */
  ghost predicate NodesFor(blocks: seq<Block>, nodes: Dict<Name, BlockCFGNode>)
  {
    && Keys(nodes) == Dedup(BlockNames(blocks))
    && UniqueKeys(nodes)
    && NodeNamesMatch(nodes)
    && NodesWrapLast(blocks, nodes)
  }

  /** Each node is stored under its own name. */
  ghost predicate NodeNamesMatch(nodes: Dict<Name, BlockCFGNode>)
  {
    forall i :: 0 <= i < |nodes| ==> nodes[i].1.GetName() == nodes[i].0
  }

  /** Each node wraps the last block carrying its key as name. */
  ghost predicate NodesWrapLast(blocks: seq<Block>, nodes: Dict<Name, BlockCFGNode>)
  {
    forall i :: 0 <= i < |nodes| ==>
      nodes[i].0 in BlockNames(blocks) && nodes[i].1.block == blocks[LastIndexOf(BlockNames(blocks), nodes[i].0)]
  }

  lemma NodesForStep(blocks: seq<Block>, k: nat, nodes: Dict<Name, BlockCFGNode>, node: BlockCFGNode)
    requires k < |blocks| && NodesFor(blocks[..k], nodes) && node.block == blocks[k]
    ensures NodesFor(blocks[..k + 1], Put(nodes, blocks[k].name, node))
  {
    var n := blocks[k].name;
    assert blocks[..k + 1][..k] == blocks[..k];
    assert BlockNames(blocks[..k + 1]) == BlockNames(blocks[..k]) + [n];
    DedupKeysStep(nodes, BlockNames(blocks[..k]), n, node);
    PutUnique(nodes, n, node);
    NodeNamesStep(nodes, node);
    WrapLastStep(blocks, k, nodes, node);
  }

  lemma NodeNamesStep(nodes: Dict<Name, BlockCFGNode>, node: BlockCFGNode)
    requires UniqueKeys(nodes) && NodeNamesMatch(nodes)
    ensures NodeNamesMatch(Put(nodes, node.GetName(), node))
  {
    PutEntries(nodes, node.GetName(), node);
  }

  lemma WrapLastStep(blocks: seq<Block>, k: nat, nodes: Dict<Name, BlockCFGNode>, node: BlockCFGNode)
    requires k < |blocks| && UniqueKeys(nodes) && NodesWrapLast(blocks[..k], nodes) && node.block == blocks[k]
    ensures NodesWrapLast(blocks[..k + 1], Put(nodes, blocks[k].name, node))
  {
    var n := blocks[k].name;
    var names := BlockNames(blocks[..k]);
    assert blocks[..k + 1][..k] == blocks[..k];
    assert BlockNames(blocks[..k + 1]) == names + [n];
    var r := Put(nodes, n, node);
    PutEntries(nodes, n, node);
    forall i | 0 <= i < |r|
      ensures r[i].0 in names + [n] && r[i].1.block == blocks[..k + 1][LastIndexOf(names + [n], r[i].0)]
    {
      if r[i].0 != n {
        LastIndexOfAppend(names, n, r[i].0);
      }
    }
  }

  lemma DedupKeysStep(nodes: Dict<Name, BlockCFGNode>, names: seq<Name>, n: Name, node: BlockCFGNode)
    requires Keys(nodes) == Dedup(names)
    ensures Keys(Put(nodes, n, node)) == Dedup(names + [n])
  {
    assert (names + [n])[..|names|] == names;
    KeysHasKey(nodes, n);
    PutFacts(nodes, n, node);
  }

  lemma LastIndexOfAppend(names: seq<Name>, n: Name, m: Name)
    requires m in names && m != n
    ensures LastIndexOf(names + [n], m) == LastIndexOf(names, m)
  {
    assert (names + [n])[..|names|] == names;
  }

  class CFG {
    var nodes: Dict<Name, BlockCFGNode>

    constructor (ns: Dict<Name, BlockCFGNode>)
      ensures nodes == ns
    {
      nodes := ns;
    }

    /** The node loop of `CFG(block_list)`: a later block with the same name replaces the node in place. */
    static method MakeNodes(blocks: seq<Block>) returns (nodes: Dict<Name, BlockCFGNode>)
      ensures NodesFor(blocks, nodes)
      ensures forall i :: 0 <= i < |nodes| ==> fresh(nodes[i].1)
      ensures forall i :: 0 <= i < |nodes| ==> nodes[i].1.successors == [] && nodes[i].1.predecessors == []
    {
      nodes := [];
      ghost var created: set<BlockCFGNode> := {};
      var k := 0;
      while k < |blocks|
        invariant k <= |blocks|
        invariant NodesFor(blocks[..k], nodes)
        invariant forall i :: 0 <= i < |nodes| ==> nodes[i].1 in created
        invariant forall c :: c in created ==> fresh(c) && c.successors == [] && c.predecessors == []
      {
        var node := new BlockCFGNode(blocks[k]);
        var n := blocks[k].GetBlockName();
        PutValuesIn(nodes, n, node, created);
        created := created + {node};
        NodesForStep(blocks, k, nodes, node);
        nodes := Put(nodes, n, node);
        k := k + 1;
      }
      assert blocks[..k] == blocks;
    }

    /**
     * `CFG(block_list)`. Python raises `KeyError` for a `jmp`/`br` without
     * `labels` and for a label that names no block; both become `Err(KeyError)`.
     */
    static method Build(blocks: seq<Block>) returns (r: Result<CFG>)
      ensures r.Err? ==> r.error == KeyError
      ensures r.Ok? <==> EdgeList(blocks).Ok? && forall e :: e in EdgeList(blocks).value ==> Some(e.1) in BlockNames(blocks)
      ensures r.Ok? ==> fresh(r.value) && NodesFor(blocks, r.value.nodes)
      ensures r.Ok? ==> SuccessorsRecorded(r.value.nodes, EdgeList(blocks).value)
      ensures r.Ok? ==> PredecessorsRecorded(r.value.nodes, EdgeList(blocks).value)
    {
      var nodes := MakeNodes(blocks);
      var edgeList := EdgeList(blocks);
      if edgeList.Err? {
        return Err(KeyError);
      }
      var edges := edgeList.value;
      NodeKeysAreNames(blocks, nodes);
      EdgeSourcesAreNames(blocks);
      var cfg := new CFG(nodes);
      var ok := AddEdges(cfg.nodes, edges);
      if !ok {
        return Err(KeyError);
      }
      return Ok(cfg);
    }

    /**
     * The edge loop of `CFG(block_list)`: for each edge, the target node
     * becomes a successor of the source node and the source node a
     * predecessor of the target. A target naming no node is a `KeyError`.
     */
    static method AddEdges(nodes: Dict<Name, BlockCFGNode>, edges: seq<Edge>) returns (ok: bool)
      requires UniqueKeys(nodes) && NodeNamesMatch(nodes)
      requires forall e :: e in edges ==> HasKey(nodes, e.0)
      requires forall i :: 0 <= i < |nodes| ==> nodes[i].1.successors == [] && nodes[i].1.predecessors == []
      modifies set i | 0 <= i < |nodes| :: nodes[i].1
      ensures ok <==> forall e :: e in edges ==> HasKey(nodes, Some(e.1))
      ensures ok ==> SuccessorsRecorded(nodes, edges) && PredecessorsRecorded(nodes, edges)
    {
      var k := 0;
      while k < |edges|
        invariant k <= |edges|
        invariant SuccessorsRecorded(nodes, edges[..k]) && PredecessorsRecorded(nodes, edges[..k])
      {
        var e := edges[k];
        if !HasKey(nodes, Some(e.1)) {
          return false;
        }
        EdgesKnownStep(nodes, edges, k);
        RecordSuccessor(nodes, edges, k);
        RecordPredecessor(nodes, edges, k);
        k := k + 1;
      }
      assert edges[..k] == edges;
      return true;
    }

    /** `nodes[src].add_successor(nodes[label])` for edge `k`. */
    static method RecordSuccessor(nodes: Dict<Name, BlockCFGNode>, edges: seq<Edge>, k: nat)
      requires k < |edges| && UniqueKeys(nodes) && NodeNamesMatch(nodes)
      requires EdgesKnown(nodes, edges[..k + 1])
      requires SuccessorsRecorded(nodes, edges[..k])
      modifies set i | 0 <= i < |nodes| :: nodes[i].1
      ensures SuccessorsRecorded(nodes, edges[..k + 1])
      ensures forall i :: 0 <= i < |nodes| ==> nodes[i].1.predecessors == old(nodes[i].1.predecessors)
    {
      var e := edges[k];
      assert e in edges[..k + 1];
      var x := Get(nodes, e.0);
      var y := Get(nodes, Some(e.1));
      NodeAt(nodes, e.0);
      NodeAt(nodes, Some(e.1));
      x.AddSuccessor(y);
      forall i | 0 <= i < |nodes|
        ensures nodes[i].1.successors == Lookup(nodes, Targets(edges[..k + 1], nodes[i].0))
      {
        var src := nodes[i].0;
        TargetsStep(edges, k, src);
        if src == e.0 {
          PutLookup(nodes, Targets(edges[..k], src), Some(e.1));
        } else {
          assert nodes[i].1 != x;
        }
      }
    }

    /** `nodes[label].add_predecessor(nodes[src])` for edge `k`. */
    static method RecordPredecessor(nodes: Dict<Name, BlockCFGNode>, edges: seq<Edge>, k: nat)
      requires k < |edges| && UniqueKeys(nodes) && NodeNamesMatch(nodes)
      requires EdgesKnown(nodes, edges[..k + 1])
      requires PredecessorsRecorded(nodes, edges[..k])
      modifies set i | 0 <= i < |nodes| :: nodes[i].1
      ensures PredecessorsRecorded(nodes, edges[..k + 1])
      ensures forall i :: 0 <= i < |nodes| ==> nodes[i].1.successors == old(nodes[i].1.successors)
    {
      var e := edges[k];
      assert e in edges[..k + 1];
      var x := Get(nodes, e.0);
      var y := Get(nodes, Some(e.1));
      NodeAt(nodes, e.0);
      NodeAt(nodes, Some(e.1));
      y.AddPredecessor(x);
      forall i | 0 <= i < |nodes|
        ensures nodes[i].1.predecessors == Lookup(nodes, Sources(edges[..k + 1], nodes[i].0))
      {
        var dst := nodes[i].0;
        SourcesStep(edges, k, dst);
        if dst == Some(e.1) {
          PutLookup(nodes, Sources(edges[..k], dst), e.0);
        } else {
          assert nodes[i].1 != y;
        }
      }
    }
  }

  /** Both ends of every edge name a node. */
  ghost predicate EdgesKnown(nodes: Dict<Name, BlockCFGNode>, edges: seq<Edge>)
  {
    forall e :: e in edges ==> HasKey(nodes, e.0) && HasKey(nodes, Some(e.1))
  }

  /** One more edge with known endpoints keeps the prefix's edges known. */
  lemma EdgesKnownStep(nodes: Dict<Name, BlockCFGNode>, edges: seq<Edge>, k: nat)
    requires k < |edges| && EdgesKnown(nodes, edges[..k])
    requires HasKey(nodes, edges[k].0) && HasKey(nodes, Some(edges[k].1))
    ensures EdgesKnown(nodes, edges[..k + 1])
  {
    assert edges[..k + 1] == edges[..k] + [edges[k]];
  }

  /** Each node's successor map is the one the edge list induces. */
  ghost predicate SuccessorsRecorded(nodes: Dict<Name, BlockCFGNode>, edges: seq<Edge>)
    reads set i | 0 <= i < |nodes| :: nodes[i].1
  {
    EdgesKnown(nodes, edges) &&
    forall i :: 0 <= i < |nodes| ==> nodes[i].1.successors == Lookup(nodes, Targets(edges, nodes[i].0))
  }

  /** Each node's predecessor map is the one the edge list induces. */
  ghost predicate PredecessorsRecorded(nodes: Dict<Name, BlockCFGNode>, edges: seq<Edge>)
    reads set i | 0 <= i < |nodes| :: nodes[i].1
  {
    EdgesKnown(nodes, edges) &&
    forall i :: 0 <= i < |nodes| ==> nodes[i].1.predecessors == Lookup(nodes, Sources(edges, nodes[i].0))
  }

  lemma NodeKeysAreNames(blocks: seq<Block>, nodes: Dict<Name, BlockCFGNode>)
    requires Keys(nodes) == Dedup(BlockNames(blocks))
    ensures forall n :: HasKey(nodes, n) <==> n in BlockNames(blocks)
  {
    forall n
      ensures HasKey(nodes, n) <==> n in BlockNames(blocks)
    {
      KeysHasKey(nodes, n);
    }
  }

  lemma EdgeSourcesAreNames(blocks: seq<Block>)
    requires EdgeList(blocks).Ok?
    ensures forall e :: e in EdgeList(blocks).value ==> e.0 in BlockNames(blocks)
  {
    forall e | e in EdgeList(blocks).value
      ensures e.0 in BlockNames(blocks)
    {
      var j :| 0 <= j < |blocks| && e.0 == blocks[j].name;
      assert BlockNames(blocks)[j] == e.0;
    }
  }

  /** No node is its own successor: self-loop labels are skipped. */
  lemma NoSelfLoop(blocks: seq<Block>, src: Name)
    requires EdgeList(blocks).Ok?
    ensures src !in Targets(EdgeList(blocks).value, src)
  {
    EdgeListSpec(blocks);
  }

  /** Every label of a `jmp`/`br` in block X, other than X's name, is a successor of X. */
  lemma JumpLabelIsSuccessor(blocks: seq<Block>, j: nat, l: string)
    requires EdgeList(blocks).Ok?
    requires j < |blocks| && HasJumpTo(blocks[j].instrs, l) && Some(l) != blocks[j].name
    ensures Some(l) in Targets(EdgeList(blocks).value, blocks[j].name)
  {
    EdgeListSpec(blocks);
    assert IsEdgeOf(blocks, (blocks[j].name, l));
  }

  /** Conversely, successors come only from `jmp`/`br` labels: there are no fall-through edges. */
  lemma SuccessorIsJumpLabel(blocks: seq<Block>, src: Name, l: string)
    requires EdgeList(blocks).Ok?
    requires Some(l) in Targets(EdgeList(blocks).value, src)
    ensures exists j :: 0 <= j < |blocks| && blocks[j].name == src && HasJumpTo(blocks[j].instrs, l)
  {
    EdgeListSpec(blocks);
  }

  lemma TargetsStep(edges: seq<Edge>, k: nat, src: Name)
    requires k < |edges|
    ensures Targets(edges[..k + 1], src)
         == var t := Targets(edges[..k], src);
            if edges[k].0 == src && Some(edges[k].1) !in t then t + [Some(edges[k].1)] else t
  {
    assert edges[..k + 1][..k] == edges[..k];
  }

  lemma SourcesStep(edges: seq<Edge>, k: nat, dst: Name)
    requires k < |edges|
    ensures Sources(edges[..k + 1], dst)
         == var s := Sources(edges[..k], dst);
            if Some(edges[k].1) == dst && edges[k].0 !in s then s + [edges[k].0] else s
  {
    assert edges[..k + 1][..k] == edges[..k];
  }

  lemma NodeAt(nodes: Dict<Name, BlockCFGNode>, k: Name)
    requires NodeNamesMatch(nodes) && HasKey(nodes, k)
    ensures Get(nodes, k).GetName() == k
    ensures exists i :: 0 <= i < |nodes| && nodes[i].1 == Get(nodes, k)
  {
  }
}
