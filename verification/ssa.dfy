/**
 * L6/ssa.py, the `SSA` object: it places phis, then renames every
 * definition and use by walking the dominator tree from the first block,
 * keeping a stack of versioned names and a counter per variable, and
 * records for each successor's phis the version live at the end of each
 * block. The CFG's successor lists, its dominance frontiers and its
 * dominator tree are inputs.
 */
module Ssa {
  import opened Wrappers
  import opened Bril
  import opened Blocks
  import opened SsaNames
  import opened SsaPhi

  /** `Phi(source_block, var_name)`: one argument of a phi. */
  datatype Phi = Phi(sourceBlock: Name, varName: string)

  /** `phi_args[dst][phi]`, one key per (destination block, variable). */
  type PhiArgs = map<(Name, string), seq<Phi>>

  /** Lookup in the nested `defaultdict(list)`. */
  function ArgsAt(pa: PhiArgs, key: (Name, string)): seq<Phi>
  {
    if key in pa then pa[key] else []
  }

  /**
   * What a phi argument records for `phi`: the top of its stack when the
   * variable has one (`phi in self.stack`), the undefined sentinel when it
   * does not. A present but empty stack is an `IndexError`.
   */
  function PhiValue(stack: Stacks, phi: string): (r: Result<string>)
    ensures phi !in stack ==> r == Ok(Undefined)
    ensures phi in stack ==> r == Peek(stack, phi)
  {
    if phi in stack then Peek(stack, phi) else Ok(Undefined)
  }

  /** The phis of one successor, tagged with it. */
  function SuccessorSlots(phis: PhiMap, s: Name): (r: seq<(Name, string)>)
    ensures |r| == |PhiAt(phis, s)|
    ensures forall i :: 0 <= i < |r| ==> r[i] == (s, PhiAt(phis, s)[i])
  {
    seq(|PhiAt(phis, s)|, i requires 0 <= i < |PhiAt(phis, s)| => (s, PhiAt(phis, s)[i]))
  }

  /** `for s in successors: for phi in self.phi_nodes[s]`: the pairs visited, in order. */
  function Slots(phis: PhiMap, succs: seq<Name>): seq<(Name, string)>
  {
    if succs == [] then []
    else Slots(phis, succs[..|succs| - 1]) + SuccessorSlots(phis, succs[|succs| - 1])
  }

  /** Every phi of every successor is visited. */
  lemma {:induction false} SlotsMembers(phis: PhiMap, succs: seq<Name>, s: Name, phi: string)
    ensures (s, phi) in Slots(phis, succs) <==> s in succs && phi in PhiAt(phis, s)
    decreases |succs|
  {
    if succs != [] {
      var n := |succs| - 1;
      SlotsMembers(phis, succs[..n], s, phi);
      var last := SuccessorSlots(phis, succs[n]);
      assert succs == succs[..n] + [succs[n]];
      if (s, phi) in last {
        var i :| 0 <= i < |last| && last[i] == (s, phi);
      }
      if s == succs[n] && phi in PhiAt(phis, s) {
        var i :| 0 <= i < |PhiAt(phis, s)| && PhiAt(phis, s)[i] == phi;
        assert last[i] == (s, phi);
      }
    }
  }

  /** The successor loop of `__rename`: each visited (successor, phi) gets one more argument from `src`. */
  function Record(pa: PhiArgs, stack: Stacks, src: Name, slots: seq<(Name, string)>): Result<PhiArgs>
  {
    if slots == [] then Ok(pa)
    else
      var key := slots[|slots| - 1];
      match Record(pa, stack, src, slots[..|slots| - 1])
      case Err(e) => Err(e)
      case Ok(p) =>
        match PhiValue(stack, key.1)
        case Err(e) => Err(e)
        case Ok(value) => Ok(p[key := ArgsAt(p, key) + [Phi(src, value)]])
  }

  /** `n` copies of one phi argument. */
  function Repeat(p: Phi, n: nat): (r: seq<Phi>)
    ensures |r| == n && forall i :: 0 <= i < n ==> r[i] == p
  {
    seq(n, _ => p)
  }

  /**
   * The value a recorded argument carries: the top of the variable's stack,
   * or `"_undef_"` when the variable has no stack.
   */
  function ArgFor(stack: Stacks, phi: string): string
  {
    if phi in stack && stack[phi] != [] then stack[phi][0] else Undefined
  }

  /** Recording fails exactly when a visited phi's variable has a stack that is empty. */
  lemma {:induction false} RecordFails(pa: PhiArgs, stack: Stacks, src: Name, slots: seq<(Name, string)>)
    ensures Record(pa, stack, src, slots).Err? <==> exists i :: 0 <= i < |slots| && PhiValue(stack, slots[i].1).Err?
    decreases |slots|
  {
    if slots != [] {
      var n := |slots| - 1;
      var front := slots[..n];
      RecordFails(pa, stack, src, front);
      if exists i :: 0 <= i < |front| && PhiValue(stack, front[i].1).Err? {
        var i :| 0 <= i < |front| && PhiValue(stack, front[i].1).Err?;
        assert slots[i] == front[i];
      }
      if exists i :: 0 <= i < |slots| && PhiValue(stack, slots[i].1).Err? {
        var i :| 0 <= i < |slots| && PhiValue(stack, slots[i].1).Err?;
        if i < n {
          assert front[i] == slots[i];
        }
      }
    }
  }

  /** Recording one more visit, after the first `k` succeeded. */
  lemma RecordSnoc(pa: PhiArgs, stack: Stacks, src: Name, slots: seq<(Name, string)>, k: nat)
    requires k < |slots| && Record(pa, stack, src, slots[..k]).Ok?
    ensures var p := Record(pa, stack, src, slots[..k]).value;
            Record(pa, stack, src, slots[..k + 1]) ==
              match PhiValue(stack, slots[k].1)
              case Err(e) => Err(e)
              case Ok(value) => Ok(p[slots[k] := ArgsAt(p, slots[k]) + [Phi(src, value)]])
  {
    assert slots[..k + 1][..k] == slots[..k];
  }

  /** One more visit of `key` appends one argument to its list only. */
  lemma AppendStep(pa: PhiArgs, p: PhiArgs, stack: Stacks, src: Name, key: (Name, string), m: multiset<(Name, string)>)
    requires forall k :: ArgsAt(p, k) == ArgsAt(pa, k) + Repeat(Phi(src, ArgFor(stack, k.1)), m[k])
    ensures var r := p[key := ArgsAt(p, key) + [Phi(src, ArgFor(stack, key.1))]];
            forall k :: ArgsAt(r, k) == ArgsAt(pa, k) + Repeat(Phi(src, ArgFor(stack, k.1)), (m + multiset{key})[k])
  {
    var x := Phi(src, ArgFor(stack, key.1));
    var r := p[key := ArgsAt(p, key) + [x]];
    forall k
      ensures ArgsAt(r, k) == ArgsAt(pa, k) + Repeat(Phi(src, ArgFor(stack, k.1)), (m + multiset{key})[k])
    {
      if k == key {
        assert Repeat(x, m[k] + 1) == Repeat(x, m[k]) + [x];
      }
    }
  }

  /**
   * When recording succeeds, every (block, variable) list grows by one
   * argument `(src, value)` per visit and no other list changes.
   */
  lemma {:induction false} RecordAppends(pa: PhiArgs, stack: Stacks, src: Name, slots: seq<(Name, string)>)
    requires Record(pa, stack, src, slots).Ok?
    ensures forall key :: ArgsAt(Record(pa, stack, src, slots).value, key) ==
                          ArgsAt(pa, key) + Repeat(Phi(src, ArgFor(stack, key.1)), multiset(slots)[key])
    decreases |slots|
  {
    if slots != [] {
      var n := |slots| - 1;
      var front := slots[..n];
      var key := slots[n];
      assert slots == front + [key];
      RecordAppends(pa, stack, src, front);
      var p := Record(pa, stack, src, front).value;
      assert PhiValue(stack, key.1).value == ArgFor(stack, key.1);
      AppendStep(pa, p, stack, src, key, multiset(front));
    }
  }

  /** `self.cfg.get_nodes()[d].get_block()`: the node of a name wraps the last block with that name. */
  function LastNamed(blocks: seq<Block>, n: Name): (r: Option<nat>)
    reads blocks
    ensures r.Some? ==> r.value < |blocks| && blocks[r.value].name == n
    ensures r.Some? ==> forall j :: r.value < j < |blocks| ==> blocks[j].name != n
    ensures r.None? ==> forall j :: 0 <= j < |blocks| ==> blocks[j].name != n
  {
    if blocks == [] then None
    else if blocks[|blocks| - 1].name == n then Some(|blocks| - 1)
    else
      var r := LastNamed(blocks[..|blocks| - 1], n);
      assert forall j :: 0 <= j < |blocks| - 1 ==> blocks[..|blocks| - 1][j] == blocks[j];
      r
  }

  class Ssa {
    const blocks: seq<Block>
    /** The CFG successors of each block name (`get_successors`). */
    const succs: Graph
    /** `self.domtree`: the blocks each block immediately dominates. */
    const domtree: Graph
    /** `self.phi_nodes`, as `__init_phi_nodes` left it. */
    const phiNodes: PhiMap
    var stack: Stacks
    var counter: Counters
    var phiArgs: PhiArgs
    /** Every (variable, version) pair handed out so far. */
    ghost var issued: set<(string, nat)>

    /** Every version handed out is below its variable's counter, so the next one is new. */
    ghost predicate Valid()
      reads this
    {
      forall p :: p in issued ==> p.1 < Count(counter, p.0)
    }

    /**
     * The state `__init__` sets up before renaming: the parameters as their
     * own first versions, no counters and no phi arguments yet.
     */
    constructor (blocks: seq<Block>, args: seq<string>, succs: Graph, domtree: Graph, phiNodes: PhiMap)
      ensures this.blocks == blocks && this.succs == succs && this.domtree == domtree && this.phiNodes == phiNodes
      ensures stack == InitialStacks(args) && counter == map[] && phiArgs == map[]
      ensures issued == {} && Valid()
    {
      this.blocks := blocks;
      this.succs := succs;
      this.domtree := domtree;
      this.phiNodes := phiNodes;
      stack := InitialStacks(args);
      counter := map[];
      phiArgs := map[];
      issued := {};
    }

    /** `_stack_push(v)`: returns a version of `v` that was never handed out before. */
    method StackPush(v: string) returns (name: string)
      requires Valid()
      modifies this`stack, this`counter, this`issued
      ensures (stack, counter, name) == Push(old(stack), old(counter), v)
      ensures (v, old(Count(counter, v))) !in old(issued)
      ensures issued == old(issued) + {(v, old(Count(counter, v)))}
      ensures Valid()
    {
      var k := Count(counter, v);
      name := Version(v, k);
      stack := stack[v := [name] + StackOf(stack, v)];
      counter := counter[v := k + 1];
      issued := issued + {(v, k)};
    }

    /** `_stack_peek(v)`. */
    function StackPeek(v: string): (r: Result<string>)
      reads this
      ensures r == Peek(stack, v)
    {
      if v in stack && stack[v] != [] then Ok(stack[v][0]) else Err(IndexError)
    }

    /**
     * One instruction of `__rename`: `instr["args"]` becomes the tops of
     * their stacks, then `instr["dest"]` is pushed.
     */
    method RenameOne(ins: Instr) returns (r: Result<Instr>)
      requires Valid()
      modifies this`stack, this`counter, this`issued
      ensures var spec := RenameInstr(old(stack), old(counter), ins);
              spec.Ok? ==> r == Ok(spec.value.2) && (stack, counter) == (spec.value.0, spec.value.1)
      ensures RenameInstr(old(stack), old(counter), ins).Err? ==> r == Err(IndexError)
      ensures Valid() && old(issued) <= issued
      ensures forall v :: Count(old(counter), v) <= Count(counter, v)
    {
      var args := ins.args;
      if ins.args.Some? {
        var names := ins.args.value;
        var tops: seq<string> := [];
        var k := 0;
        while k < |names|
          invariant k <= |names| && |tops| == k
          invariant forall j :: 0 <= j < k ==> Peek(stack, names[j]) == Ok(tops[j])
        {
          var top := StackPeek(names[k]);
          if top.Err? {
            return Err(IndexError);
          }
          tops := tops + [top.value];
          k := k + 1;
        }
        assert tops == Tops(stack, names);
        args := Some(tops);
      }
      if ins.dest.Some? {
        var name := StackPush(ins.dest.value);
        return Ok(ins.(args := args, dest := Some(name)));
      }
      return Ok(ins.(args := args));
    }

    /** The instruction loop of `__rename` over one block, rewriting the block in place. */
    method RenameBlock(b: Block) returns (err: Option<Error>)
      requires Valid()
      modifies this`stack, this`counter, this`issued, b
      ensures var spec := RenameInstrs(old(stack), old(counter), old(b.instrs));
              && (spec.Ok? ==> err == None && (stack, counter, b.instrs) == spec.value)
              && (spec.Err? ==> err == Some(spec.error))
      ensures Valid() && old(issued) <= issued
      ensures forall v :: Count(old(counter), v) <= Count(counter, v)
    {
      var instrs := b.instrs;
      var out: seq<Instr> := [];
      var k := 0;
      while k < |instrs|
        invariant k <= |instrs|
        invariant RenameInstrs(old(stack), old(counter), instrs[..k]) == Ok((stack, counter, out))
        invariant Valid() && old(issued) <= issued
        invariant forall v :: Count(old(counter), v) <= Count(counter, v)
      {
        RenameInstrsSnoc(old(stack), old(counter), instrs[..k], instrs[k]);
        assert instrs[..k + 1] == instrs[..k] + [instrs[k]];
        var r := RenameOne(instrs[k]);
        if r.Err? {
          RenameInstrsFirstError(old(stack), old(counter), instrs, k + 1);
          return Some(r.error);
        }
        out := out + [r.value];
        k := k + 1;
      }
      assert instrs[..k] == instrs;
      b.instrs := out;
      return None;
    }

    /** `add_phi`: the argument is the top of the variable's stack; an empty stack raises. */
    method AddPhi(dst: Name, phi: string, src: Name) returns (err: Option<Error>)
      modifies this`phiArgs
      ensures Peek(stack, phi).Err? ==> err == Some(IndexError) && phiArgs == old(phiArgs)
      ensures Peek(stack, phi).Ok? ==>
                err == None &&
                phiArgs == old(phiArgs)[(dst, phi) := ArgsAt(old(phiArgs), (dst, phi)) + [Phi(src, Peek(stack, phi).value)]]
    {
      var top := StackPeek(phi);
      if top.Err? {
        return Some(IndexError);
      }
      phiArgs := phiArgs[(dst, phi) := ArgsAt(phiArgs, (dst, phi)) + [Phi(src, top.value)]];
      return None;
    }

    /** `add_undef_phi`: the argument is the undefined sentinel. */
    method AddUndefPhi(dst: Name, phi: string, src: Name)
      modifies this`phiArgs
      ensures phiArgs == old(phiArgs)[(dst, phi) := ArgsAt(old(phiArgs), (dst, phi)) + [Phi(src, Undefined)]]
    {
      phiArgs := phiArgs[(dst, phi) := ArgsAt(phiArgs, (dst, phi)) + [Phi(src, Undefined)]];
    }

    /** The successor loop of `__rename` for block `src`. */
    method RecordPhis(src: Name, successors: seq<Name>) returns (err: Option<Error>)
      modifies this`phiArgs
      ensures var spec := Record(old(phiArgs), stack, src, Slots(phiNodes, successors));
              && (spec.Ok? ==> err == None && phiArgs == spec.value)
              && (spec.Err? ==> err == Some(spec.error))
    {
      var slots := Slots(phiNodes, successors);
      var k := 0;
      while k < |slots|
        invariant k <= |slots|
        invariant Record(old(phiArgs), stack, src, slots[..k]) == Ok(phiArgs)
      {
        RecordSnoc(old(phiArgs), stack, src, slots, k);
        var (s, phi) := slots[k];
        if phi in stack {
          err := AddPhi(s, phi, src);
          if err.Some? {
            RecordFirstError(old(phiArgs), stack, src, slots, k + 1);
            return;
          }
        } else {
          AddUndefPhi(s, phi, src);
        }
        k := k + 1;
      }
      assert slots[..k] == slots;
      return None;
    }

    /**
     * `__rename(block)`: renames the block, records its successors' phi
     * arguments, renames the blocks it immediately dominates, and then
     * puts the stacks back as they were on entry. `depth` stands for the
     * interpreter's recursion limit.
     */
    method Rename(i: nat, depth: nat) returns (err: Option<Error>)
      requires Valid() && i < |blocks|
      modifies this`stack, this`counter, this`issued, this`phiArgs, blocks
      ensures Valid() && old(issued) <= issued
      ensures forall v :: Count(old(counter), v) <= Count(counter, v)
      ensures err == None ==> stack == old(stack)
      decreases depth
    {
      if depth == 0 {
        return Some(RecursionLimit);
      }
      var tmp := stack;
      var block := blocks[i];
      err := RenameBlock(block);
      if err.Some? {
        return;
      }
      var name := block.GetName();
      if name !in succs {
        return Some(KeyError);
      }
      err := RecordPhis(name, succs[name]);
      if err.Some? {
        return;
      }
      if name !in domtree {
        return Some(KeyError);
      }
      var dominated := domtree[name];
      var c := 0;
      while c < |dominated|
        invariant c <= |dominated|
        invariant Valid() && old(issued) <= issued
        invariant forall v :: Count(old(counter), v) <= Count(counter, v)
      {
        var j := LastNamed(blocks, dominated[c]);
        if j.None? {
          return Some(KeyError);
        }
        err := Rename(j.value, depth - 1);
        if err.Some? {
          return;
        }
        c := c + 1;
      }
      stack := tmp;
      return None;
    }
  }

  /** Once a prefix of the block fails, renaming the whole block fails with the same error. */
  lemma {:induction false} RenameInstrsFirstError(stack: Stacks, counter: Counters, instrs: seq<Instr>, n: nat)
    requires n <= |instrs| && RenameInstrs(stack, counter, instrs[..n]).Err?
    ensures RenameInstrs(stack, counter, instrs) == RenameInstrs(stack, counter, instrs[..n])
    decreases |instrs| - n
  {
    if n < |instrs| {
      var m := |instrs| - 1;
      assert instrs[..m][..n] == instrs[..n];
      RenameInstrsFirstError(stack, counter, instrs[..m], n);
    } else {
      assert instrs[..n] == instrs;
    }
  }

  /** Once a prefix of the visits fails, recording fails with the same error. */
  lemma {:induction false} RecordFirstError(pa: PhiArgs, stack: Stacks, src: Name, slots: seq<(Name, string)>, n: nat)
    requires n <= |slots| && Record(pa, stack, src, slots[..n]).Err?
    ensures Record(pa, stack, src, slots) == Record(pa, stack, src, slots[..n])
    decreases |slots| - n
  {
    if n < |slots| {
      var m := |slots| - 1;
      assert slots[..m][..n] == slots[..n];
      RecordFirstError(pa, stack, src, slots[..m], n);
    } else {
      assert slots[..n] == slots;
    }
  }

  /**
   * `SSA(blocks, args)`: definitions are mapped to blocks, phis are placed,
   * the stacks start from the parameters, and renaming starts at the first
   * block; with no blocks `self.blocks[0]` raises `IndexError`.
   */
  method Create(blocks: seq<Block>, args: seq<string>, succs: Graph, df: Graph, domtree: Graph, depth: nat)
    returns (r: Result<Ssa>)
    modifies blocks
    ensures r.Ok? ==> fresh(r.value) && r.value.blocks == blocks && r.value.Valid()
    ensures |blocks| == 0 ==> r.Err?
  {
    var defs := DefsToBlocks(blocks);
    var placed, _, _, _ := InitPhiNodes(df, defs);
    if placed.Err? {
      return Err(placed.error);
    }
    var ssa := new Ssa(blocks, args, succs, domtree, placed.value.0);
    if |blocks| == 0 {
      return Err(IndexError);
    }
    var err := ssa.Rename(0, depth);
    if err.Some? {
      return Err(err.value);
    }
    return Ok(ssa);
  }
}
