/**
 * lib/Block.py: a block wraps an instruction list and carries a name that is
 * taken from a leading label or, failing that, from the class-level counter
 * `Block.block_id` (here an explicit `Counter`).
 */
module Blocks {
  import opened Wrappers
  import opened Bril

  /** A block name; `None` for a block built from an empty list. */
  type Name = Option<string>

  /**
   * The naming loop of the constructor, from a current name on: while the name
   * is falsy, a label instruction supplies the name, any other instruction
   * supplies the decimal string of the counter and bumps it.
   */
  function NameFrom(name: Name, instrs: seq<Instr>, id: nat): (r: (Name, nat))
    ensures Truthy(name) ==> r == (name, id)
    ensures r.0 == None <==> name == None && instrs == []
    ensures !Truthy(name) && instrs != [] && Truthy(instrs[0].entryLabel) ==> r == (instrs[0].entryLabel, id)
    ensures !Truthy(name) && instrs != [] && !HasLabel(instrs[0]) ==> r == (Some(NatToString(id)), id + 1)
    ensures r.1 == id || (r.1 == id + 1 && r.0 == Some(NatToString(id)))
    decreases |instrs|
  {
    if instrs == [] then (name, id)
    else if Truthy(name) then NameFrom(name, instrs[1..], id)
    else if HasLabel(instrs[0]) then NameFrom(instrs[0].entryLabel, instrs[1..], id)
    else NameFrom(Some(NatToString(id)), instrs[1..], id + 1)
  }

  /** The name a new block gets, and the counter after it. */
  function Naming(instrs: seq<Instr>, id: nat): (Name, nat)
  {
    NameFrom(None, instrs, id)
  }

  /** The dest of each instruction that has one, in instruction order. */
  function Dests(s: seq<Instr>): (r: seq<string>)
    ensures |r| <= |s|
    ensures forall d :: d in r <==> exists i :: 0 <= i < |s| && s[i].dest == Some(d)
  {
    if s == [] then []
    else
      var last := s[|s| - 1];
      var r := Dests(s[..|s| - 1]) + (if last.dest.Some? then [last.dest.value] else []);
      assert forall i :: 0 <= i < |s| - 1 ==> s[..|s| - 1][i] == s[i];
      r
  }

  lemma {:induction false} DestsConcat(a: seq<Instr>, b: seq<Instr>)
    ensures Dests(a + b) == Dests(a) + Dests(b)
    decreases |b|
  {
    if b != [] {
      var b' := b[..|b| - 1];
      assert (a + b)[..|a + b| - 1] == a + b';
      assert b[..|b| - 1] == b';
      DestsConcat(a, b');
    } else {
      assert a + b == a;
    }
  }

  /** Every argument of every instruction, in order, duplicates kept. */
  function AllArgs(s: seq<Instr>): (r: seq<string>)
    ensures forall x :: x in r <==> exists i :: 0 <= i < |s| && x in ArgsOf(s[i])
  {
    if s == [] then []
    else
      var r := AllArgs(s[..|s| - 1]) + ArgsOf(s[|s| - 1]);
      assert forall i :: 0 <= i < |s| - 1 ==> s[..|s| - 1][i] == s[i];
      r
  }

  lemma {:induction false} AllArgsConcat(a: seq<Instr>, b: seq<Instr>)
    ensures AllArgs(a + b) == AllArgs(a) + AllArgs(b)
    decreases |b|
  {
    if b != [] {
      var b' := b[..|b| - 1];
      assert (a + b)[..|a + b| - 1] == a + b';
      assert b[..|b| - 1] == b';
      AllArgsConcat(a, b');
    } else {
      assert a + b == a;
    }
  }

  class Block {
    var instrs: seq<Instr>
    const name: Name

    /** `Block(instr_list)`: names the block and bumps `blockId` when no label names it. */
    constructor (instrList: seq<Instr>, blockId: Counter)
      modifies blockId
      ensures instrs == instrList
      ensures (name, blockId.value) == Naming(instrList, old(blockId.value))
    {
      var n: Name := None;
      var k := 0;
      while k < |instrList|
        invariant k <= |instrList|
        invariant NameFrom(n, instrList[k..], blockId.value) == Naming(instrList, old(blockId.value))
      {
        if !Truthy(n) {
          if HasLabel(instrList[k]) {
            n := instrList[k].entryLabel;
          } else {
            n := Some(NatToString(blockId.value));
            blockId.value := blockId.value + 1;
          }
        }
        k := k + 1;
      }
      instrs := instrList;
      name := n;
    }

    /** `get_definitions`: the dest of each dest-bearing instruction. */
    function GetDefinitions(): (defs: seq<string>)
      reads this
      ensures forall d :: d in defs <==> exists i :: 0 <= i < |instrs| && instrs[i].dest == Some(d)
    {
      Dests(instrs)
    }

    /** `get_uses`: every argument of every instruction. */
    function GetUses(): (uses: seq<string>)
      reads this
      ensures forall x :: x in uses <==> exists i :: 0 <= i < |instrs| && x in ArgsOf(instrs[i])
    {
      AllArgs(instrs)
    }

    function GetBlockName(): Name
    {
      name
    }

    /** `get_name` and `get_block_name` return the same field. */
    function GetName(): (r: Name)
      ensures r == GetBlockName()
    {
      name
    }

    /** `add_instr`: appends one instruction. */
    method AddInstr(i: Instr)
      modifies this`instrs
      ensures instrs == old(instrs) + [i]
      ensures GetDefinitions() == old(GetDefinitions()) + Dests([i])
      ensures GetUses() == old(GetUses()) + ArgsOf(i)
    {
      DestsConcat(instrs, [i]);
      AllArgsConcat(instrs, [i]);
      assert AllArgs([i]) == ArgsOf(i) by {
        assert [i][..0] == [];
      }
      instrs := instrs + [i];
    }
  }
}
