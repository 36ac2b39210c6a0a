/**
 * L3/src/util.py `split_in_blocks`: a block ends after every `br` or `jmp`;
 * labels play no part. The blocks are plain instruction lists.
 */
module SplitAtBranches {
  import opened Bril

  /** `blocks` cuts `instrs` right after each jump, and nowhere else. */
  ghost predicate IsBranchPartition(instrs: seq<Instr>, blocks: seq<seq<Instr>>)
  {
    && Flatten(blocks) == instrs
    && (forall i :: 0 <= i < |blocks| ==> blocks[i] != [])
    && (forall i :: 0 <= i < |blocks| - 1 ==> IsJump(blocks[i][|blocks[i]| - 1]))
    && (forall i, j :: 0 <= i < |blocks| && 0 <= j < |blocks[i]| - 1 ==> !IsJump(blocks[i][j]))
  }

  method SplitInBlocks(instrs: seq<Instr>) returns (blocks: seq<seq<Instr>>)
    ensures Flatten(blocks) == instrs
    ensures forall i :: 0 <= i < |blocks| ==> blocks[i] != []
    ensures forall i :: 0 <= i < |blocks| - 1 ==> IsJump(blocks[i][|blocks[i]| - 1])
    ensures forall i, j :: 0 <= i < |blocks| && 0 <= j < |blocks[i]| - 1 ==> !IsJump(blocks[i][j])
  {
    blocks := [];
    var current: seq<Instr> := [];
    var k := 0;
    while k < |instrs|
      invariant k <= |instrs|
      invariant Flatten(blocks) + current == instrs[..k]
      invariant Closed(blocks)
      invariant forall j :: 0 <= j < |current| ==> !IsJump(current[j])
    {
      var x := instrs[k];
      SplitStep(blocks, current, instrs, k);
      current := current + [x];
      if IsJump(x) {
        CloseBlock(blocks, current);
        blocks := blocks + [current];
        current := [];
      }
      k := k + 1;
    }
    assert instrs[..k] == instrs;
    Finish(blocks, current);
    if current != [] {
      blocks := blocks + [current];
    }
  }

  /** Every finished block is non-empty, ends with its only jump. */
  ghost predicate Closed(blocks: seq<seq<Instr>>)
  {
    && (forall i :: 0 <= i < |blocks| ==> blocks[i] != [] && IsJump(blocks[i][|blocks[i]| - 1]))
    && (forall i, j :: 0 <= i < |blocks| && 0 <= j < |blocks[i]| - 1 ==> !IsJump(blocks[i][j]))
  }

  /** Reading instruction `k` extends the current block, or closes it. */
  lemma SplitStep(blocks: seq<seq<Instr>>, current: seq<Instr>, instrs: seq<Instr>, k: nat)
    requires k < |instrs| && Flatten(blocks) + current == instrs[..k]
    ensures Flatten(blocks) + (current + [instrs[k]]) == instrs[..k + 1]
    ensures Flatten(blocks + [current + [instrs[k]]]) + [] == instrs[..k + 1]
  {
    assert instrs[..k + 1] == instrs[..k] + [instrs[k]];
    FlattenAppend(blocks, current + [instrs[k]]);
  }

  /** The trailing block, if any, completes a branch partition. */
  lemma Finish(blocks: seq<seq<Instr>>, current: seq<Instr>)
    requires Closed(blocks) && forall j :: 0 <= j < |current| ==> !IsJump(current[j])
    ensures var r := if current != [] then blocks + [current] else blocks;
            && Flatten(r) == Flatten(blocks) + current
            && IsBranchPartition(Flatten(r), r)
  {
    if current != [] {
      FlattenAppend(blocks, current);
    }
  }

  /** A block ending at its first jump can be closed. */
  lemma CloseBlock(blocks: seq<seq<Instr>>, current: seq<Instr>)
    requires Closed(blocks) && current != [] && IsJump(current[|current| - 1])
    requires forall j :: 0 <= j < |current| - 1 ==> !IsJump(current[j])
    ensures Closed(blocks + [current])
  {
  }

  lemma FlattenCons<T>(parts: seq<seq<T>>)
    requires parts != []
    ensures Flatten(parts) == parts[0] + Flatten(parts[1..])
  {
    FlattenConcat([parts[0]], parts[1..]);
    assert [parts[0]] + parts[1..] == parts;
    assert Flatten([parts[0]]) == Flatten([]) + parts[0];
  }

  /** Length of the first block: up to and including the first jump, or everything. */
  function FirstCut(s: seq<Instr>): (n: nat)
    ensures n <= |s| && (s != [] ==> n > 0)
  {
    if s == [] then 0 else if IsJump(s[0]) then 1 else 1 + FirstCut(s[1..])
  }

  lemma {:induction false} FirstCutIs(s: seq<Instr>, n: nat)
    requires 0 < n <= |s|
    requires forall j :: 0 <= j < n - 1 ==> !IsJump(s[j])
    requires IsJump(s[n - 1]) || n == |s|
    ensures FirstCut(s) == n
    decreases n
  {
    if n > 1 {
      assert !IsJump(s[0]);
      FirstCutIs(s[1..], n - 1);
    }
  }

  lemma {:induction false} FlattenNonEmptyLength<T>(parts: seq<seq<T>>)
    requires forall i :: 0 <= i < |parts| ==> parts[i] != []
    ensures |Flatten(parts)| >= |parts|
    decreases |parts|
  {
    if parts != [] {
      FlattenNonEmptyLength(parts[..|parts| - 1]);
    }
  }

  /** The first block of a partition ends at the first cut, and the rest partitions what follows. */
  lemma PartitionHead(instrs: seq<Instr>, a: seq<seq<Instr>>)
    requires IsBranchPartition(instrs, a) && instrs != []
    ensures a != [] && a[0] == instrs[..FirstCut(instrs)]
    ensures IsBranchPartition(instrs[FirstCut(instrs)..], a[1..])
  {
    FlattenCons(a);
    var n := |a[0]|;
    assert a[0] == instrs[..n];
    if |a| > 1 { assert IsJump(a[0][n - 1]); }
    FlattenNonEmptyLength(a);
    FirstCutIs(instrs, n);
  }

  /** The cut is determined by the instructions: any two such partitions are equal. */
  lemma {:induction false} BranchPartitionUnique(instrs: seq<Instr>, a: seq<seq<Instr>>, b: seq<seq<Instr>>)
    requires IsBranchPartition(instrs, a) && IsBranchPartition(instrs, b)
    ensures a == b
    decreases |instrs|
  {
    if instrs == [] {
      FlattenNonEmptyLength(a);
      FlattenNonEmptyLength(b);
    } else {
      PartitionHead(instrs, a);
      PartitionHead(instrs, b);
      BranchPartitionUnique(instrs[FirstCut(instrs)..], a[1..], b[1..]);
      assert a == [a[0]] + a[1..] && b == [b[0]] + b[1..];
    }
  }
}
