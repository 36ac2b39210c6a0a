/**
 * util/util.py `split_in_blocks`: a new block starts at every label
 * instruction; the trailing block is kept only when it is non-empty.
 */
module SplitAtLabels {
  import opened Wrappers
  import opened Bril
  import opened Blocks

  function CountLabels(s: seq<Instr>): nat
  {
    if s == [] then 0
    else CountLabels(s[..|s| - 1]) + (if HasLabel(s[|s| - 1]) then 1 else 0)
  }

  /**
   * The state of the splitting loop after it has consumed `s`: the blocks
   * appended so far and the partial block `current_block_instr`.
   */
  function Scan(s: seq<Instr>): (r: (seq<seq<Instr>>, seq<Instr>))
  {
    if s == [] then ([], [])
    else
      var (done, cur) := Scan(s[..|s| - 1]);
      var x := s[|s| - 1];
      if HasLabel(x) then (done + [cur], [x]) else (done, cur + [x])
  }

  /** The parts so far concatenate back to `s`, one closed part per label. */
  ghost predicate ScanCovers(s: seq<Instr>, done: seq<seq<Instr>>, cur: seq<Instr>)
  {
    && Flatten(done) + cur == s
    && |done| == CountLabels(s)
    && (s != [] ==> cur != [])
  }

  /** Labels sit only at the head of a part; every part but the first starts with one. */
  ghost predicate ScanLabels(s: seq<Instr>, done: seq<seq<Instr>>, cur: seq<Instr>)
  {
    && (forall j :: 0 < j < |cur| ==> !HasLabel(cur[j]))
    && (done == [] ==> forall j :: 0 <= j < |cur| ==> !HasLabel(cur[j]))
    && (done != [] ==> cur != [] && HasLabel(cur[0]))
    && (forall i, j :: 0 <= i < |done| && 0 < j < |done[i]| ==> !HasLabel(done[i][j]))
    && (forall i :: 0 < i < |done| ==> done[i] != [] && HasLabel(done[i][0]))
    && (done != [] && done[0] != [] ==> !HasLabel(done[0][0]))
    && (s != [] && HasLabel(s[0]) ==> done != [] && done[0] == [])
  }

  lemma {:induction false} ScanCoversInput(s: seq<Instr>)
    ensures ScanCovers(s, Scan(s).0, Scan(s).1)
  {
    if s != [] {
      var prev := s[..|s| - 1];
      var x := s[|s| - 1];
      ScanCoversInput(prev);
      var (done, cur) := Scan(prev);
      assert s == prev + [x];
      if HasLabel(x) {
        FlattenAppend(done, cur);
      } else {
        assert Flatten(done) + (cur + [x]) == (Flatten(done) + cur) + [x];
      }
    }
  }

  lemma {:induction false} ScanPlacesLabels(s: seq<Instr>)
    ensures ScanLabels(s, Scan(s).0, Scan(s).1)
  {
    if s != [] {
      var prev := s[..|s| - 1];
      var x := s[|s| - 1];
      ScanPlacesLabels(prev);
      var (done, cur) := Scan(prev);
      assert prev != [] ==> prev[0] == s[0];
      assert prev == [] ==> done == [] && cur == [];
      if HasLabel(x) {
        var d' := done + [cur];
        assert forall i :: 0 <= i < |done| ==> d'[i] == done[i];
        assert ScanLabels(s, d', [x]);
      } else {
        var c' := cur + [x];
        assert forall j :: 0 <= j < |cur| ==> c'[j] == cur[j];
        assert ScanLabels(s, done, c');
      }
    }
  }

  /** The blocks' instruction lists. */
  function LabelPartition(s: seq<Instr>): (parts: seq<seq<Instr>>)
    ensures Flatten(parts) == s
    ensures forall i, j :: 0 <= i < |parts| && 0 < j < |parts[i]| ==> !HasLabel(parts[i][j])
    ensures forall i :: 0 < i < |parts| ==> parts[i] != [] && HasLabel(parts[i][0])
    ensures parts != [] && parts[0] != [] ==> !HasLabel(parts[0][0])
    ensures |parts| == CountLabels(s) + (if s == [] then 0 else 1)
    ensures s != [] && HasLabel(s[0]) ==> parts[0] == []
    ensures parts != [] ==> parts[|parts| - 1] != []
  {
    ScanCoversInput(s);
    ScanPlacesLabels(s);
    var (done, cur) := Scan(s);
    if cur != [] then
      FlattenAppend(done, cur);
      done + [cur]
    else
      done
  }

  /** Names given to a list of new blocks in order, threading the counter. */
  function NamesOf(parts: seq<seq<Instr>>, id: nat): (r: (seq<Name>, nat))
    ensures |r.0| == |parts|
  {
    if parts == [] then ([], id)
    else
      var (names, id') := NamesOf(parts[..|parts| - 1], id);
      var (n, id'') := Naming(parts[|parts| - 1], id');
      (names + [n], id'')
  }

  lemma {:induction false} NamesOfFirst(parts: seq<seq<Instr>>, id: nat)
    requires parts != []
    ensures NamesOf(parts, id).0[0] == Naming(parts[0], id).0
    decreases |parts|
  {
    if |parts| > 1 {
      var prev := parts[..|parts| - 1];
      NamesOfFirst(prev, id);
      assert prev[0] == parts[0];
    }
  }

  /** A leading label yields an empty first block, and that block is unnamed. */
  lemma LeadingLabelGivesUnnamedBlock(s: seq<Instr>, id: nat)
    requires s != [] && HasLabel(s[0])
    ensures LabelPartition(s)[0] == []
    ensures NamesOf(LabelPartition(s), id).0[0] == None
  {
    NamesOfFirst(LabelPartition(s), id);
  }

  /** `split_in_blocks`: builds one `Block` per part, in order. */
  method SplitInBlocks(instrs: seq<Instr>, blockId: Counter) returns (blocks: seq<Block>)
    modifies blockId
    ensures |blocks| == |LabelPartition(instrs)|
    ensures forall i :: 0 <= i < |blocks| ==> fresh(blocks[i]) && blocks[i].instrs == LabelPartition(instrs)[i]
    ensures forall i :: 0 <= i < |blocks| ==> blocks[i].name == NamesOf(LabelPartition(instrs), old(blockId.value)).0[i]
    ensures blockId.value == NamesOf(LabelPartition(instrs), old(blockId.value)).1
  {
    blocks := [];
    ghost var parts: seq<seq<Instr>> := [];
    var current: seq<Instr> := [];
    var k := 0;
    while k < |instrs|
      invariant k <= |instrs|
      invariant Scan(instrs[..k]) == (parts, current)
      invariant |blocks| == |parts|
      invariant forall i :: 0 <= i < |blocks| ==> fresh(blocks[i]) && blocks[i].instrs == parts[i]
      invariant forall i :: 0 <= i < |blocks| ==> blocks[i].name == NamesOf(parts, old(blockId.value)).0[i]
      invariant blockId.value == NamesOf(parts, old(blockId.value)).1
    {
      var x := instrs[k];
      assert instrs[..k + 1][..k] == instrs[..k] && instrs[..k + 1][k] == x;
      assert Scan(instrs[..k + 1]) == if HasLabel(x) then (parts + [current], [x]) else (parts, current + [x]);
      if HasLabel(x) {
        var b := new Block(current, blockId);
        assert (parts + [current])[..|parts|] == parts;
        blocks, parts := blocks + [b], parts + [current];
        current := [];
        assert current + [x] == [x];
      }
      current := current + [x];
      k := k + 1;
    }
    assert instrs[..k] == instrs;
    if current != [] {
      var b := new Block(current, blockId);
      assert (parts + [current])[..|parts|] == parts;
      blocks, parts := blocks + [b], parts + [current];
    }
  }
}
