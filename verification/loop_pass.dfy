/**
 * lib/LoopPass.py: loop-invariant code motion over a function's block list.
 * The loops (`find_loops`, keyed by header name) are an input. The block-list
 * rewrite is stated as a pure function over the blocks' names and
 * instructions, which the imperative pass is proved to follow.
 */
module LoopPasses {
  import opened Wrappers
  import opened Bril
  import opened PyDict
  import opened Blocks
  import opened Loops

  /** An output block as the rewrite sees it: its name and instructions. */
  datatype OutBlock = OutBlock(name: Name, instrs: seq<Instr>)

  /**
   * The rewrite's state: the output so far, which output blocks are
   * preheaders, the header of the loop each preheader was built for, each
   * loop's invariant list, and the two counters. The preheaders in `out`
   * are as they were built; `Shared` gives them as they are now.
   */
  datatype RState = RState(out: seq<OutBlock>, pre: seq<bool>, owner: map<nat, Name>,
                           invs: map<Name, seq<Instr>>, prehead: nat, blockId: nat)

  /** The instructions without the `invariant` flag, in order. */
  function Strip(s: seq<Instr>): (r: seq<Instr>)
    ensures forall x :: x in r <==> x in s && !x.isInvariant
  {
    if s == [] then []
    else Strip(s[..|s| - 1]) + (if s[|s| - 1].isInvariant then [] else [s[|s| - 1]])
  }

  /** Whether `Block(instrs)` would wrap a jump whose first label may be retargeted: `"jmp" in op`. */
  predicate OpHasJmp(i: Instr)
  {
    i.op.Some? && Contains(i.op.value, "jmp")
  }

  /**
   * The jump check before a preheader: when the last instruction of the
   * previous output block has an op containing `"jmp"`, its first label
   * becomes the preheader's name. An empty previous block is an `IndexError`.
   */
  function Retarget(ob: OutBlock, l: string): (r: Result<OutBlock>)
    ensures r.Ok? ==> r.value.name == ob.name && |r.value.instrs| == |ob.instrs| > 0
    ensures r.Ok? ==> r.value.instrs[..|ob.instrs| - 1] == ob.instrs[..|ob.instrs| - 1]
  {
    if ob.instrs == [] then Err(IndexError)
    else
      var n := |ob.instrs| - 1;
      var last := ob.instrs[n];
      if !OpHasJmp(last) then Ok(ob)
      else if last.labels.None? then Err(KeyError)
      else if last.labels.value == [] then Err(IndexError)
      else Ok(ob.(instrs := ob.instrs[..n] + [last.(labels := Some(last.labels.value[0 := l]))]))
  }

  /** Whether a block named `name` heads a loop that has invariants. */
  predicate HeadsInvariants(invs: map<Name, seq<Instr>>, name: Name)
  {
    name in invs && invs[name] != []
  }

  /**
   * The jump check and `blocks.append(preheader_block)`: the last output
   * block is retargeted to `l` and the preheader `pb` follows it. With no
   * output block yet, `blocks[-1]` is an `IndexError`.
   */
  function Attach(out: seq<OutBlock>, l: string, pb: OutBlock): Result<seq<OutBlock>>
  {
    if out == [] then Err(IndexError)
    else
      var last := Retarget(out[|out| - 1], l);
      if last.Err? then Err(last.error)
      else Ok(out[..|out| - 1] + [last.value, pb])
  }

  /** `create_preheader_block()` and the jump check, for the loop headed by `name`. */
  function AddPreheader(st: RState, name: Name): Result<RState>
    requires HeadsInvariants(st.invs, name)
  {
    var l := PreheadName(st.prehead);
    var inv := [LabelInstr(l)] + st.invs[name];
    var out := Attach(st.out, l, OutBlock(Some(l), inv));
    if out.Err? then Err(out.error)
    else Ok(RState(out.value, st.pre + [true], st.owner[|st.out| := name], st.invs[name := inv], st.prehead + 1, st.blockId))
  }

  /** `AddPreheader` in terms of `Attach`. */
  lemma AddPreheaderShape(st: RState, name: Name)
    requires HeadsInvariants(st.invs, name)
    ensures var l := PreheadName(st.prehead);
            var inv := [LabelInstr(l)] + st.invs[name];
            var a := Attach(st.out, l, OutBlock(Some(l), inv));
            && (AddPreheader(st, name).Err? <==> a.Err?)
            && (a.Err? ==> AddPreheader(st, name).error == a.error)
            && (a.Ok? ==> AddPreheader(st, name).value ==
                            RState(a.value, st.pre + [true], st.owner[|st.out| := name], st.invs[name := inv], st.prehead + 1, st.blockId))
  {
  }

  /** The refined block `Block(refined_block)` appended to the output. */
  function Refinement(st: RState, instrs: seq<Instr>): RState
  {
    var refined := Strip(instrs);
    var (n, id) := Naming(refined, st.blockId);
    st.(out := st.out + [OutBlock(n, refined)], pre := st.pre + [false], blockId := id)
  }

  /** One iteration of the block loop of `execute_pass`. */
  function Emit(st: RState, name: Name, instrs: seq<Instr>): Result<RState>
  {
    var st1 := if HeadsInvariants(st.invs, name) then AddPreheader(st, name) else Ok(st);
    if st1.Err? then st1 else Ok(Refinement(st1.value, instrs))
  }

  /** The block loop of `execute_pass`, over the input blocks' names and instructions. */
  function RewriteFrom(st: RState, ins: seq<(Name, seq<Instr>)>): Result<RState>
  {
    if ins == [] then Ok(st)
    else
      var prev := RewriteFrom(st, ins[..|ins| - 1]);
      if prev.Err? then prev
      else Emit(prev.value, ins[|ins| - 1].0, ins[|ins| - 1].1)
  }

  // ---------------------------------------------------------------- properties of the rewrite

  /** Where preheaders go: one just before each block whose name heads a loop with invariants. */
  function Layout(invs: map<Name, seq<Instr>>, ins: seq<(Name, seq<Instr>)>): seq<bool>
  {
    if ins == [] then []
    else Layout(invs, ins[..|ins| - 1]) + (if HeadsInvariants(invs, ins[|ins| - 1].0) then [true, false] else [false])
  }

  /** The output blocks that are not preheaders, in order. */
  function Refined(out: seq<OutBlock>, pre: seq<bool>): seq<OutBlock>
    requires |out| == |pre|
  {
    if out == [] then []
    else Refined(out[..|out| - 1], pre[..|pre| - 1]) + (if pre[|pre| - 1] then [] else [out[|out| - 1]])
  }

  /** Equal except for the labels of the last instruction. */
  predicate SameButLastLabels(a: seq<Instr>, b: seq<Instr>)
  {
    |a| == |b| && (a == b || (a[..|a| - 1] == b[..|b| - 1] && a[|a| - 1].(labels := b[|b| - 1].labels) == b[|b| - 1]))
  }

  /** The state the block loop starts from: no output yet, and the loops' invariant lists after marking. */
  function Start(invs: map<Name, seq<Instr>>, prehead: nat, blockId: nat): RState
  {
    RState([], [], map[], invs, prehead, blockId)
  }

  /**
   * What the rewrite keeps after the blocks `ins`: the preheader layout, the
   * refined blocks in input order holding the unflagged instructions (up to a
   * retargeted last jump), no flagged instruction outside preheaders, and
   * each preheader well formed.
   */
  ghost predicate Kept(invs0: map<Name, seq<Instr>>, ins: seq<(Name, seq<Instr>)>, st: RState)
  {
    && Shaped(invs0, st, Layout(invs0, ins))
    && RefinedKept(ins, st)
    && (ins != [] ==> st.out != [] && !st.pre[|st.pre| - 1] && st.out[|st.out| - 1].instrs == Strip(ins[|ins| - 1].1))
    && NoFlagsOutside(st)
    && PreheadersWellFormed(st)
  }

  /** The preheader flags follow `layout`, and the loops with invariants are the same as at the start. */
  ghost predicate Shaped(invs0: map<Name, seq<Instr>>, st: RState, layout: seq<bool>)
  {
    && |st.out| == |st.pre|
    && st.invs.Keys == invs0.Keys
    && (forall k :: k in st.invs ==> (st.invs[k] != [] <==> invs0[k] != []))
    && st.pre == layout
  }

  /** The refined blocks are the input blocks, in order, without flagged instructions. */
  ghost predicate RefinedKept(ins: seq<(Name, seq<Instr>)>, st: RState)
  {
    && |st.out| == |st.pre|
    && |Refined(st.out, st.pre)| == |ins|
    && (forall k :: 0 <= k < |ins| ==> SameButLastLabels(Refined(st.out, st.pre)[k].instrs, Strip(ins[k].1)))
  }

  /** Flagged instructions occur only in preheaders. */
  ghost predicate NoFlagsOutside(st: RState)
  {
    |st.out| == |st.pre| &&
    forall i :: 0 <= i < |st.out| && !st.pre[i] ==> forall x :: x in st.out[i].instrs ==> !x.isInvariant
  }

  /** Every preheader is well formed. */
  ghost predicate PreheadersWellFormed(st: RState)
  {
    |st.out| == |st.pre| &&
    forall i :: 0 <= i < |st.out| && st.pre[i] ==> PreheaderAt(st.out, i)
  }

  /**
   * Output block `i` is a preheader: named `prehead{N}`, starting with that
   * label, and the block before it is non-empty and, if it ends in a jump,
   * its first label is that name.
   */
  ghost predicate PreheaderAt(out: seq<OutBlock>, i: nat)
    requires i < |out|
  {
    && 0 < i
    && (exists n: nat :: out[i].name == Some(PreheadName(n)))
    && out[i].instrs != [] && out[i].name == out[i].instrs[0].entryLabel
    && out[i - 1].instrs != []
    && (var last := out[i - 1].instrs[|out[i - 1].instrs| - 1];
        OpHasJmp(last) ==> last.labels.Some? && last.labels.value != [] && Some(last.labels.value[0]) == out[i].name)
  }

  /**
   * A successful rewrite places a preheader exactly before each block that
   * heads a loop with invariants, keeps the blocks in order with their
   * unflagged instructions, leaves flagged instructions only in preheaders,
   * and retargets the jump before each preheader.
   */
  lemma {:induction false} RewriteKept(invs: map<Name, seq<Instr>>, prehead: nat, blockId: nat, ins: seq<(Name, seq<Instr>)>)
    ensures RewriteFrom(Start(invs, prehead, blockId), ins).Ok? ==>
              Kept(invs, ins, RewriteFrom(Start(invs, prehead, blockId), ins).value)
  {
    var st0 := Start(invs, prehead, blockId);
    if ins != [] {
      var init := ins[..|ins| - 1];
      var b := ins[|ins| - 1];
      RewriteKept(invs, prehead, blockId, init);
      var prev := RewriteFrom(st0, init);
      if prev.Ok? && RewriteFrom(st0, ins).Ok? {
        RewriteStep(st0, ins);
        EmitKept(invs, init, prev.value, b);
        SplitLast(ins);
      }
    }
  }

  /** The block loop's last step, when the earlier blocks succeed. */
  lemma RewriteStep(st: RState, ins: seq<(Name, seq<Instr>)>)
    requires ins != [] && RewriteFrom(st, ins[..|ins| - 1]).Ok?
    ensures RewriteFrom(st, ins) == Emit(RewriteFrom(st, ins[..|ins| - 1]).value, ins[|ins| - 1].0, ins[|ins| - 1].1)
  {
  }

  lemma SplitLast<T>(s: seq<T>)
    requires s != []
    ensures s[..|s| - 1] + [s[|s| - 1]] == s
  {
  }

  /** One block keeps `Kept`. */
  lemma EmitKept(invs: map<Name, seq<Instr>>, ins: seq<(Name, seq<Instr>)>, st: RState, b: (Name, seq<Instr>))
    requires Kept(invs, ins, st) && Emit(st, b.0, b.1).Ok?
    ensures Kept(invs, ins + [b], Emit(st, b.0, b.1).value)
  {
    if HeadsInvariants(st.invs, b.0) {
      EmitKeptHeader(invs, ins, st, b);
    } else {
      EmitKeptPlain(invs, ins, st, b);
    }
  }

  /** A loop header: the preheader, then the refined block. */
  lemma EmitKeptHeader(invs: map<Name, seq<Instr>>, ins: seq<(Name, seq<Instr>)>, st: RState, b: (Name, seq<Instr>))
    requires Kept(invs, ins, st) && Emit(st, b.0, b.1).Ok? && HeadsInvariants(st.invs, b.0)
    ensures Kept(invs, ins + [b], Emit(st, b.0, b.1).value)
  {
    var st2 := Emit(st, b.0, b.1).value;
    EmitParts(st, b.0, b.1);
    LayoutStep(invs, ins, b);
    PreheaderStep(invs, ins, st, b.0);
    AppendKept(invs, ins, AddPreheader(st, b.0).value, Layout(invs, ins) + [true], b,
               OutBlock(st2.out[|st2.out| - 1].name, Strip(b.1)), st2);
  }

  /** Any other block: only the refined block. */
  lemma EmitKeptPlain(invs: map<Name, seq<Instr>>, ins: seq<(Name, seq<Instr>)>, st: RState, b: (Name, seq<Instr>))
    requires Kept(invs, ins, st) && Emit(st, b.0, b.1).Ok? && !HeadsInvariants(st.invs, b.0)
    ensures Kept(invs, ins + [b], Emit(st, b.0, b.1).value)
  {
    var st2 := Emit(st, b.0, b.1).value;
    EmitParts(st, b.0, b.1);
    LayoutStep(invs, ins, b);
    AppendKept(invs, ins, st, Layout(invs, ins), b, OutBlock(st2.out[|st2.out| - 1].name, Strip(b.1)), st2);
  }

  /** Appending the refined block completes `Kept`. */
  lemma AppendKept(invs: map<Name, seq<Instr>>, ins: seq<(Name, seq<Instr>)>, st1: RState, layout: seq<bool>,
                   b: (Name, seq<Instr>), ob: OutBlock, st2: RState)
    requires Shaped(invs, st1, layout) && layout + [false] == Layout(invs, ins + [b])
    requires RefinedKept(ins, st1) && NoFlagsOutside(st1) && PreheadersWellFormed(st1)
    requires ob.instrs == Strip(b.1)
    requires st2 == st1.(out := st1.out + [ob], pre := st1.pre + [false], blockId := st2.blockId)
    ensures Kept(invs, ins + [b], st2)
  {
    AppendShaped(invs, st1, layout, ob, st2.blockId);
    AppendRefined(ins, st1, b, ob, st2.blockId);
    AppendFlags(st1, ob, st2.blockId);
    AppendWellFormed(st1, ob, st2.blockId);
  }

  /** `Emit` appends one refined block after the optional preheader. */
  lemma EmitParts(st: RState, name: Name, instrs: seq<Instr>)
    requires Emit(st, name, instrs).Ok?
    ensures var st1 := if HeadsInvariants(st.invs, name) then AddPreheader(st, name).value else st;
            var st2 := Emit(st, name, instrs).value;
            st2.out != [] &&
            st2 == st1.(out := st1.out + [OutBlock(st2.out[|st2.out| - 1].name, Strip(instrs))], pre := st1.pre + [false], blockId := st2.blockId)
  {
  }

  /** The preheader keeps every part of `Kept` except the layout's trailing block. */
  lemma PreheaderStep(invs: map<Name, seq<Instr>>, ins: seq<(Name, seq<Instr>)>, st: RState, name: Name)
    requires Kept(invs, ins, st) && HeadsInvariants(st.invs, name) && AddPreheader(st, name).Ok?
    ensures var st1 := AddPreheader(st, name).value;
            && Shaped(invs, st1, Layout(invs, ins) + [true]) && RefinedKept(ins, st1)
            && NoFlagsOutside(st1) && PreheadersWellFormed(st1)
  {
    PreheaderShaped(invs, ins, st, name);
    PreheaderParts(st, name);
    var m := |st.out| - 1;
    var l := PreheadName(st.prehead);
    RetargetSame(st.out[m], l);
    PreheaderRefined(ins, st, AddPreheader(st, name).value, Retarget(st.out[m], l).value);
    PreheaderFlags(st, name);
    PreheaderWellFormed(st, name);
  }

  lemma LayoutStep(invs: map<Name, seq<Instr>>, ins: seq<(Name, seq<Instr>)>, b: (Name, seq<Instr>))
    ensures Layout(invs, ins + [b]) == Layout(invs, ins) + (if HeadsInvariants(invs, b.0) then [true, false] else [false])
  {
    assert (ins + [b])[..|ins|] == ins;
  }

  lemma AppendShaped(invs: map<Name, seq<Instr>>, st: RState, layout: seq<bool>, ob: OutBlock, id: nat)
    requires Shaped(invs, st, layout)
    ensures Shaped(invs, st.(out := st.out + [ob], pre := st.pre + [false], blockId := id), layout + [false])
  {
  }

  lemma AppendRefined(ins: seq<(Name, seq<Instr>)>, st: RState, b: (Name, seq<Instr>), ob: OutBlock, id: nat)
    requires RefinedKept(ins, st) && ob.instrs == Strip(b.1)
    ensures RefinedKept(ins + [b], st.(out := st.out + [ob], pre := st.pre + [false], blockId := id))
  {
    var r := Refined(st.out, st.pre);
    RefinedAppend(st.out, st.pre, ob, false);
    var r' := Refined(st.out + [ob], st.pre + [false]);
    assert r' == r + [ob];
    var ins' := ins + [b];
    forall k | 0 <= k < |ins'|
      ensures SameButLastLabels(r'[k].instrs, Strip(ins'[k].1))
    {
      if k < |ins| {
        assert r'[k] == r[k] && ins'[k] == ins[k];
      }
    }
  }

  lemma AppendFlags(st: RState, ob: OutBlock, id: nat)
    requires NoFlagsOutside(st) && forall x :: x in ob.instrs ==> !x.isInvariant
    ensures NoFlagsOutside(st.(out := st.out + [ob], pre := st.pre + [false], blockId := id))
  {
  }

  lemma AppendWellFormed(st: RState, ob: OutBlock, id: nat)
    requires PreheadersWellFormed(st)
    ensures PreheadersWellFormed(st.(out := st.out + [ob], pre := st.pre + [false], blockId := id))
  {
    var out' := st.out + [ob];
    forall i | 0 <= i < |out'| - 1 && st.pre[i]
      ensures PreheaderAt(out', i)
    {
      assert PreheaderAt(st.out, i);
      assert out'[i] == st.out[i] && out'[i - 1] == st.out[i - 1];
    }
  }

  /** What `AddPreheader` builds, in the terms the lemmas below use. */
  lemma PreheaderParts(st: RState, name: Name)
    requires HeadsInvariants(st.invs, name) && AddPreheader(st, name).Ok?
    ensures st.out != []
    ensures var m := |st.out| - 1;
            var l := PreheadName(st.prehead);
            var st1 := AddPreheader(st, name).value;
            && Retarget(st.out[m], l).Ok?
            && st1.out == st.out[..m] + [Retarget(st.out[m], l).value, OutBlock(Some(l), [LabelInstr(l)] + st.invs[name])]
            && st1.pre == st.pre + [true]
            && st1.owner == st.owner[|st.out| := name]
            && st1.invs == st.invs[name := [LabelInstr(l)] + st.invs[name]]
  {
  }

  lemma PreheaderShaped(invs: map<Name, seq<Instr>>, ins: seq<(Name, seq<Instr>)>, st: RState, name: Name)
    requires Shaped(invs, st, Layout(invs, ins)) && HeadsInvariants(st.invs, name) && AddPreheader(st, name).Ok?
    ensures Shaped(invs, AddPreheader(st, name).value, Layout(invs, ins) + [true])
  {
    PreheaderParts(st, name);
  }

  lemma PreheaderRefined(ins: seq<(Name, seq<Instr>)>, st: RState, st1: RState, x: OutBlock)
    requires RefinedKept(ins, st) && ins != [] && st.out != [] && !st.pre[|st.pre| - 1]
    requires st.out[|st.out| - 1].instrs == Strip(ins[|ins| - 1].1)
    requires SameButLastLabels(x.instrs, st.out[|st.out| - 1].instrs)
    requires |st1.out| == |st.out| + 1 && st1.out == st.out[..|st.out| - 1] + [x, st1.out[|st.out|]]
    requires st1.pre == st.pre + [true]
    ensures RefinedKept(ins, st1)
  {
    var m := |st.out| - 1;
    RefinedReplaceLast(st.out, st.pre, x, st1.out[m + 1]);
    ReplaceLastKept(ins, Refined(st.out, st.pre), x);
  }

  lemma ReplaceLastKept(ins: seq<(Name, seq<Instr>)>, r: seq<OutBlock>, x: OutBlock)
    requires |r| == |ins| && r != []
    requires forall k :: 0 <= k < |ins| ==> SameButLastLabels(r[k].instrs, Strip(ins[k].1))
    requires SameButLastLabels(x.instrs, Strip(ins[|ins| - 1].1))
    ensures forall k :: 0 <= k < |ins| ==> SameButLastLabels((r[..|r| - 1] + [x])[k].instrs, Strip(ins[k].1))
  {
    var y := r[..|r| - 1] + [x];
    forall k | 0 <= k < |ins|
      ensures SameButLastLabels(y[k].instrs, Strip(ins[k].1))
    {
      if k < |r| - 1 {
        assert y[k] == r[k];
      } else {
        assert y[k] == x;
      }
    }
  }

  /** Replacing the last (refined) output block and appending a preheader replaces the last refined block. */
  lemma RefinedReplaceLast(out: seq<OutBlock>, pre: seq<bool>, x: OutBlock, pb: OutBlock)
    requires |out| == |pre| && out != [] && !pre[|pre| - 1]
    ensures var m := |out| - 1;
            var r := Refined(out, pre);
            && r != [] && r[|r| - 1] == out[m]
            && Refined(out[..m] + [x, pb], pre + [true]) == r[..|r| - 1] + [x]
  {
    var m := |out| - 1;
    var y := out[..m] + [x];
    assert out[..m] + [x, pb] == y + [pb];
    RefinedAppend(y, pre, pb, true);
    assert y[..m] == out[..m];
    var r0 := Refined(out[..m], pre[..m]);
    assert Refined(out, pre) == r0 + [out[m]];
    assert Refined(y, pre) == r0 + [x];
    assert (r0 + [out[m]])[..|r0|] == r0;
  }

  /** Retargeting changes at most the labels of the last instruction. */
  lemma RetargetSame(ob: OutBlock, l: string)
    requires Retarget(ob, l).Ok?
    ensures SameButLastLabels(Retarget(ob, l).value.instrs, ob.instrs)
  {
  }

  lemma PreheaderFlags(st: RState, name: Name)
    requires NoFlagsOutside(st) && st.out != [] && !st.pre[|st.pre| - 1]
    requires HeadsInvariants(st.invs, name) && AddPreheader(st, name).Ok?
    ensures NoFlagsOutside(AddPreheader(st, name).value)
  {
    PreheaderParts(st, name);
    var st1 := AddPreheader(st, name).value;
    var m := |st.out| - 1;
    var ob := st.out[m];
    var last := Retarget(ob, PreheadName(st.prehead)).value;
    forall x | x in last.instrs
      ensures !x.isInvariant
    {
      var k :| 0 <= k < |last.instrs| && last.instrs[k] == x;
      RetargetFlags(ob, PreheadName(st.prehead), k);
    }
    forall i | 0 <= i < |st1.out| && !st1.pre[i]
      ensures forall x :: x in st1.out[i].instrs ==> !x.isInvariant
    {
      if i < m {
        assert st1.out[i] == st.out[i];
      }
    }
  }

  /** Retargeting keeps every instruction's flag. */
  lemma RetargetFlags(ob: OutBlock, l: string, k: nat)
    requires Retarget(ob, l).Ok? && k < |ob.instrs|
    ensures Retarget(ob, l).value.instrs[k].isInvariant == ob.instrs[k].isInvariant
  {
    var n := |ob.instrs| - 1;
    if k < n {
      assert Retarget(ob, l).value.instrs[k] == Retarget(ob, l).value.instrs[..n][k];
    }
  }

  lemma PreheaderWellFormed(st: RState, name: Name)
    requires PreheadersWellFormed(st) && st.out != [] && !st.pre[|st.pre| - 1]
    requires HeadsInvariants(st.invs, name) && AddPreheader(st, name).Ok?
    ensures PreheadersWellFormed(AddPreheader(st, name).value)
  {
    PreheaderParts(st, name);
    var st1 := AddPreheader(st, name).value;
    var m := |st.out| - 1;
    var l := PreheadName(st.prehead);
    forall i | 0 <= i < |st1.out| && st1.pre[i]
      ensures PreheaderAt(st1.out, i)
    {
      if i < m {
        assert PreheaderAt(st.out, i);
        assert st1.out[i] == st.out[i] && st1.out[i - 1] == st.out[i - 1];
      } else {
        assert i == m + 1;
        assert st1.out[i].name == Some(PreheadName(st.prehead));
        RetargetLast(st.out[m], l);
      }
    }
  }

  /** After retargeting, a last jump's first label is the new target. */
  lemma RetargetLast(ob: OutBlock, l: string)
    requires Retarget(ob, l).Ok?
    ensures var r := Retarget(ob, l).value.instrs;
            var last := r[|r| - 1];
            OpHasJmp(last) ==> last.labels.Some? && last.labels.value != [] && last.labels.value[0] == l
  {
  }

  lemma RefinedAppend(out: seq<OutBlock>, pre: seq<bool>, b: OutBlock, p: bool)
    requires |out| == |pre|
    ensures Refined(out + [b], pre + [p]) == Refined(out, pre) + (if p then [] else [b])
  {
    assert (out + [b])[..|out|] == out && (pre + [p])[..|pre|] == pre;
  }

  /** Once the block loop fails it stays failed. */
  lemma {:induction false} FailureSticks(st: RState, ins: seq<(Name, seq<Instr>)>, n: nat)
    requires n <= |ins| && RewriteFrom(st, ins[..n]).Err?
    ensures RewriteFrom(st, ins) == RewriteFrom(st, ins[..n])
  {
    if n < |ins| {
      assert ins[..|ins| - 1][..n] == ins[..n];
      FailureSticks(st, ins[..|ins| - 1], n);
    } else {
      assert ins[..n] == ins;
    }
  }

  /** A first block that heads a loop with invariants has no block before it: `blocks[-1]` fails. */
  lemma HeaderFirstFails(invs: map<Name, seq<Instr>>, prehead: nat, blockId: nat, ins: seq<(Name, seq<Instr>)>)
    requires ins != [] && HeadsInvariants(invs, ins[0].0)
    ensures RewriteFrom(Start(invs, prehead, blockId), ins) == Err(IndexError)
  {
    var st0 := Start(invs, prehead, blockId);
    assert ins[..1][..0] == [];
    FailureSticks(st0, ins, 1);
  }

  /** The only failures are the lookups the jump check makes. */
  lemma {:induction false} RewriteErrors(st: RState, ins: seq<(Name, seq<Instr>)>)
    ensures RewriteFrom(st, ins).Err? ==> RewriteFrom(st, ins).error in {IndexError, KeyError}
  {
    if ins != [] {
      RewriteErrors(st, ins[..|ins| - 1]);
    }
  }

  /** The block loop after `i + 1` blocks is one more `Emit`. */
  lemma RewriteAt(st0: RState, ins: seq<(Name, seq<Instr>)>, i: nat, st: RState)
    requires i < |ins| && RewriteFrom(st0, ins[..i]) == Ok(st)
    ensures RewriteFrom(st0, ins[..i + 1]) == Emit(st, ins[i].0, ins[i].1)
    ensures Emit(st, ins[i].0, ins[i].1).Err? ==> RewriteFrom(st0, ins) == Emit(st, ins[i].0, ins[i].1)
  {
    assert ins[..i + 1][..i] == ins[..i];
    if Emit(st, ins[i].0, ins[i].1).Err? {
      FailureSticks(st0, ins, i + 1);
    }
  }

  // ---------------------------------------------------------------- the shared instructions

  /**
   * `s` with its unflagged instructions replaced, from the end, by those of
   * `r`. `Block(refined_block)` holds the input block's own instruction
   * objects, so a change made through the refined block `r` shows in the
   * input block as `Reinsert(s, r)`.
   */
  function Reinsert(s: seq<Instr>, r: seq<Instr>): (t: seq<Instr>)
    ensures |t| == |s|
  {
    if s == [] then []
    else
      var n := |s| - 1;
      if s[n].isInvariant || r == [] then Reinsert(s[..n], r) + [s[n]]
      else Reinsert(s[..n], r[..|r| - 1]) + [r[|r| - 1]]
  }

  lemma StripAppend(s: seq<Instr>, x: Instr)
    ensures Strip(s + [x]) == Strip(s) + (if x.isInvariant then [] else [x])
  {
    TakeAppend(s, x);
  }

  /** Two sequences that agree at every index are equal. */
  lemma SameAt<T>(s: seq<T>, t: seq<T>)
    requires |s| == |t| && forall k :: 0 <= k < |s| ==> s[k] == t[k]
    ensures s == t
  {
  }

  lemma TakeAppend<T>(s: seq<T>, x: T)
    ensures (s + [x])[..|s|] == s
  {
  }

  lemma UnflaggedStrip(s: seq<Instr>)
    ensures forall k :: 0 <= k < |Strip(s)| ==> !Strip(s)[k].isInvariant
  {
    forall k | 0 <= k < |Strip(s)|
      ensures !Strip(s)[k].isInvariant
    {
      assert Strip(s)[k] in Strip(s);
    }
  }

  /** Putting back a block's own unflagged instructions gives the block. */
  lemma {:induction false} ReinsertStrip(s: seq<Instr>)
    ensures Reinsert(s, Strip(s)) == s
  {
    if s != [] {
      var n := |s| - 1;
      UnflaggedStrip(s);
      var r0, y := ReinsertLast(s, Strip(s));
      StripAppend(s[..n], s[n]);
      if !s[n].isInvariant {
        TakeAppend(Strip(s[..n]), s[n]);
      }
      assert r0 == Strip(s[..n]) && y == s[n];
      ReinsertStrip(s[..n]);
      SplitLast(s);
    }
  }

  /**
   * Unflagged instructions put in place of as many unflagged instructions
   * are the block's unflagged instructions afterwards.
   */
  lemma {:induction false} StripReinsert(s: seq<Instr>, r: seq<Instr>)
    requires |r| == |Strip(s)| && forall k :: 0 <= k < |r| ==> !r[k].isInvariant
    ensures Strip(Reinsert(s, r)) == r
  {
    if s != [] {
      var n := |s| - 1;
      var r0, y := ReinsertLast(s, r);
      StripReinsert(s[..n], r0);
      StripAppend(Reinsert(s[..n], r0), y);
    }
  }

  /** The last step of `Reinsert`: the instructions it puts back before the last one, and the last one. */
  lemma ReinsertLast(s: seq<Instr>, r: seq<Instr>) returns (r0: seq<Instr>, y: Instr)
    requires s != [] && |r| == |Strip(s)| && forall k :: 0 <= k < |r| ==> !r[k].isInvariant
    ensures |r0| == |Strip(s[..|s| - 1])| && forall k :: 0 <= k < |r0| ==> !r0[k].isInvariant
    ensures Reinsert(s, r) == Reinsert(s[..|s| - 1], r0) + [y]
    ensures y.isInvariant == s[|s| - 1].isInvariant
    ensures r == r0 + (if y.isInvariant then [] else [y])
    ensures if y.isInvariant then r0 == r && y == s[|s| - 1] else r0 == r[..|r| - 1] && y == r[|r| - 1]
  {
    var n := |s| - 1;
    StripAppend(s[..n], s[n]);
    SplitLast(s);
    if s[n].isInvariant {
      r0, y := r, s[n];
    } else {
      r0, y := r[..|r| - 1], r[|r| - 1];
      SplitLast(r);
    }
  }

  /** Every flagged instruction stays where it was. */
  lemma {:induction false} ReinsertFlagged(s: seq<Instr>, r: seq<Instr>, p: nat)
    requires p < |s| && s[p].isInvariant
    ensures Reinsert(s, r)[p] == s[p]
  {
    var n := |s| - 1;
    if p < n {
      var r0 := if s[n].isInvariant || r == [] then r else r[..|r| - 1];
      ReinsertFlagged(s[..n], r0, p);
      assert Reinsert(s, r)[p] == Reinsert(s[..n], r0)[p];
    }
  }

  /**
   * The input blocks as the refined blocks `refs` left them: the first
   * `|refs|` input blocks share their unflagged instructions with them.
   */
  function Synced(ins: seq<(Name, seq<Instr>)>, refs: seq<OutBlock>): (r: seq<(Name, seq<Instr>)>)
    ensures |r| == |ins|
  {
    seq(|ins|, k requires 0 <= k < |ins| =>
      if k < |refs| then (ins[k].0, Reinsert(ins[k].1, refs[k].instrs)) else ins[k])
  }

  /**
   * The same blocks, by name, where at most the labels of each block's last
   * unflagged instruction changed, and every flagged instruction is where it
   * was.
   */
  ghost predicate Retargeted(before: seq<(Name, seq<Instr>)>, after: seq<(Name, seq<Instr>)>)
  {
    && |after| == |before|
    && forall k :: 0 <= k < |before| ==>
         && after[k].0 == before[k].0 && |after[k].1| == |before[k].1|
         && SameButLastLabels(Strip(after[k].1), Strip(before[k].1))
         && (forall p :: 0 <= p < |before[k].1| && before[k].1[p].isInvariant ==> after[k].1[p] == before[k].1[p])
  }

  /**
   * After the first `i` blocks of a successful block loop, each of them
   * holds the unflagged instructions of its refined block: only a jump
   * retargeted before a preheader changed, in the input block as in the
   * output.
   */
  lemma RewriteSynced(invs: map<Name, seq<Instr>>, prehead: nat, blockId: nat, ins: seq<(Name, seq<Instr>)>, i: nat, st: RState)
    requires i <= |ins| && RewriteFrom(Start(invs, prehead, blockId), ins[..i]) == Ok(st)
    ensures |st.out| == |st.pre| && |Refined(st.out, st.pre)| == i
    ensures var after := Synced(ins, Refined(st.out, st.pre));
            && Retargeted(ins, after)
            && forall k :: 0 <= k < i ==> Strip(after[k].1) == Refined(st.out, st.pre)[k].instrs
  {
    RewriteKept(invs, prehead, blockId, ins[..i]);
    SyncedKept(ins, i, st);
  }

  lemma SyncedKept(ins: seq<(Name, seq<Instr>)>, i: nat, st: RState)
    requires i <= |ins| && RefinedKept(ins[..i], st) && NoFlagsOutside(st)
    ensures var after := Synced(ins, Refined(st.out, st.pre));
            && Retargeted(ins, after)
            && forall k :: 0 <= k < i ==> Strip(after[k].1) == Refined(st.out, st.pre)[k].instrs
  {
    var refs := Refined(st.out, st.pre);
    var after := Synced(ins, refs);
    forall k | 0 <= k < |ins|
      ensures && after[k].0 == ins[k].0 && |after[k].1| == |ins[k].1|
              && (k < i ==> Strip(after[k].1) == refs[k].instrs)
              && SameButLastLabels(Strip(after[k].1), Strip(ins[k].1))
              && (forall p :: 0 <= p < |ins[k].1| && ins[k].1[p].isInvariant ==> after[k].1[p] == ins[k].1[p])
    {
      if k < i {
        assert ins[..i][k] == ins[k];
        RefinedUnflagged(st, k);
        StripReinsert(ins[k].1, refs[k].instrs);
        forall p | 0 <= p < |ins[k].1| && ins[k].1[p].isInvariant
          ensures after[k].1[p] == ins[k].1[p]
        {
          ReinsertFlagged(ins[k].1, refs[k].instrs, p);
        }
      }
    }
  }

  /**
   * One more block: the refined block of input block `i - 1` may have had
   * its jump retargeted, and input block `i - 1`, which shares those
   * instructions, is the only input block that changes.
   */
  lemma SyncedStep(invs: map<Name, seq<Instr>>, prehead: nat, blockId: nat, ins: seq<(Name, seq<Instr>)>, i: nat, st: RState, st2: RState)
    requires i < |ins| && RewriteFrom(Start(invs, prehead, blockId), ins[..i]) == Ok(st)
    requires Emit(st, ins[i].0, ins[i].1) == Ok(st2)
    ensures |st.out| == |st.pre| && |st.out| < |st2.out| == |st2.pre|
    ensures 0 < i ==> st.out != [] && !st2.pre[|st.out| - 1]
    ensures var s := Synced(ins, Refined(st.out, st.pre));
            var s2 := Synced(ins, Refined(st2.out, st2.pre));
            && (0 < i ==> s[i - 1] == ins[i - 1])
            && s2 == if i == 0 then s else s[i - 1 := (ins[i - 1].0, Reinsert(ins[i - 1].1, st2.out[|st.out| - 1].instrs))]
  {
    RewriteKept(invs, prehead, blockId, ins[..i]);
    assert 0 < i ==> ins[..i][i - 1] == ins[i - 1];
    EmitRefined(st, ins[i].0, ins[i].1);
    var r := Refined(st.out, st.pre);
    var r2 := Refined(st2.out, st2.pre);
    var s := Synced(ins, r);
    var s2 := Synced(ins, r2);
    ReinsertStrip(ins[i].1);
    if 0 < i {
      ReinsertStrip(ins[i - 1].1);
      assert s[i - 1] == ins[i - 1];
    }
    var x := if 0 < i then st2.out[|st.out| - 1] else st2.out[|st2.out| - 1];
    SyncedReplace(ins, r, x, st2.out[|st2.out| - 1]);
  }

  lemma SyncedReplace(ins: seq<(Name, seq<Instr>)>, r: seq<OutBlock>, x: OutBlock, last: OutBlock)
    requires |r| < |ins| && Reinsert(ins[|r|].1, last.instrs) == ins[|r|].1
    ensures var r2 := (if r == [] then r else r[..|r| - 1] + [x]) + [last];
            Synced(ins, r2) ==
              if r == [] then Synced(ins, r) else Synced(ins, r)[|r| - 1 := (ins[|r| - 1].0, Reinsert(ins[|r| - 1].1, x.instrs))]
  {
    var i := |r|;
    var r2 := (if r == [] then r else r[..i - 1] + [x]) + [last];
    var s, s2 := Synced(ins, r), Synced(ins, r2);
    var t := if r == [] then s else s[i - 1 := (ins[i - 1].0, Reinsert(ins[i - 1].1, x.instrs))];
    forall k | 0 <= k < |ins|
      ensures s2[k] == t[k]
    {
      if k + 1 < i {
        assert r2[k] == r[k];
      } else if k + 1 == i {
        assert r2[k] == x;
      } else if k == i {
        assert r2[k] == last;
      }
    }
  }

  /** Refined blocks hold no flagged instruction. */
  lemma RefinedUnflagged(st: RState, k: nat)
    requires NoFlagsOutside(st) && k < |Refined(st.out, st.pre)|
    ensures forall p :: 0 <= p < |Refined(st.out, st.pre)[k].instrs| ==> !Refined(st.out, st.pre)[k].instrs[p].isInvariant
  {
    RefinedFrom(st.out, st.pre, k);
    var r := Refined(st.out, st.pre)[k].instrs;
    forall p | 0 <= p < |r|
      ensures !r[p].isInvariant
    {
      assert r[p] in r;
    }
  }

  /** Each refined block is a non-preheader output block. */
  lemma {:induction false} RefinedFrom(out: seq<OutBlock>, pre: seq<bool>, k: nat)
    requires |out| == |pre| && k < |Refined(out, pre)|
    ensures exists i :: 0 <= i < |out| && !pre[i] && Refined(out, pre)[k] == out[i]
  {
    var m := |out| - 1;
    var r0 := Refined(out[..m], pre[..m]);
    if k < |r0| {
      RefinedFrom(out[..m], pre[..m], k);
      var i :| 0 <= i < m && !pre[..m][i] && r0[k] == out[..m][i];
      assert Refined(out, pre)[k] == r0[k];
    } else {
      assert !pre[m] && Refined(out, pre)[k] == out[m];
    }
  }

  /**
   * One more block: the refined blocks so far, the last of them as the
   * optional preheader's jump check left it, then the new refined block.
   */
  lemma EmitRefined(st: RState, name: Name, instrs: seq<Instr>)
    requires |st.out| == |st.pre| && (st.out != [] ==> !st.pre[|st.pre| - 1]) && Emit(st, name, instrs).Ok?
    ensures var st2 := Emit(st, name, instrs).value;
            var r := Refined(st.out, st.pre);
            && |st2.out| == |st2.pre| && |st.out| < |st2.out| && !st2.pre[|st2.pre| - 1]
            && st2.out[|st2.out| - 1].instrs == Strip(instrs)
            && (st.out != [] ==> r != [] && !st2.pre[|st.out| - 1] && r[|r| - 1] == st.out[|st.out| - 1])
            && Refined(st2.out, st2.pre) ==
                 (if st.out == [] then r else r[..|r| - 1] + [st2.out[|st.out| - 1]]) + [st2.out[|st2.out| - 1]]
  {
    var st2 := Emit(st, name, instrs).value;
    var r := Refined(st.out, st.pre);
    EmitParts(st, name, instrs);
    var ob := st2.out[|st2.out| - 1];
    if HeadsInvariants(st.invs, name) {
      PreheaderParts(st, name);
      var st1 := AddPreheader(st, name).value;
      var m := |st.out| - 1;
      var x := st1.out[m];
      RefinedReplaceLast(st.out, st.pre, x, st1.out[m + 1]);
      assert st1.out == st.out[..m] + [x, st1.out[m + 1]];
      RefinedAppend(st1.out, st1.pre, ob, false);
      assert st2.out[m] == x;
    } else {
      RefinedAppend(st.out, st.pre, ob, false);
      if st.out != [] {
        var m := |st.out| - 1;
        RefinedReplaceLast(st.out, st.pre, st.out[m], st.out[m]);
        assert r == r[..|r| - 1] + [r[|r| - 1]];
        assert st2.out[m] == st.out[m];
      }
    }
  }

  // ---------------------------------------------------------------- the shared preheader lists

  /**
   * The output as the blocks hold it. `Block(invariants)` keeps the loop's
   * own list, so a preheader shows its loop's current list, with the labels
   * that later preheaders of the same loop inserted; the other blocks are as
   * emitted.
   */
  function Shared(st: RState): (r: seq<OutBlock>)
    ensures |r| == |st.out|
  {
    seq(|st.out|, k requires 0 <= k < |st.out| =>
      if k in st.owner && st.owner[k] in st.invs then st.out[k].(instrs := st.invs[st.owner[k]]) else st.out[k])
  }

  /** `a` ends `b`. */
  predicate IsSuffix(a: seq<Instr>, b: seq<Instr>)
  {
    |a| <= |b| && b[|b| - |a|..] == a
  }

  /** No preheader after position `k` was built for the same loop. */
  ghost predicate Latest(st: RState, k: nat)
    requires k in st.owner
  {
    forall k' :: k' in st.owner && k < k' ==> st.owner[k'] != st.owner[k]
  }

  /**
   * The preheaders are the flagged positions, each built for a loop that
   * has a list; each one, as built, ends its loop's current list, and the
   * loop's latest preheader holds the whole list.
   */
  ghost predicate Owned(st: RState)
  {
    && |st.out| == |st.pre|
    && (forall k :: k in st.owner <==> 0 <= k < |st.pre| && st.pre[k])
    && (forall k :: k in st.owner ==> st.owner[k] in st.invs && IsSuffix(st.out[k].instrs, st.invs[st.owner[k]]))
    && (forall k :: k in st.owner && Latest(st, k) ==> st.out[k].instrs == st.invs[st.owner[k]])
  }

  lemma RefinementOwned(st: RState, instrs: seq<Instr>)
    requires Owned(st)
    ensures Owned(Refinement(st, instrs))
  {
    var st1 := Refinement(st, instrs);
    forall k | k in st1.owner && Latest(st1, k)
      ensures Latest(st, k)
    {
    }
  }

  lemma PreheaderOwned(st: RState, name: Name)
    requires Owned(st) && st.out != [] && !st.pre[|st.pre| - 1]
    requires HeadsInvariants(st.invs, name) && AddPreheader(st, name).Ok?
    ensures Owned(AddPreheader(st, name).value)
  {
    PreheaderParts(st, name);
    var st1 := AddPreheader(st, name).value;
    var n := |st.out|;
    forall k | k in st1.owner
      ensures st1.owner[k] in st1.invs && IsSuffix(st1.out[k].instrs, st1.invs[st1.owner[k]])
    {
      if k < n {
        PreheaderOwnedSuffix(st, name, k);
      }
    }
    forall k | k in st1.owner && Latest(st1, k)
      ensures st1.out[k].instrs == st1.invs[st1.owner[k]]
    {
      if k < n {
        PreheaderOwnedLatest(st, name, k);
      }
    }
  }

  /** An earlier preheader, as built, still ends its loop's list after a new label goes in front. */
  lemma PreheaderOwnedSuffix(st: RState, name: Name, k: nat)
    requires |st.out| == |st.pre| && st.out != [] && !st.pre[|st.pre| - 1]
    requires k in st.owner && k < |st.pre| && st.pre[k]
    requires st.owner[k] in st.invs && IsSuffix(st.out[k].instrs, st.invs[st.owner[k]])
    requires HeadsInvariants(st.invs, name) && AddPreheader(st, name).Ok?
    ensures var st1 := AddPreheader(st, name).value;
            st1.owner[k] in st1.invs && IsSuffix(st1.out[k].instrs, st1.invs[st1.owner[k]])
  {
    PreheaderParts(st, name);
    var st1 := AddPreheader(st, name).value;
    assert k < |st.out| - 1;
    assert st1.out[k] == st.out[k] && st1.owner[k] == st.owner[k];
    if st.owner[k] == name {
      SuffixCons(st.out[k].instrs, st.invs[name], LabelInstr(PreheadName(st.prehead)));
    }
  }

  lemma SuffixCons(a: seq<Instr>, b: seq<Instr>, x: Instr)
    requires IsSuffix(a, b)
    ensures IsSuffix(a, [x] + b)
  {
    assert ([x] + b)[|[x] + b| - |a|..] == b[|b| - |a|..];
  }

  /** A preheader that is still its loop's latest was built for another loop. */
  lemma PreheaderOwnedLatest(st: RState, name: Name, k: nat)
    requires |st.out| == |st.pre| && st.out != [] && !st.pre[|st.pre| - 1]
    requires HeadsInvariants(st.invs, name) && AddPreheader(st, name).Ok?
    requires forall k' :: k' in st.owner ==> k' < |st.out|
    requires k in st.owner && st.pre[k] && st.owner[k] in st.invs
    requires Latest(st, k) ==> st.out[k].instrs == st.invs[st.owner[k]]
    ensures var st1 := AddPreheader(st, name).value;
            k in st1.owner && Latest(st1, k) ==> st1.out[k].instrs == st1.invs[st1.owner[k]]
  {
    PreheaderParts(st, name);
    var st1 := AddPreheader(st, name).value;
    var n := |st.out|;
    assert k < n - 1;
    assert st1.out[k] == st.out[k] && st1.owner[k] == st.owner[k];
    if Latest(st1, k) {
      assert n in st1.owner && k < n;
      assert st1.owner[k] != name;
      forall k' | k' in st.owner && k < k'
        ensures st.owner[k'] != st.owner[k]
      {
        assert k' in st1.owner && st1.owner[k'] == st.owner[k'];
      }
    }
  }

  lemma EmitOwned(st: RState, name: Name, instrs: seq<Instr>)
    requires Owned(st) && (st.out != [] ==> !st.pre[|st.pre| - 1]) && Emit(st, name, instrs).Ok?
    ensures Owned(Emit(st, name, instrs).value)
  {
    if HeadsInvariants(st.invs, name) {
      PreheaderOwned(st, name);
      RefinementOwned(AddPreheader(st, name).value, instrs);
    } else {
      RefinementOwned(st, instrs);
    }
  }

  /** Every state the block loop reaches keeps `Owned`. */
  lemma {:induction false} RewriteOwned(invs: map<Name, seq<Instr>>, prehead: nat, blockId: nat, ins: seq<(Name, seq<Instr>)>)
    ensures RewriteFrom(Start(invs, prehead, blockId), ins).Ok? ==> Owned(RewriteFrom(Start(invs, prehead, blockId), ins).value)
  {
    var st0 := Start(invs, prehead, blockId);
    if ins != [] {
      var init := ins[..|ins| - 1];
      RewriteOwned(invs, prehead, blockId, init);
      RewriteKept(invs, prehead, blockId, init);
      if RewriteFrom(st0, ins).Ok? {
        RewriteStep(st0, ins);
        EmitOwned(RewriteFrom(st0, init).value, ins[|ins| - 1].0, ins[|ins| - 1].1);
      }
    }
  }

  /**
   * What the blocks hold after a successful rewrite: a block that is not a
   * preheader is as emitted, so `Kept` describes it; a preheader keeps its
   * name and shows its loop's final list, which ends with the preheader as
   * built; the last preheader built for a loop is exactly as built.
   */
  lemma RewriteShared(invs: map<Name, seq<Instr>>, prehead: nat, blockId: nat, ins: seq<(Name, seq<Instr>)>)
    ensures var e := RewriteFrom(Start(invs, prehead, blockId), ins);
            e.Ok? ==>
              var st := e.value;
              var r := Shared(st);
              && |st.pre| == |r|
              && (forall k :: 0 <= k < |r| && !st.pre[k] ==> r[k] == st.out[k])
              && (forall k :: 0 <= k < |r| && st.pre[k] ==>
                    && k in st.owner && st.owner[k] in st.invs
                    && r[k].name == st.out[k].name && r[k].instrs == st.invs[st.owner[k]]
                    && IsSuffix(st.out[k].instrs, r[k].instrs))
              && (forall k :: 0 <= k < |r| && k in st.owner && Latest(st, k) ==> r[k] == st.out[k])
  {
    RewriteOwned(invs, prehead, blockId, ins);
  }

  /** The loops that got a preheader are among the input blocks' names, each with one preheader when the names differ. */
  lemma {:induction false} RewriteOwners(invs: map<Name, seq<Instr>>, prehead: nat, blockId: nat, ins: seq<(Name, seq<Instr>)>)
    requires forall i, j :: 0 <= i < j < |ins| ==> ins[i].0 != ins[j].0
    ensures var e := RewriteFrom(Start(invs, prehead, blockId), ins);
            e.Ok? ==>
              && (forall k :: k in e.value.owner ==> e.value.owner[k] in (set i | 0 <= i < |ins| :: ins[i].0))
              && (forall k, k' :: k in e.value.owner && k' in e.value.owner && k != k' ==> e.value.owner[k] != e.value.owner[k'])
  {
    var st0 := Start(invs, prehead, blockId);
    if ins != [] {
      var init := ins[..|ins| - 1];
      var b := ins[|ins| - 1];
      RewriteOwners(invs, prehead, blockId, init);
      if RewriteFrom(st0, ins).Ok? {
        RewriteStep(st0, ins);
        var st := RewriteFrom(st0, init).value;
        var st1 := if HeadsInvariants(st.invs, b.0) then AddPreheader(st, b.0).value else st;
        assert Emit(st, b.0, b.1).value.owner == st1.owner;
        assert forall k :: k in st.owner ==> st.owner[k] != b.0 by {
          forall k | k in st.owner
            ensures st.owner[k] != b.0
          {
            var i :| 0 <= i < |init| && init[i].0 == st.owner[k];
            assert ins[i] == init[i];
          }
        }
        if HeadsInvariants(st.invs, b.0) {
          PreheaderParts(st, b.0);
          assert |st.out| !in st.owner by {
            RewriteOwned(invs, prehead, blockId, init);
          }
        }
        forall k | k in st1.owner
          ensures st1.owner[k] in (set i | 0 <= i < |ins| :: ins[i].0)
        {
          if k in st.owner && st1.owner[k] == st.owner[k] {
            var i :| 0 <= i < |init| && init[i].0 == st.owner[k];
            assert ins[i] == init[i];
          } else {
            assert ins[|ins| - 1] == b;
          }
        }
      }
    }
  }

  /**
   * With distinct block names no loop gets two preheaders, and the blocks
   * hold every preheader as it was built.
   */
  lemma DistinctNamesUnshared(invs: map<Name, seq<Instr>>, prehead: nat, blockId: nat, ins: seq<(Name, seq<Instr>)>)
    requires forall i, j :: 0 <= i < j < |ins| ==> ins[i].0 != ins[j].0
    ensures var e := RewriteFrom(Start(invs, prehead, blockId), ins);
            e.Ok? ==> Shared(e.value) == e.value.out
  {
    var e := RewriteFrom(Start(invs, prehead, blockId), ins);
    if e.Ok? {
      RewriteOwned(invs, prehead, blockId, ins);
      RewriteOwners(invs, prehead, blockId, ins);
      var st := e.value;
      forall k | 0 <= k < |st.out|
        ensures Shared(st)[k] == st.out[k]
      {
        if k in st.owner {
          assert Latest(st, k);
        }
      }
    }
  }

  /** The preheader flags match the output, and the owned positions are the flagged ones. */
  ghost predicate Flagged(st: RState)
  {
    && |st.out| == |st.pre|
    && (forall k :: k in st.owner <==> 0 <= k < |st.pre| && st.pre[k])
  }

  /** ... and the last output block, when there is one, is not a preheader. */
  ghost predicate Layered(st: RState)
  {
    Flagged(st) && (st.out != [] ==> !st.pre[|st.pre| - 1])
  }

  /** A refined block is appended as it is: it belongs to no loop. */
  lemma SharedRefinement(st: RState, instrs: seq<Instr>)
    requires Flagged(st)
    ensures Layered(Refinement(st, instrs))
    ensures Shared(Refinement(st, instrs)) == Shared(st) + [Refinement(st, instrs).out[|st.out|]]
  {
    var st1 := Refinement(st, instrs);
    assert |st.out| !in st.owner;
    forall k | 0 <= k < |st.out|
      ensures Shared(st1)[k] == Shared(st)[k]
    {
    }
  }

  /** The blocks built for `name` now show its new list `inv`; the others are as they were. */
  lemma SharedRelist(st: RState, name: Name, inv: seq<Instr>, w: seq<OutBlock>)
    requires |w| == |st.out|
    requires forall k :: 0 <= k < |w| ==>
               w[k] == if k in st.owner && st.owner[k] == name then Shared(st)[k].(instrs := inv) else Shared(st)[k]
    ensures w == Shared(st.(invs := st.invs[name := inv]))
  {
  }

  /**
   * The preheader step on the output as the blocks hold it, once the loop's
   * list is `inv`: the jump check sees the same last block (it is no
   * preheader) and the result is the blocks' view after the step.
   */
  lemma SharedPreheader(st: RState, name: Name)
    requires Layered(st) && HeadsInvariants(st.invs, name)
    ensures var l := PreheadName(st.prehead);
            var inv := [LabelInstr(l)] + st.invs[name];
            var a := Attach(Shared(st.(invs := st.invs[name := inv])), l, OutBlock(Some(l), inv));
            && (a.Err? <==> AddPreheader(st, name).Err?)
            && (a.Err? ==> a.error == AddPreheader(st, name).error)
            && (a.Ok? ==> Flagged(AddPreheader(st, name).value) && a.value == Shared(AddPreheader(st, name).value))
  {
    var l := PreheadName(st.prehead);
    var inv := [LabelInstr(l)] + st.invs[name];
    var v := Shared(st.(invs := st.invs[name := inv]));
    AddPreheaderShape(st, name);
    if st.out != [] {
      var m := |st.out| - 1;
      assert m !in st.owner;
      assert v[m] == st.out[m];
      var a := Attach(v, l, OutBlock(Some(l), inv));
      if a.Ok? {
        var st1 := AddPreheader(st, name).value;
        assert st1.out == st.out[..m] + [a.value[m], OutBlock(Some(l), inv)];
        assert st1.owner == st.owner[|st.out| := name] && st1.invs == st.invs[name := inv];
        forall k | 0 <= k < |a.value|
          ensures a.value[k] == Shared(st1)[k]
        {
          if k < m {
            assert st1.out[k] == st.out[k] && a.value[k] == v[k];
          } else if k == m {
            assert k !in st1.owner;
          } else {
            assert st1.owner[k] == name;
          }
        }
      }
    }
  }

  /** The invariant list only grows, by marked instructions. */
  ghost predicate Grown(before: seq<Instr>, after: seq<Instr>)
  {
    |before| <= |after| && after[..|before|] == before && AllMarked(after[|before|..])
  }

  lemma GrownTrans(a: seq<Instr>, b: seq<Instr>, c: seq<Instr>)
    requires Grown(a, b) && Grown(b, c)
    ensures Grown(a, c)
  {
    assert c[..|a|] == b[..|b|][..|a|];
    forall k | 0 <= k < |c| - |a|
      ensures c[|a|..][k].isInvariant && c[|a|..][k].dest.Some? && c[|a|..][k].args.Some?
    {
      if k < |b| - |a| {
        assert c[|a|..][k] == b[|a|..][k];
      } else {
        assert c[|a|..][k] == c[|b|..][k - (|b| - |a|)];
      }
    }
  }

  /**
   * One loop's marking, seen from its list `inv0` and body `body0` before the
   * pass: the body it was marked from (`m.0`, its blocks as earlier loops
   * left them) only had candidates flagged since; the list `inv` grew by the
   * instructions marked from `m.0` to `m.1`, in marking order, each invariant
   * when it was marked; and `m.1` is a fixpoint.
   */
  ghost predicate LoopMarked(inv0: seq<Instr>, body0: seq<seq<Instr>>, inv: seq<Instr>, m: (seq<seq<Instr>>, seq<seq<Instr>>))
  {
    Remarked(body0, m.0) && ListMarked(inv0, inv, m)
  }

  /**
   * The first `n` lists were marked (`ListMarked`, from `lists0` to
   * `lists`) and the others are as they were.
   */
  ghost predicate ListsMarked(lists0: seq<seq<Instr>>, lists: seq<seq<Instr>>,
                              marks: seq<(seq<seq<Instr>>, seq<seq<Instr>>)>, n: nat)
  {
    && |lists| == |lists0| && n <= |lists| && |marks| == n
    && (forall i :: 0 <= i < n ==> ListMarkedAt(lists0, lists, marks, i))
    && (forall i :: n <= i < |lists| ==> lists[i] == lists0[i])
  }

  /** List `i` was marked, from `lists0[i]` to `lists[i]`. */
  ghost predicate ListMarkedAt(lists0: seq<seq<Instr>>, lists: seq<seq<Instr>>,
                               marks: seq<(seq<seq<Instr>>, seq<seq<Instr>>)>, i: nat)
  {
    i < |lists0| && i < |lists| && i < |marks| && ListMarked(lists0[i], lists[i], marks[i])
  }

  /**
   * `MarkAll`'s loop after its first `j` turns: the first `j` loops (blocks
   * `bss`) were marked one after the other from the lists `lists0` and the
   * loop blocks `snap0`, giving `lists`, `marks` and `snaps`, and `noInv`
   * tells whether none of them has invariants, in which case no loop block
   * changed.
   */
  ghost predicate MarkedUpTo(j: nat, noInv: bool, bss: seq<seq<Block>>, lists0: seq<seq<Instr>>, snap0: map<Block, seq<Instr>>,
                             lists: seq<seq<Instr>>, snaps: seq<map<Block, seq<Instr>>>,
                             marks: seq<(seq<seq<Instr>>, seq<seq<Instr>>)>)
  {
    && |snaps| == j + 1
    && ListsMarked(lists0, lists, marks, j)
    && (noInv <==> forall i :: 0 <= i < j ==> lists[i] == [])
    && snaps[0] == snap0 && (noInv ==> snaps[j] == snap0)
    && MarkChainUpTo(snaps, bss, marks, j)
  }

  lemma ListsMarkedSnoc(lists0: seq<seq<Instr>>, lists: seq<seq<Instr>>, marks: seq<(seq<seq<Instr>>, seq<seq<Instr>>)>,
                        n: nat, inv: seq<Instr>, m: (seq<seq<Instr>>, seq<seq<Instr>>))
    requires ListsMarked(lists0, lists, marks, n) && n < |lists| && ListMarked(lists[n], inv, m)
    ensures ListsMarked(lists0, lists[n := inv], marks + [m], n + 1)
  {
    var l2, m2 := lists[n := inv], marks + [m];
    forall i | 0 <= i < n + 1
      ensures ListMarkedAt(lists0, l2, m2, i)
    {
      if i < n {
        assert ListMarkedAt(lists0, lists, marks, i);
        assert l2[i] == lists[i] && m2[i] == marks[i];
      }
    }
  }

  /** `LoopMarked` without the body before the pass. */
  ghost predicate ListMarked(inv0: seq<Instr>, inv: seq<Instr>, m: (seq<seq<Instr>>, seq<seq<Instr>>))
  {
    && Grown(inv0, inv)
    && Remarked(m.0, m.1)
    && MarkedInOrder(m.0, m.1, inv[|inv0|..])
    && Fixpoint(m.1)
  }

  /** The same blocks, by name, each with some of its candidates flagged. */
  ghost predicate MarkedInputs(before: seq<(Name, seq<Instr>)>, after: seq<(Name, seq<Instr>)>)
  {
    |after| == |before| && forall k :: 0 <= k < |before| ==> after[k].0 == before[k].0 && Remarked([before[k].1], [after[k].1])
  }

  /** The input blocks `before` with the blocks of `bs` that `snap` holds read from it. */
  ghost function Reread(before: seq<(Name, seq<Instr>)>, bs: seq<Block>, snap: map<Block, seq<Instr>>): (r: seq<(Name, seq<Instr>)>)
    ensures |r| == |before|
  {
    seq(|before|, k requires 0 <= k < |before| => if k < |bs| && bs[k] in snap then (before[k].0, snap[bs[k]]) else before[k])
  }

  /**
   * Each block of `before` is still there in `after`, with some of its
   * candidates flagged and nothing else changed.
   */
  ghost predicate MarkedBlocks(before: map<Block, seq<Instr>>, after: map<Block, seq<Instr>>)
  {
    before.Keys == after.Keys && forall b :: b in before ==> Remarked([before[b]], [after[b]])
  }

  lemma MarkedBlocksTrans(a: map<Block, seq<Instr>>, b: map<Block, seq<Instr>>, c: map<Block, seq<Instr>>)
    requires MarkedBlocks(a, b) && MarkedBlocks(b, c)
    ensures MarkedBlocks(a, c)
  {
    forall x | x in a
      ensures Remarked([a[x]], [c[x]])
    {
      RemarkedTrans([a[x]], [b[x]], [c[x]]);
    }
  }

  /** A body read from marked blocks is a marked body. */
  lemma MarkedBody(before: map<Block, seq<Instr>>, after: map<Block, seq<Instr>>, bs: seq<Block>,
                   body0: seq<seq<Instr>>, body1: seq<seq<Instr>>)
    requires MarkedBlocks(before, after) && |body0| == |bs| && |body1| == |bs|
    requires forall k :: 0 <= k < |bs| ==> bs[k] in before && body0[k] == before[bs[k]] && body1[k] == after[bs[k]]
    ensures Remarked(body0, body1)
  {
    forall k | 0 <= k < |bs|
      ensures Remarked([body0[k]], [body1[k]])
    {
      assert Remarked([before[bs[k]]], [after[bs[k]]]);
    }
    RemarkedRows(body0, body1);
  }

  /**
   * One loop's turn in the marking, over the loop blocks' instructions: the
   * body it is marked from (`m.0`) is read from `before`, the body it leaves
   * (`m.1`) from `after`, and every block outside the loop (`bs`) keeps its
   * instructions.
   */
  ghost predicate MarkStep(before: map<Block, seq<Instr>>, after: map<Block, seq<Instr>>, bs: seq<Block>,
                           m: (seq<seq<Instr>>, seq<seq<Instr>>))
  {
    && after.Keys == before.Keys
    && |m.0| == |bs| && |m.1| == |bs|
    && (forall k :: 0 <= k < |bs| ==> bs[k] in before && m.0[k] == before[bs[k]] && m.1[k] == after[bs[k]])
    && (forall b :: b in before && b !in bs ==> after[b] == before[b])
  }

  /**
   * The loops marked one after the other: loop `i`, with blocks `bss[i]`,
   * takes the loop blocks from `snaps[i]` to `snaps[i + 1]`.
   */
  ghost predicate MarkChain(snaps: seq<map<Block, seq<Instr>>>, bss: seq<seq<Block>>,
                            marks: seq<(seq<seq<Instr>>, seq<seq<Instr>>)>)
  {
    MarkChainUpTo(snaps, bss, marks, |bss|)
  }

  /** The first `n` loops of `bss` marked one after the other. */
  ghost predicate MarkChainUpTo(snaps: seq<map<Block, seq<Instr>>>, bss: seq<seq<Block>>,
                                marks: seq<(seq<seq<Instr>>, seq<seq<Instr>>)>, n: nat)
  {
    && n <= |bss| && |snaps| == n + 1 && |marks| == n
    && forall i :: 0 <= i < n ==> StepAt(snaps, bss, marks, i)
  }

  /** Loop `i` took the loop blocks from `snaps[i]` to `snaps[i + 1]`. */
  ghost predicate StepAt(snaps: seq<map<Block, seq<Instr>>>, bss: seq<seq<Block>>,
                         marks: seq<(seq<seq<Instr>>, seq<seq<Instr>>)>, i: nat)
  {
    i + 1 < |snaps| && i < |bss| && i < |marks| && MarkStep(snaps[i], snaps[i + 1], bss[i], marks[i])
  }

  /** A step that only flags candidates of its loop only flags candidates of the loop blocks. */
  lemma MarkStepMarked(before: map<Block, seq<Instr>>, after: map<Block, seq<Instr>>, bs: seq<Block>,
                       m: (seq<seq<Instr>>, seq<seq<Instr>>))
    requires MarkStep(before, after, bs, m) && Remarked(m.0, m.1)
    ensures MarkedBlocks(before, after)
  {
    forall b | b in before
      ensures Remarked([before[b]], [after[b]])
    {
      if k :| 0 <= k < |bs| && bs[k] == b {
        RemarkedRow(m.0, m.1, k);
      }
    }
  }

  /** Along a chain of such steps, every snapshot is the first with some candidates flagged. */
  lemma {:induction false} MarkChainMarked(snaps: seq<map<Block, seq<Instr>>>, bss: seq<seq<Block>>,
                                           marks: seq<(seq<seq<Instr>>, seq<seq<Instr>>)>, n: nat)
    requires MarkChainUpTo(snaps, bss, marks, n)
    requires forall i :: 0 <= i < n ==> Remarked(marks[i].0, marks[i].1)
    ensures forall i :: 0 <= i <= n ==> MarkedBlocks(snaps[0], snaps[i])
  {
    if n > 0 {
      var s1, m1 := snaps[..n], marks[..n - 1];
      forall i | 0 <= i < n - 1
        ensures StepAt(s1, bss, m1, i)
      {
        assert StepAt(snaps, bss, marks, i);
        assert s1[i] == snaps[i] && s1[i + 1] == snaps[i + 1] && m1[i] == marks[i];
      }
      MarkChainMarked(s1, bss, m1, n - 1);
      forall i | 0 <= i <= n
        ensures MarkedBlocks(snaps[0], snaps[i])
      {
        if i < n {
          assert snaps[..n][i] == snaps[i] && snaps[..n][0] == snaps[0];
        } else {
          assert snaps[..n][n - 1] == snaps[n - 1];
          assert StepAt(snaps, bss, marks, n - 1);
          MarkStepMarked(snaps[n - 1], snaps[n], bss[n - 1], marks[n - 1]);
          MarkedBlocksTrans(snaps[0], snaps[n - 1], snaps[n]);
        }
      }
    } else {
      forall x | x in snaps[0]
        ensures Remarked([snaps[0][x]], [snaps[0][x]])
      {
        RemarkedTrans([snaps[0][x]], [snaps[0][x]], [snaps[0][x]]);
      }
    }
  }

  /** Loop `i` of a chain is marked from its body in the first snapshot, with some candidates flagged. */
  lemma MarkChainAnchored(snaps: seq<map<Block, seq<Instr>>>, bss: seq<seq<Block>>,
                          marks: seq<(seq<seq<Instr>>, seq<seq<Instr>>)>, n: nat, i: nat, body0: seq<seq<Instr>>)
    requires MarkChainUpTo(snaps, bss, marks, n) && i < n
    requires forall p :: 0 <= p <= n ==> MarkedBlocks(snaps[0], snaps[p])
    requires |body0| == |bss[i]| && forall k :: 0 <= k < |bss[i]| ==> bss[i][k] in snaps[0] && body0[k] == snaps[0][bss[i][k]]
    ensures Remarked(body0, marks[i].0)
  {
    assert StepAt(snaps, bss, marks, i);
    MarkedBody(snaps[0], snaps[i], bss[i], body0, marks[i].0);
  }

  lemma MarkChainSnoc(snaps: seq<map<Block, seq<Instr>>>, bss: seq<seq<Block>>, marks: seq<(seq<seq<Instr>>, seq<seq<Instr>>)>,
                      n: nat, after: map<Block, seq<Instr>>, m: (seq<seq<Instr>>, seq<seq<Instr>>))
    requires MarkChainUpTo(snaps, bss, marks, n) && n < |bss| && MarkStep(snaps[n], after, bss[n], m)
    ensures MarkChainUpTo(snaps + [after], bss, marks + [m], n + 1)
  {
    var s2, m2 := snaps + [after], marks + [m];
    forall i | 0 <= i < n + 1
      ensures StepAt(s2, bss, m2, i)
    {
      if i < n {
        assert StepAt(snaps, bss, marks, i);
        assert s2[i] == snaps[i] && s2[i + 1] == snaps[i + 1] && m2[i] == marks[i];
      }
    }
  }

  /** `body` is the body of the loop with blocks `bs`, read from the loop blocks `snap`. */
  ghost predicate BodyIn(snap: map<Block, seq<Instr>>, bs: seq<Block>, body: seq<seq<Instr>>)
  {
    |body| == |bs| && forall k :: 0 <= k < |bs| ==> bs[k] in snap && body[k] == snap[bs[k]]
  }

  /** The body of the loop with blocks `bs`, read from the loop blocks `snap`. */
  function ReadBody(snap: map<Block, seq<Instr>>, bs: seq<Block>): (body: seq<seq<Instr>>)
    requires forall b :: b in bs ==> b in snap
    ensures BodyIn(snap, bs, body)
  {
    seq(|bs|, k requires 0 <= k < |bs| => snap[bs[k]])
  }

  /**
   * After all the turns of the marking loop, from the loop blocks `snap0`
   * where loop `i` had the body `bodies0[i]`: the loops were marked one after
   * the other, each from its original body with only candidates flagged, to
   * a fixpoint, and its list grew by what it marked; the first loop was
   * marked from its original body; every loop block only had candidates
   * flagged; and when no list grew, no loop block changed.
   */
  lemma MarkedRun(noInv: bool, bss: seq<seq<Block>>, lists0: seq<seq<Instr>>, snap0: map<Block, seq<Instr>>,
                  lists: seq<seq<Instr>>, snaps: seq<map<Block, seq<Instr>>>,
                  marks: seq<(seq<seq<Instr>>, seq<seq<Instr>>)>, bodies0: seq<seq<seq<Instr>>>)
    requires MarkedUpTo(|bss|, noInv, bss, lists0, snap0, lists, snaps, marks)
    requires |bodies0| == |bss| && forall i :: 0 <= i < |bss| ==> BodyIn(snap0, bss[i], bodies0[i])
    ensures MarkChain(snaps, bss, marks) && snaps[0] == snap0
    ensures forall i :: 0 <= i < |bss| ==> LoopMarked(lists0[i], bodies0[i], lists[i], marks[i])
    ensures bss != [] ==> marks[0].0 == bodies0[0]
    ensures MarkedBlocks(snap0, snaps[|bss|])
    ensures noInv <==> forall i :: 0 <= i < |bss| ==> lists[i] == []
    ensures noInv ==> snaps[|bss|] == snap0
  {
    var n := |bss|;
    forall i | 0 <= i < n
      ensures Remarked(marks[i].0, marks[i].1)
    {
      assert ListMarkedAt(lists0, lists, marks, i);
    }
    MarkChainMarked(snaps, bss, marks, n);
    forall i | 0 <= i < n
      ensures LoopMarked(lists0[i], bodies0[i], lists[i], marks[i])
    {
      assert ListMarkedAt(lists0, lists, marks, i);
      MarkChainAnchored(snaps, bss, marks, n, i, bodies0[i]);
    }
    if n > 0 {
      assert StepAt(snaps, bss, marks, 0);
    }
  }

  // ---------------------------------------------------------------- the pass

  /** The rewrite's view of a list of blocks. */
  function Views(bs: seq<Block>): (v: seq<OutBlock>)
    reads set b | b in bs
    ensures |v| == |bs| && forall i :: 0 <= i < |bs| ==> v[i] == OutBlock(bs[i].name, bs[i].instrs)
  {
    seq(|bs|, i requires 0 <= i < |bs| reads set b | b in bs => OutBlock(bs[i].name, bs[i].instrs))
  }

  /** The blocks of `out` at the positions `owner` gives to the loop headed by `h`, in order. */
  ghost function OwnedBlocks(out: seq<Block>, owner: map<nat, Name>, h: Name): seq<Block>
  {
    if out == [] then []
    else OwnedBlocks(out[..|out| - 1], owner, h) + (if |out| - 1 in owner && owner[|out| - 1] == h then [out[|out| - 1]] else [])
  }

  lemma {:induction false} OwnedBlocksIn(out: seq<Block>, owner: map<nat, Name>, h: Name)
    requires forall p, q :: 0 <= p < q < |out| ==> out[p] != out[q]
    ensures forall k :: 0 <= k < |out| ==> (out[k] in OwnedBlocks(out, owner, h) <==> k in owner && owner[k] == h)
    ensures forall b :: b in OwnedBlocks(out, owner, h) ==> b in out
  {
    if out != [] {
      var m := |out| - 1;
      var init := out[..m];
      OwnedBlocksIn(init, owner, h);
      forall k | 0 <= k < |out|
        ensures out[k] in OwnedBlocks(out, owner, h) <==> k in owner && owner[k] == h
      {
        if k < m {
          assert init[k] == out[k] != out[m];
        } else {
          assert out[m] !in init;
        }
      }
    }
  }

  /** Owners given past the end of `out` do not change what it owns. */
  lemma {:induction false} OwnedBlocksFrame(out: seq<Block>, owner: map<nat, Name>, n: nat, x: Name, h: Name)
    requires |out| <= n
    ensures OwnedBlocks(out, owner[n := x], h) == OwnedBlocks(out, owner, h)
  {
    if out != [] {
      OwnedBlocksFrame(out[..|out| - 1], owner, n, x, h);
    }
  }

  lemma OwnedBlocksAppend(out: seq<Block>, owner: map<nat, Name>, h: Name, b: Block)
    ensures OwnedBlocks(out + [b], owner, h) == OwnedBlocks(out, owner, h) + (if |out| in owner && owner[|out|] == h then [b] else [])
  {
    assert (out + [b])[..|out|] == out;
  }

  /** Whether no loop has invariants. */
  predicate NoInvariants(invs: map<Name, seq<Instr>>)
  {
    forall k :: k in invs ==> invs[k] == []
  }

  /** Distinct keys hold distinct loop objects. */
  ghost predicate KeyedLoops(loops: Dict<Name, Loop>)
  {
    && UniqueKeys(loops)
    && (forall i, j :: 0 <= i < j < |loops| ==> loops[i].1 != loops[j].1)
  }

  /** ... and no loop lists a block twice. */
  ghost predicate DistinctLoops(loops: Dict<Name, Loop>)
  {
    && KeyedLoops(loops)
    && (forall i :: 0 <= i < |loops| ==> loops[i].1.Distinct())
  }

  lemma GetDistinct(loops: Dict<Name, Loop>, k1: Name, k2: Name)
    requires KeyedLoops(loops) && HasKey(loops, k1) && HasKey(loops, k2) && k1 != k2
    ensures Get(loops, k1) != Get(loops, k2)
  {
  }

  /**
   * A successful rewrite produced the blocks `r`, each preheader holding its
   * loop's final list; a failing one raised the same error.
   */
  ghost predicate Follows(r: Result<seq<Block>>, e: Result<RState>)
    reads if r.Ok? then set b | b in r.value else {}
  {
    && (r.Err? <==> e.Err?)
    && (r.Err? ==> r.error == e.error)
    && (r.Ok? ==> Views(r.value) == Shared(e.value))
  }

  class LoopPass {
    const blocks: seq<Block>
    /** The natural loops of the function, keyed by header name (`find_loops()`). */
    const loops: Dict<Name, Loop>

    constructor (blocks: seq<Block>, loops: Dict<Name, Loop>)
      ensures this.blocks == blocks && this.loops == loops
    {
      this.blocks := blocks;
      this.loops := loops;
    }

    function LoopSet(): set<Loop>
    {
      set i | 0 <= i < |loops| :: loops[i].1
    }

    function LoopBlocks(): set<Block>
    {
      set l, b | l in LoopSet() && b in l.blocks :: b
    }

    /** Each loop block's instructions, as they are now. */
    ghost function Snapshot(): (m: map<Block, seq<Instr>>)
      reads LoopBlocks()
      ensures m.Keys == LoopBlocks()
    {
      map b | b in LoopBlocks() :: b.instrs
    }

    /** The `j`-th loop's body is read from the snapshot. */
    lemma SnapshotBody(j: nat)
      requires j < |loops|
      ensures forall k :: 0 <= k < |loops[j].1.blocks| ==>
                loops[j].1.blocks[k] in Snapshot() && loops[j].1.Body()[k] == Snapshot()[loops[j].1.blocks[k]]
    {
      var l := loops[j].1;
      assert l in LoopSet();
      forall k | 0 <= k < |l.blocks|
        ensures l.blocks[k] in LoopBlocks()
      {
        assert l.blocks[k] in l.blocks;
      }
    }

    /** Each loop's invariant list, in dictionary order. */
    function Lists(): (ls: seq<seq<Instr>>)
      reads LoopSet()
      ensures |ls| == |loops| && forall i :: 0 <= i < |loops| ==> ls[i] == loops[i].1.invariants
    {
      seq(|loops|, i requires 0 <= i < |loops| reads LoopSet() => loops[i].1.invariants)
    }

    /** Each loop's blocks, in dictionary order. */
    function BlockLists(): (bss: seq<seq<Block>>)
      ensures |bss| == |loops| && forall i :: 0 <= i < |loops| ==> bss[i] == loops[i].1.blocks
    {
      seq(|loops|, i requires 0 <= i < |loops| => loops[i].1.blocks)
    }

    /** Each loop's body, in dictionary order, read from the loop blocks. */
    ghost function Bodies(): (bodies: seq<seq<seq<Instr>>>)
      reads LoopBlocks()
      ensures |bodies| == |loops|
      ensures forall i :: 0 <= i < |loops| ==> bodies[i] == loops[i].1.Body() && BodyIn(Snapshot(), loops[i].1.blocks, bodies[i])
    {
      SnapshotBodies();
      seq(|loops|, i requires 0 <= i < |loops| reads LoopBlocks() => ReadBody(Snapshot(), loops[i].1.blocks))
    }

    lemma SnapshotBodies()
      ensures forall j :: 0 <= j < |loops| ==>
                (forall b :: b in loops[j].1.blocks ==> b in Snapshot())
                && ReadBody(Snapshot(), loops[j].1.blocks) == loops[j].1.Body()
                && BodyIn(Snapshot(), loops[j].1.blocks, loops[j].1.Body())
    {
      forall j | 0 <= j < |loops|
        ensures (forall b :: b in loops[j].1.blocks ==> b in Snapshot())
                && ReadBody(Snapshot(), loops[j].1.blocks) == loops[j].1.Body()
                && BodyIn(Snapshot(), loops[j].1.blocks, loops[j].1.Body())
      {
        SnapshotBody(j);
      }
    }

    /** The input blocks' names and instructions. */
    function Inputs(): (ins: seq<(Name, seq<Instr>)>)
      reads set b | b in blocks
      ensures |ins| == |blocks| && forall i :: 0 <= i < |blocks| ==> ins[i] == (blocks[i].name, blocks[i].instrs)
    {
      seq(|blocks|, i requires 0 <= i < |blocks| reads set b | b in blocks => (blocks[i].name, blocks[i].instrs))
    }

    /** The input list holds each block object once, as a Python list of fresh `Block`s does. */
    ghost predicate DistinctBlocks()
      reads this
    {
      forall p, q :: 0 <= p < q < |blocks| ==> blocks[p] != blocks[q]
    }

    /** Each loop's invariant list, by header name. */
    function Invs(): (m: map<Name, seq<Instr>>)
      reads LoopSet()
      ensures m.Keys == KeySet()
    {
      KeySetHasKey();
      map k | k in KeySet() :: Get(loops, k).invariants
    }

    /** The header names, as a set. */
    function KeySet(): set<Name>
    {
      set i | 0 <= i < |loops| :: loops[i].0
    }

    lemma KeySetHasKey()
      ensures forall k :: k in KeySet() <==> HasKey(loops, k)
    {
      forall k
        ensures k in KeySet() <==> HasKey(loops, k)
      {
        KeyIn(k);
      }
    }

    lemma KeyIn(k: Name)
      ensures k in KeySet() <==> HasKey(loops, k)
    {
      HasKeyIndex(loops, k);
    }

    function LoopAt(j: nat): Loop
      requires j < |loops|
    {
      loops[j].1
    }

    /** `loop.mark_invariants()` and `loop.has_invariants()` for the `j`-th loop. */
    method MarkOne(j: nat) returns (has: bool)
      requires DistinctLoops(loops) && j < |loops|
      modifies LoopAt(j)`invariants, set b | b in loops[j].1.blocks
      ensures has <==> loops[j].1.invariants != []
      ensures ListMarked(old(loops[j].1.invariants), loops[j].1.invariants, (old(loops[j].1.Body()), loops[j].1.Body()))
      ensures forall i :: 0 <= i < |loops| && i != j ==> loops[i].1.invariants == old(loops[i].1.invariants)
      ensures Lists() == old(Lists())[j := loops[j].1.invariants]
      ensures MarkedBlocks(old(Snapshot()), Snapshot())
      ensures loops[j].1.invariants == old(loops[j].1.invariants) ==> Snapshot() == old(Snapshot())
      ensures MarkStep(old(Snapshot()), Snapshot(), loops[j].1.blocks, (old(loops[j].1.Body()), loops[j].1.Body()))
    {
      var loop := loops[j].1;
      ghost var snap := Snapshot();
      SnapshotBody(j);
      loop.MarkInvariants();
      has := loop.HasInvariants();
      SnapshotBody(j);
      forall b | b in snap
        ensures Remarked([snap[b]], [Snapshot()[b]])
      {
        if k :| 0 <= k < |loop.blocks| && loop.blocks[k] == b {
          RemarkedRow(old(loop.Body()), loop.Body(), k);
        }
      }
      forall b | b in snap && b !in loop.blocks
        ensures Snapshot()[b] == snap[b]
      {
        assert b.instrs == old(b.instrs);
      }
      if loop.invariants == old(loop.invariants) {
        assert loop.invariants[|old(loop.invariants)|..] == [];
        MarkedNothing(old(loop.Body()), loop.Body());
        forall b | b in snap
          ensures Snapshot()[b] == snap[b]
        {
          if k :| 0 <= k < |loop.blocks| && loop.blocks[k] == b {
            assert loop.Body()[k] == old(loop.Body())[k];
          }
        }
      }
    }

    /** `invs` holds each loop's current invariant list under its header name. */
    ghost predicate Tracks(invs: map<Name, seq<Instr>>)
      reads LoopSet()
    {
      && invs.Keys == KeySet()
      && (forall i :: 0 <= i < |loops| ==> loops[i].0 in invs && invs[loops[i].0] == loops[i].1.invariants)
    }

    /** Each loop's preheader blocks are the output blocks built for it, in order. */
    ghost predicate SharesWith(out: seq<Block>, owner: map<nat, Name>)
      reads LoopSet()
    {
      forall i :: 0 <= i < |loops| ==> loops[i].1.preheaders == OwnedBlocks(out, owner, loops[i].0)
    }

    lemma TracksInvs(invs: map<Name, seq<Instr>>)
      requires KeyedLoops(loops) && Tracks(invs)
      ensures Invs() == invs
    {
      forall k | k in invs
        ensures Invs()[k] == invs[k]
      {
        KeyIn(k);
        var i :| 0 <= i < |loops| && loops[i] == (k, Get(loops, k));
        assert invs[loops[i].0] == loops[i].1.invariants;
      }
    }

    lemma InvsTracks()
      requires KeyedLoops(loops)
      ensures Tracks(Invs())
    {
      forall i | 0 <= i < |loops|
        ensures loops[i].0 in Invs() && Invs()[loops[i].0] == loops[i].1.invariants
      {
        GetUnique(loops, i);
      }
    }

    /**
     * What marking every loop did, from the previous state to now. `noInv`
     * tells whether no loop found an invariant. The loop blocks went through
     * the states `snaps`, from before to now: loop `i` took them from
     * `snaps[i]` to `snaps[i + 1]`, changing only its own blocks, from the
     * body `marks[i].0` to `marks[i].1`. Each loop was marked from its
     * original body with only candidates flagged, to a fixpoint, and its list
     * grew by the instructions it marked, in marking order. Every loop block
     * only had candidates flagged, and none changed when no loop found an
     * invariant.
     */
    twostate predicate Marked(noInv: bool, new marks: seq<(seq<seq<Instr>>, seq<seq<Instr>>)>,
                              new snaps: seq<map<Block, seq<Instr>>>)
      reads LoopSet(), LoopBlocks()
    {
      && (noInv <==> NoInvariants(Invs()))
      && |marks| == |loops|
      && MarkChain(snaps, BlockLists(), marks) && snaps[0] == old(Snapshot()) && snaps[|loops|] == Snapshot()
      && (forall i :: 0 <= i < |loops| ==>
            LoopMarked(old(loops[i].1.invariants), old(loops[i].1.Body()), loops[i].1.invariants, marks[i]))
      && (loops != [] ==> marks[0].0 == old(loops[0].1.Body()))
      && MarkedBlocks(old(Snapshot()), Snapshot())
      && (noInv ==> Snapshot() == old(Snapshot()))
    }

    /**
     * `mark_invariants()` on every loop in dictionary order; the result tells
     * whether no loop found an invariant. Loop `i` is marked from the body
     * `marks[i].0`, its blocks as the earlier loops left them, to the fixpoint
     * `marks[i].1`, and its list grew by the instructions it marked, in
     * marking order, each invariant when it was marked. Every loop block only
     * had candidates flagged, and none changed when no loop found an invariant.
     */
    method MarkAll() returns (noInv: bool, ghost marks: seq<(seq<seq<Instr>>, seq<seq<Instr>>)>,
                              ghost snaps: seq<map<Block, seq<Instr>>>)
      requires DistinctLoops(loops)
      modifies LoopSet()`invariants, LoopBlocks()
      ensures forall i :: 0 <= i < |loops| ==> loops[i].1.preheaders == old(loops[i].1.preheaders)
      ensures Marked(noInv, marks, snaps)
    {
      noInv := true;
      marks := [];
      ghost var snap0 := Snapshot();
      ghost var lists0 := Lists();
      snaps := [snap0];
      var j := 0;
      ghost var lists := lists0;
      while j < |loops|
        invariant j <= |loops| && MarkedUpTo(j, noInv, BlockLists(), lists0, snap0, lists, snaps, marks)
        invariant lists == Lists() && snaps[j] == Snapshot()
      {
        noInv, lists, snaps, marks := MarkTurn(j, noInv, lists0, snap0, lists, snaps, marks);
        j := j + 1;
      }
      MarkedSince(noInv, snaps, marks, lists0, lists);
    }

    /**
     * One turn of `MarkAll`'s loop: `loop.mark_invariants()` on the `j`-th
     * loop and `no_invariants = no_invariants and not loop.has_invariants()`.
     */
    method MarkTurn(j: nat, noInv: bool, ghost lists0: seq<seq<Instr>>, ghost snap0: map<Block, seq<Instr>>,
                    ghost lists: seq<seq<Instr>>, ghost snaps: seq<map<Block, seq<Instr>>>,
                    ghost marks: seq<(seq<seq<Instr>>, seq<seq<Instr>>)>)
      returns (noInv2: bool, ghost lists2: seq<seq<Instr>>, ghost snaps2: seq<map<Block, seq<Instr>>>,
               ghost marks2: seq<(seq<seq<Instr>>, seq<seq<Instr>>)>)
      requires DistinctLoops(loops) && j < |loops| && MarkedUpTo(j, noInv, BlockLists(), lists0, snap0, lists, snaps, marks)
      requires lists == Lists() && snaps[j] == Snapshot()
      modifies LoopSet()`invariants, LoopBlocks()
      ensures MarkedUpTo(j + 1, noInv2, BlockLists(), lists0, snap0, lists2, snaps2, marks2)
      ensures lists2 == Lists() && snaps2[j + 1] == Snapshot()
    {
      var l := loops[j].1;
      ghost var body := l.Body();
      var has := MarkOne(j);
      ghost var m := (body, l.Body());
      MarkChainSnoc(snaps, BlockLists(), marks, j, Snapshot(), m);
      ListsMarkedSnoc(lists0, lists, marks, j, l.invariants, m);
      snaps2 := snaps + [Snapshot()];
      marks2 := marks + [m];
      lists2 := lists[j := l.invariants];
      noInv2 := noInv && !has;
    }

    /**
     * Loops marked along a chain from the loop blocks before to the loop
     * blocks now were each marked from their body before, with some
     * candidates flagged, and every loop block only had candidates flagged.
     */
    twostate lemma MarkedSince(none: bool, new ss: seq<map<Block, seq<Instr>>>,
                               new ms: seq<(seq<seq<Instr>>, seq<seq<Instr>>)>,
                               new ls0: seq<seq<Instr>>, new ls: seq<seq<Instr>>)
      requires KeyedLoops(loops)
      requires MarkedUpTo(|loops|, none, BlockLists(), ls0, old(Snapshot()), ls, ss, ms)
      requires ls0 == old(Lists()) && ls == Lists() && ss[|loops|] == Snapshot()
      ensures Marked(none, ms, ss)
    {
      NoInvariantsAll();
      MarkedRun(none, BlockLists(), ls0, old(Snapshot()), ls, ss, ms, old(Bodies()));
    }

    lemma NoInvariantsAll()
      requires KeyedLoops(loops)
      ensures NoInvariants(Invs()) <==> forall i :: 0 <= i < |loops| ==> loops[i].1.invariants == []
    {
      InvsTracks();
      forall k | k in Invs()
        ensures (forall i :: 0 <= i < |loops| ==> loops[i].1.invariants == []) ==> Invs()[k] == []
      {
        var i :| 0 <= i < |loops| && loops[i].0 == k;
      }
    }

    /** The instructions of one block that are not flagged `invariant`. */
    static method Refine(instrs: seq<Instr>) returns (refined: seq<Instr>)
      ensures refined == Strip(instrs)
    {
      refined := [];
      var j := 0;
      while j < |instrs|
        invariant j <= |instrs|
        invariant refined == Strip(instrs[..j])
      {
        assert instrs[..j + 1][..j] == instrs[..j];
        if !instrs[j].isInvariant {
          refined := refined + [instrs[j]];
        }
        j := j + 1;
      }
      assert instrs[..j] == instrs;
    }

    /**
     * One iteration of the block loop: the optional preheader with its jump
     * check, then the refined block.
     */
    method EmitBlock(name: Name, instrs: seq<Instr>, out: seq<Block>, ghost st: RState, preheadIdx: Counter, blockId: Counter)
      returns (r: Result<seq<Block>>, ghost st2: RState)
      requires KeyedLoops(loops) && preheadIdx != blockId
      requires Views(out) == Shared(st) && Layered(st) && Tracks(st.invs) && SharesWith(out, st.owner)
      requires preheadIdx.value == st.prehead && blockId.value == st.blockId
      requires forall p, q :: 0 <= p < q < |out| ==> out[p] != out[q]
      modifies (set o | o in out), LoopSet(), preheadIdx, blockId
      ensures r.Err? <==> Emit(st, name, instrs).Err?
      ensures r.Err? ==> r.error == Emit(st, name, instrs).error
      ensures r.Ok? ==> Emit(st, name, instrs) == Ok(st2)
      ensures r.Ok? ==> && Views(r.value) == Shared(st2) && Layered(st2) && Tracks(st2.invs) && SharesWith(r.value, st2.owner)
                        && preheadIdx.value == st2.prehead && blockId.value == st2.blockId
                        && (forall p, q :: 0 <= p < q < |r.value| ==> r.value[p] != r.value[q])
                        && (forall o :: o in r.value ==> o in out || fresh(o))
    {
      var res := Ok(out);
      ghost var st1 := st;
      KeyIn(name);
      if HasKey(loops, name) {
        var loop := Get(loops, name);
        if loop.HasInvariants() {
          res, st1 := PreheaderBlock(name, out, st, preheadIdx, blockId);
          if res.Err? {
            return Err(res.error), st;
          }
        }
      }
      var out2 := AppendBlock(instrs, res.value, st1, blockId);
      r := Ok(out2);
      st2 := Refinement(st1, instrs);
    }

    /** `blocks.append(Block(refined_block))`. */
    method AppendBlock(instrs: seq<Instr>, out: seq<Block>, ghost st: RState, blockId: Counter)
      returns (out2: seq<Block>)
      requires Views(out) == Shared(st) && Flagged(st) && blockId.value == st.blockId
      requires Tracks(st.invs) && SharesWith(out, st.owner)
      requires forall p, q :: 0 <= p < q < |out| ==> out[p] != out[q]
      modifies blockId
      ensures var st2 := Refinement(st, instrs);
              && Views(out2) == Shared(st2) && Layered(st2) && blockId.value == st2.blockId
              && Tracks(st.invs) && SharesWith(out2, st.owner)
      ensures forall p, q :: 0 <= p < q < |out2| ==> out2[p] != out2[q]
      ensures forall o :: o in out2 ==> o in out || fresh(o)
    {
      var refined := Refine(instrs);
      ghost var v := Views(out);
      var nb := new Block(refined, blockId);
      assert Views(out) == v;
      out2 := out + [nb];
      assert Views(out2) == v + [OutBlock(nb.name, refined)];
      SharedRefinement(st, instrs);
      assert |out| !in st.owner;
      forall i | 0 <= i < |loops|
        ensures loops[i].1.preheaders == OwnedBlocks(out2, st.owner, loops[i].0)
      {
        OwnedBlocksAppend(out, st.owner, loops[i].0, nb);
      }
    }

    /** The jump check on the last output block: a jump's first label becomes `l`. */
    static method RetargetBlock(last: Block, l: string) returns (err: Option<Error>)
      modifies last`instrs
      ensures var e := Retarget(OutBlock(last.name, old(last.instrs)), l);
              && (err.Some? <==> e.Err?)
              && (err.Some? ==> err.value == e.error)
              && (err.None? ==> OutBlock(last.name, last.instrs) == e.value)
    {
      if last.instrs == [] {
        return Some(IndexError);
      }
      var n := |last.instrs| - 1;
      var instr := last.instrs[n];
      if OpHasJmp(instr) {
        if instr.labels.None? {
          return Some(KeyError);
        }
        if instr.labels.value == [] {
          return Some(IndexError);
        }
        last.instrs := last.instrs[..n] + [instr.(labels := Some(instr.labels.value[0 := l]))];
      }
      err := None;
    }

    /** `create_preheader_block()` for the loop headed by `name`, and the jump check. */
    method PreheaderBlock(name: Name, out: seq<Block>, ghost st: RState, preheadIdx: Counter, blockId: Counter)
      returns (r: Result<seq<Block>>, ghost st1: RState)
      requires KeyedLoops(loops) && preheadIdx != blockId
      requires Views(out) == Shared(st) && Layered(st) && Tracks(st.invs) && SharesWith(out, st.owner)
      requires HeadsInvariants(st.invs, name)
      requires preheadIdx.value == st.prehead && blockId.value == st.blockId
      requires forall p, q :: 0 <= p < q < |out| ==> out[p] != out[q]
      modifies (set o | o in out), LoopSet(), preheadIdx, blockId
      ensures r.Err? <==> AddPreheader(st, name).Err?
      ensures r.Err? ==> r.error == AddPreheader(st, name).error
      ensures r.Ok? ==> && AddPreheader(st, name) == Ok(st1) && Views(r.value) == Shared(st1) && Flagged(st1)
                        && Tracks(st1.invs) && SharesWith(r.value, st1.owner)
                        && preheadIdx.value == st1.prehead && blockId.value == st1.blockId
                        && (forall p, q :: 0 <= p < q < |r.value| ==> r.value[p] != r.value[q])
                        && (forall o :: o in r.value ==> o in out || fresh(o))
    {
      var pb := NewPreheader(name, out, st, preheadIdx, blockId);
      ghost var l := PreheadName(st.prehead);
      ghost var t := st.invs[name := pb.instrs];
      ghost var owner := st.owner[|st.out| := name];
      ghost var idx := preheadIdx.value;
      ghost var id := blockId.value;
      ghost var v := Shared(st.(invs := t));
      assert out == [] || out[|out| - 1] in out;
      r := AttachBlock(out, pb.name.value, pb, v, t, owner);
      assert preheadIdx.value == idx && blockId.value == id;
      SharedPreheader(st, name);
      ghost var a := Attach(v, l, OutBlock(Some(l), pb.instrs));
      if r.Ok? {
        AddPreheaderShape(st, name);
        st1 := AddPreheader(st, name).value;
        assert st1.invs == t && st1.owner == owner && st1.prehead == idx && st1.blockId == id;
        assert Views(r.value) == a.value == Shared(st1);
      } else {
        st1 := st;
        assert r.error == a.error;
      }
    }

    /** `loop.create_preheader_block()` for the loop headed by `name`. */
    method NewPreheader(name: Name, out: seq<Block>, ghost st: RState, preheadIdx: Counter, blockId: Counter) returns (pb: Block)
      requires KeyedLoops(loops) && preheadIdx != blockId
      requires Views(out) == Shared(st) && Tracks(st.invs) && SharesWith(out, st.owner)
      requires HeadsInvariants(st.invs, name) && preheadIdx.value == st.prehead
      requires forall p, q :: 0 <= p < q < |out| ==> out[p] != out[q]
      modifies (set o | o in out), LoopSet(), preheadIdx, blockId
      ensures var l := PreheadName(st.prehead);
              var t := st.invs[name := pb.instrs];
              && fresh(pb) && pb.name == Some(l) && pb.instrs == [LabelInstr(l)] + st.invs[name]
              && Views(out) == Shared(st.(invs := t)) && Tracks(t)
              && SharesWith(out + [pb], st.owner[|st.out| := name])
              && preheadIdx.value == st.prehead + 1 && blockId.value == old(blockId.value)
    {
      KeyIn(name);
      var loop := Get(loops, name);
      ghost var j :| 0 <= j < |loops| && loops[j] == (name, loop);
      forall i | 0 <= i < |loops| && i != j
        ensures loops[i].1 != loop && loops[i].0 != name
      {
      }
      pb := Relist(loop, name, out, st, preheadIdx, blockId);
      ghost var t := st.invs[name := pb.instrs];
      ghost var owner := st.owner[|st.out| := name];
      assert t.Keys == st.invs.Keys;
      forall i | 0 <= i < |loops|
        ensures loops[i].0 in t && t[loops[i].0] == loops[i].1.invariants
        ensures loops[i].1.preheaders == OwnedBlocks(out + [pb], owner, loops[i].0)
      {
        var (h, lp) := loops[i];
        OwnedBlocksFrame(out, st.owner, |out|, name, h);
        OwnedBlocksAppend(out, owner, h, pb);
        if i == j {
          assert lp == loop && h == name;
        } else {
          assert lp.invariants == old(lp.invariants) && lp.preheaders == old(lp.preheaders);
        }
      }
    }

    /**
     * `create_preheader_block()` on `loop`, headed by `name`: the loop's
     * list gains the preheader's label, and every block that list is shared
     * with, the earlier preheaders built for `name`, shows it.
     */
    static method Relist(loop: Loop, name: Name, out: seq<Block>, ghost st: RState, preheadIdx: Counter, blockId: Counter)
      returns (pb: Block)
      requires preheadIdx != blockId && Views(out) == Shared(st)
      requires HeadsInvariants(st.invs, name) && loop.invariants == st.invs[name] && preheadIdx.value == st.prehead
      requires loop.preheaders == OwnedBlocks(out, st.owner, name)
      requires forall p, q :: 0 <= p < q < |out| ==> out[p] != out[q]
      modifies loop`invariants, loop`preheaders, (set o | o in out)`instrs, preheadIdx`value, blockId
      ensures var l := PreheadName(st.prehead);
              && fresh(pb) && pb.name == Some(l) && pb.instrs == [LabelInstr(l)] + st.invs[name]
              && loop.invariants == pb.instrs && loop.preheaders == old(loop.preheaders) + [pb]
              && Views(out) == Shared(st.(invs := st.invs[name := pb.instrs]))
              && preheadIdx.value == st.prehead + 1 && blockId.value == old(blockId.value)
    {
      ghost var v := Views(out);
      OwnedBlocksIn(out, st.owner, name);
      pb := loop.CreatePreheaderBlock(preheadIdx, blockId);
      forall k | 0 <= k < |out|
        ensures Views(out)[k] == if k in st.owner && st.owner[k] == name then v[k].(instrs := pb.instrs) else v[k]
      {
        if !(k in st.owner && st.owner[k] == name) {
          assert out[k] !in old(loop.preheaders);
        }
      }
      SharedRelist(st, name, pb.instrs, Views(out));
    }

    /** The jump check on the last output block, then `blocks.append(preheader_block)`. */
    method AttachBlock(out: seq<Block>, l: string, pb: Block, ghost v: seq<OutBlock>, ghost t: map<Name, seq<Instr>>, ghost owner: map<nat, Name>)
      returns (r: Result<seq<Block>>)
      requires Views(out) == v && pb !in out && Tracks(t) && SharesWith(out + [pb], owner)
      requires forall p, q :: 0 <= p < q < |out| ==> out[p] != out[q]
      modifies (if out == [] then {} else {out[|out| - 1]})`instrs
      ensures var e := Attach(v, l, OutBlock(pb.name, pb.instrs));
              && (r.Err? <==> e.Err?)
              && (r.Err? ==> r.error == e.error)
              && (r.Ok? ==> Views(r.value) == e.value && r.value == out + [pb])
      ensures r.Ok? ==> forall p, q :: 0 <= p < q < |r.value| ==> r.value[p] != r.value[q]
      ensures r.Ok? ==> forall o :: o in r.value ==> o in out || o == pb
      ensures Tracks(t) && SharesWith(out + [pb], owner)
    {
      if out == [] {
        return Err(IndexError);
      }
      var m := |out| - 1;
      var err := RetargetBlock(out[m], l);
      if err.Some? {
        return Err(err.value);
      }
      assert Views(out) == v[m := Retarget(v[m], l).value];
      r := Ok(out + [pb]);
    }

    /**
     * What marking every loop did, seen from after the rewrite: the loop
     * blocks went through the states `snaps` and each loop's list grew to
     * `invs` under its header name, as `Marked` says, and the block loop read
     * the input blocks `ins`, as `ReadThen` says.
     */
    twostate predicate MarkedThen(new invs: map<Name, seq<Instr>>, new marks: seq<(seq<seq<Instr>>, seq<seq<Instr>>)>,
                                  new snaps: seq<map<Block, seq<Instr>>>, new ins: seq<(Name, seq<Instr>)>)
    {
      LoopsThen(invs, marks, snaps) && ReadThen(invs, snaps, ins)
    }

    /** The loops' side of `MarkedThen`. */
    twostate predicate LoopsThen(new invs: map<Name, seq<Instr>>, new marks: seq<(seq<seq<Instr>>, seq<seq<Instr>>)>,
                                 new snaps: seq<map<Block, seq<Instr>>>)
    {
      && |marks| == |loops|
      && MarkChain(snaps, BlockLists(), marks) && snaps[0] == old(Snapshot())
      && (forall i :: 0 <= i < |loops| ==>
            loops[i].0 in invs && LoopMarked(old(loops[i].1.invariants), old(loops[i].1.Body()), invs[loops[i].0], marks[i]))
      && (loops != [] ==> marks[0].0 == old(loops[0].1.Body()))
      && MarkedBlocks(old(Snapshot()), snaps[|loops|])
    }

    /**
     * The inputs' side of `MarkedThen`: `ins` holds the loop blocks as the
     * last state `snaps` holds them, the other blocks as they were, and it
     * is the input unchanged when no loop found an invariant.
     */
    twostate predicate ReadThen(new invs: map<Name, seq<Instr>>, new snaps: seq<map<Block, seq<Instr>>>,
                                new ins: seq<(Name, seq<Instr>)>)
    {
      && |snaps| == |loops| + 1
      && ins == Reread(old(Inputs()), blocks, snaps[|loops|])
      && MarkedInputs(old(Inputs()), ins)
      && (NoInvariants(invs) ==> snaps[|loops|] == old(Snapshot()) && ins == old(Inputs()))
    }

    /** Right after marking, `LoopsThen` holds of the lists as they are. */
    twostate lemma LoopsNow(noInv: bool, new marks: seq<(seq<seq<Instr>>, seq<seq<Instr>>)>,
                            new snaps: seq<map<Block, seq<Instr>>>)
      requires KeyedLoops(loops) && Marked(noInv, marks, snaps)
      ensures noInv <==> NoInvariants(Invs())
      ensures LoopsThen(Invs(), marks, snaps)
    {
      InvsTracks();
    }

    /** Right after marking, `ReadThen` holds of the snapshot and the inputs as they are. */
    twostate lemma ReadNow(noInv: bool, new marks: seq<(seq<seq<Instr>>, seq<seq<Instr>>)>,
                           new snaps: seq<map<Block, seq<Instr>>>)
      requires forall b :: b in blocks && b !in LoopBlocks() ==> b.instrs == old(b.instrs)
      requires Marked(noInv, marks, snaps)
      ensures ReadThen(Invs(), snaps, Inputs())
    {
      InputsMarked();
      InputsReread();
    }

    /** Input blocks outside the loops are untouched, so the inputs are the old ones with the loop blocks read anew. */
    twostate lemma InputsReread()
      requires forall b :: b in blocks && b !in LoopBlocks() ==> b.instrs == old(b.instrs)
      ensures Inputs() == Reread(old(Inputs()), blocks, Snapshot())
    {
      var ins, r := Inputs(), Reread(old(Inputs()), blocks, Snapshot());
      forall k | 0 <= k < |blocks|
        ensures ins[k] == r[k]
      {
        if blocks[k] in Snapshot() {
          assert Snapshot()[blocks[k]] == blocks[k].instrs;
        }
      }
      SameAt(ins, r);
    }

    /**
     * `execute_pass()`: with no loops, or no invariants once every loop is
     * marked, the blocks are returned as they are; otherwise the result is
     * the block loop's output over the marked input blocks `ins`, started
     * from the loops' marked invariant lists `invs` and the two counters.
     * `MarkedThen` says what marking did (`marks` holds each loop's body
     * before and after its marking, `snaps` the loop blocks after each
     * loop). The input blocks share their instructions with the refined
     * blocks, so on success they end as `Synced` says, and in any case only
     * the labels of retargeted jumps changed.
     */
    method ExecutePass(preheadIdx: Counter, blockId: Counter)
      returns (r: Result<seq<Block>>, ghost invs: map<Name, seq<Instr>>, ghost marks: seq<(seq<seq<Instr>>, seq<seq<Instr>>)>,
               ghost snaps: seq<map<Block, seq<Instr>>>, ghost ins: seq<(Name, seq<Instr>)>)
      requires DistinctLoops(loops) && preheadIdx != blockId
      requires DistinctBlocks()
      requires forall i :: 0 <= i < |loops| ==> loops[i].1.preheaders == []
      modifies LoopSet(), LoopBlocks(), preheadIdx, blockId, set b | b in blocks
      ensures loops == [] ==> r == Ok(blocks) && Invs() == old(Invs())
      ensures MarkedThen(invs, marks, snaps, ins)
      ensures NoInvariants(invs) ==> r == Ok(blocks) && Snapshot() == old(Snapshot()) && Inputs() == old(Inputs())
      ensures loops != [] && NoInvariants(invs) ==> Invs() == invs
      ensures !NoInvariants(invs) ==>
                var e := RewriteFrom(Start(invs, old(preheadIdx.value), old(blockId.value)), ins);
                && Follows(r, e)
                && (r.Ok? ==> && Invs() == e.value.invs && preheadIdx.value == e.value.prehead && blockId.value == e.value.blockId
                              && |e.value.out| == |e.value.pre| && Inputs() == Synced(ins, Refined(e.value.out, e.value.pre)))
                && Retargeted(ins, Inputs())
    {
      if |loops| == 0 {
        snaps, ins := [Snapshot()], Inputs();
        return Ok(blocks), Invs(), [], snaps, ins;
      }
      var noInv;
      noInv, invs, marks, snaps, ins := MarkInputs();
      if noInv {
        return Ok(blocks), invs, marks, snaps, ins;
      }
      r := Rewrite(invs, preheadIdx, blockId);
    }

    /**
     * The marking loop of `execute_pass()`, seen from the input blocks: what
     * `MarkAll` did, as `MarkedThen` states it of the lists `invs` and the
     * input blocks `ins` it leaves behind.
     */
    method MarkInputs() returns (noInv: bool, ghost invs: map<Name, seq<Instr>>,
                                 ghost marks: seq<(seq<seq<Instr>>, seq<seq<Instr>>)>,
                                 ghost snaps: seq<map<Block, seq<Instr>>>, ghost ins: seq<(Name, seq<Instr>)>)
      requires DistinctLoops(loops)
      modifies LoopSet()`invariants, LoopBlocks()
      ensures forall i :: 0 <= i < |loops| ==> loops[i].1.preheaders == old(loops[i].1.preheaders)
      ensures MarkedThen(invs, marks, snaps, ins)
      ensures (noInv <==> NoInvariants(invs)) && invs == Invs() && ins == Inputs() && Tracks(invs)
      ensures noInv ==> Snapshot() == old(Snapshot()) && Inputs() == old(Inputs())
    {
      noInv, marks, snaps := MarkAll();
      MarkedNow(noInv, marks, snaps);
      invs, ins := Invs(), Inputs();
    }

    /** Right after marking, `MarkedThen` holds of the lists, the snapshot and the inputs as they are. */
    twostate lemma MarkedNow(noInv: bool, new marks: seq<(seq<seq<Instr>>, seq<seq<Instr>>)>,
                             new snaps: seq<map<Block, seq<Instr>>>)
      requires KeyedLoops(loops)
      requires forall b :: b in blocks && b !in LoopBlocks() ==> b.instrs == old(b.instrs)
      requires Marked(noInv, marks, snaps)
      ensures MarkedThen(Invs(), marks, snaps, Inputs())
      ensures (noInv <==> NoInvariants(Invs())) && Tracks(Invs())
      ensures noInv ==> Snapshot() == old(Snapshot()) && Inputs() == old(Inputs())
    {
      LoopsNow(noInv, marks, snaps);
      ReadNow(noInv, marks, snaps);
      InvsTracks();
    }

    /** Input blocks outside the loops are untouched, so the inputs change as the loop blocks do. */
    twostate lemma InputsMarked()
      requires forall b :: b in blocks && b !in LoopBlocks() ==> b.instrs == old(b.instrs)
      requires MarkedBlocks(old(Snapshot()), Snapshot())
      ensures MarkedInputs(old(Inputs()), Inputs())
      ensures Snapshot() == old(Snapshot()) ==> Inputs() == old(Inputs())
    {
      forall k | 0 <= k < |blocks|
        ensures Remarked([old(blocks[k].instrs)], [blocks[k].instrs])
        ensures Snapshot() == old(Snapshot()) ==> blocks[k].instrs == old(blocks[k].instrs)
      {
        var b := blocks[k];
        if b in LoopBlocks() {
          assert old(Snapshot())[b] == old(b.instrs) && Snapshot()[b] == b.instrs;
        }
      }
    }

    /**
     * The block loop's invariant: `out` holds the output `st` describes,
     * each preheader sharing its loop's list, and the counters are `st`'s.
     */
    ghost predicate Emitting(out: seq<Block>, st: RState, preheadIdx: Counter, blockId: Counter)
      reads LoopSet(), (set o | o in out), preheadIdx, blockId
    {
      && Views(out) == Shared(st) && Layered(st) && Tracks(st.invs) && SharesWith(out, st.owner)
      && preheadIdx.value == st.prehead && blockId.value == st.blockId
      && (forall p, q :: 0 <= p < q < |out| ==> out[p] != out[q])
    }

    /** One iteration of the block loop, on the `i`-th input block, whose name and instructions are `ins[i]`. */
    method RewriteBlock(i: nat, out: seq<Block>, ghost ins: seq<(Name, seq<Instr>)>, ghost invs: map<Name, seq<Instr>>,
                        ghost p0: nat, ghost b0: nat, ghost st: RState, preheadIdx: Counter, blockId: Counter)
      returns (res: Result<seq<Block>>, ghost st2: RState)
      requires KeyedLoops(loops) && preheadIdx != blockId && i < |blocks| == |ins|
      requires blocks[i].name == ins[i].0 && blocks[i].instrs == ins[i].1
      requires RewriteFrom(Start(invs, p0, b0), ins[..i]) == Ok(st)
      requires Emitting(out, st, preheadIdx, blockId)
      requires forall k :: 0 <= k < |blocks| ==> blocks[k] !in out
      modifies (set o | o in out), LoopSet(), preheadIdx, blockId
      ensures Inputs() == old(Inputs())
      ensures res.Err? ==> RewriteFrom(Start(invs, p0, b0), ins) == Err(res.error)
      ensures res.Ok? ==> && RewriteFrom(Start(invs, p0, b0), ins[..i + 1]) == Ok(st2)
                          && Emit(st, ins[i].0, ins[i].1) == Ok(st2)
                          && Emitting(res.value, st2, preheadIdx, blockId)
                          && (forall o :: o in res.value ==> o in out || fresh(o))
    {
      res, st2 := EmitBlock(blocks[i].name, blocks[i].instrs, out, st, preheadIdx, blockId);
      assert forall k :: 0 <= k < |blocks| ==> blocks[k].instrs == old(blocks[k].instrs);
      RewriteAt(Start(invs, p0, b0), ins, i, st);
    }

    /**
     * `Block(refined_block)` keeps the input block's own instructions, so a
     * jump retargeted in output block `n`, refined from input block `k`, is
     * retargeted in input block `k` as well; nothing else changes.
     */
    method ShareBack(k: nat, n: nat, out: seq<Block>, ghost st: RState, preheadIdx: Counter, blockId: Counter)
      requires k < |blocks| && DistinctBlocks() && n < |out| && blocks[k] !in out
      requires Emitting(out, st, preheadIdx, blockId)
      modifies {blocks[k]}`instrs
      ensures Emitting(out, st, preheadIdx, blockId)
      ensures Inputs() == old(Inputs())[k := (old(Inputs())[k].0, Reinsert(old(blocks[k].instrs), out[n].instrs))]
    {
      blocks[k].instrs := Reinsert(blocks[k].instrs, out[n].instrs);
      assert forall j :: 0 <= j < |blocks| && j != k ==> blocks[j].instrs == old(blocks[j].instrs);
    }

    /**
     * One whole iteration of the block loop: the `i`-th input block is
     * refined, and the retarget, if any, shows in input block `i - 1` too.
     */
    method RewriteStep(i: nat, out: seq<Block>, ghost ins: seq<(Name, seq<Instr>)>, ghost invs: map<Name, seq<Instr>>,
                       ghost p0: nat, ghost b0: nat, ghost st: RState, preheadIdx: Counter, blockId: Counter)
      returns (res: Result<seq<Block>>, ghost st2: RState)
      requires KeyedLoops(loops) && preheadIdx != blockId && i < |blocks| == |ins| && DistinctBlocks()
      requires RewriteFrom(Start(invs, p0, b0), ins[..i]) == Ok(st)
      requires Emitting(out, st, preheadIdx, blockId)
      requires Inputs() == Synced(ins, Refined(st.out, st.pre))
      requires forall k :: 0 <= k < |blocks| ==> blocks[k] !in out
      modifies (set o | o in out), LoopSet(), preheadIdx, blockId, set b | b in blocks
      ensures res.Err? ==> Inputs() == old(Inputs()) && RewriteFrom(Start(invs, p0, b0), ins) == Err(res.error)
      ensures res.Ok? ==> && RewriteFrom(Start(invs, p0, b0), ins[..i + 1]) == Ok(st2)
                          && Emitting(res.value, st2, preheadIdx, blockId)
                          && Inputs() == Synced(ins, Refined(st2.out, st2.pre))
                          && (forall o :: o in res.value ==> o in out || fresh(o))
    {
      RewriteSynced(invs, p0, b0, ins, i, st);
      assert Inputs()[i] == ins[i];
      res, st2 := RewriteBlock(i, out, ins, invs, p0, b0, st, preheadIdx, blockId);
      if res.Ok? {
        Resync(i, |out|, res.value, ins, invs, p0, b0, st, st2, preheadIdx, blockId);
      }
    }

    /** The input blocks after iteration `i` of the block loop, which emitted `out` and took the state from `st` to `st2`. */
    method Resync(i: nat, n: nat, out: seq<Block>, ghost ins: seq<(Name, seq<Instr>)>, ghost invs: map<Name, seq<Instr>>,
                  ghost p0: nat, ghost b0: nat, ghost st: RState, ghost st2: RState, preheadIdx: Counter, blockId: Counter)
      requires i < |blocks| == |ins| && DistinctBlocks()
      requires RewriteFrom(Start(invs, p0, b0), ins[..i]) == Ok(st) && Emit(st, ins[i].0, ins[i].1) == Ok(st2)
      requires n == |st.out| && Emitting(out, st2, preheadIdx, blockId)
      requires forall k :: 0 <= k < |blocks| ==> blocks[k] !in out
      requires Inputs() == Synced(ins, Refined(st.out, st.pre))
      modifies set b | b in blocks
      ensures Emitting(out, st2, preheadIdx, blockId)
      ensures Inputs() == Synced(ins, Refined(st2.out, st2.pre))
    {
      SyncedStep(invs, p0, b0, ins, i, st, st2);
      if 0 < i {
        assert Views(out)[n - 1] == Shared(st2)[n - 1] == st2.out[n - 1];
        ShareBack(i - 1, n - 1, out, st2, preheadIdx, blockId);
      }
    }

    /**
     * The block loop of `execute_pass()`, once some loop has invariants. The
     * input blocks end as the refined blocks left them, since they share
     * their instructions.
     */
    method Rewrite(ghost invs: map<Name, seq<Instr>>, preheadIdx: Counter, blockId: Counter) returns (r: Result<seq<Block>>)
      requires KeyedLoops(loops) && preheadIdx != blockId && Tracks(invs)
      requires DistinctBlocks()
      requires forall i :: 0 <= i < |loops| ==> loops[i].1.preheaders == []
      modifies LoopSet(), preheadIdx, blockId, set b | b in blocks
      ensures var e := RewriteFrom(Start(invs, old(preheadIdx.value), old(blockId.value)), old(Inputs()));
              && Follows(r, e)
              && (r.Ok? ==> && Invs() == e.value.invs && preheadIdx.value == e.value.prehead && blockId.value == e.value.blockId
                            && |e.value.out| == |e.value.pre| && Inputs() == Synced(old(Inputs()), Refined(e.value.out, e.value.pre)))
              && Retargeted(old(Inputs()), Inputs())
    {
      ghost var ins := Inputs();
      ghost var p0, b0 := preheadIdx.value, blockId.value;
      ghost var st := Start(invs, p0, b0);
      var out: seq<Block> := [];
      var i := 0;
      while i < |blocks|
        invariant i <= |blocks|
        invariant RewriteFrom(Start(invs, p0, b0), ins[..i]) == Ok(st)
        invariant Emitting(out, st, preheadIdx, blockId)
        invariant Inputs() == Synced(ins, Refined(st.out, st.pre))
        invariant forall o :: o in out ==> fresh(o)
      {
        var res;
        ghost var st2;
        assert forall k :: 0 <= k < |blocks| ==> blocks[k] !in out;
        res, st2 := RewriteStep(i, out, ins, invs, p0, b0, st, preheadIdx, blockId);
        if res.Err? {
          RewriteSynced(invs, p0, b0, ins, i, st);
          return Err(res.error);
        }
        out := res.value;
        st := st2;
        i := i + 1;
        assert RewriteFrom(Start(invs, p0, b0), ins[..i]) == Ok(st);
      }
      assert ins[..i] == ins;
      RewriteSynced(invs, p0, b0, ins, i, st);
      TracksInvs(st.invs);
      r := Ok(out);
    }
  }
}
