/**
 * lib/Loop.py: a natural loop given by its blocks, the marking of its
 * loop-invariant instructions, and the preheader block that collects them.
 * Marking sets the `invariant` flag of an instruction inside the loop's
 * blocks, which the blocks share with the function's block list.
 */
module Loops {
  import opened Wrappers
  import opened Bril
  import opened Blocks

  /** `get_all_definitions(v)` on a flat instruction list: one `(v, instr)` pair per definition of `v`, in order. */
  function DefsOf(all: seq<Instr>, v: string): seq<(string, Instr)>
  {
    if all == [] then []
    else
      var last := all[|all| - 1];
      DefsOf(all[..|all| - 1], v) + (if last.dest == Some(v) then [(v, last)] else [])
  }

  lemma DefsOfAppend(all: seq<Instr>, x: Instr, v: string)
    ensures DefsOf(all + [x], v) == DefsOf(all, v) + (if x.dest == Some(v) then [(v, x)] else [])
  {
    assert (all + [x])[..|all|] == all;
  }

  /** One more instruction of the current block extends the definitions found so far. */
  lemma DefsOfNext(prefix: seq<Instr>, instrs: seq<Instr>, j: nat, v: string)
    requires j < |instrs|
    ensures DefsOf(prefix + instrs[..j + 1], v) ==
            DefsOf(prefix + instrs[..j], v) + (if instrs[j].dest == Some(v) then [(v, instrs[j])] else [])
  {
    assert prefix + instrs[..j + 1] == (prefix + instrs[..j]) + [instrs[j]];
    DefsOfAppend(prefix + instrs[..j], instrs[j], v);
  }

  /** One more block extends the flattened prefix by its instructions. */
  lemma FlattenNext(body: seq<seq<Instr>>, i: nat)
    requires i < |body|
    ensures Flatten(body[..i + 1]) == Flatten(body[..i]) + body[i]
  {
    assert body[..i + 1] == body[..i] + [body[i]];
    FlattenAppend(body[..i], body[i]);
  }

  /** The definitions found are exactly the instructions writing `v`, in order. */
  lemma {:induction false} DefsOfSpec(all: seq<Instr>, v: string)
    ensures |DefsOf(all, v)| <= |all|
    ensures forall p :: p in DefsOf(all, v) <==> p.0 == v && p.1 in all && p.1.dest == Some(v)
  {
    if all != [] {
      var init := all[..|all| - 1];
      DefsOfSpec(init, v);
      assert all == init + [all[|all| - 1]];
    }
  }

  /** A loop argument is safe: no definition in the loop, or a single one that is marked. */
  predicate ArgInvariant(all: seq<Instr>, a: string)
  {
    var defs := DefsOf(all, a);
    |defs| == 0 || (|defs| == 1 && defs[0].1.isInvariant)
  }

  /** `is_loop_invariant(instr)` against the loop's current instructions. */
  predicate InvariantIn(all: seq<Instr>, instr: Instr)
  {
    forall a :: a in ArgsOf(instr) ==> ArgInvariant(all, a)
  }

  /**
   * An argument is safe exactly when no two loop instructions define it and
   * every loop instruction that defines it is marked.
   */
  lemma ArgInvariantIff(all: seq<Instr>, a: string)
    ensures ArgInvariant(all, a) <==>
      (forall i, j :: 0 <= i < j < |all| && all[i].dest == Some(a) ==> all[j].dest != Some(a)) &&
      (forall k :: 0 <= k < |all| && all[k].dest == Some(a) ==> all[k].isInvariant)
  {
    DefsOfSpec(all, a);
    var defs := DefsOf(all, a);
    if exists i, j :: 0 <= i < j < |all| && all[i].dest == Some(a) && all[j].dest == Some(a) {
      var i, j :| 0 <= i < j < |all| && all[i].dest == Some(a) && all[j].dest == Some(a);
      TwoDefs(all, a, i, j);
    } else {
      if |defs| >= 2 {
        DefsDistinctPositions(all, a);
      }
      forall k | 0 <= k < |all| && all[k].dest == Some(a)
        ensures |defs| == 1 && all[k] == defs[0].1
      {
        assert (a, all[k]) in defs;
      }
      if |defs| == 1 {
        assert defs[0] in defs;
      }
    }
  }

  /** Two definitions at different positions give two entries. */
  lemma {:induction false} TwoDefs(all: seq<Instr>, a: string, i: nat, j: nat)
    requires i < j < |all| && all[i].dest == Some(a) && all[j].dest == Some(a)
    ensures |DefsOf(all, a)| >= 2
  {
    var init := all[..|all| - 1];
    if j < |all| - 1 {
      TwoDefs(init, a, i, j);
    } else {
      DefsOfSpec(init, a);
      assert (a, init[i]) in DefsOf(init, a);
    }
  }

  /** Two entries come from two different positions. */
  lemma {:induction false} DefsDistinctPositions(all: seq<Instr>, a: string)
    requires |DefsOf(all, a)| >= 2
    ensures exists i, j :: 0 <= i < j < |all| && all[i].dest == Some(a) && all[j].dest == Some(a)
  {
    var init := all[..|all| - 1];
    var last := all[|all| - 1];
    if |DefsOf(init, a)| >= 2 {
      DefsDistinctPositions(init, a);
      var i, j :| 0 <= i < j < |init| && init[i].dest == Some(a) && init[j].dest == Some(a);
      assert all[i] == init[i] && all[j] == init[j];
    } else {
      DefsOfSpec(init, a);
      assert DefsOf(init, a) != [];
      var p := DefsOf(init, a)[0];
      assert p in DefsOf(init, a);
      var i :| 0 <= i < |init| && init[i] == p.1;
      assert all[i] == init[i];
    }
  }

  /** An instruction `mark_invariants` may still mark: unmarked, with `dest` and `args`. */
  predicate Candidate(instr: Instr)
  {
    !instr.isInvariant && instr.dest.Some? && instr.args.Some?
  }

  /**
   * `after` is `before` with some candidates marked: the same shape, and every
   * instruction is unchanged or is a candidate with its flag now set.
   */
  ghost predicate Remarked(before: seq<seq<Instr>>, after: seq<seq<Instr>>)
  {
    && |after| == |before|
    && (forall i :: 0 <= i < |before| ==> |after[i]| == |before[i]|)
    && (forall i, j :: 0 <= i < |before| && 0 <= j < |before[i]| ==>
          after[i][j] == before[i][j] || (Candidate(before[i][j]) && after[i][j] == before[i][j].(isInvariant := true)))
  }

  lemma RemarkedTrans(a: seq<seq<Instr>>, b: seq<seq<Instr>>, c: seq<seq<Instr>>)
    requires Remarked(a, b) && Remarked(b, c)
    ensures Remarked(a, c)
  {
  }

  /** Bodies that are marked row by row are marked as a whole. */
  lemma RemarkedRows(a: seq<seq<Instr>>, b: seq<seq<Instr>>)
    requires |a| == |b| && forall k :: 0 <= k < |a| ==> Remarked([a[k]], [b[k]])
    ensures Remarked(a, b)
  {
    forall i | 0 <= i < |a|
      ensures |b[i]| == |a[i]|
      ensures forall j :: 0 <= j < |a[i]| ==>
                b[i][j] == a[i][j] || (Candidate(a[i][j]) && b[i][j] == a[i][j].(isInvariant := true))
    {
      assert Remarked([a[i]], [b[i]]);
      assert [a[i]][0] == a[i] && [b[i]][0] == b[i];
    }
  }

  /** One row of a marked body is a marked block. */
  lemma RemarkedRow(a: seq<seq<Instr>>, b: seq<seq<Instr>>, k: nat)
    requires Remarked(a, b) && k < |a|
    ensures Remarked([a[k]], [b[k]])
  {
  }

  /** The number of unmarked instructions in one block. */
  function UnmarkedOf(s: seq<Instr>): nat
  {
    if s == [] then 0 else UnmarkedOf(s[..|s| - 1]) + (if s[|s| - 1].isInvariant then 0 else 1)
  }

  /** The number of unmarked instructions in all blocks. */
  function Unmarked(body: seq<seq<Instr>>): nat
  {
    if body == [] then 0 else Unmarked(body[..|body| - 1]) + UnmarkedOf(body[|body| - 1])
  }

  /** Marking candidates never raises the unmarked count. */
  lemma {:induction false} UnmarkedOfMono(before: seq<Instr>, after: seq<Instr>)
    requires |after| == |before|
    requires forall j :: 0 <= j < |before| ==>
      after[j] == before[j] || (Candidate(before[j]) && after[j] == before[j].(isInvariant := true))
    ensures UnmarkedOf(after) <= UnmarkedOf(before)
    ensures after != before ==> UnmarkedOf(after) < UnmarkedOf(before)
  {
    if before != [] {
      var n := |before| - 1;
      UnmarkedOfMono(before[..n], after[..n]);
      if after[..n] == before[..n] && after != before {
        assert after == after[..n] + [after[n]] && before == before[..n] + [before[n]];
      }
    }
  }

  /** Marking candidates lowers the unmarked count, strictly when anything changed. */
  lemma {:induction false} UnmarkedMono(before: seq<seq<Instr>>, after: seq<seq<Instr>>)
    requires Remarked(before, after)
    ensures Unmarked(after) <= Unmarked(before)
    ensures after != before ==> Unmarked(after) < Unmarked(before)
  {
    if before != [] {
      var n := |before| - 1;
      var bn, an := before[..n], after[..n];
      assert Remarked(bn, an) by {
        forall i | 0 <= i < n
          ensures bn[i] == before[i] && an[i] == after[i]
        {
        }
      }
      UnmarkedMono(bn, an);
      UnmarkedOfMono(before[n], after[n]);
      assert Unmarked(before) == Unmarked(bn) + UnmarkedOf(before[n]);
      assert Unmarked(after) == Unmarked(an) + UnmarkedOf(after[n]);
      if an == bn && after != before {
        assert after == an + [after[n]] && before == bn + [before[n]];
      }
    }
  }

  /** The instructions newly appended to the invariant list: marked, with `dest` and `args`. */
  predicate AllMarked(added: seq<Instr>)
  {
    forall k :: 0 <= k < |added| ==> added[k].isInvariant && added[k].dest.Some? && added[k].args.Some?
  }

  /** `instr["invariant"] = True` on instruction `j` of block `i`. */
  function MarkAt(body: seq<seq<Instr>>, i: nat, j: nat): seq<seq<Instr>>
    requires i < |body| && j < |body[i]|
  {
    body[i := body[i][j := body[i][j].(isInvariant := true)]]
  }

  /**
   * Marks the positions of `trace` one after the other, starting from `body`.
   * Each mark must hit a candidate that is invariant against the instructions
   * as they are at that moment, with the earlier marks already set. The
   * result is the body reached and the marked instructions in marking order,
   * or None when some mark is not allowed.
   */
  ghost function Replay(body: seq<seq<Instr>>, trace: seq<(nat, nat)>): Option<(seq<seq<Instr>>, seq<Instr>)>
  {
    if trace == [] then Some((body, []))
    else
      var prev := Replay(body, trace[..|trace| - 1]);
      var (i, j) := trace[|trace| - 1];
      if prev.None? then None
      else
        var (cur, log) := prev.value;
        if i < |cur| && j < |cur[i]| && Candidate(cur[i][j]) && InvariantIn(Flatten(cur), cur[i][j])
        then Some((MarkAt(cur, i, j), log + [cur[i][j].(isInvariant := true)]))
        else None
  }

  /**
   * `after` and the appended instructions `added` come from marking, one at
   * a time and in the order of `added`, instructions that were invariant at
   * the moment they were marked.
   */
  ghost predicate MarkedInOrder(before: seq<seq<Instr>>, after: seq<seq<Instr>>, added: seq<Instr>)
  {
    exists trace :: Replay(before, trace) == Some((after, added))
  }

  /** One more allowed mark extends a replay. */
  lemma ReplayStep(body: seq<seq<Instr>>, trace: seq<(nat, nat)>, cur: seq<seq<Instr>>, log: seq<Instr>, i: nat, j: nat)
    requires Replay(body, trace) == Some((cur, log))
    requires i < |cur| && j < |cur[i]| && Candidate(cur[i][j]) && InvariantIn(Flatten(cur), cur[i][j])
    ensures Replay(body, trace + [(i, j)]) == Some((MarkAt(cur, i, j), log + [cur[i][j].(isInvariant := true)]))
  {
    assert (trace + [(i, j)])[..|trace|] == trace;
  }

  /** Two replays in a row are one replay of the joined traces. */
  lemma {:induction false} ReplayAppend(a: seq<seq<Instr>>, t1: seq<(nat, nat)>, t2: seq<(nat, nat)>,
                                        b: seq<seq<Instr>>, l1: seq<Instr>, c: seq<seq<Instr>>, l2: seq<Instr>)
    requires Replay(a, t1) == Some((b, l1)) && Replay(b, t2) == Some((c, l2))
    ensures Replay(a, t1 + t2) == Some((c, l1 + l2))
    decreases |t2|
  {
    if t2 == [] {
      assert t1 + t2 == t1 && l1 + l2 == l1;
    } else {
      var t2' := t2[..|t2| - 1];
      var (i, j) := t2[|t2| - 1];
      var (cur, log) := Replay(b, t2').value;
      ReplayAppend(a, t1, t2', b, l1, cur, log);
      ReplayStep(a, t1 + t2', cur, l1 + log, i, j);
      assert t1 + t2 == (t1 + t2') + [(i, j)];
      assert l1 + l2 == (l1 + log) + [cur[i][j].(isInvariant := true)];
    }
  }

  /** A replay logs one instruction per mark. */
  lemma {:induction false} ReplayLength(body: seq<seq<Instr>>, trace: seq<(nat, nat)>)
    requires Replay(body, trace).Some?
    ensures |Replay(body, trace).value.1| == |trace|
  {
    if trace != [] {
      ReplayLength(body, trace[..|trace| - 1]);
    }
  }

  /** A replay that logs nothing marks nothing: the body is as it was. */
  lemma MarkedNothing(before: seq<seq<Instr>>, after: seq<seq<Instr>>)
    requires MarkedInOrder(before, after, [])
    ensures after == before
  {
    var trace :| Replay(before, trace) == Some((after, []));
    ReplayLength(before, trace);
  }

  /**
   * `x = id x` alone in a loop is never marked: its argument has one
   * definition, itself, which is not marked yet.
   */
  lemma SelfReadNeverMarked()
    ensures var x := Instr(Some("id"), Some("x"), Some(["x"]), None, None, None, false);
            var m := x.(isInvariant := true);
            !MarkedInOrder([[x]], [[m]], [m])
  {
    var x := Instr(Some("id"), Some("x"), Some(["x"]), None, None, None, false);
    var m := x.(isInvariant := true);
    assert Flatten([[x]]) == [x] by {
      assert [[x]][..0] == [];
    }
    assert DefsOf([x], "x") == [("x", x)] by {
      assert [x][..0] == [];
    }
    assert "x" in ArgsOf(x) && !ArgInvariant([x], "x");
    forall t | true
      ensures Replay([[x]], t) != Some(([[m]], [m]))
    {
      if |t| == 1 {
        assert t[..0] == [];
        assert Replay([[x]], t[..0]) == Some(([[x]], []));
        var (i, j) := t[0];
        if i < 1 && j < 1 {
          assert [[x]][i][j] == x;
        }
        assert Replay([[x]], t) == None;
      } else if Replay([[x]], t).Some? {
        ReplayLength([[x]], t);
      }
    }
  }

  /**
   * The state reached from `before`/`inv0`: candidates were marked (and only
   * they), one at a time, each invariant when it was marked, and the
   * invariant list grew by exactly those instructions in marking order.
   */
  ghost predicate Progress(before: seq<seq<Instr>>, after: seq<seq<Instr>>, inv0: seq<Instr>, inv: seq<Instr>)
  {
    && Remarked(before, after)
    && |inv0| <= |inv| && inv[..|inv0|] == inv0
    && AllMarked(inv[|inv0|..])
    && MarkedInOrder(before, after, inv[|inv0|..])
    && Unmarked(after) <= Unmarked(before)
    && |inv| - |inv0| == Unmarked(before) - Unmarked(after)
  }

  lemma ProgressRefl(body: seq<seq<Instr>>, inv: seq<Instr>)
    ensures Progress(body, body, inv, inv)
  {
    assert inv[|inv|..] == [];
    assert Replay(body, []) == Some((body, []));
  }

  lemma ProgressTrans(a: seq<seq<Instr>>, b: seq<seq<Instr>>, c: seq<seq<Instr>>, ia: seq<Instr>, ib: seq<Instr>, ic: seq<Instr>)
    requires Progress(a, b, ia, ib) && Progress(b, c, ib, ic)
    ensures Progress(a, c, ia, ic)
  {
    RemarkedTrans(a, b, c);
    assert ic[|ia|..] == ib[|ia|..] + ic[|ib|..];
    var t1 :| Replay(a, t1) == Some((b, ib[|ia|..]));
    var t2 :| Replay(b, t2) == Some((c, ic[|ib|..]));
    ReplayAppend(a, t1, t2, b, ib[|ia|..], c, ic[|ib|..]);
  }

  /** Marking one invariant candidate costs one unmarked instruction and logs it once, last. */
  lemma ProgressMark(start: seq<seq<Instr>>, cur: seq<seq<Instr>>, inv0: seq<Instr>, inv: seq<Instr>, i: nat, j: nat)
    requires Progress(start, cur, inv0, inv)
    requires i < |cur| && j < |cur[i]| && Candidate(cur[i][j]) && InvariantIn(Flatten(cur), cur[i][j])
    ensures var m := cur[i][j].(isInvariant := true);
            Progress(start, MarkAt(cur, i, j), inv0, inv + [m]) && MarkAt(cur, i, j) != start
  {
    var m := cur[i][j].(isInvariant := true);
    var next := MarkAt(cur, i, j);
    UnmarkedUpdate(cur, i, j, m);
    assert (inv + [m])[|inv0|..] == inv[|inv0|..] + [m];
    assert next[i][j] != start[i][j];
    var t :| Replay(start, t) == Some((cur, inv[|inv0|..]));
    ReplayStep(start, t, cur, inv[|inv0|..], i, j);
  }

  /** Marking one invariant candidate is progress. */
  lemma ProgressMarkOnce(body: seq<seq<Instr>>, inv: seq<Instr>, i: nat, j: nat)
    requires i < |body| && j < |body[i]| && Candidate(body[i][j]) && InvariantIn(Flatten(body), body[i][j])
    ensures var m := body[i][j].(isInvariant := true);
            Progress(body, MarkAt(body, i, j), inv, inv + [m]) && MarkAt(body, i, j) != body
  {
    ProgressRefl(body, inv);
    ProgressMark(body, body, inv, inv, i, j);
  }

  lemma {:induction false} UnmarkedOfUpdate(s: seq<Instr>, j: nat, m: Instr)
    requires j < |s| && !s[j].isInvariant && m.isInvariant
    ensures UnmarkedOf(s[j := m]) + 1 == UnmarkedOf(s)
  {
    var n := |s| - 1;
    var t := s[j := m];
    if j < n {
      UnmarkedOfUpdate(s[..n], j, m);
      assert t[..n] == s[..n][j := m];
    } else {
      assert t[..n] == s[..n];
    }
  }

  lemma {:induction false} UnmarkedUpdate(body: seq<seq<Instr>>, i: nat, j: nat, m: Instr)
    requires i < |body| && j < |body[i]| && !body[i][j].isInvariant && m.isInvariant
    ensures Unmarked(body[i := body[i][j := m]]) + 1 == Unmarked(body)
  {
    var n := |body| - 1;
    var t := body[i := body[i][j := m]];
    if i < n {
      UnmarkedUpdate(body[..n], i, j, m);
      assert t[..n] == body[..n][i := body[i][j := m]];
    } else {
      assert t[..n] == body[..n];
      UnmarkedOfUpdate(body[i], j, m);
    }
  }

  /** No candidate is invariant against the instructions any more. */
  ghost predicate Fixpoint(body: seq<seq<Instr>>)
  {
    forall i, j :: 0 <= i < |body| && 0 <= j < |body[i]| && Candidate(body[i][j]) ==>
      !InvariantIn(Flatten(body), body[i][j])
  }

  /** No candidate in the first `n` blocks is invariant. */
  ghost predicate FixpointBefore(body: seq<seq<Instr>>, n: nat)
  {
    forall i, j :: 0 <= i < n && i < |body| && 0 <= j < |body[i]| && Candidate(body[i][j]) ==>
      !InvariantIn(Flatten(body), body[i][j])
  }

  /** The preheader's label: `"prehead{}".format(n)`. */
  function PreheadName(n: nat): (s: string)
    ensures |s| > 7 && s[..7] == "prehead"
  {
    "prehead" + NatToString(n)
  }

  /** Different counter values give different preheader names. */
  lemma PreheadNamesDiffer(m: nat, n: nat)
    requires m != n
    ensures PreheadName(m) != PreheadName(n)
  {
    NatToStringInjective(m, n);
    assert PreheadName(m)[7..] == NatToString(m);
    assert PreheadName(n)[7..] == NatToString(n);
  }

  class Loop {
    const blocks: seq<Block>
    var invariants: seq<Instr>
    /**
     * The preheader blocks built from `invariants`. `Block(invariants)` keeps
     * the list object itself, so each of them shows every later change to it.
     */
    var preheaders: seq<Block>

    constructor (blocks: seq<Block>)
      ensures this.blocks == blocks && invariants == [] && preheaders == []
    {
      this.blocks := blocks;
      invariants := [];
      preheaders := [];
    }

    /** The instruction lists of the loop's blocks, as they are now. */
    function Body(): (body: seq<seq<Instr>>)
      reads set b | b in blocks
      ensures |body| == |blocks| && forall i :: 0 <= i < |blocks| ==> body[i] == blocks[i].instrs
    {
      seq(|blocks|, i requires 0 <= i < |blocks| reads set b | b in blocks => blocks[i].instrs)
    }

    /** All instructions of the loop, in block-then-instruction order. */
    function AllInstrs(): seq<Instr>
      reads set b | b in blocks
    {
      Flatten(Body())
    }

    /** `get_all_definitions(var_name)`, with its nested loops. */
    method GetAllDefinitions(v: string) returns (definitions: seq<(string, Instr)>)
      ensures definitions == DefsOf(AllInstrs(), v)
    {
      definitions := [];
      ghost var body := Body();
      var i := 0;
      while i < |blocks|
        invariant i <= |blocks|
        invariant definitions == DefsOf(Flatten(body[..i]), v)
      {
        var instrs := blocks[i].instrs;
        ghost var prefix := Flatten(body[..i]);
        assert prefix + instrs[..0] == prefix;
        var j := 0;
        while j < |instrs|
          invariant j <= |instrs|
          invariant definitions == DefsOf(prefix + instrs[..j], v)
        {
          DefsOfNext(prefix, instrs, j, v);
          if instrs[j].dest == Some(v) {
            definitions := definitions + [(v, instrs[j])];
          }
          j := j + 1;
        }
        assert instrs[..j] == instrs && instrs == body[i];
        FlattenNext(body, i);
        i := i + 1;
      }
      assert body[..i] == body;
    }

    /** `is_loop_invariant(instr)`; Python raises `KeyError` on an instruction without `args`. */
    method IsLoopInvariant(instr: Instr) returns (b: bool)
      requires instr.args.Some?
      ensures b == InvariantIn(AllInstrs(), instr)
    {
      var args := instr.args.value;
      ghost var all := AllInstrs();
      var k := 0;
      while k < |args|
        invariant k <= |args|
        invariant forall j :: 0 <= j < k ==> ArgInvariant(all, args[j])
      {
        var matching := GetAllDefinitions(args[k]);
        if |matching| == 1 {
          if !matching[0].1.isInvariant {
            assert !ArgInvariant(all, args[k]) && args[k] in ArgsOf(instr);
            return false;
          }
        } else if |matching| > 1 {
          assert !ArgInvariant(all, args[k]) && args[k] in ArgsOf(instr);
          return false;
        }
        k := k + 1;
      }
      forall a | a in ArgsOf(instr)
        ensures ArgInvariant(all, a)
      {
        var j :| 0 <= j < |args| && args[j] == a;
      }
      return true;
    }

    /** `has_invariants()` */
    predicate HasInvariants()
      reads this
    {
      |invariants| > 0
    }

    /** Blocks each marked since the earlier state make a body marked since then. */
    twostate lemma RemarkedSince()
      requires forall b :: b in blocks ==> Remarked([old(b.instrs)], [b.instrs])
      ensures Remarked(old(Body()), Body())
    {
      forall k | 0 <= k < |blocks|
        ensures Remarked([old(Body())[k]], [Body()[k]])
      {
        assert blocks[k] in blocks;
      }
      RemarkedRows(old(Body()), Body());
    }

    /** The loop's blocks are distinct objects. */
    ghost predicate Distinct()
    {
      forall i, j :: 0 <= i < j < |blocks| ==> blocks[i] != blocks[j]
    }

    /**
     * `mark_invariants()`: repeat passes over the blocks until a pass marks
     * nothing. Each pass marks a candidate when it is invariant against the
     * instructions as they are at that moment. On return no candidate is
     * invariant any more, only candidates got marked, marks were never
     * removed, and the invariant list grew by exactly the marked
     * instructions, in marking order, each invariant when it was marked.
     */
    method MarkInvariants()
      requires Distinct()
      modifies set b | b in blocks, this`invariants
      ensures Progress(old(Body()), Body(), old(invariants), invariants)
      ensures |old(invariants)| <= |invariants| && invariants[..|old(invariants)|] == old(invariants)
      ensures MarkedInOrder(old(Body()), Body(), invariants[|old(invariants)|..])
      ensures Fixpoint(Body())
    {
      ghost var start := Body();
      ghost var inv0 := invariants;
      ProgressRefl(start, inv0);
      var changed := true;
      while changed
        invariant Progress(start, Body(), inv0, invariants)
        invariant !changed ==> Fixpoint(Body())
        decreases if changed then Unmarked(Body()) + 1 else 0
      {
        ghost var before := Body();
        ghost var invB := invariants;
        changed := MarkPass();
        ProgressTrans(start, before, Body(), inv0, invB, invariants);
        UnmarkedMono(before, Body());
      }
    }

    /**
     * One pass of the `while changed` loop over all blocks. It reports a
     * change exactly when it marked something; a pass that marks nothing
     * ends at a fixpoint.
     */
    method MarkPass() returns (changed: bool)
      requires Distinct()
      modifies set b | b in blocks, this`invariants
      ensures Progress(old(Body()), Body(), old(invariants), invariants)
      ensures changed <==> Body() != old(Body())
      ensures !changed ==> Fixpoint(Body())
    {
      ghost var start := Body();
      ghost var inv0 := invariants;
      ProgressRefl(start, inv0);
      changed := false;
      var i := 0;
      while i < |blocks|
        invariant i <= |blocks|
        invariant Progress(start, Body(), inv0, invariants)
        invariant changed <==> Body() != start
        invariant !changed ==> FixpointBefore(start, i)
      {
        ghost var before := Body();
        ghost var invB := invariants;
        var c := MarkBlock(i);
        ProgressTrans(start, before, Body(), inv0, invB, invariants);
        UnmarkedMono(before, Body());
        UnmarkedMono(start, before);
        changed := changed || c;
        i := i + 1;
      }
    }

    /** The inner `for instr in block.get_instr_list()` loop, on block `i`. */
    method MarkBlock(i: nat) returns (changed: bool)
      requires i < |blocks| && Distinct()
      modifies blocks[i], this`invariants
      ensures Progress(old(Body()), Body(), old(invariants), invariants)
      ensures changed <==> Body() != old(Body())
      ensures !changed ==> forall j :: 0 <= j < |Body()[i]| && Candidate(Body()[i][j]) ==>
                             !InvariantIn(Flatten(Body()), Body()[i][j])
    {
      var b := blocks[i];
      ghost var start := Body();
      ghost var inv0 := invariants;
      ProgressRefl(start, inv0);
      changed := false;
      var j := 0;
      while j < |b.instrs|
        invariant j <= |b.instrs| == |start[i]|
        invariant Progress(start, Body(), inv0, invariants)
        invariant changed <==> Body() != start
        invariant !changed ==> forall j' :: 0 <= j' < j && Candidate(start[i][j']) ==>
                                 !InvariantIn(Flatten(start), start[i][j'])
      {
        ghost var before := Body();
        ghost var invB := invariants;
        var marked := Visit(i, j);
        ProgressTrans(start, before, Body(), inv0, invB, invariants);
        UnmarkedMono(before, Body());
        UnmarkedMono(start, before);
        changed := changed || marked;
        j := j + 1;
      }
    }

    /** One instruction of the inner loop: skip marked ones, mark an invariant candidate. */
    method Visit(i: nat, j: nat) returns (marked: bool)
      requires i < |blocks| && j < |blocks[i].instrs| && Distinct()
      modifies blocks[i], this`invariants
      ensures Progress(old(Body()), Body(), old(invariants), invariants)
      ensures marked <==> Body() != old(Body())
      ensures marked ==> && Candidate(old(Body())[i][j]) && InvariantIn(Flatten(old(Body())), old(Body())[i][j])
                         && Body() == MarkAt(old(Body()), i, j) && invariants == old(invariants) + [Body()[i][j]]
      ensures !marked ==> Body() == old(Body()) && invariants == old(invariants)
      ensures !marked && Candidate(Body()[i][j]) ==> !InvariantIn(Flatten(Body()), Body()[i][j])
    {
      ghost var start := Body();
      var instr := blocks[i].instrs[j];
      marked := false;
      if !instr.isInvariant && instr.dest.Some? && instr.args.Some? {
        var inv := IsLoopInvariant(instr);
        if inv {
          ghost var invB := invariants;
          Mark(i, j);
          ghost var after := Body();
          invariants := invariants + [instr.(isInvariant := true)];
          assert Body() == after == MarkAt(start, i, j);
          ProgressMarkOnce(start, invB, i, j);
          marked := true;
        }
      }
      if !marked {
        assert Body() == start;
        ProgressRefl(start, invariants);
      }
    }

    /** `instr["invariant"] = True` on instruction `j` of block `i`. */
    method Mark(i: nat, j: nat)
      requires i < |blocks| && j < |blocks[i].instrs| && Distinct()
      modifies blocks[i]
      ensures Body() == MarkAt(old(Body()), i, j)
    {
      var b := blocks[i];
      b.instrs := b.instrs[j := b.instrs[j].(isInvariant := true)];
    }

    /**
     * `create_preheader_block()`: puts the label `prehead{N}` in front of the
     * invariant list (the list itself, which `has_invariants` and every
     * preheader block built from it earlier then see) and builds a block of
     * it, named by that label; `PREHEAD_IDX` goes up by one and
     * `Block.block_id` is left alone.
     */
    method CreatePreheaderBlock(preheadIdx: Counter, blockId: Counter) returns (b: Block)
      requires preheadIdx != blockId
      modifies this`invariants, this`preheaders, (set p | p in preheaders)`instrs, preheadIdx`value, blockId
      ensures invariants == [LabelInstr(PreheadName(old(preheadIdx.value)))] + old(invariants)
      ensures HasInvariants()
      ensures fresh(b) && b.instrs == invariants && b.name == Some(PreheadName(old(preheadIdx.value)))
      ensures preheaders == old(preheaders) + [b]
      ensures forall p :: p in old(preheaders) ==> p.instrs == invariants
      ensures preheadIdx.value == old(preheadIdx.value) + 1 && blockId.value == old(blockId.value)
    {
      var name := PreheadName(preheadIdx.value);
      invariants := [LabelInstr(name)] + invariants;
      preheadIdx.value := preheadIdx.value + 1;
      var earlier := preheaders;
      var k := 0;
      while k < |earlier|
        invariant k <= |earlier|
        invariant forall p :: p in earlier[..k] ==> p.instrs == invariants
        modifies (set p | p in earlier)`instrs
      {
        earlier[k].instrs := invariants;
        k := k + 1;
      }
      assert earlier[..k] == earlier;
      b := new Block(invariants, blockId);
      preheaders := preheaders + [b];
    }
  }
}
