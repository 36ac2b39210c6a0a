/**
 * L3/src/dce.py: dead-code elimination inside each block (`dce_pass`) and
 * across all blocks (`trivial_dce_pass`).
 *
 * `dce_pass` keeps a block's instructions in a dict from original position to
 * instruction (`Entries` here, in position order) and scans it repeatedly:
 * one scan collects the positions to delete, they are popped, and the scans
 * stop after one that deletes nothing.
 */
module Dce {
  import opened Wrappers
  import opened Bril
  import opened Blocks

  /** `dict(zip(range(len(block)), block))`, after some pops: position and instruction, in position order. */
  type Entries = seq<(nat, Instr)>

  function Indexed(block: seq<Instr>): Entries
  {
    seq(|block|, i requires 0 <= i < |block| => (i, block[i]))
  }

  /** `list(instructions.values())` */
  function Instrs(es: Entries): seq<Instr>
  {
    seq(|es|, i requires 0 <= i < |es| => es[i].1)
  }

  /** The positions of the entries, in order. */
  function Positions(es: Entries): seq<nat>
  {
    seq(|es|, i requires 0 <= i < |es| => es[i].0)
  }

  predicate Ascending(es: Entries)
  {
    forall i, j :: 0 <= i < j < |es| ==> es[i].0 < es[j].0
  }

  // ------------------------------------------------------------ one scan

  /** The first definition of `v` at or after `from`, or `|es|` when there is none. */
  function NextDef(es: Entries, from: nat, v: string): (q: nat)
    requires from <= |es|
    ensures from <= q <= |es|
    ensures q < |es| ==> es[q].1.dest == Some(v)
    ensures forall k :: from <= k < q ==> es[k].1.dest != Some(v)
    decreases |es| - from
  {
    if from == |es| then |es|
    else if es[from].1.dest == Some(v) then from
    else NextDef(es, from + 1, v)
  }

  /** The last definition of `v` among the first `n` entries, or -1 when there is none. */
  function LastDef(es: Entries, n: nat, v: string): (p: int)
    requires n <= |es|
    ensures -1 <= p < n
    ensures p >= 0 ==> es[p].1.dest == Some(v)
    ensures forall k :: p < k < n ==> es[k].1.dest != Some(v)
  {
    if n == 0 then -1
    else if es[n - 1].1.dest == Some(v) then n - 1
    else LastDef(es, n - 1, v)
  }

  /** `v` is an argument of one of the first `n` entries. */
  predicate ReadBefore(es: Entries, n: nat, v: string)
    requires n <= |es|
  {
    n > 0 && (ReadBefore(es, n - 1, v) || v in ArgsOf(es[n - 1].1))
  }

  /**
   * The entry at `p` is deleted by one scan: it defines some `v`, and `v` is
   * not read up to and including the next definition of `v` (the scan marks
   * an instruction's args before it looks at its dest) or, when there is no
   * next definition, anywhere in the block. `used[v]` is never reset, so a
   * read anywhere before counts, even one before `p`.
   */
  predicate Dead(es: Entries, p: nat)
    requires p < |es|
  {
    && es[p].1.dest.Some?
    && var v := es[p].1.dest.value;
       var q := NextDef(es, p + 1, v);
       !ReadBefore(es, if q < |es| then q + 1 else |es|, v)
  }

  /** The dict keys one scan puts into `delete`. */
  function DeadKeys(es: Entries): set<nat>
  {
    set p | 0 <= p < |es| && Dead(es, p) :: es[p].0
  }

  /** The entries whose key is not in `ks`, in order. */
  function Without(es: Entries, ks: set<nat>): (r: Entries)
    ensures |r| <= |es|
  {
    if es == [] then []
    else
      var last := es[|es| - 1];
      Without(es[..|es| - 1], ks) + (if last.0 in ks then [] else [last])
  }

  lemma {:induction false} WithoutMembers(es: Entries, ks: set<nat>)
    ensures forall e :: e in Without(es, ks) <==> e in es && e.0 !in ks
    decreases |es|
  {
    if es != [] {
      var front := es[..|es| - 1];
      WithoutMembers(front, ks);
      assert es == front + [es[|es| - 1]];
    }
  }

  lemma {:induction false} WithoutAscending(es: Entries, ks: set<nat>)
    requires Ascending(es)
    ensures Ascending(Without(es, ks))
    decreases |es|
  {
    if es != [] {
      var front := es[..|es| - 1];
      WithoutAscending(front, ks);
      WithoutMembers(front, ks);
      forall e | e in Without(front, ks)
        ensures e.0 < es[|es| - 1].0
      {
        var i :| 0 <= i < |front| && front[i] == e;
        assert es[i] == e;
      }
    }
  }

  lemma {:induction false} WithoutShrinks(es: Entries, ks: set<nat>, p: nat)
    requires p < |es| && es[p].0 in ks
    ensures |Without(es, ks)| < |es|
    decreases |es|
  {
    var front := es[..|es| - 1];
    if p < |es| - 1 {
      assert front[p] == es[p];
      WithoutShrinks(front, ks, p);
    }
  }

  lemma {:induction false} WithoutNothing(es: Entries, ks: set<nat>)
    requires forall i :: 0 <= i < |es| ==> es[i].0 !in ks
    ensures Without(es, ks) == es
    decreases |es|
  {
    if es != [] {
      var front := es[..|es| - 1];
      WithoutNothing(front, ks);
      assert es == front + [es[|es| - 1]];
    }
  }

  /** Popping one more key from the filtered dict filters by one more key. */
  lemma {:induction false} WithoutMore(es: Entries, ks: set<nat>, k: nat)
    ensures Without(Without(es, ks), {k}) == Without(es, ks + {k})
    decreases |es|
  {
    if es != [] {
      var front := es[..|es| - 1];
      var last := es[|es| - 1];
      WithoutMore(front, ks, k);
      var w := Without(front, ks);
      if last.0 in ks {
        assert Without(es, ks) == w;
        assert Without(es, ks + {k}) == Without(front, ks + {k});
      } else {
        var w' := w + [last];
        assert Without(es, ks) == w';
        assert w'[..|w'| - 1] == w && w'[|w'| - 1] == last;
        assert Without(w', {k}) == Without(w, {k}) + (if last.0 == k then [] else [last]);
        assert Without(es, ks + {k}) == Without(front, ks + {k}) + (if last.0 == k then [] else [last]);
      }
    }
  }

  /** A dead entry has a `dest`, and a dead position appears once among the keys. */
  lemma DeadKeysIn(es: Entries, p: nat)
    requires Ascending(es) && p < |es|
    ensures es[p].0 in DeadKeys(es) <==> Dead(es, p)
  {
    if es[p].0 in DeadKeys(es) {
      var q :| 0 <= q < |es| && Dead(es, q) && es[q].0 == es[p].0;
      assert q == p;
    }
  }

  /** The marking loop over one instruction's args: `used[arg] = True`. */
  method MarkUsed(used: map<string, bool>, args: seq<string>) returns (used': map<string, bool>)
    ensures forall v :: v in used' <==> v in used || v in args
    ensures forall v :: v in used' ==> (used'[v] <==> v in args || used[v])
  {
    used' := used;
    var j := 0;
    while j < |args|
      invariant j <= |args|
      invariant forall v :: v in used' <==> v in used || v in args[..j]
      invariant forall v :: v in used' ==> (used'[v] <==> v in args[..j] || used[v])
    {
      assert args[..j + 1] == args[..j] + [args[j]];
      used' := used'[args[j] := true];
      j := j + 1;
    }
    assert args[..j] == args;
  }

  /** What the scan has delete-listed after the first `i` entries, by the redefinition rule. */
  ghost predicate RedefDone(es: Entries, i: nat, p: nat)
    requires p < |es|
  {
    Dead(es, p) && NextDef(es, p + 1, es[p].1.dest.value) < i
  }

  /** The last definition before a redefinition has that redefinition as its next one. */
  lemma LastNext(es: Entries, i: nat, v: string)
    requires i < |es| && es[i].1.dest == Some(v) && LastDef(es, i, v) >= 0
    ensures NextDef(es, LastDef(es, i, v) + 1, v) == i
  {
  }

  lemma ReadStep(es: Entries, i: nat, v: string)
    requires i < |es|
    ensures ReadBefore(es, i + 1, v) <==> ReadBefore(es, i, v) || v in ArgsOf(es[i].1)
  {
  }

  /** `used` after the first `i` entries: read names are `True`, names only defined are `False`. */
  ghost predicate UsedAfter(es: Entries, i: nat, used: map<string, bool>)
    requires i <= |es|
  {
    && (forall v :: v in used <==> ReadBefore(es, i, v) || LastDef(es, i, v) >= 0)
    && (forall v :: v in used ==> (used[v] <==> ReadBefore(es, i, v)))
  }

  /** `last_seen` after the first `i` entries: the key of each name's last definition. */
  ghost predicate SeenAfter(es: Entries, i: nat, lastSeen: map<string, nat>)
    requires i <= |es|
  {
    && (forall v :: v in lastSeen <==> LastDef(es, i, v) >= 0)
    && (forall v :: v in lastSeen ==> LastDef(es, i, v) >= 0 && lastSeen[v] == es[LastDef(es, i, v)].0)
  }

  /** `delete` after the first `i` entries: the keys of `dpos`, the positions the redefinition rule has reached. */
  ghost predicate DeletedAfter(es: Entries, i: nat, delete: seq<nat>, dpos: seq<nat>)
  {
    && |dpos| == |delete|
    && (forall j :: 0 <= j < |dpos| ==> dpos[j] < |es| && delete[j] == es[dpos[j]].0 && RedefDone(es, i, dpos[j]))
    && (forall p :: 0 <= p < |es| && RedefDone(es, i, p) ==> p in dpos)
    && (forall a, b :: 0 <= a < b < |dpos| ==> dpos[a] != dpos[b])
  }

  lemma LastDefStep(es: Entries, i: nat, v: string)
    requires i < |es|
    ensures LastDef(es, i + 1, v) == if es[i].1.dest == Some(v) then i else LastDef(es, i, v)
  {
  }

  /** The redefinition rule reaches `p` at the entry `i` exactly when `i` is the next definition after `p`. */
  lemma RedefStep(es: Entries, i: nat, p: nat)
    requires i < |es| && p < |es|
    ensures RedefDone(es, i + 1, p) <==>
              RedefDone(es, i, p) || (Dead(es, p) && NextDef(es, p + 1, es[p].1.dest.value) == i)
  {
  }

  /** `used` after the args of entry `i` are marked and before its dest is looked at. */
  method MarkArgs(es: Entries, i: nat, used: map<string, bool>) returns (used': map<string, bool>)
    requires i < |es| && UsedAfter(es, i, used)
    ensures forall v :: v in used' <==> ReadBefore(es, i + 1, v) || LastDef(es, i, v) >= 0
    ensures forall v :: v in used' ==> (used'[v] <==> ReadBefore(es, i + 1, v))
  {
    used' := used;
    if es[i].1.args.Some? {
      used' := MarkUsed(used, es[i].1.args.value);
    }
    forall v
      ensures v in used' <==> ReadBefore(es, i + 1, v) || LastDef(es, i, v) >= 0
      ensures v in used' ==> (used'[v] <==> ReadBefore(es, i + 1, v))
    {
      ReadStep(es, i, v);
    }
  }

  /** One entry of the first loop of a scan. */
  method ScanEntry(es: Entries, i: nat, used: map<string, bool>, lastSeen: map<string, nat>,
                   delete: seq<nat>, ghost dpos: seq<nat>)
    returns (used': map<string, bool>, lastSeen': map<string, nat>, delete': seq<nat>, ghost dpos': seq<nat>)
    requires i < |es| && UsedAfter(es, i, used) && SeenAfter(es, i, lastSeen) && DeletedAfter(es, i, delete, dpos)
    ensures UsedAfter(es, i + 1, used') && SeenAfter(es, i + 1, lastSeen') && DeletedAfter(es, i + 1, delete', dpos')
  {
    var marked := MarkArgs(es, i, used);
    used' := marked;
    lastSeen' := lastSeen;
    delete', dpos' := delete, dpos;
    if es[i].1.dest.Some? {
      var v := es[i].1.dest.value;
      var del := v in lastSeen && !marked[v];
      assert del <==> LastDef(es, i, v) >= 0 && !ReadBefore(es, i + 1, v);
      if del {
        delete', dpos' := delete + [lastSeen[v]], dpos + [LastDef(es, i, v)];
      }
      if v !in marked {
        used' := marked[v := false];
      }
      lastSeen' := lastSeen[v := es[i].0];
      UsedAtDef(es, i, v, marked, used');
      SeenAtDef(es, i, v, lastSeen, lastSeen');
      RedefAt(es, i, v, del, delete, dpos, delete', dpos');
    } else {
      UsedNoDef(es, i, marked);
      SeenNoDef(es, i, lastSeen);
      RedefNoDef(es, i, delete, dpos);
    }
  }

  lemma RedefNoDef(es: Entries, i: nat, delete: seq<nat>, dpos: seq<nat>)
    requires i < |es| && es[i].1.dest.None? && DeletedAfter(es, i, delete, dpos)
    ensures DeletedAfter(es, i + 1, delete, dpos)
  {
    forall p | 0 <= p < |es|
      ensures RedefDone(es, i + 1, p) <==> RedefDone(es, i, p)
    {
      RedefStep(es, i, p);
    }
  }

  lemma UsedAtDef(es: Entries, i: nat, v: string, marked: map<string, bool>, used: map<string, bool>)
    requires i < |es| && es[i].1.dest == Some(v)
    requires forall x :: x in marked <==> ReadBefore(es, i + 1, x) || LastDef(es, i, x) >= 0
    requires forall x :: x in marked ==> (marked[x] <==> ReadBefore(es, i + 1, x))
    requires used == if v in marked then marked else marked[v := false]
    ensures UsedAfter(es, i + 1, used)
  {
    forall x
      ensures x in used <==> ReadBefore(es, i + 1, x) || LastDef(es, i + 1, x) >= 0
      ensures x in used ==> (used[x] <==> ReadBefore(es, i + 1, x))
    {
      LastDefStep(es, i, x);
    }
  }

  lemma UsedNoDef(es: Entries, i: nat, marked: map<string, bool>)
    requires i < |es| && es[i].1.dest.None?
    requires forall x :: x in marked <==> ReadBefore(es, i + 1, x) || LastDef(es, i, x) >= 0
    requires forall x :: x in marked ==> (marked[x] <==> ReadBefore(es, i + 1, x))
    ensures UsedAfter(es, i + 1, marked)
  {
    forall x
      ensures x in marked <==> ReadBefore(es, i + 1, x) || LastDef(es, i + 1, x) >= 0
    {
      LastDefStep(es, i, x);
    }
  }

  lemma SeenAtDef(es: Entries, i: nat, v: string, lastSeen: map<string, nat>, lastSeen': map<string, nat>)
    requires i < |es| && es[i].1.dest == Some(v) && SeenAfter(es, i, lastSeen)
    requires lastSeen' == lastSeen[v := es[i].0]
    ensures SeenAfter(es, i + 1, lastSeen')
  {
    forall x
      ensures x in lastSeen' <==> LastDef(es, i + 1, x) >= 0
      ensures x in lastSeen' ==> LastDef(es, i + 1, x) >= 0 && lastSeen'[x] == es[LastDef(es, i + 1, x)].0
    {
      LastDefStep(es, i, x);
    }
  }

  lemma SeenNoDef(es: Entries, i: nat, lastSeen: map<string, nat>)
    requires i < |es| && es[i].1.dest.None? && SeenAfter(es, i, lastSeen)
    ensures SeenAfter(es, i + 1, lastSeen)
  {
    forall x
      ensures LastDef(es, i + 1, x) == LastDef(es, i, x)
    {
      LastDefStep(es, i, x);
    }
  }

  /** At a definition of `v`, the redefinition rule reaches exactly the previous definition of `v`, if it is dead. */
  lemma RedefAtStep(es: Entries, i: nat, v: string, del: bool, p: nat)
    requires i < |es| && es[i].1.dest == Some(v) && p < |es|
    requires del <==> LastDef(es, i, v) >= 0 && !ReadBefore(es, i + 1, v)
    ensures RedefDone(es, i + 1, p) <==> RedefDone(es, i, p) || (del && p == LastDef(es, i, v))
    ensures del && p == LastDef(es, i, v) ==> !RedefDone(es, i, p)
  {
    RedefStep(es, i, p);
    var last := LastDef(es, i, v);
    if last >= 0 {
      LastNext(es, i, v);
      assert del <==> Dead(es, last);
    }
    if Dead(es, p) && NextDef(es, p + 1, es[p].1.dest.value) == i {
      assert es[p].1.dest == Some(v);
      assert p == last;
    }
  }

  /** The delete list after a definition of `v` at entry `i`. */
  lemma RedefAt(es: Entries, i: nat, v: string, del: bool, delete: seq<nat>, dpos: seq<nat>,
                delete': seq<nat>, dpos': seq<nat>)
    requires i < |es| && es[i].1.dest == Some(v) && DeletedAfter(es, i, delete, dpos)
    requires del <==> LastDef(es, i, v) >= 0 && !ReadBefore(es, i + 1, v)
    requires del ==> delete' == delete + [es[LastDef(es, i, v)].0] && dpos' == dpos + [LastDef(es, i, v)]
    requires !del ==> delete' == delete && dpos' == dpos
    ensures DeletedAfter(es, i + 1, delete', dpos')
  {
    var last := LastDef(es, i, v);
    forall p | 0 <= p < |es|
      ensures RedefDone(es, i + 1, p) <==> RedefDone(es, i, p) || (del && p == last)
    {
      RedefAtStep(es, i, v, del, p);
    }
    forall j | 0 <= j < |dpos'|
      ensures dpos'[j] < |es| && delete'[j] == es[dpos'[j]].0 && RedefDone(es, i + 1, dpos'[j])
    {
    }
    forall p | 0 <= p < |es| && RedefDone(es, i + 1, p)
      ensures p in dpos'
    {
      if !RedefDone(es, i, p) {
        assert p == last;
      }
    }
    forall a, b | 0 <= a < b < |dpos'|
      ensures dpos'[a] != dpos'[b]
    {
      if b == |dpos| {
        assert RedefDone(es, i, dpos'[a]);
      }
    }
  }

  /**
   * `delete` during the loop over `used`: the redefinition rule's positions,
   * plus the last definitions of the names already visited that were never read.
   */
  ghost predicate Flushed(es: Entries, names: set<string>, delete: seq<nat>, dpos: seq<nat>)
  {
    FlushedListed(es, names, delete, dpos) && FlushedComplete(es, names, dpos) && FlushedOnce(dpos)
  }

  /** Each listed position is dead, listed with its key, and reached by a redefinition or its name visited. */
  ghost predicate FlushedListed(es: Entries, names: set<string>, delete: seq<nat>, dpos: seq<nat>)
  {
    && |dpos| == |delete|
    && (forall j :: 0 <= j < |dpos| ==> dpos[j] < |es| && delete[j] == es[dpos[j]].0 && Dead(es, dpos[j]))
    && (forall j :: 0 <= j < |dpos| ==> RedefDone(es, |es|, dpos[j]) || es[dpos[j]].1.dest.value !in names)
  }

  /** Every dead position reached by a redefinition or whose name was visited is listed. */
  ghost predicate FlushedComplete(es: Entries, names: set<string>, dpos: seq<nat>)
  {
    forall p :: 0 <= p < |es| && Dead(es, p) && (RedefDone(es, |es|, p) || es[p].1.dest.value !in names) ==> p in dpos
  }

  /** No position is listed twice. */
  ghost predicate FlushedOnce(dpos: seq<nat>)
  {
    forall a, b :: 0 <= a < b < |dpos| ==> dpos[a] != dpos[b]
  }

  /** One name of the loop over `used`: its last definition is deleted when the name was never read. */
  method FlushName(es: Entries, v: string, names: set<string>, used: map<string, bool>,
                   lastSeen: map<string, nat>, delete: seq<nat>, ghost dpos: seq<nat>)
    returns (delete': seq<nat>, ghost dpos': seq<nat>)
    requires v in names && names <= used.Keys
    requires UsedAfter(es, |es|, used) && SeenAfter(es, |es|, lastSeen) && Flushed(es, names, delete, dpos)
    ensures Flushed(es, names - {v}, delete', dpos')
  {
    ghost var last := LastDef(es, |es|, v);
    assert used[v] <==> ReadBefore(es, |es|, v);
    delete', dpos' := delete, dpos;
    if !used[v] {
      assert last >= 0 && lastSeen[v] == es[last].0;
      delete', dpos' := delete + [lastSeen[v]], dpos + [last];
      FlushLast(es, v);
      FlushAddListed(es, v, names, delete, dpos);
      FlushAddOnce(es, v, names, delete, dpos);
    } else {
      FlushKeepListed(es, v, names, delete, dpos);
    }
    FlushComplete(es, v, names, used[v], dpos, dpos');
  }

  /** A name that was read adds nothing, and the listed positions stay valid. */
  lemma FlushKeepListed(es: Entries, v: string, names: set<string>, delete: seq<nat>, dpos: seq<nat>)
    requires FlushedListed(es, names, delete, dpos)
    ensures FlushedListed(es, names - {v}, delete, dpos)
  {
  }

  /** The last definition of a name never read joins the list. */
  lemma FlushAddListed(es: Entries, v: string, names: set<string>, delete: seq<nat>, dpos: seq<nat>)
    requires FlushedListed(es, names, delete, dpos)
    requires LastDef(es, |es|, v) >= 0 && Dead(es, LastDef(es, |es|, v))
    ensures var last := LastDef(es, |es|, v);
            FlushedListed(es, names - {v}, delete + [es[last].0], dpos + [last])
  {
    var last := LastDef(es, |es|, v);
    var dpos', delete' := dpos + [last], delete + [es[last].0];
    forall j | 0 <= j < |dpos'|
      ensures dpos'[j] < |es| && delete'[j] == es[dpos'[j]].0 && Dead(es, dpos'[j])
      ensures RedefDone(es, |es|, dpos'[j]) || es[dpos'[j]].1.dest.value !in names - {v}
    {
    }
  }

  /** The last definition of a name not yet visited is not listed yet. */
  lemma FlushAddOnce(es: Entries, v: string, names: set<string>, delete: seq<nat>, dpos: seq<nat>)
    requires v in names && FlushedListed(es, names, delete, dpos) && FlushedOnce(dpos)
    requires LastDef(es, |es|, v) >= 0 && !RedefDone(es, |es|, LastDef(es, |es|, v))
    ensures FlushedOnce(dpos + [LastDef(es, |es|, v)])
  {
    var last := LastDef(es, |es|, v);
    forall j | 0 <= j < |dpos|
      ensures dpos[j] != last
    {
    }
  }

  /** After one name, every dead position reached or visited is listed. */
  lemma FlushComplete(es: Entries, v: string, names: set<string>, read: bool, dpos: seq<nat>, dpos': seq<nat>)
    requires FlushedComplete(es, names, dpos)
    requires read <==> ReadBefore(es, |es|, v)
    requires read ==> dpos' == dpos
    requires !read ==> dpos' == dpos + [LastDef(es, |es|, v)]
    ensures FlushedComplete(es, names - {v}, dpos')
  {
    forall p | 0 <= p < |es| && Dead(es, p) && (RedefDone(es, |es|, p) || es[p].1.dest.value !in names - {v})
      ensures p in dpos'
    {
      FlushAt(es, v, p);
    }
  }

  /** A dead definition the redefinition rule has not reached is the last definition of a name never read. */
  lemma FlushAt(es: Entries, v: string, p: nat)
    requires p < |es|
    ensures Dead(es, p) && !RedefDone(es, |es|, p) && es[p].1.dest == Some(v) ==>
              !ReadBefore(es, |es|, v) && p == LastDef(es, |es|, v)
  {
  }

  /** The last definition of a name never read is dead, and no redefinition reaches it. */
  lemma FlushLast(es: Entries, v: string)
    requires !ReadBefore(es, |es|, v) && LastDef(es, |es|, v) >= 0
    ensures Dead(es, LastDef(es, |es|, v)) && !RedefDone(es, |es|, LastDef(es, |es|, v))
  {
  }

  /** Before the loop over `used` every name is still to be visited. */
  lemma FlushStart(es: Entries, used: map<string, bool>, delete: seq<nat>, dpos: seq<nat>)
    requires UsedAfter(es, |es|, used) && DeletedAfter(es, |es|, delete, dpos)
    ensures Flushed(es, used.Keys, delete, dpos)
  {
    forall p | 0 <= p < |es| && Dead(es, p)
      ensures es[p].1.dest.value in used.Keys
    {
      assert LastDef(es, |es|, es[p].1.dest.value) >= p;
    }
  }

  /** After the loop over `used`, `delete` lists the keys of `DeadKeys`, each once. */
  lemma FlushEnd(es: Entries, delete: seq<nat>, dpos: seq<nat>)
    requires Ascending(es) && Flushed(es, {}, delete, dpos)
    ensures forall k :: k in delete <==> k in DeadKeys(es)
    ensures forall a, b :: 0 <= a < b < |delete| ==> delete[a] != delete[b]
  {
    forall k | k in DeadKeys(es)
      ensures k in delete
    {
      var p :| 0 <= p < |es| && Dead(es, p) && es[p].0 == k;
      var j :| 0 <= j < |dpos| && dpos[j] == p;
      assert delete[j] == k;
    }
    forall k | k in delete
      ensures k in DeadKeys(es)
    {
      var j :| 0 <= j < |delete| && delete[j] == k;
      assert Dead(es, dpos[j]);
    }
    forall a, b | 0 <= a < b < |delete|
      ensures delete[a] != delete[b]
    {
      assert dpos[a] != dpos[b];
      if dpos[a] < dpos[b] {
        assert es[dpos[a]].0 < es[dpos[b]].0;
      } else {
        assert es[dpos[b]].0 < es[dpos[a]].0;
      }
    }
  }

  /**
   * One scan of `dce_pass`: the first loop and the loop over `used`. The
   * positions in `delete` are those of `DeadKeys`, each once (so no pop can
   * fail). The loop over `used` visits the names in an arbitrary order here;
   * the order of `delete` does not change the result of the pops.
   */
  method Scan(es: Entries) returns (delete: seq<nat>)
    requires Ascending(es)
    ensures forall k :: k in delete <==> k in DeadKeys(es)
    ensures forall a, b :: 0 <= a < b < |delete| ==> delete[a] != delete[b]
  {
    var used, lastSeen, pending, dpos := ScanEntries(es);
    FlushStart(es, used, pending, dpos);
    ghost var dpos';
    delete, dpos' := FlushAll(es, used, lastSeen, pending, dpos);
    FlushEnd(es, delete, dpos');
  }

  /** The first loop of a scan: `used`, `last_seen` and `delete` after every entry. */
  method ScanEntries(es: Entries)
    returns (used: map<string, bool>, lastSeen: map<string, nat>, delete: seq<nat>, ghost dpos: seq<nat>)
    ensures UsedAfter(es, |es|, used) && SeenAfter(es, |es|, lastSeen) && DeletedAfter(es, |es|, delete, dpos)
  {
    used, lastSeen, delete, dpos := map[], map[], [], [];
    var i := 0;
    while i < |es|
      invariant i <= |es| && UsedAfter(es, i, used) && SeenAfter(es, i, lastSeen) && DeletedAfter(es, i, delete, dpos)
    {
      used, lastSeen, delete, dpos := ScanEntry(es, i, used, lastSeen, delete, dpos);
      i := i + 1;
    }
  }

  /** The loop over `used`: the last definition of each name never read is deleted too. */
  method FlushAll(es: Entries, used: map<string, bool>, lastSeen: map<string, nat>, pending: seq<nat>, ghost dpos: seq<nat>)
    returns (delete: seq<nat>, ghost dpos': seq<nat>)
    requires UsedAfter(es, |es|, used) && SeenAfter(es, |es|, lastSeen) && Flushed(es, used.Keys, pending, dpos)
    ensures Flushed(es, {}, delete, dpos')
  {
    delete, dpos' := pending, dpos;
    var names := used.Keys;
    while names != {}
      invariant names <= used.Keys && Flushed(es, names, delete, dpos')
      decreases |names|
    {
      var v :| v in names;
      delete, dpos' := FlushName(es, v, names, used, lastSeen, delete, dpos');
      names := names - {v};
    }
  }

  /** `for idx in delete: instructions.pop(idx)` */
  method PopAll(es: Entries, delete: seq<nat>) returns (r: Entries)
    requires forall a, b :: 0 <= a < b < |delete| ==> delete[a] != delete[b]
    ensures r == Without(es, Elems(delete))
  {
    r := es;
    var j := 0;
    WithoutNothing(es, {});
    assert Elems(delete[..0]) == {};
    while j < |delete|
      invariant j <= |delete|
      invariant r == Without(es, Elems(delete[..j]))
    {
      WithoutMore(es, Elems(delete[..j]), delete[j]);
      assert Elems(delete[..j + 1]) == Elems(delete[..j]) + {delete[j]} by {
        assert delete[..j + 1] == delete[..j] + [delete[j]];
      }
      r := Without(r, {delete[j]});
      j := j + 1;
    }
    assert delete[..j] == delete;
  }

  // ------------------------------------------------------------ the scans of a block

  /** The scans of one block, until one deletes nothing. */
  function Rounds(es: Entries): (r: Entries)
    requires Ascending(es)
    ensures Ascending(r)
    decreases |es|
  {
    if DeadKeys(es) == {} then es
    else
      ScanShrinks(es);
      Rounds(Without(es, DeadKeys(es)))
  }

  /** A scan that deletes something leaves fewer entries, still in position order. */
  lemma ScanShrinks(es: Entries)
    requires Ascending(es) && DeadKeys(es) != {}
    ensures |Without(es, DeadKeys(es))| < |es| && Ascending(Without(es, DeadKeys(es)))
  {
    var k :| k in DeadKeys(es);
    var p :| 0 <= p < |es| && Dead(es, p) && es[p].0 == k;
    WithoutShrinks(es, DeadKeys(es), p);
    WithoutAscending(es, DeadKeys(es));
  }

  /** `dce_pass` on one block: the instructions that survive every scan. */
  function Dce(block: seq<Instr>): seq<Instr>
  {
    Instrs(Rounds(Indexed(block)))
  }

  /** The positions of `block` whose instruction survives `dce_pass`. */
  function Survivors(block: seq<Instr>): seq<nat>
  {
    Positions(Rounds(Indexed(block)))
  }

  /**
   * `dce_pass` on one block: scans repeat while the last one deleted something
   * (`delete = [None]` before the first one); `block[:] = ...` after each.
   */
  method DceBlock(block: seq<Instr>) returns (r: seq<Instr>)
    ensures r == Dce(block)
  {
    var entries := Indexed(block);
    r := block;
    var more := true;
    while more
      invariant Ascending(entries) && Rounds(entries) == Rounds(Indexed(block)) && r == Instrs(entries)
      invariant !more ==> DeadKeys(entries) == {}
      decreases |entries| + (if more then 1 else 0)
    {
      var delete := Scan(entries);
      var ks := Elems(delete);
      assert ks == DeadKeys(entries);
      var next := PopAll(entries, delete);
      if delete != [] {
        assert delete[0] in ks;
        ScanShrinks(entries);
      } else {
        WithoutNothing(entries, ks);
      }
      entries := next;
      r := Instrs(entries);
      more := delete != [];
    }
  }

  /** `dce_pass(blocks)`: every block is replaced in place by its surviving instructions. */
  method DcePass(blocks: array<seq<Instr>>)
    modifies blocks
    ensures forall k :: 0 <= k < blocks.Length ==> blocks[k] == Dce(old(blocks[k]))
  {
    ghost var orig := blocks[..];
    var k := 0;
    while k < blocks.Length
      invariant k <= blocks.Length
      invariant forall j :: 0 <= j < k ==> blocks[j] == Dce(orig[j])
      invariant forall j :: k <= j < blocks.Length ==> blocks[j] == orig[j]
    {
      var b := DceBlock(blocks[k]);
      blocks[k] := b;
      k := k + 1;
    }
  }

  // ------------------------------------------------------------ properties of dce_pass

  /** Every entry that survives the scans was an entry before them. */
  lemma {:induction false} RoundsSubset(es: Entries)
    requires Ascending(es)
    ensures forall e :: e in Rounds(es) ==> e in es
    decreases |es|
  {
    var ks := DeadKeys(es);
    if ks != {} {
      ScanShrinks(es);
      WithoutMembers(es, ks);
      RoundsSubset(Without(es, ks));
    }
  }

  /** Entries without a `dest` survive the scans. */
  lemma {:induction false} RoundsKeepDestless(es: Entries, e: (nat, Instr))
    requires Ascending(es) && e in es && e.1.dest.None?
    ensures e in Rounds(es)
    decreases |es|
  {
    var ks := DeadKeys(es);
    if ks != {} {
      ScanShrinks(es);
      WithoutMembers(es, ks);
      var i :| 0 <= i < |es| && es[i] == e;
      DeadKeysIn(es, i);
      RoundsKeepDestless(Without(es, ks), e);
    }
  }

  /** After the last scan no entry is dead: one more scan would delete nothing. */
  lemma {:induction false} RoundsFixpoint(es: Entries)
    requires Ascending(es)
    ensures DeadKeys(Rounds(es)) == {}
    decreases |es|
  {
    var ks := DeadKeys(es);
    if ks != {} {
      ScanShrinks(es);
      RoundsFixpoint(Without(es, ks));
    }
  }

  /** `dce_pass` keeps a subsequence of the block: each survivor is the instruction at its position. */
  lemma DceSubsequence(block: seq<Instr>)
    ensures |Dce(block)| == |Survivors(block)|
    ensures forall i :: 0 <= i < |Survivors(block)| ==>
              Survivors(block)[i] < |block| && Dce(block)[i] == block[Survivors(block)[i]]
  {
    var es := Indexed(block);
    var r := Rounds(es);
    RoundsSubset(es);
    forall i | 0 <= i < |r|
      ensures r[i].0 < |block| && r[i].1 == block[r[i].0]
    {
      assert r[i] in es;
    }
  }

  /** `dce_pass` keeps the relative order of the instructions: survivors' positions strictly increase. */
  lemma DceKeepsOrder(block: seq<Instr>)
    ensures forall i, j :: 0 <= i < j < |Survivors(block)| ==> Survivors(block)[i] < Survivors(block)[j]
  {
    var r := Rounds(Indexed(block));
    assert Ascending(r);
  }

  /** `dce_pass` keeps every instruction without a `dest`. */
  lemma DceKeepsDestless(block: seq<Instr>, k: nat)
    requires k < |block| && block[k].dest.None?
    ensures k in Survivors(block)
  {
    var es := Indexed(block);
    var r := Rounds(es);
    assert es[k] in es;
    RoundsKeepDestless(es, es[k]);
    var i :| 0 <= i < |r| && r[i] == es[k];
    assert Survivors(block)[i] == k;
  }

  /**
   * The `used` flag is never reset: once `x` is read, a later overwritten
   * definition of `x` is kept, as is the last one.
   */
  lemma ReadOnceKeepsLaterDefinitions(c: Instr, p: Instr, x: string)
    requires c.dest == Some(x) && p.dest.None? && p.args == Some([x])
    ensures Dce([c, p, c, c]) == [c, p, c, c]
  {
    var es := Indexed([c, p, c, c]);
    assert ReadBefore(es, 2, x) by {
      assert x in ArgsOf(es[1].1);
    }
    assert ReadBefore(es, 3, x) && ReadBefore(es, 4, x);
    forall q | 0 <= q < 4
      ensures !Dead(es, q)
    {
      assert NextDef(es, 1, x) == 2;
      assert NextDef(es, 3, x) == 3;
      assert NextDef(es, 4, x) == 4;
    }
    assert DeadKeys(es) == {};
  }

  // ------------------------------------------------------------ trivial_dce_pass

  /** The names read anywhere: the keys of `used` after the marking loops. */
  function UsedArgs(blocks: seq<seq<Instr>>): set<string>
  {
    if blocks == [] then {}
    else UsedArgs(blocks[..|blocks| - 1]) + Elems(AllArgs(blocks[|blocks| - 1]))
  }

  /** A name in `used` is read by some instruction of some block. */
  lemma {:induction false} UsedArgsWitness(blocks: seq<seq<Instr>>, x: string) returns (b: nat)
    requires x in UsedArgs(blocks)
    ensures b < |blocks| && x in AllArgs(blocks[b])
    decreases |blocks|
  {
    var n := |blocks| - 1;
    var front := blocks[..n];
    if x in UsedArgs(front) {
      b := UsedArgsWitness(front, x);
      assert front[b] == blocks[b];
    } else {
      b := n;
    }
  }

  /** A name read by some instruction of some block is in `used`. */
  lemma {:induction false} UsedArgsComplete(blocks: seq<seq<Instr>>, b: nat, x: string)
    requires b < |blocks| && x in AllArgs(blocks[b])
    ensures x in UsedArgs(blocks)
    decreases |blocks|
  {
    var n := |blocks| - 1;
    var front := blocks[..n];
    assert UsedArgs(blocks) == UsedArgs(front) + Elems(AllArgs(blocks[n]));
    if b < n {
      assert front[b] == blocks[b];
      UsedArgsComplete(front, b, x);
    } else {
      assert x in Elems(AllArgs(blocks[n]));
    }
  }

  /** `[instr for instr in block if 'dest' not in instr or instr['dest'] in used]` */
  function Sweep(block: seq<Instr>, used: set<string>): (r: seq<Instr>)
    ensures |r| <= |block|
  {
    if block == [] then []
    else
      var last := block[|block| - 1];
      Sweep(block[..|block| - 1], used) + (if last.dest.None? || last.dest.value in used then [last] else [])
  }

  /** The sweep keeps exactly the instructions without a `dest` or whose `dest` is used. */
  lemma {:induction false} SweepMembers(block: seq<Instr>, used: set<string>, x: Instr)
    ensures x in Sweep(block, used) <==> x in block && (x.dest.None? || x.dest.value in used)
    decreases |block|
  {
    if block != [] {
      var front := block[..|block| - 1];
      SweepMembers(front, used, x);
      assert block == front + [block[|block| - 1]];
    }
  }

  lemma {:induction false} SweepSame(block: seq<Instr>, used: set<string>)
    requires |Sweep(block, used)| == |block|
    ensures Sweep(block, used) == block
    decreases |block|
  {
    if block != [] {
      var front := block[..|block| - 1];
      var last := block[|block| - 1];
      assert |Sweep(front, used)| <= |front|;
      SweepSame(front, used);
      assert block == front + [last];
    }
  }

  function Total(blocks: seq<seq<Instr>>): nat
  {
    if blocks == [] then 0 else Total(blocks[..|blocks| - 1]) + |blocks[|blocks| - 1]|
  }

  /** One sweep of every block with the names read anywhere. */
  function SweepAll(blocks: seq<seq<Instr>>): (r: seq<seq<Instr>>)
    ensures |r| == |blocks|
  {
    var used := UsedArgs(blocks);
    seq(|blocks|, k requires 0 <= k < |blocks| => Sweep(blocks[k], used))
  }

  lemma {:induction false} TotalShrinks(a: seq<seq<Instr>>, b: seq<seq<Instr>>)
    requires |a| == |b| && forall k :: 0 <= k < |a| ==> |b[k]| <= |a[k]|
    ensures Total(b) <= Total(a)
    ensures Total(b) == Total(a) ==> forall k :: 0 <= k < |a| ==> |b[k]| == |a[k]|
    decreases |a|
  {
    if a != [] {
      var n := |a| - 1;
      TotalShrinks(a[..n], b[..n]);
      assert forall k :: 0 <= k < n ==> a[..n][k] == a[k] && b[..n][k] == b[k];
    }
  }

  /**
   * `trivial_dce_pass` as the finding corrects it: sweep with the names read
   * anywhere until a sweep of all blocks changes no block.
   */
  function TrivialDce(blocks: seq<seq<Instr>>): (r: seq<seq<Instr>>)
    ensures |r| == |blocks|
    decreases Total(blocks)
  {
    var swept := SweepAll(blocks);
    TotalShrinks(blocks, swept);
    if Total(swept) == Total(blocks) then swept
    else TrivialDce(swept)
  }

  /** `trivial_dce_pass` with `changed` set when any block's length changed. */
  method TrivialDcePass(blocks: array<seq<Instr>>)
    modifies blocks
    ensures blocks[..] == TrivialDce(old(blocks[..]))
  {
    var changed := true;
    while changed
      invariant TrivialDce(blocks[..]) == TrivialDce(old(blocks[..]))
      invariant !changed ==> blocks[..] == SweepAll(blocks[..])
      decreases Total(blocks[..]) + (if changed then 1 else 0)
    {
      ghost var before := blocks[..];
      var used := CollectUsed(blocks);
      changed := SweepEach(blocks, used);
      SweepRound(before, blocks[..], used);
    }
  }

  /** One round of the loop: the blocks are one `SweepAll`, and unless no block changed they are smaller. */
  lemma SweepRound(before: seq<seq<Instr>>, after: seq<seq<Instr>>, used: set<string>)
    requires used == UsedArgs(before) && |after| == |before|
    requires forall j :: 0 <= j < |after| ==> after[j] == Sweep(before[j], used)
    ensures after == SweepAll(before) && TrivialDce(after) == TrivialDce(before)
    ensures (forall j :: 0 <= j < |after| ==> |after[j]| == |before[j]|) ==> after == before
    ensures (exists j :: 0 <= j < |after| && |after[j]| != |before[j]|) ==> Total(after) < Total(before)
  {
    TotalShrinks(before, after);
    assert after == SweepAll(before);
    if forall j :: 0 <= j < |after| ==> |after[j]| == |before[j]| {
      forall j | 0 <= j < |after|
        ensures after[j] == before[j]
      {
        SweepSame(before[j], used);
      }
      assert after == before;
    } else {
      assert Total(after) != Total(before);
      assert TrivialDce(before) == TrivialDce(after);
    }
  }

  /** The loop over the blocks: each is swept with `used`; `changed` says whether any got shorter. */
  method SweepEach(blocks: array<seq<Instr>>, used: set<string>) returns (changed: bool)
    modifies blocks
    ensures forall j :: 0 <= j < blocks.Length ==> blocks[j] == Sweep(old(blocks[j]), used)
    ensures changed <==> exists j :: 0 <= j < blocks.Length && |blocks[j]| != |old(blocks[j])|
  {
    ghost var before := blocks[..];
    changed := false;
    var k := 0;
    while k < blocks.Length
      invariant k <= blocks.Length
      invariant forall j :: 0 <= j < k ==> blocks[j] == Sweep(before[j], used)
      invariant forall j :: k <= j < blocks.Length ==> blocks[j] == before[j]
      invariant changed <==> exists j :: 0 <= j < k && |blocks[j]| != |before[j]|
    {
      var prevLen := |blocks[k]|;
      blocks[k] := Sweep(blocks[k], used);
      changed := changed || prevLen != |blocks[k]|;
      k := k + 1;
    }
  }

  /** The marking loops: every argument of every instruction of every block. */
  method CollectUsed(blocks: array<seq<Instr>>) returns (used: set<string>)
    ensures used == UsedArgs(blocks[..])
  {
    used := {};
    var b := 0;
    while b < blocks.Length
      invariant b <= blocks.Length
      invariant used == UsedArgs(blocks[..b])
    {
      used := MarkBlock(used, blocks[b]);
      assert blocks[..b + 1][..b] == blocks[..b];
      b := b + 1;
    }
    assert blocks[..b] == blocks[..];
  }

  /** The marking loop of one block: `used.add(arg)` for every argument of every instruction. */
  method MarkBlock(used: set<string>, block: seq<Instr>) returns (used': set<string>)
    ensures used' == used + Elems(AllArgs(block))
  {
    used' := used;
    var i := 0;
    while i < |block|
      invariant i <= |block|
      invariant used' == used + ArgsRead(block, i)
    {
      used' := used' + Elems(ArgsOf(block[i]));
      i := i + 1;
    }
    ArgsReadAll(block, i);
    assert block[..i] == block;
  }

  /** Every definition left in the blocks is read by some instruction of some block. */
  predicate EveryDefRead(blocks: seq<seq<Instr>>)
  {
    forall k, i :: 0 <= k < |blocks| && 0 <= i < |blocks[k]| && blocks[k][i].dest.Some? ==>
      blocks[k][i].dest.value in UsedArgs(blocks)
  }

  /** After `trivial_dce_pass`, every remaining definition is read somewhere. */
  lemma {:induction false} TrivialDceFixpoint(blocks: seq<seq<Instr>>)
    ensures EveryDefRead(TrivialDce(blocks))
    decreases Total(blocks)
  {
    var swept := SweepAll(blocks);
    var used := UsedArgs(blocks);
    TotalShrinks(blocks, swept);
    if Total(swept) == Total(blocks) {
      assert TrivialDce(blocks) == swept;
      forall k | 0 <= k < |blocks|
        ensures swept[k] == blocks[k]
      {
        SweepSame(blocks[k], used);
      }
      assert swept == blocks;
      forall k, i | 0 <= k < |swept| && 0 <= i < |swept[k]| && swept[k][i].dest.Some?
        ensures swept[k][i].dest.value in UsedArgs(swept)
      {
        SweepMembers(blocks[k], used, swept[k][i]);
      }
    } else {
      TrivialDceFixpoint(swept);
    }
  }

  /** `trivial_dce_pass` keeps every instruction without a `dest`. */
  lemma {:induction false} TrivialDceKeepsDestless(blocks: seq<seq<Instr>>, k: nat, x: Instr)
    requires k < |blocks| && x in blocks[k] && x.dest.None?
    ensures x in TrivialDce(blocks)[k]
    decreases Total(blocks)
  {
    var swept := SweepAll(blocks);
    TotalShrinks(blocks, swept);
    SweepMembers(blocks[k], UsedArgs(blocks), x);
    if Total(swept) != Total(blocks) {
      TrivialDceKeepsDestless(swept, k, x);
    }
  }

  // ------------------------------------------------------------ trivial_dce_pass as written

  /**
   * `trivial_dce_pass` as written: `changed` is overwritten by each block, so
   * only the last block's length change decides whether to sweep again, and
   * with no blocks it stays `True` for ever. `None` means the loop has not
   * stopped within `fuel` sweeps.
   */
  function TrivialDceAsWritten(blocks: seq<seq<Instr>>, fuel: nat): Option<seq<seq<Instr>>>
    decreases fuel
  {
    if fuel == 0 then None
    else
      var swept := SweepAll(blocks);
      var changed := blocks == [] || |swept[|blocks| - 1]| != |blocks[|blocks| - 1]|;
      if changed then TrivialDceAsWritten(swept, fuel - 1) else Some(swept)
  }

  /** With no blocks the loop never stops, however many sweeps are allowed. */
  lemma {:induction false} TrivialDceSpinsOnNoBlocks(fuel: nat)
    ensures TrivialDceAsWritten([], fuel) == None
  {
    if fuel > 0 {
      assert SweepAll([]) == [];
      TrivialDceSpinsOnNoBlocks(fuel - 1);
    }
  }

  /** `used` for two blocks. */
  lemma UsedArgsPair(x: seq<Instr>, y: seq<Instr>)
    ensures UsedArgs([x, y]) == Elems(AllArgs(x)) + Elems(AllArgs(y))
  {
    assert [x, y][..1] == [x] && [x, y][1] == y;
    assert [x][..0] == [];
    assert UsedArgs([x]) == UsedArgs([]) + Elems(AllArgs(x));
  }

  /** One sweep of two blocks. */
  lemma SweepAllPair(x: seq<Instr>, y: seq<Instr>)
    ensures SweepAll([x, y]) == [Sweep(x, UsedArgs([x, y])), Sweep(y, UsedArgs([x, y]))]
  {
  }

  /** The total length of two blocks. */
  lemma TotalPair(x: seq<Instr>, y: seq<Instr>)
    ensures Total([x, y]) == |x| + |y|
  {
    assert [x, y][..1] == [x] && [x, y][1] == y;
    assert [x][..0] == [];
    assert Total([x]) == Total([]) + |x|;
  }

  /** The arguments of the first `n` instructions, read one instruction at a time. */
  ghost function ArgsRead(block: seq<Instr>, n: nat): set<string>
    requires n <= |block|
  {
    if n == 0 then {} else ArgsRead(block, n - 1) + Elems(ArgsOf(block[n - 1]))
  }

  /** Reading instruction by instruction collects exactly the block's arguments. */
  lemma {:induction false} ArgsReadAll(block: seq<Instr>, n: nat)
    requires n <= |block|
    ensures ArgsRead(block, n) == Elems(AllArgs(block[..n]))
  {
    if n > 0 {
      ArgsReadAll(block, n - 1);
      AllArgsConcat(block[..n - 1], [block[n - 1]]);
      assert block[..n] == block[..n - 1] + [block[n - 1]];
      AllArgsOne(block[n - 1]);
    }
  }

  lemma AllArgsOne(x: Instr)
    ensures AllArgs([x]) == ArgsOf(x)
  {
    assert [x][..0] == [];
  }

  /** The sweep of one instruction. */
  lemma SweepOne(x: Instr, used: set<string>)
    ensures Sweep([x], used) == if x.dest.None? || x.dest.value in used then [x] else []
  {
    assert [x][..0] == [];
  }

  /**
   * A sweep that shortens only an earlier block stops the loop: `a` loses its
   * only reader `b` in the first block, the last block does not change, and
   * `a` stays although nothing reads it; the corrected pass removes it.
   */
  lemma TrivialDceStopsEarly(a: Instr, b: Instr, p: Instr)
    requires a == Instr(Some("const"), Some("a"), None, None, Some(IntLit(1)), None, false)
    requires b == Instr(Some("id"), Some("b"), Some(["a"]), None, None, None, false)
    requires p == Instr(Some("nop"), None, None, None, None, None, false)
    ensures TrivialDceAsWritten([[a, b], [p]], 2) == Some([[a], [p]])
    ensures "a" !in UsedArgs([[a], [p]])
    ensures TrivialDce([[a, b], [p]]) == [[], [p]]
  {
    var s0 := [[a, b], [p]];
    var s1 := [[a], [p]];
    var s2: seq<seq<Instr>> := [[], [p]];
    StopsEarlySweeps(a, b, p);
    assert TrivialDceAsWritten(s0, 2) == Some(s1);
    assert TrivialDce(s2) == s2;
    assert TrivialDce(s1) == TrivialDce(s2);
    assert TrivialDce(s0) == TrivialDce(s1);
  }

  /** The sweeps of the example, one at a time. */
  lemma StopsEarlySweeps(a: Instr, b: Instr, p: Instr)
    requires a == Instr(Some("const"), Some("a"), None, None, Some(IntLit(1)), None, false)
    requires b == Instr(Some("id"), Some("b"), Some(["a"]), None, None, None, false)
    requires p == Instr(Some("nop"), None, None, None, None, None, false)
    ensures SweepAll([[a, b], [p]]) == [[a], [p]] && UsedArgs([[a], [p]]) == {}
    ensures SweepAll([[a], [p]]) == [[], [p]] && SweepAll([[], [p]]) == [[], [p]]
    ensures Total([[a, b], [p]]) == 3 && Total([[a], [p]]) == 2 && Total([[], [p]]) == 1
  {
    FirstSweep(a, b, p);
    LaterSweeps(a, p);
    TotalPair([a, b], [p]);
    TotalPair([a], [p]);
    TotalPair([], [p]);
  }

  lemma FirstSweep(a: Instr, b: Instr, p: Instr)
    requires a == Instr(Some("const"), Some("a"), None, None, Some(IntLit(1)), None, false)
    requires b == Instr(Some("id"), Some("b"), Some(["a"]), None, None, None, false)
    requires p == Instr(Some("nop"), None, None, None, None, None, false)
    ensures SweepAll([[a, b], [p]]) == [[a], [p]]
  {
    AllArgsOne(p);
    assert AllArgs([a, b]) == ["a"] by {
      AllArgsConcat([a], [b]);
      AllArgsOne(a);
      AllArgsOne(b);
    }
    UsedArgsPair([a, b], [p]);
    assert Elems(["a"]) == {"a"};
    assert Elems<string>([]) == {};
    SweepOne(a, {"a"});
    SweepOne(p, {"a"});
    assert Sweep([a, b], {"a"}) == [a] by {
      assert [a, b][..1] == [a];
    }
    assert UsedArgs([[a, b], [p]]) == {"a"};
    assert Sweep([p], {"a"}) == [p];
    SweepAllPair([a, b], [p]);
  }

  lemma LaterSweeps(a: Instr, p: Instr)
    requires a == Instr(Some("const"), Some("a"), None, None, Some(IntLit(1)), None, false)
    requires p == Instr(Some("nop"), None, None, None, None, None, false)
    ensures UsedArgs([[a], [p]]) == {} && UsedArgs([[], [p]]) == {}
    ensures SweepAll([[a], [p]]) == [[], [p]] && SweepAll([[], [p]]) == [[], [p]]
  {
    AllArgsOne(a);
    AllArgsOne(p);
    UsedArgsPair([a], [p]);
    UsedArgsPair([], [p]);
    assert Elems<string>([]) == {};
    SweepOne(a, {});
    SweepOne(p, {});
    SweepAllPair([a], [p]);
    SweepAllPair([], [p]);
  }
}
