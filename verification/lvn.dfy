/**
 * L3/src/lvn.py: local value numbering. Each block gets fresh tables; every
 * instruction with a `dest` is given the value number of the expression it
 * computes (a new number when the expression is new), and the args of an
 * instruction that computes from args are rewritten to the canonical variable
 * of their value number.
 */
module Lvn {
  import opened Wrappers
  import opened Bril

  /** `COMMUTATIVE_OPS` */
  const Commutative: seq<string> := ["add", "mul", "and", "or", "eq"]

  // ------------------------------------------------------------ python's sorted() on strings

  /** Python's `<=` on strings: code points compared left to right, a prefix first. */
  predicate Below(a: string, b: string)
    decreases |a|
  {
    a == [] || (b != [] && (a[0] < b[0] || (a[0] == b[0] && Below(a[1..], b[1..]))))
  }

  lemma {:induction false} BelowTotal(a: string, b: string)
    ensures Below(a, b) || Below(b, a)
    decreases |a|
  {
    if a != [] && b != [] && a[0] == b[0] {
      BelowTotal(a[1..], b[1..]);
    }
  }

  lemma {:induction false} BelowRefl(a: string)
    ensures Below(a, a)
    decreases |a|
  {
    if a != [] {
      BelowRefl(a[1..]);
    }
  }

  lemma {:induction false} BelowTrans(a: string, b: string, c: string)
    requires Below(a, b) && Below(b, c)
    ensures Below(a, c)
    decreases |a|
  {
    if a != [] && a[0] == b[0] && b[0] == c[0] {
      BelowTrans(a[1..], b[1..], c[1..]);
    }
  }

  lemma {:induction false} BelowAntisym(a: string, b: string)
    requires Below(a, b) && Below(b, a)
    ensures a == b
    decreases |a|
  {
    if a != [] {
      BelowAntisym(a[1..], b[1..]);
      assert a == [a[0]] + a[1..] && b == [b[0]] + b[1..];
    }
  }

  predicate Sorted(s: seq<string>)
  {
    forall i, j :: 0 <= i < j < |s| ==> Below(s[i], s[j])
  }

  /** `x` placed before the first element it is `Below`. */
  function Insert(x: string, s: seq<string>): (r: seq<string>)
    requires Sorted(s)
    ensures Sorted(r) && multiset(r) == multiset(s) + multiset{x}
  {
    if s == [] then [x]
    else if Below(x, s[0]) then
      assert forall j :: 0 < j < |s| ==> Below(x, s[j]) by {
        forall j | 0 < j < |s|
          ensures Below(x, s[j])
        {
          BelowTrans(x, s[0], s[j]);
        }
      }
      [x] + s
    else
      BelowTotal(x, s[0]);
      var rest := Insert(x, s[1..]);
      assert multiset(rest) == multiset(s[1..]) + multiset{x};
      assert s == [s[0]] + s[1..];
      InsertHead(s[0], x, s[1..], rest);
      [s[0]] + rest
  }

  /** The first element of a sorted list stays first when a larger element is inserted behind it. */
  lemma InsertHead(h: string, x: string, tail: seq<string>, rest: seq<string>)
    requires Sorted([h] + tail) && Below(h, x) && Sorted(rest)
    requires multiset(rest) == multiset(tail) + multiset{x}
    ensures Sorted([h] + rest)
  {
    forall j | 0 <= j < |rest|
      ensures Below(h, rest[j])
    {
      assert rest[j] in multiset(rest);
      if rest[j] != x {
        assert rest[j] in multiset(tail);
        var k :| 0 <= k < |tail| && tail[k] == rest[j];
        assert ([h] + tail)[0] == h && ([h] + tail)[k + 1] == rest[j];
      }
    }
  }

  /** `sorted(args)` */
  function Sort(s: seq<string>): (r: seq<string>)
    ensures Sorted(r) && multiset(r) == multiset(s)
  {
    if s == [] then []
    else
      assert s == [s[0]] + s[1..];
      Insert(s[0], Sort(s[1..]))
  }

  /** Two sorted lists with the same elements are equal: `sorted` depends only on the multiset of its input. */
  lemma {:induction false} SortedUnique(a: seq<string>, b: seq<string>)
    requires Sorted(a) && Sorted(b) && multiset(a) == multiset(b)
    ensures a == b
    decreases |a|
  {
    if a != [] {
      assert |b| == |multiset(b)| == |a|;
      SortedHeads(a, b);
      TailMultiset(a);
      TailMultiset(b);
      SortedTail(a);
      SortedTail(b);
      SortedUnique(a[1..], b[1..]);
      assert a == [a[0]] + a[1..] && b == [b[0]] + b[1..];
    }
  }

  /** Two sorted lists with the same elements start with the same element. */
  lemma SortedHeads(a: seq<string>, b: seq<string>)
    requires Sorted(a) && Sorted(b) && multiset(a) == multiset(b) && a != [] && b != []
    ensures a[0] == b[0]
  {
    assert a[0] in multiset(b) && b[0] in multiset(a);
    var i :| 0 <= i < |b| && b[i] == a[0];
    var j :| 0 <= j < |a| && a[j] == b[0];
    BelowRefl(a[0]);
    BelowRefl(b[0]);
    assert Below(b[0], a[0]) by {
      if i > 0 {
        assert Below(b[0], b[i]);
      }
    }
    assert Below(a[0], b[0]) by {
      if j > 0 {
        assert Below(a[0], a[j]);
      }
    }
    BelowAntisym(a[0], b[0]);
  }

  lemma TailMultiset(s: seq<string>)
    requires s != []
    ensures multiset(s[1..]) == multiset(s) - multiset{s[0]}
  {
    assert s == [s[0]] + s[1..];
  }

  lemma SortedTail(s: seq<string>)
    requires Sorted(s) && s != []
    ensures Sorted(s[1..])
  {
    forall i, j | 0 <= i < j < |s| - 1
      ensures Below(s[1..][i], s[1..][j])
    {
      assert s[1..][i] == s[i + 1] && s[1..][j] == s[j + 1];
    }
  }

  /** Argument lists that are permutations of each other sort to the same list. */
  lemma SortPermutation(a: seq<string>, b: seq<string>)
    requires multiset(a) == multiset(b)
    ensures Sort(a) == Sort(b)
  {
    SortedUnique(Sort(a), Sort(b));
  }

  // ------------------------------------------------------------ expressions and tables

  /**
   * One component of an expression tuple as `str` prints it: an int (a
   * literal or a value number), a bool literal, or a variable name. `str` of
   * a tuple of these is injective, so the dict key `str(expr)` is modelled by
   * the tuple itself.
   */
  datatype Item = Num(n: int) | Flag(b: bool) | Var(name: string)

  /**
   * An expression tuple: `(op, value)` or `(op, *args)`; or the value of an
   * instruction that computes no expression (a call), which only the number
   * `n` it was given stands for.
   */
  datatype Key = Key(op: string, items: seq<Item>) | Opaque(n: nat)

  /** A `state` entry: `{"expr": expr, "var": dest}`. */
  datatype Entry = Entry(expr: Key, variable: string)

  /** The per-block tables `expr_to_id`, `var_to_id`, `state` and the counter `id`. */
  datatype Tables = Tables(exprToId: map<Key, nat>, varToId: map<string, nat>, state: map<nat, Entry>, next: nat)

  /** The tables at the start of a block. */
  function Fresh(): Tables
  {
    Tables(map[], map[], map[], 1)
  }

  /**
   * The numbers in use are exactly 1 .. `next` - 1; `expr_to_id` and `state`
   * are inverse to each other; every variable's number is in use; an
   * opaque value has the number it names.
   */
  ghost predicate Valid(t: Tables)
  {
    && t.next >= 1
    && (forall k :: k in t.exprToId && k.Opaque? ==> t.exprToId[k] == k.n)
    && (forall i :: i in t.state <==> 1 <= i < t.next)
    && (forall k :: k in t.exprToId ==> t.exprToId[k] in t.state && t.state[t.exprToId[k]].expr == k)
    && (forall i :: i in t.state ==> t.state[i].expr in t.exprToId && t.exprToId[t.state[i].expr] == i)
    && (forall v :: v in t.varToId ==> t.varToId[v] in t.state)
  }

  lemma FreshValid()
    ensures Valid(Fresh())
  {
  }

  function LitItem(l: Literal): Item
  {
    match l
    case IntLit(i) => Num(i)
    case BoolLit(b) => Flag(b)
  }

  /** `var_to_id[x] if x in var_to_id else x` */
  function Ref(t: Tables, x: string): Item
  {
    if x in t.varToId then Num(t.varToId[x]) else Var(x)
  }

  /** `state[x]['var'] if x in state else x`, after `x` was looked up in `var_to_id`. */
  function Canon(t: Tables, x: string): string
    requires Valid(t)
  {
    if x in t.varToId then t.state[t.varToId[x]].variable else x
  }

  /** The args in the order they are numbered: sorted for a commutative op. */
  function Ordered(op: string, args: seq<string>): seq<string>
  {
    if op in Commutative then Sort(args) else args
  }

  /**
   * Give `v` the number of `key`: the existing one when the key is known,
   * otherwise the next one, recorded with `v` as its canonical variable.
   */
  function Number(t: Tables, key: Key, v: string): (r: Tables)
    requires Valid(t) && (key.Key? || key == Opaque(t.next))
    ensures Valid(r) && key in r.exprToId && v in r.varToId && r.varToId[v] == r.exprToId[key]
  {
    if key in t.exprToId then t.(varToId := t.varToId[v := t.exprToId[key]])
    else Tables(t.exprToId[key := t.next], t.varToId[v := t.next], t.state[t.next := Entry(key, v)], t.next + 1)
  }

  /** A repeated expression gives `v` the existing number and allocates none; nothing else changes. */
  lemma NumberRepeat(t: Tables, key: Key, v: string)
    requires Valid(t) && key.Key? && key in t.exprToId
    ensures var r := Number(t, key, v);
            && r.next == t.next && r.exprToId == t.exprToId && r.state == t.state
            && r.varToId == t.varToId[v := t.exprToId[key]]
  {
  }

  /** A new expression gets number `next`, the counter moves on by exactly one, and `v` is its canonical variable. */
  lemma NumberNew(t: Tables, key: Key, v: string)
    requires Valid(t) && key.Key? && key !in t.exprToId
    ensures var r := Number(t, key, v);
            && r.next == t.next + 1 && r.exprToId[key] == t.next && r.state[t.next] == Entry(key, v)
            && (forall i :: i in t.state ==> i in r.state && r.state[i] == t.state[i])
  {
  }

  // ------------------------------------------------------------ one instruction

  /**
   * The expression an instruction with a `dest` computes, with the
   * instruction as rewritten: `(op, value)` for a constant, `(op, *args)`
   * for an instruction with args (whose args are rewritten), nothing for an
   * instruction with neither. A missing `op` is a `KeyError`.
   */
  function KeyOf(t: Tables, ins: Instr): (r: Result<Option<(Key, Instr)>>)
    requires Valid(t)
    ensures r.Err? <==> (ins.value.Some? || ins.args.Some?) && ins.op.None?
    ensures r.Ok? && r.value.Some? ==> ins.op.Some? && r.value.value.0.Key? && r.value.value.0.op == ins.op.value
  {
    if ins.value.Some? then
      if ins.op.None? then Err(KeyError)
      else Ok(Some((Key(ins.op.value, [LitItem(ins.value.value)]), ins)))
    else if ins.args.Some? then
      if ins.op.None? then Err(KeyError)
      else
        var args := Ordered(ins.op.value, ins.args.value);
        var refs := seq(|args|, k requires 0 <= k < |args| => Ref(t, args[k]));
        var renamed := seq(|args|, k requires 0 <= k < |args| => Canon(t, args[k]));
        Ok(Some((Key(ins.op.value, refs), ins.(args := Some(renamed)))))
    else Ok(None)
  }

  /**
   * One instruction of the block loop. An instruction without a `dest` is
   * passed over. One with neither `value` nor `args` computes no expression:
   * its `dest` gets a new number of its own (see the findings).
   */
  function Step(t: Tables, ins: Instr): (r: Result<(Tables, Instr)>)
    requires Valid(t)
    ensures r.Ok? ==> Valid(r.value.0)
  {
    if ins.dest.None? then Ok((t, ins))
    else
      var v := ins.dest.value;
      match KeyOf(t, ins)
      case Err(e) => Err(e)
      case Ok(None) => Ok((Number(t, Opaque(t.next), v), ins))
      case Ok(Some((key, ins'))) => Ok((Number(t, key, v), ins'))
  }

  /** The block loop over the first instructions of a block, from fresh tables. */
  function RunBlock(instrs: seq<Instr>): (r: Result<(Tables, seq<Instr>)>)
    ensures r.Ok? ==> Valid(r.value.0) && |r.value.1| == |instrs|
    decreases |instrs|
  {
    if instrs == [] then
      FreshValid();
      Ok((Fresh(), []))
    else
      match RunBlock(instrs[..|instrs| - 1])
      case Err(e) => Err(e)
      case Ok((t, out)) =>
        match Step(t, instrs[|instrs| - 1])
        case Err(e) => Err(e)
        case Ok((t', ins')) => Ok((t', out + [ins']))
  }

  /** `lvn(blocks)`: every block in order, each from fresh tables; the first error ends the pass. */
  function Lvn(blocks: seq<seq<Instr>>): (r: Result<seq<seq<Instr>>>)
    ensures r.Ok? ==> |r.value| == |blocks|
    decreases |blocks|
  {
    if blocks == [] then Ok([])
    else
      match Lvn(blocks[..|blocks| - 1])
      case Err(e) => Err(e)
      case Ok(front) =>
        match RunBlock(blocks[|blocks| - 1])
        case Err(e) => Err(e)
        case Ok((_, out)) => Ok(front + [out])
  }

  // ------------------------------------------------------------ the pass

  /**
   * The loop over one block's instructions, with the tables as local
   * variables. Each instruction is replaced by its rewritten form.
   */
  method LvnBlock(block: seq<Instr>) returns (r: Result<seq<Instr>>)
    ensures RunBlock(block).Ok? ==> r == Ok(RunBlock(block).value.1)
    ensures RunBlock(block).Err? ==> r == Err(RunBlock(block).error)
  {
    var exprToId: map<Key, nat> := map[];
    var varToId: map<string, nat> := map[];
    var state: map<nat, Entry> := map[];
    var id: nat := 1;
    var out: seq<Instr> := [];
    var i := 0;
    while i < |block|
      invariant i <= |block|
      invariant RunBlock(block[..i]) == Ok((Tables(exprToId, varToId, state, id), out))
    {
      assert block[..i + 1][..i] == block[..i];
      var err, ins;
      err, exprToId, varToId, state, id, ins := NumberInstr(exprToId, varToId, state, id, block[i]);
      if err.Some? {
        RunBlockFirstError(block, i + 1);
        return Err(err.value);
      }
      out := out + [ins];
      i := i + 1;
    }
    assert block[..i] == block;
    return Ok(out);
  }

  /** The body of the block loop for one instruction; `err` is the exception it raises, if any. */
  method NumberInstr(exprToId: map<Key, nat>, varToId: map<string, nat>, state: map<nat, Entry>, id: nat, ins: Instr)
    returns (err: Option<Error>, exprToId': map<Key, nat>, varToId': map<string, nat>, state': map<nat, Entry>, id': nat, ins': Instr)
    requires Valid(Tables(exprToId, varToId, state, id))
    ensures var s := Step(Tables(exprToId, varToId, state, id), ins);
            && (s.Err? ==> err == Some(s.error))
            && (s.Ok? ==> err == None && s.value == (Tables(exprToId', varToId', state', id'), ins'))
  {
    exprToId', varToId', state', id', ins' := exprToId, varToId, state, id, ins;
    err := None;
    if ins.dest.Some? {
      var varName := ins.dest.value;
      var key: Option<Key>;
      err, key, ins' := ExprOf(varToId, state, Tables(exprToId, varToId, state, id), ins);
      if err.Some? {
        return;
      }
      var k := if key.Some? then key.value else Opaque(id);
      if k in exprToId {
        varToId' := varToId[varName := exprToId[k]];
      } else {
        state' := state[id := Entry(k, varName)];
        exprToId' := exprToId[k := id];
        varToId' := varToId[varName := id];
        id' := id + 1;
      }
    }
  }

  /** `expr` for an instruction with a `dest`, and the instruction with its args rewritten. */
  method ExprOf(varToId: map<string, nat>, state: map<nat, Entry>, ghost t: Tables, ins: Instr)
    returns (err: Option<Error>, key: Option<Key>, ins': Instr)
    requires Valid(t) && t.varToId == varToId && t.state == state
    ensures var k := KeyOf(t, ins);
            && (k.Err? ==> err == Some(k.error))
            && (k.Ok? ==> err == None && (k.value.None? ==> key == None && ins' == ins)
                          && (k.value.Some? ==> key == Some(k.value.value.0) && ins' == k.value.value.1))
  {
    err, key, ins' := None, None, ins;
    if ins.value.Some? {
      if ins.op.None? {
        return Some(KeyError), None, ins;
      }
      key := Some(Key(ins.op.value, [LitItem(ins.value.value)]));
    } else if ins.args.Some? {
      if ins.op.None? {
        return Some(KeyError), None, ins;
      }
      var op := ins.op.value;
      var args := ins.args.value;
      if op in Commutative {
        args := Sort(args);
      }
      var ids := seq(|args|, k requires 0 <= k < |args| => if args[k] in varToId then Num(varToId[args[k]]) else Var(args[k]));
      var renamed := seq(|args|, k requires 0 <= k < |args| => if args[k] in varToId then state[varToId[args[k]]].variable else args[k]);
      assert args == Ordered(op, ins.args.value);
      assert ids == seq(|args|, k requires 0 <= k < |args| => Ref(t, args[k]));
      assert renamed == seq(|args|, k requires 0 <= k < |args| => Canon(t, args[k]));
      ins' := ins.(args := Some(renamed));
      key := Some(Key(op, ids));
    }
  }

  /** Once a prefix of the block fails, the whole block fails with the same error. */
  lemma {:induction false} RunBlockFirstError(instrs: seq<Instr>, n: nat)
    requires n <= |instrs| && RunBlock(instrs[..n]).Err?
    ensures RunBlock(instrs) == RunBlock(instrs[..n])
    decreases |instrs| - n
  {
    if n < |instrs| {
      var m := |instrs| - 1;
      assert instrs[..m][..n] == instrs[..n];
      RunBlockFirstError(instrs[..m], n);
    } else {
      assert instrs[..n] == instrs;
    }
  }

  /** `lvn(blocks)`: each block is replaced in place by its rewritten instructions. */
  method LvnPass(blocks: array<seq<Instr>>) returns (err: Option<Error>)
    modifies blocks
    ensures Lvn(old(blocks[..])).Ok? ==> err == None && blocks[..] == Lvn(old(blocks[..])).value
    ensures Lvn(old(blocks[..])).Err? ==> err == Some(Lvn(old(blocks[..])).error)
  {
    ghost var orig := blocks[..];
    var k := 0;
    while k < blocks.Length
      invariant k <= blocks.Length
      invariant Lvn(orig[..k]).Ok?
      invariant forall j :: 0 <= j < k ==> blocks[j] == Lvn(orig[..k]).value[j]
      invariant forall j :: k <= j < blocks.Length ==> blocks[j] == orig[j]
    {
      LvnSnoc(orig, k);
      var r := LvnBlock(blocks[k]);
      if r.Err? {
        LvnFirstError(orig, k + 1);
        assert orig[..blocks.Length] == orig;
        return Some(r.error);
      }
      blocks[k] := r.value;
      k := k + 1;
    }
    assert orig[..k] == orig;
    return None;
  }

  /** The pass over one more block. */
  lemma LvnSnoc(blocks: seq<seq<Instr>>, k: nat)
    requires k < |blocks| && Lvn(blocks[..k]).Ok?
    ensures Lvn(blocks[..k + 1]) == match RunBlock(blocks[k])
                                  case Err(e) => Err(e)
                                  case Ok((_, out)) => Ok(Lvn(blocks[..k]).value + [out])
  {
    assert blocks[..k + 1][..k] == blocks[..k];
  }

  /** Once a prefix of the blocks fails, the whole pass fails with the same error. */
  lemma {:induction false} LvnFirstError(blocks: seq<seq<Instr>>, n: nat)
    requires n <= |blocks| && Lvn(blocks[..n]).Err?
    ensures Lvn(blocks) == Lvn(blocks[..n])
    decreases |blocks| - n
  {
    if n < |blocks| {
      var m := |blocks| - 1;
      assert blocks[..m][..n] == blocks[..n];
      LvnFirstError(blocks[..m], n);
    } else {
      assert blocks[..n] == blocks;
    }
  }

  // ------------------------------------------------------------ properties

  /**
   * One instruction keeps its place and its `dest`; only `args` can change,
   * and only for an instruction with a `dest`, no `value` and some `args`.
   */
  lemma StepShape(t: Tables, ins: Instr)
    requires Valid(t) && Step(t, ins).Ok?
    ensures var out := Step(t, ins).value.1;
            && out == ins.(args := out.args)
            && (out.args.Some? <==> ins.args.Some?)
            && (ins.args.Some? ==> |out.args.value| == |ins.args.value|)
            && (ins.dest.None? || ins.value.Some? || ins.args.None? ==> out == ins)
  {
    if ins.dest.Some? && ins.value.None? && ins.args.Some? {
      var args := Ordered(ins.op.value, ins.args.value);
      assert |args| == |multiset(args)| == |multiset(ins.args.value)|;
    }
  }

  /** The `i`-th instruction of a block is rewritten by the tables the first `i` instructions left. */
  lemma {:induction false} RunBlockAt(instrs: seq<Instr>, i: nat)
    requires RunBlock(instrs).Ok? && i < |instrs|
    ensures RunBlock(instrs[..i]).Ok?
    ensures var t := RunBlock(instrs[..i]).value.0;
            Step(t, instrs[i]).Ok? && RunBlock(instrs).value.1[i] == Step(t, instrs[i]).value.1
    decreases |instrs|
  {
    var n := |instrs| - 1;
    var (t, front) := RunBlock(instrs[..n]).value;
    assert RunBlock(instrs).value.1 == front + [Step(t, instrs[n]).value.1];
    if i < n {
      RunBlockAt(instrs[..n], i);
      assert instrs[..n][..i] == instrs[..i] && instrs[..n][i] == instrs[i];
    }
  }

  /** No instruction is added or removed, and each keeps its `dest` and every field but `args`. */
  lemma RunBlockShape(instrs: seq<Instr>)
    requires RunBlock(instrs).Ok?
    ensures var out := RunBlock(instrs).value.1;
            && |out| == |instrs|
            && (forall i :: 0 <= i < |out| ==> out[i] == instrs[i].(args := out[i].args) && out[i].dest == instrs[i].dest)
            && (forall i :: 0 <= i < |out| && (instrs[i].dest.None? || instrs[i].value.Some? || instrs[i].args.None?) ==>
                  out[i] == instrs[i])
  {
    var out := RunBlock(instrs).value.1;
    forall i | 0 <= i < |out|
      ensures out[i] == instrs[i].(args := out[i].args) && out[i].dest == instrs[i].dest
      ensures instrs[i].dest.None? || instrs[i].value.Some? || instrs[i].args.None? ==> out[i] == instrs[i]
    {
      RunBlockAt(instrs, i);
      StepShape(RunBlock(instrs[..i]).value.0, instrs[i]);
    }
  }

  /**
   * An instruction that computes from args: its args are put in order
   * (sorted when the op is commutative), then each one with a value number
   * becomes the canonical variable of that number and each other one stays.
   */
  lemma StepRewritesArgs(t: Tables, ins: Instr)
    requires Valid(t) && ins.dest.Some? && ins.value.None? && ins.args.Some? && ins.op.Some?
    ensures Step(t, ins).Ok?
    ensures var a := Ordered(ins.op.value, ins.args.value);
            var out := Step(t, ins).value.1.args;
            && (ins.op.value in Commutative ==> Sorted(a) && multiset(a) == multiset(ins.args.value))
            && (ins.op.value !in Commutative ==> a == ins.args.value)
            && out.Some? && |out.value| == |a|
            && (forall k :: 0 <= k < |a| && a[k] !in t.varToId ==> out.value[k] == a[k])
            && (forall k :: 0 <= k < |a| && a[k] in t.varToId ==> out.value[k] == t.state[t.varToId[a[k]]].variable)
  {
  }

  /** The canonical variable of a number is the variable that was numbered when the number was created. */
  lemma NumberCanonical(t: Tables, key: Key, v: string)
    requires Valid(t) && key.Key? && key !in t.exprToId
    ensures var r := Number(t, key, v);
            r.state[r.varToId[v]].variable == v && r.state[r.varToId[v]].expr == key
  {
  }

  /**
   * For a commutative op the order of the args does not matter: two
   * instructions whose args are permutations of each other compute the same
   * expression, so the second is given the first one's number.
   */
  lemma CommutativeSameKey(t: Tables, a: Instr, b: Instr)
    requires Valid(t) && a.dest.Some? && b.dest.Some? && a.value.None? && b.value.None?
    requires a.op == b.op && a.op.Some? && a.op.value in Commutative
    requires a.args.Some? && b.args.Some? && multiset(a.args.value) == multiset(b.args.value)
    ensures KeyOf(t, a).Ok? && KeyOf(t, b).Ok? && KeyOf(t, a).value.Some? && KeyOf(t, b).value.Some?
    ensures KeyOf(t, a).value.value.0 == KeyOf(t, b).value.value.0
  {
    SortPermutation(a.args.value, b.args.value);
  }

  /**
   * With an expression already numbered, a second instruction computing it
   * allocates no number and takes the existing one.
   */
  lemma RepeatTakesNumber(t: Tables, ins: Instr)
    requires Valid(t) && ins.dest.Some? && KeyOf(t, ins).Ok? && KeyOf(t, ins).value.Some?
    requires KeyOf(t, ins).value.value.0 in t.exprToId
    ensures Step(t, ins).Ok?
    ensures var r := Step(t, ins).value.0;
            && r.next == t.next && r.exprToId == t.exprToId && r.state == t.state
            && r.varToId[ins.dest.value] == t.exprToId[KeyOf(t, ins).value.value.0]
  {
  }

  /**
   * The corrected step: every destination has a value number afterwards, and
   * one whose instruction computes no expression gets a new number that no
   * other variable holds and no expression has.
   */
  lemma StepUnknownFresh(t: Tables, ins: Instr)
    requires Valid(t) && ins.dest.Some? && Step(t, ins).Ok?
    ensures ins.dest.value in Step(t, ins).value.0.varToId
    ensures ins.value.None? && ins.args.None? ==>
              var r := Step(t, ins).value.0;
              && r.varToId[ins.dest.value] == t.next && r.next == t.next + 1
              && (forall w :: w in r.varToId && w != ins.dest.value ==> r.varToId[w] != t.next)
              && (forall k :: k in r.exprToId && k.Key? ==> r.exprToId[k] != t.next)
  {
    assert forall k :: k in t.exprToId ==> t.exprToId[k] < t.next;
  }

  /** An instruction with a `dest` that computes from a `value` or `args` but has no `op`. */
  predicate MissingOp(ins: Instr)
  {
    ins.dest.Some? && (ins.value.Some? || ins.args.Some?) && ins.op.None?
  }

  /** An instruction missing its `op` makes the block fail. */
  lemma {:induction false} RunBlockErrAt(instrs: seq<Instr>, i: nat)
    requires i < |instrs| && MissingOp(instrs[i])
    ensures RunBlock(instrs).Err?
    decreases |instrs|
  {
    var n := |instrs| - 1;
    if i < n {
      assert instrs[..n][i] == instrs[i];
      RunBlockErrAt(instrs[..n], i);
    }
  }

  /** A block that fails holds an instruction missing its `op`, and fails with a `KeyError`. */
  lemma {:induction false} RunBlockErrWitness(instrs: seq<Instr>) returns (i: nat)
    requires RunBlock(instrs).Err?
    ensures i < |instrs| && MissingOp(instrs[i]) && RunBlock(instrs).error == KeyError
    decreases |instrs|
  {
    var n := |instrs| - 1;
    if RunBlock(instrs[..n]).Err? {
      i := RunBlockErrWitness(instrs[..n]);
      assert instrs[..n][i] == instrs[i];
    } else {
      i := n;
    }
  }

  /** A block's result from fresh tables is its entry in the result of the pass. */
  lemma {:induction false} LvnBlockResult(blocks: seq<seq<Instr>>, b: nat)
    requires Lvn(blocks).Ok? && b < |blocks|
    ensures RunBlock(blocks[b]).Ok? && Lvn(blocks).value[b] == RunBlock(blocks[b]).value.1
    decreases |blocks|
  {
    var n := |blocks| - 1;
    if b < n {
      assert blocks[..n][b] == blocks[b];
      LvnBlockResult(blocks[..n], b);
    }
  }

  /**
   * The tables are reset for every block: the pass succeeds as soon as every
   * block succeeds on its own from fresh tables, whatever the blocks before it held.
   */
  lemma {:induction false} LvnBlocksOk(blocks: seq<seq<Instr>>)
    requires forall b :: 0 <= b < |blocks| ==> RunBlock(blocks[b]).Ok?
    ensures Lvn(blocks).Ok?
    decreases |blocks|
  {
    if blocks != [] {
      var n := |blocks| - 1;
      assert forall b :: 0 <= b < n ==> blocks[..n][b] == blocks[b];
      LvnBlocksOk(blocks[..n]);
    }
  }

  // ------------------------------------------------------------ the block loop as written

  /**
   * The block loop as written: `expr` is a local of `lvn` that is only
   * assigned for a `value` or for `args`, so an instruction with a `dest`
   * and neither reads the `expr` of an earlier instruction (of this block or
   * an earlier one), or raises `UnboundLocalError` when there is none.
   */
  function StepAsWritten(t: Tables, expr: Option<Key>, ins: Instr): (r: Result<(Tables, Option<Key>, Instr)>)
    requires Valid(t) && (expr.Some? ==> expr.value.Key?)
    ensures r.Ok? ==> Valid(r.value.0) && (r.value.1.Some? ==> r.value.1.value.Key?)
  {
    if ins.dest.None? then Ok((t, expr, ins))
    else
      var v := ins.dest.value;
      match KeyOf(t, ins)
      case Err(e) => Err(e)
      case Ok(Some((key, ins'))) => Ok((Number(t, key, v), Some(key), ins'))
      case Ok(None) =>
        if expr.None? then Err(UnboundLocal)
        else Ok((Number(t, expr.value, v), expr, ins))
  }

  /** One block as written, from fresh tables and the `expr` left by the blocks before. */
  function RunBlockAsWritten(expr: Option<Key>, instrs: seq<Instr>): (r: Result<(Tables, Option<Key>, seq<Instr>)>)
    requires expr.Some? ==> expr.value.Key?
    ensures r.Ok? ==> Valid(r.value.0) && (r.value.1.Some? ==> r.value.1.value.Key?)
    decreases |instrs|
  {
    if instrs == [] then
      FreshValid();
      Ok((Fresh(), expr, []))
    else
      match RunBlockAsWritten(expr, instrs[..|instrs| - 1])
      case Err(e) => Err(e)
      case Ok((t, e, out)) =>
        match StepAsWritten(t, e, instrs[|instrs| - 1])
        case Err(err) => Err(err)
        case Ok((t', e', ins')) => Ok((t', e', out + [ins']))
  }

  /** `lvn(blocks)` as written, with `expr` unassigned at the start. */
  function LvnAsWritten(blocks: seq<seq<Instr>>): (r: Result<(Option<Key>, seq<seq<Instr>>)>)
    ensures r.Ok? ==> |r.value.1| == |blocks| && (r.value.0.Some? ==> r.value.0.value.Key?)
    decreases |blocks|
  {
    if blocks == [] then Ok((None, []))
    else
      match LvnAsWritten(blocks[..|blocks| - 1])
      case Err(e) => Err(e)
      case Ok((expr, front)) =>
        match RunBlockAsWritten(expr, blocks[|blocks| - 1])
        case Err(e) => Err(e)
        case Ok((_, expr', out)) => Ok((expr', front + [out]))
  }

  /** The block loop after one more instruction. */
  lemma RunBlockSnoc(instrs: seq<Instr>, ins: Instr, t: Tables, out: seq<Instr>)
    requires RunBlock(instrs) == Ok((t, out))
    ensures Valid(t)
    ensures RunBlock(instrs + [ins]) == match Step(t, ins)
                                        case Err(e) => Err(e)
                                        case Ok((t', ins')) => Ok((t', out + [ins']))
  {
    var s := instrs + [ins];
    assert s[..|s| - 1] == instrs && s[|s| - 1] == ins;
  }

  /** The as-written block loop after one more instruction. */
  lemma RunBlockAsWrittenSnoc(expr: Option<Key>, instrs: seq<Instr>, ins: Instr,
                              t: Tables, e: Option<Key>, out: seq<Instr>)
    requires expr.Some? ==> expr.value.Key?
    requires RunBlockAsWritten(expr, instrs) == Ok((t, e, out))
    ensures Valid(t) && (e.Some? ==> e.value.Key?)
    ensures RunBlockAsWritten(expr, instrs + [ins]) == match StepAsWritten(t, e, ins)
                                                      case Err(err) => Err(err)
                                                      case Ok((t', e', ins')) => Ok((t', e', out + [ins']))
  {
    var s := instrs + [ins];
    assert s[..|s| - 1] == instrs && s[|s| - 1] == ins;
  }

  /**
   * `x = call @f` (a `dest`, no `value`, no `args`) as the first instruction
   * of the program: as written, `expr` is read before anything assigned it.
   */
  lemma StaleExprUnbound(x: Instr)
    requires x == Instr(Some("call"), Some("x"), None, None, None, None, false)
    ensures LvnAsWritten([[x]]) == Err(UnboundLocal)
  {
    FreshValid();
    assert RunBlockAsWritten(None, []) == Ok((Fresh(), None, []));
    RunBlockAsWrittenSnoc(None, [], x, Fresh(), None, []);
    assert [] + [x] == [x];
    assert RunBlockAsWritten(None, [x]) == Err(UnboundLocal);
    assert [[x]][..0] == [] && [[x]][0] == [x];
  }

  /**
   * The same instruction after `a = const 1`: as written it is given `a`'s
   * number, so a later use of `x` would be rewritten to `a`.
   */
  lemma StaleExprShared(a: Instr, x: Instr)
    requires a == Instr(Some("const"), Some("a"), None, None, Some(IntLit(1)), None, false)
    requires x == Instr(Some("call"), Some("x"), None, None, None, None, false)
    ensures var r := RunBlockAsWritten(None, [a, x]);
            && r.Ok? && "x" in r.value.0.varToId && "a" in r.value.0.varToId
            && r.value.0.varToId["x"] == r.value.0.varToId["a"]
  {
    FreshValid();
    assert RunBlockAsWritten(None, []) == Ok((Fresh(), None, []));
    var key := Key("const", [Num(1)]);
    var t1 := Number(Fresh(), key, "a");
    assert KeyOf(Fresh(), a) == Ok(Some((key, a)));
    assert StepAsWritten(Fresh(), None, a) == Ok((t1, Some(key), a));
    RunBlockAsWrittenSnoc(None, [], a, Fresh(), None, []);
    assert [] + [a] == [a];
    assert RunBlockAsWritten(None, [a]) == Ok((t1, Some(key), [a]));
    RunBlockAsWrittenSnoc(None, [a], x, t1, Some(key), [a]);
    assert [a] + [x] == [a, x];
  }

  /** The corrected step on the same input: `x` gets a number of its own and nothing raises. */
  lemma StaleExprCorrected(a: Instr, x: Instr)
    requires a == Instr(Some("const"), Some("a"), None, None, Some(IntLit(1)), None, false)
    requires x == Instr(Some("call"), Some("x"), None, None, None, None, false)
    ensures Lvn([[x]]) == Ok([[x]])
    ensures var r := RunBlock([a, x]);
            && r.Ok? && r.value.1 == [a, x] && "x" in r.value.0.varToId && "a" in r.value.0.varToId
            && r.value.0.varToId["x"] != r.value.0.varToId["a"]
  {
    var t0 := CallFirst(x);
    assert [[x]][..0] == [] && [[x]][0] == [x] && [] + [[x]] == [[x]];
    var t1 := ConstFirst(a);
    RunBlockSnoc([a], x, t1, [a]);
    assert [a] + [x] == [a, x];
    StepUnknownFresh(t1, x);
  }

  /** `x = call @f` alone: it is numbered and kept. */
  lemma CallFirst(x: Instr) returns (t: Tables)
    requires x == Instr(Some("call"), Some("x"), None, None, None, None, false)
    ensures RunBlock([x]) == Ok((t, [x]))
  {
    FreshValid();
    t := Number(Fresh(), Opaque(1), "x");
    assert Step(Fresh(), x) == Ok((t, x));
    RunBlockSnoc([], x, Fresh(), []);
    assert [] + [x] == [x];
  }

  /** `a = const 1` alone: it is numbered and kept. */
  lemma ConstFirst(a: Instr) returns (t: Tables)
    requires a == Instr(Some("const"), Some("a"), None, None, Some(IntLit(1)), None, false)
    ensures RunBlock([a]) == Ok((t, [a])) && "a" in t.varToId
  {
    FreshValid();
    var key := Key("const", [Num(1)]);
    t := Number(Fresh(), key, "a");
    assert KeyOf(Fresh(), a) == Ok(Some((key, a)));
    assert Step(Fresh(), a) == Ok((t, a));
    RunBlockSnoc([], a, Fresh(), []);
    assert [] + [a] == [a];
  }

  /** A commutative instruction whose two args are one variable `v`. */
  lemma KeyOfTwin(t: Tables, ins: Instr, v: string)
    requires Valid(t) && ins.dest.Some? && ins.value.None? && ins.args == Some([v, v])
    requires ins.op.Some? && ins.op.value in Commutative
    ensures KeyOf(t, ins) == Ok(Some((Key(ins.op.value, [Ref(t, v), Ref(t, v)]), ins.(args := Some([Canon(t, v), Canon(t, v)])))))
  {
    assert Sort([v]) == [v];
    assert [v, v][..1] == [v];
    assert Sort([v, v]) == [v, v];
    var refs := seq(2, k requires 0 <= k < 2 => Ref(t, [v, v][k]));
    assert refs == [Ref(t, v), Ref(t, v)];
    var renamed := seq(2, k requires 0 <= k < 2 => Canon(t, [v, v][k]));
    assert renamed == [Canon(t, v), Canon(t, v)];
  }

  /** The tables after the first `i` instructions of `y = add x x; x = call @f; z = add x x`. */
  function Renumbered(i: nat): Tables
  {
    var k1 := Key("add", [Var("x"), Var("x")]);
    var k3 := Key("add", [Num(2), Num(2)]);
    if i == 0 then Fresh()
    else if i == 1 then Tables(map[k1 := 1], map["y" := 1], map[1 := Entry(k1, "y")], 2)
    else if i == 2 then
      Tables(map[k1 := 1, Opaque(2) := 2], map["y" := 1, "x" := 2],
             map[1 := Entry(k1, "y"), 2 := Entry(Opaque(2), "x")], 3)
    else
      Tables(map[k1 := 1, Opaque(2) := 2, k3 := 3], map["y" := 1, "x" := 2, "z" := 3],
             map[1 := Entry(k1, "y"), 2 := Entry(Opaque(2), "x"), 3 := Entry(k3, "z")], 4)
  }

  /** One more instruction of the block, kept as it is, takes the tables from `Renumbered(i)` to `Renumbered(i + 1)`. */
  lemma RenumberedStep(instrs: seq<Instr>, ins: Instr, i: nat)
    requires i < 3 && RunBlock(instrs) == Ok((Renumbered(i), instrs))
    requires Step(Renumbered(i), ins) == Ok((Renumbered(i + 1), ins))
    ensures RunBlock(instrs + [ins]) == Ok((Renumbered(i + 1), instrs + [ins]))
  {
    RunBlockSnoc(instrs, ins, Renumbered(i), instrs);
  }

  lemma RenumberedAdd(y: Instr)
    requires y == Instr(Some("add"), Some("y"), Some(["x", "x"]), None, None, None, false)
    ensures RunBlock([y]) == Ok((Renumbered(1), [y]))
  {
    FreshValid();
    KeyOfTwin(Fresh(), y, "x");
    assert RunBlock([]) == Ok((Renumbered(0), []));
    RenumberedStep([], y, 0);
    assert [] + [y] == [y];
  }

  lemma RenumberedCall(y: Instr, x: Instr)
    requires x == Instr(Some("call"), Some("x"), None, None, None, None, false)
    requires RunBlock([y]) == Ok((Renumbered(1), [y]))
    ensures RunBlock([y, x]) == Ok((Renumbered(2), [y, x]))
  {
    RenumberedStep([y], x, 1);
    assert [y] + [x] == [y, x];
  }

  /** After the call, `x` holds the call's own number and is its own canonical variable. */
  lemma RenumberedAfterCall()
    ensures Valid(Renumbered(2))
    ensures Ref(Renumbered(2), "x") == Num(2) && Canon(Renumbered(2), "x") == "x"
    ensures Key("add", [Num(2), Num(2)]) !in Renumbered(2).exprToId
    ensures Number(Renumbered(2), Key("add", [Num(2), Num(2)]), "z") == Renumbered(3)
  {
  }

  lemma RenumberedReaddStep(z: Instr)
    requires z == Instr(Some("add"), Some("z"), Some(["x", "x"]), None, None, None, false)
    ensures Step(Renumbered(2), z) == Ok((Renumbered(3), z))
  {
    RenumberedAfterCall();
    KeyOfTwin(Renumbered(2), z, "x");
  }

  lemma RenumberedReadd(y: Instr, x: Instr, z: Instr)
    requires Step(Renumbered(2), z) == Ok((Renumbered(3), z))
    requires RunBlock([y, x]) == Ok((Renumbered(2), [y, x]))
    ensures RunBlock([y, x, z]) == Ok((Renumbered(3), [y, x, z]))
  {
    RenumberedStep([y, x], z, 2);
    assert [y, x] + [z] == [y, x, z];
  }

  /**
   * A call's result is a new value: in `y = add x x; x = call @f;
   * z = add x x` the second `add` reads the new `x`, so `z` does not get
   * `y`'s number (a later `mul z z` is not rewritten to `mul y y`) and no
   * instruction is rewritten.
   */
  lemma CallResultRenumbered(y: Instr, x: Instr, z: Instr)
    requires y == Instr(Some("add"), Some("y"), Some(["x", "x"]), None, None, None, false)
    requires x == Instr(Some("call"), Some("x"), None, None, None, None, false)
    requires z == Instr(Some("add"), Some("z"), Some(["x", "x"]), None, None, None, false)
    ensures var r := RunBlock([y, x, z]);
            && r.Ok? && r.value.1 == [y, x, z] && "y" in r.value.0.varToId && "z" in r.value.0.varToId
            && r.value.0.varToId["z"] != r.value.0.varToId["y"]
  {
    RenumberedAdd(y);
    RenumberedCall(y, x);
    RenumberedReaddStep(z);
    RenumberedReadd(y, x, z);
    RenumberedApart();
  }

  lemma RenumberedApart()
    ensures "y" in Renumbered(3).varToId && "z" in Renumbered(3).varToId
    ensures Renumbered(3).varToId["z"] != Renumbered(3).varToId["y"]
  {
    assert "z"[0] != "y"[0];
  }
}
