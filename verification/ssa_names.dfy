/**
 * L6/ssa.py, the value side of renaming: versioned names, the per-variable
 * stacks and counters, and what renaming does to the instructions of one
 * block. The `Ssa` class in ssa.dfy keeps these tables as fields and is
 * specified by the functions here.
 */
module SsaNames {
  import opened Wrappers
  import opened Bril
  import opened Blocks
  import IsSsa

  /** `stack`: for each variable, its versioned names, newest first. */
  type Stacks = map<string, seq<string>>

  /** `counter2var`: a `defaultdict(int)`, so an absent variable counts 0. */
  type Counters = map<string, nat>

  /** `SSA.UNDEFINED`, the phi argument for a variable with no definition on the path. */
  const Undefined := "_undef_"

  function Count(counter: Counters, v: string): nat
  {
    if v in counter then counter[v] else 0
  }

  /** The list of `v` in the `defaultdict(list)`, empty when `v` was never pushed. */
  function StackOf(stack: Stacks, v: string): seq<string>
  {
    if v in stack then stack[v] else []
  }

  /** `"{}.{}".format(v, k)`: the k-th version of `v`. */
  function Version(v: string, k: nat): (name: string)
    ensures |name| > |v| && name[..|v|] == v && name[|v|] == '.'
    ensures forall i :: |v| < i < |name| ==> '0' <= name[i] <= '9'
  {
    var digits := NatToString(k);
    var name := v + "." + digits;
    assert forall i :: |v| < i < |name| ==> name[i] == digits[i - |v| - 1] && digits[i - |v| - 1] in digits;
    name
  }

  /**
   * Versioned names never collide: the last '.' of a name separates the
   * variable from its all-digit counter, so the name determines both.
   */
  lemma VersionInjective(v: string, k: nat, w: string, m: nat)
    requires Version(v, k) == Version(w, m)
    ensures v == w && k == m
  {
    var s := Version(v, k);
    assert v == s[..|v|] == w;
    assert NatToString(k) == s[|v| + 1..] == NatToString(m);
    if k != m {
      NatToStringInjective(k, m);
    }
  }

  /**
   * `_stack_push(v)`: the next version of `v` becomes the top of its stack
   * and `v`'s counter goes up by one.
   */
  function Push(stack: Stacks, counter: Counters, v: string): (r: (Stacks, Counters, string))
    ensures r.2 == Version(v, Count(counter, v))
    ensures Count(r.1, v) == Count(counter, v) + 1
    ensures StackOf(r.0, v) == [r.2] + StackOf(stack, v)
    ensures forall w :: w != v ==> StackOf(r.0, w) == StackOf(stack, w) && Count(r.1, w) == Count(counter, w)
    ensures forall w :: w in r.0 <==> w in stack || w == v
  {
    var name := Version(v, Count(counter, v));
    (stack[v := [name] + StackOf(stack, v)], counter[v := Count(counter, v) + 1], name)
  }

  /** `_stack_peek(v)`: the top of `v`'s stack; an empty or missing stack is an `IndexError`. */
  function Peek(stack: Stacks, v: string): (r: Result<string>)
    ensures r.Ok? <==> StackOf(stack, v) != []
    ensures r.Ok? ==> r.value == StackOf(stack, v)[0]
  {
    if v in stack && stack[v] != [] then Ok(stack[v][0]) else Err(IndexError)
  }

  /** After a push, peeking gives back the name the push returned. */
  lemma PeekAfterPush(stack: Stacks, counter: Counters, v: string)
    ensures var r := Push(stack, counter, v);
            Peek(r.0, v) == Ok(r.2) && r.2 == Version(v, Count(counter, v))
  {
  }

  /**
   * A push hands out a name that no earlier push of any variable returned,
   * as long as every earlier version of each variable is below its counter.
   */
  lemma PushFresh(counter: Counters, v: string, w: string, m: nat)
    requires m < Count(counter, w)
    ensures Version(v, Count(counter, v)) != Version(w, m)
  {
    if Version(v, Count(counter, v)) == Version(w, m) {
      VersionInjective(v, Count(counter, v), w, m);
    }
  }

  /** `defaultdict(list, {arg: [arg] for arg in args})`: each parameter is its own first version. */
  function InitialStacks(args: seq<string>): (stack: Stacks)
    ensures forall a :: a in stack <==> a in args
  {
    map a | a in args :: [a]
  }

  lemma InitialStacksPeek(args: seq<string>, v: string)
    ensures Peek(InitialStacks(args), v) == if v in args then Ok(v) else Err(IndexError)
  {
  }

  // ------------------------------------------------------------ one block

  /** Every arg of `names` has a non-empty stack. */
  predicate AllBound(stack: Stacks, names: seq<string>)
  {
    forall k :: 0 <= k < |names| ==> Peek(stack, names[k]).Ok?
  }

  /** The args rewritten to the tops of their stacks. */
  function Tops(stack: Stacks, names: seq<string>): (r: seq<string>)
    requires AllBound(stack, names)
    ensures |r| == |names|
    ensures forall k :: 0 <= k < |names| ==> Peek(stack, names[k]) == Ok(r[k])
  {
    seq(|names|, k requires 0 <= k < |names| => Peek(stack, names[k]).value)
  }

  /**
   * One instruction of `__rename`: each arg becomes the top of its stack
   * (an unbound arg is an `IndexError`), then the `dest` is pushed and
   * replaced by the new version. Args are read before the `dest` is pushed.
   */
  function RenameInstr(stack: Stacks, counter: Counters, ins: Instr): (r: Result<(Stacks, Counters, Instr)>)
    ensures r.Err? <==> ins.args.Some? && !AllBound(stack, ins.args.value)
    ensures r.Ok? ==> r.value.2 == ins.(args := r.value.2.args, dest := r.value.2.dest)
  {
    if ins.args.Some? && !AllBound(stack, ins.args.value) then Err(IndexError)
    else
      var args := if ins.args.Some? then Some(Tops(stack, ins.args.value)) else None;
      if ins.dest.Some? then
        var (stack', counter', name) := Push(stack, counter, ins.dest.value);
        Ok((stack', counter', ins.(args := args, dest := Some(name))))
      else Ok((stack, counter, ins.(args := args)))
  }

  /** The instruction loop of `__rename`, over the first instructions of a block. */
  function RenameInstrs(stack: Stacks, counter: Counters, instrs: seq<Instr>): (r: Result<(Stacks, Counters, seq<Instr>)>)
    ensures r.Ok? ==> |r.value.2| == |instrs|
    decreases |instrs|
  {
    if instrs == [] then Ok((stack, counter, []))
    else
      match RenameInstrs(stack, counter, instrs[..|instrs| - 1])
      case Err(e) => Err(e)
      case Ok((s, c, out)) =>
        match RenameInstr(s, c, instrs[|instrs| - 1])
        case Err(e) => Err(e)
        case Ok((s', c', ins')) => Ok((s', c', out + [ins']))
  }

  /** The block loop after one more instruction. */
  lemma RenameInstrsSnoc(stack: Stacks, counter: Counters, instrs: seq<Instr>, ins: Instr)
    ensures RenameInstrs(stack, counter, instrs + [ins]) ==
              match RenameInstrs(stack, counter, instrs)
              case Err(e) => Err(e)
              case Ok((s, c, out)) =>
                match RenameInstr(s, c, ins)
                case Err(e) => Err(e)
                case Ok((s', c', ins')) => Ok((s', c', out + [ins']))
  {
    var all := instrs + [ins];
    assert all[..|all| - 1] == instrs && all[|all| - 1] == ins;
  }

  /**
   * The renamed `dest` of each instruction is a version of its original
   * `dest` numbered from the variable's counter on entry up to (but not
   * including) its counter on exit, and the counters never go down.
   */
  ghost predicate VersionsBetween(counter: Counters, counter': Counters, instrs: seq<Instr>, out: seq<Instr>)
    requires |out| == |instrs|
  {
    forall i :: 0 <= i < |out| ==>
      (out[i].dest.Some? <==> instrs[i].dest.Some?) &&
      (out[i].dest.Some? ==> exists k :: Count(counter, instrs[i].dest.value) <= k < Count(counter', instrs[i].dest.value) &&
                                        out[i].dest.value == Version(instrs[i].dest.value, k))
  }

  /** No two renamed instructions that have a `dest` share it. */
  ghost predicate DistinctDests(counter: Counters, counter': Counters, instrs: seq<Instr>, out: seq<Instr>)
    requires |out| == |instrs|
  {
    forall i, j :: 0 <= i < j < |out| && instrs[i].dest.Some? && instrs[j].dest.Some? ==>
      out[i].dest != out[j].dest
  }

  /** One more renamed instruction keeps its versions within the counters and apart from the earlier ones. */
  lemma VersionsStep(counter: Counters, c: Counters, s: Stacks, front: seq<Instr>, out: seq<Instr>, ins: Instr)
    requires |out| == |front| && RenameInstr(s, c, ins).Ok?
    requires forall v :: Count(counter, v) <= Count(c, v)
    requires VersionsBetween(counter, c, front, out) && DistinctDests(counter, c, front, out)
    ensures var (_, c', ins') := RenameInstr(s, c, ins).value;
            && (forall v :: Count(counter, v) <= Count(c', v))
            && VersionsBetween(counter, c', front + [ins], out + [ins'])
            && DistinctDests(counter, c', front + [ins], out + [ins'])
  {
    var (s', c', ins') := RenameInstr(s, c, ins).value;
    var all := out + [ins'];
    var instrs := front + [ins];
    var n := |front|;
    assert forall i :: 0 <= i < n ==> all[i] == out[i] && instrs[i] == front[i];
    assert forall v :: Count(c, v) <= Count(c', v);
    if ins.dest.Some? {
      var v := ins.dest.value;
      assert ins'.dest == Some(Version(v, Count(c, v)));
      forall i | 0 <= i < n && instrs[i].dest.Some?
        ensures all[i].dest != all[n].dest
      {
        var w := front[i].dest.value;
        var k :| Count(counter, w) <= k < Count(c, w) && out[i].dest.value == Version(w, k);
        PushFresh(c, v, w, k);
      }
    }
  }

  lemma {:induction false} RenameInstrsVersions(stack: Stacks, counter: Counters, instrs: seq<Instr>)
    requires RenameInstrs(stack, counter, instrs).Ok?
    ensures var (_, c', out) := RenameInstrs(stack, counter, instrs).value;
            && (forall v :: Count(counter, v) <= Count(c', v))
            && VersionsBetween(counter, c', instrs, out)
            && DistinctDests(counter, c', instrs, out)
    decreases |instrs|
  {
    if instrs != [] {
      var n := |instrs| - 1;
      var front := instrs[..n];
      assert instrs == front + [instrs[n]];
      RenameInstrsSnoc(stack, counter, front, instrs[n]);
      RenameInstrsVersions(stack, counter, front);
      var (s, c, out) := RenameInstrs(stack, counter, front).value;
      VersionsStep(counter, c, s, front, out, instrs[n]);
    }
  }

  /** One renamed block is in SSA form: no two of its instructions share a `dest`. */
  lemma RenameInstrsSingleAssignment(stack: Stacks, counter: Counters, instrs: seq<Instr>)
    requires RenameInstrs(stack, counter, instrs).Ok?
    ensures IsSsa.SingleAssignment(RenameInstrs(stack, counter, instrs).value.2)
  {
    RenameInstrsVersions(stack, counter, instrs);
  }

  // ------------------------------------------------------------ as written

  /**
   * `[self._stack_push(v) for v in instr["dest"]]` iterates the characters
   * of the `dest` string: each character is pushed as a variable of its own
   * and the `dest` becomes the list of their versions.
   */
  function DestAsWritten(stack: Stacks, counter: Counters, dest: string): (r: (Stacks, Counters, seq<string>))
    ensures |r.2| == |dest|
    decreases |dest|
  {
    if dest == [] then (stack, counter, [])
    else
      var (s, c, names) := DestAsWritten(stack, counter, dest[..|dest| - 1]);
      var (s', c', name) := Push(s, c, [dest[|dest| - 1]]);
      (s', c', names + [name])
  }

  /**
   * `x.ab = ...` on fresh tables: as written the `dest` becomes
   * `["a.0", "b.0"]` and the stack of `ab` stays empty, so a later use of
   * `ab` raises; pushing the whole name gives `"ab.0"`.
   */
  lemma DestSplitIntoCharacters()
    ensures DestAsWritten(map[], map[], "ab").2 == ["a.0", "b.0"]
    ensures Peek(DestAsWritten(map[], map[], "ab").0, "ab") == Err(IndexError)
    ensures Push(map[], map[], "ab").2 == "ab.0"
    ensures Peek(Push(map[], map[], "ab").0, "ab") == Ok("ab.0")
  {
    var empty: Stacks, none: Counters := map[], map[];
    assert NatToString(0) == "0";
    assert Version("a", 0) == "a.0" && Version("b", 0) == "b.0" && Version("ab", 0) == "ab.0";
    assert "ab"[..1] == "a" && "ab"[1] == 'b' && "a"[..0] == "" && "a"[0] == 'a';
    assert DestAsWritten(empty, none, "") == (empty, none, []);
    var (s1, c1, n1) := Push(empty, none, "a");
    assert DestAsWritten(empty, none, "a") == (s1, c1, [] + [n1]);
    assert n1 == "a.0" && Count(c1, "b") == 0;
    assert ['a'] == "a" && ['b'] == "b";
    assert "ab"[..|"ab"| - 1] == "a" && "ab"[|"ab"| - 1] == 'b';
    assert [] + [n1] == [n1];
    var (s2, c2, n2) := Push(s1, c1, "b");
    assert DestAsWritten(empty, none, "ab") == (s2, c2, [n1] + [n2]);
    assert n2 == "b.0";
    assert "ab" !in s2;
  }

  /**
   * `self.stack.clear(); self.stack.update(tmp)`: `tmp` is a shallow copy,
   * so each restored key gets back the same list object, which the pushes
   * of the block and of the blocks it dominates have grown in place. Only
   * the key set is rolled back.
   */
  function RestoreKeys(now: Stacks, entry: Stacks): (r: Stacks)
    ensures r.Keys == entry.Keys
    ensures forall v :: v in entry && v in now ==> r[v] == now[v]
  {
    map v | v in entry :: if v in now then now[v] else entry[v]
  }

  /**
   * A block defining `x` (top `"x.0"`) dominates two siblings; the first
   * sibling redefines `x`. As written the second sibling still sees `"x.1"`
   * on top after the first one returns; rolling the contents back (the
   * `Ssa.Rename` model) gives `"x.0"`.
   */
  lemma StaleSiblingTop()
    ensures var entry: Stacks := map["x" := ["x.0"]];
            var counter: Counters := map["x" := 1];
            var afterSibling := Push(entry, counter, "x").0;
            && Peek(afterSibling, "x") == Ok("x.1")
            && Peek(RestoreKeys(afterSibling, entry), "x") == Ok("x.1")
            && Peek(entry, "x") == Ok("x.0")
  {
    var entry: Stacks := map["x" := ["x.0"]];
    var counter: Counters := map["x" := 1];
    assert NatToString(1) == "1" && Version("x", 1) == "x.1";
    var afterSibling := Push(entry, counter, "x").0;
    assert afterSibling["x"] == ["x.1", "x.0"];
    assert RestoreKeys(afterSibling, entry)["x"] == ["x.1", "x.0"];
  }
}
