/**
 * The instruction record of the Bril intermediate representation, as the
 * passes see it: a dict whose keys are all optional. Only the fields the
 * passes read or write are modelled; `isInvariant` stands for the presence of
 * the "invariant" key that the loop pass adds, `entryLabel` for the "label"
 * key that starts a block.
 */
module Bril {
  import opened Wrappers

  /** A literal operand of a `const` instruction. */
  datatype Literal = IntLit(i: int) | BoolLit(b: bool)

  datatype Instr = Instr(
    op: Option<string>,
    dest: Option<string>,
    args: Option<seq<string>>,
    labels: Option<seq<string>>,
    value: Option<Literal>,
    entryLabel: Option<string>,
    isInvariant: bool)

  /** An instruction that only carries a label: `{"label": l}`. */
  function LabelInstr(l: string): Instr
  {
    Instr(None, None, None, None, None, Some(l), false)
  }

  predicate HasLabel(i: Instr) { i.entryLabel.Some? }

  predicate HasDest(i: Instr) { i.dest.Some? }

  /** `'op' in instr and instr['op'] in {'br', 'jmp'}` */
  predicate IsJump(i: Instr)
  {
    i.op == Some("br") || i.op == Some("jmp")
  }

  /** The arguments of an instruction, empty when it has none. */
  function ArgsOf(i: Instr): seq<string>
  {
    if i.args.Some? then i.args.value else []
  }

  /** Python truthiness of an optional string: None and "" are false. */
  predicate Truthy(s: Option<string>)
  {
    s.Some? && s.value != ""
  }

  /** Concatenation of a list of lists. */
  function Flatten<T>(parts: seq<seq<T>>): (r: seq<T>)
    ensures parts == [] ==> r == []
  {
    if parts == [] then [] else Flatten(parts[..|parts| - 1]) + parts[|parts| - 1]
  }

  lemma {:induction false} FlattenAppend<T>(parts: seq<seq<T>>, p: seq<T>)
    ensures Flatten(parts + [p]) == Flatten(parts) + p
  {
    assert (parts + [p])[..|parts|] == parts;
  }

  lemma {:induction false} FlattenConcat<T>(a: seq<seq<T>>, b: seq<seq<T>>)
    ensures Flatten(a + b) == Flatten(a) + Flatten(b)
    decreases |b|
  {
    if b == [] {
      assert a + b == a;
    } else {
      var b' := b[..|b| - 1];
      assert a + b == (a + b') + [b[|b| - 1]];
      FlattenAppend(a + b', b[|b| - 1]);
      FlattenConcat(a, b');
      FlattenAppend(b', b[|b| - 1]);
      assert b == b' + [b[|b| - 1]];
    }
  }

  /** `"{}".format(n)`: the decimal digits of `n`. */
  function NatToString(n: nat): (s: string)
    ensures |s| > 0
    ensures forall c :: c in s ==> '0' <= c <= '9'
    decreases n
  {
    var d := ['0' + (n % 10) as char];
    if n < 10 then d else NatToString(n / 10) + d
  }

  /** Different numbers have different decimal renderings. */
  lemma {:induction false} NatToStringInjective(m: nat, n: nat)
    requires m != n
    ensures NatToString(m) != NatToString(n)
    decreases m + n
  {
    var sm, sn := NatToString(m), NatToString(n);
    if m < 10 && n < 10 {
    } else if m < 10 || n < 10 {
      var big := if m < 10 then n else m;
      assert |NatToString(big)| == |NatToString(big / 10)| + 1;
    } else if m % 10 != n % 10 {
      assert sm[|sm| - 1] != sn[|sn| - 1];
    } else {
      NatToStringInjective(m / 10, n / 10);
      assert sm[..|sm| - 1] == NatToString(m / 10);
      assert sn[..|sn| - 1] == NatToString(n / 10);
    }
  }

  /** The elements of a list, as a set. */
  function Elems<T>(s: seq<T>): set<T>
  {
    set x | x in s
  }

  /** Python's `sub in s` for strings. */
  predicate Contains(s: string, sub: string)
  {
    sub <= s || (s != [] && Contains(s[1..], sub))
  }

  /**
   * A class-level counter of the source (`Block.block_id`, `Loop.PREHEAD_IDX`),
   * held as an explicit object that is passed to whoever reads and bumps it.
   */
  class Counter {
    var value: nat

    constructor (start: nat)
      ensures value == start
    {
      value := start;
    }
  }
}
