/**
 * L6/test/is_ssa.py: a program is in SSA form when no function assigns the
 * same variable in two of its instructions.
 */
module IsSsa {
  import opened Wrappers
  import opened Bril
  import opened Blocks

  /** A Bril program as the checker sees it: the instruction list of each function. */
  type Program = seq<seq<Instr>>

  /** No two instructions of one function share a `dest`. */
  predicate SingleAssignment(instrs: seq<Instr>)
  {
    forall i, j :: 0 <= i < j < |instrs| && instrs[i].dest.Some? ==> instrs[i].dest != instrs[j].dest
  }

  /** Every function on its own assigns each name at most once. */
  predicate SsaForm(prog: Program)
  {
    forall f :: 0 <= f < |prog| ==> SingleAssignment(prog[f])
  }

  /** No element occurs twice. */
  predicate NoDuplicates(s: seq<string>)
  {
    forall i, j :: 0 <= i < j < |s| ==> s[i] != s[j]
  }

  /**
   * `is_ssa(bril)`: one `assigned` set per function, filled in instruction
   * order, with an early `False` on the first repeated `dest`.
   */
  method CheckSsa(prog: Program) returns (ok: bool)
    ensures ok <==> SsaForm(prog)
  {
    var f := 0;
    while f < |prog|
      invariant f <= |prog|
      invariant forall g :: 0 <= g < f ==> SingleAssignment(prog[g])
    {
      var instrs := prog[f];
      var written: set<string> := {};
      var k := 0;
      while k < |instrs|
        invariant k <= |instrs|
        invariant SingleAssignment(instrs[..k])
        invariant forall x :: x in written <==> exists i :: 0 <= i < k && instrs[i].dest == Some(x)
      {
        if instrs[k].dest.Some? {
          if instrs[k].dest.value in written {
            var i :| 0 <= i < k && instrs[i].dest == instrs[k].dest;
            assert !SingleAssignment(prog[f]);
            return false;
          }
          written := written + {instrs[k].dest.value};
        }
        k := k + 1;
      }
      assert instrs[..k] == instrs;
      f := f + 1;
    }
    return true;
  }

  /**
   * Single assignment says that the list of definitions (instructions
   * without a `dest` skipped) has no repeated name.
   */
  lemma {:induction false} SingleAssignmentDests(instrs: seq<Instr>)
    ensures SingleAssignment(instrs) <==> NoDuplicates(Dests(instrs))
    decreases |instrs|
  {
    if instrs != [] {
      var n := |instrs| - 1;
      var front := instrs[..n];
      assert instrs == front + [instrs[n]];
      SingleAssignmentDests(front);
      SingleAssignmentSnoc(front, instrs[n]);
      DestsConcat(front, [instrs[n]]);
      assert [instrs[n]][..0] == [];
      if instrs[n].dest.Some? {
        NoDuplicatesSnoc(Dests(front), instrs[n].dest.value);
      } else {
        assert Dests(instrs) == Dests(front);
      }
    }
  }

  lemma SingleAssignmentSnoc(front: seq<Instr>, x: Instr)
    ensures SingleAssignment(front + [x]) <==>
              SingleAssignment(front) && (x.dest.Some? ==> x.dest.value !in Dests(front))
  {
    var s := front + [x];
    assert forall i :: 0 <= i < |front| ==> s[i] == front[i];
    if x.dest.Some? && x.dest.value in Dests(front) {
      var k :| 0 <= k < |front| && front[k].dest == x.dest;
      assert s[k].dest == s[|front|].dest;
    }
  }

  lemma NoDuplicatesSnoc(s: seq<string>, y: string)
    ensures NoDuplicates(s + [y]) <==> NoDuplicates(s) && y !in s
  {
    var t := s + [y];
    assert forall i :: 0 <= i < |s| ==> t[i] == s[i];
    if y in s {
      var k :| 0 <= k < |s| && s[k] == y;
      assert t[k] == t[|s|];
    }
  }

  /** A function with a repeated `dest` makes the whole program non-SSA, wherever it sits. */
  lemma ReassignmentIsNotSsa(prog: Program, f: nat, i: nat, j: nat)
    requires f < |prog| && i < j < |prog[f]|
    requires prog[f][i].dest.Some? && prog[f][i].dest == prog[f][j].dest
    ensures !SsaForm(prog)
  {
    assert !SingleAssignment(prog[f]);
  }

  /** The `assigned` set is per function: two functions may assign the same name. */
  lemma SameNameInTwoFunctions(a: seq<Instr>, b: seq<Instr>, x: string)
    requires |a| == 1 && |b| == 1 && a[0].dest == Some(x) && b[0].dest == Some(x)
    ensures SsaForm([a, b]) && !SsaForm([a + b])
  {
    ReassignmentIsNotSsa([a + b], 0, 0, 1);
  }

  /** SSA form is checked function by function. */
  lemma SsaFormAppend(prog: Program, f: seq<Instr>)
    ensures SsaForm(prog + [f]) <==> SsaForm(prog) && SingleAssignment(f)
  {
    assert (prog + [f])[|prog|] == f;
    assert forall g :: 0 <= g < |prog| ==> (prog + [f])[g] == prog[g];
  }
}
