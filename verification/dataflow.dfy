/**
 * The merge and transfer functions of the dataflow solver (lib/Worklist.py,
 * and the identical `union`, `uses` and `transfer_live` of L4/Worklist.py).
 * Python dicts become maps here: the solver only compares them for equality,
 * which ignores insertion order.
 */
module Dataflow {
  import opened Wrappers
  import opened Bril

  /**
   * A value stored in a fact map: a definition record (lib/Definition.py),
   * the position `transfer_live` pairs a used variable with, a constant, or
   * the `"?"` conflict marker of constant propagation.
   */
  datatype Val = Defn(name: string, uid: nat) | Index(i: int) | Known(l: Literal) | Unknown

  type Facts = map<string, Val>

  // ---------------------------------------------------------------- union

  /** `union(dicts)`: later dicts overwrite earlier ones. */
  function UnionOf(ds: seq<Facts>): Facts
  {
    if ds == [] then map[] else UnionOf(ds[..|ds| - 1]) + ds[|ds| - 1]
  }

  /** The keys of the union are the keys of the inputs. */
  lemma {:induction false} UnionKeys(ds: seq<Facts>, k: string)
    ensures k in UnionOf(ds) <==> exists i :: 0 <= i < |ds| && k in ds[i]
  {
    if ds != [] {
      var init := ds[..|ds| - 1];
      UnionKeys(init, k);
      assert forall i :: 0 <= i < |init| ==> init[i] == ds[i];
    }
  }

  /** Each value comes from the last dict that holds its key. */
  lemma {:induction false} UnionLastWins(ds: seq<Facts>, i: nat, k: string)
    requires i < |ds| && k in ds[i]
    requires forall j :: i < j < |ds| ==> k !in ds[j]
    ensures k in UnionOf(ds) && UnionOf(ds)[k] == ds[i][k]
  {
    var init := ds[..|ds| - 1];
    if i < |ds| - 1 {
      assert forall j :: i < j < |init| ==> init[j] == ds[j];
      UnionLastWins(init, i, k);
    }
  }

  /** `union(dicts)`, with its two loops. */
  method Union(ds: seq<Facts>) returns (result: Facts)
    ensures result == UnionOf(ds)
  {
    result := map[];
    var i := 0;
    while i < |ds|
      invariant i <= |ds|
      invariant result == UnionOf(ds[..i])
    {
      var d := ds[i];
      var keys := d.Keys;
      ghost var before := result;
      while keys != {}
        invariant keys <= d.Keys
        invariant result == before + map k | k in d.Keys - keys :: d[k]
        decreases keys
      {
        var k :| k in keys;
        result := result[k := d[k]];
        keys := keys - {k};
      }
      assert (map k | k in d.Keys - {} :: d[k]) == d;
      assert ds[..i + 1][..i] == ds[..i];
      i := i + 1;
    }
    assert ds[..i] == ds;
  }

  // ---------------------------------------------------------------- uses

  /** The variables the instructions write. */
  function DestSet(s: seq<Instr>): set<string>
  {
    set i | 0 <= i < |s| && s[i].dest.Some? :: s[i].dest.value
  }

  /** `uses(block)`: the arguments read before any earlier write in the block. */
  function UsesOf(s: seq<Instr>): set<string>
  {
    if s == [] then {}
    else
      var init := s[..|s| - 1];
      UsesOf(init) + set a | a in ArgsOf(s[|s| - 1]) && a !in DestSet(init)
  }

  /**
   * An argument is a use exactly when no earlier instruction wrote it. The
   * instruction's own dest does not count, as the args are read first.
   */
  lemma {:induction false} UsesIff(s: seq<Instr>, x: string)
    ensures x in UsesOf(s) <==> exists i :: 0 <= i < |s| && x in ArgsOf(s[i]) && x !in DestSet(s[..i])
  {
    if s != [] {
      var init := s[..|s| - 1];
      UsesIff(init, x);
      assert forall i :: 0 <= i < |init| ==> init[..i] == s[..i] && init[i] == s[i];
    }
  }

  /** `uses(block)`, with its loops and the `wrote_to` set. */
  method Uses(instrs: seq<Instr>) returns (uses: set<string>)
    ensures uses == UsesOf(instrs)
  {
    uses := {};
    var wroteTo: set<string> := {};
    var n := 0;
    while n < |instrs|
      invariant n <= |instrs|
      invariant uses == UsesOf(instrs[..n]) && wroteTo == DestSet(instrs[..n])
    {
      var instr := instrs[n];
      var args := ArgsOf(instr);
      ghost var before := uses;
      var j := 0;
      while j < |args|
        invariant j <= |args|
        invariant uses == before + set a | a in args[..j] && a !in wroteTo
      {
        if args[j] !in wroteTo {
          uses := uses + {args[j]};
        }
        assert args[..j + 1] == args[..j] + [args[j]];
        j := j + 1;
      }
      assert args[..j] == args;
      assert instrs[..n + 1][..n] == instrs[..n] && instrs[..n + 1][n] == instr;
      if instr.dest.Some? {
        wroteTo := wroteTo + {instr.dest.value};
      }
      DestSetAppend(instrs[..n], instr);
      n := n + 1;
    }
    assert instrs[..n] == instrs;
  }

  lemma DestSetAppend(s: seq<Instr>, x: Instr)
    ensures DestSet(s + [x]) == DestSet(s) + (if x.dest.Some? then {x.dest.value} else {})
  {
    var t := s + [x];
    assert forall i :: 0 <= i < |s| ==> t[i] == s[i];
    assert t[|s|] == x;
  }

  // ---------------------------------------------------------------- constant propagation

  /** The value `cprop_union` settles on for `k` after merging `d` into `r`. */
  function MergeKey(r: Facts, d: Facts, k: string): Val
    requires k in r || k in d
  {
    if k !in r then d[k]
    else if k in d && d[k] != r[k] then Unknown
    else r[k]
  }

  /** One round of the `cprop_union` outer loop: `d` merged into `r`. */
  function CpropMerge(r: Facts, d: Facts): Facts
  {
    map k | k in r.Keys + d.Keys :: MergeKey(r, d, k)
  }

  /** `cprop_union(dicts)`. */
  function CpropUnionOf(ds: seq<Facts>): Facts
  {
    if ds == [] then map[] else CpropMerge(CpropUnionOf(ds[..|ds| - 1]), ds[|ds| - 1])
  }

  /** Every dict holding `k` agrees on `v`. */
  ghost predicate AllAgree(ds: seq<Facts>, k: string, v: Val)
  {
    forall i :: 0 <= i < |ds| && k in ds[i] ==> ds[i][k] == v
  }

  /** Some dict holds `k`. */
  ghost predicate SomeHolds(ds: seq<Facts>, k: string)
  {
    exists i :: 0 <= i < |ds| && k in ds[i]
  }

  /** Two dicts hold `k` with different values. */
  ghost predicate Disagree(ds: seq<Facts>, k: string)
  {
    exists i, j :: 0 <= i < |ds| && 0 <= j < |ds| && k in ds[i] && k in ds[j] && ds[i][k] != ds[j][k]
  }

  /**
   * The keys are those of the inputs; a key whose values all agree keeps that
   * value; and a key on which two inputs disagree gets `"?"`.
   */
  lemma {:induction false} CpropUnionSpec(ds: seq<Facts>, k: string)
    ensures k in CpropUnionOf(ds) <==> SomeHolds(ds, k)
    ensures forall v :: SomeHolds(ds, k) && AllAgree(ds, k, v) ==> CpropUnionOf(ds)[k] == v
    ensures Disagree(ds, k) ==> CpropUnionOf(ds)[k] == Unknown
  {
    if ds != [] {
      var init := ds[..|ds| - 1];
      var d := ds[|ds| - 1];
      var r := CpropUnionOf(init);
      CpropUnionSpec(init, k);
      assert forall i :: 0 <= i < |init| ==> init[i] == ds[i];
      assert SomeHolds(ds, k) <==> SomeHolds(init, k) || k in d by {
        if k in d { assert ds[|ds| - 1] == d; }
      }
      if SomeHolds(ds, k) {
        var w := CpropUnionOf(ds)[k];
        assert w == MergeKey(r, d, k);
        forall v | AllAgree(ds, k, v)
          ensures w == v
        {
          assert AllAgree(init, k, v);
          if k in d { assert ds[|ds| - 1] == d; }
        }
        if Disagree(ds, k) {
          var i, j :| 0 <= i < |ds| && 0 <= j < |ds| && k in ds[i] && k in ds[j] && ds[i][k] != ds[j][k];
          if i < |init| && j < |init| {
            assert Disagree(init, k);
          } else {
            assert k in d;
            if SomeHolds(init, k) && r[k] != Unknown {
              ConflictFree(init, k);
              assert AllAgree(init, k, r[k]);
            }
          }
        }
      }
    }
  }

  /** A key that does not end up `"?"` had one value throughout. */
  lemma {:induction false} ConflictFree(ds: seq<Facts>, k: string)
    requires k in CpropUnionOf(ds) && CpropUnionOf(ds)[k] != Unknown
    ensures AllAgree(ds, k, CpropUnionOf(ds)[k])
  {
    var init := ds[..|ds| - 1];
    var d := ds[|ds| - 1];
    var r := CpropUnionOf(init);
    assert forall i :: 0 <= i < |init| ==> init[i] == ds[i];
    if k in r {
      ConflictFree(init, k);
    } else {
      CpropUnionSpec(init, k);
    }
  }

  /** `cprop_union(dicts)`, with its outer loop. */
  method CpropUnion(ds: seq<Facts>) returns (result: Facts)
    ensures result == CpropUnionOf(ds)
  {
    result := map[];
    var i := 0;
    while i < |ds|
      invariant i <= |ds|
      invariant result == CpropUnionOf(ds[..i])
    {
      result := CpropMergeLoop(result, ds[i]);
      assert ds[..i + 1][..i] == ds[..i];
      i := i + 1;
    }
    assert ds[..i] == ds;
  }

  /** The inner loop shared by `cprop_union` and `cprop_transfer`: merge `d` into `r` key by key. */
  method CpropMergeLoop(r: Facts, d: Facts) returns (result: Facts)
    ensures result == CpropMerge(r, d)
  {
    result := r;
    var keys := d.Keys;
    while keys != {}
      invariant keys <= d.Keys
      invariant forall k :: k in result <==> k in r || (k in d && k !in keys)
      invariant forall k :: k in result ==> result[k] == (if k in d && k !in keys then MergeKey(r, d, k) else r[k])
      decreases keys
    {
      var k :| k in keys;
      if k !in result {
        result := result[k := d[k]];
      } else if d[k] != result[k] {
        result := result[k := Unknown];
      }
      keys := keys - {k};
    }
  }

  lemma CpropPair(block: Facts, merged: Facts)
    ensures CpropUnionOf([block, merged]) == CpropMerge(block, merged)
  {
    var two := [block, merged];
    assert two[..1] == [block] && two[1] == merged;
    assert [block][..0] == [];
    assert CpropUnionOf([block]) == CpropMerge(map[], block);
    assert CpropMerge(map[], block) == block;
  }

  /** `cprop_transfer(block, merged)`: a copy of `block`, then `merged` merged in. */
  method CpropTransfer(block: Facts, merged: Facts) returns (result: Facts)
    ensures result == CpropUnionOf([block, merged])
  {
    result := map[];
    var keys := block.Keys;
    while keys != {}
      invariant keys <= block.Keys
      invariant forall k :: k in result <==> k in block && k !in keys
      invariant forall k :: k in result ==> result[k] == block[k]
      decreases keys
    {
      var k :| k in keys;
      result := result[k := block[k]];
      keys := keys - {k};
    }
    assert result == block;
    result := CpropMergeLoop(result, merged);
    CpropPair(block, merged);
  }

  /**
   * What `cprop_transfer` keeps: the block's value where `merged` lacks the
   * key or agrees, `merged`'s value for keys the block lacks, `"?"` on conflict.
   */
  lemma CpropTransferFacts(block: Facts, merged: Facts, k: string)
    ensures k in CpropUnionOf([block, merged]) <==> k in block || k in merged
    ensures k in block && (k !in merged || merged[k] == block[k]) ==> CpropUnionOf([block, merged])[k] == block[k]
    ensures k !in block && k in merged ==> CpropUnionOf([block, merged])[k] == merged[k]
    ensures k in block && k in merged && merged[k] != block[k] ==> CpropUnionOf([block, merged])[k] == Unknown
  {
    CpropPair(block, merged);
  }

  // ---------------------------------------------------------------- transfer functions

  /** `dict(zip(used_vars, range(len(used_vars))))` for the iteration order `order`. */
  function ZipIndex(order: seq<string>): (r: Facts)
    ensures r.Keys == set x | x in order
    ensures forall x :: x in r ==> exists i :: 0 <= i < |order| && order[i] == x && r[x] == Index(i)
  {
    if order == [] then map[]
    else ZipIndex(order[..|order| - 1])[order[|order| - 1] := Index(|order| - 1)]
  }

  /**
   * `transfer_live(block, inputs)`: the inputs minus the block's (annotated)
   * definitions, updated with the block's uses. `order` is the iteration order
   * of the `uses` set, which Python leaves to the hash function.
   */
  function TransferLive(order: seq<string>, defs: Facts, inputs: Facts): (r: Facts)
    ensures r.Keys == (inputs.Keys - defs.Keys) + (set x | x in order)
    ensures forall k :: k in inputs && k !in defs && k !in order ==> r[k] == inputs[k]
  {
    (map k | k in inputs && k !in defs :: inputs[k]) + ZipIndex(order)
  }

  /** With `order` an enumeration of the block's uses, the live-out keys are (in - defs) + uses. */
  lemma LiveKeys(order: seq<string>, instrs: seq<Instr>, defs: Facts, inputs: Facts)
    requires (set x | x in order) == UsesOf(instrs)
    ensures TransferLive(order, defs, inputs).Keys == (inputs.Keys - defs.Keys) + UsesOf(instrs)
  {
  }

  /** `transfer_reaching(block, inputs)`: the inputs, overridden by the block's definitions. */
  function TransferReaching(defs: Facts, inputs: Facts): (r: Facts)
    ensures r.Keys == inputs.Keys + defs.Keys
    ensures forall k :: k in defs ==> r[k] == defs[k]
    ensures forall k :: k in inputs && k !in defs ==> r[k] == inputs[k]
  {
    inputs + defs
  }

  /** The `defined` transfer `dict(defs, **inputs)`: incoming values override the block's own. */
  function TransferDefined(defs: Facts, inputs: Facts): (r: Facts)
    ensures r.Keys == inputs.Keys + defs.Keys
    ensures forall k :: k in inputs ==> r[k] == inputs[k]
    ensures forall k :: k in defs && k !in inputs ==> r[k] == defs[k]
  {
    defs + inputs
  }
}
