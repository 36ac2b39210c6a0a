/**
 * L6/ssa.py, phi placement: `__get_defs_to_blocks` records where each
 * variable is defined, and `__init_phi_nodes` spreads each variable's
 * definition list along the dominance frontiers until it stops growing,
 * putting a phi for the variable in every frontier block it meets. The
 * frontiers come from the CFG's dominance analysis, which is an input here.
 */
module SsaPhi {
  import opened Wrappers
  import opened Bril
  import opened Blocks
  import opened PyDict
  import IsSsa

  /** A block-name graph given as a dict of lists: dominance frontiers, the dominator tree, successors. */
  type Graph = map<Name, seq<Name>>

  /** `phi2blocks`: for each block, the variables that get a phi there, in the order they were added. */
  type PhiMap = map<Name, seq<string>>

  /** A definition site: a defined variable and the name of the block defining it. */
  type Site = (string, Name)

  /** Lookup in a `defaultdict(list)`: an absent block has no phis. */
  function PhiAt(phi: PhiMap, b: Name): seq<string>
  {
    if b in phi then phi[b] else []
  }

  // ------------------------------------------------------------ definition sites

  /** Each definition of a list, tagged with the block name. */
  function Tag(defs: seq<string>, n: Name): (r: seq<Site>)
    ensures |r| == |defs|
    ensures forall i :: 0 <= i < |defs| ==> r[i] == (defs[i], n)
  {
    seq(|defs|, i requires 0 <= i < |defs| => (defs[i], n))
  }

  /** The definition sites of a block list: block by block, each block's definitions in order. */
  function Sites(blocks: seq<Block>): seq<Site>
    reads blocks
  {
    if blocks == [] then []
    else
      var b := blocks[|blocks| - 1];
      Sites(blocks[..|blocks| - 1]) + Tag(b.GetDefinitions(), b.name)
  }

  /** A site of the list comes from a block of that name that defines the variable. */
  lemma {:induction false} SitesWitness(blocks: seq<Block>, v: string, n: Name) returns (i: nat)
    requires (v, n) in Sites(blocks)
    ensures i < |blocks| && blocks[i].name == n && v in blocks[i].GetDefinitions()
    decreases |blocks|
  {
    var k := |blocks| - 1;
    var defs := blocks[k].GetDefinitions();
    var tag := Tag(defs, blocks[k].name);
    if (v, n) in tag {
      var j :| 0 <= j < |tag| && tag[j] == (v, n);
      assert defs[j] == v;
      i := k;
    } else {
      i := SitesWitness(blocks[..k], v, n);
      assert blocks[..k][i] == blocks[i];
    }
  }

  /** Every definition of every block is a site of the list. */
  lemma {:induction false} SitesComplete(blocks: seq<Block>, i: nat, v: string)
    requires i < |blocks| && v in blocks[i].GetDefinitions()
    ensures (v, blocks[i].name) in Sites(blocks)
    decreases |blocks|
  {
    var k := |blocks| - 1;
    var defs := blocks[k].GetDefinitions();
    var tag := Tag(defs, blocks[k].name);
    if i == k {
      var j :| 0 <= j < |defs| && defs[j] == v;
      assert tag[j] == (v, blocks[i].name);
    } else {
      assert blocks[..k][i] == blocks[i];
      SitesComplete(blocks[..k], i, v);
    }
  }

  /** The blocks defining `v`, in site order, once per definition. */
  function SitesOf(sites: seq<Site>, v: string): (r: seq<Name>)
    ensures forall n :: n in r <==> (v, n) in sites
  {
    if sites == [] then []
    else
      var last := sites[|sites| - 1];
      var r := SitesOf(sites[..|sites| - 1], v) + (if last.0 == v then [last.1] else []);
      assert forall s :: s in sites <==> s in sites[..|sites| - 1] || s == last by {
        assert sites == sites[..|sites| - 1] + [last];
      }
      r
  }

  /** `def_to_blocks[v].append(n)` on the `defaultdict(list)`. */
  function AddSite(d: Dict<string, seq<Name>>, v: string, n: Name): Dict<string, seq<Name>>
  {
    Put(d, v, (if HasKey(d, v) then Get(d, v) else []) + [n])
  }

  /** The dict the two loops of `__get_defs_to_blocks` build from a list of sites. */
  function Group(sites: seq<Site>): Dict<string, seq<Name>>
  {
    if sites == [] then []
    else
      var last := sites[|sites| - 1];
      AddSite(Group(sites[..|sites| - 1]), last.0, last.1)
  }

  /**
   * Each defined variable is a key exactly once, and its list holds the
   * blocks defining it, in block order, once per definition.
   */
  lemma {:induction false} GroupSpec(sites: seq<Site>)
    ensures UniqueKeys(Group(sites))
    ensures forall v :: HasKey(Group(sites), v) <==> SitesOf(sites, v) != []
    ensures forall v :: HasKey(Group(sites), v) ==> Get(Group(sites), v) == SitesOf(sites, v)
    decreases |sites|
  {
    if sites != [] {
      var front := sites[..|sites| - 1];
      var (v, n) := sites[|sites| - 1];
      GroupSpec(front);
      var d := Group(front);
      var old' := if HasKey(d, v) then Get(d, v) else [];
      PutUnique(d, v, old' + [n]);
      PutFacts(d, v, old' + [n]);
      forall w | w != v
        ensures HasKey(Group(sites), w) <==> SitesOf(sites, w) != []
        ensures HasKey(Group(sites), w) ==> Get(Group(sites), w) == SitesOf(sites, w)
      {
        PutOther(d, v, old' + [n], w);
      }
    }
  }

  /** The sites so far, then one more. */
  lemma SitesSnoc(sites: seq<Site>, s: Site)
    ensures Group(sites + [s]) == AddSite(Group(sites), s.0, s.1)
  {
    assert (sites + [s])[..|sites|] == sites;
  }

  /** The inner loop of `__get_defs_to_blocks` after one more definition. */
  lemma TagStep(done: seq<Site>, defs: seq<string>, m: nat, name: Name)
    requires m < |defs|
    ensures Group(done + Tag(defs[..m + 1], name)) == AddSite(Group(done + Tag(defs[..m], name)), defs[m], name)
  {
    assert Tag(defs[..m + 1], name) == Tag(defs[..m], name) + [(defs[m], name)];
    assert done + Tag(defs[..m + 1], name) == (done + Tag(defs[..m], name)) + [(defs[m], name)];
    SitesSnoc(done + Tag(defs[..m], name), (defs[m], name));
  }

  lemma SitesStep(blocks: seq<Block>, k: nat)
    requires k < |blocks|
    ensures Sites(blocks[..k + 1]) == Sites(blocks[..k]) + Tag(blocks[k].GetDefinitions(), blocks[k].name)
  {
    assert blocks[..k + 1][..k] == blocks[..k];
  }

  /** The inner loop of `__get_defs_to_blocks`: one block's definitions, each appending the block's name. */
  method AddDefinitions(d0: Dict<string, seq<Name>>, defs: seq<string>, name: Name, ghost done: seq<Site>)
    returns (d: Dict<string, seq<Name>>)
    requires d0 == Group(done)
    ensures d == Group(done + Tag(defs, name))
  {
    d := d0;
    var m := 0;
    assert done + Tag(defs[..0], name) == done;
    while m < |defs|
      invariant m <= |defs|
      invariant d == Group(done + Tag(defs[..m], name))
    {
      TagStep(done, defs, m, name);
      var names := if HasKey(d, defs[m]) then Get(d, defs[m]) else [];
      d := Put(d, defs[m], names + [name]);
      m := m + 1;
    }
    assert defs[..m] == defs;
  }

  /**
   * `__get_defs_to_blocks`: for each block, for each of its definitions,
   * the block's name is appended to the variable's list.
   */
  method DefsToBlocks(blocks: seq<Block>) returns (d: Dict<string, seq<Name>>)
    ensures d == Group(Sites(blocks))
  {
    d := [];
    var k := 0;
    while k < |blocks|
      invariant k <= |blocks|
      invariant d == Group(Sites(blocks[..k]))
    {
      SitesStep(blocks, k);
      d := AddDefinitions(d, blocks[k].GetDefinitions(), blocks[k].GetName(), Sites(blocks[..k]));
      k := k + 1;
    }
    assert blocks[..k] == blocks;
  }

  /** A block name in a variable's list of `def_to_blocks` names a block defining the variable. */
  lemma DefsToBlocksSound(blocks: seq<Block>, v: string, n: Name) returns (i: nat)
    requires HasKey(Group(Sites(blocks)), v) && n in Get(Group(Sites(blocks)), v)
    ensures i < |blocks| && blocks[i].name == n && v in blocks[i].GetDefinitions()
  {
    GroupSpec(Sites(blocks));
    i := SitesWitness(blocks, v, n);
  }

  /** Each definition of each block puts the block's name in the variable's list. */
  lemma DefsToBlocksComplete(blocks: seq<Block>, i: nat, v: string)
    requires i < |blocks| && v in blocks[i].GetDefinitions()
    ensures HasKey(Group(Sites(blocks)), v) && blocks[i].name in Get(Group(Sites(blocks)), v)
  {
    GroupSpec(Sites(blocks));
    SitesComplete(blocks, i, v);
  }

  // ------------------------------------------------------------ spreading

  /** Every block some frontier names. */
  function Frontiers(df: Graph): set<Name>
  {
    set a, j | a in df && 0 <= j < |df[a]| :: df[a][j]
  }

  /**
   * `W` starts as `start` and every later element is in the frontier of an
   * earlier one: how the definition list of a variable grows.
   */
  ghost predicate Derived(df: Graph, start: seq<Name>, w: seq<Name>)
  {
    && |start| <= |w| && w[..|start|] == start
    && forall j :: |start| <= j < |w| ==> exists k :: 0 <= k < j && w[k] in df && w[j] in df[w[k]]
  }

  /** Every block of `done` has a frontier entry. */
  ghost predicate AllIn(df: Graph, done: seq<Name>)
  {
    forall j :: 0 <= j < |done| ==> done[j] in df
  }

  /** The frontier of every block of `done` is in `w`. */
  ghost predicate Covered(df: Graph, done: seq<Name>, w: seq<Name>)
  {
    forall j, b :: 0 <= j < |done| && done[j] in df && b in df[done[j]] ==> b in w
  }

  /** A set of blocks that contains the frontier of each of its blocks. */
  ghost predicate ClosedSet(df: Graph, x: set<Name>)
  {
    forall a, b :: a in x && a in df && b in df[a] ==> b in x
  }

  /** `b` is in the frontier of some block of `w`. */
  ghost predicate InFrontierOf(df: Graph, w: seq<Name>, b: Name)
  {
    exists j :: 0 <= j < |w| && w[j] in df && b in df[w[j]]
  }

  /** No block holds two phis for one variable. */
  ghost predicate PhisUnique(phi: PhiMap)
  {
    forall b :: b in phi ==> IsSsa.NoDuplicates(phi[b])
  }

  lemma DerivedSnoc(df: Graph, start: seq<Name>, w: seq<Name>, i: nat, b: Name)
    requires Derived(df, start, w) && i < |w| && w[i] in df && b in df[w[i]]
    ensures Derived(df, start, w + [b])
  {
    var w' := w + [b];
    assert w'[..|start|] == start;
    forall j | |start| <= j < |w'|
      ensures exists k :: 0 <= k < j && w'[k] in df && w'[j] in df[w'[k]]
    {
      if j < |w| {
        var k :| 0 <= k < j && w[k] in df && w[j] in df[w[k]];
        assert w'[k] == w[k];
      } else {
        assert w'[i] == w[i];
      }
    }
  }

  lemma CoveredGrow(df: Graph, done: seq<Name>, w: seq<Name>, x: Name)
    requires Covered(df, done, w)
    ensures Covered(df, done, w + [x])
  {
  }

  lemma CoveredPrefix(df: Graph, done: seq<Name>, w0: seq<Name>, w: seq<Name>)
    requires Covered(df, done, w0) && |w0| <= |w| && w[..|w0|] == w0
    ensures Covered(df, done, w)
  {
    forall j, b | 0 <= j < |done| && done[j] in df && b in df[done[j]]
      ensures b in w
    {
      assert b in w0;
      var k :| 0 <= k < |w0| && w0[k] == b;
      assert w[k] == b;
    }
  }

  lemma PrefixSnoc(w0: seq<Name>, w: seq<Name>, i: nat)
    requires i < |w0| <= |w| && w[..|w0|] == w0
    ensures w[..i + 1] == w0[..i] + [w0[i]]
  {
    assert w[..i + 1] == w0[..i + 1];
  }

  lemma CoveredSnoc(df: Graph, done: seq<Name>, w: seq<Name>, a: Name)
    requires Covered(df, done, w) && a in df && forall b :: b in df[a] ==> b in w
    ensures Covered(df, done + [a], w)
  {
    var d := done + [a];
    forall j, b | 0 <= j < |d| && d[j] in df && b in df[d[j]]
      ensures b in w
    {
      if j < |done| {
        assert d[j] == done[j];
      }
    }
  }

  lemma InFrontierSnoc(df: Graph, done: seq<Name>, a: Name, b: Name)
    requires a in df
    ensures InFrontierOf(df, done + [a], b) <==> InFrontierOf(df, done, b) || b in df[a]
  {
    var d := done + [a];
    if InFrontierOf(df, done, b) {
      var j :| 0 <= j < |done| && done[j] in df && b in df[done[j]];
      assert d[j] == done[j];
    }
    if b in df[a] {
      assert d[|done|] == a;
    }
    if InFrontierOf(df, d, b) {
      var j :| 0 <= j < |d| && d[j] in df && b in df[d[j]];
      if j < |done| {
        assert d[j] == done[j];
      }
    }
  }

  /** Adding one element outside `s` (but in `u`) leaves fewer elements of `u` to add. */
  lemma FewerLeft(u: set<Name>, w: seq<Name>, b: Name)
    requires b in u && b !in w
    ensures |u - Elems(w + [b])| < |u - Elems(w)|
  {
    assert Elems(w + [b]) == Elems(w) + {b};
    assert u - Elems(w) == (u - Elems(w + [b])) + {b};
  }

  /** `if var not in phi2blocks[b]: phi2blocks[b].append(var)`, inside the frontier loop. */
  lemma AddPhiStep(phi0: PhiMap, before: PhiMap, phi: PhiMap, v: string, b: Name, frontier: seq<Name>, m: nat)
    requires m < |frontier| && frontier[m] == b
    requires PhisUnique(before)
    requires forall c, x :: x in PhiAt(before, c) <==> x in PhiAt(phi0, c) || (x == v && c in frontier[..m])
    requires phi == if v in PhiAt(before, b) then before else before[b := PhiAt(before, b) + [v]]
    ensures PhisUnique(phi)
    ensures forall c, x :: x in PhiAt(phi, c) <==> x in PhiAt(phi0, c) || (x == v && c in frontier[..m + 1])
  {
    assert frontier[..m + 1] == frontier[..m] + [b];
    if v !in PhiAt(before, b) {
      IsSsa.NoDuplicatesSnoc(PhiAt(before, b), v);
    }
    forall c, x
      ensures x in PhiAt(phi, c) <==> x in PhiAt(phi0, c) || (x == v && c in frontier[..m + 1])
    {
      assert c in frontier[..m + 1] <==> c in frontier[..m] || c == b;
      if c != b {
        assert PhiAt(phi, c) == PhiAt(before, c);
      }
    }
  }

  /**
   * One variable of `__init_phi_nodes`: the inner `for b in block_df`
   * loop over the frontier of one block of the definition list, adding
   * the variable's phi to each frontier block that lacks it and appending
   * each frontier block that is not in the list yet.
   */
  method SpreadFrom(df: Graph, v: string, a: Name, w0: seq<Name>, phi0: PhiMap, ghost u: set<Name>)
    returns (w: seq<Name>, phi: PhiMap)
    requires a in df && a in w0
    requires PhisUnique(phi0)
    requires Elems(df[a]) <= u
    ensures |w0| <= |w| && w[..|w0|] == w0
    ensures forall b :: b in df[a] ==> b in w
    ensures forall j :: |w0| <= j < |w| ==> w[j] in df[a]
    ensures Elems(w) <= Elems(w0) + u
    ensures |u - Elems(w)| <= |u - Elems(w0)| && (|w| == |w0| || |u - Elems(w)| < |u - Elems(w0)|)
    ensures PhisUnique(phi)
    ensures forall b, x :: x in PhiAt(phi, b) <==> x in PhiAt(phi0, b) || (x == v && b in df[a])
  {
    var frontier := df[a];
    w, phi := w0, phi0;
    var m := 0;
    while m < |frontier|
      invariant m <= |frontier|
      invariant |w0| <= |w| && w[..|w0|] == w0
      invariant forall k :: 0 <= k < m ==> frontier[k] in w
      invariant forall j :: |w0| <= j < |w| ==> w[j] in frontier
      invariant Elems(w) <= Elems(w0) + u
      invariant |u - Elems(w)| <= |u - Elems(w0)| && (|w| == |w0| || |u - Elems(w)| < |u - Elems(w0)|)
      invariant PhisUnique(phi)
      invariant forall b, x :: x in PhiAt(phi, b) <==> x in PhiAt(phi0, b) || (x == v && b in frontier[..m])
    {
      var b := frontier[m];
      ghost var before := phi;
      if v !in PhiAt(phi, b) {
        phi := phi[b := PhiAt(phi, b) + [v]];
      }
      AddPhiStep(phi0, before, phi, v, b, frontier, m);
      if b !in w {
        assert b in Elems(df[a]);
        FewerLeft(u, w, b);
        w := w + [b];
      }
      m := m + 1;
    }
    assert frontier[..m] == frontier;
  }

  /**
   * One variable of `__init_phi_nodes`: `for block in def_to_blocks[var]`
   * walks a list that the loop itself extends, so it goes on until no
   * frontier adds a new block. A block with no frontier entry is a
   * `KeyError`; `bad` and `badAt` then name it.
   */
  method Spread(df: Graph, v: string, start: seq<Name>, phi0: PhiMap)
    returns (r: Result<(seq<Name>, PhiMap)>, ghost bad: seq<Name>, ghost badAt: nat)
    requires PhisUnique(phi0)
    ensures r.Ok? ==> var (w, phi) := r.value;
            && Derived(df, start, w) && AllIn(df, w) && Covered(df, w, w)
            && PhisUnique(phi)
            && forall b, x :: x in PhiAt(phi, b) <==> x in PhiAt(phi0, b) || (x == v && InFrontierOf(df, w, b))
    ensures r.Err? ==> r.error == KeyError && Derived(df, start, bad) && badAt < |bad| && bad[badAt] !in df
  {
    ghost var u := Elems(start) + Frontiers(df);
    var w := start;
    var phi := phi0;
    ghost var done: seq<Name> := [];
    var i := 0;
    while i < |w|
      invariant i <= |w| && done == w[..i]
      invariant Derived(df, start, w)
      invariant Elems(w) <= u
      invariant AllIn(df, done) && Covered(df, done, w)
      invariant PhisUnique(phi)
      invariant forall b, x :: x in PhiAt(phi, b) <==> x in PhiAt(phi0, b) || (x == v && InFrontierOf(df, done, b))
      decreases |u - Elems(w)|, |w| - i
    {
      var a := w[i];
      if a !in df {
        return Err(KeyError), w, i;
      }
      assert Elems(df[a]) <= u by {
        forall b | b in Elems(df[a])
          ensures b in Frontiers(df)
        {
          var j :| 0 <= j < |df[a]| && df[a][j] == b;
        }
      }
      ghost var w0 := w;
      w, phi := SpreadFrom(df, v, a, w, phi, u);
      DerivedGrow(df, start, w0, w, i);
      CoveredPrefix(df, done, w0, w);
      CoveredSnoc(df, done, w, a);
      forall b
        ensures InFrontierOf(df, done + [a], b) <==> InFrontierOf(df, done, b) || b in df[a]
      {
        InFrontierSnoc(df, done, a, b);
      }
      PrefixSnoc(w0, w, i);
      done := done + [a];
      i := i + 1;
    }
    assert done == w;
    return Ok((w, phi)), w, 0;
  }

  /** Appending frontier blocks of `w[i]` keeps the list derived. */
  lemma DerivedGrow(df: Graph, start: seq<Name>, w0: seq<Name>, w: seq<Name>, i: nat)
    requires Derived(df, start, w0) && i < |w0| && w0[i] in df
    requires |w0| <= |w| && w[..|w0|] == w0
    requires forall j :: |w0| <= j < |w| ==> w[j] in df[w0[i]]
    ensures Derived(df, start, w)
  {
    assert w[..|start|] == w0[..|start|];
    forall j | |start| <= j < |w|
      ensures exists k :: 0 <= k < j && w[k] in df && w[j] in df[w[k]]
    {
      if j < |w0| {
        assert w[j] == w0[j];
        var k :| 0 <= k < j && w0[k] in df && w0[j] in df[w0[k]];
        assert w[k] == w0[k];
      } else {
        assert w[i] == w0[i];
      }
    }
  }

  /**
   * `__init_phi_nodes`: each variable's definition list (in key order) is
   * spread to its closure under the frontiers, and the variable gets a phi
   * at each frontier block of that closure; the grown lists are written
   * back to `def_to_blocks`.
   */
  method InitPhiNodes(df: Graph, defs: Dict<string, seq<Name>>)
    returns (r: Result<(PhiMap, Dict<string, seq<Name>>)>, ghost badVar: nat, ghost bad: seq<Name>, ghost badAt: nat)
    ensures r.Ok? ==> var (phi, out) := r.value;
            && |out| == |defs|
            && (forall i :: 0 <= i < |out| ==> out[i].0 == defs[i].0)
            && (forall i :: 0 <= i < |out| ==> Derived(df, defs[i].1, out[i].1) && AllIn(df, out[i].1) && Covered(df, out[i].1, out[i].1))
            && PhisUnique(phi)
            && (forall b, x :: x in PhiAt(phi, b) <==> exists i :: 0 <= i < |out| && out[i].0 == x && InFrontierOf(df, out[i].1, b))
    ensures r.Err? ==> && r.error == KeyError && badVar < |defs|
                       && Derived(df, defs[badVar].1, bad) && badAt < |bad| && bad[badAt] !in df
  {
    var phi: PhiMap := map[];
    var out := defs;
    var k := 0;
    while k < |defs|
      invariant k <= |defs| && |out| == |defs|
      invariant forall i :: 0 <= i < |out| ==> out[i].0 == defs[i].0
      invariant forall i :: k <= i < |out| ==> out[i] == defs[i]
      invariant forall i :: 0 <= i < k ==> Derived(df, defs[i].1, out[i].1) && AllIn(df, out[i].1) && Covered(df, out[i].1, out[i].1)
      invariant PhisUnique(phi)
      invariant forall b, x :: x in PhiAt(phi, b) <==> exists i :: 0 <= i < k && out[i].0 == x && InFrontierOf(df, out[i].1, b)
    {
      var res, bad', badAt' := Spread(df, out[k].0, out[k].1, phi);
      if res.Err? {
        return Err(res.error), k, bad', badAt';
      }
      var (w, phi') := res.value;
      PhiStep(df, phi, phi', out, k, w);
      out := out[k := (out[k].0, w)];
      phi := phi';
      k := k + 1;
    }
    return Ok((phi, out)), 0, [], 0;
  }

  /** The phi map after one more variable. */
  lemma PhiStep(df: Graph, phi: PhiMap, phi': PhiMap, out: Dict<string, seq<Name>>, k: nat, w: seq<Name>)
    requires k < |out|
    requires forall b, x :: x in PhiAt(phi, b) <==> exists i :: 0 <= i < k && out[i].0 == x && InFrontierOf(df, out[i].1, b)
    requires forall b, x :: x in PhiAt(phi', b) <==> x in PhiAt(phi, b) || (x == out[k].0 && InFrontierOf(df, w, b))
    ensures var out' := out[k := (out[k].0, w)];
            forall b, x :: x in PhiAt(phi', b) <==> exists i :: 0 <= i < k + 1 && out'[i].0 == x && InFrontierOf(df, out'[i].1, b)
  {
    var out' := out[k := (out[k].0, w)];
    forall b, x
      ensures x in PhiAt(phi', b) <==> exists i :: 0 <= i < k + 1 && out'[i].0 == x && InFrontierOf(df, out'[i].1, b)
    {
      if x in PhiAt(phi, b) {
        var i :| 0 <= i < k && out[i].0 == x && InFrontierOf(df, out[i].1, b);
        assert out'[i] == out[i];
      }
      if exists i :: 0 <= i < k + 1 && out'[i].0 == x && InFrontierOf(df, out'[i].1, b) {
        var i :| 0 <= i < k + 1 && out'[i].0 == x && InFrontierOf(df, out'[i].1, b);
        if i < k {
          assert out'[i] == out[i];
        } else {
          assert x == out[k].0 && InFrontierOf(df, w, b);
        }
      }
      if x == out[k].0 && InFrontierOf(df, w, b) {
        assert out'[k] == (x, w);
      }
    }
  }

  // ------------------------------------------------------------ properties

  /** Every element of a derived list lies in any frontier-closed set containing the start. */
  lemma {:induction false} DerivedWithin(df: Graph, start: seq<Name>, w: seq<Name>, x: set<Name>, j: nat)
    requires Derived(df, start, w) && j < |w|
    requires Elems(start) <= x && ClosedSet(df, x)
    ensures w[j] in x
    decreases j
  {
    if j < |start| {
      assert w[j] == start[j];
    } else {
      var b := w[j];
      var k :| 0 <= k < j && w[k] in df && w[j] in df[w[k]];
      DerivedWithin(df, start, w, x, k);
    }
  }

  /**
   * The grown definition list is the least frontier-closed set of blocks
   * that contains the definition blocks: it is closed, and it lies inside
   * every other closed set that contains them. A variable therefore gets a
   * phi exactly at the blocks of the iterated dominance frontier of its
   * definition blocks.
   */
  lemma SpreadIsLeastClosed(df: Graph, start: seq<Name>, w: seq<Name>, x: set<Name>)
    requires Derived(df, start, w) && AllIn(df, w) && Covered(df, w, w)
    requires Elems(start) <= x && ClosedSet(df, x)
    ensures Elems(start) <= Elems(w) && ClosedSet(df, Elems(w))
    ensures Elems(w) <= x
  {
    SpreadClosed(df, start, w);
    forall b | b in Elems(w)
      ensures b in x
    {
      var j :| 0 <= j < |w| && w[j] == b;
      DerivedWithin(df, start, w, x, j);
    }
  }

  /** The grown list contains the definition blocks and is closed under the frontiers. */
  lemma SpreadClosed(df: Graph, start: seq<Name>, w: seq<Name>)
    requires Derived(df, start, w) && Covered(df, w, w)
    ensures Elems(start) <= Elems(w) && ClosedSet(df, Elems(w))
  {
    assert w[..|start|] == start;
    forall b | b in start
      ensures b in w
    {
      var j :| 0 <= j < |start| && start[j] == b;
      assert w[j] == b;
    }
    forall a, b | a in Elems(w) && a in df && b in df[a]
      ensures b in Elems(w)
    {
      var j :| 0 <= j < |w| && w[j] == a;
    }
  }

  /**
   * The `KeyError` is raised exactly when a block that the spreading can
   * reach has no frontier entry: on success no derived list from any
   * definition list meets such a block.
   */
  lemma NoMissingFrontier(df: Graph, start: seq<Name>, w: seq<Name>, other: seq<Name>, j: nat)
    requires Derived(df, start, w) && AllIn(df, w) && Covered(df, w, w)
    requires Derived(df, start, other) && j < |other|
    ensures other[j] in df
  {
    SpreadClosed(df, start, w);
    DerivedWithin(df, start, other, Elems(w), j);
    var i :| 0 <= i < |w| && w[i] == other[j];
  }
}
