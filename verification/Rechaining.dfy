/** Splitting and merging free clumps: two chains over the same pool. */
module Rechaining {
  import opened PersistentMemory
  import opened PoolImage
  import opened RecoveryFacts
  import opened Finishing
  import opened Activation

  ghost predicate Link(hs: seq<nat>, j: nat, h: nat, n: nat) {
    j < |hs| - 1 && hs[j] == h && hs[j + 1] == n
  }

  /** The clump [h, n) is in the chain. */
  ghost predicate InChain(hs: seq<nat>, h: nat, n: nat) {
    exists j: nat :: Link(hs, j, h, n)
  }

  /** Every clump of (a, hs) that is not free is in (b, gs), with the same header. */
  ghost predicate Carries(a: Image, hs: seq<nat>, b: Image, gs: seq<nat>) {
    && |a| == |b| && Bounds(hs, |a|) && Bounds(gs, |a|)
    && forall i :: 0 <= i < |hs| - 1 && State(a[hs[i]]) != FREE ==>
         InChain(gs, hs[i], hs[i + 1]) && SameHeader(b, a, hs[i])
  }

  /** Every active clump of (b, gs) is an active clump of (a, hs). */
  ghost predicate NothingNew(a: Image, hs: seq<nat>, b: Image, gs: seq<nat>) {
    && |a| == |b| && Bounds(hs, |a|) && Bounds(gs, |a|)
    && forall j :: 0 <= j < |gs| - 1 && State(b[gs[j]]) == ACTIVE ==>
         InChain(hs, gs[j], gs[j + 1]) && SameHeader(b, a, gs[j])
  }

  lemma CarriesReach(a: Image, hs: seq<nat>, b: Image, gs: seq<nat>, owner: nat, off: nat)
    requires Carries(a, hs, b, gs) && ReachOffset(a, hs, owner, off)
    ensures ReachOffset(b, gs, owner, off)
  {
    var w := off / 8;
    if !Static(w) {
      var j: nat :| Inside(hs, j, w) && Allows(owner, State(a[hs[j]]));
      assert InChain(gs, hs[j], hs[j + 1]) && SameHeader(b, a, hs[j]);
      var i: nat :| Link(gs, i, hs[j], hs[j + 1]);
      assert Inside(gs, i, w) && Allows(owner, State(b[gs[i]]));
    }
  }

  lemma CarriesList(a: Image, hs: seq<nat>, b: Image, gs: seq<nat>, owner: nat, h: nat)
    requires Carries(a, hs, b, gs) && SameHeader(b, a, h) && ListReaches(a, hs, owner, h)
    ensures ListReaches(b, gs, owner, h)
  {
    if a[h + 2] != 0 { CarriesReach(a, hs, b, gs, owner, a[h + 2]); }
    if a[h + 4] != 0 { CarriesReach(a, hs, b, gs, owner, a[h + 4]); }
    if a[h + 6] != 0 { CarriesReach(a, hs, b, gs, owner, a[h + 6]); }
  }

  lemma RechainedRecoverable(a: Image, hs: seq<nat>, b: Image, gs: seq<nat>)
    requires Recoverable(a, hs) && NoTransit(a, hs)
    requires Tiled(b, gs) && NoTransit(b, gs) && Carries(a, hs, b, gs) && NothingNew(a, hs, b, gs)
    ensures Recoverable(b, gs)
  {
    forall j | 0 <= j < |gs| - 1 ensures ClumpOk(b, gs, j) {
      if State(b[gs[j]]) == ACTIVE {
        assert InChain(hs, gs[j], gs[j + 1]) && SameHeader(b, a, gs[j]);
        var i: nat :| Link(hs, i, gs[j], gs[j + 1]);
        assert ClumpOk(a, hs, i);
        CarriesList(a, hs, b, gs, ACTIVE, gs[j]);
      }
    }
  }

  lemma RechainedLiving(a: Image, hs: seq<nat>, b: Image, gs: seq<nat>)
    requires Tiled(a, hs) && NoTransit(a, hs)
    requires Tiled(b, gs) && NoTransit(b, gs) && Carries(a, hs, b, gs) && NothingNew(a, hs, b, gs)
    ensures Living(a, hs) == Living(b, gs)
  {
    forall h: nat | h in Living(a, hs) ensures h in Living(b, gs) && Living(b, gs)[h] == Living(a, hs)[h] {
      var i :| 0 <= i < |hs| && hs[i] == h;
      assert i < |hs| - 1;
      assert InChain(gs, hs[i], hs[i + 1]) && SameHeader(b, a, hs[i]);
    }
    forall h: nat | h in Living(b, gs) ensures h in Living(a, hs) {
      var j :| 0 <= j < |gs| && gs[j] == h;
      assert j < |gs| - 1;
      assert InChain(hs, gs[j], gs[j + 1]) && SameHeader(b, a, gs[j]);
    }
  }

  /** The other chain shows the same to a restarted program. */
  lemma RechainedView(a: Image, hs: seq<nat>, b: Image, gs: seq<nat>)
    requires Recoverable(a, hs) && NoTransit(a, hs)
    requires Tiled(b, gs) && NoTransit(b, gs) && Carries(a, hs, b, gs) && NothingNew(a, hs, b, gs)
    requires forall w :: 0 <= w < |a| && Visible(Living(a, hs), w) ==> a[w] == b[w]
    ensures Recoverable(b, gs) && ViewOf(b, gs) == ViewOf(a, hs) && Living(a, hs) == Living(b, gs)
  {
    RechainedRecoverable(a, hs, b, gs);
    RechainedLiving(a, hs, b, gs);
    SameView(a, hs, 0, b, gs, 0);
  }

  // ---------------------------------------------------------------------------------------
  // Chains that differ by one span
  // ---------------------------------------------------------------------------------------

  /** The chain without the headers between p and q. */
  function Joined(hs: seq<nat>, p: nat, q: nat): seq<nat>
    requires p < q < |hs|
  {
    hs[..p + 1] + hs[q..]
  }

  lemma JoinedBounds(hs: seq<nat>, words: nat, p: nat, q: nat)
    requires Bounds(hs, words) && p < q < |hs|
    ensures Bounds(Joined(hs, p, q), words)
    ensures forall j :: 0 <= j < |Joined(hs, p, q)| ==>
              Joined(hs, p, q)[j] == (if j <= p then hs[j] else hs[j + (q - p - 1)])
  {
  }

  /** The chain with one more header after p. */
  function Split(hs: seq<nat>, p: nat, n: nat): seq<nat>
    requires p < |hs|
  {
    hs[..p + 1] + [n] + hs[p + 1..]
  }

  lemma SplitBounds(hs: seq<nat>, words: nat, p: nat, n: nat)
    requires Bounds(hs, words) && p < |hs| - 1
    requires hs[p] + 8 <= n && n + 8 <= hs[p + 1] && n % 8 == 0
    ensures Bounds(Split(hs, p, n), words)
    ensures forall j :: 0 <= j < |Split(hs, p, n)| ==>
              Split(hs, p, n)[j] == (if j <= p then hs[j] else if j == p + 1 then n else hs[j - 1])
  {
    hide Exec;
    var gs := Split(hs, p, n);
    assert hs[p + 1] + 8 <= words;
    forall i, j | 0 <= i < j < |gs| ensures gs[i] + 8 <= gs[j] {
      if j <= p {
        assert hs[i] + 8 <= hs[j];
      } else if i <= p && j == p + 1 {
        if i < p { assert hs[i] + 8 <= hs[p]; }
      } else if i <= p {
        assert hs[i] + 8 <= hs[j - 1];
      } else if i == p + 1 {
        if p + 1 < j - 1 { assert hs[p + 1] + 8 <= hs[j - 1]; }
      } else {
        assert hs[i - 1] + 8 <= hs[j - 1];
      }
    }
  }

  lemma SplitInChain(hs: seq<nat>, p: nat, n: nat, i: nat)
    requires p < |hs| - 1 && i < |hs| - 1 && i != p
    ensures InChain(Split(hs, p, n), hs[i], hs[i + 1])
  {
    var gs := Split(hs, p, n);
    var j := if i < p then i else i + 1;
    assert Link(gs, j, hs[i], hs[i + 1]);
  }

  lemma JoinedInChain(hs: seq<nat>, p: nat, q: nat, i: nat)
    requires p < q < |hs| && i < |hs| - 1 && (i < p || q <= i)
    ensures InChain(Joined(hs, p, q), hs[i], hs[i + 1])
  {
    var gs := Joined(hs, p, q);
    var j := if i < p then i else i - (q - p - 1);
    assert Link(gs, j, hs[i], hs[i + 1]);
  }
}
