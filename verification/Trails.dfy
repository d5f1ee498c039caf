/** Where a search leads that starts at the header of a clump merged away: over other such headers
    to the chain. */
module Trails {
  import opened PersistentMemory
  import opened PoolImage
  import opened RecoveryFacts
  import opened CrashSafety
  import opened Activation
  import opened Rechaining
  import opened Coalescing
  import opened Reserving
  import opened Calls
  import opened StaleCursor

  /** A header left inside the free clump j: it still looks free, and its size word leads on in that clump. */
  ghost predicate Stale(m: Image, hs: seq<nat>, j: nat, h: nat)
    requires Bounds(hs, |m|)
  {
    && Inside(hs, j, h) && State(m[hs[j]]) == FREE
    && h < |m| && h % 8 == 0 && State(m[h]) == FREE && Span(m[h]) > 0 && h + Span(m[h]) <= hs[j + 1]
  }

  /** From h the size words lead to the chain, over headers left inside free clumps. */
  ghost predicate Trail(m: Image, hs: seq<nat>, h: nat)
    requires Bounds(hs, |m|)
    decreases |m| - h
  {
    h in hs || ((exists j: nat :: Stale(m, hs, j, h)) && Trail(m, hs, h + Span(m[h])))
  }

  ghost predicate OnTrail(m: Image, h: nat) { Bounds(Chain(m), |m|) && Trail(m, Chain(m), h) }

  // ---------------------------------------------------------------------------------------
  // The merging pass
  // ---------------------------------------------------------------------------------------

  /** It stores at headers only. */
  lemma {:induction false} PassUntouched(m: Image, hs: seq<nat>, p: nat, w: nat)
    requires Bounds(hs, |m|) && p < |hs| && w !in hs
    ensures Untouched(CoalesceFrom(m, hs, p), w)
    decreases |hs| - p
  {
    if p < |hs| - 1 {
      var q := RunEnd(m, hs, p + 1);
      if State(m[hs[p]]) != FREE || q == p + 1 {
        PassUntouched(m, hs, p + 1, w);
      } else {
        JoinedBounds(hs, |m|, p, q);
        PassUntouched(m[hs[p] := MergedSize(hs, p, q)], Joined(hs, p, q), p + 1, w);
      }
    }
  }

  /** The payload of a free clump stays as it is. */
  lemma FreeUntouched(s: Pm, hs: seq<nat>, k: nat, j: nat, w: nat)
    requires Quiet(s, hs) && CanFree(s.mem, hs, k) && Inside(hs, j, w) && State(s.mem[hs[j]]) == FREE && w < |s.mem|
    ensures Exec(s, FreeSteps(s.mem, hs, hs[k])).mem[w] == s.mem[w]
  {
    hide PersistentMemory.Exec;
    hide ClumpOk;
    hide Clump;
    var m, h := s.mem, hs[k];
    var a := FreeCoreAtomic(s, hs, k);
    ExecConcat(s, FreeCore(m, h), CoalesceFrom(a.mem, hs, 0));
    PayloadNoHeader(hs, |m|, j, w);
    PassUntouched(a.mem, hs, 0, w);
    ExecUntouched(a, CoalesceFrom(a.mem, hs, 0), w);
    CoreUntouched(s, hs, k, j, w);
  }

  lemma PayloadNoHeader(hs: seq<nat>, words: nat, j: nat, w: nat)
    requires Bounds(hs, words) && Inside(hs, j, w)
    ensures w !in hs && !Header(hs, w)
  {
    forall i | 0 <= i < |hs| ensures w < hs[i] || hs[i] + 8 <= w { PayloadBesideHeader(hs, words, j, i, w); }
  }

  /** No list names a word of a free clump. */
  lemma FreeUnreached(m: Image, hs: seq<nat>, owner: nat, off: nat, j: nat, w: nat)
    requires Bounds(hs, |m|) && Inside(hs, j, w) && State(m[hs[j]]) == FREE && ReachOffset(m, hs, owner, off)
    ensures off / 8 != w
  {
    if Static(off / 8) {
      assert j > 0 ==> hs[0] + 8 <= hs[j];
    } else {
      var i: nat :| Inside(hs, i, off / 8) && Allows(owner, State(m[hs[i]]));
      InsideApart(hs, |m|, i, j, w);
    }
  }

  lemma InsideApart(hs: seq<nat>, words: nat, i: nat, j: nat, w: nat)
    requires Bounds(hs, words) && i < |hs| - 1 && Inside(hs, j, w) && i != j
    ensures !Inside(hs, i, w)
  {
    if i < j { assert i + 1 == j || hs[i + 1] + 8 <= hs[j]; }
    if j < i { assert j + 1 == i || hs[j + 1] + 8 <= hs[i]; }
  }

  lemma CoreUntouched(s: Pm, hs: seq<nat>, k: nat, j: nat, w: nat)
    requires Quiet(s, hs) && CanFree(s.mem, hs, k) && Inside(hs, j, w) && State(s.mem[hs[j]]) == FREE && w < |s.mem|
    ensures FreedImage(s.mem, hs[k])[w] == s.mem[w]
  {
    hide PersistentMemory.Exec;
    hide Clump;
    hide FreedImage;
    hide ReachOffset;
    var m, h := s.mem, hs[k];
    PayloadNoHeader(hs, |m|, j, w);
    FreedShape(s, hs, k);
    assert !(h <= w < h + 8);
    if State(m[h]) == ACTIVE {
      assert ClumpOk(m, hs, k);
      ListMisses(m, hs, h, j, w);
      assert FreedImage(m, h)[w] == CommittedWord(m, hs, k, w);
    }
  }

  lemma ListMisses(m: Image, hs: seq<nat>, h: nat, j: nat, w: nat)
    requires Bounds(hs, |m|) && h + 8 <= |m| && ListReaches(m, hs, ACTIVE, h)
    requires Inside(hs, j, w) && State(m[hs[j]]) == FREE && w < |m|
    ensures ReplayAt(m, h, w) == m[w]
  {
    hide ReachOffset;
    if m[h + 2] != 0 { FreeUnreached(m, hs, ACTIVE, m[h + 2], j, w); }
    if m[h + 4] != 0 { FreeUnreached(m, hs, ACTIVE, m[h + 4], j, w); }
    if m[h + 6] != 0 { FreeUnreached(m, hs, ACTIVE, m[h + 6], j, w); }
  }

  // ---------------------------------------------------------------------------------------
  // Freeing
  // ---------------------------------------------------------------------------------------

  /** A header in the free clump j is in the free clump that takes its place. */
  lemma StaleStays(m: Image, hs: seq<nat>, j: nat, h: nat, b: Image, gs: seq<nat>) returns (i: nat)
    requires Tiled(m, hs) && Tiled(b, gs) && |b| == |m| && Stale(m, hs, j, h) && b[h] == m[h]
    requires FreeWord(b, gs, h) && forall c :: c in gs ==> c in hs
    ensures Stale(b, gs, i, h)
  {
    hide State;
    hide Clump;
    PayloadNoHeader(hs, |m|, j, h);
    i :| 0 <= i < |gs| - 1 && gs[i] <= h < gs[i + 1] && State(b[gs[i]]) == FREE;
    assert gs[i] in gs && gs[i + 1] in gs;
    var x :| 0 <= x < |hs| && hs[x] == gs[i + 1];
    if x > j + 1 { assert hs[j + 1] + 8 <= hs[x]; }
    assert gs[i] % 8 == 0;
  }

  /** A clump that the free merges downwards leaves such a header. */
  lemma MergedStale(s: Pm, hs: seq<nat>, k: nat, i: nat) returns (j: nat)
    requires Quiet(s, hs) && CanFree(s.mem, hs, k) && MergesDown(s.mem, hs, k, i)
    ensures var r, gs := Exec(s, FreeSteps(s.mem, hs, hs[k])), CoalescedFrom(FreedImage(s.mem, hs[k]), hs, 0);
            Stale(r.mem, gs, j, hs[i]) && hs[i] + Span(r.mem[hs[i]]) == hs[i + 1]
  {
    hide PersistentMemory.Exec;
    hide ClumpOk;
    hide FreeSteps;
    hide FreedImage;
    hide CoalescedFrom;
    var r, gs;
    r, gs, j := FreeLeaves(s, hs, k, i);
    assert Clump(s.mem, hs, i) && hs[i] + 8 <= hs[i + 1];
  }

  /** A clump that the free leaves one has not become smaller; one that it merges downwards still leads
      to the next. */
  lemma ClumpFreed(s: Pm, hs: seq<nat>, k: nat, i: nat)
    requires Quiet(s, hs) && CanFree(s.mem, hs, k) && i < |hs|
    ensures var b := Exec(s, FreeSteps(s.mem, hs, hs[k])).mem;
            var gs := CoalescedFrom(FreedImage(s.mem, hs[k]), hs, 0);
            && Span(b[hs[i]]) >= Span(s.mem[hs[i]])
            && (hs[i] in gs || (i < |hs| - 1 && hs[i] + Span(b[hs[i]]) == hs[i + 1] &&
                                exists j: nat :: Stale(b, gs, j, hs[i])))
  {
    hide PersistentMemory.Exec;
    hide ClumpOk;
    hide Clump;
    hide FreeSteps;
    hide FreedImage;
    hide CoalescedFrom;
    hide CanFree;
    hide Carries;
    hide State;
    hide MergesDown;
    var m := s.mem;
    var r, gs := FreeAtomic(s, hs, k);
    FewerHeaders(s, hs, k);
    if i < |hs| - 1 { FreeKeeps(s, hs, k, i); }
    if hs[i] in gs {
      NoLessRoom(m, hs, r.mem, gs, i);
    } else {
      var j := MergedStale(s, hs, k, i);
      ClumpSpan(m, hs, i);
    }
  }

  /** After a free every trail still leads to the chain, with no less room on the way. */
  lemma {:induction false} TrailFreed(s: Pm, hs: seq<nat>, k: nat, c: nat)
    requires Quiet(s, hs) && CanFree(s.mem, hs, k) && Trail(s.mem, hs, c)
    ensures var b := Exec(s, FreeSteps(s.mem, hs, hs[k])).mem;
            && Trail(b, CoalescedFrom(FreedImage(s.mem, hs[k]), hs, 0), c)
            && (c < |s.mem| ==> Span(b[c]) >= Span(s.mem[c]))
    decreases |s.mem| - c
  {
    hide Coalesced;
    hide PersistentMemory.Exec;
    hide ClumpOk;
    hide Clump;
    hide FreeSteps;
    hide FreedImage;
    hide CoalescedFrom;
    hide CanFree;
    hide Carries;
    hide State;
    var m := s.mem;
    var r, gs := FreeAtomic(s, hs, k);
    if c in hs {
      var i: nat :| i < |hs| && hs[i] == c;
      ClumpFreed(s, hs, k, i);
      if c !in gs { TrailFreed(s, hs, k, hs[i + 1]); }
    } else {
      var j: nat :| Stale(m, hs, j, c);
      FreeUntouched(s, hs, k, j, c);
      TrailFreed(s, hs, k, c + Span(m[c]));
      FewerHeaders(s, hs, k);
      StillFree(s, hs, k, j, c);
      var i := StaleStays(m, hs, j, c, r.mem, gs);
    }
  }

  lemma ClumpSpan(m: Image, hs: seq<nat>, i: nat)
    requires Tiled(m, hs) && i < |hs|
    ensures i < |hs| - 1 ==> hs[i] + Span(m[hs[i]]) == hs[i + 1]
    ensures i == |hs| - 1 ==> Span(m[hs[i]]) == 0
  {
    if i < |hs| - 1 { assert Clump(m, hs, i); }
  }

  /** A clump that is still one has not become smaller. */
  lemma NoLessRoom(m: Image, hs: seq<nat>, b: Image, gs: seq<nat>, i: nat)
    requires Tiled(m, hs) && Tiled(b, gs) && |b| == |m| && i < |hs| && hs[i] in gs && forall c :: c in gs ==> c in hs
    ensures Span(b[hs[i]]) >= Span(m[hs[i]])
  {
    hide Span;
    var j :| 0 <= j < |gs| && gs[j] == hs[i];
    ClumpSpan(m, hs, i);
    ClumpSpan(b, gs, j);
    if i < |hs| - 1 {
      LastHeaderIs(hs, gs, |m|, i, j);
      assert gs[j] + 8 <= gs[j + 1] && gs[j + 1] in gs;
      var x :| 0 <= x < |hs| && hs[x] == gs[j + 1];
      assert i < x && (i + 1 < x ==> hs[i + 1] + 8 <= hs[x]);
    }
  }

  lemma FewerHeaders(s: Pm, hs: seq<nat>, k: nat)
    requires Quiet(s, hs) && CanFree(s.mem, hs, k)
    ensures forall c :: c in CoalescedFrom(FreedImage(s.mem, hs[k]), hs, 0) ==> c in hs
  {
    forall c | c !in hs ensures c !in CoalescedFrom(FreedImage(s.mem, hs[k]), hs, 0) {
      PassDrops(FreedImage(s.mem, hs[k]), hs, 0, c);
    }
  }

  lemma StillFree(s: Pm, hs: seq<nat>, k: nat, j: nat, c: nat)
    requires Quiet(s, hs) && CanFree(s.mem, hs, k) && Stale(s.mem, hs, j, c)
    ensures FreeWord(FreedImage(s.mem, hs[k]), hs, c)
  {
    hide FreedImage;
    hide PersistentMemory.Exec;
    FreedStates(s, hs, k);
    var a := FreedImage(s.mem, hs[k]);
    assert State(a[hs[j]]) == FREE;
  }

  // ---------------------------------------------------------------------------------------
  // Trails through whole calls
  // ---------------------------------------------------------------------------------------

  /** Whatever led to the chain still does, and what is found there has not become smaller. */
  ghost predicate TrailsKept(m: Image, b: Image) {
    && |b| == |m|
    && forall c: nat :: OnTrail(m, c) ==> OnTrail(b, c) && (c < |m| ==> Span(b[c]) >= Span(m[c]))
  }

  /** A free keeps them. */
  lemma FreeTrails(s: Pm, k: nat, b: Image)
    requires Quiet(s, Chain(s.mem)) && CanFree(s.mem, Chain(s.mem), k)
    requires b == Exec(s, FreeSteps(s.mem, Chain(s.mem), Chain(s.mem)[k])).mem
    requires Chain(b) == CoalescedFrom(FreedImage(s.mem, Chain(s.mem)[k]), Chain(s.mem), 0)
    ensures TrailsKept(s.mem, b)
  {
    hide PersistentMemory.Exec;
    hide Chain;
    hide ClumpOk;
    hide Clump;
    hide FreeSteps;
    hide FreedImage;
    hide CoalescedFrom;
    hide CanFree;
    hide Trail;
    forall c: nat | OnTrail(s.mem, c) ensures OnTrail(b, c) && (c < |s.mem| ==> Span(b[c]) >= Span(s.mem[c])) {
      TrailFreed(s, Chain(s.mem), k, c);
    }
  }

  /** So does everything that leaves the chain and the free clumps alone. */
  lemma {:induction false} TrailSame(m: Image, hs: seq<nat>, b: Image, c: nat)
    requires Bounds(hs, |m|) && |b| == |m| && Trail(m, hs, c)
    requires forall w :: 0 <= w < |m| && (FreeWord(m, hs, w) || w in hs) ==> b[w] == m[w]
    ensures Trail(b, hs, c) && (c < |m| ==> b[c] == m[c])
    decreases |m| - c
  {
    if c !in hs {
      var j: nat :| Stale(m, hs, j, c);
      assert FreeWord(m, hs, c) && FreeWord(m, hs, hs[j]);
      assert Stale(b, hs, j, c);
      TrailSame(m, hs, b, c + Span(m[c]));
    }
  }

  lemma SameTrails(m: Image, b: Image)
    requires Bounds(Chain(m), |m|) && |b| == |m| && Chain(b) == Chain(m)
    requires forall w :: 0 <= w < |m| && (FreeWord(m, Chain(m), w) || w in Chain(m)) ==> b[w] == m[w]
    ensures TrailsKept(m, b)
  {
    hide Chain;
    forall c: nat | OnTrail(m, c) ensures OnTrail(b, c) && (c < |m| ==> Span(b[c]) >= Span(m[c])) {
      TrailSame(m, Chain(m), b, c);
    }
  }

  /** A word of the header of a clump that is not free. */
  lemma HeaderTrails(m: Image, b: Image, k: nat)
    requires Tiled(m, Chain(m)) && |b| == |m| && Chain(b) == Chain(m)
    requires k < |Chain(m)| - 1 && State(m[Chain(m)[k]]) != FREE
    requires forall w :: 0 <= w < |m| && !(Chain(m)[k] < w < Chain(m)[k] + 8) ==> b[w] == m[w]
    ensures TrailsKept(m, b)
  {
    hide Chain;
    hide State;
    var hs := Chain(m);
    forall w | 0 <= w < |m| && FreeWord(m, hs, w) ensures b[w] == m[w] {
      var i :| 0 <= i < |hs| - 1 && hs[i] <= w < hs[i + 1] && State(m[hs[i]]) == FREE;
      HeadersApart(hs, |m|, i, k);
      if k < i { assert hs[k] + 8 <= hs[i]; } else { assert hs[i + 1] <= hs[k]; }
    }
    forall w | w in hs ensures b[w] == m[w] {
      var i :| 0 <= i < |hs| && hs[i] == w;
      if i != k { HeadersApart(hs, |m|, i, k); }
    }
    SameTrails(m, b);
  }

  /** A word that a restarted program sees. */
  lemma SeenTrails(m: Image, b: Image, w: nat)
    requires Tiled(m, Chain(m)) && NoTransit(m, Chain(m)) && |b| == |m| && Chain(b) == Chain(m)
    requires w < |m| && Visible(Living(m, Chain(m)), w) && b == m[w := b[w]]
    ensures TrailsKept(m, b)
  {
    hide Chain;
    hide State;
    var hs := Chain(m);
    VisibleIsTarget(m, hs, w);
    TargetIsNoHeader(hs, |m|, w);
    forall x | 0 <= x < |m| && FreeWord(m, hs, x) ensures x != w {
      var i :| 0 <= i < |hs| - 1 && hs[i] <= x < hs[i + 1] && State(m[hs[i]]) == FREE;
      OutsideHeader(hs, i, w);
      if hs[i] < x { InsideFree(m, hs, i, x); }
    }
    assert w !in hs by { assert !Header(hs, w); }
    SameTrails(m, b);
  }

  // ---------------------------------------------------------------------------------------
  // Searching
  // ---------------------------------------------------------------------------------------

  /** A header left inside a free clump that is still large enough. */
  lemma StaleLeftover(m: Image, hs: seq<nat>, j: nat, c: nat, bytes: nat)
    requires Bounds(hs, |m|) && Stale(m, hs, j, c) && Fits(m[c], bytes) && bytes % 64 == 0 && bytes >= 64
    ensures Leftover(m, hs, j, c, bytes)
  {
  }
}
