/** The calls of the allocator as a restarted program may meet them: each is a list of stores and
    persists, cut off anywhere. */
module Calls {
  import opened PersistentMemory
  import opened PoolImage
  import opened RecoveryFacts
  import opened CrashSafety
  import opened Finishing
  import opened Activation
  import opened Rechaining
  import opened Coalescing
  import opened Registering
  import opened Recovering

  // ---------------------------------------------------------------------------------------
  // pmemalloc_free
  // ---------------------------------------------------------------------------------------

  function FreeCore(m: Image, h: nat): seq<Instr>
    requires h + 8 <= |m|
  {
    if State(m[h]) == ACTIVE then Commit(m, h) else SetSize(h, Bytes(m[h]) + FREE)
  }

  /** The memory before the pass that merges free neighbours. */
  function FreedImage(m: Image, h: nat): (r: Image)
    requires h + 8 <= |m|
    ensures |r| == |m|
  {
    if State(m[h]) == ACTIVE then ResolveClump(m[h := CommitSize(m[h])], h) else m[h := Bytes(m[h]) + FREE]
  }

  ghost function FreeSteps(m: Image, hs: seq<nat>, h: nat): seq<Instr>
    requires h + 8 <= |m| && Bounds(hs, |m|)
  {
    FreeCore(m, h) + CoalesceFrom(FreedImage(m, h), hs, 0)
  }

  ghost predicate CanFree(m: Image, hs: seq<nat>, k: nat)
    requires Bounds(hs, |m|)
  {
    && k < |hs| - 1
    && ((State(m[hs[k]]) == RESERVED && Unnamed(m, hs, k)) || (State(m[hs[k]]) == ACTIVE && CanCommit(m, hs, k)))
  }

  /** Freeing, up to the merging pass: atomic, and a restarted program sees the clump gone and the
      registered stores done, or nothing of the call. */
  lemma FreeCoreAtomic(s: Pm, hs: seq<nat>, k: nat) returns (r: Pm)
    requires Quiet(s, hs) && CanFree(s.mem, hs, k)
    ensures r == Exec(s, FreeCore(s.mem, hs[k])) && r.mem == FreedImage(s.mem, hs[k])
    ensures Quiet(r, hs)
    ensures Guarded(s, FreeCore(s.mem, hs[k]), Showing({ViewOf(s.mem, hs), ViewOf(r.mem, hs)}))
    ensures State(s.mem[hs[k]]) == ACTIVE ==>
              Committed(r.mem, s.mem, hs, k) && ViewAfter(ViewOf(r.mem, hs), s.mem, hs, k)
    ensures State(s.mem[hs[k]]) == RESERVED ==> ViewOf(r.mem, hs) == ViewOf(s.mem, hs)
  {
    if State(s.mem[hs[k]]) == ACTIVE {
      CommitWhole(s, hs, k);
      CommitEffect(s, hs, k);
      r := Exec(s, Commit(s.mem, hs[k]));
    } else {
      r := ReleaseAtomic(s, hs, k);
      assert {ViewOf(s.mem, hs), ViewOf(r.mem, hs)} == {ViewOf(s.mem, hs)};
    }
  }

  lemma FreeAtomic(s: Pm, hs: seq<nat>, k: nat) returns (r: Pm, gs: seq<nat>)
    requires Quiet(s, hs) && CanFree(s.mem, hs, k)
    ensures r == Exec(s, FreeSteps(s.mem, hs, hs[k])) && gs == CoalescedFrom(FreedImage(s.mem, hs[k]), hs, 0)
    ensures Quiet(r, gs) && Coalesced(r.mem, gs, |gs|)
    ensures SameUse(FreedImage(s.mem, hs[k]), hs, r.mem, gs)
    ensures Guarded(s, FreeSteps(s.mem, hs, hs[k]), Showing({ViewOf(s.mem, hs), ViewOf(r.mem, gs)}))
    ensures State(s.mem[hs[k]]) == ACTIVE ==> ViewAfter(ViewOf(r.mem, gs), s.mem, hs, k)
    ensures State(s.mem[hs[k]]) == RESERVED ==> ViewOf(r.mem, gs) == ViewOf(s.mem, hs)
  {
    var p := FreeCore(s.mem, hs[k]);
    var a := FreeCoreAtomic(s, hs, k);
    gs := CoalescedFrom(a.mem, hs, 0);
    r := CoalescePass(a, hs, 0);
    var q := CoalesceFrom(a.mem, hs, 0);
    var both := Showing({ViewOf(s.mem, hs), ViewOf(r.mem, gs)});
    GuardedWiden(a, q, Showing({ViewOf(a.mem, hs)}), both);
    InSequence(s, p, a, q, r, both);
  }

  // ---------------------------------------------------------------------------------------
  // Opening the pool
  // ---------------------------------------------------------------------------------------

  /** pmemalloc_recover, then pmemalloc_coalesce_free. */
  ghost function RestartSteps(img: Image, hs: seq<nat>): seq<Instr>
    requires Bounds(hs, |img|)
  {
    RecoverFrom(img, hs, 0) + CoalesceFrom(Resolve(img, hs), hs, 0)
  }

  lemma BootClean(img: Image)
    ensures AllClean(Boot(img)) && Boot(img).mem == img
  {
  }

  lemma ResolvedSettled(r: Pm, hs: seq<nat>)
    requires AllClean(r) && Recoverable(r.mem, hs) && SettledBefore(r.mem, hs, |hs| - 1)
    ensures Quiet(r, hs) && Resolve(r.mem, hs) == r.mem
  {
    PrefixIdle(r.mem, hs, |hs| - 1);
    forall i | 0 <= i < |hs| - 1 ensures !Transit(r.mem[hs[i]]) && State(r.mem[hs[i]]) != RESERVED {
      assert !Pending(r.mem[hs[i]]);
    }
  }

  /** The sizes survive recovery, so the chain does. */
  lemma ResolvedTiled(img: Image, hs: seq<nat>)
    requires Recoverable(img, hs)
    ensures Tiled(Resolve(img, hs), hs)
  {
    hide State;
    RecoverableLists(img, hs);
    HeadersResolved(img, hs);
    var r := Resolve(img, hs);
    forall i | 0 <= i < |hs| - 1 ensures Clump(r, hs, i) {
      assert Clump(img, hs, i);
      assert r[hs[i]] == SettledWord(img, hs[i], hs[i]);
      SizeWord(Bytes(img[hs[i]]), Settled(State(img[hs[i]])));
    }
    assert r[hs[|hs| - 1]] == img[hs[|hs| - 1]];
  }

  /** Leading to the same image means showing the same view. */
  lemma LeadingShows(out: Image, hs: seq<nat>)
    requires Tiled(out, hs)
    ensures LeadingTo(out) <= Showing({Shot(out, hs)})
  {
    forall img | img in LeadingTo(out) ensures img in Showing({Shot(out, hs)}) {
      ResolvedTiled(img, Chain(img));
      ChainUnique(out, Chain(img));
      ChainUnique(out, hs);
    }
  }

  /** Opening a pool left by a crash: no crash on the way shows anything else, every clump ends
      FREE or ACTIVE, and no two neighbours are free. */
  lemma RestartAtomic(img: Image, hs: seq<nat>) returns (r: Pm, gs: seq<nat>)
    requires Recoverable(img, hs)
    ensures r == Exec(Boot(img), RestartSteps(img, hs)) && gs == CoalescedFrom(Resolve(img, hs), hs, 0)
    ensures Quiet(r, gs) && Coalesced(r.mem, gs, |gs|) && ViewOf(r.mem, gs) == ViewOf(img, hs)
    ensures SameUse(Resolve(img, hs), hs, r.mem, gs)
    ensures forall i :: 0 <= i < |gs| - 1 ==> State(r.mem[gs[i]]) == FREE || State(r.mem[gs[i]]) == ACTIVE
    ensures Guarded(Boot(img), RestartSteps(img, hs), Showing({ViewOf(img, hs)}))
  {
    BootClean(img);
    var a := RecoverExact(Boot(img), hs, 0);
    ResolvedSettled(a, hs);
    ResolvedTiled(img, hs);
    LeadingShows(Resolve(img, hs), hs);
    gs := CoalescedFrom(a.mem, hs, 0);
    r := CoalescePass(a, hs, 0);
    var p, q := RecoverFrom(img, hs, 0), CoalesceFrom(a.mem, hs, 0);
    GuardedWiden(Boot(img), p, LeadingTo(Resolve(img, hs)), Showing({ViewOf(img, hs)}));
    InSequence(Boot(img), p, a, q, r, Showing({ViewOf(img, hs)}));
    UseSettled(a.mem, hs, r.mem, gs);
  }

  lemma UseSettled(a: Image, hs: seq<nat>, b: Image, gs: seq<nat>)
    requires Tiled(a, hs) && Tiled(b, gs) && SameUse(a, hs, b, gs) && SettledBefore(a, hs, |hs| - 1)
    ensures forall i :: 0 <= i < |gs| - 1 ==> State(b[gs[i]]) == FREE || State(b[gs[i]]) == ACTIVE
  {
    forall i | 0 <= i < |gs| - 1 && State(b[gs[i]]) != FREE ensures State(b[gs[i]]) == ACTIVE {
      assert InChain(hs, gs[i], gs[i + 1]) && SameHeader(a, b, gs[i]);
      var j: nat :| Link(hs, j, gs[i], gs[i + 1]);
      assert !Pending(a[hs[j]]) && Clump(a, hs, j);
    }
  }

  // ---------------------------------------------------------------------------------------
  // A new pool
  // ---------------------------------------------------------------------------------------

  /** Whole 64-byte chunks of a file of `size` bytes, in words. */
  function PoolWords(size: nat): nat { size / 64 * 8 }

  /** A new pool: one free clump up to the zero-size terminator. */
  function NewPool(size: nat): Image
    requires size >= 8 * MIN_WORDS
  {
    seq(PoolWords(size), w => if w == FIRST then size / 64 * 64 - 64 - 8 * FIRST else 0)
  }

  /** The layout arithmetic: the first clump, the terminator and the bytes rounded off add up to
      the file size, and the new pool is a tiling with nothing allocated. */
  lemma NewPoolRecoverable(size: nat)
    requires size >= 8 * MIN_WORDS
    ensures var img := NewPool(size); var hs := [FIRST, LastHeader(|img|)];
            && Recoverable(img, hs) && Chain(img) == hs
            && 8 * FIRST + Bytes(img[FIRST]) + 64 + size % 64 == size
            && Living(img, hs) == map[]
  {
    hide Exec;
    var img := NewPool(size);
    var hs := [FIRST, LastHeader(|img|)];
    assert Tiled(img, hs) by {
      forall i | 0 <= i < |hs| - 1 ensures Clump(img, hs, i) { assert i == 0; }
    }
    forall i | 0 <= i < |hs| - 1 ensures ClumpOk(img, hs, i) { assert i == 0; }
    ChainUnique(img, hs);
    assert Living(img, hs) == map[];
  }
}
