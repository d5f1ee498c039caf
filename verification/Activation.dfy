/** Activating and freeing: one store decides, and everything after it only finishes. */
module Activation {
  import opened PersistentMemory
  import opened PoolImage
  import opened RecoveryFacts
  import opened CrashSafety
  import opened Finishing

  // ---------------------------------------------------------------------------------------
  // The pool between two calls
  // ---------------------------------------------------------------------------------------

  ghost predicate Pinned(m: Image, hs: seq<nat>, w: nat)
    requires Bounds(hs, |m|)
  {
    Header(hs, w) || Visible(Living(m, hs), w)
  }

  ghost predicate NoTransit(m: Image, hs: seq<nat>)
    requires Bounds(hs, |m|)
  {
    forall i :: 0 <= i < |hs| - 1 ==> !Transit(m[hs[i]])
  }

  ghost predicate ReservedReaches(m: Image, hs: seq<nat>)
    requires Bounds(hs, |m|)
  {
    forall i :: 0 <= i < |hs| - 1 && State(m[hs[i]]) == RESERVED ==> ListReaches(m, hs, RESERVED, hs[i])
  }

  /** Between two calls: the memory is recoverable, no clump is in transit, and a crash loses
      nothing in the headers, the static area and the active clumps. */
  ghost predicate Quiet(s: Pm, hs: seq<nat>) {
    && Sane(s)
    && Recoverable(s.mem, hs) && NoTransit(s.mem, hs) && ReservedReaches(s.mem, hs)
    && forall w :: 0 <= w < |s.mem| && Pinned(s.mem, hs, w) ==> Clean(s, w)
  }

  lemma RelevantIsPinned(m: Image, hs: seq<nat>, t: nat, w: nat)
    requires Bounds(hs, |m|) && t < |hs| - 1 && w < |m| && Relevant(m, hs, t, w)
    ensures Pinned(m, hs, w)
  {
    if i :| 0 <= i < |hs| && RelevantHeader(m, hs, i, w) {
      assert hs[i] <= w < hs[i] + 8;
    }
  }

  lemma QuietSteady(s: Pm, hs: seq<nat>, t: nat)
    requires Quiet(s, hs) && t < |hs| - 1
    ensures Steady(s, s.mem, hs, t)
  {
    forall w | 0 <= w < |s.mem| && Relevant(s.mem, hs, t, w) ensures Clean(s, w) {
      RelevantIsPinned(s.mem, hs, t, w);
    }
  }

  lemma QuietSafe(s: Pm, hs: seq<nat>)
    requires Quiet(s, hs)
    ensures Safe(s, Showing({ViewOf(s.mem, hs)}))
  {
    QuietSteady(s, hs, 0);
    SteadySafe(s, s.mem, hs, 0);
  }

  // ---------------------------------------------------------------------------------------
  // The deciding store
  // ---------------------------------------------------------------------------------------

  ghost predicate Names(off: nat, lo: nat, hi: nat) { off != 0 && lo <= off / 8 < hi }

  /** No other clump's list names a word of clump k. */
  ghost predicate Unnamed(m: Image, hs: seq<nat>, k: nat)
    requires Bounds(hs, |m|) && k < |hs| - 1
  {
    forall i :: 0 <= i < |hs| - 1 && i != k && (State(m[hs[i]]) == ACTIVE || State(m[hs[i]]) == RESERVED) ==>
      && !Names(m[hs[i] + 2], hs[k] + 8, hs[k + 1])
      && !Names(m[hs[i] + 4], hs[k] + 8, hs[k + 1])
      && !Names(m[hs[i] + 6], hs[k] + 8, hs[k + 1])
  }

  /** What a list may name depends on the states of the clumps alone. */
  lemma ReachKept(a: Image, m: Image, hs: seq<nat>, owner: nat, off: nat)
    requires |a| == |m| && Bounds(hs, |m|) && ReachOffset(m, hs, owner, off)
    requires forall j: nat :: Inside(hs, j, off / 8) && Allows(owner, State(m[hs[j]])) ==>
               Allows(owner, State(a[hs[j]]))
    ensures ReachOffset(a, hs, owner, off)
  {
    if !Static(off / 8) {
      var j: nat :| Inside(hs, j, off / 8) && Allows(owner, State(m[hs[j]]));
      assert Allows(owner, State(a[hs[j]]));
    }
  }

  /** Clump k changes its state; another clump keeps its list, and what that list may name. */
  lemma ListKept(a: Image, m: Image, hs: seq<nat>, k: nat, i: nat, owner: nat)
    requires |a| == |m| && Bounds(hs, |m|) && k < |hs| - 1 && i < |hs| - 1 && i != k
    requires State(m[hs[i]]) == owner && (owner == ACTIVE || owner == RESERVED)
    requires SameHeader(a, m, hs[i])
    requires forall j :: 0 <= j < |hs| - 1 && j != k ==> a[hs[j]] == m[hs[j]]
    requires Unnamed(m, hs, k) || (Allows(owner, State(m[hs[k]])) ==> Allows(owner, State(a[hs[k]])))
    requires ListReaches(m, hs, owner, hs[i])
    ensures ListReaches(a, hs, owner, hs[i])
  {
    if m[hs[i] + 2] != 0 { ReachKept(a, m, hs, owner, m[hs[i] + 2]); }
    if m[hs[i] + 4] != 0 { ReachKept(a, m, hs, owner, m[hs[i] + 4]); }
    if m[hs[i] + 6] != 0 { ReachKept(a, m, hs, owner, m[hs[i] + 6]); }
  }

  /** The same when no size word changes. */
  lemma SameSizesList(a: Image, m: Image, hs: seq<nat>, owner: nat, h: nat)
    requires |a| == |m| && Bounds(hs, |m|) && SameHeader(a, m, h) && ListReaches(m, hs, owner, h)
    requires forall j :: 0 <= j < |hs| ==> a[hs[j]] == m[hs[j]]
    ensures ListReaches(a, hs, owner, h)
  {
    if m[h + 2] != 0 { ReachKept(a, m, hs, owner, m[h + 2]); }
    if m[h + 4] != 0 { ReachKept(a, m, hs, owner, m[h + 4]); }
    if m[h + 6] != 0 { ReachKept(a, m, hs, owner, m[h + 6]); }
  }

  /** The size word that commits clump k to becoming ACTIVE, or to becoming FREE. */
  function CommitSize(v: nat): nat {
    Bytes(v) + if State(v) == RESERVED then ACTIVATING else FREEING
  }

  ghost predicate CanCommit(m: Image, hs: seq<nat>, k: nat)
    requires Bounds(hs, |m|)
  {
    && k < |hs| - 1
    && (State(m[hs[k]]) == RESERVED || (State(m[hs[k]]) == ACTIVE && Unnamed(m, hs, k)))
    && Consistent(m, hs[k])
  }

  lemma CommitRecoverable(m: Image, hs: seq<nat>, k: nat)
    requires Recoverable(m, hs) && NoTransit(m, hs) && ReservedReaches(m, hs) && CanCommit(m, hs, k)
    ensures var m' := m[hs[k] := CommitSize(m[hs[k]])];
            Restated(m', m, hs, k) && Recoverable(m', hs) && OnlyTransit(m', hs, k) && Consistent(m', hs[k])
                && Transit(m'[hs[k]])
  {
    var h := hs[k];
    var v := CommitSize(m[h]);
    var m' := m[h := v];
    SizeWord(Bytes(m[h]), if State(m[h]) == RESERVED then ACTIVATING else FREEING);
    RestatedTiled(m', m, hs, k);
    forall i | 0 <= i < |hs| - 1 ensures ClumpOk(m', hs, i) && (i != k ==> !Transit(m'[hs[i]])) {
      assert ClumpOk(m, hs, i);
      if i == k {
        ReachesIsOk(m, hs, State(m[h]), h);
      } else {
        RestatedHeaders(m', m, hs, k, i);
        forall j | 0 <= j < |hs| - 1 && j != k ensures m'[hs[j]] == m[hs[j]] { RestatedHeaders(m', m, hs, k, j); }
        if State(m[hs[i]]) == ACTIVE { ListKept(m', m, hs, k, i, ACTIVE); }
      }
    }
  }

  /** The payload of clump k. */
  ghost predicate PayloadClean(s: Pm, hs: seq<nat>, k: nat)
    requires k < |hs| - 1
  {
    forall w :: hs[k] + 8 <= w < hs[k + 1] ==> Clean(s, w)
  }

  lemma CommitSteady(s: Pm, hs: seq<nat>, k: nat)
    requires Quiet(s, hs) && CanCommit(s.mem, hs, k)
    requires State(s.mem[hs[k]]) == RESERVED ==> PayloadClean(s, hs, k)
    ensures var v := CommitSize(s.mem[hs[k]]); Steady(Pin(s, hs[k], v), s.mem[hs[k] := v], hs, k)
  {
    var m, h := s.mem, hs[k];
    var v := CommitSize(m[h]);
    var m' := m[h := v];
    CommitRecoverable(m, hs, k);
    forall w | 0 <= w < |m| && w != h && Relevant(m', hs, k, w) ensures Clean(s, w) {
      RelevantIsPinned(m', hs, k, w);
      if !Header(hs, w) && !Static(w) {
        var g :| g in Living(m', hs) && g + 8 <= w < g + Living(m', hs)[g];
        var i :| 0 <= i < |hs| && hs[i] == g;
        if i == k {
          assert Clump(m, hs, k);
        } else {
          RestatedHeaders(m', m, hs, k, i);
          assert g in Living(m, hs);
        }
      }
    }
  }

  // ---------------------------------------------------------------------------------------
  // The whole transition
  // ---------------------------------------------------------------------------------------

  function Commit(m: Image, h: nat): seq<Instr>
    requires h + 8 <= |m|
  {
    SetSize(h, CommitSize(m[h])) + Finish(m[h := CommitSize(m[h])], h)
  }

  lemma CommitFlip(s: Pm, hs: seq<nat>, k: nat)
    requires Quiet(s, hs) && CanCommit(s.mem, hs, k)
    requires State(s.mem[hs[k]]) == RESERVED ==> PayloadClean(s, hs, k)
    ensures var v := CommitSize(s.mem[hs[k]]); var m' := s.mem[hs[k] := v]; var r := Exec(s, SetSize(hs[k], v));
            && Guarded(s, SetSize(hs[k], v), Showing({ViewOf(s.mem, hs), ViewOf(m', hs)}))
            && r.mem == m' && Steady(r, m', hs, k)
            && (forall w :: 0 <= w < |m'| && Clean(s, w) ==> Clean(r, w))
  {
    var h := hs[k];
    var v := CommitSize(s.mem[h]);
    var m' := s.mem[h := v];
    QuietSteady(s, hs, k);
    CommitSteady(s, hs, k);
    HeaderCovered(h, h);
    Flip(s, h, v, 8 * h, 64, s.mem, hs, k, m', hs, k);
    SetSizeEffect(s, h, v);
  }

  /** Committing clump k: every crash shows the view before or the view of the committed image. */
  lemma CommitAtomic(s: Pm, hs: seq<nat>, k: nat)
    requires Quiet(s, hs) && CanCommit(s.mem, hs, k)
    requires State(s.mem[hs[k]]) == RESERVED ==> PayloadClean(s, hs, k)
    ensures var prog := Commit(s.mem, hs[k]); var r := Exec(s, prog);
            && Guarded(s, prog, Showing({ViewOf(s.mem, hs), ViewOf(r.mem, hs)}))
            && Steady(r, r.mem, hs, k)
            && ViewOf(r.mem, hs) == ViewOf(s.mem[hs[k] := CommitSize(s.mem[hs[k]])], hs)
  {
    var m, h := s.mem, hs[k];
    var v := CommitSize(m[h]);
    var m' := m[h := v];
    var p := SetSize(h, v);
    var q := Finish(m', h);
    CommitFlip(s, hs, k);
    CommitRecoverable(m, hs, k);
    FinishAtomic(Exec(s, p), hs, k);
    var both := Showing({ViewOf(m, hs), ViewOf(m', hs)});
    GuardedWiden(Exec(s, p), q, Showing({ViewOf(m', hs)}), both);
    GuardedConcat(s, p, q, both);
    ExecConcat(s, p, q);
  }

  lemma CommitEffect(s: Pm, hs: seq<nat>, k: nat)
    requires Quiet(s, hs) && CanCommit(s.mem, hs, k)
    ensures var m' := s.mem[hs[k] := CommitSize(s.mem[hs[k]])]; var r := Exec(s, Commit(s.mem, hs[k]));
            && r.mem == ResolveClump(m', hs[k])
            && OwnListOk(m', hs, k)
            && forall w :: 0 <= w < |m'| && (hs[k] <= w < hs[k] + 8 || Dest(m', hs[k], w) || Clean(s, w)) ==>
                Clean(r, w)
  {
    var h := hs[k];
    var v := CommitSize(s.mem[h]);
    CommitRecoverable(s.mem, hs, k);
    assert ClumpOk(s.mem[h := v], hs, k);
    SetSizeEffect(s, h, v);
    FinishEffect(Exec(s, SetSize(h, v)), hs, k);
    ExecConcat(s, SetSize(h, v), Finish(s.mem[h := v], h));
  }

  /** Word w after clump k has been committed and finished. */
  ghost function CommittedWord(m: Image, hs: seq<nat>, k: nat, w: nat): nat
    requires Bounds(hs, |m|) && k < |hs| - 1 && w < |m|
  {
    var h := hs[k];
    if w == h then Bytes(m[h]) + (if State(m[h]) == RESERVED then ACTIVE else FREE)
    else if OffWord(h, w) then 0
    else if h <= w < h + 8 then m[w]
    else ReplayAt(m, h, w)
  }

  lemma CommitPoint(m: Image, hs: seq<nat>, k: nat)
    requires Bounds(hs, |m|) && CanCommit(m, hs, k)
    requires OwnListOk(m[hs[k] := CommitSize(m[hs[k]])], hs, k)
    ensures forall w :: 0 <= w < |m| ==>
              ResolveClump(m[hs[k] := CommitSize(m[hs[k]])], hs[k])[w] == CommittedWord(m, hs, k, w)
  {
    var h := hs[k];
    var v := CommitSize(m[h]);
    SizeWord(Bytes(m[h]), if State(m[h]) == RESERVED then ACTIVATING else FREEING);
    ResolveClumpPoint(m[h := v], hs, k);
    forall w | 0 <= w < |m| ensures ResolvedWord(m[h := v], hs, k, w) == CommittedWord(m, hs, k, w) {
      if h <= w < h + 8 {} else {}
    }
  }

  // ---------------------------------------------------------------------------------------
  // The pool after the transition
  // ---------------------------------------------------------------------------------------

  lemma CommittedHeaders(m: Image, a: Image, hs: seq<nat>, k: nat, i: nat)
    requires Bounds(hs, |m|) && k < |hs| - 1 && i < |hs| && i != k && |a| == |m|
    requires ListOk(m, hs, hs[k])
    requires forall w :: 0 <= w < |m| ==> a[w] == CommittedWord(m, hs, k, w)
    ensures SameHeader(a, m, hs[i])
  {
    HeadersApart(hs, |m|, i, k);
    forall w | hs[i] <= w < hs[i] + 8 ensures a[w] == m[w] {
      assert Header(hs, w);
      ReplayKeepsHeaders(m, hs, k, w);
    }
  }

  /** The clump is settled, every other header is as it was. */
  ghost predicate Committed(a: Image, m: Image, hs: seq<nat>, k: nat)
    requires Bounds(hs, |m|) && k < |hs| - 1
  {
    && |a| == |m|
    && (forall w :: 0 <= w < |m| ==> a[w] == CommittedWord(m, hs, k, w))
    && (forall i :: 0 <= i < |hs| && i != k ==> SameHeader(a, m, hs[i]))
  }

  lemma CommitCommitted(s: Pm, hs: seq<nat>, k: nat)
    requires Quiet(s, hs) && CanCommit(s.mem, hs, k)
    ensures Committed(Exec(s, Commit(s.mem, hs[k])).mem, s.mem, hs, k)
    ensures ListOk(s.mem, hs, hs[k])
  {
    CommitEffect(s, hs, k);
    CommitPoint(s.mem, hs, k);
    assert ClumpOk(s.mem, hs, k);
    ReachesIsOk(s.mem, hs, State(s.mem[hs[k]]), hs[k]);
    var a := Exec(s, Commit(s.mem, hs[k])).mem;
    forall i | 0 <= i < |hs| && i != k ensures SameHeader(a, s.mem, hs[i]) {
      CommittedHeaders(s.mem, a, hs, k, i);
    }
  }

  lemma CommittedState(a: Image, m: Image, hs: seq<nat>, k: nat)
    requires Recoverable(m, hs) && CanCommit(m, hs, k) && Committed(a, m, hs, k)
    ensures State(a[hs[k]]) == (if State(m[hs[k]]) == RESERVED then ACTIVE else FREE)
    ensures Span(a[hs[k]]) == Span(m[hs[k]])
    ensures Living(a, hs) == if State(m[hs[k]]) == RESERVED then Living(m, hs)[hs[k] := Span(m[hs[k]])]
                                                            else Living(m, hs) - {hs[k]}
  {
    hide State;
    var h := hs[k];
    SizeWord(Bytes(m[h]), if State(m[h]) == RESERVED then ACTIVE else FREE);
    assert a[h] == CommittedWord(m, hs, k, h);
    forall g: nat | g in hs && g < |m| && g != h ensures a[g] == m[g] {
      var i :| 0 <= i < |hs| && hs[i] == g;
      assert SameHeader(a, m, hs[i]);
    }
  }

  lemma CommittedPinned(r: Pm, s: Pm, hs: seq<nat>, k: nat, w: nat)
    requires Quiet(s, hs) && CanCommit(s.mem, hs, k) && Committed(r.mem, s.mem, hs, k)
    requires State(s.mem[hs[k]]) == RESERVED ==> PayloadClean(s, hs, k)
    requires forall w :: 0 <= w < |s.mem| && (hs[k] <= w < hs[k] + 8 || Clean(s, w)) ==> Clean(r, w)
    requires w < |r.mem| && Pinned(r.mem, hs, w)
    ensures Clean(r, w)
  {
    hide Consistent;
    hide Unnamed;
    hide Exec;
    hide ClumpOk;
    var m, a, h := s.mem, r.mem, hs[k];
    CommittedState(a, m, hs, k);
    forall j | 0 <= j < |hs| && j != k ensures a[hs[j]] == m[hs[j]] { assert SameHeader(a, m, hs[j]); }
    if !Header(hs, w) && !Static(w) && !Visible(Living(m, hs), w) {
      var g :| g in Living(a, hs) && g + 8 <= w < g + Living(a, hs)[g];
      assert g == h;
      assert Clump(m, hs, k);
    } else {
      assert Pinned(m, hs, w);
    }
  }

  lemma CommittedQuiet(r: Pm, s: Pm, hs: seq<nat>, k: nat)
    requires Quiet(s, hs) && CanCommit(s.mem, hs, k) && Sane(r) && Committed(r.mem, s.mem, hs, k)
    requires State(s.mem[hs[k]]) == RESERVED ==> PayloadClean(s, hs, k)
    requires Recoverable(r.mem, hs)
    requires forall w :: 0 <= w < |s.mem| && (hs[k] <= w < hs[k] + 8 || Clean(s, w)) ==> Clean(r, w)
    ensures Quiet(r, hs)
  {
    var m, a, h := s.mem, r.mem, hs[k];
    CommittedState(a, m, hs, k);
    forall j | 0 <= j < |hs| && j != k ensures a[hs[j]] == m[hs[j]] { assert SameHeader(a, m, hs[j]); }
    forall i | 0 <= i < |hs| - 1 && State(a[hs[i]]) == RESERVED ensures ListReaches(a, hs, RESERVED, hs[i]) {
      ListKept(a, m, hs, k, i, RESERVED);
    }
    forall w | 0 <= w < |a| && Pinned(a, hs, w) ensures Clean(r, w) { CommittedPinned(r, s, hs, k, w); }
  }

  /** What a restarted program sees once clump k has been committed. */
  lemma CommittedView(a: Image, m: Image, hs: seq<nat>, k: nat)
    requires Recoverable(m, hs) && CanCommit(m, hs, k) && Committed(a, m, hs, k)
    requires Recoverable(a, hs) && OnlyTransit(a, hs, k)
    ensures ViewOf(a, hs).live == Living(a, hs)
    ensures forall w: nat :: w in ViewOf(a, hs).words <==> w < |m| && Visible(Living(a, hs), w)
    ensures forall w: nat :: w < |m| && Visible(Living(a, hs), w) ==> ViewOf(a, hs).words[w] == ReplayAt(m, hs[k], w)
  {
    ViewWords(a, hs, k);
    CommittedState(a, m, hs, k);
    forall w: nat | w < |m| && Visible(Living(a, hs), w) ensures Seen(a, hs, k, w) == ReplayAt(m, hs[k], w) {
      VisibleIsTarget(a, hs, w);
      TargetIsNoHeader(hs, |m|, w);
      OutsideHeader(hs, k, w);
      assert a[w] == CommittedWord(m, hs, k, w);
    }
  }

  // ---------------------------------------------------------------------------------------
  // pmemalloc_activate
  // ---------------------------------------------------------------------------------------

  /** The payload is flushed with the length `clp->size - 64`, state bits included. */
  function ActivateSteps(m: Image, h: nat): seq<Instr>
    requires h + 8 <= |m| && m[h] >= 64
  {
    [Persist(8 * (h + 8), m[h] - 64)] + Commit(m, h)
  }

  lemma FlushQuiet(s: Pm, hs: seq<nat>, addr: nat, len: nat)
    requires Quiet(s, hs)
    ensures var r := Exec(s, [Persist(addr, len)]);
            && Quiet(r, hs) && r.mem == s.mem
            && (forall w :: 0 <= w < |s.mem| && (Clean(s, w) || Covered(addr, len, w)) ==> Clean(r, w))
            && Guarded(s, [Persist(addr, len)], Showing({ViewOf(s.mem, hs)}))
  {
    QuietSteady(s, hs, 0);
    IdleProgram(s, [Persist(addr, len)], s.mem, hs, 0);
    assert Exec(s, [Persist(addr, len)]) == Step(s, Persist(addr, len));
  }

  lemma PayloadCovered(m: Image, hs: seq<nat>, k: nat, w: nat)
    requires Tiled(m, hs) && k < |hs| - 1 && hs[k] + 8 <= w < hs[k + 1]
    ensures m[hs[k]] >= 64 && Covered(8 * (hs[k] + 8), m[hs[k]] - 64, w)
  {
    assert Clump(m, hs, k);
    assert hs[k] + 8 <= hs[k + 1];
    assert hs[k + 1] % 8 == 0 && hs[k] % 8 == 0;
  }

  lemma ClumpSize(m: Image, hs: seq<nat>, k: nat)
    requires Tiled(m, hs) && k < |hs| - 1
    ensures m[hs[k]] >= 64 && hs[k + 1] == hs[k] + Span(m[hs[k]])
  {
    assert Clump(m, hs, k);
    assert hs[k] + 8 <= hs[k + 1];
  }

  /** The view v after clump k has been committed: the clump has joined or left the allocations,
      its registered stores are done, and nothing else has changed. */
  ghost predicate ViewAfter(v: View, m: Image, hs: seq<nat>, k: nat)
    requires Bounds(hs, |m|) && k < |hs| - 1
  {
    && v.live ==
        (if State(m[hs[k]]) == RESERVED then Living(m, hs)[hs[k] := Span(m[hs[k]])] else Living(m, hs) - {hs[k]})
    && (forall w: nat :: w in v.words <==> w < |m| && Visible(v.live, w))
    && (forall w: nat :: w in v.words ==> v.words[w] == ReplayAt(m, hs[k], w))
  }

  /** Atomicity, the state reached and the view reached, for either kind of commit. */
  lemma CommitWhole(s: Pm, hs: seq<nat>, k: nat)
    requires Quiet(s, hs) && CanCommit(s.mem, hs, k)
    requires State(s.mem[hs[k]]) == RESERVED ==> PayloadClean(s, hs, k)
    ensures var prog := Commit(s.mem, hs[k]); var r := Exec(s, prog);
            && Guarded(s, prog, Showing({ViewOf(s.mem, hs), ViewOf(r.mem, hs)}))
            && Quiet(r, hs) && Committed(r.mem, s.mem, hs, k)
            && ViewAfter(ViewOf(r.mem, hs), s.mem, hs, k)
  {
    var r := Exec(s, Commit(s.mem, hs[k]));
    CommitAtomic(s, hs, k);
    CommitEffect(s, hs, k);
    CommitCommitted(s, hs, k);
    CommittedQuiet(r, s, hs, k);
    CommittedState(r.mem, s.mem, hs, k);
    CommittedView(r.mem, s.mem, hs, k);
  }

  lemma ActivateFlush(s: Pm, hs: seq<nat>, k: nat)
    requires Quiet(s, hs) && k < |hs| - 1
    ensures s.mem[hs[k]] >= 64
    ensures var p := [Persist(8 * (hs[k] + 8), s.mem[hs[k]] - 64)]; var a := Exec(s, p);
            && Quiet(a, hs) && a.mem == s.mem && PayloadClean(a, hs, k)
            && Guarded(s, p, Showing({ViewOf(s.mem, hs)}))
  {
    ClumpSize(s.mem, hs, k);
    FlushQuiet(s, hs, 8 * (hs[k] + 8), s.mem[hs[k]] - 64);
    var a := Exec(s, [Persist(8 * (hs[k] + 8), s.mem[hs[k]] - 64)]);
    forall w | hs[k] + 8 <= w < hs[k + 1] ensures Clean(a, w) {
      PayloadCovered(s.mem, hs, k, w);
    }
  }

  /** Two programs in a row. */
  lemma GuardedThen(s: Pm, p: seq<Instr>, q: seq<Instr>, before: View, after: View)
    requires Sane(s) && Guarded(s, p, Showing({before})) && Guarded(Exec(s, p), q, Showing({before, after}))
    ensures Guarded(s, p + q, Showing({before, after})) && Exec(s, p + q) == Exec(Exec(s, p), q)
  {
    GuardedWiden(s, p, Showing({before}), Showing({before, after}));
    GuardedConcat(s, p, q, Showing({before, after}));
    ExecConcat(s, p, q);
  }

  /** What committing clump k promises of a program, from the state s to the state r. */
  ghost predicate CommitsAtomically(s: Pm, prog: seq<Instr>, r: Pm, hs: seq<nat>, k: nat)
    requires Sane(s) && Bounds(hs, |s.mem|) && k < |hs| - 1
  {
    && r == Exec(s, prog)
    && Quiet(r, hs) && Committed(r.mem, s.mem, hs, k)
    && ViewAfter(ViewOf(r.mem, hs), s.mem, hs, k)
    && Guarded(s, prog, Showing({ViewOf(s.mem, hs), ViewOf(r.mem, hs)}))
  }

  /** Activation is crash-atomic.  Whatever a crash leaves at any point shows the view before the
      call or the view after it; the latter has the new clump, whole, and all registered stores
      done, and differs in nothing else. */
  lemma ActivateAtomic(s: Pm, hs: seq<nat>, k: nat) returns (r: Pm)
    requires Quiet(s, hs) && CanCommit(s.mem, hs, k) && State(s.mem[hs[k]]) == RESERVED
    ensures s.mem[hs[k]] >= 64
    ensures CommitsAtomically(s, ActivateSteps(s.mem, hs[k]), r, hs, k)
  {
    hide State;
    hide Bytes;
    hide Span;
    hide PersistentMemory.Exec;
    ActivateFlush(s, hs, k);
    var p := [Persist(8 * (hs[k] + 8), s.mem[hs[k]] - 64)];
    var a := Exec(s, p);
    var q := Commit(s.mem, hs[k]);
    r := Exec(a, q);
    CommitWhole(a, hs, k);
    GuardedThen(s, p, q, ViewOf(s.mem, hs), ViewOf(r.mem, hs));
  }
}
