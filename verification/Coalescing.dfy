/** Merging runs of free clumps (pmemalloc_coalesce_free). */
module Coalescing {
  import opened PersistentMemory
  import opened PoolImage
  import opened RecoveryFacts
  import opened CrashSafety
  import opened Finishing
  import opened Activation
  import opened Rechaining

  ghost predicate FreeRun(m: Image, hs: seq<nat>, p: nat, q: nat)
    requires Bounds(hs, |m|)
  {
    && p < q < |hs|
    && forall i :: p <= i < q ==> State(m[hs[i]]) == FREE
  }

  /** The size of the clump that takes the place of those from p to q. */
  function MergedSize(hs: seq<nat>, p: nat, q: nat): nat
    requires p < q < |hs| && hs[p] <= hs[q]
  {
    8 * (hs[q] - hs[p])
  }

  lemma MergedState(hs: seq<nat>, words: nat, p: nat, q: nat)
    requires Bounds(hs, words) && p < q < |hs|
    ensures hs[p] + 8 <= hs[q]
    ensures State(MergedSize(hs, p, q)) == FREE && Span(MergedSize(hs, p, q)) == hs[q] - hs[p]
  {
    assert hs[q] % 8 == 0 && hs[p] % 8 == 0;
  }

  lemma MergedTiled(m: Image, hs: seq<nat>, p: nat, q: nat)
    requires Tiled(m, hs) && FreeRun(m, hs, p, q)
    ensures hs[p] + 8 <= hs[q]
    ensures Tiled(m[hs[p] := MergedSize(hs, p, q)], Joined(hs, p, q))
    ensures State(MergedSize(hs, p, q)) == FREE
  {
    hide Exec;
    hide State;
    hide Span;
    hide MergedSize;
    MergedState(hs, |m|, p, q);
    JoinedBounds(hs, |m|, p, q);
    var gs := Joined(hs, p, q);
    var m' := m[hs[p] := MergedSize(hs, p, q)];
    forall j | 0 <= j < |gs| - 1 ensures Clump(m', gs, j) {
      if j != p { assert Clump(m, hs, if j < p then j else j + (q - p - 1)); }
    }
  }

  lemma MergedForward(m: Image, hs: seq<nat>, p: nat, q: nat, i: nat)
    requires Bounds(hs, |m|) && FreeRun(m, hs, p, q) && hs[p] <= hs[q]
    requires i < |hs| - 1 && State(m[hs[i]]) != FREE
    ensures InChain(Joined(hs, p, q), hs[i], hs[i + 1])
    ensures SameHeader(m[hs[p] := MergedSize(hs, p, q)], m, hs[i])
  {
    HeadersApart(hs, |m|, i, p);
    JoinedInChain(hs, p, q, i);
  }

  lemma MergedBackward(m: Image, hs: seq<nat>, p: nat, q: nat, j: nat)
    requires Bounds(hs, |m|) && FreeRun(m, hs, p, q) && hs[p] <= hs[q]
    requires j < |Joined(hs, p, q)| - 1 && j != p
    ensures InChain(hs, Joined(hs, p, q)[j], Joined(hs, p, q)[j + 1])
    ensures SameHeader(m[hs[p] := MergedSize(hs, p, q)], m, Joined(hs, p, q)[j])
  {
    var gs := Joined(hs, p, q);
    var i := if j < p then j else j + (q - p - 1);
    HeadersApart(hs, |m|, i, p);
    assert Link(hs, i, gs[j], gs[j + 1]);
  }

  lemma MergedRechained(m: Image, hs: seq<nat>, p: nat, q: nat)
    requires Tiled(m, hs) && NoTransit(m, hs) && FreeRun(m, hs, p, q)
    ensures var m' := m[hs[p] := MergedSize(hs, p, q)]; var gs := Joined(hs, p, q);
            Carries(m, hs, m', gs) && NothingNew(m, hs, m', gs) && Carries(m', gs, m, hs) && NoTransit(m', gs)
  {
    hide State;
    hide Bytes;
    hide Span;
    var m' := m[hs[p] := MergedSize(hs, p, q)];
    var gs := Joined(hs, p, q);
    MergedTiled(m, hs, p, q);
    JoinedBounds(hs, |m|, p, q);
    forall i | 0 <= i < |hs| - 1 && State(m[hs[i]]) != FREE
      ensures InChain(gs, hs[i], hs[i + 1]) && SameHeader(m', m, hs[i])
    {
      MergedForward(m, hs, p, q, i);
    }
    forall j | 0 <= j < |gs| - 1 && j != p
      ensures InChain(hs, gs[j], gs[j + 1]) && SameHeader(m', m, gs[j]) && !Transit(m'[gs[j]])
    {
      MergedBackward(m, hs, p, q, j);
      assert gs[j] == hs[if j < p then j else j + (q - p - 1)];
    }
    assert gs[p] == hs[p];
  }

  lemma MergedReserved(m: Image, hs: seq<nat>, p: nat, q: nat)
    requires Tiled(m, hs) && NoTransit(m, hs) && ReservedReaches(m, hs) && FreeRun(m, hs, p, q)
    ensures var m' := m[hs[p] := MergedSize(hs, p, q)]; ReservedReaches(m', Joined(hs, p, q))
  {
    var m' := m[hs[p] := MergedSize(hs, p, q)];
    var gs := Joined(hs, p, q);
    MergedTiled(m, hs, p, q);
    MergedRechained(m, hs, p, q);
    forall j | 0 <= j < |gs| - 1 && State(m'[gs[j]]) == RESERVED ensures ListReaches(m', gs, RESERVED, gs[j]) {
      assert InChain(hs, gs[j], gs[j + 1]) && SameHeader(m', m, gs[j]);
      var i: nat :| Link(hs, i, gs[j], gs[j + 1]);
      CarriesList(m, hs, m', gs, RESERVED, gs[j]);
    }
  }

  lemma MergedView(m: Image, hs: seq<nat>, p: nat, q: nat)
    requires Recoverable(m, hs) && NoTransit(m, hs) && FreeRun(m, hs, p, q)
    ensures var m' := m[hs[p] := MergedSize(hs, p, q)]; var gs := Joined(hs, p, q);
            Recoverable(m', gs) && ViewOf(m', gs) == ViewOf(m, hs) && Living(m', gs) == Living(m, hs)
  {
    var m' := m[hs[p] := MergedSize(hs, p, q)];
    MergedTiled(m, hs, p, q);
    MergedRechained(m, hs, p, q);
    forall w | 0 <= w < |m| && Visible(Living(m, hs), w) ensures m[w] == m'[w] {
      VisibleIsTarget(m, hs, w);
      TargetIsNoHeader(hs, |m|, w);
      OutsideHeader(hs, p, w);
    }
    RechainedView(m, hs, m', Joined(hs, p, q));
  }

  lemma MergedPinned(m: Image, hs: seq<nat>, p: nat, q: nat, w: nat)
    requires Recoverable(m, hs) && NoTransit(m, hs) && FreeRun(m, hs, p, q) && w < |m|
    requires hs[p] <= hs[q]
    requires var m' := m[hs[p] := MergedSize(hs, p, q)]; var gs := Joined(hs, p, q);
             Bounds(gs, |m|) && Living(m', gs) == Living(m, hs) && Pinned(m', gs, w)
    ensures Pinned(m, hs, w)
  {
    var gs := Joined(hs, p, q);
    if Header(gs, w) {
      var j :| 0 <= j < |gs| && gs[j] <= w < gs[j] + 8;
      var i := if j <= p then j else j + (q - p - 1);
      assert hs[i] == gs[j];
    }
  }

  /** Merging a run shows nothing new at any point. */
  lemma MergeRun(s: Pm, hs: seq<nat>, p: nat, q: nat) returns (r: Pm)
    requires Quiet(s, hs) && FreeRun(s.mem, hs, p, q)
    ensures hs[p] <= hs[q]
    ensures r == Exec(s, SetSize(hs[p], MergedSize(hs, p, q)))
    ensures r.mem == s.mem[hs[p] := MergedSize(hs, p, q)]
    ensures Quiet(r, Joined(hs, p, q)) && ViewOf(r.mem, Joined(hs, p, q)) == ViewOf(s.mem, hs)
    ensures Guarded(s, SetSize(hs[p], MergedSize(hs, p, q)), Showing({ViewOf(s.mem, hs)}))
    ensures forall w :: 0 <= w < |s.mem| && Clean(s, w) ==> Clean(r, w)
  {
    var m, gs, h := s.mem, Joined(hs, p, q), hs[p];
    MergedTiled(m, hs, p, q);
    MergedRechained(m, hs, p, q);
    MergedReserved(m, hs, p, q);
    MergedView(m, hs, p, q);
    var v := MergedSize(hs, p, q);
    r := Exec(s, SetSize(h, v));
    SetSizeEffect(s, h, v);
    forall w | 0 <= w < |m| && Pinned(r.mem, gs, w) ensures Clean(s, w) { MergedPinned(m, hs, p, q, w); }
    assert Quiet(r, gs);
    MergeGuard(s, hs, p, q);
  }

  lemma MergeGuard(s: Pm, hs: seq<nat>, p: nat, q: nat)
    requires Quiet(s, hs) && FreeRun(s.mem, hs, p, q)
    requires hs[p] <= hs[q]
    requires var m' := s.mem[hs[p] := MergedSize(hs, p, q)]; var gs := Joined(hs, p, q);
             Recoverable(m', gs) && NoTransit(m', gs) && ViewOf(m', gs) == ViewOf(s.mem, hs) &&
             forall w :: 0 <= w < |m'| && Pinned(m', gs, w) ==> Clean(s, w)
    ensures Guarded(s, SetSize(hs[p], MergedSize(hs, p, q)), Showing({ViewOf(s.mem, hs)}))
  {
    var v := MergedSize(hs, p, q);
    var m' := s.mem[hs[p] := v];
    var gs := Joined(hs, p, q);
    QuietSteady(s, hs, 0);
    forall w | 0 <= w < |m'| && w != hs[p] && Relevant(m', gs, 0, w) ensures Clean(s, w) {
      RelevantIsPinned(m', gs, 0, w);
    }
    assert Steady(Pin(s, hs[p], v), m', gs, 0);
    HeaderCovered(hs[p], hs[p]);
    Flip(s, hs[p], v, 8 * hs[p], 64, s.mem, hs, 0, m', gs, 0);
    assert {ViewOf(s.mem, hs), ViewOf(m', gs)} == {ViewOf(s.mem, hs)};
  }

  // ---------------------------------------------------------------------------------------
  // The whole pass
  // ---------------------------------------------------------------------------------------

  /** The first clump at or after i that is not free, or the terminator. */
  ghost function RunEnd(m: Image, hs: seq<nat>, i: nat): (q: nat)
    requires Bounds(hs, |m|) && i < |hs|
    ensures i <= q < |hs|
    ensures forall j :: i <= j < q ==> State(m[hs[j]]) == FREE
    ensures q < |hs| - 1 ==> State(m[hs[q]]) != FREE
    decreases |hs| - i
  {
    if i == |hs| - 1 || State(m[hs[i]]) != FREE then i else RunEnd(m, hs, i + 1)
  }

  /** The stores of the pass from clump p on. */
  ghost function CoalesceFrom(m: Image, hs: seq<nat>, p: nat): seq<Instr>
    requires Bounds(hs, |m|) && p < |hs|
    decreases |hs| - p
  {
    if p == |hs| - 1 then []
    else if State(m[hs[p]]) != FREE then CoalesceFrom(m, hs, p + 1)
    else
      var q := RunEnd(m, hs, p + 1);
      if q == p + 1 then CoalesceFrom(m, hs, p + 1)
      else
        JoinedBounds(hs, |m|, p, q);
        SetSize(hs[p], MergedSize(hs, p, q)) +
        CoalesceFrom(m[hs[p] := MergedSize(hs, p, q)], Joined(hs, p, q), p + 1)
  }

  /** The chain the pass leaves. */
  ghost function CoalescedFrom(m: Image, hs: seq<nat>, p: nat): (gs: seq<nat>)
    requires Bounds(hs, |m|) && p < |hs|
    ensures Bounds(gs, |m|)
    decreases |hs| - p
  {
    if p == |hs| - 1 then hs
    else if State(m[hs[p]]) != FREE then CoalescedFrom(m, hs, p + 1)
    else
      var q := RunEnd(m, hs, p + 1);
      if q == p + 1 then CoalescedFrom(m, hs, p + 1)
      else
        JoinedBounds(hs, |m|, p, q);
        CoalescedFrom(m[hs[p] := MergedSize(hs, p, q)], Joined(hs, p, q), p + 1)
  }

  /** No two neighbours before clump p are both free. */
  ghost predicate Coalesced(m: Image, hs: seq<nat>, p: nat)
    requires Bounds(hs, |m|)
  {
    forall i :: 0 <= i < p && i + 1 < |hs| - 1 ==> !(State(m[hs[i]]) == FREE && State(m[hs[i + 1]]) == FREE)
  }

  /** A word of a free clump, header included. */
  ghost predicate FreeWord(m: Image, hs: seq<nat>, w: nat)
    requires Bounds(hs, |m|)
  {
    exists i :: 0 <= i < |hs| - 1 && hs[i] <= w < hs[i + 1] && State(m[hs[i]]) == FREE
  }

  /** What a pass keeps: every clump in use, and every free byte. */
  ghost predicate SameUse(a: Image, hs: seq<nat>, b: Image, gs: seq<nat>) {
    && Carries(a, hs, b, gs) && Carries(b, gs, a, hs)
    && forall w :: 0 <= w < |a| ==> (FreeWord(a, hs, w) <==> FreeWord(b, gs, w))
  }

  lemma SameUseTrans(a: Image, hs: seq<nat>, b: Image, gs: seq<nat>, c: Image, fs: seq<nat>)
    requires SameUse(a, hs, b, gs) && SameUse(b, gs, c, fs)
    ensures SameUse(a, hs, c, fs)
  {
    CarriesTrans(a, hs, b, gs, c, fs);
    CarriesTrans(c, fs, b, gs, a, hs);
  }

  lemma CarriesTrans(a: Image, hs: seq<nat>, b: Image, gs: seq<nat>, c: Image, fs: seq<nat>)
    requires Carries(a, hs, b, gs) && Carries(b, gs, c, fs)
    ensures Carries(a, hs, c, fs)
  {
    forall i | 0 <= i < |hs| - 1 && State(a[hs[i]]) != FREE
      ensures InChain(fs, hs[i], hs[i + 1]) && SameHeader(c, a, hs[i])
    {
      assert InChain(gs, hs[i], hs[i + 1]) && SameHeader(b, a, hs[i]);
      var j: nat :| Link(gs, j, hs[i], hs[i + 1]);
      assert InChain(fs, gs[j], gs[j + 1]) && SameHeader(c, b, gs[j]);
    }
  }

  lemma MergedFreeForward(m: Image, hs: seq<nat>, p: nat, q: nat, w: nat)
    requires Bounds(hs, |m|) && FreeRun(m, hs, p, q) && hs[p] <= hs[q]
    requires Bounds(Joined(hs, p, q), |m|) && FreeWord(m, hs, w)
    ensures FreeWord(m[hs[p] := MergedSize(hs, p, q)], Joined(hs, p, q), w)
  {
    hide State;
    var m' := m[hs[p] := MergedSize(hs, p, q)];
    var gs := Joined(hs, p, q);
    MergedState(hs, |m|, p, q);
    var i :| 0 <= i < |hs| - 1 && hs[i] <= w < hs[i + 1] && State(m[hs[i]]) == FREE;
    if i < p || q <= i {
      MergedBackwardIndex(hs, |m|, p, q, i);
      var j := if i < p then i else i - (q - p - 1);
      assert gs[j] == hs[i] && gs[j + 1] == hs[i + 1] && m'[gs[j]] == m[hs[i]];
    } else {
      InsideRun(hs, |m|, p, q, i, w);
      assert m'[gs[p]] == MergedSize(hs, p, q);
    }
  }

  lemma InsideRun(hs: seq<nat>, words: nat, p: nat, q: nat, i: nat, w: nat)
    requires Bounds(hs, words) && p <= i < q < |hs| && hs[i] <= w < hs[i + 1]
    ensures Joined(hs, p, q)[p] <= w < Joined(hs, p, q)[p + 1]
  {
    if p < i { assert hs[p] + 8 <= hs[i]; }
    if i + 1 < q { assert hs[i + 1] + 8 <= hs[q]; }
  }

  lemma MergedBackwardIndex(hs: seq<nat>, words: nat, p: nat, q: nat, i: nat)
    requires Bounds(hs, words) && p < q < |hs| && i < |hs| - 1 && (i < p || q <= i)
    ensures var j := if i < p then i else i - (q - p - 1);
            Joined(hs, p, q)[j] == hs[i] && Joined(hs, p, q)[j + 1] == hs[i + 1] && hs[i] != hs[p]
  {
    HeadersApart(hs, words, i, p);
  }

  lemma MergedFreeBackward(m: Image, hs: seq<nat>, p: nat, q: nat, w: nat)
    requires Tiled(m, hs) && FreeRun(m, hs, p, q) && hs[p] <= hs[q]
    requires Bounds(Joined(hs, p, q), |m|) && FreeWord(m[hs[p] := MergedSize(hs, p, q)], Joined(hs, p, q), w)
    ensures FreeWord(m, hs, w)
  {
    hide State;
    hide Bytes;
    hide Span;
    var m' := m[hs[p] := MergedSize(hs, p, q)];
    var gs := Joined(hs, p, q);
    var j :| 0 <= j < |gs| - 1 && gs[j] <= w < gs[j + 1] && State(m'[gs[j]]) == FREE;
    if j == p {
      InRun(hs, |m|, p, q, w);
    } else {
      var i := if j < p then j else j + (q - p - 1);
      HeadersApart(hs, |m|, i, p);
      assert hs[i] <= w < hs[i + 1];
    }
  }

  lemma {:induction false} InRun(hs: seq<nat>, words: nat, p: nat, q: nat, w: nat)
    requires Bounds(hs, words) && p < q < |hs| && hs[p] <= w < hs[q]
    ensures exists i :: p <= i < q && hs[i] <= w < hs[i + 1]
    decreases q - p
  {
    if p + 1 < q && hs[p + 1] <= w {
      InRun(hs, words, p + 1, q, w);
    } else {
      assert hs[p] <= w < hs[p + 1];
    }
  }

  lemma MergedSameUse(m: Image, hs: seq<nat>, p: nat, q: nat)
    requires Tiled(m, hs) && NoTransit(m, hs) && FreeRun(m, hs, p, q) && hs[p] <= hs[q]
    ensures SameUse(m, hs, m[hs[p] := MergedSize(hs, p, q)], Joined(hs, p, q))
  {
    MergedRechained(m, hs, p, q);
    forall w: nat | w < |m|
      ensures FreeWord(m, hs, w) <==> FreeWord(m[hs[p] := MergedSize(hs, p, q)], Joined(hs, p, q), w)
    {
      JoinedBounds(hs, |m|, p, q);
      if FreeWord(m, hs, w) { MergedFreeForward(m, hs, p, q, w); }
      if FreeWord(m[hs[p] := MergedSize(hs, p, q)], Joined(hs, p, q), w) { MergedFreeBackward(m, hs, p, q, w); }
    }
  }

  lemma MergedCoalesced(m: Image, hs: seq<nat>, p: nat, q: nat)
    requires Tiled(m, hs) && Coalesced(m, hs, p) && FreeRun(m, hs, p, q) && hs[p] <= hs[q]
    requires q < |hs| - 1 ==> State(m[hs[q]]) != FREE
    requires Bounds(Joined(hs, p, q), |m|)
    ensures Coalesced(m[hs[p] := MergedSize(hs, p, q)], Joined(hs, p, q), p + 1)
  {
    var m' := m[hs[p] := MergedSize(hs, p, q)];
    var gs := Joined(hs, p, q);
    JoinedBounds(hs, |m|, p, q);
    forall i | 0 <= i < p + 1 && i + 1 < |gs| - 1
      ensures !(State(m'[gs[i]]) == FREE && State(m'[gs[i + 1]]) == FREE)
    {
      if i == p {
        HeadersApart(hs, |m|, q, p);
        assert gs[i + 1] == hs[q];
      } else {
        HeadersApart(hs, |m|, i, p);
        assert State(m[hs[p]]) == FREE;
        assert !(State(m[hs[i]]) == FREE && State(m[hs[i + 1]]) == FREE);
      }
    }
  }

  /** A pass over the pool: a crash at any point shows the same view, no two neighbours are free
      afterwards, and neither a clump in use nor a free byte is lost. */
  lemma {:induction false} CoalescePass(s: Pm, hs: seq<nat>, p: nat) returns (r: Pm)
    requires Quiet(s, hs) && p < |hs| && Coalesced(s.mem, hs, p)
    ensures r == Exec(s, CoalesceFrom(s.mem, hs, p))
    ensures Quiet(r, CoalescedFrom(s.mem, hs, p))
    ensures ViewOf(r.mem, CoalescedFrom(s.mem, hs, p)) == ViewOf(s.mem, hs)
    ensures Guarded(s, CoalesceFrom(s.mem, hs, p), Showing({ViewOf(s.mem, hs)}))
    ensures Coalesced(r.mem, CoalescedFrom(s.mem, hs, p), |CoalescedFrom(s.mem, hs, p)|)
    ensures SameUse(s.mem, hs, r.mem, CoalescedFrom(s.mem, hs, p))
    decreases |hs| - p
  {
    hide ViewOf;
    hide State;
    hide Bytes;
    hide Span;
    QuietSafe(s, hs);
    if p == |hs| - 1 {
      r := s;
      SameUseRefl(s.mem, hs);
    } else if State(s.mem[hs[p]]) != FREE {
      r := CoalescePass(s, hs, p + 1);
    } else {
      var q := RunEnd(s.mem, hs, p + 1);
      if q == p + 1 {
        r := CoalescePass(s, hs, p + 1);
      } else {
        hide PersistentMemory.Exec;
        JoinedBounds(hs, |s.mem|, p, q);
        var a := MergeRun(s, hs, p, q);
        MergedCoalesced(s.mem, hs, p, q);
        MergedSameUse(s.mem, hs, p, q);
        r := CoalescePass(a, Joined(hs, p, q), p + 1);
        var first := SetSize(hs[p], MergedSize(hs, p, q));
        var rest := CoalesceFrom(a.mem, Joined(hs, p, q), p + 1);
        InSequence(s, first, a, rest, r, Showing({ViewOf(s.mem, hs)}));
        SameUseTrans(s.mem, hs, a.mem, Joined(hs, p, q), r.mem, CoalescedFrom(s.mem, hs, p));
      }
    }
  }

  lemma SameUseRefl(m: Image, hs: seq<nat>)
    requires Bounds(hs, |m|)
    ensures SameUse(m, hs, m, hs)
  {
    forall i | 0 <= i < |hs| - 1 ensures InChain(hs, hs[i], hs[i + 1]) { assert Link(hs, i, hs[i], hs[i + 1]); }
  }

  /** A second pass does nothing. */
  lemma {:induction false} CoalesceIdempotent(m: Image, hs: seq<nat>, p: nat)
    requires Bounds(hs, |m|) && p < |hs| && Coalesced(m, hs, |hs|)
    ensures CoalesceFrom(m, hs, p) == [] && CoalescedFrom(m, hs, p) == hs
    decreases |hs| - p
  {
    if p < |hs| - 1 { CoalesceIdempotent(m, hs, p + 1); }
  }
}
