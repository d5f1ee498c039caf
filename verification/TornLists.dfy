/** Exactly when an activation is all or nothing.

    The offsets of a finished list are cleared by three stores and made durable together, so a
    crash can keep any of them; recovery then replays the entries up to the first cleared one.
    That is harmless only if entries with the same destination store the same value. */
module TornLists {
  import opened PersistentMemory
  import opened PoolImage
  import opened RecoveryFacts
  import opened CrashSafety
  import opened Finishing
  import opened Activation

  /** The allocations once clump k is active. */
  ghost function LivingWith(m: Image, hs: seq<nat>, k: nat): map<nat, nat>
    requires Bounds(hs, |m|) && k < |hs| - 1
  {
    Living(m, hs)[hs[k] := Span(m[hs[k]])]
  }

  /** Every executed entry names a word that the restarted program can see: in the static area, in
      an active clump, or in the new one. */
  ghost predicate NamesVisible(m: Image, hs: seq<nat>, k: nat)
    requires Bounds(hs, |m|) && k < |hs| - 1
  {
    var h := hs[k];
    && (ListLen(m, h) > 0 ==> Visible(LivingWith(m, hs, k), m[h + 2] / 8))
    && (ListLen(m, h) > 1 ==> Visible(LivingWith(m, hs, k), m[h + 4] / 8))
    && (ListLen(m, h) > 2 ==> Visible(LivingWith(m, hs, k), m[h + 6] / 8))
  }

  /** What recovery makes of `img` lacks the clump at h, or has every word visible to `live` as
      `done` has it. */
  ghost predicate DropsOrKeeps(img: Image, done: Image, h: nat, live: map<nat, nat>) {
    && Bounds(Chain(img), |img|)
    && var v := ViewOf(img, Chain(img));
       h !in v.live || forall w: nat :: w < |done| && Visible(live, w) ==> w in v.words && v.words[w] == done[w]
  }

  /** After a crash anywhere in the program and a recovery, clump k is gone or all is done. */
  ghost predicate AllOrNothing(s: Pm, prog: seq<Instr>, hs: seq<nat>, k: nat)
    requires Bounds(hs, |s.mem|) && k < |hs| - 1
  {
    forall n: nat, img: Image :: n <= |prog| && Survives(Exec(s, prog[..n]).may, img) ==>
      DropsOrKeeps(img, Exec(s, prog).mem, hs[k], LivingWith(s.mem, hs, k))
  }

  lemma ShownWhole(m: Image, r: Pm, img: Image, hs: seq<nat>, k: nat)
    requires Recoverable(m, hs) && NoTransit(m, hs) && Quiet(r, hs) && k < |hs| - 1 && |r.mem| == |m|
    requires State(m[hs[k]]) == RESERVED
    requires Shows(img, {ViewOf(m, hs), ViewOf(r.mem, hs)})
    requires ViewAfter(ViewOf(r.mem, hs), m, hs, k)
    ensures DropsOrKeeps(img, r.mem, hs[k], LivingWith(m, hs, k))
  {
    ViewWords(m, hs, k);
    ViewWords(r.mem, hs, k);
    assert hs[k] !in Living(m, hs);
  }

  /** One direction: a consistent list. */
  lemma ConsistentIsWhole(s: Pm, hs: seq<nat>, k: nat)
    requires Quiet(s, hs) && CanCommit(s.mem, hs, k) && State(s.mem[hs[k]]) == RESERVED
    ensures s.mem[hs[k]] >= 64 && AllOrNothing(s, ActivateSteps(s.mem, hs[k]), hs, k)
  {
    var r := ActivateAtomic(s, hs, k);
    var prog := ActivateSteps(s.mem, hs[k]);
    forall n: nat, img: Image | n <= |prog| && Survives(Exec(s, prog[..n]).may, img)
      ensures DropsOrKeeps(img, r.mem, hs[k], LivingWith(s.mem, hs, k))
    {
      GuardedEverywhere(s, prog, Showing({ViewOf(s.mem, hs), ViewOf(r.mem, hs)}), n, img);
      ShownWhole(s.mem, r, img, hs, k);
    }
  }

  // ---------------------------------------------------------------------------------------
  // The other direction: an inconsistent list
  // ---------------------------------------------------------------------------------------

  /** The image with only the first p entries of the list left, p being 1 or 2. */
  function Truncated(m: Image, h: nat, p: nat): Image
    requires h + 8 <= |m|
  {
    if p == 1 then m[h + 6 := 0][h + 4 := 0] else m[h + 6 := 0]
  }

  /** Two entries that disagree leave a prefix of the list that stores something else. */
  lemma PrefixTears(m: Image, h: nat) returns (p: nat, d: nat)
    requires h + 8 <= |m| && !Consistent(m, h)
    requires forall i :: 0 <= i < 3 && i < ListLen(m, h) ==> m[h + 2 + 2 * i] / 8 < |m|
    ensures 1 <= p <= 2 && p < ListLen(m, h) && d < |m| && Dest(m, h, d)
    ensures forall a: Image :: |a| == |m| && SameHeader(a, m, h) ==>
              ReplayAt(Truncated(a, h, p), h, d) != ReplayAt(m, h, d)
  {
    assert m[h + 2 + 2 * 0] / 8 < |m|;
    assert ListLen(m, h) > 1 ==> m[h + 2 + 2 * 1] / 8 < |m|;
    var e0, e1, e2 := m[h + 2] / 8, m[h + 4] / 8, m[h + 6] / 8;
    if m[h + 2] == m[h + 4] && m[h + 3] != m[h + 5] {
      d := e0;
      p := if ReplayAt(m, h, d) != m[h + 3] then 1 else 2;
    } else if ListLen(m, h) > 2 && m[h + 2] == m[h + 6] && m[h + 3] != m[h + 7] {
      p, d := 1, e0;
    } else {
      p, d := 2, e1;
    }
  }

  /** The state after the list has run and its offsets have been cleared but not persisted. */
  lemma ClearedUnflushed(b: Pm, h: nat, p: nat)
    requires Sane(b) && h + 8 <= |b.mem| && (p == 1 || p == 2)
    ensures Survives(Exec(b, ClearList(h)[..3]).may, Truncated(b.mem, h, p))
  {
    hide PersistentMemory.Exec;
    hide Step;
    var p0, p1, p2 := Store(h + 6, 0), Store(h + 4, 0), Store(h + 2, 0);
    assert ClearList(h)[..3] == [p0, p1] + [p2];
    ExecConcat(b, [p0, p1], [p2]);
    ExecTwo(b, p0, p1);
    ExecSingle(Step(Step(b, p0), p1), p2);
    ThreeUnflushed(b, h, p, Step(b, p0), Step(Step(b, p0), p1), Step(Step(Step(b, p0), p1), p2));
  }

  lemma ThreeUnflushed(b: Pm, h: nat, p: nat, b1: Pm, b2: Pm, b3: Pm)
    requires Sane(b) && h + 8 <= |b.mem| && (p == 1 || p == 2)
    requires b1 == Step(b, Store(h + 6, 0)) && b2 == Step(b1, Store(h + 4, 0)) && b3 == Step(b2, Store(h + 2, 0))
    ensures Survives(b3.may, Truncated(b.mem, h, p))
  {
    forall w | 0 <= w < |b.mem| ensures b.mem[w] in b3.may[w] { assert b.mem[w] in b.may[w]; }
  }

  /** Where a commit stands just before that flush. */
  lemma BeforeFlush(s: Pm, hs: seq<nat>, k: nat) returns (b: Pm, n: nat)
    requires Sane(s) && Bounds(hs, |s.mem|) && k < |hs| - 1
    requires var v := CommitSize(s.mem[hs[k]]); ListOk(s.mem[hs[k] := v], hs, hs[k])
    ensures Sane(b) && b.mem == Replay(s.mem[hs[k] := CommitSize(s.mem[hs[k]])], hs[k])
    ensures n <= |Commit(s.mem, hs[k])|
    ensures Exec(s, Commit(s.mem, hs[k])[..n]) == Exec(b, ClearList(hs[k])[..3])
  {
    hide SetSize;
    var h := hs[k];
    var v := CommitSize(s.mem[h]);
    var m' := s.mem[h := v];
    var p1, p2, p3, p4 := SetSize(h, v), ReplayList(m', h), ClearList(h), SetSize(h, SettledSize(m'[h]));
    var a1 := Exec(s, p1);
    SetSizeEffect(s, h, v);
    b := Exec(a1, p2);
    ReplayEffect(a1, hs, k);
    var before := p1 + (p2 + p3[..3]);
    n := |before|;
    ExecConcat(s, p1, p2 + p3[..3]);
    ExecConcat(a1, p2, p3[..3]);
    assert Commit(s.mem, h) == p1 + (p2 + p3 + p4);
    assert Commit(s.mem, h)[..n] == before;
  }

  /** The truncated list is replayed: clump k is there, or gone, and one word is not as it should be. */
  lemma TruncatedShows(m: Image, hs: seq<nat>, k: nat, p: nat, d: nat)
    requires Recoverable(m, hs) && NoTransit(m, hs) && k < |hs| - 1
    requires State(m[hs[k]]) == RESERVED || State(m[hs[k]]) == ACTIVE
    requires ListReaches(m, hs, State(m[hs[k]]), hs[k]) && (p == 1 || p == 2) && p < ListLen(m, hs[k])
    requires d < |m| && Target(hs, d)
    ensures var img := Truncated(Replay(m[hs[k] := CommitSize(m[hs[k]])], hs[k]), hs[k], p);
            && Tiled(img, hs) && (hs[k] in ViewOf(img, hs).live <==> State(m[hs[k]]) == RESERVED)
            && (d in ViewOf(img, hs).words ==> ViewOf(img, hs).words[d] == ReplayAt(img, hs[k], d))
  {
    hide ClumpOk;
    hide Clump;
    hide ViewOf;
    hide State;
    var img := Truncated(Replay(m[hs[k] := CommitSize(m[hs[k]])], hs[k]), hs[k], p);
    ReachesIsOk(m, hs, State(m[hs[k]]), hs[k]);
    TruncatedHeaders(m, hs, k, p);
    CommitTransits(m[hs[k]]);
    TruncatedTiled(img, m, hs, k);
    TruncatedView(img, m, hs, k, d);
  }

  lemma CommitTransits(v: nat)
    requires State(v) == RESERVED || State(v) == ACTIVE
    ensures Transit(CommitSize(v)) && (State(CommitSize(v)) == ACTIVATING <==> State(v) == RESERVED)
  {
    SizeWord(Bytes(v), if State(v) == RESERVED then ACTIVATING else FREEING);
  }

  /** Only the header of clump k differs, in its state and by the missing entries. */
  lemma TruncatedHeaders(m: Image, hs: seq<nat>, k: nat, p: nat)
    requires Bounds(hs, |m|) && k < |hs| - 1 && ListOk(m, hs, hs[k]) && (p == 1 || p == 2) && p < ListLen(m, hs[k])
    ensures var img := Truncated(Replay(m[hs[k] := CommitSize(m[hs[k]])], hs[k]), hs[k], p);
            && |img| == |m| && img[hs[k]] == CommitSize(m[hs[k]]) && ListOk(img, hs, hs[k])
            && forall i :: 0 <= i < |hs| && i != k ==> SameHeader(img, m, hs[i])
  {
    hide State;
    var h := hs[k];
    var m' := m[h := CommitSize(m[h])];
    var b := Replay(m', h);
    var img := Truncated(b, h, p);
    assert ListOk(m', hs, h);
    ReplayHeader(m', hs, k);
    ReplayPoint(m', hs, k);
    hide Replay;
    forall i | 0 <= i < |hs| && i != k ensures SameHeader(img, m, hs[i]) {
      HeadersApart(hs, |m|, i, k);
      forall w | hs[i] <= w < hs[i] + 8 ensures b[w] == m'[w] {
        assert Header(hs, w);
        ReplayKeepsHeaders(m', hs, k, w);
      }
    }
  }

  lemma TruncatedTiled(img: Image, m: Image, hs: seq<nat>, k: nat)
    requires Tiled(m, hs) && k < |hs| - 1 && |img| == |m|
    requires forall i :: 0 <= i < |hs| && i != k ==> SameHeader(img, m, hs[i])
    requires img[hs[k]] == CommitSize(m[hs[k]])
    ensures Tiled(img, hs)
  {
    SizeWord(Bytes(m[hs[k]]), if State(m[hs[k]]) == RESERVED then ACTIVATING else FREEING);
    assert SameHeader(img, m, hs[|hs| - 1]);
    forall i | 0 <= i < |hs| - 1 ensures Clump(img, hs, i) {
      assert Clump(m, hs, i);
      if i != k { assert SameHeader(img, m, hs[i]); }
    }
  }

  lemma TruncatedView(img: Image, m: Image, hs: seq<nat>, k: nat, d: nat)
    requires Recoverable(m, hs) && NoTransit(m, hs) && k < |hs| - 1 && |img| == |m| && Tiled(img, hs)
    requires forall i :: 0 <= i < |hs| && i != k ==> SameHeader(img, m, hs[i])
    requires Transit(img[hs[k]]) && ListOk(img, hs, hs[k])
    requires d < |m| && Target(hs, d)
    ensures hs[k] in ViewOf(img, hs).live <==> State(img[hs[k]]) == ACTIVATING
    ensures d in ViewOf(img, hs).words ==> ViewOf(img, hs).words[d] == ReplayAt(img, hs[k], d)
  {
    hide State;
    hide Target;
    forall i | 0 <= i < |hs| - 1 ensures OwnListOk(img, hs, i) && (i != k ==> !Transit(img[hs[i]])) {
      if i != k { assert SameHeader(img, m, hs[i]); }
    }
    HeadersResolved(img, hs);
    var r := Resolve(img, hs);
    assert r[hs[k]] == SettledWord(img, hs[k], hs[k]);
    SizeWord(Bytes(img[hs[k]]), Settled(State(img[hs[k]])));
    WordAfter(img, hs, |hs| - 1, k, d);
  }

  /** Activation is all or nothing exactly if the list is consistent. */
  lemma WholeIffConsistent(s: Pm, hs: seq<nat>, k: nat)
    requires Quiet(s, hs) && k < |hs| - 1 && State(s.mem[hs[k]]) == RESERVED && NamesVisible(s.mem, hs, k)
    ensures s.mem[hs[k]] >= 64
    ensures AllOrNothing(s, ActivateSteps(s.mem, hs[k]), hs, k) <==> Consistent(s.mem, hs[k])
  {
    ClumpSize(s.mem, hs, k);
    if Consistent(s.mem, hs[k]) {
      ConsistentIsWhole(s, hs, k);
    } else {
      InconsistentTears(s, hs, k);
    }
  }

  /** A crash in the commit of an inconsistent list leaves one destination that no complete run of
      the list leaves. */
  lemma CommitTears(s: Pm, hs: seq<nat>, k: nat) returns (n: nat, img: Image, d: nat)
    requires Quiet(s, hs) && k < |hs| - 1 && !Consistent(s.mem, hs[k])
    requires State(s.mem[hs[k]]) == RESERVED || State(s.mem[hs[k]]) == ACTIVE
    ensures n <= |Commit(s.mem, hs[k])| && Survives(Exec(s, Commit(s.mem, hs[k])[..n]).may, img)
    ensures Tiled(img, hs) && Chain(img) == hs && (hs[k] in ViewOf(img, hs).live <==> State(s.mem[hs[k]]) == RESERVED)
    ensures d < |s.mem| && Dest(s.mem, hs[k], d)
    ensures d in ViewOf(img, hs).words ==> ViewOf(img, hs).words[d] != Exec(s, Commit(s.mem, hs[k])).mem[d]
  {
    hide PersistentMemory.Exec;
    hide Commit;
    hide ClumpOk;
    hide Clump;
    hide ViewOf;
    var m, h := s.mem, hs[k];
    var m' := m[h := CommitSize(m[h])];
    OwnReaches(m, hs, k);
    ListTargets(m, hs, k);
    var p;
    p, d := PrefixTears(m, h);
    var b;
    b, n := BeforeFlush(s, hs, k);
    img := Truncated(b.mem, h, p);
    ClearedUnflushed(b, h, p);
    DestTarget(m, hs, k, d);
    TruncatedShows(m, hs, k, p, d);
    ChainUnique(img, hs);
    FinalWord(s, hs, k, d);
    ReplayHeader(m', hs, k);
    DestOutside(m, hs, k, d);
    TornWord(m, b.mem, h, p, d);
  }

  lemma OwnReaches(m: Image, hs: seq<nat>, k: nat)
    requires Recoverable(m, hs) && ReservedReaches(m, hs) && k < |hs| - 1
    requires State(m[hs[k]]) == RESERVED || State(m[hs[k]]) == ACTIVE
    ensures ListReaches(m, hs, State(m[hs[k]]), hs[k]) && ListOk(m, hs, hs[k])
    ensures ListOk(m[hs[k] := CommitSize(m[hs[k]])], hs, hs[k])
  {
    assert ClumpOk(m, hs, k);
    ReachesIsOk(m, hs, State(m[hs[k]]), hs[k]);
  }

  lemma DestTarget(m: Image, hs: seq<nat>, k: nat, d: nat)
    requires Bounds(hs, |m|) && k < |hs| - 1 && ListOk(m, hs, hs[k]) && Dest(m, hs[k], d)
    ensures Target(hs, d)
  {
  }

  lemma InconsistentTears(s: Pm, hs: seq<nat>, k: nat)
    requires Quiet(s, hs) && k < |hs| - 1 && State(s.mem[hs[k]]) == RESERVED && NamesVisible(s.mem, hs, k)
    requires s.mem[hs[k]] >= 64 && !Consistent(s.mem, hs[k])
    ensures !AllOrNothing(s, ActivateSteps(s.mem, hs[k]), hs, k)
  {
    hide Guarded;
    hide State;
    hide PersistentMemory.Exec;
    hide Commit;
    hide ViewOf;
    var m, h := s.mem, hs[k];
    var flush := [Persist(8 * (h + 8), m[h] - 64)];
    var a := Exec(s, flush);
    FlushQuiet(s, hs, 8 * (h + 8), m[h] - 64);
    var n, img, d := CommitTears(a, hs, k);
    var prog := ActivateSteps(m, h);
    ExecConcat(s, flush, Commit(m, h)[..n]);
    ExecConcat(s, flush, Commit(m, h));
    assert prog[..n + 1] == flush + Commit(m, h)[..n];
    DestVisible(m, hs, k, d);
    assert Exec(s, prog[..n + 1]) == Exec(a, Commit(m, h)[..n]);
    assert !DropsOrKeeps(img, Exec(s, prog).mem, h, LivingWith(m, hs, k));
  }

  lemma DestVisible(m: Image, hs: seq<nat>, k: nat, d: nat)
    requires Bounds(hs, |m|) && k < |hs| - 1 && NamesVisible(m, hs, k) && Dest(m, hs[k], d)
    ensures Visible(LivingWith(m, hs, k), d)
  {
  }

  lemma ListTargets(m: Image, hs: seq<nat>, k: nat)
    requires Bounds(hs, |m|) && k < |hs| - 1 && ListOk(m, hs, hs[k])
    ensures forall i :: 0 <= i < 3 && i < ListLen(m, hs[k]) ==> m[hs[k] + 2 + 2 * i] / 8 < |m|
  {
    if ListLen(m, hs[k]) > 0 { TargetIsNoHeader(hs, |m|, m[hs[k] + 2] / 8); }
    if ListLen(m, hs[k]) > 1 { TargetIsNoHeader(hs, |m|, m[hs[k] + 4] / 8); }
    if ListLen(m, hs[k]) > 2 { TargetIsNoHeader(hs, |m|, m[hs[k] + 6] / 8); }
  }

  lemma TornWord(m: Image, b: Image, h: nat, p: nat, d: nat)
    requires |b| == |m| && h + 8 <= |m| && d < |m| && (p == 1 || p == 2)
    requires SameHeader(b, m[h := CommitSize(m[h])], h)
    requires forall a: Image :: |a| == |m| && SameHeader(a, m, h) ==>
               ReplayAt(Truncated(a, h, p), h, d) != ReplayAt(m, h, d)
    requires p < ListLen(m, h) && Dest(m, h, d) && !(h <= d < h + 8)
    ensures ReplayAt(Truncated(b, h, p), h, d) != ReplayAt(m, h, d)
  {
    var a := b[h := m[h]];
    assert SameHeader(a, m, h);
    assert ReplayAt(Truncated(a, h, p), h, d) != ReplayAt(m, h, d);
  }

  /** What the completed commit leaves in word d, whatever the list says. */
  lemma FinalWord(s: Pm, hs: seq<nat>, k: nat, d: nat)
    requires Sane(s) && Bounds(hs, |s.mem|) && k < |hs| - 1
    requires State(s.mem[hs[k]]) == RESERVED || State(s.mem[hs[k]]) == ACTIVE
    requires ListOk(s.mem, hs, hs[k]) && d < |s.mem| && Dest(s.mem, hs[k], d)
    ensures Exec(s, Commit(s.mem, hs[k])).mem[d] == ReplayAt(s.mem, hs[k], d)
  {
    hide PersistentMemory.Exec;
    hide Finish;
    hide ResolveClump;
    hide SetSize;
    var m, h := s.mem, hs[k];
    var m' := m[h := CommitSize(m[h])];
    SizeWord(Bytes(m[h]), if State(m[h]) == RESERVED then ACTIVATING else FREEING);
    assert ListOk(m', hs, h);
    SetSizeEffect(s, h, CommitSize(m[h]));
    FinishEffect(Exec(s, SetSize(h, CommitSize(m[h]))), hs, k);
    ExecConcat(s, SetSize(h, CommitSize(m[h])), Finish(m', h));
    ResolveClumpPoint(m', hs, k);
    DestOutside(m, hs, k, d);
  }

  lemma DestOutside(m: Image, hs: seq<nat>, k: nat, d: nat)
    requires Bounds(hs, |m|) && k < |hs| - 1 && ListOk(m, hs, hs[k]) && Dest(m, hs[k], d)
    ensures !(hs[k] <= d < hs[k] + 8)
  {
    assert Target(hs, d);
    TargetIsNoHeader(hs, |m|, d);
    OutsideHeader(hs, k, d);
  }

  // ---------------------------------------------------------------------------------------
  // Freeing
  // ---------------------------------------------------------------------------------------

  /** The allocations once clump k is free. */
  ghost function LivingWithout(m: Image, hs: seq<nat>, k: nat): map<nat, nat>
    requires Bounds(hs, |m|) && k < |hs| - 1
  {
    Living(m, hs) - {hs[k]}
  }

  /** After a crash anywhere in the program and a recovery, clump k is still there, or every word that
      can be seen without it is as it is when all is done. */
  ghost predicate FreesWhole(s: Pm, prog: seq<Instr>, hs: seq<nat>, k: nat)
    requires Bounds(hs, |s.mem|) && k < |hs| - 1
  {
    forall n: nat, img: Image :: n <= |prog| && Survives(Exec(s, prog[..n]).may, img) ==>
      StaysOrDoes(img, Exec(s, prog).mem, hs[k], LivingWithout(s.mem, hs, k))
  }

  ghost predicate StaysOrDoes(img: Image, done: Image, h: nat, live: map<nat, nat>) {
    && Bounds(Chain(img), |img|)
    && var v := ViewOf(img, Chain(img));
       h in v.live || forall w: nat :: w < |done| && Visible(live, w) ==> w in v.words && v.words[w] == done[w]
  }

  /** Every executed entry names a word that can be seen without clump k. */
  ghost predicate NamesElsewhere(m: Image, hs: seq<nat>, k: nat)
    requires Bounds(hs, |m|) && k < |hs| - 1
  {
    forall d: nat :: d < |m| && Dest(m, hs[k], d) ==> Visible(LivingWithout(m, hs, k), d)
  }

  lemma ConsistentFreesWhole(s: Pm, hs: seq<nat>, k: nat)
    requires Quiet(s, hs) && CanCommit(s.mem, hs, k) && State(s.mem[hs[k]]) == ACTIVE
    ensures FreesWhole(s, Commit(s.mem, hs[k]), hs, k)
  {
    hide PersistentMemory.Exec;
    hide Commit;
    hide ViewOf;
    hide ClumpOk;
    hide Clump;
    hide Committed;
    var prog := Commit(s.mem, hs[k]);
    var r := Exec(s, prog);
    CommitWhole(s, hs, k);
    forall n: nat, img: Image | n <= |prog| && Survives(Exec(s, prog[..n]).may, img)
      ensures StaysOrDoes(img, r.mem, hs[k], LivingWithout(s.mem, hs, k))
    {
      GuardedEverywhere(s, prog, Showing({ViewOf(s.mem, hs), ViewOf(r.mem, hs)}), n, img);
      FreedShown(s.mem, r, img, hs, k);
    }
  }

  lemma FreedShown(m: Image, r: Pm, img: Image, hs: seq<nat>, k: nat)
    requires Recoverable(m, hs) && NoTransit(m, hs) && Quiet(r, hs) && k < |hs| - 1 && |r.mem| == |m|
    requires State(m[hs[k]]) == ACTIVE
    requires Shows(img, {ViewOf(m, hs), ViewOf(r.mem, hs)})
    requires ViewAfter(ViewOf(r.mem, hs), m, hs, k)
    ensures StaysOrDoes(img, r.mem, hs[k], LivingWithout(m, hs, k))
  {
    hide ClumpOk;
    hide Clump;
    ViewWords(m, hs, k);
    ViewWords(r.mem, hs, k);
    assert hs[k] in Living(m, hs);
  }

  /** Freeing an active clump, up to the merging pass, is all or nothing exactly if its list is
      consistent. */
  lemma FreeWholeIffConsistent(s: Pm, hs: seq<nat>, k: nat)
    requires Quiet(s, hs) && k < |hs| - 1 && State(s.mem[hs[k]]) == ACTIVE
    requires Unnamed(s.mem, hs, k) && NamesElsewhere(s.mem, hs, k)
    ensures FreesWhole(s, Commit(s.mem, hs[k]), hs, k) <==> Consistent(s.mem, hs[k])
  {
    hide PersistentMemory.Exec;
    hide Commit;
    hide ViewOf;
    if Consistent(s.mem, hs[k]) {
      ConsistentFreesWhole(s, hs, k);
    } else {
      var n, img, d := CommitTears(s, hs, k);
      assert !StaysOrDoes(img, Exec(s, Commit(s.mem, hs[k])).mem, hs[k], LivingWithout(s.mem, hs, k));
    }
  }
}
