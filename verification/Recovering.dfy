/** The recovery pass (pmemalloc_recover): restartable, and exact to the last word. */
module Recovering {
  import opened PersistentMemory
  import opened PoolImage
  import opened RecoveryFacts
  import opened CrashSafety
  import opened Finishing
  import opened Activation

  /** The images from which a whole pass makes the image `out`. */
  ghost function LeadingTo(out: Image): iset<Image> {
    iset img: Image | Recoverable(img, Chain(img)) && Resolve(img, Chain(img)) == out
  }

  function RecoverClump(m: Image, h: nat): seq<Instr>
    requires h + 8 <= |m|
  {
    if Transit(m[h]) then Finish(m, h)
    else if State(m[h]) == RESERVED then ClearList(h) + SetSize(h, SettledSize(m[h]))
    else []
  }

  /** The stores of the pass from clump k on. */
  ghost function RecoverFrom(m: Image, hs: seq<nat>, k: nat): seq<Instr>
    requires Bounds(hs, |m|) && k < |hs|
    decreases |hs| - k
  {
    if k == |hs| - 1 then [] else RecoverClump(m, hs[k]) + RecoverFrom(ResolveClump(m, hs[k]), hs, k + 1)
  }

  /** A crash leaves exactly what the program reads. */
  ghost predicate AllClean(s: Pm) {
    Sane(s) && forall w :: 0 <= w < |s.mem| ==> Clean(s, w)
  }

  /** The first k clumps are FREE or ACTIVE. */
  ghost predicate SettledBefore(m: Image, hs: seq<nat>, k: nat)
    requires Bounds(hs, |m|) && k < |hs|
  {
    forall i :: 0 <= i < k ==> !Pending(m[hs[i]])
  }

  lemma {:induction false} PrefixIdle(m: Image, hs: seq<nat>, k: nat)
    requires Bounds(hs, |m|) && k < |hs| && SettledBefore(m, hs, k)
    ensures ResolveUpTo(m, hs, k) == m
  {
    if k > 0 { PrefixIdle(m, hs, k - 1); }
  }

  lemma {:induction false} SuffixSame(a: Image, b: Image, hs: seq<nat>, k: nat, n: nat)
    requires |a| == |b| && Bounds(hs, |a|) && k <= n < |hs|
    requires ResolveUpTo(a, hs, k) == ResolveUpTo(b, hs, k)
    ensures ResolveUpTo(a, hs, n) == ResolveUpTo(b, hs, n)
    decreases n
  {
    if k < n { SuffixSame(a, b, hs, k, n - 1); }
  }

  /** Two images with settled prefixes and the same outcome for clump k have the same outcome. */
  lemma ClumpDecides(a: Image, m: Image, hs: seq<nat>, k: nat)
    requires |a| == |m| && Bounds(hs, |m|) && k < |hs| - 1
    requires SettledBefore(m, hs, k) && SettledBefore(a, hs, k)
    requires ResolveClump(a, hs[k]) == ResolveClump(m, hs[k])
    ensures Resolve(a, hs) == Resolve(m, hs)
  {
    PrefixIdle(a, hs, k);
    PrefixIdle(m, hs, k);
    SuffixSame(a, m, hs, k + 1, |hs| - 1);
  }

  // ---------------------------------------------------------------------------------------
  // What a crash inside one round can leave
  // ---------------------------------------------------------------------------------------

  /** Some destinations stored. */
  ghost predicate Replaying(img: Image, m: Image, h: nat)
    requires h + 8 <= |m|
  {
    |img| == |m| && forall w :: 0 <= w < |m| && !(Transit(m[h]) && Dest(m, h, w)) ==> img[w] == m[w]
  }

  /** All destinations stored, some offsets cleared. */
  ghost predicate Wiping(img: Image, m: Image, h: nat)
    requires h + 8 <= |m|
  {
    && |img| == |m|
    && (forall w :: 0 <= w < |m| && !OffWord(h, w) ==> img[w] == m[w])
    && (forall w :: 0 <= w < |m| && OffWord(h, w) ==> img[w] == m[w] || img[w] == 0)
  }

  /** A different payload or list leaves the chain and the other lists alone. */
  lemma OthersKept(a: Image, m: Image, hs: seq<nat>, k: nat)
    requires Recoverable(m, hs) && k < |hs| - 1 && |a| == |m|
    requires forall j :: 0 <= j < |hs| && j != k ==> SameHeader(a, m, hs[j])
    requires a[hs[k]] == m[hs[k]]
    requires ClumpOk(a, hs, k)
    ensures Recoverable(a, hs) && (SettledBefore(m, hs, k) ==> SettledBefore(a, hs, k))
  {
    forall j | 0 <= j < |hs| ensures a[hs[j]] == m[hs[j]] { if j != k { assert SameHeader(a, m, hs[j]); } }
    forall i | 0 <= i < |hs| - 1 ensures Clump(a, hs, i) && ClumpOk(a, hs, i) {
      assert Clump(m, hs, i) && ClumpOk(m, hs, i);
      if i != k {
        assert SameHeader(a, m, hs[i]);
        if State(m[hs[i]]) == ACTIVE { SameSizesList(a, m, hs, ACTIVE, hs[i]); }
      }
    }
  }

  lemma ReplayingHeaders(img: Image, m: Image, hs: seq<nat>, k: nat, j: nat)
    requires Recoverable(m, hs) && k < |hs| - 1 && Replaying(img, m, hs[k]) && j < |hs|
    ensures SameHeader(img, m, hs[j])
  {
    assert ClumpOk(m, hs, k);
    forall w | hs[j] <= w < hs[j] + 8 ensures img[w] == m[w] {
      assert Header(hs, w);
      if Transit(m[hs[k]]) && Dest(m, hs[k], w) { TargetIsNoHeader(hs, |m|, w); }
    }
  }

  lemma ReplayingLeads(img: Image, m: Image, hs: seq<nat>, k: nat)
    requires Recoverable(m, hs) && k < |hs| - 1 && SettledBefore(m, hs, k) && Replaying(img, m, hs[k])
    ensures img in LeadingTo(Resolve(m, hs))
  {
    var h := hs[k];
    forall j | 0 <= j < |hs| ensures SameHeader(img, m, hs[j]) { ReplayingHeaders(img, m, hs, k, j); }
    forall j | 0 <= j < |hs| ensures img[hs[j]] == m[hs[j]] { assert SameHeader(img, m, hs[j]); }
    assert ClumpOk(m, hs, k);
    assert SameHeader(img, m, h);
    if State(m[h]) == ACTIVE { SameSizesList(img, m, hs, ACTIVE, h); }
    OthersKept(img, m, hs, k);
    RecoverableLists(img, hs);
    RecoverableLists(m, hs);
    assert OwnListOk(img, hs, k) && OwnListOk(m, hs, k);
    ResolveClumpPoint(img, hs, k);
    ResolveClumpPoint(m, hs, k);
    ReplayingWords(img, m, hs, k);
    ClumpDecides(img, m, hs, k);
    ChainUnique(img, hs);
  }

  lemma ReplayingWords(img: Image, m: Image, hs: seq<nat>, k: nat)
    requires Bounds(hs, |m|) && k < |hs| - 1 && Replaying(img, m, hs[k]) && SameHeader(img, m, hs[k])
    requires forall w :: 0 <= w < |m| ==> ResolveClump(m, hs[k])[w] == ResolvedWord(m, hs, k, w)
    requires forall w :: 0 <= w < |m| ==> ResolveClump(img, hs[k])[w] == ResolvedWord(img, hs, k, w)
    ensures ResolveClump(img, hs[k]) == ResolveClump(m, hs[k])
  {
    hide State;
    forall w | 0 <= w < |m| ensures ResolvedWord(img, hs, k, w) == ResolvedWord(m, hs, k, w) {
      if Dest(m, hs[k], w) { assert Dest(img, hs[k], w); }
    }
  }

  /** A list whose stores are done. */
  ghost predicate Finished(m: Image, h: nat)
    requires h + 8 <= |m|
  {
    Transit(m[h]) ==> Consistent(m, h) && Done(m, h)
  }

  lemma WipedReplay(img: Image, m: Image, hs: seq<nat>, k: nat, w: nat)
    requires Bounds(hs, |m|) && k < |hs| - 1 && Wiping(img, m, hs[k]) && w < |m| && !(hs[k] <= w < hs[k] + 8)
    requires ListOk(m, hs, hs[k]) && Consistent(m, hs[k]) && Done(m, hs[k])
    ensures ReplayAt(img, hs[k], w) == ReplayAt(m, hs[k], w)
  {
    var h := hs[k];
    assert OffWord(h, h + 2) && OffWord(h, h + 4) && OffWord(h, h + 6);
    assert img[h + 3] == m[h + 3] && img[h + 5] == m[h + 5] && img[h + 7] == m[h + 7];
    assert img[w] == m[w];
    if Dest(m, h, w) { assert m[w] == ReplayAt(m, h, w); }
  }

  lemma WipingWords(img: Image, m: Image, hs: seq<nat>, k: nat)
    requires Bounds(hs, |m|) && k < |hs| - 1 && Wiping(img, m, hs[k]) && Finished(m, hs[k]) && Pending(m[hs[k]])
    requires Transit(m[hs[k]]) ==> ListOk(m, hs, hs[k])
    requires forall w :: 0 <= w < |m| ==> ResolveClump(m, hs[k])[w] == ResolvedWord(m, hs, k, w)
    requires forall w :: 0 <= w < |m| ==> ResolveClump(img, hs[k])[w] == ResolvedWord(img, hs, k, w)
    ensures ResolveClump(img, hs[k]) == ResolveClump(m, hs[k])
  {
    var h := hs[k];
    forall w | 0 <= w < |m| ensures ResolvedWord(img, hs, k, w) == ResolvedWord(m, hs, k, w) {
      if !(h <= w < h + 8) && Transit(m[h]) { WipedReplay(img, m, hs, k, w); }
    }
  }

  lemma WipingLeads(img: Image, m: Image, hs: seq<nat>, k: nat)
    requires Recoverable(m, hs) && k < |hs| - 1 && SettledBefore(m, hs, k)
    requires Pending(m[hs[k]]) && Finished(m, hs[k]) && Wiping(img, m, hs[k])
    ensures img in LeadingTo(Resolve(m, hs))
  {
    var h := hs[k];
    forall j | 0 <= j < |hs| && j != k ensures SameHeader(img, m, hs[j]) { HeadersApart(hs, |m|, j, k); }
    assert ClumpOk(m, hs, k);
    assert OffWord(h, h + 2) && OffWord(h, h + 4) && OffWord(h, h + 6);
    assert ClumpOk(img, hs, k);
    OthersKept(img, m, hs, k);
    RecoverableLists(img, hs);
    RecoverableLists(m, hs);
    assert OwnListOk(img, hs, k) && OwnListOk(m, hs, k);
    ResolveClumpPoint(img, hs, k);
    ResolveClumpPoint(m, hs, k);
    WipingWords(img, m, hs, k);
    ClumpDecides(img, m, hs, k);
    ChainUnique(img, hs);
  }

  // ---------------------------------------------------------------------------------------
  // One round
  // ---------------------------------------------------------------------------------------

  lemma {:induction false} ReplayingProgram(s: Pm, prog: seq<Instr>, m: Image, hs: seq<nat>, k: nat)
    requires Recoverable(m, hs) && k < |hs| - 1 && SettledBefore(m, hs, k) && Transit(m[hs[k]])
    requires Sane(s) && |s.mem| == |m|
    requires forall w :: 0 <= w < |m| && !Dest(m, hs[k], w) ==> s.may[w] == {m[w]}
    requires forall i :: 0 <= i < |prog| && prog[i].Store? ==> Dest(m, hs[k], prog[i].w)
    ensures Guarded(s, prog, LeadingTo(Resolve(m, hs)))
    decreases |prog|
  {
    forall img | Survives(s.may, img) ensures img in LeadingTo(Resolve(m, hs)) {
      forall w | 0 <= w < |m| && !Dest(m, hs[k], w) ensures img[w] == m[w] { assert img[w] in s.may[w]; }
      ReplayingLeads(img, m, hs, k);
    }
    if prog != [] {
      var r := Step(s, prog[0]);
      forall w | 0 <= w < |m| && !Dest(m, hs[k], w) ensures r.may[w] == {m[w]} { assert s.mem[w] in s.may[w]; }
      ReplayingProgram(r, prog[1..], m, hs, k);
    }
  }

  lemma {:induction false} WipingProgram(s: Pm, prog: seq<Instr>, m: Image, hs: seq<nat>, k: nat)
    requires Recoverable(m, hs) && k < |hs| - 1 && SettledBefore(m, hs, k) && Pending(m[hs[k]]) && Finished(m, hs[k])
    requires Sane(s) && |s.mem| == |m|
    requires forall w :: 0 <= w < |m| && !OffWord(hs[k], w) ==> s.may[w] == {m[w]}
    requires forall w :: 0 <= w < |m| && OffWord(hs[k], w) ==> s.may[w] <= {m[w], 0}
    requires forall i :: 0 <= i < |prog| && prog[i].Store? ==> OffWord(hs[k], prog[i].w) && prog[i].v == 0
    ensures Guarded(s, prog, LeadingTo(Resolve(m, hs)))
    decreases |prog|
  {
    forall img | Survives(s.may, img) ensures img in LeadingTo(Resolve(m, hs)) {
      forall w | 0 <= w < |m| ensures img[w] in s.may[w] {}
      WipingLeads(img, m, hs, k);
    }
    if prog != [] {
      var r := Step(s, prog[0]);
      forall w | 0 <= w < |m| ensures s.mem[w] in s.may[w] {}
      WipingProgram(r, prog[1..], m, hs, k);
    }
  }

  lemma AllCleanLeft(s: Pm, img: Image)
    requires AllClean(s) && Survives(s.may, img)
    ensures img == s.mem
  {
    forall w | 0 <= w < |img| ensures img[w] == s.mem[w] { assert Clean(s, w) && img[w] in s.may[w]; }
  }

  /** A clump with an empty list, before and after its state is settled. */
  lemma SettledSame(m: Image, hs: seq<nat>, k: nat)
    requires Recoverable(m, hs) && k < |hs| - 1 && SettledBefore(m, hs, k) && Pending(m[hs[k]]) && EmptyList(m, hs[k])
    ensures var m' := m[hs[k] := SettledSize(m[hs[k]])];
            && m' == ResolveClump(m, hs[k])
            && Recoverable(m', hs) && SettledBefore(m', hs, k + 1) && Resolve(m', hs) == Resolve(m, hs)
  {
    hide Resolve;
    hide State;
    hide Visible;
    hide Exec;
    var h := hs[k];
    var m' := m[h := SettledSize(m[h])];
    SizeWord(Bytes(m[h]), Settled(State(m[h])));
    RestatedTiled(m', m, hs, k);
    forall i | 0 <= i < |hs| - 1 ensures ClumpOk(m', hs, i) {
      assert ClumpOk(m, hs, i);
      if i != k {
        RestatedHeaders(m', m, hs, k, i);
        if State(m[hs[i]]) == ACTIVE {
          if m[hs[i] + 2] != 0 { RestatedReaches(m', m, hs, k, ACTIVE, m[hs[i] + 2]); }
          if m[hs[i] + 4] != 0 { RestatedReaches(m', m, hs, k, ACTIVE, m[hs[i] + 4]); }
          if m[hs[i] + 6] != 0 { RestatedReaches(m', m, hs, k, ACTIVE, m[hs[i] + 6]); }
        }
      }
    }
    forall i | 0 <= i < k ensures m'[hs[i]] == m[hs[i]] { RestatedHeaders(m', m, hs, k, i); }
    assert ResolveClump(m', h) == m';
    assert m' == ResolveClump(m, h);
    ClumpDecides(m', m, hs, k);
  }

  lemma SettleRound(s: Pm, hs: seq<nat>, k: nat) returns (r: Pm)
    requires AllClean(s) && Recoverable(s.mem, hs) && k < |hs| - 1 && SettledBefore(s.mem, hs, k)
    requires Pending(s.mem[hs[k]]) && EmptyList(s.mem, hs[k])
    ensures r == Exec(s, SetSize(hs[k], SettledSize(s.mem[hs[k]])))
    ensures AllClean(r) && r.mem == ResolveClump(s.mem, hs[k])
    ensures Recoverable(r.mem, hs) && SettledBefore(r.mem, hs, k + 1) && Resolve(r.mem, hs) == Resolve(s.mem, hs)
    ensures Guarded(s, SetSize(hs[k], SettledSize(s.mem[hs[k]])), LeadingTo(Resolve(s.mem, hs)))
  {
    var h := hs[k];
    var v := SettledSize(s.mem[h]);
    var good := LeadingTo(Resolve(s.mem, hs));
    r := Exec(s, SetSize(h, v));
    SetSizeEffect(s, h, v);
    SettledSame(s.mem, hs, k);
    ChainUnique(s.mem, hs);
    ChainUnique(r.mem, hs);
    assert Safe(s, good) by {
      forall img | Survives(s.may, img) ensures img in good { AllCleanLeft(s, img); }
    }
    var a := Step(s, Store(h, v));
    assert Safe(Pin(s, h, v), good) by {
      forall img | Survives(Pin(s, h, v).may, img) ensures img in good {
        forall w | 0 <= w < |img| ensures img[w] == r.mem[w] {
          assert Clean(s, w) && img[w] in Pin(s, h, v).may[w];
        }
        assert img == r.mem;
      }
    }
    StoreSafe(s, h, v, good);
    FlushSafe(a, 8 * h, 64, good);
    GuardedPair(s, Store(h, v), HeaderFlush(h), good);
  }

  /** Clearing offsets leaves every size word alone. */
  lemma WipedSizes(m: Image, hs: seq<nat>, k: nat)
    requires Tiled(m, hs) && k < |hs| - 1
    ensures var b := Clear(m, hs[k]);
            && Tiled(b, hs) && EmptyList(b, hs[k]) && Wiping(b, m, hs[k])
            && forall j :: 0 <= j < |hs| ==> b[hs[j]] == m[hs[j]]
  {
    hide State;
    hide Span;
    var b := Clear(m, hs[k]);
    forall j | 0 <= j < |hs| ensures b[hs[j]] == m[hs[j]] { if j != k { HeadersApart(hs, |m|, j, k); } }
    forall i | 0 <= i < |hs| - 1 ensures Clump(b, hs, i) { assert Clump(m, hs, i); }
  }

  lemma WipeRound(s: Pm, hs: seq<nat>, k: nat) returns (r: Pm)
    requires AllClean(s) && Recoverable(s.mem, hs) && k < |hs| - 1 && SettledBefore(s.mem, hs, k)
    requires Pending(s.mem[hs[k]]) && Finished(s.mem, hs[k])
    ensures r == Exec(s, ClearList(hs[k]))
    ensures AllClean(r) && r.mem == Clear(s.mem, hs[k]) && r.mem[hs[k]] == s.mem[hs[k]] && EmptyList(r.mem, hs[k])
    ensures Recoverable(r.mem, hs) && SettledBefore(r.mem, hs, k) && Resolve(r.mem, hs) == Resolve(s.mem, hs)
    ensures Guarded(s, ClearList(hs[k]), LeadingTo(Resolve(s.mem, hs)))
  {
    hide PersistentMemory.Exec;
    hide Clear;
    hide Clump;
    hide ClumpOk;
    var h := hs[k];
    var p := ClearList(h);
    r := Exec(s, p);
    ClearEffect(s, h);
    assert OffWord(h, h + 2) && OffWord(h, h + 4) && OffWord(h, h + 6);
    forall w | 0 <= w < |s.mem| ensures s.may[w] == {s.mem[w]} { assert Clean(s, w); }
    WipingProgram(s, p, s.mem, hs, k);
    WipedSizes(s.mem, hs, k);
    WipingLeads(r.mem, s.mem, hs, k);
    ChainUnique(r.mem, hs);
  }

  lemma WipeAndSettle(s: Pm, hs: seq<nat>, k: nat) returns (r: Pm)
    requires AllClean(s) && Recoverable(s.mem, hs) && k < |hs| - 1 && SettledBefore(s.mem, hs, k)
    requires Pending(s.mem[hs[k]]) && Finished(s.mem, hs[k])
    ensures r == Exec(s, ClearList(hs[k]) + SetSize(hs[k], SettledSize(s.mem[hs[k]])))
    ensures AllClean(r) && r.mem == Clear(s.mem, hs[k])[hs[k] := SettledSize(s.mem[hs[k]])]
    ensures Recoverable(r.mem, hs) && SettledBefore(r.mem, hs, k + 1) && Resolve(r.mem, hs) == Resolve(s.mem, hs)
    ensures Guarded(s, ClearList(hs[k]) + SetSize(hs[k], SettledSize(s.mem[hs[k]])), LeadingTo(Resolve(s.mem, hs)))
  {
    var p, q := ClearList(hs[k]), SetSize(hs[k], SettledSize(s.mem[hs[k]]));
    var a := WipeRound(s, hs, k);
    r := SettleRound(a, hs, k);
    SetSizeEffect(a, hs[k], SettledSize(s.mem[hs[k]]));
    GuardedConcat(s, p, q, LeadingTo(Resolve(s.mem, hs)));
    ExecConcat(s, p, q);
  }

  lemma ReplayRound(s: Pm, hs: seq<nat>, k: nat) returns (r: Pm)
    requires AllClean(s) && Recoverable(s.mem, hs) && k < |hs| - 1 && SettledBefore(s.mem, hs, k)
    requires Transit(s.mem[hs[k]])
    ensures r == Exec(s, ReplayList(s.mem, hs[k]))
    ensures AllClean(r) && r.mem == Replay(s.mem, hs[k]) && r.mem[hs[k]] == s.mem[hs[k]] && Finished(r.mem, hs[k])
    ensures Recoverable(r.mem, hs) && SettledBefore(r.mem, hs, k) && Resolve(r.mem, hs) == Resolve(s.mem, hs)
    ensures Guarded(s, ReplayList(s.mem, hs[k]), LeadingTo(Resolve(s.mem, hs)))
  {
    hide PersistentMemory.Exec;
    var m, h := s.mem, hs[k];
    var p := ReplayList(m, h);
    assert ClumpOk(m, hs, k);
    r := Exec(s, p);
    ReplayEffect(s, hs, k);
    ReplayHeader(m, hs, k);
    forall w | 0 <= w < |m| ensures s.may[w] == {m[w]} { assert Clean(s, w); }
    ReplayStores(m, h);
    ReplayingProgram(s, p, m, hs, k);
    ReplayPoint(m, hs, k);
    assert Replaying(r.mem, m, h);
    ReplayingLeads(r.mem, m, hs, k);
    forall j | 0 <= j < |hs| ensures r.mem[hs[j]] == m[hs[j]] { ReplayingHeaders(r.mem, m, hs, k, j); }
    assert Tiled(r.mem, hs) by {
      forall i | 0 <= i < |hs| - 1 ensures Clump(r.mem, hs, i) { assert Clump(m, hs, i); }
    }
    ChainUnique(r.mem, hs);
  }

  lemma ReplayStores(m: Image, h: nat)
    requires h + 8 <= |m|
    ensures forall i :: 0 <= i < |ReplayList(m, h)| && ReplayList(m, h)[i].Store? ==> Dest(m, h, ReplayList(m, h)[i].w)
  {
  }

  lemma FinishRound(s: Pm, hs: seq<nat>, k: nat) returns (r: Pm)
    requires AllClean(s) && Recoverable(s.mem, hs) && k < |hs| - 1 && SettledBefore(s.mem, hs, k)
    requires Transit(s.mem[hs[k]])
    ensures r == Exec(s, Finish(s.mem, hs[k]))
    ensures AllClean(r) && r.mem == Clear(Replay(s.mem, hs[k]), hs[k])[hs[k] := SettledSize(s.mem[hs[k]])]
    ensures Recoverable(r.mem, hs) && SettledBefore(r.mem, hs, k + 1) && Resolve(r.mem, hs) == Resolve(s.mem, hs)
    ensures Guarded(s, Finish(s.mem, hs[k]), LeadingTo(Resolve(s.mem, hs)))
  {
    hide PersistentMemory.Exec;
    var p := ReplayList(s.mem, hs[k]);
    var q := ClearList(hs[k]) + SetSize(hs[k], SettledSize(s.mem[hs[k]]));
    var a := ReplayRound(s, hs, k);
    r := WipeAndSettle(a, hs, k);
    InSequence(s, p, a, q, r, LeadingTo(Resolve(s.mem, hs)));
    assert Finish(s.mem, hs[k]) == p + q;
  }

  lemma PendingClump(m: Image, h: nat)
    requires h + 8 <= |m| && Pending(m[h])
    ensures ResolveClump(m, h) == Clear(if Transit(m[h]) then Replay(m, h) else m, h)[h := SettledSize(m[h])]
  {
  }

  /** What one round keeps and does, from s to r. */
  ghost predicate Round(s: Pm, hs: seq<nat>, k: nat, prog: seq<Instr>, r: Pm)
    requires Sane(s) && Bounds(hs, |s.mem|) && k < |hs| - 1
  {
    && r == Exec(s, prog)
    && AllClean(r) && r.mem == ResolveClump(s.mem, hs[k])
    && Recoverable(r.mem, hs) && SettledBefore(r.mem, hs, k + 1) && Resolve(r.mem, hs) == Resolve(s.mem, hs)
    && Guarded(s, prog, LeadingTo(Resolve(s.mem, hs)))
  }

  lemma SettledRound(s: Pm, hs: seq<nat>, k: nat)
    requires AllClean(s) && Recoverable(s.mem, hs) && k < |hs| - 1 && SettledBefore(s.mem, hs, k)
    requires !Pending(s.mem[hs[k]])
    ensures Round(s, hs, k, [], s)
  {
    ChainUnique(s.mem, hs);
    forall img | Survives(s.may, img) ensures img in LeadingTo(Resolve(s.mem, hs)) { AllCleanLeft(s, img); }
  }

  /** One round: a crash anywhere in it leaves an image from which the pass makes the same. */
  lemma RecoverRound(s: Pm, hs: seq<nat>, k: nat) returns (r: Pm)
    requires AllClean(s) && Recoverable(s.mem, hs) && k < |hs| - 1 && SettledBefore(s.mem, hs, k)
    ensures Round(s, hs, k, RecoverClump(s.mem, hs[k]), r)
  {
    if Pending(s.mem[hs[k]]) {
      PendingClump(s.mem, hs[k]);
      if Transit(s.mem[hs[k]]) {
        r := FinishRound(s, hs, k);
      } else {
        r := WipeAndSettle(s, hs, k);
      }
    } else {
      r := s;
      SettledRound(s, hs, k);
    }
  }

  /** Recovery is restartable.  The pass ends with every clump FREE or ACTIVE, and an image left by
      a crash anywhere inside it leads, to the last word, to the same result. */
  lemma {:induction false} RecoverExact(s: Pm, hs: seq<nat>, k: nat) returns (r: Pm)
    requires AllClean(s) && Recoverable(s.mem, hs) && k < |hs| && SettledBefore(s.mem, hs, k)
    ensures r == Exec(s, RecoverFrom(s.mem, hs, k))
    ensures AllClean(r) && r.mem == Resolve(s.mem, hs)
    ensures Recoverable(r.mem, hs) && SettledBefore(r.mem, hs, |hs| - 1)
    ensures Guarded(s, RecoverFrom(s.mem, hs, k), LeadingTo(Resolve(s.mem, hs)))
    decreases |hs| - k
  {
    var good := LeadingTo(Resolve(s.mem, hs));
    if k == |hs| - 1 {
      r := s;
      PrefixIdle(s.mem, hs, k);
      ChainUnique(s.mem, hs);
      forall img | Survives(s.may, img) ensures img in good { AllCleanLeft(s, img); }
    } else {
      var a := RecoverRound(s, hs, k);
      r := RecoverExact(a, hs, k + 1);
      var p, q := RecoverClump(s.mem, hs[k]), RecoverFrom(a.mem, hs, k + 1);
      GuardedConcat(s, p, q, good);
      ExecConcat(s, p, q);
    }
  }

  /** `left` is what a power failure during the recovery of `img` can leave. */
  ghost predicate CutShort(img: Image, left: Image) {
    && Recoverable(img, Chain(img))
    && exists n: nat :: n <= |RecoverFrom(img, Chain(img), 0)| &&
         Survives(Exec(Boot(img), RecoverFrom(img, Chain(img), 0)[..n]).may, left)
  }

  lemma CutShortLeads(img: Image, left: Image)
    requires CutShort(img, left)
    ensures left in LeadingTo(Resolve(img, Chain(img)))
  {
    var prog := RecoverFrom(img, Chain(img), 0);
    var n: nat :| n <= |prog| && Survives(Exec(Boot(img), prog[..n]).may, left);
    assert AllClean(Boot(img));
    var r := RecoverExact(Boot(img), Chain(img), 0);
    GuardedEverywhere(Boot(img), prog, LeadingTo(Resolve(img, Chain(img))), n, left);
  }

  /** Any number of recoveries cut short, each on what the one before left: the last one, when it
      is let finish, makes exactly the image that the first would have made. */
  lemma {:induction false} RecoverAfterCuts(imgs: seq<Image>) returns (r: Pm)
    requires |imgs| > 0 && Recoverable(imgs[0], Chain(imgs[0]))
    requires forall i :: 0 <= i < |imgs| - 1 ==> CutShort(imgs[i], imgs[i + 1])
    ensures var last := imgs[|imgs| - 1];
            && Recoverable(last, Chain(last))
            && r == Exec(Boot(last), RecoverFrom(last, Chain(last), 0))
            && r.mem == Resolve(imgs[0], Chain(imgs[0]))
    decreases |imgs|
  {
    if |imgs| == 1 {
      assert AllClean(Boot(imgs[0]));
      r := RecoverExact(Boot(imgs[0]), Chain(imgs[0]), 0);
    } else {
      assert CutShort(imgs[0], imgs[1]);
      CutShortLeads(imgs[0], imgs[1]);
      forall i | 0 <= i < |imgs[1..]| - 1 ensures CutShort(imgs[1..][i], imgs[1..][i + 1]) {
        assert CutShort(imgs[i + 1], imgs[i + 2]);
      }
      r := RecoverAfterCuts(imgs[1..]);
    }
  }
}
