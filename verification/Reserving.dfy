/** First-fit reservation (pmemalloc_reserve). */
module Reserving {
  import opened PersistentMemory
  import opened PoolImage
  import opened RecoveryFacts
  import opened CrashSafety
  import opened Finishing
  import opened Activation
  import opened Rechaining

  /** roundup(size + 64, 64) in 64-bit arithmetic. */
  function ClumpBytes(size: nat): nat { (size + 127) % TWO_64 / 64 * 64 }

  /** The rounded size holds the request and a header exactly when the sum does not wrap. */
  lemma ClumpBytesEnough(size: nat)
    requires size < TWO_64
    ensures ClumpBytes(size) % 64 == 0
    ensures ClumpBytes(size) >= size + 64 <==> size + 127 < TWO_64
    ensures size + 127 < TWO_64 ==> ClumpBytes(size) < size + 128
  {
  }

  // ---------------------------------------------------------------------------------------
  // The search
  // ---------------------------------------------------------------------------------------

  predicate Fits(v: nat, bytes: nat) { State(v) == FREE && bytes <= Bytes(v) }

  /** The first clump at or after `from` that is free and large enough; the terminator if none. */
  ghost function FirstFit(m: Image, hs: seq<nat>, from: nat, bytes: nat): (k: nat)
    requires Bounds(hs, |m|) && from < |hs|
    ensures from <= k < |hs|
    ensures k < |hs| - 1 ==> Fits(m[hs[k]], bytes)
    ensures forall i :: from <= i < k ==> !Fits(m[hs[i]], bytes)
    decreases |hs| - from
  {
    if from == |hs| - 1 || Fits(m[hs[from]], bytes) then from else FirstFit(m, hs, from + 1, bytes)
  }

  // ---------------------------------------------------------------------------------------
  // The stores
  // ---------------------------------------------------------------------------------------

  function Zero(n: nat, count: nat): seq<Instr> {
    if count == 0 then [] else Zero(n, count - 1) + [Store(n + count - 1, 0)]
  }

  /** A new free clump of `bytes` bytes with its header at n. */
  function Carve(n: nat, bytes: nat): seq<Instr> { Zero(n, 8) + [Store(n, bytes), HeaderFlush(n)] }

  function Wipe(h: nat): seq<Instr> { Zero(h + 2, 6) + [HeaderFlush(h)] }

  predicate Splits(v: nat, bytes: nat) { Bytes(v) >= bytes + 128 }

  function Prepare(m: Image, h: nat, bytes: nat): seq<Instr>
    requires h < |m|
  {
    if Splits(m[h], bytes) then Carve(h + bytes / 8, Bytes(m[h]) - bytes) + Wipe(h) else Wipe(h)
  }

  function ReservedSize(v: nat, bytes: nat): nat {
    (if Splits(v, bytes) then bytes else Bytes(v)) + RESERVED
  }

  function ReserveSteps(m: Image, h: nat, bytes: nat): seq<Instr>
    requires h < |m|
  {
    Prepare(m, h, bytes) + SetSize(h, ReservedSize(m[h], bytes))
  }

  ghost function ReservedChain(m: Image, hs: seq<nat>, k: nat, bytes: nat): seq<nat>
    requires Bounds(hs, |m|) && k < |hs| - 1
  {
    if Splits(m[hs[k]], bytes) then Split(hs, k, hs[k] + bytes / 8) else hs
  }

  // ---------------------------------------------------------------------------------------
  // What they do
  // ---------------------------------------------------------------------------------------

  /** r is s but for the words [lo, hi), and nothing became less durable elsewhere. */
  ghost predicate OnlyWithin(r: Pm, s: Pm, lo: nat, hi: nat) {
    && |r.mem| == |s.mem|
    && forall w :: 0 <= w < |s.mem| && !(lo <= w < hi) ==> r.mem[w] == s.mem[w] && (Clean(s, w) ==> Clean(r, w))
  }

  lemma {:induction false} ZeroEffect(s: Pm, n: nat, count: nat)
    requires Sane(s) && n + count <= |s.mem|
    ensures var r := Exec(s, Zero(n, count));
            OnlyWithin(r, s, n, n + count) && forall w :: n <= w < n + count ==> r.mem[w] == 0
  {
    if count > 0 {
      ZeroEffect(s, n, count - 1);
      var last := [Store(n + count - 1, 0)];
      ExecConcat(s, Zero(n, count - 1), last);
      var a := Exec(s, Zero(n, count - 1));
      assert Exec(a, last) == Step(a, last[0]);
    }
  }

  lemma WipeEffect(s: Pm, h: nat)
    requires Sane(s) && h % 8 == 0 && h + 8 <= |s.mem|
    ensures var r := Exec(s, Wipe(h));
            && OnlyWithin(r, s, h + 2, h + 8)
            && (forall w :: h + 2 <= w < h + 8 ==> r.mem[w] == 0)
            && (forall w :: h <= w < h + 8 ==> Clean(r, w))
  {
    hide State;
    hide Bytes;
    hide Span;
    ZeroEffect(s, h + 2, 6);
    ExecConcat(s, Zero(h + 2, 6), [HeaderFlush(h)]);
    var a := Exec(s, Zero(h + 2, 6));
    assert Exec(a, [HeaderFlush(h)]) == Step(a, HeaderFlush(h));
    forall w | h <= w < h + 8 ensures Clean(Step(a, HeaderFlush(h)), w) { HeaderCovered(h, w); }
  }

  lemma CarveEffect(s: Pm, n: nat, bytes: nat)
    requires Sane(s) && n % 8 == 0 && n + 8 <= |s.mem|
    ensures var r := Exec(s, Carve(n, bytes));
            && OnlyWithin(r, s, n, n + 8)
            && r.mem[n] == bytes && (forall w :: n < w < n + 8 ==> r.mem[w] == 0)
            && (forall w :: n <= w < n + 8 ==> Clean(r, w))
  {
    ZeroEffect(s, n, 8);
    var tail := [Store(n, bytes), HeaderFlush(n)];
    ExecConcat(s, Zero(n, 8), tail);
    SetSizeEffect(Exec(s, Zero(n, 8)), n, bytes);
    assert tail == SetSize(n, bytes);
  }

  /** A free clump that is large enough. */
  ghost predicate Fitting(m: Image, hs: seq<nat>, k: nat, bytes: nat)
    requires Bounds(hs, |m|)
  {
    && k < |hs| - 1 && Fits(m[hs[k]], bytes)
    && bytes % 64 == 0 && bytes >= 64
  }

  /** The cut falls on a chunk inside the clump, with room for a header. */
  lemma CutInside(m: Image, hs: seq<nat>, k: nat, bytes: nat)
    requires Tiled(m, hs) && Fitting(m, hs, k, bytes) && Splits(m[hs[k]], bytes)
    ensures var n := hs[k] + bytes / 8;
            n % 8 == 0 && hs[k] + 8 <= n && n + 8 <= hs[k + 1] && n + 8 <= |m|
            && Span(Bytes(m[hs[k]]) - bytes) == hs[k + 1] - n && State(Bytes(m[hs[k]]) - bytes) == FREE
  {
    assert Clump(m, hs, k);
    assert hs[k] % 8 == 0 && hs[k + 1] + 8 <= |m|;
  }

  /** Preparation: the clump's list is wiped and, if it is split, the rest has its header; all of
      it lies inside the free clump. */
  ghost predicate Prepared(r: Pm, s: Pm, hs: seq<nat>, k: nat, bytes: nat)
    requires Bounds(hs, |s.mem|) && k < |hs| - 1
  {
    var h := hs[k];
    && OnlyWithin(r, s, h + 2, hs[k + 1])
    && (forall w :: h + 2 <= w < h + 8 ==> w < |r.mem| && r.mem[w] == 0)
    && (forall w :: h <= w < h + 8 ==> Clean(r, w))
    && (Splits(s.mem[h], bytes) ==>
          var n := h + bytes / 8;
          && n + 8 <= |r.mem| && r.mem[n] == Bytes(s.mem[h]) - bytes && (forall w :: n <= w < n + 8 ==> Clean(r, w))
          && forall w :: n < w < n + 8 ==> r.mem[w] == 0)
  }

  lemma WithinTrans(c: Pm, b: Pm, a: Pm, lo: nat, hi: nat, lo': nat, hi': nat)
    requires OnlyWithin(c, b, lo, hi) && OnlyWithin(b, a, lo', hi')
    ensures OnlyWithin(c, a, if lo < lo' then lo else lo', if hi < hi' then hi' else hi)
  {
  }

  lemma WithinWiden(b: Pm, a: Pm, lo: nat, hi: nat, lo': nat, hi': nat)
    requires OnlyWithin(b, a, lo, hi) && lo' <= lo && hi <= hi'
    ensures OnlyWithin(b, a, lo', hi')
  {
  }

  lemma CarveThenWipe(s: Pm, h: nat, n: nat, rest: nat, end: nat) returns (r: Pm)
    requires Sane(s) && h % 8 == 0 && n % 8 == 0 && h + 8 <= n && n + 8 <= end <= |s.mem|
    ensures r == Exec(s, Carve(n, rest) + Wipe(h))
    ensures OnlyWithin(r, s, h + 2, end)
    ensures r.mem[n] == rest && forall w :: n < w < n + 8 ==> r.mem[w] == 0
    ensures forall w :: h + 2 <= w < h + 8 ==> r.mem[w] == 0
    ensures forall w :: h <= w < h + 8 || n <= w < n + 8 ==> Clean(r, w)
  {
    var a := Exec(s, Carve(n, rest));
    r := Exec(a, Wipe(h));
    ExecConcat(s, Carve(n, rest), Wipe(h));
    CarveEffect(s, n, rest);
    WipeEffect(a, h);
    WithinTrans(r, a, s, h + 2, h + 8, n, n + 8);
    WithinWiden(r, s, h + 2, n + 8, h + 2, end);
  }

  lemma PrepareSplit(s: Pm, hs: seq<nat>, k: nat, bytes: nat)
    requires Sane(s) && Tiled(s.mem, hs) && Fitting(s.mem, hs, k, bytes) && Splits(s.mem[hs[k]], bytes)
    ensures Prepared(Exec(s, Prepare(s.mem, hs[k], bytes)), s, hs, k, bytes)
  {
    hide Bytes;
    hide Span;
    hide State;
    hide PersistentMemory.Exec;
    CutInside(s.mem, hs, k, bytes);
    assert hs[k] % 8 == 0 && hs[k + 1] + 8 <= |s.mem|;
    var r := CarveThenWipe(s, hs[k], hs[k] + bytes / 8, Bytes(s.mem[hs[k]]) - bytes, hs[k + 1]);
  }

  lemma PrepareEffect(s: Pm, hs: seq<nat>, k: nat, bytes: nat)
    requires Sane(s) && Tiled(s.mem, hs) && Fitting(s.mem, hs, k, bytes)
    ensures Prepared(Exec(s, Prepare(s.mem, hs[k], bytes)), s, hs, k, bytes)
  {
    if Splits(s.mem[hs[k]], bytes) {
      PrepareSplit(s, hs, k, bytes);
    } else {
      WipeEffect(s, hs[k]);
      WithinWiden(Exec(s, Wipe(hs[k])), s, hs[k] + 2, hs[k] + 8, hs[k] + 2, hs[k + 1]);
    }
  }

  lemma {:induction false} ZeroStores(n: nat, count: nat)
    ensures forall i :: 0 <= i < |Zero(n, count)| ==> Zero(n, count)[i].Store? && n <= Zero(n, count)[i].w < n + count
  {
    if count > 0 { ZeroStores(n, count - 1); }
  }

  lemma PrepareStores(m: Image, hs: seq<nat>, k: nat, bytes: nat)
    requires Tiled(m, hs) && Fitting(m, hs, k, bytes)
    ensures var p := Prepare(m, hs[k], bytes);
            forall i :: 0 <= i < |p| && p[i].Store? ==> hs[k] + 2 <= p[i].w < hs[k + 1]
  {
    hide State;
    hide Bytes;
    hide Span;
    assert hs[k] + 8 <= hs[k + 1];
    ZeroStores(hs[k] + 2, 6);
    if Splits(m[hs[k]], bytes) {
      CutInside(m, hs, k, bytes);
      ZeroStores(hs[k] + bytes / 8, 8);
    }
  }

  /** Nothing inside a free clump matters, its size word apart. */
  lemma InsideFree(m: Image, hs: seq<nat>, k: nat, w: nat)
    requires Tiled(m, hs) && NoTransit(m, hs) && k < |hs| - 1 && State(m[hs[k]]) == FREE
    requires hs[k] < w < hs[k + 1]
    ensures !Relevant(m, hs, 0, w) && !Visible(Living(m, hs), w)
  {
    forall i | 0 <= i < |hs| ensures !RelevantHeader(m, hs, i, w) {
      if i != k { HeadersApart(hs, |m|, i, k); }
      if i > k + 1 { assert hs[k + 1] + 8 <= hs[i]; }
    }
    assert !Static(w);
    forall g | g in Living(m, hs) ensures !(g + 8 <= w < g + Living(m, hs)[g]) {
      var i :| 0 <= i < |hs| && hs[i] == g;
      assert i < |hs| - 1 && Clump(m, hs, i);
      if i + 1 < k { assert hs[i + 1] + 8 <= hs[k]; }
      if i > k + 1 { assert hs[k + 1] + 8 <= hs[i]; }
    }
  }

  lemma PrepareIdle(s: Pm, hs: seq<nat>, k: nat, bytes: nat)
    requires Quiet(s, hs) && Fitting(s.mem, hs, k, bytes)
    ensures var p := Prepare(s.mem, hs[k], bytes);
            Steady(Exec(s, p), s.mem, hs, 0) && Guarded(s, p, Showing({ViewOf(s.mem, hs)}))
  {
    var p := Prepare(s.mem, hs[k], bytes);
    PrepareStores(s.mem, hs, k, bytes);
    forall i | 0 <= i < |p| ensures Idle(p[i], s.mem, hs, 0) {
      if p[i].Store? { InsideFree(s.mem, hs, k, p[i].w); }
    }
    QuietSteady(s, hs, 0);
    IdleProgram(s, p, s.mem, hs, 0);
  }

  // ---------------------------------------------------------------------------------------
  // The chain after the reservation
  // ---------------------------------------------------------------------------------------

  /** b is a with the final size word. */
  ghost predicate Carved(b: Image, m: Image, hs: seq<nat>, k: nat, bytes: nat)
    requires Bounds(hs, |m|) && k < |hs| - 1
  {
    var h := hs[k];
    && |b| == |m|
    && b[h] == ReservedSize(m[h], bytes)
    && (forall w :: 0 <= w < |m| && !(h <= w < hs[k + 1]) ==> b[w] == m[w])
    && (forall w :: h + 2 <= w < h + 8 ==> w < |m| && b[w] == 0)
    && (Splits(m[h], bytes) ==>
          var n := h + bytes / 8;
          n + 8 <= |m| && b[n] == Bytes(m[h]) - bytes && forall w :: n < w < n + 8 ==> b[w] == 0)
  }

  lemma ReservedWord(m: Image, hs: seq<nat>, k: nat, bytes: nat)
    requires Tiled(m, hs) && Fitting(m, hs, k, bytes)
    ensures State(ReservedSize(m[hs[k]], bytes)) == RESERVED
    ensures hs[k] + Span(ReservedSize(m[hs[k]], bytes)) ==
              if Splits(m[hs[k]], bytes) then hs[k] + bytes / 8 else hs[k + 1]
  {
    assert Clump(m, hs, k);
    SizeWord(if Splits(m[hs[k]], bytes) then bytes else Bytes(m[hs[k]]), RESERVED);
  }

  lemma CarvedOthers(b: Image, m: Image, hs: seq<nat>, k: nat, bytes: nat, i: nat)
    requires Bounds(hs, |m|) && k < |hs| - 1 && Carved(b, m, hs, k, bytes) && i < |hs| && i != k
    ensures SameHeader(b, m, hs[i])
  {
    HeadersApart(hs, |m|, i, k);
    if i > k + 1 { assert hs[k + 1] + 8 <= hs[i]; }
  }

  lemma CarvedClump(b: Image, m: Image, hs: seq<nat>, k: nat, bytes: nat, j: nat)
    requires Tiled(m, hs) && NoTransit(m, hs) && Fitting(m, hs, k, bytes) && Carved(b, m, hs, k, bytes)
    requires Splits(m[hs[k]], bytes) && j < |hs|
    requires Bounds(Split(hs, k, hs[k] + bytes / 8), |b|)
    ensures var gs := Split(hs, k, hs[k] + bytes / 8); Clump(b, gs, j) && !Transit(b[gs[j]])
  {
    hide State;
    hide Bytes;
    hide Span;
    var gs := Split(hs, k, hs[k] + bytes / 8);
    if j == k {
      ReservedWord(m, hs, k, bytes);
      assert gs[j] == hs[k] && gs[j + 1] == hs[k] + bytes / 8;
    } else if j == k + 1 {
      CutInside(m, hs, k, bytes);
      assert gs[j] == hs[k] + bytes / 8 && gs[j + 1] == hs[k + 1];
    } else {
      var i := if j < k then j else j - 1;
      assert gs[j] == hs[i] && gs[j + 1] == hs[i + 1];
      CarvedOthers(b, m, hs, k, bytes, i);
      assert Clump(m, hs, i);
    }
  }

  lemma CarvedTiledSplit(b: Image, m: Image, hs: seq<nat>, k: nat, bytes: nat)
    requires Tiled(m, hs) && NoTransit(m, hs) && Fitting(m, hs, k, bytes) && Carved(b, m, hs, k, bytes)
    requires Splits(m[hs[k]], bytes)
    ensures var gs := Split(hs, k, hs[k] + bytes / 8); Tiled(b, gs) && NoTransit(b, gs)
  {
    hide Clump;
    hide Transit;
    var gs := Split(hs, k, hs[k] + bytes / 8);
    CarvedOthers(b, m, hs, k, bytes, |hs| - 1);
    CutInside(m, hs, k, bytes);
    SplitBounds(hs, |m|, k, hs[k] + bytes / 8);
    forall j | 0 <= j < |gs| - 1 ensures Clump(b, gs, j) && !Transit(b[gs[j]]) {
      CarvedClump(b, m, hs, k, bytes, j);
    }
    assert gs[|gs| - 1] == hs[|hs| - 1];
  }

  lemma CarvedTiled(b: Image, m: Image, hs: seq<nat>, k: nat, bytes: nat)
    requires Tiled(m, hs) && NoTransit(m, hs) && Fitting(m, hs, k, bytes) && Carved(b, m, hs, k, bytes)
    ensures Tiled(b, ReservedChain(m, hs, k, bytes)) && NoTransit(b, ReservedChain(m, hs, k, bytes))
  {
    hide Exec;
    if Splits(m[hs[k]], bytes) {
      CarvedTiledSplit(b, m, hs, k, bytes);
    } else {
      ReservedWord(m, hs, k, bytes);
      CarvedOthers(b, m, hs, k, bytes, |hs| - 1);
      forall j | 0 <= j < |hs| - 1 ensures Clump(b, hs, j) && !Transit(b[hs[j]]) {
        assert Clump(m, hs, j);
        if j != k { CarvedOthers(b, m, hs, k, bytes, j); }
      }
    }
  }

  lemma CarvedForward(b: Image, m: Image, hs: seq<nat>, k: nat, bytes: nat, i: nat)
    requires Bounds(hs, |m|) && k < |hs| - 1 && Carved(b, m, hs, k, bytes)
    requires i < |hs| - 1 && i != k
    ensures InChain(ReservedChain(m, hs, k, bytes), hs[i], hs[i + 1]) && SameHeader(b, m, hs[i])
  {
    CarvedOthers(b, m, hs, k, bytes, i);
    if Splits(m[hs[k]], bytes) {
      SplitInChain(hs, k, hs[k] + bytes / 8, i);
    } else {
      assert Link(hs, i, hs[i], hs[i + 1]);
    }
  }

  /** A clump of the new chain that is in use is an old one or the one just reserved. */
  lemma CarvedBackward(b: Image, m: Image, hs: seq<nat>, k: nat, bytes: nat, j: nat)
    requires Tiled(m, hs) && Fitting(m, hs, k, bytes) && Carved(b, m, hs, k, bytes)
    requires var gs := ReservedChain(m, hs, k, bytes);
             Bounds(gs, |b|) && j < |gs| - 1 && j != k && State(b[gs[j]]) != FREE
    ensures var gs := ReservedChain(m, hs, k, bytes);
            InChain(hs, gs[j], gs[j + 1]) && SameHeader(b, m, gs[j])
  {
    hide State;
    var gs := ReservedChain(m, hs, k, bytes);
    if Splits(m[hs[k]], bytes) {
      CutInside(m, hs, k, bytes);
      SplitBounds(hs, |m|, k, hs[k] + bytes / 8);
      assert j != k + 1;
      var i := if j < k then j else j - 1;
      CarvedOthers(b, m, hs, k, bytes, i);
      assert Link(hs, i, gs[j], gs[j + 1]);
    } else {
      CarvedOthers(b, m, hs, k, bytes, j);
      assert Link(hs, j, gs[j], gs[j + 1]);
    }
  }

  lemma CarvedRechained(b: Image, m: Image, hs: seq<nat>, k: nat, bytes: nat)
    requires Tiled(m, hs) && NoTransit(m, hs) && Fitting(m, hs, k, bytes) && Carved(b, m, hs, k, bytes)
    ensures var gs := ReservedChain(m, hs, k, bytes);
            Tiled(b, gs) && NoTransit(b, gs) && Carries(m, hs, b, gs) && NothingNew(m, hs, b, gs)
            && gs[k] == hs[k] && State(b[hs[k]]) == RESERVED && k < |gs| - 1
  {
    var gs := ReservedChain(m, hs, k, bytes);
    CarvedTiled(b, m, hs, k, bytes);
    ReservedWord(m, hs, k, bytes);
    forall i | 0 <= i < |hs| - 1 && State(m[hs[i]]) != FREE
      ensures InChain(gs, hs[i], hs[i + 1]) && SameHeader(b, m, hs[i])
    {
      CarvedForward(b, m, hs, k, bytes, i);
    }
    forall j | 0 <= j < |gs| - 1 && State(b[gs[j]]) == ACTIVE
      ensures InChain(hs, gs[j], gs[j + 1]) && SameHeader(b, m, gs[j])
    {
      assert gs[k] == hs[k];
      CarvedBackward(b, m, hs, k, bytes, j);
    }
  }

  lemma CarvedReserved(b: Image, m: Image, hs: seq<nat>, k: nat, bytes: nat)
    requires Tiled(m, hs) && NoTransit(m, hs) && ReservedReaches(m, hs)
    requires Fitting(m, hs, k, bytes) && Carved(b, m, hs, k, bytes)
    requires Bounds(ReservedChain(m, hs, k, bytes), |b|) && Carries(m, hs, b, ReservedChain(m, hs, k, bytes))
    ensures ReservedReaches(b, ReservedChain(m, hs, k, bytes))
  {
    var gs := ReservedChain(m, hs, k, bytes);
    forall j | 0 <= j < |gs| - 1 && State(b[gs[j]]) == RESERVED ensures ListReaches(b, gs, RESERVED, gs[j]) {
      if j == k {
        assert gs[k] == hs[k];
        assert b[hs[k] + 2] == 0 && b[hs[k] + 4] == 0 && b[hs[k] + 6] == 0;
      } else {
        CarvedBackward(b, m, hs, k, bytes, j);
        var i: nat :| Link(hs, i, gs[j], gs[j + 1]);
        CarriesList(m, hs, b, gs, RESERVED, gs[j]);
      }
    }
  }

  lemma CarvedView(b: Image, m: Image, hs: seq<nat>, k: nat, bytes: nat)
    requires Recoverable(m, hs) && NoTransit(m, hs) && Fitting(m, hs, k, bytes) && Carved(b, m, hs, k, bytes)
    ensures var gs := ReservedChain(m, hs, k, bytes);
            Recoverable(b, gs) && NoTransit(b, gs) && ViewOf(b, gs) == ViewOf(m, hs) && Living(b, gs) == Living(m, hs)
  {
    CarvedRechained(b, m, hs, k, bytes);
    forall w | 0 <= w < |m| && Visible(Living(m, hs), w) ensures m[w] == b[w] {
      VisibleIsTarget(m, hs, w);
      TargetIsNoHeader(hs, |m|, w);
      OutsideHeader(hs, k, w);
      if hs[k] < w < hs[k + 1] { InsideFree(m, hs, k, w); }
    }
    RechainedView(m, hs, b, ReservedChain(m, hs, k, bytes));
  }

  lemma PreparedOther(a: Pm, s: Pm, hs: seq<nat>, k: nat, bytes: nat, i: nat, w: nat)
    requires Quiet(s, hs) && k < |hs| - 1 && Prepared(a, s, hs, k, bytes)
    requires i < |hs| && hs[i] <= w < hs[i] + 8
    ensures Clean(a, w)
  {
    assert Header(hs, w);
    assert Pinned(s.mem, hs, w);
    if i < k { assert hs[i] + 8 <= hs[k]; }
    if i > k + 1 { assert hs[k + 1] + 8 <= hs[i]; }
  }

  /** A header of the new chain is an old one or the one cut out. */
  lemma HeaderOrigin(m: Image, hs: seq<nat>, k: nat, bytes: nat, w: nat)
    requires Bounds(hs, |m|) && k < |hs| - 1 && Header(ReservedChain(m, hs, k, bytes), w)
    ensures (exists i :: 0 <= i < |hs| && hs[i] <= w < hs[i] + 8)
            || (Splits(m[hs[k]], bytes) && hs[k] + bytes / 8 <= w < hs[k] + bytes / 8 + 8)
  {
    var gs := ReservedChain(m, hs, k, bytes);
    hide Bounds;
    hide Splits;
    var j :| 0 <= j < |gs| && gs[j] <= w < gs[j] + 8;
    var i := if j <= k || !Splits(m[hs[k]], bytes) then j else j - 1;
    if j != k + 1 { assert gs[j] == hs[i]; }
  }

  /** The words that will be pinned are at rest before the size word is stored. */
  lemma PreparedHeader(a: Pm, s: Pm, hs: seq<nat>, k: nat, bytes: nat, w: nat)
    requires Quiet(s, hs) && Fitting(s.mem, hs, k, bytes) && Prepared(a, s, hs, k, bytes)
    requires Header(ReservedChain(s.mem, hs, k, bytes), w) && w < |s.mem|
    ensures Clean(a, w)
  {
    hide Exec;
    hide State;
    hide Bytes;
    hide Clump;
    hide ClumpOk;
    HeaderOrigin(s.mem, hs, k, bytes, w);
    if exists i :: 0 <= i < |hs| && hs[i] <= w < hs[i] + 8 {
      var i: nat :| i < |hs| && hs[i] <= w < hs[i] + 8;
      PreparedOther(a, s, hs, k, bytes, i, w);
    }
  }

  lemma PreparedVisible(a: Pm, s: Pm, hs: seq<nat>, k: nat, bytes: nat, w: nat)
    requires Quiet(s, hs) && Fitting(s.mem, hs, k, bytes) && Prepared(a, s, hs, k, bytes)
    requires Visible(Living(s.mem, hs), w) && w < |s.mem|
    ensures Clean(a, w)
  {
    assert Pinned(s.mem, hs, w);
    if hs[k] < w < hs[k + 1] { InsideFree(s.mem, hs, k, w); }
  }

  lemma PreparedCarved(a: Pm, s: Pm, hs: seq<nat>, k: nat, bytes: nat)
    requires Quiet(s, hs) && Fitting(s.mem, hs, k, bytes) && Prepared(a, s, hs, k, bytes)
    ensures Carved(a.mem[hs[k] := ReservedSize(s.mem[hs[k]], bytes)], s.mem, hs, k, bytes)
  {
    hide PersistentMemory.Exec;
    hide Recoverable;
    hide ReservedSize;
    hide Clean;
    QuietSize(s, hs);
    var h, m, b := hs[k], s.mem, a.mem[hs[k] := ReservedSize(s.mem[hs[k]], bytes)];
    assert h + 8 <= hs[k + 1];
    if Splits(m[h], bytes) {
      var n := h + bytes / 8;
      forall w | n < w < n + 8 ensures b[w] == 0 { assert a.mem[w] == 0; }
    }
  }

  lemma QuietSize(s: Pm, hs: seq<nat>)
    requires Quiet(s, hs)
    ensures Bounds(hs, |s.mem|)
  {
  }

  lemma PreparedPinned(a: Pm, s: Pm, hs: seq<nat>, k: nat, bytes: nat, b: Image, w: nat)
    requires Quiet(s, hs) && Fitting(s.mem, hs, k, bytes) && Prepared(a, s, hs, k, bytes)
    requires |b| == |s.mem| && Bounds(ReservedChain(s.mem, hs, k, bytes), |b|)
    requires Living(b, ReservedChain(s.mem, hs, k, bytes)) == Living(s.mem, hs)
    requires w < |b| && Pinned(b, ReservedChain(s.mem, hs, k, bytes), w)
    ensures Clean(a, w)
  {
    if Header(ReservedChain(s.mem, hs, k, bytes), w) {
      PreparedHeader(a, s, hs, k, bytes, w);
    } else {
      PreparedVisible(a, s, hs, k, bytes, w);
    }
  }

  /** The last store of a reservation. */
  lemma ReserveFlip(a: Pm, s: Pm, hs: seq<nat>, k: nat, bytes: nat) returns (r: Pm)
    requires Quiet(s, hs) && Fitting(s.mem, hs, k, bytes) && Prepared(a, s, hs, k, bytes)
    requires Sane(a) && Steady(a, s.mem, hs, 0)
    ensures r == Exec(a, SetSize(hs[k], ReservedSize(s.mem[hs[k]], bytes)))
    ensures Carved(r.mem, s.mem, hs, k, bytes)
    ensures Quiet(r, ReservedChain(s.mem, hs, k, bytes))
    ensures ViewOf(r.mem, ReservedChain(s.mem, hs, k, bytes)) == ViewOf(s.mem, hs)
    ensures Guarded(a, SetSize(hs[k], ReservedSize(s.mem[hs[k]], bytes)), Showing({ViewOf(s.mem, hs)}))
  {
    hide State;
    hide Bytes;
    hide Span;
    var h := hs[k];
    var v := ReservedSize(s.mem[h], bytes);
    var b := a.mem[h := v];
    var gs := ReservedChain(s.mem, hs, k, bytes);
    PreparedCarved(a, s, hs, k, bytes);
    CarvedView(b, s.mem, hs, k, bytes);
    CarvedRechained(b, s.mem, hs, k, bytes);
    CarvedReserved(b, s.mem, hs, k, bytes);
    r := Exec(a, SetSize(h, v));
    SetSizeEffect(a, h, v);
    forall w: nat | w < |b| && Pinned(b, gs, w) ensures Clean(a, w) { PreparedPinned(a, s, hs, k, bytes, b, w); }
    ReserveGuard(a, s, hs, h, v, gs);
  }

  lemma ReserveGuard(a: Pm, s: Pm, hs: seq<nat>, h: nat, v: nat, gs: seq<nat>)
    requires Sane(a) && Steady(a, s.mem, hs, 0) && h < |a.mem| && h % 8 == 0
    requires var b := a.mem[h := v];
             Recoverable(b, gs) && NoTransit(b, gs) && ViewOf(b, gs) == ViewOf(s.mem, hs) &&
             forall w: nat :: w < |b| && Pinned(b, gs, w) ==> Clean(a, w)
    ensures Guarded(a, SetSize(h, v), Showing({ViewOf(s.mem, hs)}))
  {
    var b := a.mem[h := v];
    forall w | 0 <= w < |b| && w != h && Relevant(b, gs, 0, w) ensures Clean(a, w) {
      RelevantIsPinned(b, gs, 0, w);
    }
    assert Steady(Pin(a, h, v), b, gs, 0);
    HeaderCovered(h, h);
    Flip(a, h, v, 8 * h, 64, s.mem, hs, 0, b, gs, 0);
    assert {ViewOf(s.mem, hs), ViewOf(b, gs)} == {ViewOf(s.mem, hs)};
  }

  /** A reservation shows nothing at any point, and leaves a chain that tiles the pool. */
  lemma ReserveAtomic(s: Pm, hs: seq<nat>, k: nat, bytes: nat) returns (r: Pm)
    requires Quiet(s, hs) && Fitting(s.mem, hs, k, bytes)
    ensures r == Exec(s, ReserveSteps(s.mem, hs[k], bytes))
    ensures Carved(r.mem, s.mem, hs, k, bytes)
    ensures Quiet(r, ReservedChain(s.mem, hs, k, bytes))
    ensures ViewOf(r.mem, ReservedChain(s.mem, hs, k, bytes)) == ViewOf(s.mem, hs)
    ensures Guarded(s, ReserveSteps(s.mem, hs[k], bytes), Showing({ViewOf(s.mem, hs)}))
  {
    var p := Prepare(s.mem, hs[k], bytes);
    var q := SetSize(hs[k], ReservedSize(s.mem[hs[k]], bytes));
    var a := Exec(s, p);
    PrepareEffect(s, hs, k, bytes);
    PrepareIdle(s, hs, k, bytes);
    r := ReserveFlip(a, s, hs, k, bytes);
    GuardedConcat(s, p, q, Showing({ViewOf(s.mem, hs)}));
    ExecConcat(s, p, q);
  }

  /** What a reservation gives: a reserved clump whose payload holds the request, in a chain that
      loses no byte and keeps every clump in use. */
  lemma ReservedRoom(m: Image, hs: seq<nat>, k: nat, size: nat, b: Image)
    requires Recoverable(m, hs) && NoTransit(m, hs) && size + 127 < TWO_64
    requires Fitting(m, hs, k, ClumpBytes(size)) && Carved(b, m, hs, k, ClumpBytes(size))
    ensures var gs := ReservedChain(m, hs, k, ClumpBytes(size));
            && Tiled(b, gs) && k < |gs| - 1
            && gs[k] == hs[k] && State(b[gs[k]]) == RESERVED
            && size <= 8 * (gs[k + 1] - (gs[k] + 8)) && gs[k] % 8 == 0
            && Carries(m, hs, b, gs)
            && (gs[k + 1] == hs[k + 1] ||
                (k + 2 < |gs| && gs[k + 2] == hs[k + 1] && State(b[gs[k + 1]]) == FREE))
  {
    var bytes := ClumpBytes(size);
    ClumpBytesEnough(size);
    CarvedRechained(b, m, hs, k, bytes);
    ReservedWord(m, hs, k, bytes);
    assert Clump(m, hs, k);
    if Splits(m[hs[k]], bytes) {
      CutInside(m, hs, k, bytes);
      var gs := Split(hs, k, hs[k] + bytes / 8);
      assert gs[k + 1] == hs[k] + bytes / 8 && gs[k + 2] == hs[k + 1];
    }
  }

  /** The clump c of the chain hs has been reserved, leaving b and the chain gs: the first one at or after
      place `from` that is free and has `bytes` bytes.  If 128 bytes or more are left over they become
      a free clump; otherwise the clump is taken as it is.  Both lists are empty. */
  ghost predicate Reserves(m: Image, hs: seq<nat>, from: nat, bytes: nat, c: nat, b: Image, gs: seq<nat>) {
    && |b| == |m| && Bounds(hs, |m|) && Bounds(gs, |m|)
    && exists k: nat :: from <= k && Takes(m, hs, k, bytes, c, b, gs) &&
         forall i :: from <= i < k ==> State(m[hs[i]]) != FREE || 8 * (hs[i + 1] - hs[i]) < bytes
  }

  ghost predicate Takes(m: Image, hs: seq<nat>, k: nat, bytes: nat, c: nat, b: Image, gs: seq<nat>)
    requires |b| == |m| && Bounds(hs, |m|) && Bounds(gs, |m|)
  {
    && k < |hs| - 1 && hs[k] == c && State(m[c]) == FREE && 8 * (hs[k + 1] - c) >= bytes
    && State(b[c]) == RESERVED && b[c + 2] == b[c + 4] == b[c + 6] == 0
    && var left := 8 * (hs[k + 1] - c) - bytes;
       if left >= 128 then
         var n := c + bytes / 8;
         && gs == hs[..k + 1] + [n] + hs[k + 1..] && b[c] == bytes + RESERVED
         && n + 8 <= |b| && b[n] == left + FREE && forall w :: n < w < n + 8 ==> b[w] == 0
       else
         gs == hs && b[c] == bytes + left + RESERVED
  }

  lemma CarvedTakes(m: Image, hs: seq<nat>, k: nat, bytes: nat, b: Image)
    requires Tiled(m, hs) && Fitting(m, hs, k, bytes) && Carved(b, m, hs, k, bytes)
    requires Bounds(ReservedChain(m, hs, k, bytes), |m|)
    ensures Takes(m, hs, k, bytes, hs[k], b, ReservedChain(m, hs, k, bytes))
  {
    assert Clump(m, hs, k);
    ReservedWord(m, hs, k, bytes);
    if Splits(m[hs[k]], bytes) { CutInside(m, hs, k, bytes); }
  }

  /** Clumps before the first fit do not fit. */
  lemma NoneBefore(m: Image, hs: seq<nat>, from: nat, bytes: nat)
    requires Tiled(m, hs) && from < |hs|
    ensures forall i :: from <= i < FirstFit(m, hs, from, bytes) ==>
              State(m[hs[i]]) != FREE || 8 * (hs[i + 1] - hs[i]) < bytes
  {
    hide State;
    forall i | from <= i < FirstFit(m, hs, from, bytes)
      ensures State(m[hs[i]]) != FREE || 8 * (hs[i + 1] - hs[i]) < bytes
    {
      assert Clump(m, hs, i) && !Fits(m[hs[i]], bytes);
      BytesSpan(m[hs[i]]);
    }
  }

  lemma BytesSpan(v: nat)
    ensures Bytes(v) == 8 * Span(v)
  {
  }
}
