/** The second half of activating and of freeing a clump: run the "on" list, clear it from last
    to first, and settle the state.  The same code serves recovery. */
module Finishing {
  import opened PersistentMemory
  import opened PoolImage
  import opened RecoveryFacts
  import opened CrashSafety

  function HeaderFlush(h: nat): Instr { Persist(8 * h, 64) }

  lemma HeaderCovered(h: nat, w: nat)
    requires h % 8 == 0
    ensures Covered(8 * h, 64, w) <==> h <= w < h + 8
  {
  }

  function SetSize(h: nat, v: nat): seq<Instr> { [Store(h, v), HeaderFlush(h)] }

  /** Offsets are cleared from last to first and made durable together. */
  function ClearList(h: nat): seq<Instr> {
    [Store(h + 6, 0), Store(h + 4, 0), Store(h + 2, 0), HeaderFlush(h)]
  }

  function Assign(off: nat, v: nat): seq<Instr> { [Store(off / 8, v), Persist(off, 8)] }

  /** The registered stores, each made durable before the next. */
  function ReplayList(m: Image, h: nat): seq<Instr>
    requires h + 8 <= |m|
  {
    if m[h + 2] == 0 then [] else Assign(m[h + 2], m[h + 3]) + ReplayList1(m, h)
  }

  function ReplayList1(m: Image, h: nat): seq<Instr>
    requires h + 8 <= |m|
  {
    if m[h + 4] == 0 then [] else Assign(m[h + 4], m[h + 5]) + ReplayList2(m, h)
  }

  function ReplayList2(m: Image, h: nat): seq<Instr>
    requires h + 8 <= |m|
  {
    if m[h + 6] == 0 then [] else Assign(m[h + 6], m[h + 7])
  }

  function Finish(m: Image, h: nat): seq<Instr>
    requires h + 8 <= |m|
  {
    ReplayList(m, h) + ClearList(h) + SetSize(h, SettledSize(m[h]))
  }

  // ---------------------------------------------------------------------------------------
  // Running the list
  // ---------------------------------------------------------------------------------------

  lemma AssignEffect(s: Pm, off: nat, v: nat)
    requires Sane(s) && off / 8 < |s.mem|
    ensures var r := Exec(s, Assign(off, v));
            && r.mem == Put(s.mem, off / 8, v)
            && Clean(r, off / 8)
            && forall w :: 0 <= w < |s.mem| && w != off / 8 && Clean(s, w) ==> Clean(r, w)
  {
    var p := Assign(off, v);
    var a := Step(s, p[0]);
    assert p[1..] == [Persist(off, 8)] && p[1..][1..] == [];
    assert Exec(s, p) == Exec(a, p[1..]) == Step(a, Persist(off, 8));
  }

  /** a has the same header at h as m. */
  ghost predicate SameHeader(a: Image, m: Image, h: nat) {
    |a| == |m| && h + 8 <= |m| && forall w :: h <= w < h + 8 ==> a[w] == m[w]
  }

  lemma AssignKeepsHeader(s: Pm, m: Image, hs: seq<nat>, k: nat, off: nat, v: nat)
    requires Sane(s) && Bounds(hs, |m|) && k < |hs| - 1 && SameHeader(s.mem, m, hs[k]) && TargetOffset(hs, off)
    ensures var r := Exec(s, Assign(off, v));
            && r.mem == Put(s.mem, off / 8, v) && SameHeader(r.mem, m, hs[k])
            && Clean(r, off / 8)
            && forall w :: 0 <= w < |m| && Clean(s, w) ==> Clean(r, w)
  {
    PutOutside(m, hs, off, v);
    OutsideHeader(hs, k, off / 8);
    AssignEffect(s, off, v);
  }

  lemma ReplayEffect2(s: Pm, m: Image, hs: seq<nat>, k: nat)
    requires Sane(s) && Bounds(hs, |m|) && k < |hs| - 1 && SameHeader(s.mem, m, hs[k])
    requires m[hs[k] + 6] != 0 ==> TargetOffset(hs, m[hs[k] + 6])
    ensures var r := Exec(s, ReplayList2(m, hs[k]));
            && r.mem == ReplayFrom2(s.mem, hs[k])
            && (m[hs[k] + 6] != 0 ==> Clean(r, m[hs[k] + 6] / 8))
            && forall w :: 0 <= w < |m| && Clean(s, w) ==> Clean(r, w)
  {
    if m[hs[k] + 6] != 0 { AssignKeepsHeader(s, m, hs, k, m[hs[k] + 6], m[hs[k] + 7]); }
  }

  lemma ReplayEffect1(s: Pm, m: Image, hs: seq<nat>, k: nat)
    requires Sane(s) && Bounds(hs, |m|) && k < |hs| - 1 && SameHeader(s.mem, m, hs[k])
    requires m[hs[k] + 4] != 0 ==> TargetOffset(hs, m[hs[k] + 4])
    requires m[hs[k] + 4] != 0 && m[hs[k] + 6] != 0 ==> TargetOffset(hs, m[hs[k] + 6])
    ensures var r := Exec(s, ReplayList1(m, hs[k]));
            && r.mem == ReplayFrom1(s.mem, hs[k])
            && (m[hs[k] + 4] != 0 ==> Clean(r, m[hs[k] + 4] / 8))
            && (m[hs[k] + 4] != 0 && m[hs[k] + 6] != 0 ==> Clean(r, m[hs[k] + 6] / 8))
            && forall w :: 0 <= w < |m| && Clean(s, w) ==> Clean(r, w)
  {
    if m[hs[k] + 4] != 0 {
      AssignKeepsHeader(s, m, hs, k, m[hs[k] + 4], m[hs[k] + 5]);
      ExecConcat(s, Assign(m[hs[k] + 4], m[hs[k] + 5]), ReplayList2(m, hs[k]));
      ReplayEffect2(Exec(s, Assign(m[hs[k] + 4], m[hs[k] + 5])), m, hs, k);
    }
  }

  lemma ReplayEffect0(s: Pm, hs: seq<nat>, k: nat)
    requires Sane(s) && Bounds(hs, |s.mem|) && k < |hs| - 1
    requires var m, h := s.mem, hs[k];
             && (m[h + 2] != 0 ==> TargetOffset(hs, m[h + 2]))
             && (m[h + 2] != 0 && m[h + 4] != 0 ==> TargetOffset(hs, m[h + 4]))
             && (m[h + 2] != 0 && m[h + 4] != 0 && m[h + 6] != 0 ==> TargetOffset(hs, m[h + 6]))
    ensures var m, h := s.mem, hs[k]; var r := Exec(s, ReplayList(m, h));
            && r.mem == Replay(m, h)
            && (m[h + 2] != 0 ==> Clean(r, m[h + 2] / 8))
            && (m[h + 2] != 0 && m[h + 4] != 0 ==> Clean(r, m[h + 4] / 8))
            && (m[h + 2] != 0 && m[h + 4] != 0 && m[h + 6] != 0 ==> Clean(r, m[h + 6] / 8))
            && forall w :: 0 <= w < |m| && Clean(s, w) ==> Clean(r, w)
  {
    var m, h := s.mem, hs[k];
    if m[h + 2] != 0 {
      AssignKeepsHeader(s, m, hs, k, m[h + 2], m[h + 3]);
      ExecConcat(s, Assign(m[h + 2], m[h + 3]), ReplayList1(m, h));
      ReplayEffect1(Exec(s, Assign(m[h + 2], m[h + 3])), m, hs, k);
    }
  }

  /** The k-th clump's list: everything it stores is clean afterwards. */
  lemma ReplayEffect(s: Pm, hs: seq<nat>, k: nat)
    requires Sane(s) && Bounds(hs, |s.mem|) && k < |hs| - 1 && ListOk(s.mem, hs, hs[k])
    ensures var r := Exec(s, ReplayList(s.mem, hs[k]));
            && r.mem == Replay(s.mem, hs[k])
            && (forall w :: 0 <= w < |s.mem| && (Dest(s.mem, hs[k], w) || Clean(s, w)) ==> Clean(r, w))
  {
    hide PersistentMemory.Exec;
    hide ReplayList;
    hide Replay;
    ReplayEffect0(s, hs, k);
  }

  /** Destinations of the list in transit do not matter before the list is cleared. */
  lemma ReplayIdle(m: Image, hs: seq<nat>, k: nat)
    requires Recoverable(m, hs) && OnlyTransit(m, hs, k) && Transit(m[hs[k]])
    ensures forall i :: 0 <= i < |ReplayList(m, hs[k])| ==> Idle(ReplayList(m, hs[k])[i], m, hs, k)
  {
    var h := hs[k];
    var p := ReplayList(m, h);
    assert ClumpOk(m, hs, k);
    forall i | 0 <= i < |p| && p[i].Store? ensures !Relevant(m, hs, k, p[i].w) {
      var w := p[i].w;
      assert Dest(m, h, w);
      assert Target(hs, w);
      TargetIsNoHeader(hs, |m|, w);
    }
  }

  // ---------------------------------------------------------------------------------------
  // Clearing the list
  // ---------------------------------------------------------------------------------------

  predicate OffWord(h: nat, w: nat) { w == h + 2 || w == h + 4 || w == h + 6 }

  /** All destinations already hold what the list stores. */
  ghost predicate Done(m: Image, h: nat)
    requires h + 8 <= |m|
  {
    forall w :: 0 <= w < |m| && Dest(m, h, w) ==> m[w] == ReplayAt(m, h, w)
  }

  /** A list whose offsets have been cleared in part. */
  ghost predicate PartlyCleared(img: Image, m: Image, hs: seq<nat>, k: nat)
    requires Bounds(hs, |m|) && k < |hs| - 1
  {
    && |img| == |m|
    && (forall w :: 0 <= w < |m| && (Relevant(m, hs, k, w) || Dest(m, hs[k], w)) && !OffWord(hs[k], w) ==>
        img[w] == m[w])
    && (forall w :: 0 <= w < |m| && OffWord(hs[k], w) ==> img[w] == m[w] || img[w] == 0)
  }

  lemma PartlyClearedRecoverable(img: Image, m: Image, hs: seq<nat>, k: nat)
    requires Recoverable(m, hs) && OnlyTransit(m, hs, k) && Transit(m[hs[k]])
    requires PartlyCleared(img, m, hs, k)
    ensures Recoverable(img, hs) && OnlyTransit(img, hs, k)
    ensures forall i :: 0 <= i < |hs| ==> img[hs[i]] == m[hs[i]]
    ensures forall w :: w == hs[k] + 3 || w == hs[k] + 5 || w == hs[k] + 7 ==> img[w] == m[w]
  {
    var h := hs[k];
    forall i | 0 <= i < |hs| ensures img[hs[i]] == m[hs[i]] {
      assert RelevantHeader(m, hs, i, hs[i]);
      assert hs[i] % 8 == 0 && h % 8 == 0;
    }
    assert RelevantHeader(m, hs, k, h + 3) && RelevantHeader(m, hs, k, h + 5) && RelevantHeader(m, hs, k, h + 7);
    forall i | 0 <= i < |hs| - 1 ensures Clump(img, hs, i) && ClumpOk(img, hs, i) {
      assert Clump(m, hs, i) && ClumpOk(m, hs, i);
      if i == k {
        assert OffWord(h, h + 2) && OffWord(h, h + 4) && OffWord(h, h + 6);
      } else if State(m[hs[i]]) == ACTIVE {
        assert RelevantHeader(m, hs, i, hs[i] + 2) && RelevantHeader(m, hs, i, hs[i] + 4)
            && RelevantHeader(m, hs, i, hs[i] + 6);
        HeadersApart(hs, |m|, i, k);
      }
    }
  }

  /** Replaying part of a consistent list whose stores are done changes nothing. */
  lemma PartialReplay(img: Image, m: Image, hs: seq<nat>, k: nat, w: nat)
    requires Recoverable(m, hs) && OnlyTransit(m, hs, k) && Transit(m[hs[k]])
    requires Consistent(m, hs[k]) && Done(m, hs[k]) && PartlyCleared(img, m, hs, k)
    requires w < |m| && Visible(Living(m, hs), w)
    ensures ReplayAt(img, hs[k], w) == ReplayAt(m, hs[k], w)
  {
    hide Exec;
    var h := hs[k];
    PartlyClearedRecoverable(img, m, hs, k);
    assert ClumpOk(m, hs, k);
    VisibleIsTarget(m, hs, w);
    TargetIsNoHeader(hs, |m|, w);
    OutsideHeader(hs, k, w);
    assert OffWord(h, h + 2) && OffWord(h, h + 4) && OffWord(h, h + 6);
    if Dest(m, h, w) {
      assert m[w] == ReplayAt(m, h, w);
    } else {
      assert Relevant(m, hs, k, w);
    }
  }

  lemma PartlyClearedShows(img: Image, m: Image, hs: seq<nat>, k: nat)
    requires Recoverable(m, hs) && OnlyTransit(m, hs, k) && Transit(m[hs[k]])
    requires Consistent(m, hs[k]) && Done(m, hs[k]) && PartlyCleared(img, m, hs, k)
    ensures Shows(img, {ViewOf(m, hs)})
  {
    PartlyClearedRecoverable(img, m, hs, k);
    ChainUnique(img, hs);
    assert Living(img, hs) == Living(m, hs);
    forall w: nat | w < |img| && Visible(Living(m, hs), w) ensures Seen(img, hs, k, w) == Seen(m, hs, k, w) {
      PartialReplay(img, m, hs, k, w);
    }
    SameView(img, hs, k, m, hs, k);
  }

  /** The same for a whole state: everything a crash can leave is a partly cleared list. */
  ghost predicate Clearing(s: Pm, m: Image, hs: seq<nat>, k: nat) {
    && Sane(s) && Bounds(hs, |m|) && k < |hs| - 1 && |s.mem| == |m|
    && (forall w :: 0 <= w < |m| && (Relevant(m, hs, k, w) || Dest(m, hs[k], w)) && !OffWord(hs[k], w) ==>
          s.mem[w] == m[w] && s.may[w] == {m[w]})
    && (forall w :: 0 <= w < |m| && OffWord(hs[k], w) ==> s.may[w] <= {m[w], 0})
  }

  lemma ClearingSafe(s: Pm, m: Image, hs: seq<nat>, k: nat)
    requires Recoverable(m, hs) && OnlyTransit(m, hs, k) && Transit(m[hs[k]])
    requires Consistent(m, hs[k]) && Done(m, hs[k]) && Clearing(s, m, hs, k)
    ensures Safe(s, Showing({ViewOf(m, hs)}))
  {
    forall img | Survives(s.may, img) ensures img in Showing({ViewOf(m, hs)}) {
      forall w | 0 <= w < |m| ensures img[w] in s.may[w] {}
      PartlyClearedShows(img, m, hs, k);
    }
  }

  lemma {:induction false} ClearingProgram(s: Pm, prog: seq<Instr>, m: Image, hs: seq<nat>, k: nat)
    requires Recoverable(m, hs) && OnlyTransit(m, hs, k) && Transit(m[hs[k]])
    requires Consistent(m, hs[k]) && Done(m, hs[k]) && Clearing(s, m, hs, k)
    requires forall i :: 0 <= i < |prog| && prog[i].Store? ==> OffWord(hs[k], prog[i].w) && prog[i].v == 0
    ensures Clearing(Exec(s, prog), m, hs, k)
    ensures Guarded(s, prog, Showing({ViewOf(m, hs)}))
    decreases |prog|
  {
    ClearingSafe(s, m, hs, k);
    if prog != [] {
      var r := Step(s, prog[0]);
      assert Clearing(r, m, hs, k);
      ClearingProgram(r, prog[1..], m, hs, k);
    }
  }

  lemma ClearEffect(s: Pm, h: nat)
    requires Sane(s) && h % 8 == 0 && h + 8 <= |s.mem|
    ensures var r := Exec(s, ClearList(h));
            && r.mem == Clear(s.mem, h)
            && (forall w :: h <= w < h + 8 ==> Clean(r, w))
            && (forall w :: 0 <= w < |s.mem| && Clean(s, w) ==> Clean(r, w))
  {
    var p := ClearList(h);
    var a := Step(s, p[0]);
    var b := Step(a, p[1]);
    var c := Step(b, p[2]);
    var d := Step(c, p[3]);
    assert p[1..] == [p[1], p[2], p[3]] && p[1..][1..] == [p[2], p[3]];
    assert p[1..][1..][1..] == [p[3]] && p[1..][1..][1..][1..] == [];
    assert Exec(s, p) == Exec(a, p[1..]) == Exec(b, p[1..][1..]) == Exec(c, [p[3]]) == Exec(d, []) == d;
    forall w | h <= w < h + 8 ensures Clean(d, w) { HeaderCovered(h, w); }
  }

  lemma SetSizeEffect(s: Pm, h: nat, v: nat)
    requires Sane(s) && h % 8 == 0 && h + 8 <= |s.mem|
    ensures var r := Exec(s, SetSize(h, v));
            && r.mem == s.mem[h := v]
            && (forall w :: h <= w < h + 8 ==> Clean(r, w))
            && (forall w :: 0 <= w < |s.mem| && Clean(s, w) ==> Clean(r, w))
  {
    var p := SetSize(h, v);
    var a := Step(s, p[0]);
    var b := Step(a, p[1]);
    assert p[1..] == [p[1]] && p[1..][1..] == [];
    assert Exec(s, p) == Exec(a, p[1..]) == b;
    forall w | h <= w < h + 8 ensures Clean(b, w) { HeaderCovered(h, w); }
  }

  // ---------------------------------------------------------------------------------------
  // Settling the state
  // ---------------------------------------------------------------------------------------

  predicate EmptyList(m: Image, h: nat)
    requires h + 8 <= |m|
  {
    m[h + 2] == 0 && m[h + 4] == 0 && m[h + 6] == 0
  }

  function SettledSize(v: nat): nat { Bytes(v) + Settled(State(v)) }

  /** m' is m with another state in the size word of clump k. */
  ghost predicate Restated(m': Image, m: Image, hs: seq<nat>, k: nat) {
    && Bounds(hs, |m|) && k < |hs| - 1 && |m'| == |m|
    && Span(m'[hs[k]]) == Span(m[hs[k]]) && State(m'[hs[k]]) <= FREEING
    && m' == m[hs[k] := m'[hs[k]]]
  }

  lemma RestatedHeaders(m': Image, m: Image, hs: seq<nat>, k: nat, i: nat)
    requires Restated(m', m, hs, k) && i < |hs| && i != k
    ensures forall w :: hs[i] <= w < hs[i] + 8 ==> m'[w] == m[w]
  {
    HeadersApart(hs, |m|, i, k);
  }

  lemma RestatedTiled(m': Image, m: Image, hs: seq<nat>, k: nat)
    requires Restated(m', m, hs, k) && Tiled(m, hs)
    ensures Tiled(m', hs)
  {
    RestatedHeaders(m', m, hs, k, |hs| - 1);
    forall i | 0 <= i < |hs| - 1 ensures Clump(m', hs, i) {
      assert Clump(m, hs, i);
      if i != k { RestatedHeaders(m', m, hs, k, i); }
    }
  }

  /** Lists keep what they name as long as clump k stays active if it was. */
  lemma RestatedReaches(m': Image, m: Image, hs: seq<nat>, k: nat, owner: nat, off: nat)
    requires Restated(m', m, hs, k) && ReachOffset(m, hs, owner, off)
    requires (State(m[hs[k]]) == ACTIVE || (owner == RESERVED && State(m[hs[k]]) == RESERVED)) ==>
               State(m'[hs[k]]) == ACTIVE || (owner == RESERVED && State(m'[hs[k]]) == RESERVED)
    ensures ReachOffset(m', hs, owner, off)
  {
    var w := off / 8;
    if !Static(w) {
      var j: nat :| Inside(hs, j, w) && Allows(owner, State(m[hs[j]]));
      if j != k { RestatedHeaders(m', m, hs, k, j); }
      assert Allows(owner, State(m'[hs[j]]));
    }
  }

  lemma SettleRecoverable(m: Image, hs: seq<nat>, k: nat)
    requires Recoverable(m, hs) && OnlyTransit(m, hs, k) && Transit(m[hs[k]]) && EmptyList(m, hs[k])
    ensures var m' := m[hs[k] := SettledSize(m[hs[k]])];
            Restated(m', m, hs, k) && Recoverable(m', hs) && OnlyTransit(m', hs, k)
  {
    var h := hs[k];
    var m' := m[h := SettledSize(m[h])];
    SizeWord(Bytes(m[h]), Settled(State(m[h])));
    RestatedTiled(m', m, hs, k);
    forall i | 0 <= i < |hs| - 1 ensures ClumpOk(m', hs, i) && (i != k ==> !Transit(m'[hs[i]])) {
      assert ClumpOk(m, hs, i);
      if i != k {
        RestatedHeaders(m', m, hs, k, i);
        if State(m[hs[i]]) == ACTIVE {
          if m[hs[i] + 2] != 0 { RestatedReaches(m', m, hs, k, ACTIVE, m[hs[i] + 2]); }
          if m[hs[i] + 4] != 0 { RestatedReaches(m', m, hs, k, ACTIVE, m[hs[i] + 4]); }
          if m[hs[i] + 6] != 0 { RestatedReaches(m', m, hs, k, ACTIVE, m[hs[i] + 6]); }
        }
      }
    }
  }

  /** With the list gone, settling the state changes no view. */
  lemma SettleView(m: Image, hs: seq<nat>, k: nat)
    requires Recoverable(m, hs) && OnlyTransit(m, hs, k) && Transit(m[hs[k]]) && EmptyList(m, hs[k])
    ensures var m' := m[hs[k] := SettledSize(m[hs[k]])];
            Recoverable(m', hs) && OnlyTransit(m', hs, k) && ViewOf(m', hs) == ViewOf(m, hs)
                && Living(m', hs) == Living(m, hs)
  {
    hide Exec;
    var h := hs[k];
    var m' := m[h := SettledSize(m[h])];
    SizeWord(Bytes(m[h]), Settled(State(m[h])));
    SettleRecoverable(m, hs, k);
    assert Living(m', hs) == Living(m, hs);
    forall w: nat | w < |m| && Visible(Living(m, hs), w) ensures Seen(m', hs, k, w) == Seen(m, hs, k, w) {
      VisibleIsTarget(m, hs, w);
      TargetIsNoHeader(hs, |m|, w);
      OutsideHeader(hs, k, w);
    }
    SameView(m', hs, k, m, hs, k);
  }

  lemma SettlePhase(s: Pm, m: Image, hs: seq<nat>, k: nat)
    requires Steady(s, m, hs, k) && Transit(m[hs[k]]) && EmptyList(m, hs[k])
    ensures var m' := m[hs[k] := SettledSize(m[hs[k]])]; var p := SetSize(hs[k], SettledSize(m[hs[k]]));
            && Steady(Exec(s, p), m', hs, k)
            && Guarded(s, p, Showing({ViewOf(m, hs)}))
  {
    var h := hs[k];
    var v := SettledSize(m[h]);
    var m' := m[h := v];
    SettleView(m, hs, k);
    forall w | 0 <= w < |m| && w != h && Relevant(m', hs, k, w) ensures s.mem[w] == m[w] && s.may[w] == {m[w]} {
      SettledRelevant(m, hs, k, w);
    }
    HeaderCovered(h, h);
    Flip(s, h, v, 8 * h, 64, m, hs, k, m', hs, k);
    assert {ViewOf(m, hs), ViewOf(m', hs)} == {ViewOf(m, hs)};
  }

  lemma SettledRelevant(m: Image, hs: seq<nat>, k: nat, w: nat)
    requires Recoverable(m, hs) && OnlyTransit(m, hs, k) && Transit(m[hs[k]]) && EmptyList(m, hs[k])
    requires w < |m| && w != hs[k] && Relevant(m[hs[k] := SettledSize(m[hs[k]])], hs, k, w)
    ensures Relevant(m, hs, k, w)
  {
    var m' := m[hs[k] := SettledSize(m[hs[k]])];
    SettleView(m, hs, k);
    if i :| 0 <= i < |hs| && RelevantHeader(m', hs, i, w) {
      if i != k { HeadersApart(hs, |m|, i, k); }
      assert RelevantHeader(m, hs, i, w);
    }
  }

  // ---------------------------------------------------------------------------------------
  // The three phases together
  // ---------------------------------------------------------------------------------------

  lemma ShowsView(img: Image, hs: seq<nat>, v: View)
    requires Tiled(img, hs) && Shows(img, {v})
    ensures ViewOf(img, hs) == v
  {
    ChainUnique(img, hs);
  }

  lemma SameRelevant(a: Image, m: Image, hs: seq<nat>, k: nat, w: nat)
    requires Bounds(hs, |m|) && k < |hs| - 1 && SameHeader(a, m, hs[k]) && w < |m|
    requires forall i :: 0 <= i < |hs| ==> a[hs[i]] == m[hs[i]]
    requires Relevant(a, hs, k, w)
    ensures Relevant(m, hs, k, w)
  {
    assert Living(a, hs) == Living(m, hs);
    if i :| 0 <= i < |hs| && RelevantHeader(a, hs, i, w) {
      assert RelevantHeader(m, hs, i, w);
    }
  }

  /** Running the list shows nothing new and leaves its own header alone. */
  lemma ReplayView(s: Pm, hs: seq<nat>, k: nat)
    requires Steady(s, s.mem, hs, k) && Transit(s.mem[hs[k]])
    ensures var r := Exec(s, ReplayList(s.mem, hs[k]));
            && Guarded(s, ReplayList(s.mem, hs[k]), Showing({ViewOf(s.mem, hs)}))
            && Steady(r, s.mem, hs, k) && Agrees(r.mem, s.mem, hs, k)
            && Recoverable(r.mem, hs) && OnlyTransit(r.mem, hs, k) && ViewOf(r.mem, hs) == ViewOf(s.mem, hs)
            && (forall i :: 0 <= i < |hs| ==> r.mem[hs[i]] == s.mem[hs[i]])
  {
    var m, h := s.mem, hs[k];
    ReplayIdle(m, hs, k);
    IdleProgram(s, ReplayList(m, h), m, hs, k);
    var r := Exec(s, ReplayList(m, h));
    AgreesRecoverable(r.mem, m, hs, k);
    AgreesShows(r.mem, m, hs, k);
    ShowsView(r.mem, hs, ViewOf(m, hs));
  }

  lemma ReplayHeader(m: Image, hs: seq<nat>, k: nat)
    requires Bounds(hs, |m|) && k < |hs| - 1 && ListOk(m, hs, hs[k])
    ensures SameHeader(Replay(m, hs[k]), m, hs[k])
    ensures Consistent(m, hs[k]) ==> Done(Replay(m, hs[k]), hs[k])
  {
    var h := hs[k];
    var r := Replay(m, h);
    ReplayPoint(m, hs, k);
    forall w | h <= w < h + 8 ensures r[w] == m[w] {
      assert Header(hs, w);
      ReplayKeepsHeaders(m, hs, k, w);
    }
  }

  /** After the list has run: same view, and every store of the list is done and durable. */
  lemma ReplayPhase(s: Pm, hs: seq<nat>, k: nat)
    requires Steady(s, s.mem, hs, k) && Transit(s.mem[hs[k]]) && Consistent(s.mem, hs[k])
    ensures var r := Exec(s, ReplayList(s.mem, hs[k]));
            && Guarded(s, ReplayList(s.mem, hs[k]), Showing({ViewOf(s.mem, hs)}))
            && r.mem == Replay(s.mem, hs[k])
            && Recoverable(r.mem, hs) && OnlyTransit(r.mem, hs, k) && ViewOf(r.mem, hs) == ViewOf(s.mem, hs)
            && SameHeader(r.mem, s.mem, hs[k]) && Done(r.mem, hs[k]) && Clearing(r, r.mem, hs, k)
  {
    var m, h := s.mem, hs[k];
    assert ClumpOk(m, hs, k);
    ReplayView(s, hs, k);
    ReplayEffect(s, hs, k);
    ReplayHeader(m, hs, k);
    ClearingFrom(Exec(s, ReplayList(m, h)), m, hs, k);
  }

  lemma ClearingFrom(r: Pm, m: Image, hs: seq<nat>, k: nat)
    requires Steady(r, m, hs, k) && Transit(m[hs[k]]) && SameHeader(r.mem, m, hs[k])
    requires forall i :: 0 <= i < |hs| ==> r.mem[hs[i]] == m[hs[i]]
    requires forall w :: 0 <= w < |m| && Dest(m, hs[k], w) ==> Clean(r, w)
    ensures Clearing(r, r.mem, hs, k)
  {
    var h := hs[k];
    forall w | 0 <= w < |m| && Relevant(r.mem, hs, k, w) ensures r.may[w] == {m[w]} && r.mem[w] == m[w] {
      SameRelevant(r.mem, m, hs, k, w);
    }
    forall w | 0 <= w < |m| && Dest(r.mem, h, w) ensures Clean(r, w) {
      assert Dest(m, h, w);
    }
    forall w | 0 <= w < |m| && OffWord(h, w) ensures r.may[w] <= {r.mem[w], 0} {
      assert RelevantHeader(r.mem, hs, k, w);
    }
  }

  /** After the list has been cleared: same view, empty list, everything relevant at rest. */
  lemma ClearPhase(s: Pm, hs: seq<nat>, k: nat)
    requires Recoverable(s.mem, hs) && OnlyTransit(s.mem, hs, k) && Transit(s.mem[hs[k]])
    requires Consistent(s.mem, hs[k]) && Done(s.mem, hs[k]) && Clearing(s, s.mem, hs, k)
    ensures var r := Exec(s, ClearList(hs[k]));
            && Guarded(s, ClearList(hs[k]), Showing({ViewOf(s.mem, hs)}))
            && r.mem == Clear(s.mem, hs[k])
            && r.mem[hs[k]] == s.mem[hs[k]]
            && Steady(r, r.mem, hs, k) && ViewOf(r.mem, hs) == ViewOf(s.mem, hs)
  {
    hide Shows;
    hide Showing;
    hide State;
    hide PersistentMemory.Exec;
    var m, h := s.mem, hs[k];
    var r := Exec(s, ClearList(h));
    assert OffWord(h, h + 2) && OffWord(h, h + 4) && OffWord(h, h + 6);
    ClearingProgram(s, ClearList(h), m, hs, k);
    ClearEffect(s, h);
    assert PartlyCleared(r.mem, m, hs, k);
    PartlyClearedRecoverable(r.mem, m, hs, k);
    PartlyClearedShows(r.mem, m, hs, k);
    ShowsView(r.mem, hs, ViewOf(m, hs));
    forall w | 0 <= w < |m| && Relevant(r.mem, hs, k, w) ensures Clean(r, w) {
      ClearedRelevant(r.mem, m, hs, k, w);
    }
  }

  lemma ClearedRelevant(a: Image, m: Image, hs: seq<nat>, k: nat, w: nat)
    requires Bounds(hs, |m|) && k < |hs| - 1 && w < |m|
    requires a == Clear(m, hs[k])
    requires Relevant(a, hs, k, w)
    ensures hs[k] <= w < hs[k] + 8 || Relevant(m, hs, k, w) || Dest(m, hs[k], w)
  {
    forall i | 0 <= i < |hs| ensures a[hs[i]] == m[hs[i]] { if i != k { HeadersApart(hs, |m|, i, k); } }
    assert Living(a, hs) == Living(m, hs);
    if i :| 0 <= i < |hs| && RelevantHeader(a, hs, i, w) {
      if i != k { assert RelevantHeader(m, hs, i, w); }
    }
  }

  lemma ReplayThenClear(s: Pm, hs: seq<nat>, k: nat)
    requires Steady(s, s.mem, hs, k) && Transit(s.mem[hs[k]]) && Consistent(s.mem, hs[k])
    ensures var prog := ReplayList(s.mem, hs[k]) + ClearList(hs[k]); var r := Exec(s, prog);
            && Guarded(s, prog, Showing({ViewOf(s.mem, hs)}))
            && r.mem == Clear(Replay(s.mem, hs[k]), hs[k])
            && r.mem[hs[k]] == s.mem[hs[k]]
            && Steady(r, r.mem, hs, k) && ViewOf(r.mem, hs) == ViewOf(s.mem, hs)
  {
    var p, q := ReplayList(s.mem, hs[k]), ClearList(hs[k]);
    ReplayPhase(s, hs, k);
    ClearPhase(Exec(s, p), hs, k);
    GuardedConcat(s, p, q, Showing({ViewOf(s.mem, hs)}));
    ExecConcat(s, p, q);
  }

  /** What finishing leaves: the settled clump, with its header and destinations at rest. */
  lemma FinishEffect(s: Pm, hs: seq<nat>, k: nat)
    requires Sane(s) && Bounds(hs, |s.mem|) && k < |hs| - 1 && ListOk(s.mem, hs, hs[k]) && Transit(s.mem[hs[k]])
    ensures var r := Exec(s, Finish(s.mem, hs[k]));
            && r.mem == ResolveClump(s.mem, hs[k])
            && forall w :: 0 <= w < |s.mem| && (hs[k] <= w < hs[k] + 8 || Dest(s.mem, hs[k], w) || Clean(s, w)) ==>
                Clean(r, w)
  {
    hide PersistentMemory.Exec;
    var m, h := s.mem, hs[k];
    var p, q := ReplayList(m, h), ClearList(h);
    var u := SetSize(h, SettledSize(m[h]));
    ReplayEffect(s, hs, k);
    ClearEffect(Exec(s, p), h);
    SetSizeEffect(Exec(Exec(s, p), q), h, SettledSize(m[h]));
    ExecConcat(s, p, q);
    ExecConcat(s, p + q, u);
    assert Finish(m, h) == p + q + u;
  }

  lemma SettleSteady(s: Pm, hs: seq<nat>, k: nat, v: View)
    requires Steady(s, s.mem, hs, k) && Transit(s.mem[hs[k]]) && EmptyList(s.mem, hs[k]) && v == ViewOf(s.mem, hs)
    ensures var p := SetSize(hs[k], SettledSize(s.mem[hs[k]])); var r := Exec(s, p);
            && Guarded(s, p, Showing({v}))
            && Steady(r, r.mem, hs, k) && ViewOf(r.mem, hs) == v
  {
    SettlePhase(s, s.mem, hs, k);
    SettleView(s.mem, hs, k);
    SetSizeEffect(s, hs[k], SettledSize(s.mem[hs[k]]));
  }

  /** From the moment the state is ACTIVATING or FREEING, finishing the transition never shows
      anything but the finished transition. */
  lemma FinishAtomic(s: Pm, hs: seq<nat>, k: nat)
    requires Steady(s, s.mem, hs, k) && Transit(s.mem[hs[k]]) && Consistent(s.mem, hs[k])
    ensures var prog := Finish(s.mem, hs[k]); var r := Exec(s, prog);
            && Guarded(s, prog, Showing({ViewOf(s.mem, hs)}))
            && Steady(r, r.mem, hs, k) && ViewOf(r.mem, hs) == ViewOf(s.mem, hs)
  {
    var p := ReplayList(s.mem, hs[k]) + ClearList(hs[k]);
    var u := SetSize(hs[k], SettledSize(s.mem[hs[k]]));
    var v := ViewOf(s.mem, hs);
    ReplayThenClear(s, hs, k);
    SettleSteady(Exec(s, p), hs, k, v);
    GuardedConcat(s, p, u, Showing({v}));
    ExecConcat(s, p, u);
  }
}
