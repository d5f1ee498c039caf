/** What crashes leave in the headers of clumps in use: a call touches the header of its own clump
    only, and a clump that a crash leaves ACTIVE has a list nobody has begun to clear. */
module Leftovers {
  import opened PersistentMemory
  import opened PoolImage
  import opened RecoveryFacts
  import opened CrashSafety
  import opened Finishing
  import opened Activation
  import opened Rechaining
  import opened Coalescing
  import opened Reserving
  import opened Registering
  import opened Recovering
  import opened Calls
  import opened Runs
  import opened Allocator

  // ---------------------------------------------------------------------------------------
  // Words a program leaves alone
  // ---------------------------------------------------------------------------------------

  /** No store into the words `ws`. */
  ghost predicate Spares(prog: seq<Instr>, ws: set<nat>) {
    forall i :: 0 <= i < |prog| && prog[i].Store? ==> prog[i].w !in ws
  }

  ghost predicate AtRest(s: Pm, ws: set<nat>) {
    forall w :: w in ws ==> Clean(s, w)
  }

  /** The images that agree with m on the words `ws`. */
  ghost function Keeping(m: Image, ws: set<nat>): iset<Image> {
    iset img: Image | |img| == |m| && forall w :: w in ws ==> w < |m| && img[w] == m[w]
  }

  lemma SparesRest(prog: seq<Instr>, ws: set<nat>)
    requires Spares(prog, ws) && prog != []
    ensures Spares(prog[1..], ws) && (prog[0].Store? ==> prog[0].w !in ws)
  {
    assert forall i :: 0 <= i < |prog[1..]| ==> prog[1..][i] == prog[i + 1];
  }

  lemma RestSafe(s: Pm, ws: set<nat>)
    requires Sane(s) && AtRest(s, ws)
    ensures Safe(s, Keeping(s.mem, ws))
  {
    forall img | Survives(s.may, img) ensures img in Keeping(s.mem, ws) {
      forall w | w in ws ensures w < |s.mem| && img[w] == s.mem[w] {
        assert Clean(s, w);
        assert img[w] in s.may[w];
      }
    }
  }

  lemma StepRests(s: Pm, i: Instr, ws: set<nat>)
    requires Sane(s) && AtRest(s, ws) && (i.Store? ==> i.w !in ws)
    ensures AtRest(Step(s, i), ws) && forall w :: w in ws ==> w < |s.mem| && Step(s, i).mem[w] == s.mem[w]
  {
    forall w | w in ws ensures Clean(Step(s, i), w) && w < |s.mem| && Step(s, i).mem[w] == s.mem[w] {
      assert Clean(s, w);
    }
  }

  /** No crash in the program changes words that are at rest and that it spares. */
  lemma {:induction false} SparedGuard(s: Pm, prog: seq<Instr>, ws: set<nat>)
    requires Sane(s) && AtRest(s, ws) && Spares(prog, ws)
    ensures Guarded(s, prog, Keeping(s.mem, ws))
    ensures AtRest(Exec(s, prog), ws) && Exec(s, prog).mem in Keeping(s.mem, ws)
    decreases |prog|
  {
    RestSafe(s, ws);
    if prog != [] {
      SparesRest(prog, ws);
      StepRests(s, prog[0], ws);
      var r := Step(s, prog[0]);
      SparedGuard(r, prog[1..], ws);
      assert Keeping(r.mem, ws) <= Keeping(s.mem, ws);
      GuardedWiden(r, prog[1..], Keeping(r.mem, ws), Keeping(s.mem, ws));
    } else {
      forall w | w in ws ensures w < |s.mem| { assert Clean(s, w); }
    }
  }

  lemma {:induction false} GuardedBoth(s: Pm, prog: seq<Instr>, a: iset<Image>, b: iset<Image>)
    requires Sane(s) && Guarded(s, prog, a) && Guarded(s, prog, b)
    ensures Guarded(s, prog, a * b)
    decreases |prog|
  {
    if prog != [] { GuardedBoth(Step(s, prog[0]), prog[1..], a, b); }
  }

  // ---------------------------------------------------------------------------------------
  // A word that stays out of some states
  // ---------------------------------------------------------------------------------------

  /** The images in which word w is not the size word of an ACTIVE clump. */
  ghost function NotActive(w: nat): iset<Image> {
    iset img: Image | w < |img| && State(img[w]) != ACTIVE
  }

  ghost predicate NeverActive(prog: seq<Instr>, w: nat) {
    forall i :: 0 <= i < |prog| && prog[i].Store? && prog[i].w == w ==> State(prog[i].v) != ACTIVE
  }

  ghost predicate Inactive(s: Pm, w: nat) {
    w < |s.mem| && w < |s.may| && forall v :: v in s.may[w] ==> State(v) != ACTIVE
  }

  lemma {:induction false} InactiveGuard(s: Pm, prog: seq<Instr>, w: nat)
    requires Sane(s) && Inactive(s, w) && NeverActive(prog, w)
    ensures Guarded(s, prog, NotActive(w))
    decreases |prog|
  {
    hide State;
    forall img | Survives(s.may, img) ensures img in NotActive(w) { assert img[w] in s.may[w]; }
    if prog != [] {
      assert forall i :: 0 <= i < |prog[1..]| ==> prog[1..][i] == prog[i + 1];
      assert prog[0].Store? && prog[0].w == w ==> State(prog[0].v) != ACTIVE;
      InactiveGuard(Step(s, prog[0]), prog[1..], w);
    }
  }

  lemma NeverConcat(p: seq<Instr>, q: seq<Instr>, w: nat)
    requires NeverActive(p, w) && NeverActive(q, w)
    ensures NeverActive(p + q, w)
  {
    hide State;
  }

  // ---------------------------------------------------------------------------------------
  // Headers
  // ---------------------------------------------------------------------------------------

  /** The eight words of the header at h. */
  ghost predicate InHeader(h: nat, w: nat) { h <= w < h + 8 }

  ghost function HeaderSet(h: nat): set<nat> { set w: nat | w < h + 8 && InHeader(h, w) }

  /** All headers of the clumps at `heads`. */
  ghost function HeaderWords(heads: set<nat>): set<nat> {
    set h, w | h in heads && w in HeaderSet(h) :: w
  }

  lemma QuietRests(s: Pm, hs: seq<nat>, heads: set<nat>)
    requires Quiet(s, hs) && forall h :: h in heads ==> h in hs
    ensures AtRest(s, HeaderWords(heads))
  {
    forall w | w in HeaderWords(heads) ensures Clean(s, w) {
      var h :| h in heads && w in HeaderSet(h);
      var i :| 0 <= i < |hs| && hs[i] == h;
      assert Header(hs, w);
      assert Pinned(s.mem, hs, w);
    }
  }

  /** The program stores into none of the headers at `heads`. */
  ghost predicate SparesHeads(prog: seq<Instr>, heads: set<nat>) {
    forall i, h :: 0 <= i < |prog| && prog[i].Store? && h in heads ==> prog[i].w < h || h + 8 <= prog[i].w
  }

  lemma HeadsSpared(prog: seq<Instr>, heads: set<nat>)
    requires SparesHeads(prog, heads)
    ensures Spares(prog, HeaderWords(heads))
  {
  }

  lemma HeadsConcat(p: seq<Instr>, q: seq<Instr>, heads: set<nat>)
    requires SparesHeads(p, heads) && SparesHeads(q, heads)
    ensures SparesHeads(p + q, heads)
  {
  }

  /** Every store goes to one of the words from lo to hi. */
  ghost predicate StaysWithin(prog: seq<Instr>, lo: nat, hi: nat) {
    forall i :: 0 <= i < |prog| && prog[i].Store? ==> lo <= prog[i].w < hi
  }

  lemma WithinSpares(prog: seq<Instr>, lo: nat, hi: nat, heads: set<nat>)
    requires StaysWithin(prog, lo, hi)
    requires forall h :: h in heads ==> h + 8 <= lo || hi <= h
    ensures SparesHeads(prog, heads)
  {
  }

  // ---------------------------------------------------------------------------------------
  // The stores of each call
  // ---------------------------------------------------------------------------------------

  lemma {:induction false} ZeroWithin(n: nat, count: nat)
    ensures StaysWithin(Zero(n, count), n, n + count)
  {
    if count > 0 { ZeroWithin(n, count - 1); }
  }

  lemma WithinConcat(p: seq<Instr>, q: seq<Instr>, lo: nat, hi: nat)
    requires StaysWithin(p, lo, hi) && StaysWithin(q, lo, hi)
    ensures StaysWithin(p + q, lo, hi)
  {
  }

  lemma WithinWider(p: seq<Instr>, lo: nat, hi: nat, lo': nat, hi': nat)
    requires StaysWithin(p, lo, hi) && lo' <= lo && hi <= hi'
    ensures StaysWithin(p, lo', hi')
  {
  }

  /** A reservation stays inside the free clump it takes. */
  lemma ReserveWithin(m: Image, hs: seq<nat>, k: nat, bytes: nat)
    requires Tiled(m, hs) && Fitting(m, hs, k, bytes)
    ensures StaysWithin(ReserveSteps(m, hs[k], bytes), hs[k], hs[k + 1])
  {
    hide Zero;
    hide StaysWithin;
    var h, end := hs[k], hs[k + 1];
    var size := SetSize(h, ReservedSize(m[h], bytes));
    HeaderWithin(h);
    WithinWider(Wipe(h), h, h + 8, h, end);
    SizeWithin(h, ReservedSize(m[h], bytes));
    WithinWider(size, h, h + 8, h, end);
    if Splits(m[h], bytes) {
      CutInside(m, hs, k, bytes);
      var n := h + bytes / 8;
      CarveWithin(n, Bytes(m[h]) - bytes);
      WithinWider(Carve(n, Bytes(m[h]) - bytes), n, n + 8, h, end);
      WithinConcat(Carve(n, Bytes(m[h]) - bytes), Wipe(h), h, end);
    }
    WithinConcat(Prepare(m, h, bytes), size, h, end);
  }

  lemma HeaderWithin(h: nat)
    ensures StaysWithin(Wipe(h), h, h + 8)
  {
    ZeroWithin(h + 2, 6);
  }

  lemma SizeWithin(h: nat, v: nat)
    ensures StaysWithin(SetSize(h, v), h, h + 8)
  {
  }

  lemma CarveWithin(n: nat, bytes: nat)
    ensures StaysWithin(Carve(n, bytes), n, n + 8)
  {
    ZeroWithin(n, 8);
  }

  ghost predicate OutsideHeaders(prog: seq<Instr>, hs: seq<nat>) {
    forall i :: 0 <= i < |prog| && prog[i].Store? ==> !Header(hs, prog[i].w)
  }

  /** A list stores outside the headers. */
  lemma ListOutside(m: Image, hs: seq<nat>, k: nat)
    requires Bounds(hs, |m|) && k < |hs| - 1 && ListOk(m, hs, hs[k])
    ensures OutsideHeaders(ReplayList(m, hs[k]), hs)
  {
    var h := hs[k];
    if ListLen(m, h) > 0 { PutOutside(m, hs, m[h + 2], m[h + 3]); }
    if ListLen(m, h) > 1 { PutOutside(m, hs, m[h + 4], m[h + 5]); }
    if ListLen(m, h) > 2 { PutOutside(m, hs, m[h + 6], m[h + 7]); }
    OutsideParts(m, h, hs);
  }

  lemma OutsideParts(m: Image, h: nat, hs: seq<nat>)
    requires h + 8 <= |m|
    requires ListLen(m, h) > 0 ==> !Header(hs, m[h + 2] / 8)
    requires ListLen(m, h) > 1 ==> !Header(hs, m[h + 4] / 8)
    requires ListLen(m, h) > 2 ==> !Header(hs, m[h + 6] / 8)
    ensures OutsideHeaders(ReplayList(m, h), hs)
  {
    hide Header;
  }

  lemma OutsideSpares(prog: seq<Instr>, hs: seq<nat>, heads: set<nat>)
    requires OutsideHeaders(prog, hs) && forall h :: h in heads ==> h in hs
    ensures SparesHeads(prog, heads)
  {
    forall i, h | 0 <= i < |prog| && prog[i].Store? && h in heads ensures prog[i].w < h || h + 8 <= prog[i].w {
      var j: nat :| j < |hs| && hs[j] == h;
      OutsideHeader(hs, j, prog[i].w);
    }
  }

  /** Headers of other clumps. */
  ghost predicate OtherHeads(hs: seq<nat>, k: nat, heads: set<nat>) {
    k < |hs| && forall h :: h in heads ==> h in hs && h != hs[k]
  }

  lemma OthersApart(hs: seq<nat>, words: nat, k: nat, heads: set<nat>)
    requires Bounds(hs, words) && OtherHeads(hs, k, heads)
    ensures forall h :: h in heads ==> h + 8 <= hs[k] || hs[k] + 8 <= h
    ensures k < |hs| - 1 ==> forall h :: h in heads ==> h + 8 <= hs[k] || hs[k + 1] <= h
  {
    forall h | h in heads
      ensures h + 8 <= hs[k] || hs[k] + 8 <= h
      ensures k < |hs| - 1 ==> h + 8 <= hs[k] || hs[k + 1] <= h
    {
      var j :| 0 <= j < |hs| && hs[j] == h;
      if k + 1 < j { assert hs[k + 1] + 8 <= hs[j]; }
    }
  }

  lemma CommitSpares(m: Image, hs: seq<nat>, k: nat, heads: set<nat>)
    requires Bounds(hs, |m|) && k < |hs| - 1 && ListOk(m, hs, hs[k]) && OtherHeads(hs, k, heads)
    ensures SparesHeads(Commit(m, hs[k]), heads)
  {
    var h := hs[k];
    var v := CommitSize(m[h]);
    OthersApart(hs, |m|, k, heads);
    assert ListOk(m[h := v], hs, h);
    ListOutside(m[h := v], hs, k);
    OutsideSpares(ReplayList(m[h := v], h), hs, heads);
    WithinSpares(SetSize(h, v), h, h + 8, heads);
    WithinSpares(ClearList(h), h, h + 8, heads);
    WithinSpares(SetSize(h, SettledSize(m[h := v][h])), h, h + 8, heads);
  }

  /** The merging pass stores free sizes into the headers of free clumps. */
  lemma {:induction false} CoalesceSpares(m: Image, hs: seq<nat>, p: nat, heads: set<nat>)
    requires Bounds(hs, |m|) && p < |hs|
    requires forall h :: h in heads ==> h in hs && h + 8 <= |m| && State(m[h]) != FREE && h != hs[|hs| - 1]
    ensures SparesHeads(CoalesceFrom(m, hs, p), heads)
    decreases |hs| - p
  {
    if p < |hs| - 1 {
      var q := RunEnd(m, hs, p + 1);
      if State(m[hs[p]]) != FREE || q == p + 1 {
        CoalesceSpares(m, hs, p + 1, heads);
      } else {
        JoinedBounds(hs, |m|, p, q);
        assert hs[p] <= hs[q];
        JoinedHeads(m, hs, p, q, heads);
        CoalesceSpares(m[hs[p] := MergedSize(hs, p, q)], Joined(hs, p, q), p + 1, heads);
        OthersApart(hs, |m|, p, heads);
        WithinSpares(SetSize(hs[p], MergedSize(hs, p, q)), hs[p], hs[p] + 8, heads);
      }
    }
  }

  lemma JoinedHeads(m: Image, hs: seq<nat>, p: nat, q: nat, heads: set<nat>)
    requires Bounds(hs, |m|) && FreeRun(m, hs, p, q) && hs[p] <= hs[q] && Bounds(Joined(hs, p, q), |m|)
    requires forall h :: h in heads ==> h in hs && h + 8 <= |m| && State(m[h]) != FREE && h != hs[|hs| - 1]
    ensures OtherHeads(hs, p, heads)
    ensures var gs := Joined(hs, p, q); var b := m[hs[p] := MergedSize(hs, p, q)];
            forall h :: h in heads ==> h in gs && State(b[h]) != FREE && h != gs[|gs| - 1]
  {
    hide State;
    var gs, b := Joined(hs, p, q), m[hs[p] := MergedSize(hs, p, q)];
    forall h | h in heads ensures h in gs && State(b[h]) != FREE && h != gs[|gs| - 1] && h != hs[p] {
      var i: nat :| i < |hs| && hs[i] == h;
      MergedForward(m, hs, p, q, i);
      var j: nat :| Link(gs, j, hs[i], hs[i + 1]);
    }
  }

  lemma {:induction false} CoalesceFree(m: Image, hs: seq<nat>, p: nat, w: nat)
    requires Bounds(hs, |m|) && p < |hs|
    ensures NeverActive(CoalesceFrom(m, hs, p), w)
    decreases |hs| - p
  {
    if p < |hs| - 1 {
      var q := RunEnd(m, hs, p + 1);
      if State(m[hs[p]]) != FREE || q == p + 1 {
        CoalesceFree(m, hs, p + 1, w);
      } else {
        JoinedBounds(hs, |m|, p, q);
        MergedState(hs, |m|, p, q);
        CoalesceFree(m[hs[p] := MergedSize(hs, p, q)], Joined(hs, p, q), p + 1, w);
        NeverConcat(SetSize(hs[p], MergedSize(hs, p, q)),
                    CoalesceFrom(m[hs[p] := MergedSize(hs, p, q)], Joined(hs, p, q), p + 1), w);
      }
    }
  }

  // ---------------------------------------------------------------------------------------
  // Calls
  // ---------------------------------------------------------------------------------------

  ghost predicate Actives(m: Image, hs: seq<nat>, heads: set<nat>) {
    forall h :: h in heads ==> h in hs && h < |m| && State(m[h]) == ACTIVE
  }

  /** The clump a call works on, if that is in use already. */
  ghost predicate WorksOn(cmd: Command, h: nat) {
    (cmd.OnFree? || cmd.Free?) && cmd.h == h
  }

  lemma ActiveOthers(m: Image, hs: seq<nat>, k: nat, heads: set<nat>)
    requires Tiled(m, hs) && Actives(m, hs, heads) && k < |hs| && hs[k] !in heads
    ensures OtherHeads(hs, k, heads)
    ensures forall h :: h in heads ==> h + 8 <= |m| && State(m[h]) != FREE && h != hs[|hs| - 1]
  {
  }

  lemma FreeSpares(m: Image, hs: seq<nat>, k: nat, heads: set<nat>)
    requires Recoverable(m, hs) && NoTransit(m, hs) && ReservedReaches(m, hs) && CanFree(m, hs, k)
    requires Actives(m, hs, heads) && hs[k] !in heads
    ensures SparesHeads(FreeSteps(m, hs, hs[k]), heads)
  {
    hide ReplayList;
    hide ClearList;
    hide Resolve;
    var h := hs[k];
    var a := FreedImage(m, h);
    ActiveOthers(m, hs, k, heads);
    OthersApart(hs, |m|, k, heads);
    if State(m[h]) == ACTIVE {
      CommitReach(m, hs, k);
      CommitSpares(m, hs, k, heads);
      CommittedHeads(m, hs, k, heads);
    } else {
      WithinSpares(SetSize(h, Bytes(m[h]) + FREE), h, h + 8, heads);
    }
    assert forall g :: g in heads ==> a[g] == m[g];
    CoalesceSpares(a, hs, 0, heads);
    HeadsConcat(FreeCore(m, h), CoalesceFrom(a, hs, 0), heads);
  }

  lemma CommitReach(m: Image, hs: seq<nat>, k: nat)
    requires Recoverable(m, hs) && NoTransit(m, hs) && ReservedReaches(m, hs) && CanCommit(m, hs, k)
    ensures ListOk(m, hs, hs[k])
  {
    assert ClumpOk(m, hs, k);
    ReachesIsOk(m, hs, State(m[hs[k]]), hs[k]);
  }

  lemma CommittedHeads(m: Image, hs: seq<nat>, k: nat, heads: set<nat>)
    requires Recoverable(m, hs) && NoTransit(m, hs) && ReservedReaches(m, hs) && CanCommit(m, hs, k)
    requires OtherHeads(hs, k, heads) && forall h :: h in heads ==> h < |m|
    ensures forall g :: g in heads ==> ResolveClump(m[hs[k] := CommitSize(m[hs[k]])], hs[k])[g] == m[g]
  {
    CommitRecoverable(m, hs, k);
    var a := m[hs[k] := CommitSize(m[hs[k]])];
    assert ClumpOk(a, hs, k);
    ResolveClumpPoint(a, hs, k);
    forall g | g in heads ensures ResolveClump(a, hs[k])[g] == m[g] {
      var j: nat :| j < |hs| && hs[j] == g;
      RecoveryFacts.HeadersApart(hs, |m|, j, k);
      assert Header(hs, g);
      ReplayKeepsHeaders(a, hs, k, g);
    }
  }

  /** No call stores into the header of an ACTIVE clump other than the one it works on. */
  lemma CallSpares(s: Pm, hs: seq<nat>, cursor: nat, cmd: Command, heads: set<nat>)
    requires Quiet(s, hs) && Legal(s.mem, hs, cursor, cmd) && Actives(s.mem, hs, heads)
    requires forall h :: h in heads ==> !WorksOn(cmd, h)
    ensures SparesHeads(CallSteps(s.mem, hs, cursor, cmd), heads)
  {
    var m := s.mem;
    match cmd
    case Reserve(size) =>
      ClumpBytesEnough(size);
      var k := FirstFit(m, hs, Index(hs, cursor), ClumpBytes(size));
      if k < |hs| - 1 { ReserveSpares(m, hs, k, ClumpBytes(size), heads); }
    case OnActive(h, off, v) => RegisterSpares(m, hs, Index(hs, h), off, v, heads);
    case OnFree(h, off, v) => RegisterSpares(m, hs, Index(hs, h), off, v, heads);
    case Activate(h) =>
      ActivateSpares(m, hs, Index(hs, h), heads);
    case Free(h) => FreeSpares(m, hs, Index(hs, h), heads);
    case Fill(w, v) =>
      var k: nat :| Inside(hs, k, w) && State(m[hs[k]]) == RESERVED;
      InsideReserved(m, hs, k, w);
      StoreSpares([Store(w, v)], hs, w, heads);
    case Poke(w, v, len) =>
      VisibleIsTarget(m, hs, w);
      TargetIsNoHeader(hs, |m|, w);
      StoreSpares([Store(w, v), Persist(8 * w, len)], hs, w, heads);
  }

  lemma ReserveSpares(m: Image, hs: seq<nat>, k: nat, bytes: nat, heads: set<nat>)
    requires Tiled(m, hs) && Fitting(m, hs, k, bytes) && Actives(m, hs, heads)
    ensures SparesHeads(ReserveSteps(m, hs[k], bytes), heads)
  {
    ActiveOthers(m, hs, k, heads);
    OthersApart(hs, |m|, k, heads);
    ReserveWithin(m, hs, k, bytes);
    WithinSpares(ReserveSteps(m, hs[k], bytes), hs[k], hs[k + 1], heads);
  }

  lemma ActivateSpares(m: Image, hs: seq<nat>, k: nat, heads: set<nat>)
    requires Recoverable(m, hs) && NoTransit(m, hs) && ReservedReaches(m, hs) && CanCommit(m, hs, k)
    requires State(m[hs[k]]) == RESERVED && m[hs[k]] >= 64 && Actives(m, hs, heads)
    ensures SparesHeads(ActivateSteps(m, hs[k]), heads)
  {
    ActiveOthers(m, hs, k, heads);
    CommitReach(m, hs, k);
    CommitSpares(m, hs, k, heads);
    HeadsConcat([Persist(8 * (hs[k] + 8), m[hs[k]] - 64)], Commit(m, hs[k]), heads);
  }

  lemma StoreSpares(prog: seq<Instr>, hs: seq<nat>, w: nat, heads: set<nat>)
    requires !Header(hs, w) && (forall i :: 0 <= i < |prog| && prog[i].Store? ==> prog[i].w == w)
    requires forall h :: h in heads ==> h in hs
    ensures SparesHeads(prog, heads)
  {
    OutsideSpares(prog, hs, heads);
  }

  lemma RegisterSpares(m: Image, hs: seq<nat>, k: nat, off: nat, v: nat, heads: set<nat>)
    requires Tiled(m, hs) && CanRegister(m, hs, k, off) && Actives(m, hs, heads) && hs[k] !in heads
    ensures SparesHeads(RegisterSteps(hs[k], FreeSlot(m, hs[k]), off, v), heads)
  {
    ActiveOthers(m, hs, k, heads);
    OthersApart(hs, |m|, k, heads);
    WithinSpares(RegisterSteps(hs[k], FreeSlot(m, hs[k]), off, v), hs[k], hs[k] + 8, heads);
  }

  /** A crash anywhere in a call leaves those headers as they were, and so does the call. */
  lemma CallKeepsHeaders(s: Pm, hs: seq<nat>, cursor: nat, cmd: Command, heads: set<nat>)
    requires Quiet(s, hs) && Legal(s.mem, hs, cursor, cmd) && Actives(s.mem, hs, heads)
    requires forall h :: h in heads ==> !WorksOn(cmd, h)
    ensures var prog := CallSteps(s.mem, hs, cursor, cmd);
            && Guarded(s, prog, Keeping(s.mem, HeaderWords(heads)))
            && Exec(s, prog).mem in Keeping(s.mem, HeaderWords(heads))
  {
    var prog := CallSteps(s.mem, hs, cursor, cmd);
    CallSpares(s, hs, cursor, cmd, heads);
    HeadsSpared(prog, heads);
    QuietRests(s, hs, heads);
    SparedGuard(s, prog, HeaderWords(heads));
  }

  lemma KeptHeader(img: Image, m: Image, heads: set<nat>, h: nat)
    requires img in Keeping(m, HeaderWords(heads)) && h in heads && h + 8 <= |m|
    ensures SameHeader(img, m, h)
  {
    forall w | h <= w < h + 8 ensures img[w] == m[w] {
      assert InHeader(h, w);
      assert w in HeaderSet(h);
      assert w in HeaderWords(heads);
    }
  }

  // ---------------------------------------------------------------------------------------
  // Activating: ACTIVE only with an empty list
  // ---------------------------------------------------------------------------------------

  /** A clump that is ACTIVE has an empty list. */
  ghost predicate Bare(img: Image, h: nat) {
    h + 8 <= |img| && (State(img[h]) == ACTIVE ==> EmptyList(img, h))
  }

  ghost function Bares(n: nat, h: nat): iset<Image> { iset img: Image | |img| == n && Bare(img, h) }

  ghost function OffWords(h: nat): set<nat> { {h + 2, h + 4, h + 6} }

  /** The stores of Commit before the last size word. */
  function Committing(m: Image, h: nat): seq<Instr>
    requires h + 8 <= |m|
  {
    SetSize(h, CommitSize(m[h])) + ReplayList(m[h := CommitSize(m[h])], h) + ClearList(h)
  }

  lemma CommitParts(m: Image, h: nat)
    requires h + 8 <= |m|
    ensures Commit(m, h) == Committing(m, h) + SetSize(h, SettledSize(CommitSize(m[h])))
  {
    hide ReplayList;
    hide ClearList;
    hide SetSize;
    var v := CommitSize(m[h]);
    var a, b, c := ReplayList(m[h := v], h), ClearList(h), SetSize(h, SettledSize(v));
    assert SetSize(h, v) + (a + b + c) == SetSize(h, v) + a + b + c;
  }

  lemma CommittingNever(m: Image, hs: seq<nat>, k: nat)
    requires Bounds(hs, |m|) && k < |hs| - 1 && ListOk(m, hs, hs[k])
    ensures NeverActive(Committing(m, hs[k]), hs[k])
  {
    hide ReplayList;
    var h := hs[k];
    var v := CommitSize(m[h]);
    var a := m[h := v];
    assert ListOk(a, hs, h);
    ListOutside(a, hs, k);
    CommitStates(m[h]);
    var list := ReplayList(a, h);
    assert NeverActive(list, h) by { assert Header(hs, h); }
    hide State;
    NeverConcat(SetSize(h, v), list, h);
    NeverConcat(SetSize(h, v) + list, ClearList(h), h);
  }

  lemma CommitStates(v: nat)
    ensures State(CommitSize(v)) != ACTIVE
    ensures State(v) == ACTIVE ==> State(SettledSize(CommitSize(v))) != ACTIVE
  {
    SizeWord(Bytes(v), ACTIVATING);
    SizeWord(Bytes(v), FREEING);
    SizeWord(Bytes(v), FREE);
  }

  /** Where Commit stands before its last store: the list is empty, and durably so. */
  lemma CommittingEnd(s: Pm, h: nat)
    requires Sane(s) && h % 8 == 0 && h + 8 <= |s.mem|
    ensures var a := Exec(s, Committing(s.mem, h)); AtRest(a, OffWords(h)) && EmptyList(a.mem, h)
  {
    hide ReplayList;
    hide PersistentMemory.Exec;
    var v := CommitSize(s.mem[h]);
    var p := SetSize(h, v) + ReplayList(s.mem[h := v], h);
    ExecConcat(s, p, ClearList(h));
    ClearEffect(Exec(s, p), h);
  }

  lemma LastStore(a: Pm, h: nat, v: nat)
    requires Sane(a) && h + 8 <= |a.mem| && AtRest(a, OffWords(h)) && EmptyList(a.mem, h)
    ensures Guarded(a, SetSize(h, v), Bares(|a.mem|, h))
  {
    hide State;
    assert Spares(SetSize(h, v), OffWords(h));
    SparedGuard(a, SetSize(h, v), OffWords(h));
    var good := Keeping(a.mem, OffWords(h));
    forall img | img in good ensures img in Bares(|a.mem|, h) {
      assert h + 2 in OffWords(h) && h + 4 in OffWords(h) && h + 6 in OffWords(h);
    }
    GuardedWiden(a, SetSize(h, v), good, Bares(|a.mem|, h));
  }

  ghost function Sized(good: iset<Image>, n: nat): iset<Image> { iset img: Image | img in good && |img| == n }

  lemma {:induction false} SizedGuard(s: Pm, prog: seq<Instr>, good: iset<Image>, n: nat)
    requires Sane(s) && |s.mem| == n && Guarded(s, prog, good)
    ensures Guarded(s, prog, Sized(good, n))
    decreases |prog|
  {
    if prog != [] { SizedGuard(Step(s, prog[0]), prog[1..], good, n); }
  }

  /** No crash in an activation leaves the clump ACTIVE with a list that is not empty. */
  lemma ActivateBare(s: Pm, hs: seq<nat>, h: nat)
    requires Quiet(s, hs) && Legal(s.mem, hs, FIRST, Command.Activate(h))
    ensures Guarded(s, ActivateSteps(s.mem, h), Bares(|s.mem|, h))
    ensures Bare(Exec(s, ActivateSteps(s.mem, h)).mem, h)
  {
    hide PersistentMemory.Exec;
    hide Committing;
    hide Quiet;
    hide Legal;
    hide Guarded;
    hide Bares;
    hide Bare;
    hide CommitSize;
    hide ClearList;
    hide Commit;
    hide NeverActive;
    hide Inactive;
    ActivateStarts(s, hs, h);
    BareInTheEnd(s, h, [Persist(8 * (h + 8), s.mem[h] - 64)]);
  }

  lemma ActivateStarts(s: Pm, hs: seq<nat>, h: nat)
    requires Quiet(s, hs) && Legal(s.mem, hs, FIRST, Command.Activate(h))
    ensures Sane(s) && h % 8 == 0 && h + 8 <= |s.mem| && s.mem[h] >= 64 && Inactive(s, h)
    ensures NeverActive(Committing(s.mem, h), h)
    ensures var flush := [Persist(8 * (h + 8), s.mem[h] - 64)]; NeverActive(flush, h) && Exec(s, flush).mem == s.mem
  {
    hide PersistentMemory.Exec;
    hide Committing;
    hide ClumpOk;
    hide Clump;
    var m, k := s.mem, Index(hs, h);
    CommitReach(m, hs, k);
    CommittingNever(m, hs, k);
    HeaderClean(s, hs, k);
    ExecSingle(s, Persist(8 * (h + 8), m[h] - 64));
  }

  lemma HeaderClean(s: Pm, hs: seq<nat>, k: nat)
    requires Quiet(s, hs) && k < |hs|
    ensures Clean(s, hs[k])
  {
    assert Header(hs, hs[k]);
    assert Pinned(s.mem, hs, hs[k]);
  }

  lemma BareInTheEnd(s: Pm, h: nat, flush: seq<Instr>)
    requires Sane(s) && h % 8 == 0 && h + 8 <= |s.mem| && Inactive(s, h) && Exec(s, flush).mem == s.mem
    requires NeverActive(flush, h) && NeverActive(Committing(s.mem, h), h)
    ensures Guarded(s, flush + Commit(s.mem, h), Bares(|s.mem|, h))
    ensures Bare(Exec(s, flush + Commit(s.mem, h)).mem, h)
  {
    hide PersistentMemory.Exec;
    hide Committing;
    hide Commit;
    hide SetSize;
    hide SettledSize;
    hide NeverActive;
    hide Inactive;
    hide AtRest;
    hide State;
    hide Guarded;
    hide CommitSize;
    hide EmptyList;
    var m, n := s.mem, |s.mem|;
    var p, q := Committing(m, h), SetSize(h, SettledSize(CommitSize(m[h])));
    CommitParts(m, h);
    NeverConcat(flush, p, h);
    InactiveGuard(s, flush + p, h);
    SizedGuard(s, flush + p, NotActive(h), n);
    GuardedWiden(s, flush + p, Sized(NotActive(h), n), Bares(n, h));
    ExecConcat(s, flush, p);
    CommittingEnd(Exec(s, flush), h);
    var b := Exec(s, flush + p);
    LastStore(b, h, SettledSize(CommitSize(m[h])));
    InSequence(s, flush + p, b, q, Exec(b, q), Bares(n, h));
    assert flush + Commit(m, h) == flush + p + q;
    EndIn(b, q, Bares(n, h));
  }

  /** Where a guarded program ends is a good image, too. */
  lemma EndIn(s: Pm, prog: seq<Instr>, good: iset<Image>)
    requires Sane(s) && Guarded(s, prog, good)
    ensures Exec(s, prog).mem in good
  {
    hide PersistentMemory.Exec;
    GuardedAtEnd(s, prog, good);
    var r := Exec(s, prog);
    assert Survives(r.may, r.mem);
  }

  // ---------------------------------------------------------------------------------------
  // Lists that name one word
  // ---------------------------------------------------------------------------------------

  /** Entry i is empty, or it stores zero into the word `slot`. */
  ghost predicate Entry(img: Image, h: nat, slot: nat, i: nat)
    requires h + 8 <= |img| && i < 3
  {
    img[h + 2 + 2 * i] == 0 || (img[h + 2 + 2 * i] == 8 * slot && img[h + 3 + 2 * i] == 0)
  }

  /** All the list at h can do is store zero into the word `slot`. */
  ghost predicate OnlyClears(img: Image, h: nat, slot: nat) {
    h + 8 <= |img| && Entry(img, h, slot, 0) && Entry(img, h, slot, 1) && Entry(img, h, slot, 2)
  }

  ghost function ClearsOnly(n: nat, h: nat, slot: nat): iset<Image> {
    iset img: Image | |img| == n && OnlyClears(img, h, slot)
  }

  /** Registering a zero for `slot`, cut off anywhere, leaves a list that names nothing else. */
  lemma OnFreeClears(s: Pm, hs: seq<nat>, k: nat, slot: nat)
    requires Quiet(s, hs) && k < |hs| - 1 && FreeSlot(s.mem, hs[k]) < 3 && OnlyClears(s.mem, hs[k], slot)
    ensures var prog := RegisterSteps(hs[k], FreeSlot(s.mem, hs[k]), 8 * slot, 0);
            Guarded(s, prog, ClearsOnly(|s.mem|, hs[k], slot)) && OnlyClears(Exec(s, prog).mem, hs[k], slot)
  {
    hide Guarded;
    hide Bounds;
    hide PersistentMemory.Exec;
    var m, h := s.mem, hs[k];
    var i := FreeSlot(m, h);
    var good := ClearsOnly(|m|, h, slot);
    var p, q := [Store(h + 3 + 2 * i, 0), HeaderFlush(h)], [Store(h + 2 + 2 * i, 8 * slot), HeaderFlush(h)];
    var ws := HeaderSet(h);
    HeaderRests(s, hs, k);
    ValueFirst(s, h, i, slot);
    HeaderStore(s, hs, k, h + 3 + 2 * i, 0);
    var a := Exec(s, p);
    ThenOffset(a, h, i, slot);
    InSequence(s, p, a, q, Exec(a, q), good);
    EndIn(s, p + q, good);
  }

  lemma HeaderRests(s: Pm, hs: seq<nat>, k: nat)
    requires Quiet(s, hs) && k < |hs|
    ensures AtRest(s, HeaderSet(hs[k]))
  {
    forall w | w in HeaderSet(hs[k]) ensures Clean(s, w) {
      assert Header(hs, w);
      assert Pinned(s.mem, hs, w);
    }
  }

  lemma ValueFirst(s: Pm, h: nat, i: nat, slot: nat)
    requires Sane(s) && h + 8 <= |s.mem| && i < 3 && AtRest(s, HeaderSet(h)) && OnlyClears(s.mem, h, slot)
    requires s.mem[h + 2 + 2 * i] == 0
    ensures Guarded(s, [Store(h + 3 + 2 * i, 0), HeaderFlush(h)], ClearsOnly(|s.mem|, h, slot))
  {
    var w := h + 3 + 2 * i;
    var p, ws := [Store(w, 0), HeaderFlush(h)], HeaderSet(h) - {w};
    SparedGuard(s, p, ws);
    forall img | img in Keeping(s.mem, ws) ensures img in ClearsOnly(|s.mem|, h, slot) {
      EntriesKept(img, s.mem, h, w, slot);
    }
    GuardedWiden(s, p, Keeping(s.mem, ws), ClearsOnly(|s.mem|, h, slot));
  }

  /** Entries do not depend on the value word of an empty entry. */
  lemma EntriesKept(img: Image, m: Image, h: nat, w: nat, slot: nat)
    requires h + 8 <= |m| && OnlyClears(m, h, slot) && img in Keeping(m, HeaderSet(h) - {w})
    requires exists i: nat :: i < 3 && w == h + 3 + 2 * i && m[h + 2 + 2 * i] == 0
    ensures OnlyClears(img, h, slot)
  {
    forall x | h <= x < h + 8 && x != w ensures img[x] == m[x] { assert InHeader(h, x); }
    forall j: nat | j < 3 ensures Entry(img, h, slot, j) { assert Entry(m, h, slot, j); }
  }

  lemma ThenOffset(a: Pm, h: nat, i: nat, slot: nat)
    requires Sane(a) && h + 8 <= |a.mem| && i < 3 && OnlyClears(a.mem, h, slot)
    requires (forall w :: h <= w < h + 8 ==> Clean(a, w)) && a.mem[h + 3 + 2 * i] == 0
    ensures Guarded(a, [Store(h + 2 + 2 * i, 8 * slot), HeaderFlush(h)], ClearsOnly(|a.mem|, h, slot))
  {
    var w := h + 2 + 2 * i;
    var p, ws := [Store(w, 8 * slot), HeaderFlush(h)], HeaderSet(h) - {w};
    var good := ClearsOnly(|a.mem|, h, slot);
    var b := Step(a, p[0]);
    var c := Step(b, p[1]);
    forall x | x in HeaderSet(h) ensures Clean(a, x) {}
    SparedGuard(a, p, ws);
    RestSafe(a, HeaderSet(h));
    forall img | Survives(a.may, img) ensures img in good {
      assert img in Keeping(a.mem, HeaderSet(h));
      OffsetSeen(img, a.mem, h, i, slot);
    }
    forall img | Survives(b.may, img) ensures img in good { OffsetMay(img, a, b, h, i, slot); }
    FlushSafe(b, 8 * h, 64, good);
    GuardedPair(a, p[0], p[1], good);
  }

  lemma OffsetMay(img: Image, a: Pm, b: Pm, h: nat, i: nat, slot: nat)
    requires Sane(a) && h + 8 <= |a.mem| && i < 3 && OnlyClears(a.mem, h, slot) && a.mem[h + 3 + 2 * i] == 0
    requires forall w :: h <= w < h + 8 ==> Clean(a, w)
    requires b == Step(a, Store(h + 2 + 2 * i, 8 * slot)) && Survives(b.may, img)
    ensures img in ClearsOnly(|a.mem|, h, slot)
  {
    var w := h + 2 + 2 * i;
    assert Clean(a, w);
    assert img[w] in b.may[w];
    forall x | x in HeaderSet(h) - {w} ensures img[x] == a.mem[x] {
      assert Clean(a, x);
      assert img[x] in b.may[x];
    }
    OffsetSeen(img, a.mem, h, i, slot);
  }

  lemma OffsetSeen(img: Image, m: Image, h: nat, i: nat, slot: nat)
    requires h + 8 <= |m| && i < 3 && OnlyClears(m, h, slot) && m[h + 3 + 2 * i] == 0
    requires img in Keeping(m, HeaderSet(h) - {h + 2 + 2 * i})
    requires img[h + 2 + 2 * i] == m[h + 2 + 2 * i] || img[h + 2 + 2 * i] == 8 * slot
    ensures OnlyClears(img, h, slot)
  {
    var w := h + 2 + 2 * i;
    forall x | h <= x < h + 8 && x != w ensures img[x] == m[x] { assert InHeader(h, x); }
    forall j: nat | j < 3 ensures Entry(img, h, slot, j) { assert Entry(m, h, slot, j); }
  }

  // ---------------------------------------------------------------------------------------
  // Freeing: the list is as it was as long as the clump is ACTIVE
  // ---------------------------------------------------------------------------------------

  ghost function WhileActive(h: nat, n: nat, slot: nat): iset<Image> {
    iset img: Image | |img| == n && h + 8 <= n && (State(img[h]) == ACTIVE ==> OnlyClears(img, h, slot))
  }

  lemma FreeClears(s: Pm, hs: seq<nat>, k: nat, slot: nat)
    requires Quiet(s, hs) && CanCommit(s.mem, hs, k) && State(s.mem[hs[k]]) == ACTIVE && OnlyClears(s.mem, hs[k], slot)
    ensures Guarded(s, FreeSteps(s.mem, hs, hs[k]), WhileActive(hs[k], |s.mem|, slot))
  {
    hide PersistentMemory.Exec;
    hide ClumpOk;
    hide Clump;
    hide Finish;
    hide CoalesceFrom;
    hide FreedImage;
    hide NeverActive;
    hide AtRest;
    var m, h := s.mem, hs[k];
    var q := Finish(m[h := CommitSize(m[h])], h) + CoalesceFrom(FreedImage(m, h), hs, 0);
    assert FreeSteps(m, hs, h) == SetSize(h, CommitSize(m[h])) + q;
    CommitReach(m, hs, k);
    RestNever(m, hs, k);
    HeaderRests(s, hs, k);
    SizeThenRest(s, h, q, slot);
  }

  lemma SizeThenRest(s: Pm, h: nat, q: seq<Instr>, slot: nat)
    requires Sane(s) && h % 8 == 0 && h + 8 <= |s.mem| && AtRest(s, HeaderSet(h)) && OnlyClears(s.mem, h, slot)
    requires NeverActive(q, h)
    ensures Guarded(s, SetSize(h, CommitSize(s.mem[h])) + q, WhileActive(h, |s.mem|, slot))
  {
    hide PersistentMemory.Exec;
    hide NeverActive;
    hide AtRest;
    hide Entry;
    hide State;
    var v := CommitSize(s.mem[h]);
    var p, good := SetSize(h, v), WhileActive(h, |s.mem|, slot);
    CommitStates(s.mem[h]);
    SizeFirst(s, h, v, slot);
    SetSizeEffect(s, h, v);
    var a := Exec(s, p);
    assert Inactive(a, h) by { assert Clean(a, h); }
    InactiveGuard(a, q, h);
    SizedGuard(a, q, NotActive(h), |s.mem|);
    GuardedWiden(a, q, Sized(NotActive(h), |s.mem|), good);
    InSequence(s, p, a, q, Exec(a, q), good);
  }

  lemma RestNever(m: Image, hs: seq<nat>, k: nat)
    requires Bounds(hs, |m|) && k < |hs| - 1 && ListOk(m, hs, hs[k]) && State(m[hs[k]]) == ACTIVE
    ensures NeverActive(Finish(m[hs[k] := CommitSize(m[hs[k]])], hs[k]) + CoalesceFrom(FreedImage(m, hs[k]), hs, 0),
                        hs[k])
  {
    hide ReplayList;
    hide FreedImage;
    hide CoalesceFrom;
    var h := hs[k];
    var a := m[h := CommitSize(m[h])];
    assert ListOk(a, hs, h);
    ListOutside(a, hs, k);
    var list := ReplayList(a, h);
    assert NeverActive(list, h) by { assert Header(hs, h); }
    CommitStates(m[h]);
    CoalesceFree(FreedImage(m, h), hs, 0, h);
    hide State;
    NeverConcat(list, ClearList(h), h);
    NeverConcat(list + ClearList(h), SetSize(h, SettledSize(a[h])), h);
    NeverConcat(Finish(a, h), CoalesceFrom(FreedImage(m, h), hs, 0), h);
  }

  lemma SizeFirst(s: Pm, h: nat, v: nat, slot: nat)
    requires Sane(s) && h + 8 <= |s.mem| && AtRest(s, HeaderSet(h)) && OnlyClears(s.mem, h, slot)
    ensures Guarded(s, SetSize(h, v), WhileActive(h, |s.mem|, slot))
  {
    hide State;
    hide Clean;
    var ws := HeaderSet(h) - {h};
    SparedGuard(s, SetSize(h, v), ws);
    forall img | img in Keeping(s.mem, ws) ensures img in WhileActive(h, |s.mem|, slot) {
      forall x | h < x < h + 8 ensures img[x] == s.mem[x] { assert InHeader(h, x); }
      forall j: nat | j < 3 ensures Entry(img, h, slot, j) { assert Entry(s.mem, h, slot, j); }
    }
    GuardedWiden(s, SetSize(h, v), Keeping(s.mem, ws), WhileActive(h, |s.mem|, slot));
  }

  // ---------------------------------------------------------------------------------------
  // Headers after recovery
  // ---------------------------------------------------------------------------------------

  /** The memory that recovery makes of an image. */
  ghost function After(img: Image): (r: Image)
    requires Recoverable(img, Chain(img))
    ensures |r| == |img|
  {
    Resolve(img, Chain(img))
  }

  /** A clump that is ACTIVE keeps its header through recovery; one that is becoming ACTIVE ends
      with an empty list. */
  lemma HeaderAfter(img: Image, hs: seq<nat>, i: nat)
    requires Recoverable(img, hs) && i < |hs| - 1
    ensures State(img[hs[i]]) == ACTIVE ==> SameHeader(Resolve(img, hs), img, hs[i])
    ensures State(img[hs[i]]) == ACTIVATING ==> EmptyList(Resolve(img, hs), hs[i])
  {
    hide PersistentMemory.Exec;
    hide Resolve;
    RecoverableLists(img, hs);
    HeadersResolved(img, hs);
    var h, r := hs[i], Resolve(img, hs);
    forall w | h <= w < h + 8 ensures r[w] == SettledWord(img, h, w) {}
  }

  /** Where a clump that a restarted program sees stands. */
  lemma LiveHeader(img: Image, h: nat) returns (i: nat)
    requires Recoverable(img, Chain(img)) && h in ViewOf(img, Chain(img)).live
    ensures i < |Chain(img)| - 1 && Chain(img)[i] == h && h + 8 <= |img| && LiveState(img[h])
  {
    hide PersistentMemory.Exec;
    hide Chain;
    hide ClumpOk;
    var hs := Chain(img);
    LiveResolved(img, hs);
    i :| i < |hs| && hs[i] == h;
  }

  lemma ActiveAfter(img: Image, h: nat)
    requires Recoverable(img, Chain(img)) && h in ViewOf(img, Chain(img)).live
    ensures h + 8 <= |img|
    ensures State(img[h]) == ACTIVE ==> SameHeader(After(img), img, h)
    ensures State(img[h]) != ACTIVE ==> EmptyList(After(img), h)
  {
    hide PersistentMemory.Exec;
    hide Chain;
    hide ClumpOk;
    hide Clump;
    hide Resolve;
    var i := LiveHeader(img, h);
    HeaderAfter(img, Chain(img), i);
  }

  /** In a quiet pool the live clumps are the ACTIVE ones. */
  lemma LiveActive(s: Pm)
    requires Quiet(s, Chain(s.mem))
    ensures Actives(s.mem, Chain(s.mem), Sight(s).live.Keys)
    ensures forall h :: h in Sight(s).live ==> h + 8 <= |s.mem|
  {
    hide PersistentMemory.Exec;
    hide Chain;
    hide ClumpOk;
    hide Clump;
    forall h | h in Sight(s).live ensures h in Chain(s.mem) && h + 8 <= |s.mem| && State(s.mem[h]) == ACTIVE {
      var i := LiveHeader(s.mem, h);
    }
  }

  // ---------------------------------------------------------------------------------------
  // Calls that neither register nor free
  // ---------------------------------------------------------------------------------------

  /** After recovery: clumps that were live in s have their headers from s, new ones an empty list. */
  ghost predicate Inherits(s: Pm, img: Image)
    requires Quiet(s, Chain(s.mem))
  {
    && |img| == |s.mem| && Recoverable(img, Chain(img))
    && forall h :: h in ViewOf(img, Chain(img)).live ==>
         if h in Sight(s).live then SameHeader(After(img), s.mem, h) else h + 8 <= |img| && EmptyList(After(img), h)
  }

  ghost function Heirs(s: Pm): iset<Image>
    requires Quiet(s, Chain(s.mem))
  {
    iset img: Image | Inherits(s, img)
  }

  /** The same for the memory of a running program. */
  ghost predicate Keeps(s: Pm, r: Pm)
    requires Quiet(s, Chain(s.mem)) && Quiet(r, Chain(r.mem))
  {
    && |r.mem| == |s.mem|
    && forall h :: h in Sight(r).live ==>
         if h in Sight(s).live then SameHeader(r.mem, s.mem, h) else h + 8 <= |r.mem| && EmptyList(r.mem, h)
  }

  lemma KeepsTrans(s: Pm, a: Pm, r: Pm)
    requires Quiet(s, Chain(s.mem)) && Quiet(a, Chain(a.mem)) && Quiet(r, Chain(r.mem))
    requires Keeps(s, a) && Keeps(a, r) && Sight(a).live == Sight(s).live
    ensures Keeps(s, r) && Heirs(a) <= Heirs(s)
  {
    hide Chain;
    hide Quiet;
    hide Sight;
    hide Recoverable;
    hide ViewOf;
    hide After;
    LiveInside(s);
    forall img | img in Heirs(a) ensures img in Heirs(s) {}
  }

  lemma LiveInside(s: Pm)
    requires Quiet(s, Chain(s.mem))
    ensures forall h :: h in Sight(s).live ==> h + 8 <= |s.mem|
  {
    LiveActive(s);
  }

  /** What an image left by such a call shows decides what recovery makes of the headers. */
  lemma CutInherits(s: Pm, img: Image, fresh_: set<nat>)
    requires Quiet(s, Chain(s.mem)) && Recoverable(img, Chain(img))
    requires img in Keeping(s.mem, HeaderWords(Sight(s).live.Keys))
    requires ViewOf(img, Chain(img)).live.Keys <= Sight(s).live.Keys + fresh_
    requires forall h :: h in fresh_ ==> Bare(img, h)
    ensures img in Heirs(s)
  {
    hide PersistentMemory.Exec;
    hide Chain;
    hide Quiet;
    hide ViewOf;
    hide Sight;
    hide ClumpOk;
    hide Clump;
    hide After;
    hide Keeping;
    LiveActive(s);
    KeepingSize(img, s.mem, HeaderWords(Sight(s).live.Keys));
    forall h | h in ViewOf(img, Chain(img)).live
      ensures if h in Sight(s).live then SameHeader(After(img), s.mem, h)
              else h + 8 <= |img| && EmptyList(After(img), h)
    {
      ActiveAfter(img, h);
      if h in Sight(s).live { KeptHeader(img, s.mem, Sight(s).live.Keys, h); }
    }
  }

  lemma KeepingSize(img: Image, m: Image, ws: set<nat>)
    requires img in Keeping(m, ws)
    ensures |img| == |m|
  {
  }

  /** A call that shows nothing new. */
  lemma HiddenCall(s: Pm, cursor: nat, cmd: Command, r: Pm)
    requires Called(s, cursor, cmd, r) && !cmd.OnFree? && !cmd.Free? && Sight(r).live == Sight(s).live
    ensures Guarded(s, CallSteps(s.mem, Chain(s.mem), cursor, cmd), Heirs(s)) && Keeps(s, r)
  {
    hide PersistentMemory.Exec;
    hide Chain;
    hide ClumpOk;
    hide Clump;
    hide Inherits;
    hide ViewOf;
    hide Legal;
    hide CallSteps;
    LiveActive(s);
    var prog, heads := CallSteps(s.mem, Chain(s.mem), cursor, cmd), Sight(s).live.Keys;
    CallKeepsHeaders(s, Chain(s.mem), cursor, cmd, heads);
    var a, b := Keeping(s.mem, HeaderWords(heads)), Showing({Sight(s), Sight(r)});
    GuardedBoth(s, prog, a, b);
    forall img | img in a * b ensures img in Heirs(s) { CutInherits(s, img, {}); }
    GuardedWiden(s, prog, a * b, Heirs(s));
    forall h | h in Sight(r).live ensures SameHeader(r.mem, s.mem, h) { KeptHeader(r.mem, s.mem, heads, h); }
  }

  /** An activation: the new clump's list is empty. */
  lemma ActivateCall(s: Pm, h: nat, r: Pm)
    requires Called(s, FIRST, Command.Activate(h), r)
    requires ViewAfter(Sight(r), s.mem, Chain(s.mem), Index(Chain(s.mem), h))
    ensures Guarded(s, CallSteps(s.mem, Chain(s.mem), FIRST, Command.Activate(h)), Heirs(s)) && Keeps(s, r)
  {
    hide PersistentMemory.Exec;
    hide Chain;
    hide ClumpOk;
    hide Clump;
    hide Inherits;
    hide ViewOf;
    hide ActivateSteps;
    hide Bare;
    LiveActive(s);
    GrownByOne(s, h, r);
    var prog, heads := CallSteps(s.mem, Chain(s.mem), FIRST, Command.Activate(h)), Sight(s).live.Keys;
    CallKeepsHeaders(s, Chain(s.mem), FIRST, Command.Activate(h), heads);
    ActivateBare(s, Chain(s.mem), h);
    var a, b, c := Keeping(s.mem, HeaderWords(heads)), Showing({Sight(s), Sight(r)}), Bares(|s.mem|, h);
    GuardedBoth(s, prog, a, b);
    GuardedBoth(s, prog, a * b, c);
    forall img | img in a * b * c ensures img in Heirs(s) { CutInherits(s, img, {h}); }
    GuardedWiden(s, prog, a * b * c, Heirs(s));
    ActivateKeeps(s, h, r);
  }

  lemma GrownByOne(s: Pm, h: nat, r: Pm)
    requires Called(s, FIRST, Command.Activate(h), r)
    requires ViewAfter(Sight(r), s.mem, Chain(s.mem), Index(Chain(s.mem), h))
    ensures Sight(r).live.Keys == Sight(s).live.Keys + {h} && |r.mem| == |s.mem|
  {
    hide PersistentMemory.Exec;
    hide Chain;
    LiveResolved(s.mem, Chain(s.mem));
  }

  lemma ActivatedBare(r: Pm, h: nat)
    requires Quiet(r, Chain(r.mem)) && Bare(r.mem, h)
    ensures h in Sight(r).live ==> h + 8 <= |r.mem| && EmptyList(r.mem, h)
  {
    LiveActive(r);
  }

  lemma ActivateKeeps(s: Pm, h: nat, r: Pm)
    requires Called(s, FIRST, Command.Activate(h), r) && Sight(r).live.Keys == Sight(s).live.Keys + {h}
    requires r.mem in Keeping(s.mem, HeaderWords(Sight(s).live.Keys)) && Bare(r.mem, h)
    requires forall g :: g in Sight(s).live ==> g + 8 <= |s.mem|
    requires |r.mem| == |s.mem|
    ensures Keeps(s, r)
  {
    hide PersistentMemory.Exec;
    hide Chain;
    hide ClumpOk;
    hide Clump;
    hide ViewOf;
    hide Legal;
    hide CallSteps;
    hide Guarded;
    hide Bare;
    ActivatedBare(r, h);
    hide Keeping;
    LiveActive(r);
    forall g | g in Sight(s).live ensures SameHeader(r.mem, s.mem, g) {
      KeptHeader(r.mem, s.mem, Sight(s).live.Keys, g);
    }
  }

  // ---------------------------------------------------------------------------------------
  // Opening the pool again
  // ---------------------------------------------------------------------------------------

  /** Recovery makes the same headers of live clumps of the image as `out` has. */
  ghost predicate Leads(out: Image, live: set<nat>, img: Image) {
    && |img| == |out| && Recoverable(img, Chain(img))
    && forall h :: h in live ==> SameHeader(After(img), out, h)
  }

  ghost function Leading(out: Image, live: set<nat>): iset<Image> { iset img: Image | Leads(out, live, img) }

  /** However often opening the pool is cut off, the lists of the live clumps come out the same. */
  lemma RestartHeaders(file: Image, r: Pm)
    requires Recoverable(file, Chain(file)) && r == Exec(Boot(file), RestartSteps(file, Chain(file)))
    ensures var live := ViewOf(file, Chain(file)).live.Keys;
            && Guarded(Boot(file), RestartSteps(file, Chain(file)), Leading(After(file), live))
            && forall h :: h in live ==> SameHeader(r.mem, After(file), h)
  {
    hide PersistentMemory.Exec;
    hide Chain;
    hide ClumpOk;
    hide Clump;
    hide Resolve;
    hide RecoverFrom;
    hide CoalesceFrom;
    var hs, live, out := Chain(file), ViewOf(file, Chain(file)).live.Keys, After(file);
    BootClean(file);
    var a := RecoverExact(Boot(file), hs, 0);
    ResolvedSettled(a, hs);
    ChainUnique(a.mem, hs);
    var p, q := RecoverFrom(file, hs, 0), CoalesceFrom(out, hs, 0);
    RecoveryLeads(Boot(file), p, file, live);
    MergingLeads(a, hs, live, Exec(a, q));
    InSequence(Boot(file), p, a, q, Exec(a, q), Leading(out, live));
  }

  lemma RecoveryLeads(s: Pm, p: seq<Instr>, file: Image, live: set<nat>)
    requires Sane(s) && Recoverable(file, Chain(file)) && live == ViewOf(file, Chain(file)).live.Keys
    requires Guarded(s, p, LeadingTo(After(file)))
    ensures Guarded(s, p, Leading(After(file), live))
  {
    hide PersistentMemory.Exec;
    hide Chain;
    hide ClumpOk;
    hide Clump;
    hide Resolve;
    var out := After(file);
    forall img | img in LeadingTo(out) ensures img in Leading(out, live) {
      forall h | h in live ensures SameHeader(After(img), out, h) { var i := LiveHeader(file, h); }
    }
    GuardedWiden(s, p, LeadingTo(out), Leading(out, live));
  }

  lemma MergingLeads(a: Pm, hs: seq<nat>, live: set<nat>, r: Pm)
    requires Quiet(a, hs) && hs == Chain(a.mem) && live == Sight(a).live.Keys
    requires r == Exec(a, CoalesceFrom(a.mem, hs, 0))
    ensures Guarded(a, CoalesceFrom(a.mem, hs, 0), Leading(a.mem, live))
    ensures forall h :: h in live ==> SameHeader(r.mem, a.mem, h)
  {
    hide PersistentMemory.Exec;
    hide Chain;
    hide ClumpOk;
    hide Clump;
    hide ViewOf;
    hide CoalesceFrom;
    LiveActive(a);
    var prog := CoalesceFrom(a.mem, hs, 0);
    CoalesceSpares(a.mem, hs, 0, live);
    HeadsSpared(prog, live);
    QuietRests(a, hs, live);
    SparedGuard(a, prog, HeaderWords(live));
    var r' := CoalescePass(a, hs, 0);
    var p, q := Keeping(a.mem, HeaderWords(live)), Showing({Sight(a)});
    GuardedBoth(a, prog, p, q);
    forall img | img in p * q ensures img in Leading(a.mem, live) { MergingCut(img, a.mem, live); }
    GuardedWiden(a, prog, p * q, Leading(a.mem, live));
    forall h | h in live ensures SameHeader(r.mem, a.mem, h) { KeptHeader(r.mem, a.mem, live, h); }
  }

  lemma MergingCut(img: Image, m: Image, live: set<nat>)
    requires img in Keeping(m, HeaderWords(live)) && Recoverable(img, Chain(img))
    requires live <= ViewOf(img, Chain(img)).live.Keys
    requires forall h :: h in live ==> h + 8 <= |m| && State(m[h]) == ACTIVE
    ensures img in Leading(m, live)
  {
    hide PersistentMemory.Exec;
    hide Chain;
    hide ClumpOk;
    hide Clump;
    hide ViewOf;
    forall h | h in live ensures SameHeader(After(img), m, h) {
      KeptHeader(img, m, live, h);
      ActiveAfter(img, h);
    }
  }
}
