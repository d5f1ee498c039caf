/** Registering stores (pmemalloc_onactive, pmemalloc_onfree), releasing a reservation, and the
    client's own stores. */
module Registering {
  import opened PersistentMemory
  import opened PoolImage
  import opened RecoveryFacts
  import opened CrashSafety
  import opened Finishing
  import opened Activation

  /** The entry that the next registration takes; 3 when the list is full. */
  function FreeSlot(m: Image, h: nat): (i: nat)
    requires h + 8 <= |m|
    ensures i <= 3
    ensures i < 3 ==> m[h + 2 + 2 * i] == 0
    ensures forall j :: 0 <= j < i ==> m[h + 2 + 2 * j] != 0
  {
    ListLen(m, h)
  }

  /** The value is durable before the offset that makes it count. */
  function RegisterSteps(h: nat, slot: nat, off: nat, v: nat): seq<Instr> {
    [Store(h + 3 + 2 * slot, v), HeaderFlush(h)] + [Store(h + 2 + 2 * slot, off), HeaderFlush(h)]
  }

  ghost predicate CanRegister(m: Image, hs: seq<nat>, k: nat, off: nat)
    requires Bounds(hs, |m|)
  {
    && k < |hs| - 1
    && (State(m[hs[k]]) == RESERVED || State(m[hs[k]]) == ACTIVE)
    && FreeSlot(m, hs[k]) < 3
    && ReachOffset(m, hs, State(m[hs[k]]), off)
  }

  /** A store inside header k, its size word apart, followed by the header's flush. */
  lemma HeaderStore(s: Pm, hs: seq<nat>, k: nat, w: nat, v: nat)
    requires Sane(s) && Bounds(hs, |s.mem|) && k < |hs| && hs[k] <= w < hs[k] + 8
    ensures var r := Exec(s, [Store(w, v), HeaderFlush(hs[k])]);
            && r.mem == s.mem[w := v]
            && (forall x :: hs[k] <= x < hs[k] + 8 ==> Clean(r, x))
            && (forall x :: 0 <= x < |s.mem| && Clean(s, x) ==> Clean(r, x))
  {
    var p := [Store(w, v), HeaderFlush(hs[k])];
    var a := Step(s, p[0]);
    var b := Step(a, p[1]);
    assert p[1..] == [p[1]] && p[1..][1..] == [];
    assert Exec(s, p) == Exec(a, p[1..]) == b;
    forall x | hs[k] <= x < hs[k] + 8 ensures Clean(b, x) { HeaderCovered(hs[k], x); }
  }

  /** A different word inside header k: the chain and what lists may name stay. */
  lemma ReachIgnores(m: Image, hs: seq<nat>, k: nat, w: nat, v: nat, owner: nat, off: nat)
    requires Bounds(hs, |m|) && k < |hs| - 1 && hs[k] < w < hs[k] + 8
    requires ReachOffset(m, hs, owner, off)
    ensures ReachOffset(m[w := v], hs, owner, off)
  {
    var a := m[w := v];
    forall j | 0 <= j < |hs| - 1 ensures a[hs[j]] == m[hs[j]] { if j != k { HeadersApart(hs, |m|, j, k); } }
    ReachKept(a, m, hs, owner, off);
  }

  lemma ListIgnores(m: Image, hs: seq<nat>, k: nat, w: nat, v: nat, owner: nat, i: nat)
    requires Bounds(hs, |m|) && k < |hs| - 1 && hs[k] < w < hs[k] + 8 && i < |hs| - 1
    requires ListReaches(m, hs, owner, hs[i])
    requires i == k && OffWord(hs[k], w) ==> v == 0 || ReachOffset(m, hs, owner, v)
    ensures ListReaches(m[w := v], hs, owner, hs[i])
  {
    var a := m[w := v];
    if i != k { HeadersApart(hs, |m|, i, k); }
    var h := hs[i];
    if a[h + 2] != 0 { ReachIgnores(m, hs, k, w, v, owner, a[h + 2]); }
    if a[h + 4] != 0 { ReachIgnores(m, hs, k, w, v, owner, a[h + 4]); }
    if a[h + 6] != 0 { ReachIgnores(m, hs, k, w, v, owner, a[h + 6]); }
  }

  /** A header word that is not a size word; an offset must be one its list may name. */
  ghost predicate HeaderEdit(m: Image, hs: seq<nat>, k: nat, w: nat, v: nat)
    requires Bounds(hs, |m|)
  {
    && k < |hs| - 1 && hs[k] < w < hs[k] + 8
    && (OffWord(hs[k], w) ==> v == 0 || ReachOffset(m, hs, State(m[hs[k]]), v))
  }

  lemma EditKeeps(m: Image, hs: seq<nat>, k: nat, w: nat, v: nat)
    requires Recoverable(m, hs) && NoTransit(m, hs) && ReservedReaches(m, hs) && HeaderEdit(m, hs, k, w, v)
    ensures var a := m[w := v];
            Recoverable(a, hs) && NoTransit(a, hs) && ReservedReaches(a, hs)
            && Living(a, hs) == Living(m, hs) && ViewOf(a, hs) == ViewOf(m, hs)
  {
    var a := m[w := v];
    forall j | 0 <= j < |hs| ensures a[hs[j]] == m[hs[j]] { if j != k { HeadersApart(hs, |m|, j, k); } }
    forall i | 0 <= i < |hs| - 1 ensures Clump(a, hs, i) && ClumpOk(a, hs, i) {
      assert Clump(m, hs, i) && ClumpOk(m, hs, i);
      if State(m[hs[i]]) == ACTIVE { ListIgnores(m, hs, k, w, v, ACTIVE, i); }
    }
    forall i | 0 <= i < |hs| - 1 && State(a[hs[i]]) == RESERVED ensures ListReaches(a, hs, RESERVED, hs[i]) {
      ListIgnores(m, hs, k, w, v, RESERVED, i);
    }
    EditView(m, hs, k, w, v);
  }

  lemma EditView(m: Image, hs: seq<nat>, k: nat, w: nat, v: nat)
    requires Recoverable(m, hs) && NoTransit(m, hs) && k < |hs| - 1 && hs[k] < w < hs[k] + 8
    requires Recoverable(m[w := v], hs) && NoTransit(m[w := v], hs)
    requires forall j :: 0 <= j < |hs| ==> m[w := v][hs[j]] == m[hs[j]]
    ensures Living(m[w := v], hs) == Living(m, hs) && ViewOf(m[w := v], hs) == ViewOf(m, hs)
  {
    var a := m[w := v];
    assert Living(a, hs) == Living(m, hs);
    forall x: nat | x < |m| && Visible(Living(a, hs), x) ensures a[x] == m[x] {
      VisibleIsTarget(m, hs, x);
      TargetIsNoHeader(hs, |m|, x);
      OutsideHeader(hs, k, x);
    }
    SameView(a, hs, 0, m, hs, 0);
  }

  /** One such edit and its flush: nothing shows. */
  lemma EditAtomic(s: Pm, hs: seq<nat>, k: nat, w: nat, v: nat) returns (r: Pm)
    requires Quiet(s, hs) && HeaderEdit(s.mem, hs, k, w, v)
    ensures r == Exec(s, [Store(w, v), HeaderFlush(hs[k])])
    ensures r.mem == s.mem[w := v] && Quiet(r, hs)
    ensures ViewOf(r.mem, hs) == ViewOf(s.mem, hs)
    ensures Guarded(s, [Store(w, v), HeaderFlush(hs[k])], Showing({ViewOf(s.mem, hs)}))
  {
    r := Exec(s, [Store(w, v), HeaderFlush(hs[k])]);
    HeaderStore(s, hs, k, w, v);
    EditKeeps(s.mem, hs, k, w, v);
    var b := s.mem[w := v];
    QuietSteady(s, hs, 0);
    forall x | 0 <= x < |b| && x != w && Relevant(b, hs, 0, x) ensures Clean(s, x) { RelevantIsPinned(b, hs, 0, x); }
    assert Steady(Pin(s, w, v), b, hs, 0);
    HeaderCovered(hs[k], w);
    Flip(s, w, v, 8 * hs[k], 64, s.mem, hs, 0, b, hs, 0);
    assert {ViewOf(s.mem, hs), ViewOf(b, hs)} == {ViewOf(s.mem, hs)};
  }

  /** Registering a store shows nothing at any point. */
  lemma RegisterAtomic(s: Pm, hs: seq<nat>, k: nat, off: nat, v: nat) returns (r: Pm)
    requires Quiet(s, hs) && CanRegister(s.mem, hs, k, off)
    ensures var i := FreeSlot(s.mem, hs[k]); var p := RegisterSteps(hs[k], i, off, v);
            && r == Exec(s, p)
            && r.mem == s.mem[hs[k] + 3 + 2 * i := v][hs[k] + 2 + 2 * i := off]
            && Guarded(s, p, Showing({ViewOf(s.mem, hs)}))
    ensures Quiet(r, hs) && ViewOf(r.mem, hs) == ViewOf(s.mem, hs)
    ensures State(r.mem[hs[k]]) == State(s.mem[hs[k]])
  {
    hide PersistentMemory.Exec;
    var h := hs[k];
    var i := FreeSlot(s.mem, h);
    var a := EditAtomic(s, hs, k, h + 3 + 2 * i, v);
    ReachIgnores(s.mem, hs, k, h + 3 + 2 * i, v, State(s.mem[h]), off);
    r := EditAtomic(a, hs, k, h + 2 + 2 * i, off);
    var p, q := [Store(h + 3 + 2 * i, v), HeaderFlush(h)], [Store(h + 2 + 2 * i, off), HeaderFlush(h)];
    InSequence(s, p, a, q, r, Showing({ViewOf(s.mem, hs)}));
  }

  // ---------------------------------------------------------------------------------------
  // Freeing a reserved clump
  // ---------------------------------------------------------------------------------------

  lemma ReleaseKeeps(m: Image, hs: seq<nat>, k: nat)
    requires Recoverable(m, hs) && NoTransit(m, hs) && ReservedReaches(m, hs)
    requires k < |hs| - 1 && State(m[hs[k]]) == RESERVED && Unnamed(m, hs, k)
    ensures var a := m[hs[k] := Bytes(m[hs[k]]) + FREE];
            Restated(a, m, hs, k) && Recoverable(a, hs) && NoTransit(a, hs) && ReservedReaches(a, hs)
            && Living(a, hs) == Living(m, hs)
  {
    var h := hs[k];
    var a := m[h := Bytes(m[h]) + FREE];
    SizeWord(Bytes(m[h]), FREE);
    RestatedTiled(a, m, hs, k);
    forall j | 0 <= j < |hs| && j != k ensures SameHeader(a, m, hs[j]) { RestatedHeaders(a, m, hs, k, j); }
    forall j | 0 <= j < |hs| && j != k ensures a[hs[j]] == m[hs[j]] { assert SameHeader(a, m, hs[j]); }
    forall i | 0 <= i < |hs| - 1 ensures ClumpOk(a, hs, i) && !Transit(a[hs[i]]) {
      assert ClumpOk(m, hs, i);
      if i != k && State(m[hs[i]]) == ACTIVE { ListKept(a, m, hs, k, i, ACTIVE); }
    }
    forall i | 0 <= i < |hs| - 1 && State(a[hs[i]]) == RESERVED ensures ListReaches(a, hs, RESERVED, hs[i]) {
      ListKept(a, m, hs, k, i, RESERVED);
    }
    assert Living(a, hs) == Living(m, hs);
  }

  /** Freeing a reserved clump shows nothing: a restarted program never had it. */
  lemma ReleaseAtomic(s: Pm, hs: seq<nat>, k: nat) returns (r: Pm)
    requires Quiet(s, hs) && k < |hs| - 1 && State(s.mem[hs[k]]) == RESERVED && Unnamed(s.mem, hs, k)
    ensures r == Exec(s, SetSize(hs[k], Bytes(s.mem[hs[k]]) + FREE))
    ensures r.mem == s.mem[hs[k] := Bytes(s.mem[hs[k]]) + FREE] && Quiet(r, hs)
    ensures ViewOf(r.mem, hs) == ViewOf(s.mem, hs)
    ensures Guarded(s, SetSize(hs[k], Bytes(s.mem[hs[k]]) + FREE), Showing({ViewOf(s.mem, hs)}))
  {
    var m, h := s.mem, hs[k];
    var v := Bytes(m[h]) + FREE;
    var b := m[h := v];
    ReleaseKeeps(m, hs, k);
    r := Exec(s, SetSize(h, v));
    SetSizeEffect(s, h, v);
    QuietSteady(s, hs, 0);
    forall x | 0 <= x < |b| && x != h && Relevant(b, hs, 0, x) ensures Clean(s, x) { RelevantIsPinned(b, hs, 0, x); }
    assert Steady(Pin(s, h, v), b, hs, 0);
    forall x: nat | x < |m| && Visible(Living(m, hs), x) ensures b[x] == m[x] {
      VisibleIsTarget(m, hs, x);
      TargetIsNoHeader(hs, |m|, x);
      OutsideHeader(hs, k, x);
    }
    SameView(b, hs, 0, m, hs, 0);
    HeaderCovered(h, h);
    Flip(s, h, v, 8 * h, 64, m, hs, 0, b, hs, 0);
    assert {ViewOf(m, hs), ViewOf(b, hs)} == {ViewOf(m, hs)};
  }

  // ---------------------------------------------------------------------------------------
  // Client stores
  // ---------------------------------------------------------------------------------------

  /** Reserved memory is invisible, so a client fills it with plain stores. */
  lemma FillAtomic(s: Pm, hs: seq<nat>, k: nat, w: nat, v: nat) returns (r: Pm)
    requires Quiet(s, hs) && Inside(hs, k, w) && State(s.mem[hs[k]]) == RESERVED
    ensures w < |s.mem|
    ensures r == Exec(s, [Store(w, v)]) && r.mem == s.mem[w := v]
    ensures Quiet(r, hs) && ViewOf(r.mem, hs) == ViewOf(s.mem, hs)
    ensures Guarded(s, [Store(w, v)], Showing({ViewOf(s.mem, hs)}))
  {
    var m := s.mem;
    assert hs[k + 1] + 8 <= |m|;
    r := Step(s, Store(w, v));
    assert Exec(s, [Store(w, v)]) == r;
    InsideReserved(m, hs, k, w);
    forall j | 0 <= j < |hs| ensures SameHeader(r.mem, m, hs[j]) {
      assert !Header(hs, w);
      OutsideHeader(hs, j, w);
    }
    QuietSteady(s, hs, 0);
    if Relevant(m, hs, 0, w) { RelevantIsPinned(m, hs, 0, w); assert false; }
    IdleProgram(s, [Store(w, v)], m, hs, 0);
    PayloadStore(m, hs, w, v);
    forall x: nat | x < |m| && Visible(Living(m, hs), x) ensures r.mem[x] == m[x] {}
    SameView(r.mem, hs, 0, m, hs, 0);
    forall x: nat | x < |m| && Pinned(r.mem, hs, x) ensures Clean(r, x) { assert Pinned(m, hs, x); }
  }

  lemma InsideReserved(m: Image, hs: seq<nat>, k: nat, w: nat)
    requires Tiled(m, hs) && NoTransit(m, hs) && Inside(hs, k, w) && State(m[hs[k]]) == RESERVED
    ensures !Pinned(m, hs, w) && !Header(hs, w)
  {
    assert hs[0] <= hs[k] by { if k > 0 { assert hs[0] + 8 <= hs[k]; } }
    forall i | 0 <= i < |hs| ensures !(hs[i] <= w < hs[i] + 8) {
      PayloadBesideHeader(hs, |m|, k, i, w);
    }
    forall g | g in Living(m, hs) ensures !(g + 8 <= w < g + Living(m, hs)[g]) {
      var i :| 0 <= i < |hs| && hs[i] == g;
      assert i < |hs| - 1 && Clump(m, hs, i);
      if i + 1 < k { assert hs[i + 1] + 8 <= hs[k]; }
      if i > k + 1 { assert hs[k + 1] + 8 <= hs[i]; }
    }
  }

  /** A store outside the headers leaves chain and lists alone. */
  lemma PayloadStore(m: Image, hs: seq<nat>, w: nat, v: nat)
    requires Recoverable(m, hs) && NoTransit(m, hs) && ReservedReaches(m, hs)
    requires w < |m| && !Header(hs, w)
    ensures var a := m[w := v];
            Recoverable(a, hs) && NoTransit(a, hs) && ReservedReaches(a, hs) && Living(a, hs) == Living(m, hs)
  {
    var a := m[w := v];
    forall j | 0 <= j < |hs| ensures SameHeader(a, m, hs[j]) { OutsideHeader(hs, j, w); }
    forall j | 0 <= j < |hs| ensures a[hs[j]] == m[hs[j]] { assert SameHeader(a, m, hs[j]); }
    forall i | 0 <= i < |hs| - 1 ensures Clump(a, hs, i) && ClumpOk(a, hs, i) {
      assert Clump(m, hs, i) && ClumpOk(m, hs, i) && SameHeader(a, m, hs[i]);
      if State(m[hs[i]]) == ACTIVE { SameSizesList(a, m, hs, ACTIVE, hs[i]); }
    }
    forall i | 0 <= i < |hs| - 1 && State(a[hs[i]]) == RESERVED ensures ListReaches(a, hs, RESERVED, hs[i]) {
      assert SameHeader(a, m, hs[i]);
      SameSizesList(a, m, hs, RESERVED, hs[i]);
    }
    assert Living(a, hs) == Living(m, hs);
  }

  /** A visible word, stored and persisted: the crash shows the old value or the new one. */
  lemma PokeAtomic(s: Pm, hs: seq<nat>, w: nat, v: nat, len: nat) returns (r: Pm)
    requires Quiet(s, hs) && w < |s.mem| && Visible(Living(s.mem, hs), w) && len > 0
    ensures r == Exec(s, [Store(w, v), Persist(8 * w, len)])
    ensures r.mem == s.mem[w := v] && Quiet(r, hs)
    ensures w in ViewOf(s.mem, hs).words
    ensures ViewOf(r.mem, hs) == ViewOf(s.mem, hs).(words := ViewOf(s.mem, hs).words[w := v])
    ensures Guarded(s, [Store(w, v), Persist(8 * w, len)], Showing({ViewOf(s.mem, hs), ViewOf(r.mem, hs)}))
  {
    var m := s.mem;
    var b := m[w := v];
    VisibleIsTarget(m, hs, w);
    TargetIsNoHeader(hs, |m|, w);
    PayloadStore(m, hs, w, v);
    var p := [Store(w, v), Persist(8 * w, len)];
    var a := Step(s, p[0]);
    r := Step(a, p[1]);
    assert p[1..] == [p[1]] && p[1..][1..] == [];
    assert Exec(s, p) == Exec(a, p[1..]) == r;
    assert Covered(8 * w, len, w);
    QuietSteady(s, hs, 0);
    forall x | 0 <= x < |b| && x != w && Relevant(b, hs, 0, x) ensures Clean(s, x) { RelevantIsPinned(b, hs, 0, x); }
    assert Steady(Pin(s, w, v), b, hs, 0);
    Flip(s, w, v, 8 * w, len, m, hs, 0, b, hs, 0);
    forall x: nat | x < |m| && Pinned(b, hs, x) ensures Clean(r, x) { assert Pinned(m, hs, x); }
    ViewWords(m, hs, 0);
    ViewWords(b, hs, 0);
    assert ViewOf(b, hs).words == ViewOf(m, hs).words[w := v];
  }
}
