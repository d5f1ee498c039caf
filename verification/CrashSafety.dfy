/** Which stores a crash can expose, and what they show to a restarted program. */
module CrashSafety {
  import opened PersistentMemory
  import opened PoolImage
  import opened RecoveryFacts

  // ---------------------------------------------------------------------------------------
  // Every crash point of a program
  // ---------------------------------------------------------------------------------------

  /** The image can be recovered, and the restarted program sees one of `vs`. */
  ghost predicate Shows(img: Image, vs: set<View>) {
    Recoverable(img, Chain(img)) && ViewOf(img, Chain(img)) in vs
  }

  ghost function Showing(vs: set<View>): iset<Image> {
    iset img: Image | Shows(img, vs)
  }

  /** Every image a crash can leave now is a good one. */
  ghost predicate Safe(s: Pm, good: iset<Image>) {
    forall img :: Survives(s.may, img) ==> img in good
  }

  /** A crash before, between or after the instructions leaves a good image. */
  ghost predicate Guarded(s: Pm, prog: seq<Instr>, good: iset<Image>)
    requires Sane(s)
    decreases |prog|
  {
    Safe(s, good) && (prog != [] ==> Guarded(Step(s, prog[0]), prog[1..], good))
  }

  /** `Guarded` spelled out: any cut of the program, any surviving image. */
  lemma {:induction false} GuardedEverywhere(s: Pm, prog: seq<Instr>, good: iset<Image>, n: nat, img: Image)
    requires Sane(s) && Guarded(s, prog, good) && n <= |prog|
    requires Survives(Exec(s, prog[..n]).may, img)
    ensures img in good
    decreases |prog|
  {
    if n > 0 {
      assert prog[..n][1..] == prog[1..][..n - 1];
      GuardedEverywhere(Step(s, prog[0]), prog[1..], good, n - 1, img);
    }
  }

  lemma {:induction false} GuardedConcat(s: Pm, p: seq<Instr>, q: seq<Instr>, good: iset<Image>)
    requires Sane(s) && Guarded(s, p, good) && Guarded(Exec(s, p), q, good)
    ensures Guarded(s, p + q, good)
    decreases |p|
  {
    if p == [] {
      assert p + q == q;
    } else {
      assert (p + q)[1..] == p[1..] + q;
      GuardedConcat(Step(s, p[0]), p[1..], q, good);
    }
  }

  /** Two programs in a row, with the state between them. */
  lemma InSequence(s: Pm, p: seq<Instr>, a: Pm, q: seq<Instr>, r: Pm, good: iset<Image>)
    requires Sane(s) && a == Exec(s, p) && r == Exec(a, q) && Guarded(s, p, good) && Guarded(a, q, good)
    ensures r == Exec(s, p + q) && Guarded(s, p + q, good)
  {
    GuardedConcat(s, p, q, good);
    ExecConcat(s, p, q);
  }

  lemma {:induction false} GuardedWiden(s: Pm, p: seq<Instr>, good: iset<Image>, more: iset<Image>)
    requires Sane(s) && Guarded(s, p, good) && good <= more
    ensures Guarded(s, p, more)
    decreases |p|
  {
    if p != [] { GuardedWiden(Step(s, p[0]), p[1..], good, more); }
  }

  lemma {:induction false} GuardedAtEnd(s: Pm, p: seq<Instr>, good: iset<Image>)
    requires Sane(s) && Guarded(s, p, good)
    ensures Safe(Exec(s, p), good)
    decreases |p|
  {
    if p != [] { GuardedAtEnd(Step(s, p[0]), p[1..], good); }
  }

  lemma FlushSafe(s: Pm, addr: nat, len: nat, good: iset<Image>)
    requires Sane(s) && Safe(s, good)
    ensures Safe(Step(s, Persist(addr, len)), good)
  {
    forall img | Survives(Step(s, Persist(addr, len)).may, img) ensures img in good {
      PersistShrinks(s, addr, len, img);
    }
  }

  // ---------------------------------------------------------------------------------------
  // Words at rest
  // ---------------------------------------------------------------------------------------

  /** A crash can only leave what the program reads. */
  ghost predicate Clean(s: Pm, w: nat) {
    w < |s.mem| && w < |s.may| && s.may[w] == {s.mem[w]}
  }

  ghost predicate Untouched(prog: seq<Instr>, w: nat) {
    forall i :: 0 <= i < |prog| && prog[i].Store? ==> prog[i].w != w
  }

  lemma {:induction false} ExecUntouched(s: Pm, prog: seq<Instr>, w: nat)
    requires Sane(s) && w < |s.mem| && Untouched(prog, w)
    ensures Exec(s, prog).mem[w] == s.mem[w]
    ensures Clean(s, w) ==> Clean(Exec(s, prog), w)
    decreases |prog|
  {
    if prog != [] {
      assert prog[0].Store? ==> prog[0].w != w;
      assert Untouched(prog[1..], w) by {
        assert forall i :: 0 <= i < |prog[1..]| ==> prog[1..][i] == prog[i + 1];
      }
      ExecUntouched(Step(s, prog[0]), prog[1..], w);
    }
  }

  // ---------------------------------------------------------------------------------------
  // The words that decide what a crash shows
  // ---------------------------------------------------------------------------------------

  /** Word w is the destination of an executed entry of the list at h. */
  ghost predicate Dest(img: Image, h: nat, w: nat)
    requires h + 8 <= |img|
  {
    || (ListLen(img, h) > 0 && img[h + 2] / 8 == w)
    || (ListLen(img, h) > 1 && img[h + 4] / 8 == w)
    || (ListLen(img, h) > 2 && img[h + 6] / 8 == w)
  }

  ghost predicate RelevantHeader(m: Image, hs: seq<nat>, i: nat, w: nat)
    requires Bounds(hs, |m|) && i < |hs|
  {
    || w == hs[i]
    || (i < |hs| - 1 && (State(m[hs[i]]) == ACTIVE || Transit(m[hs[i]])) &&
        (w == hs[i] + 2 || w == hs[i] + 4 || w == hs[i] + 6))
    || (i < |hs| - 1 && Transit(m[hs[i]]) && (w == hs[i] + 3 || w == hs[i] + 5 || w == hs[i] + 7))
  }

  /** Size words, the lists recovery looks at, and the visible words that no unfinished list is
      going to overwrite; t is the one clump that may be in transit. */
  ghost predicate Relevant(m: Image, hs: seq<nat>, t: nat, w: nat)
    requires Bounds(hs, |m|) && t < |hs| - 1
  {
    || (exists i :: 0 <= i < |hs| && RelevantHeader(m, hs, i, w))
    || (Visible(Living(m, hs), w) && !(Transit(m[hs[t]]) && Dest(m, hs[t], w)))
  }

  ghost predicate Agrees(img: Image, m: Image, hs: seq<nat>, t: nat)
    requires Bounds(hs, |m|) && t < |hs| - 1
  {
    && |img| == |m|
    && forall w :: 0 <= w < |m| && Relevant(m, hs, t, w) ==> img[w] == m[w]
  }

  lemma AgreesRecoverable(img: Image, m: Image, hs: seq<nat>, t: nat)
    requires Recoverable(m, hs) && OnlyTransit(m, hs, t) && Agrees(img, m, hs, t)
    ensures Recoverable(img, hs) && OnlyTransit(img, hs, t)
    ensures img[hs[t]] == m[hs[t]]
    ensures forall i :: 0 <= i < |hs| ==> img[hs[i]] == m[hs[i]]
  {
    forall i | 0 <= i < |hs| ensures img[hs[i]] == m[hs[i]] {
      assert RelevantHeader(m, hs, i, hs[i]);
    }
    forall i | 0 <= i < |hs| - 1 ensures Clump(img, hs, i) && ClumpOk(img, hs, i) {
      var h := hs[i];
      assert Clump(m, hs, i) && ClumpOk(m, hs, i);
      if State(m[h]) == ACTIVE || Transit(m[h]) {
        assert RelevantHeader(m, hs, i, h + 2) && RelevantHeader(m, hs, i, h + 4) && RelevantHeader(m, hs, i, h + 6);
      }
      if Transit(m[h]) {
        assert RelevantHeader(m, hs, i, h + 3) && RelevantHeader(m, hs, i, h + 5) && RelevantHeader(m, hs, i, h + 7);
      }
    }
  }

  /** Agreeing on the relevant words is enough to show the same view. */
  lemma AgreesShows(img: Image, m: Image, hs: seq<nat>, t: nat)
    requires Recoverable(m, hs) && OnlyTransit(m, hs, t) && Agrees(img, m, hs, t)
    ensures Shows(img, {ViewOf(m, hs)})
  {
    AgreesRecoverable(img, m, hs, t);
    ChainUnique(img, hs);
    assert Living(img, hs) == Living(m, hs);
    var h := hs[t];
    if Transit(m[h]) {
      assert RelevantHeader(m, hs, t, h + 2) && RelevantHeader(m, hs, t, h + 4) && RelevantHeader(m, hs, t, h + 6);
      assert RelevantHeader(m, hs, t, h + 3) && RelevantHeader(m, hs, t, h + 5) && RelevantHeader(m, hs, t, h + 7);
    }
    forall w: nat | w < |img| && Visible(Living(m, hs), w) ensures Seen(img, hs, t, w) == Seen(m, hs, t, w) {
      if !(Transit(m[h]) && Dest(m, h, w)) { assert Relevant(m, hs, t, w); }
    }
    SameView(img, hs, t, m, hs, t);
  }

  /** Every surviving image agrees with the reference image m. */
  ghost predicate Steady(s: Pm, m: Image, hs: seq<nat>, t: nat) {
    && Sane(s)
    && Recoverable(m, hs) && OnlyTransit(m, hs, t)
    && |s.mem| == |m|
    && forall w :: 0 <= w < |m| && Relevant(m, hs, t, w) ==> s.mem[w] == m[w] && s.may[w] == {m[w]}
  }

  lemma SteadySafe(s: Pm, m: Image, hs: seq<nat>, t: nat)
    requires Steady(s, m, hs, t)
    ensures Safe(s, Showing({ViewOf(m, hs)}))
  {
    forall img | Survives(s.may, img) ensures img in Showing({ViewOf(m, hs)}) {
      forall w | 0 <= w < |m| && Relevant(m, hs, t, w) ensures img[w] == m[w] {
        assert img[w] in s.may[w];
      }
      AgreesShows(img, m, hs, t);
    }
  }

  /** A persist, or a store to a word that does not matter. */
  ghost predicate Idle(i: Instr, m: Image, hs: seq<nat>, t: nat)
    requires Bounds(hs, |m|) && t < |hs| - 1
  {
    i.Store? ==> !Relevant(m, hs, t, i.w)
  }

  lemma {:induction false} IdleProgram(s: Pm, prog: seq<Instr>, m: Image, hs: seq<nat>, t: nat)
    requires Steady(s, m, hs, t)
    requires forall i :: 0 <= i < |prog| ==> Idle(prog[i], m, hs, t)
    ensures Steady(Exec(s, prog), m, hs, t)
    ensures Guarded(s, prog, Showing({ViewOf(m, hs)}))
    decreases |prog|
  {
    SteadySafe(s, m, hs, t);
    if prog != [] {
      var r := Step(s, prog[0]);
      assert Idle(prog[0], m, hs, t);
      assert Steady(r, m, hs, t);
      IdleProgram(r, prog[1..], m, hs, t);
    }
  }

  /** The state once a crash is known to leave v in word w. */
  ghost function Pin(s: Pm, w: nat, v: nat): (r: Pm)
    requires Sane(s) && w < |s.mem|
    ensures Sane(r)
  {
    Pm(s.mem[w := v], s.may[w := {v}])
  }

  /** After a store, a crash shows what it showed before or what it shows with the new value. */
  lemma StoreSafe(s: Pm, w: nat, v: nat, good: iset<Image>)
    requires Sane(s) && w < |s.mem|
    requires Safe(s, good) && Safe(Pin(s, w, v), good)
    ensures Safe(Step(s, Store(w, v)), good)
  {
    var r := Step(s, Store(w, v));
    forall img | Survives(r.may, img) ensures img in good {
      forall x | 0 <= x < |img| && x != w ensures img[x] in s.may[x] { assert img[x] in r.may[x]; }
      assert img[w] in r.may[w];
      if img[w] in s.may[w] {
        assert Survives(s.may, img);
      } else {
        assert Survives(Pin(s, w, v).may, img);
      }
    }
  }

  lemma SafeWiden(s: Pm, good: iset<Image>, more: iset<Image>)
    requires Safe(s, good) && good <= more
    ensures Safe(s, more)
  {
  }

  /** A store and its persist leave the word pinned. */
  lemma PinSteady(s: Pm, w: nat, v: nat, addr: nat, len: nat, m: Image, hs: seq<nat>, t: nat)
    requires Sane(s) && w < |s.mem| && Covered(addr, len, w)
    requires Steady(Pin(s, w, v), m, hs, t)
    ensures Steady(Step(Step(s, Store(w, v)), Persist(addr, len)), m, hs, t)
  {
    var r := Step(Step(s, Store(w, v)), Persist(addr, len));
    forall x | 0 <= x < |m| && Relevant(m, hs, t, x) ensures r.mem[x] == m[x] && r.may[x] == {m[x]} {
      assert Pin(s, w, v).mem[x] == m[x] && Pin(s, w, v).may[x] == {m[x]};
    }
  }

  /** Two instructions, three crash points. */
  lemma GuardedPair(s: Pm, i: Instr, j: Instr, good: iset<Image>)
    requires Sane(s)
    requires Safe(s, good) && Safe(Step(s, i), good) && Safe(Step(Step(s, i), j), good)
    ensures Guarded(s, [i, j], good) && Exec(s, [i, j]) == Step(Step(s, i), j)
  {
    assert [i, j][1..] == [j] && [j][1..] == [];
    assert Guarded(Step(Step(s, i), j), [], good);
    assert Guarded(Step(s, i), [j], good);
    assert Exec(Step(s, i), [j]) == Step(Step(s, i), j);
  }

  /** One decisive store and its persist: before, the crash shows the old view or the new one;
      afterwards the new one. */
  lemma Flip(s: Pm, w: nat, v: nat, addr: nat, len: nat,
             m: Image, hs: seq<nat>, t: nat, m': Image, hs': seq<nat>, t': nat)
    requires Sane(s) && Steady(s, m, hs, t)
    requires w < |s.mem| && Covered(addr, len, w)
    requires Steady(Pin(s, w, v), m', hs', t')
    ensures Guarded(s, [Store(w, v), Persist(addr, len)], Showing({ViewOf(m, hs), ViewOf(m', hs')}))
    ensures Steady(Exec(s, [Store(w, v), Persist(addr, len)]), m', hs', t')
  {
    var good := Showing({ViewOf(m, hs), ViewOf(m', hs')});
    SteadySafe(s, m, hs, t);
    SteadySafe(Pin(s, w, v), m', hs', t');
    SafeWiden(s, Showing({ViewOf(m, hs)}), good);
    SafeWiden(Pin(s, w, v), Showing({ViewOf(m', hs')}), good);
    StoreSafe(s, w, v, good);
    FlushSafe(Step(s, Store(w, v)), addr, len, good);
    GuardedPair(s, Store(w, v), Persist(addr, len), good);
    PinSteady(s, w, v, addr, len, m', hs', t');
  }
}
