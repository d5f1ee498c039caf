/** Why a search must start at a clump of the chain.

    The cursor names the clump reserved last.  Freeing can merge that clump into a free neighbour;
    its old header is then payload of a free clump, still looks like a free clump, and the next
    search starts there. */
module StaleCursor {
  import opened PersistentMemory
  import opened PoolImage
  import opened RecoveryFacts
  import opened CrashSafety
  import opened Finishing
  import opened Activation
  import opened Rechaining
  import opened Coalescing
  import opened Reserving
  import opened Registering
  import opened Calls
  import opened Runs

  // ---------------------------------------------------------------------------------------
  // What the merging pass swallows
  // ---------------------------------------------------------------------------------------

  /** Clump i is free, and so is the one below it: the pass from clump p on merges them. */
  ghost predicate Swallowed(m: Image, hs: seq<nat>, p: nat, i: nat)
    requires Bounds(hs, |m|)
  {
    p < i < |hs| - 1 && State(m[hs[i - 1]]) == FREE && State(m[hs[i]]) == FREE
  }

  lemma JoinedPlaces(hs: seq<nat>, words: nat, p: nat, q: nat, i: nat)
    requires Bounds(hs, words) && p < q < |hs| && i < |hs|
    ensures i <= p ==> Joined(hs, p, q)[i] == hs[i]
    ensures q <= i ==> Joined(hs, p, q)[i - (q - p - 1)] == hs[i]
    ensures p < i < q ==> hs[i] !in Joined(hs, p, q)
  {
    JoinedBounds(hs, words, p, q);
    if p < i < q {
      var gs := Joined(hs, p, q);
      forall j | 0 <= j < |gs| ensures gs[j] != hs[i] {
        HeadersApart(hs, words, if j <= p then j else j + (q - p - 1), i);
      }
    }
  }

  lemma JoinedStates(m: Image, hs: seq<nat>, p: nat, q: nat, i: nat)
    requires Bounds(hs, |m|) && FreeRun(m, hs, p, q) && q <= i < |hs| && hs[p] <= hs[q]
    ensures m[hs[p] := MergedSize(hs, p, q)][hs[i]] == m[hs[i]]
  {
    HeadersApart(hs, |m|, p, i);
  }

  lemma JoinedSwallows(m: Image, hs: seq<nat>, p: nat, q: nat, i: nat)
    requires Bounds(hs, |m|) && FreeRun(m, hs, p, q) && q <= i < |hs| - 1 && hs[p] <= hs[q]
    requires Bounds(Joined(hs, p, q), |m|) && (q < |hs| - 1 ==> State(m[hs[q]]) != FREE)
    ensures Swallowed(m[hs[p] := MergedSize(hs, p, q)], Joined(hs, p, q), p + 1, i - (q - p - 1)) <==>
              Swallowed(m, hs, p, i)
  {
    hide State;
    JoinedPlaces(hs, |m|, p, q, i);
    JoinedStates(m, hs, p, q, i);
    if i > q {
      JoinedPlaces(hs, |m|, p, q, i - 1);
      JoinedStates(m, hs, p, q, i - 1);
    }
  }

  /** A header below the pass stays where it is. */
  lemma {:induction false} PassPrefix(m: Image, hs: seq<nat>, p: nat, i: nat)
    requires Bounds(hs, |m|) && i <= p < |hs|
    ensures i < |CoalescedFrom(m, hs, p)| && CoalescedFrom(m, hs, p)[i] == hs[i]
    decreases |hs| - p
  {
    if p < |hs| - 1 {
      var q := RunEnd(m, hs, p + 1);
      if State(m[hs[p]]) != FREE || q == p + 1 {
        PassPrefix(m, hs, p + 1, i);
      } else {
        JoinedBounds(hs, |m|, p, q);
        PassPrefix(m[hs[p] := MergedSize(hs, p, q)], Joined(hs, p, q), p + 1, i);
      }
    }
  }

  /** After the pass a clump is still there exactly if it was not swallowed. */
  lemma {:induction false} PassKeeps(m: Image, hs: seq<nat>, p: nat, i: nat)
    requires Bounds(hs, |m|) && p < |hs| && i < |hs| - 1
    ensures hs[i] in CoalescedFrom(m, hs, p) <==> !Swallowed(m, hs, p, i)
    decreases |hs| - p
  {
    if i <= p {
      PassPrefix(m, hs, p, i);
    } else if p < |hs| - 1 {
      var q := RunEnd(m, hs, p + 1);
      if State(m[hs[p]]) != FREE || q == p + 1 {
        PassKeeps(m, hs, p + 1, i);
        if i == p + 1 { PassPrefix(m, hs, p + 1, i); }
      } else {
        JoinedBounds(hs, |m|, p, q);
        var b, gs := m[hs[p] := MergedSize(hs, p, q)], Joined(hs, p, q);
        JoinedPlaces(hs, |m|, p, q, i);
        if i < q {
          PassDrops(b, gs, p + 1, hs[i]);
        } else {
          PassKeeps(b, gs, p + 1, i - (q - p - 1));
          JoinedSwallows(m, hs, p, q, i);
        }
      }
    }
  }

  /** The pass makes no new headers. */
  lemma {:induction false} PassDrops(m: Image, hs: seq<nat>, p: nat, c: nat)
    requires Bounds(hs, |m|) && p < |hs| && c !in hs
    ensures c !in CoalescedFrom(m, hs, p)
    decreases |hs| - p
  {
    if p < |hs| - 1 {
      var q := RunEnd(m, hs, p + 1);
      if State(m[hs[p]]) != FREE || q == p + 1 {
        PassDrops(m, hs, p + 1, c);
      } else {
        JoinedBounds(hs, |m|, p, q);
        PassDrops(m[hs[p] := MergedSize(hs, p, q)], Joined(hs, p, q), p + 1, c);
      }
    }
  }

  /** No store of the pass goes below clump p. */
  ghost predicate StoresFrom(prog: seq<Instr>, lo: nat) {
    forall i :: 0 <= i < |prog| && prog[i].Store? ==> lo <= prog[i].w
  }

  lemma {:induction false} PassStoresFrom(m: Image, hs: seq<nat>, p: nat)
    requires Bounds(hs, |m|) && p < |hs|
    ensures StoresFrom(CoalesceFrom(m, hs, p), hs[p])
    decreases |hs| - p
  {
    if p < |hs| - 1 {
      assert hs[p] + 8 <= hs[p + 1];
      var q := RunEnd(m, hs, p + 1);
      if State(m[hs[p]]) != FREE || q == p + 1 {
        PassStoresFrom(m, hs, p + 1);
      } else {
        JoinedBounds(hs, |m|, p, q);
        var b, gs := m[hs[p] := MergedSize(hs, p, q)], Joined(hs, p, q);
        PassStoresFrom(b, gs, p + 1);
        assert hs[p] <= gs[p + 1];
        assert StoresFrom(SetSize(hs[p], MergedSize(hs, p, q)), hs[p]);
      }
    }
  }

  /** Clump i has been merged into the free clump j; its size word is still there. */
  ghost predicate Within(b: Image, gs: seq<nat>, j: nat, c: nat, v: nat)
    requires Bounds(gs, |b|)
  {
    && Inside(gs, j, c) && State(b[gs[j]]) == FREE
    && c < |b| && b[c] == v && c + Span(v) <= gs[j + 1]
  }

  /** A clump that the pass leaves alone. */
  lemma PassSkips(m: Image, hs: seq<nat>, p: nat)
    requires Bounds(hs, |m|) && p < |hs| - 1
    requires State(m[hs[p]]) != FREE || RunEnd(m, hs, p + 1) == p + 1
    ensures CoalesceFrom(m, hs, p) == CoalesceFrom(m, hs, p + 1)
    ensures CoalescedFrom(m, hs, p) == CoalescedFrom(m, hs, p + 1)
    ensures Coalesced(m, hs, p) ==> Coalesced(m, hs, p + 1)
  {
  }

  /** A run that the pass merges. */
  lemma PassMerges(s: Pm, hs: seq<nat>, p: nat, q: nat) returns (a: Pm)
    requires Quiet(s, hs) && p < |hs| - 1 && Coalesced(s.mem, hs, p) && State(s.mem[hs[p]]) == FREE
    requires q == RunEnd(s.mem, hs, p + 1) && q > p + 1
    ensures hs[p] <= hs[q] && FreeRun(s.mem, hs, p, q) && Bounds(Joined(hs, p, q), |s.mem|)
    ensures a.mem == s.mem[hs[p] := MergedSize(hs, p, q)] && Quiet(a, Joined(hs, p, q)) && p + 1 < |Joined(hs, p, q)|
    ensures Coalesced(a.mem, Joined(hs, p, q), p + 1)
    ensures Exec(s, CoalesceFrom(s.mem, hs, p)) == Exec(a, CoalesceFrom(a.mem, Joined(hs, p, q), p + 1))
    ensures CoalescedFrom(s.mem, hs, p) == CoalescedFrom(a.mem, Joined(hs, p, q), p + 1)
  {
    hide PersistentMemory.Exec;
    hide ViewOf;
    hide ClumpOk;
    hide Clump;
    JoinedBounds(hs, |s.mem|, p, q);
    a := MergeRun(s, hs, p, q);
    MergedCoalesced(s.mem, hs, p, q);
    ExecConcat(s, SetSize(hs[p], MergedSize(hs, p, q)), CoalesceFrom(a.mem, Joined(hs, p, q), p + 1));
  }

  /** What is left of a swallowed clump: its header, inside a free clump. */
  lemma {:induction false} PassLeaves(s: Pm, hs: seq<nat>, p: nat, i: nat) returns (j: nat)
    requires Quiet(s, hs) && p < |hs| && Coalesced(s.mem, hs, p) && Swallowed(s.mem, hs, p, i)
    ensures Within(Exec(s, CoalesceFrom(s.mem, hs, p)).mem, CoalescedFrom(s.mem, hs, p), j, hs[i], s.mem[hs[i]])
    decreases |hs| - p
  {
    hide PersistentMemory.Exec;
    hide CoalesceFrom;
    hide CoalescedFrom;
    hide Coalesced;
    hide Within;
    hide Recoverable;
    hide State;
    hide ReservedReaches;
    hide NoTransit;
    var m := s.mem;
    QuietTiled(s, hs);
    var q := RunEnd(m, hs, p + 1);
    if State(m[hs[p]]) != FREE || q == p + 1 {
      PassSkips(m, hs, p);
      j := PassLeaves(s, hs, p + 1, i);
    } else {
      var a := PassMerges(s, hs, p, q);
      if i < q {
        j := p;
        RunSwallows(m, hs, p, q, i, a);
      } else {
        JoinedSwallows(m, hs, p, q, i);
        RunPasses(m, hs, p, q, i);
        j := PassLeaves(a, Joined(hs, p, q), p + 1, i - (q - p - 1));
      }
    }
  }

  lemma QuietTiled(s: Pm, hs: seq<nat>)
    requires Quiet(s, hs)
    ensures Tiled(s.mem, hs)
  {
  }

  lemma RunPasses(m: Image, hs: seq<nat>, p: nat, q: nat, i: nat)
    requires Bounds(hs, |m|) && FreeRun(m, hs, p, q) && q <= i < |hs| && hs[p] <= hs[q]
    ensures m[hs[p] := MergedSize(hs, p, q)][hs[i]] == m[hs[i]] && Joined(hs, p, q)[i - (q - p - 1)] == hs[i]
  {
    JoinedPlaces(hs, |m|, p, q, i);
    JoinedStates(m, hs, p, q, i);
  }

  lemma RunSwallows(m: Image, hs: seq<nat>, p: nat, q: nat, i: nat, a: Pm)
    requires Tiled(m, hs) && FreeRun(m, hs, p, q) && p < i < q && hs[p] <= hs[q] && Bounds(Joined(hs, p, q), |m|)
    requires Sane(a) && a.mem == m[hs[p] := MergedSize(hs, p, q)]
    ensures var gs := Joined(hs, p, q);
            Within(Exec(a, CoalesceFrom(a.mem, gs, p + 1)).mem, CoalescedFrom(a.mem, gs, p + 1), p, hs[i], m[hs[i]])
  {
    hide PersistentMemory.Exec;
    hide Tiled;
    RunLeaves(m, hs, p, q, i);
    SwallowedStays(a, Joined(hs, p, q), p, hs[i]);
  }

  /** One run: the headers inside it are payload of the clump it becomes. */
  lemma RunLeaves(m: Image, hs: seq<nat>, p: nat, q: nat, i: nat)
    requires Tiled(m, hs) && FreeRun(m, hs, p, q) && p < i < q && hs[p] <= hs[q]
    requires Bounds(Joined(hs, p, q), |m|)
    ensures Within(m[hs[p] := MergedSize(hs, p, q)], Joined(hs, p, q), p, hs[i], m[hs[i]])
  {
    hide Span;
    MergedState(hs, |m|, p, q);
    HeadersApart(hs, |m|, p, i);
    assert hs[p] + 8 <= hs[i] && hs[i] + 8 <= hs[q];
    assert Clump(m, hs, i);
    if i + 1 < q { assert hs[i + 1] + 8 <= hs[q]; }
    assert Joined(hs, p, q)[p] == hs[p] && Joined(hs, p, q)[p + 1] == hs[q];
  }

  /** The rest of the pass is above it. */
  lemma SwallowedStays(a: Pm, gs: seq<nat>, p: nat, c: nat)
    requires Sane(a) && Bounds(gs, |a.mem|) && p + 1 < |gs| && Inside(gs, p, c) && c < |a.mem|
    ensures var r := Exec(a, CoalesceFrom(a.mem, gs, p + 1)); var fs := CoalescedFrom(a.mem, gs, p + 1);
            && r.mem[c] == a.mem[c] && r.mem[gs[p]] == a.mem[gs[p]]
            && p + 1 < |fs| && fs[p] == gs[p] && fs[p + 1] == gs[p + 1] && (p < |fs| - 1)
  {
    var prog := CoalesceFrom(a.mem, gs, p + 1);
    PassStoresFrom(a.mem, gs, p + 1);
    assert gs[p] + 8 <= gs[p + 1];
    ExecUntouched(a, prog, c);
    ExecUntouched(a, prog, gs[p]);
    PassPrefix(a.mem, gs, p + 1, p);
    PassPrefix(a.mem, gs, p + 1, p + 1);
  }

  // ---------------------------------------------------------------------------------------
  // Freeing
  // ---------------------------------------------------------------------------------------

  /** Clump j is free once clump k has been freed. */
  ghost predicate FreeThen(m: Image, hs: seq<nat>, k: nat, j: nat)
    requires Bounds(hs, |m|) && j < |hs|
  {
    j == k || State(m[hs[j]]) == FREE
  }

  /** Freeing clump k merges clump i into a free neighbour below it. */
  ghost predicate MergesDown(m: Image, hs: seq<nat>, k: nat, i: nat)
    requires Bounds(hs, |m|)
  {
    0 < i < |hs| - 1 && FreeThen(m, hs, k, i - 1) && FreeThen(m, hs, k, i)
  }

  /** The same in terms of the chain Free leaves. */
  lemma CursorKept(s: Pm, hs: seq<nat>, k: nat, c: nat, gs: seq<nat>)
    requires Quiet(s, hs) && CanFree(s.mem, hs, k) && gs == CoalescedFrom(FreedImage(s.mem, hs[k]), hs, 0)
    ensures Index(hs, c) < |hs| - 1 ==> (c in gs <==> !MergesDown(s.mem, hs, k, Index(hs, c)))
  {
    if Index(hs, c) < |hs| - 1 { FreeKeeps(s, hs, k, Index(hs, c)); }
  }

  lemma FreedStates(s: Pm, hs: seq<nat>, k: nat)
    requires Quiet(s, hs) && CanFree(s.mem, hs, k)
    ensures var a := FreedImage(s.mem, hs[k]);
            && |a| == |s.mem| && State(a[hs[k]]) == FREE && Span(a[hs[k]]) == Span(s.mem[hs[k]])
            && forall j :: 0 <= j < |hs| && j != k ==> a[hs[j]] == s.mem[hs[j]]
  {
    hide FreedImage;
    FreedShape(s, hs, k);
    FreedWords(s.mem, hs, k, FreedImage(s.mem, hs[k]));
  }

  lemma FreedShape(s: Pm, hs: seq<nat>, k: nat)
    requires Quiet(s, hs) && CanFree(s.mem, hs, k)
    ensures State(s.mem[hs[k]]) == ACTIVE || State(s.mem[hs[k]]) == RESERVED
    ensures State(s.mem[hs[k]]) == ACTIVE ==> Committed(FreedImage(s.mem, hs[k]), s.mem, hs, k)
    ensures State(s.mem[hs[k]]) == RESERVED ==> FreedImage(s.mem, hs[k]) == s.mem[hs[k] := Bytes(s.mem[hs[k]]) + FREE]
  {
    hide PersistentMemory.Exec;
    hide ClumpOk;
    hide Clump;
    hide ViewOf;
    hide ViewAfter;
    hide Committed;
    hide ResolveClump;
    var a := FreeCoreAtomic(s, hs, k);
  }

  lemma FreedWords(m: Image, hs: seq<nat>, k: nat, a: Image)
    requires Bounds(hs, |m|) && k < |hs| - 1 && (State(m[hs[k]]) == ACTIVE || State(m[hs[k]]) == RESERVED)
    requires State(m[hs[k]]) == ACTIVE ==> Committed(a, m, hs, k)
    requires State(m[hs[k]]) == RESERVED ==> a == m[hs[k] := Bytes(m[hs[k]]) + FREE]
    ensures |a| == |m| && State(a[hs[k]]) == FREE && Span(a[hs[k]]) == Span(m[hs[k]])
    ensures forall j :: 0 <= j < |hs| && j != k ==> a[hs[j]] == m[hs[j]]
  {
    SizeWord(Bytes(m[hs[k]]), FREE);
    forall j | 0 <= j < |hs| && j != k ensures a[hs[j]] == m[hs[j]] {
      HeadersApart(hs, |m|, j, k);
      if State(m[hs[k]]) == ACTIVE { assert SameHeader(a, m, hs[j]); }
    }
  }

  /** After Free a clump of the chain is still one exactly if it was not merged into the free
      neighbour below it; so is the cursor. */
  lemma FreeKeeps(s: Pm, hs: seq<nat>, k: nat, i: nat)
    requires Quiet(s, hs) && CanFree(s.mem, hs, k) && i < |hs| - 1
    ensures hs[i] in CoalescedFrom(FreedImage(s.mem, hs[k]), hs, 0) <==> !MergesDown(s.mem, hs, k, i)
  {
    FreedStates(s, hs, k);
    PassKeeps(FreedImage(s.mem, hs[k]), hs, 0, i);
  }

  /** A clump that Free merges away leaves its header behind, inside a free clump. */
  lemma FreeLeaves(s: Pm, hs: seq<nat>, k: nat, i: nat) returns (r: Pm, gs: seq<nat>, j: nat)
    requires Quiet(s, hs) && CanFree(s.mem, hs, k) && MergesDown(s.mem, hs, k, i)
    ensures r == Exec(s, FreeSteps(s.mem, hs, hs[k])) && Quiet(r, gs)
    ensures gs == CoalescedFrom(FreedImage(s.mem, hs[k]), hs, 0)
    ensures Bytes(r.mem[hs[i]]) == Bytes(s.mem[hs[i]]) && Within(r.mem, gs, j, hs[i], r.mem[hs[i]])
    ensures State(r.mem[hs[i]]) == FREE
    ensures forall bytes: nat :: bytes % 64 == 0 && bytes >= 64 && Fits(r.mem[hs[i]], bytes) ==>
              Leftover(r.mem, gs, j, hs[i], bytes)
  {
    hide Committed;
    hide ViewAfter;
    hide ViewOf;
    hide PersistentMemory.Exec;
    hide ClumpOk;
    hide Clump;
    var m, h := s.mem, hs[k];
    FreedStates(s, hs, k);
    SizeWord(Bytes(m[h]), FREE);
    var a := FreeCoreAtomic(s, hs, k);
    r, gs := FreeAtomic(s, hs, k);
    ExecConcat(s, FreeCore(m, h), CoalesceFrom(a.mem, hs, 0));
    j := PassLeaves(a, hs, 0, i);
    SameBytes(a.mem[hs[i]], m[hs[i]]);
  }

  lemma SameBytes(v: nat, w: nat)
    requires Span(v) == Span(w)
    ensures Bytes(v) == Bytes(w)
  {
  }

  /** All stores go into the payload of the free clump k. */
  ghost predicate StoresInside(prog: seq<Instr>, hs: seq<nat>, k: nat) {
    forall i :: 0 <= i < |prog| && prog[i].Store? ==> Inside(hs, k, prog[i].w)
  }

  /** Stores into a free clump change neither the chain nor the view, nor what a crash shows. */
  lemma {:induction false} InsideProgram(s: Pm, prog: seq<Instr>, hs: seq<nat>, k: nat)
    requires Quiet(s, hs) && k < |hs| - 1 && State(s.mem[hs[k]]) == FREE && StoresInside(prog, hs, k)
    ensures var r := Exec(s, prog);
            && Quiet(r, hs) && ViewOf(r.mem, hs) == ViewOf(s.mem, hs)
            && r.mem[hs[k]] == s.mem[hs[k]]
    decreases |prog|
  {
    if prog != [] {
      var r := Step(s, prog[0]);
      if prog[0].Store? {
        assert Inside(hs, k, prog[0].w);
        InsideStore(s, hs, k, prog[0].w, prog[0].v);
      } else {
        ExecSingle(s, prog[0]);
        FlushQuiet(s, hs, prog[0].addr, prog[0].len);
      }
      assert StoresInside(prog[1..], hs, k) by {
        forall i | 0 <= i < |prog[1..]| && prog[1..][i].Store? ensures Inside(hs, k, prog[1..][i].w) {
          assert prog[i + 1].Store?;
        }
      }
      InsideProgram(r, prog[1..], hs, k);
    }
  }

  lemma InsideStore(s: Pm, hs: seq<nat>, k: nat, w: nat, v: nat)
    requires Quiet(s, hs) && Inside(hs, k, w) && State(s.mem[hs[k]]) == FREE
    ensures var r := Step(s, Store(w, v));
            && Quiet(r, hs) && ViewOf(r.mem, hs) == ViewOf(s.mem, hs) && r.mem[hs[k]] == s.mem[hs[k]]
  {
    var m := s.mem;
    InsideFree(m, hs, k, w);
    PayloadBesideHeader(hs, |m|, k, k, w);
    assert !Header(hs, w) by {
      forall i | 0 <= i < |hs| ensures w < hs[i] || hs[i] + 8 <= w { PayloadBesideHeader(hs, |m|, k, i, w); }
    }
    var r := Step(s, Store(w, v));
    PayloadStore(m, hs, w, v);
    forall x: nat | x < |m| && Visible(Living(m, hs), x) ensures r.mem[x] == m[x] {}
    SameView(r.mem, hs, 0, m, hs, 0);
    forall x: nat | x < |m| && Pinned(r.mem, hs, x) ensures Clean(r, x) { assert Pinned(m, hs, x); }
  }

  /** The header at c is a leftover inside the free clump k and still looks free. */
  ghost predicate Leftover(m: Image, hs: seq<nat>, k: nat, c: nat, bytes: nat)
    requires Bounds(hs, |m|)
  {
    && k < |hs| - 1 && State(m[hs[k]]) == FREE
    && c < |m| && c % 8 == 0 && hs[k] + 8 <= c
    && Fits(m[c], bytes) && bytes % 64 == 0 && bytes >= 64
    && c + Span(m[c]) <= hs[k + 1]
  }

  lemma LeftoverStores(m: Image, hs: seq<nat>, k: nat, c: nat, bytes: nat)
    requires Bounds(hs, |m|) && Leftover(m, hs, k, c, bytes)
    ensures StoresInside(ReserveSteps(m, c, bytes), hs, k)
  {
    var p := ReserveSteps(m, c, bytes);
    ZeroStores(c + 2, 6);
    ZeroStores(c + bytes / 8, 8);
    forall i | 0 <= i < |p| && p[i].Store? ensures Inside(hs, k, p[i].w) {
      assert c <= p[i].w < c + 8 || (Splits(m[c], bytes) && c + bytes / 8 <= p[i].w < c + bytes / 8 + 8);
    }
  }

  /** A reservation from such a cursor succeeds and is not recorded: the chain still has the one
      free clump around it, so the next search from the first clump can hand out the same memory,
      and no restart knows of the reservation. */
  lemma StaleReservation(s: Pm, hs: seq<nat>, k: nat, c: nat, bytes: nat)
    requires Quiet(s, hs) && Leftover(s.mem, hs, k, c, bytes)
    ensures var r := Exec(s, ReserveSteps(s.mem, c, bytes));
            && Quiet(r, hs) && Chain(r.mem) == hs && c !in Chain(r.mem)
            && State(r.mem[hs[k]]) == FREE && Inside(hs, k, c)
            && ViewOf(r.mem, hs) == ViewOf(s.mem, hs)
  {
    LeftoverStores(s.mem, hs, k, c, bytes);
    InsideProgram(s, ReserveSteps(s.mem, c, bytes), hs, k);
    ChainUnique(Exec(s, ReserveSteps(s.mem, c, bytes)).mem, hs);
    forall i | 0 <= i < |hs| ensures hs[i] != c { PayloadBesideHeader(hs, |s.mem|, k, i, c); }
  }

  /** A reservation that starts where Free left the cursor: it shows up in the chain exactly if Free
      did not merge that clump into the free neighbour below it. */
  lemma RecordedIffKept(s: Pm, hs: seq<nat>, k: nat, i: nat, bytes: nat)
    requires Quiet(s, hs) && CanFree(s.mem, hs, k) && i < |hs| - 1
    requires bytes % 64 == 0 && bytes >= 64
    requires var b := Exec(s, FreeSteps(s.mem, hs, hs[k])).mem; Fits(b[hs[i]], bytes)
    ensures var r := Exec(s, FreeSteps(s.mem, hs, hs[k]));
            hs[i] in Chain(Exec(r, ReserveSteps(r.mem, hs[i], bytes)).mem) <==> !MergesDown(s.mem, hs, k, i)
  {
    hide PersistentMemory.Exec;
    hide ClumpOk;
    hide Clump;
    hide ReserveSteps;
    FreeKeeps(s, hs, k, i);
    if MergesDown(s.mem, hs, k, i) {
      var r, gs, j := FreeLeaves(s, hs, k, i);
      StaleReservation(r, gs, j, hs[i], bytes);
    } else {
      var r, gs := FreeAtomic(s, hs, k);
      var j: nat :| j < |gs| && gs[j] == hs[i];
      LastHeaderIs(hs, gs, |s.mem|, i, j);
      var x := ReserveAtomic(r, gs, j, bytes);
      ChainUnique(x.mem, ReservedChain(r.mem, gs, j, bytes));
      ReservedKeeps(r.mem, gs, j, bytes);
    }
  }

  lemma LastHeaderIs(hs: seq<nat>, gs: seq<nat>, words: nat, i: nat, j: nat)
    requires Bounds(hs, words) && Bounds(gs, words) && i < |hs| - 1 && j < |gs| && gs[j] == hs[i]
    ensures j < |gs| - 1
  {
    HeadersApart(hs, words, i, |hs| - 1);
  }

  lemma ReservedKeeps(m: Image, gs: seq<nat>, j: nat, bytes: nat)
    requires Bounds(gs, |m|) && j < |gs| - 1
    ensures gs[j] in ReservedChain(m, gs, j, bytes)
  {
    var fs := ReservedChain(m, gs, j, bytes);
    assert fs[j] == gs[j];
  }
}
