/** The consistency walk over a pool file (pmemalloc_check). */
module Checking {
  import opened PersistentMemory
  import opened PoolImage
  import opened RecoveryFacts
  import opened Finishing
  import opened Activation
  import opened Registering
  import opened Runs
  import opened Allocator

  /** The lists that the walk wants empty. */
  ghost predicate IdleListsEmpty(img: Image, hs: seq<nat>, n: nat)
    requires Bounds(hs, |img|) && n < |hs|
  {
    forall i :: 0 <= i < n && (State(img[hs[i]]) == FREE || State(img[hs[i]]) == ACTIVE) ==> EmptyList(img, hs[i])
  }

  /** Walks the clumps of a tiled file.  The walk ends at the last header with all bytes accounted
      for, so the only complaint left is a list on a clump at rest. */
  method Check(file: Image) returns (ok: bool, bytes: nat, stop: nat)
    requires Tiled(file, Chain(file))
    ensures stop == LastHeader(|file|)
    ensures bytes == 8 * (stop - FIRST)
    ensures ok <==> IdleListsEmpty(file, Chain(file), |Chain(file)| - 1)
  {
    ghost var hs := Chain(file);
    ghost var i := 0;
    ok, bytes, stop := true, 0, FIRST;
    while file[stop] != 0
      invariant i < |hs| && stop == hs[i]
      invariant bytes == 8 * (stop - FIRST)
      invariant ok <==> IdleListsEmpty(file, hs, i)
      decreases |hs| - i
    {
      WalkClump(file, hs, i);
      var sz := file[stop] - file[stop] % 64;
      var state := file[stop] % 64;
      bytes := bytes + sz;
      if state == FREE || state == ACTIVE {
        ok := ok && file[stop + 2] == 0 && file[stop + 4] == 0 && file[stop + 6] == 0;
      }
      stop := stop + sz / 8;
      i := i + 1;
    }
    ClumpsNonzero(file, hs);
    assert i == |hs| - 1;
  }

  // ---------------------------------------------------------------------------------------
  // When the walk complains
  // ---------------------------------------------------------------------------------------

  /** After a registration on an active clump the walk complains, and a crash and recovery do not
      change that: recovery leaves active clumps alone. */
  lemma OnFreeLeavesList(m: Image, hs: seq<nat>, k: nat, off: nat, v: nat)
    requires Recoverable(m, hs) && NoTransit(m, hs) && CanRegister(m, hs, k, off) && State(m[hs[k]]) == ACTIVE
    ensures var i := FreeSlot(m, hs[k]); var b := m[hs[k] + 3 + 2 * i := v][hs[k] + 2 + 2 * i := off];
            Bounds(hs, |b|) && !IdleListsEmpty(b, hs, |hs| - 1)
            && (Recoverable(b, hs) ==> !IdleListsEmpty(Resolve(b, hs), hs, |hs| - 1))
  {
    var h := hs[k];
    var i := FreeSlot(m, h);
    var b := m[h + 3 + 2 * i := v][h + 2 + 2 * i := off];
    assert off != 0;
    assert State(b[h]) == ACTIVE && !EmptyList(b, h);
    if Recoverable(b, hs) {
      RecoverableLists(b, hs);
      HeadersResolved(b, hs);
      var r := Resolve(b, hs);
      assert forall w :: h <= w < h + 8 ==> r[w] == SettledWord(b, h, w);
      assert r[h] == SettledWord(b, h, h);
      SizeWord(Bytes(b[h]), ACTIVE);
      assert State(r[h]) == ACTIVE && !EmptyList(r, h);
    }
  }

  /** Freeing a reserved clump leaves its list on the free clump: the walk complains exactly if the
      list was not empty or it complained before about another clump. */
  lemma ReleaseLeavesList(m: Image, hs: seq<nat>, k: nat)
    requires Tiled(m, hs) && k < |hs| - 1 && State(m[hs[k]]) == RESERVED
    ensures var b := m[hs[k] := Bytes(m[hs[k]]) + FREE];
            Bounds(hs, |b|) &&
            (IdleListsEmpty(b, hs, |hs| - 1) <==> IdleListsEmpty(m, hs, |hs| - 1) && EmptyList(m, hs[k]))
  {
    var b := m[hs[k] := Bytes(m[hs[k]]) + FREE];
    SizeWord(Bytes(m[hs[k]]), FREE);
    forall i | 0 <= i < |hs| && i != k ensures SameHeader(b, m, hs[i]) { HeadersApart(hs, |m|, i, k); }
    forall i | 0 <= i < |hs| - 1 && i != k
      ensures b[hs[i]] == m[hs[i]] && (EmptyList(b, hs[i]) <==> EmptyList(m, hs[i]))
    {
      assert SameHeader(b, m, hs[i]);
    }
    assert State(b[hs[k]]) == FREE && (EmptyList(b, hs[k]) <==> EmptyList(m, hs[k]));
  }

  /** Recovery itself leaves no list on a clump that was in use or in transit before: the walk
      complains afterwards exactly if a clump that was FREE or ACTIVE already had a list. */
  lemma RecoveryEmptiesLists(img: Image, hs: seq<nat>)
    requires Recoverable(img, hs)
    ensures IdleListsEmpty(Resolve(img, hs), hs, |hs| - 1) <==> IdleListsEmpty(img, hs, |hs| - 1)
  {
    RecoverableLists(img, hs);
    HeadersResolved(img, hs);
    var r := Resolve(img, hs);
    forall i | 0 <= i < |hs| - 1
      ensures State(r[hs[i]]) == FREE || State(r[hs[i]]) == ACTIVE
      ensures Pending(img[hs[i]]) ==> EmptyList(r, hs[i])
      ensures !Pending(img[hs[i]]) ==>
                State(r[hs[i]]) == State(img[hs[i]]) && (EmptyList(r, hs[i]) <==> EmptyList(img, hs[i]))
    {
      var h := hs[i];
      assert Clump(img, hs, i);
      assert forall w :: h <= w < h + 8 ==> r[w] == SettledWord(img, h, w);
      assert r[h] == SettledWord(img, h, h);
      SizeWord(Bytes(img[h]), Settled(State(img[h])));
    }
  }
}
