/** Moving entries between buckets, one at a time. */
module Rehashing {
  import opened HashChains

  ghost predicate LinkedAll(heap: Heap, table: seq<nat>, chains: seq<seq<nat>>) {
    |table| == |chains| && forall i :: 0 <= i < |chains| ==> IsChain(heap, table[i], chains[i])
  }

  lemma PartsUnique(a: multiset<nat>, b: multiset<nat>)
    requires Unique(a + b)
    ensures Unique(a) && Unique(b)
    ensures forall x :: x in a ==> x !in b
  {
    forall x ensures a[x] <= 1 && b[x] <= 1 && (x in a ==> x !in b) { assert (a + b)[x] == a[x] + b[x]; }
  }

  /** The head of a chain hangs nowhere else. */
  lemma HeadAlone(chains: seq<seq<nat>>, i: nat)
    requires Unique(Total(chains)) && i < |chains| && chains[i] != []
    ensures chains[i][0] !in chains[i][1..]
    ensures forall j :: 0 <= j < |chains| && j != i ==> chains[i][0] !in chains[j]
  {
    var e := chains[i][0];
    UniqueOne(chains, i);
    assert chains[i] == [] + [e] + chains[i][1..];
    SplitUnique([], e, chains[i][1..]);
    forall j | 0 <= j < |chains| && j != i ensures e !in chains[j] { UniqueChains(chains, i, j, e); }
  }

  lemma NotElsewhere(a: seq<seq<nat>>, b: seq<seq<nat>>, i: nat, e: nat)
    requires Unique(Total(a) + Total(b)) && i < |a| && e in a[i]
    ensures forall j :: 0 <= j < |b| ==> e !in b[j]
  {
    PartsUnique(Total(a), Total(b));
    TotalHas(a, e);
    TotalHas(b, e);
  }

  // ---------------------------------------------------------------------------------------
  // From one table to another
  // ---------------------------------------------------------------------------------------

  lemma HeadTaken(heap: Heap, h: Heap, table: seq<nat>, chains: seq<seq<nat>>, i: nat, e: nat)
    requires LinkedAll(heap, table, chains) && Unique(Total(chains)) && i < |chains| && chains[i] != []
    requires e == chains[i][0]
    requires e in heap && e in h && h == heap[e := h[e]]
    ensures LinkedAll(h, table[i := heap[e].next], chains[i := chains[i][1..]])
  {
    hide Linked;
    HeadAlone(chains, i);
    var t, c := table[i := heap[e].next], chains[i := chains[i][1..]];
    forall j | 0 <= j < |c| ensures IsChain(h, t[j], c[j]) {
      if j == i { ChainTail(heap, table[i], chains[i]); }
      InsideHeap(heap, t[j], c[j]);
      ChainFrame(heap, h, t[j], c[j]);
    }
  }

  lemma HeadGiven(heap: Heap, h: Heap, table': seq<nat>, chains': seq<seq<nat>>, x: nat, e: nat)
    requires LinkedAll(heap, table', chains') && x < |chains'| && e != 0 && e in h && h == heap[e := h[e]]
    requires h[e].next == table'[x] && forall j :: 0 <= j < |chains'| ==> e !in chains'[j]
    ensures LinkedAll(h, table'[x := e], chains'[x := [e] + chains'[x]])
  {
    hide Linked;
    var t', c' := table'[x := e], chains'[x := [e] + chains'[x]];
    forall j | 0 <= j < |c'| ensures IsChain(h, t'[j], c'[j]) {
      InsideHeap(heap, table'[j], chains'[j]);
      if j == x { ChainPush(heap, h, table'[x], chains'[x], e); } else { ChainFrame(heap, h, table'[j], chains'[j]); }
    }
  }

  /** The head of chain i of one table becomes the head of chain x of another. */
  lemma HeadMoved(heap: Heap, table: seq<nat>, chains: seq<seq<nat>>, table': seq<nat>, chains': seq<seq<nat>>,
                  i: nat, x: nat)
    requires LinkedAll(heap, table, chains) && LinkedAll(heap, table', chains')
    requires Unique(Total(chains) + Total(chains'))
    requires i < |chains| && chains[i] != [] && x < |chains'|
    ensures var e := table[i];
            && e == chains[i][0] && e in heap && e != 0
            && var h := heap[e := heap[e].(next := table'[x])];
               && LinkedAll(h, table[i := heap[e].next], chains[i := chains[i][1..]])
               && LinkedAll(h, table'[x := e], chains'[x := [e] + chains'[x]])
  {
    PartsUnique(Total(chains), Total(chains'));
    var e := chains[i][0];
    NotElsewhere(chains, chains', i, e);
    ChainTail(heap, table[i], chains[i]);
    hide IsChain;
    var h := heap[e := heap[e].(next := table'[x])];
    HeadTaken(heap, h, table, chains, i, e);
    HeadGiven(heap, h, table', chains', x, e);
  }

  lemma HeadCounts(chains: seq<seq<nat>>, chains': seq<seq<nat>>, i: nat, x: nat)
    requires i < |chains| && chains[i] != [] && x < |chains'|
    ensures var e := chains[i][0];
            Total(chains[i := chains[i][1..]]) + Total(chains'[x := [e] + chains'[x]]) == Total(chains) + Total(chains')
  {
    var e := chains[i][0];
    TotalUpdate(chains, i, chains[i][1..]);
    TotalUpdate(chains', x, [e] + chains'[x]);
    assert chains[i] == [e] + chains[i][1..];
    CountOver(Total(chains), Total(chains'), multiset(chains[i][1..]), multiset(chains'[x]), multiset{e});
  }

  lemma CountOver(a: multiset<nat>, b: multiset<nat>, c: multiset<nat>, d: multiset<nat>, e: multiset<nat>)
    requires e + c <= a && d <= b
    ensures (a - (e + c) + c) + (b - d + (e + d)) == a + b
  {
  }

  /** Halfway: `done` has moved, the old chains before i are empty, and every new chain holds what
      belongs there, last come first. */
  ghost predicate Copying(h0: Heap, all: seq<nat>, heap: Heap, table: seq<nat>, chains: seq<seq<nat>>,
                          table': seq<nat>, chains': seq<seq<nat>>, i: nat, done: seq<nat>) {
    && LinkedAll(heap, table, chains) && LinkedAll(heap, table', chains')
    && Unique(Total(chains) + Total(chains')) && Total(chains) + Total(chains') == multiset(all)
    && SameEntries(h0, heap) && |chains'| > 0
    && i <= |chains| && AllEmpty(chains[..i]) && all == done + Flat(chains)
    && forall j :: 0 <= j < |chains'| ==> chains'[j] == Reversed(Picked(h0, |chains'|, done, j))
  }

  lemma CopyStep(h0: Heap, all: seq<nat>, heap: Heap, table: seq<nat>, chains: seq<seq<nat>>,
                 table': seq<nat>, chains': seq<seq<nat>>, i: nat, done: seq<nat>)
    requires Copying(h0, all, heap, table, chains, table', chains', i, done)
    requires i < |chains| && table[i] != 0
    ensures chains[i] != [] && table[i] in heap && table[i] == chains[i][0]
    ensures var e := table[i]; var x := heap[e].h % |chains'|;
            Copying(h0, all, heap[e := heap[e].(next := table'[x])], table[i := heap[e].next],
                    chains[i := chains[i][1..]],
                    table'[x := e], chains'[x := [e] + chains'[x]], i, done + [e])
  {
    hide Unique;
    hide Total;
    hide InBucket;
    ChainEmpty(heap, table[i], chains[i]);
    var e := table[i];
    ChainTail(heap, e, chains[i]);
    var x, n := heap[e].h % |chains'|, |chains'|;
    HeadMoved(heap, table, chains, table', chains', i, x);
    HeadCounts(chains, chains', i, x);
    var c := chains[i := chains[i][1..]];
    assert c[..i] == chains[..i] && c[i + 1..] == chains[i + 1..];
    FlatSkips(chains, i);
    FlatSkips(c, i);
    TakenNext(all, done, chains[i], Flat(chains[i + 1..]));
    forall j | 0 <= j < n ensures chains'[x := [e] + chains'[x]][j] == Reversed(Picked(h0, n, done + [e], j)) {
      BucketOf(h0, n, e, j, x);
      PickedAppend(h0, n, done, e, j);
      ReversedAppend(Picked(h0, n, done, j), e);
      assert Picked(h0, n, done, j) + [] == Picked(h0, n, done, j);
    }
  }

  lemma TakenNext(all: seq<nat>, done: seq<nat>, c: seq<nat>, rest: seq<nat>)
    requires c != [] && all == done + (c + rest)
    ensures all == done + [c[0]] + (c[1..] + rest)
  {
    assert c == [c[0]] + c[1..];
  }

  lemma BucketOf(heap: Heap, size: nat, e: nat, j: nat, x: nat)
    requires size > 0 && e in heap && x == heap[e].h % size
    ensures InBucket(heap, size, e, j) <==> j == x
  {
  }

  lemma CopyNext(h0: Heap, all: seq<nat>, heap: Heap, table: seq<nat>, chains: seq<seq<nat>>,
                 table': seq<nat>, chains': seq<seq<nat>>, i: nat, done: seq<nat>)
    requires Copying(h0, all, heap, table, chains, table', chains', i, done)
    requires i < |chains| && table[i] == 0
    ensures Copying(h0, all, heap, table, chains, table', chains', i + 1, done)
  {
    ChainEmpty(heap, table[i], chains[i]);
    assert chains[..i + 1] == chains[..i] + [chains[i]];
  }

  lemma CopyStart(heap: Heap, table: seq<nat>, chains: seq<seq<nat>>, size: nat)
    requires LinkedAll(heap, table, chains) && Unique(Total(chains)) && size > 0
    ensures Copying(heap, Flat(chains), heap, table, chains, seq(size, _ => 0), seq(size, _ => []), 0, [])
  {
    var c := seq(size, _ => []);
    TotalEmpty(c);
    TotalFlat(chains);
    assert Total(chains) + Total(c) == Total(chains);
    assert [] + Flat(chains) == Flat(chains);
  }

  /** Everything has moved. */
  lemma CopyDone(h0: Heap, all: seq<nat>, heap: Heap, table: seq<nat>, chains: seq<seq<nat>>,
                 table': seq<nat>, chains': seq<seq<nat>>, done: seq<nat>)
    requires Copying(h0, all, heap, table, chains, table', chains', |chains|, done)
    ensures LinkedAll(heap, table', chains') && Unique(Total(chains')) && Total(chains') == multiset(all)
    ensures forall j :: 0 <= j < |chains'| ==> chains'[j] == Reversed(Picked(h0, |chains'|, all, j))
    ensures Bucketed(heap, chains', |chains'|)
  {
    assert chains[..|chains|] == chains;
    TotalEmpty(chains);
    assert all == done;
    assert Total(chains) + Total(chains') == Total(chains');
    forall j, a | 0 <= j < |chains'| && a in chains'[j] ensures InBucket(heap, |chains'|, a, j) {
      ReversedHas(Picked(h0, |chains'|, all, j), a);
      PickedIn(h0, |chains'|, all, j, a);
    }
  }

  lemma ReversedHas(s: seq<nat>, a: nat)
    ensures a in Reversed(s) ==> a in s
  {
    if a in Reversed(s) {
      var i :| 0 <= i < |s| && Reversed(s)[i] == a;
      assert s[|s| - 1 - i] == a;
    }
  }

  lemma {:induction false} PickedIn(heap: Heap, size: nat, s: seq<nat>, j: nat, a: nat)
    requires size > 0
    ensures a in Picked(heap, size, s, j) ==> InBucket(heap, size, a, j) && a in s
  {
    if s != [] { PickedIn(heap, size, s[1..], j, a); }
  }

  // ---------------------------------------------------------------------------------------
  // Within one table
  // ---------------------------------------------------------------------------------------

  /** The entry between l and r of chain i becomes the head of chain x. */
  ghost predicate Rewired(heap: Heap, heap': Heap, table: seq<nat>, table': seq<nat>, i: nat, x: nat, l: seq<nat>,
                          e: nat)
    requires e in heap && i < |table| && x < |table| && (l != [] ==> l[|l| - 1] in heap)
  {
    if l == [] then
      table' == table[i := heap[e].next][x := e] && heap' == heap[e := heap[e].(next := table[x])]
    else
      && table' == table[x := e]
      && heap' == heap[l[|l| - 1] := heap[l[|l| - 1]].(next := heap[e].next)][e := heap[e].(next := table[x])]
  }

  lemma MidMoved(heap: Heap, heap': Heap, table: seq<nat>, table': seq<nat>, chains: seq<seq<nat>>,
                 i: nat, x: nat, l: seq<nat>, e: nat, r: seq<nat>)
    requires LinkedAll(heap, table, chains) && Unique(Total(chains))
    requires i < |chains| && x < |chains| && i != x && chains[i] == l + [e] + r
    requires e in heap && (l != [] ==> l[|l| - 1] in heap) && Rewired(heap, heap', table, table', i, x, l, e)
    ensures LinkedAll(heap', table', chains[i := l + r][x := [e] + chains[x]])
  {
    UniqueOne(chains, i);
    SplitUnique(l, e, r);
    LastLink(heap, table[i], l, e, r);
    var c := chains[i := l + r][x := [e] + chains[x]];
    forall j | 0 <= j < |c| ensures IsChain(heap', table'[j], c[j]) {
      if j == i {
        CutFrom(heap, heap', table, table', i, x, l, e, r);
      } else {
        forall a | a in chains[j] ensures a != e && (l != [] ==> a != l[|l| - 1]) { UniqueChains(chains, j, i, a); }
        if j == x {
          InsideHeap(heap, table[x], chains[x]);
          ChainPush(heap, heap', table[x], chains[x], e);
        } else {
          InsideHeap(heap, table[j], chains[j]);
          ChainFrame(heap, heap', table[j], chains[j]);
        }
      }
    }
  }

  lemma InsideHeap(heap: Heap, head: nat, ids: seq<nat>)
    requires IsChain(heap, head, ids)
    ensures forall a :: a in ids ==> a in heap && a != 0
  {
    forall a | a in ids ensures a in heap && a != 0 {
      var p :| 0 <= p < |ids| && ids[p] == a;
      assert Linked(heap, ids, p);
    }
  }

  lemma CutFrom(heap: Heap, heap': Heap, table: seq<nat>, table': seq<nat>, i: nat, x: nat, l: seq<nat>, e: nat,
                r: seq<nat>)
    requires i < |table| && x < |table| && i != x && IsChain(heap, table[i], l + [e] + r)
    requires Unique(multiset(l + [e] + r))
    requires e in heap && (l != [] ==> l[|l| - 1] in heap) && Rewired(heap, heap', table, table', i, x, l, e)
    ensures IsChain(heap', table'[i], l + r)
  {
    SplitUnique(l, e, r);
    LastLink(heap, table[i], l, e, r);
    InsideHeap(heap, table[i], l + [e] + r);
    forall a | a in l + r ensures a in heap' { assert a in l + [e] + r; }
    if l != [] {
      forall p | 0 <= p < |l| - 1 ensures l[p] != l[|l| - 1] {
        assert (l + [e] + r)[p] == l[p] && (l + [e] + r)[|l| - 1] == l[|l| - 1];
        UniquePlaces(l + [e] + r, p, |l| - 1);
      }
    }
    ChainCut(heap, heap', table[i], table'[i], l, e, r);
  }

  lemma MidCounts(chains: seq<seq<nat>>, i: nat, x: nat, l: seq<nat>, e: nat, r: seq<nat>)
    requires i < |chains| && x < |chains| && i != x && chains[i] == l + [e] + r
    ensures Total(chains[i := l + r][x := [e] + chains[x]]) == Total(chains)
  {
    TotalUpdate(chains, i, l + r);
    var c := chains[i := l + r];
    TotalUpdate(c, x, [e] + chains[x]);
    CountWithin(Total(chains), multiset(l), multiset{e}, multiset(r), multiset(chains[x]));
  }

  lemma CountWithin(t: multiset<nat>, l: multiset<nat>, e: multiset<nat>, r: multiset<nat>, x: multiset<nat>)
    requires l + e + r <= t && x <= t - (l + e + r) + (l + r)
    ensures (t - (l + e + r) + (l + r)) - x + (e + x) == t
  {
  }

  /** What becomes of the old chain j: the entries that belong there stay in order, the others end up
      in the chain j + n, last come first. */
  ghost predicate Rehashed(h0: Heap, size: nat, n: nat, old_: seq<nat>, stay: seq<nat>, gone: seq<nat>, j: nat)
    requires size > 0
  {
    stay == Picked(h0, size, old_, j) && gone == Reversed(Picked(h0, size, old_, j + n))
  }

  ghost predicate DoneAt(h0: Heap, olds: seq<seq<nat>>, chains: seq<seq<nat>>, j: nat)
    requires j < |olds| && |chains| == 2 * |olds|
  {
    Rehashed(h0, 2 * |olds|, |olds|, olds[j], chains[j], chains[j + |olds|], j)
  }

  ghost predicate TodoAt(olds: seq<seq<nat>>, chains: seq<seq<nat>>, j: nat)
    requires j < |olds| && |chains| == 2 * |olds|
  {
    chains[j] == olds[j] && chains[j + |olds|] == []
  }

  ghost predicate InPlace(h0: Heap, olds: seq<seq<nat>>, heap: Heap, table: seq<nat>, chains: seq<seq<nat>>, i: nat,
                          seen: seq<nat>, kept: seq<nat>, rest: seq<nat>) {
    var n := |olds|;
    && LinkedAll(heap, table, chains) && |chains| == 2 * n > 0
    && Unique(Total(chains)) && Total(chains) == Total(olds) && SameEntries(h0, heap)
    && i <= n
    && (forall j :: 0 <= j < i ==> DoneAt(h0, olds, chains, j))
    && (forall j :: i < j < n ==> TodoAt(olds, chains, j))
    && (i < n ==>
          && olds[i] == seen + rest && chains[i] == kept + rest
          && Rehashed(h0, 2 * n, n, seen, kept, chains[i + n], i))
  }

  /** Where an entry of the old chain i belongs in a table of twice the size. */
  lemma TwoPlaces(h: nat, n: nat, i: nat)
    requires n > 0 && h % n == i
    ensures h % (2 * n) == i || h % (2 * n) == i + n
  {
    var q := h / n;
    assert h == q * n + i;
    if q % 2 == 0 {
      assert q == q / 2 * 2;
      assert h == q / 2 * (2 * n) + i;
      Remainder(q / 2, 2 * n, i);
    } else {
      assert q == q / 2 * 2 + 1;
      assert h == q / 2 * (2 * n) + (n + i);
      Remainder(q / 2, 2 * n, n + i);
    }
  }

  lemma Remainder(q: nat, m: nat, r: nat)
    requires r < m
    ensures (q * m + r) % m == r
  {
    var z := q * m + r;
    var d := z / m;
    assert z == d * m + z % m;
    Times(d, q + 1, m);
    Times(q, d + 1, m);
  }

  lemma Times(x: nat, y: nat, m: nat)
    ensures x >= y ==> x * m >= y * m
    ensures (x + 1) * m == x * m + m && (y - 1) * m == y * m - m
  {
  }

  /** The entry stays. */
  lemma StayStep(h0: Heap, olds: seq<seq<nat>>, heap: Heap, table: seq<nat>, chains: seq<seq<nat>>, i: nat,
                 seen: seq<nat>, kept: seq<nat>, rest: seq<nat>)
    requires InPlace(h0, olds, heap, table, chains, i, seen, kept, rest) && i < |olds| && rest != []
    requires InBucket(h0, 2 * |olds|, rest[0], i)
    ensures rest[0] in heap && heap[rest[0]].next == Nth(rest[1..], 0)
    ensures InPlace(h0, olds, heap, table, chains, i, seen + [rest[0]], kept + [rest[0]], rest[1..])
  {
    hide Linked;
    hide SameEntries;
    hide Reversed;
    var e, n := rest[0], |olds|;
    assert rest == [e] + rest[1..];
    assert kept + rest == kept + [e] + rest[1..] && seen + rest == seen + [e] + rest[1..];
    LastLink(heap, table[i], kept, e, rest[1..]);
    PickedAppend(h0, 2 * n, seen, e, i);
    PickedAppend(h0, 2 * n, seen, e, i + n);
    assert Picked(h0, 2 * n, seen, i + n) + [] == Picked(h0, 2 * n, seen, i + n);
  }

  /** The entry goes to the other chain. */
  lemma GoStep(h0: Heap, olds: seq<seq<nat>>, heap: Heap, table: seq<nat>, chains: seq<seq<nat>>, i: nat,
               seen: seq<nat>, kept: seq<nat>, rest: seq<nat>, heap': Heap, table': seq<nat>)
    requires InPlace(h0, olds, heap, table, chains, i, seen, kept, rest) && i < |olds| && rest != []
    requires InBucket(h0, 2 * |olds|, rest[0], i + |olds|)
    requires rest[0] in heap && (kept != [] ==> kept[|kept| - 1] in heap)
    requires i < |table| && i + |olds| < |table| && Rewired(heap, heap', table, table', i, i + |olds|, kept, rest[0])
    ensures var x := i + |olds|; var c := chains[i := kept + rest[1..]][x := [rest[0]] + chains[x]];
            InPlace(h0, olds, heap', table', c, i, seen + [rest[0]], kept, rest[1..])
  {
    hide LinkedAll;
    hide Unique;
    hide Total;
    hide Flat;
    hide Linked;
    hide SameEntries;
    hide Reversed;
    hide Rehashed;
    hide InBucket;
    hide Rewired;
    var e, n, x := rest[0], |olds|, i + |olds|;
    var r := rest[1..];
    assert rest == [e] + r;
    assert kept + rest == kept + [e] + r && seen + rest == seen + [e] + r;
    GoRehashed(h0, n, seen, kept, chains[x], e, i);
    MidMoved(heap, heap', table, table', chains, i, x, kept, e, r);
    GoKeeps(heap, heap', table, table', i, x, kept, e);
    GoOthers(h0, olds, chains, i, kept + r, [e] + chains[x]);
    hide IsChain;
    hide DoneAt;
    hide TodoAt;
    MidCounts(chains, i, x, kept, e, r);
  }

  lemma GoRehashed(h0: Heap, n: nat, seen: seq<nat>, kept: seq<nat>, gone: seq<nat>, e: nat, i: nat)
    requires n > 0 && i < n && Rehashed(h0, 2 * n, n, seen, kept, gone, i) && InBucket(h0, 2 * n, e, i + n)
    ensures Rehashed(h0, 2 * n, n, seen + [e], kept, [e] + gone, i)
  {
    PickedAppend(h0, 2 * n, seen, e, i);
    PickedAppend(h0, 2 * n, seen, e, i + n);
    assert Picked(h0, 2 * n, seen, i) + [] == Picked(h0, 2 * n, seen, i);
    ReversedAppend(Picked(h0, 2 * n, seen, i + n), e);
  }

  lemma GoKeeps(heap: Heap, heap': Heap, table: seq<nat>, table': seq<nat>, i: nat, x: nat, l: seq<nat>, e: nat)
    requires e in heap && i < |table| && x < |table| && (l != [] ==> l[|l| - 1] in heap)
    requires Rewired(heap, heap', table, table', i, x, l, e)
    ensures forall h0 :: SameEntries(h0, heap) ==> SameEntries(h0, heap')
    ensures |table'| == |table|
  {
  }

  lemma GoOthers(h0: Heap, olds: seq<seq<nat>>, chains: seq<seq<nat>>, i: nat, c: seq<nat>, d: seq<nat>)
    requires i < |olds| && |chains| == 2 * |olds|
    ensures var b := chains[i := c][i + |olds| := d];
            forall j: nat :: j < |olds| && j != i ==>
              && (DoneAt(h0, olds, chains, j) ==> DoneAt(h0, olds, b, j))
              && (TodoAt(olds, chains, j) ==> TodoAt(olds, b, j))
  {
  }

  lemma InPlaceStart(heap: Heap, table: seq<nat>, chains: seq<seq<nat>>)
    requires LinkedAll(heap, table, chains) && Unique(Total(chains)) && |chains| > 0
    ensures var n := |chains|;
            InPlace(heap, chains, heap, table + seq(n, _ => 0), chains + seq(n, _ => []), 0, [], [], chains[0])
  {
    hide LinkedAll;
    hide Unique;
    hide Total;
    hide Flat;
    hide IsChain;
    var n := |chains|;
    var z, none := seq(n, _ => 0), seq(n, _ => []);
    TotalGrown(chains, none);
    GrownLinked(heap, table, chains, z, none);
    forall j | 0 < j < n ensures TodoAt(chains, chains + none, j) {
      assert (chains + none)[j + n] == none[j];
    }
    assert (chains + none)[n] == none[0];
    assert [] + chains[0] == chains[0];
  }

  lemma GrownLinked(heap: Heap, table: seq<nat>, chains: seq<seq<nat>>, z: seq<nat>, none: seq<seq<nat>>)
    requires LinkedAll(heap, table, chains) && |z| == |none|
    requires forall j :: 0 <= j < |z| ==> z[j] == 0 && none[j] == []
    ensures LinkedAll(heap, table + z, chains + none)
  {
    forall j | 0 <= j < |chains + none| ensures IsChain(heap, (table + z)[j], (chains + none)[j]) {
      if j < |chains| {
        assert IsChain(heap, table[j], chains[j]);
      } else {
        assert (chains + none)[j] == none[j - |chains|];
      }
    }
  }

  /** One chain is finished. */
  lemma InPlaceNext(h0: Heap, olds: seq<seq<nat>>, heap: Heap, table: seq<nat>, chains: seq<seq<nat>>, i: nat,
                    seen: seq<nat>, kept: seq<nat>)
    requires InPlace(h0, olds, heap, table, chains, i, seen, kept, []) && i < |olds|
    ensures InPlace(h0, olds, heap, table, chains, i + 1, [], [], if i + 1 < |olds| then olds[i + 1] else [])
  {
    hide LinkedAll;
    hide SameEntries;
    assert seen + [] == seen && kept + [] == kept;
    assert DoneAt(h0, olds, chains, i);
    if i + 1 < |olds| {
      assert TodoAt(olds, chains, i + 1);
      assert [] + olds[i + 1] == olds[i + 1];
      assert Reversed([]) == [];
    }
  }

  /** Every chain is finished. */
  lemma InPlaceDone(h0: Heap, olds: seq<seq<nat>>, heap: Heap, table: seq<nat>, chains: seq<seq<nat>>,
                    seen: seq<nat>, kept: seq<nat>, rest: seq<nat>)
    requires InPlace(h0, olds, heap, table, chains, |olds|, seen, kept, rest)
    ensures LinkedAll(heap, table, chains) && Unique(Total(chains)) && Total(chains) == Total(olds)
    ensures Bucketed(heap, chains, 2 * |olds|)
  {
    var n := |olds|;
    forall j, a | 0 <= j < |chains| && a in chains[j] ensures InBucket(heap, 2 * n, a, j) {
      if j < n {
        assert DoneAt(h0, olds, chains, j);
        PickedIn(h0, 2 * n, olds[j], j, a);
      } else {
        assert DoneAt(h0, olds, chains, j - n);
        ReversedHas(Picked(h0, 2 * n, olds[j - n], j), a);
        PickedIn(h0, 2 * n, olds[j - n], j, a);
      }
    }
  }

  // ---------------------------------------------------------------------------------------
  // Order
  // ---------------------------------------------------------------------------------------

  /** What belongs into the new bucket j all comes from the old bucket j % n. */
  lemma {:induction false} PickedFlat(heap: Heap, size: nat, chains: seq<seq<nat>>, j: nat, b: nat)
    requires size > 0 && b < |chains|
    requires forall i, a :: 0 <= i < |chains| && i != b && a in chains[i] ==> !InBucket(heap, size, a, j)
    ensures Picked(heap, size, Flat(chains), j) == Picked(heap, size, chains[b], j)
    decreases b
  {
    PickedConcat(heap, size, chains[0], Flat(chains[1..]), j);
    if b == 0 {
      forall a | a in Flat(chains[1..]) ensures !InBucket(heap, size, a, j) {
        FlatHas(chains[1..], a);
        var i :| 0 <= i < |chains[1..]| && a in chains[1..][i];
        assert a in chains[i + 1];
      }
      PickedNone(heap, size, Flat(chains[1..]), j);
    } else {
      PickedNone(heap, size, chains[0], j);
      forall i, a | 0 <= i < |chains[1..]| && i != b - 1 && a in chains[1..][i] ensures !InBucket(heap, size, a, j) {
        assert a in chains[i + 1];
      }
      PickedFlat(heap, size, chains[1..], j, b - 1);
    }
  }

  lemma FlatHas(chains: seq<seq<nat>>, a: nat)
    requires a in Flat(chains)
    ensures exists i :: 0 <= i < |chains| && a in chains[i]
  {
    TotalFlat(chains);
    TotalHas(chains, a);
  }

  lemma ModMod(h: nat, n: nat, j: nat)
    requires n > 0 && j < 2 * n && h % (2 * n) == j
    ensures h % n == j % n
  {
    TwoPlaces(h, n, h % n);
    if j >= n { Remainder(1, n, j - n); } else { Remainder(0, n, j); }
  }

  /** Copying turns the entries that share an old and a new bucket around. */
  lemma CopyOrder(heap: Heap, olds: seq<seq<nat>>, n: nat, j: nat)
    requires n == |olds| > 0 && Bucketed(heap, olds, n) && j < 2 * n
    ensures Picked(heap, 2 * n, Flat(olds), j) == Picked(heap, 2 * n, olds[j % n], j)
  {
    forall i, a | 0 <= i < n && i != j % n && a in olds[i] ensures !InBucket(heap, 2 * n, a, j) {
      assert InBucket(heap, n, a, i);
      if InBucket(heap, 2 * n, a, j) {
        ModMod(heap[a].h, n, j);
        assert false;
      }
    }
    PickedFlat(heap, 2 * n, olds, j, j % n);
  }

  // ---------------------------------------------------------------------------------------
  // One entry in or out
  // ---------------------------------------------------------------------------------------

  /** A new entry at the head of chain i. */
  lemma Added(heap: Heap, h: Heap, table: seq<nat>, chains: seq<seq<nat>>, i: nat, e: nat)
    requires LinkedAll(heap, table, chains) && i < |chains| && e != 0 && e !in heap
    requires e in h && h == heap[e := h[e]] && h[e].next == table[i]
    requires forall j, a :: 0 <= j < |chains| && a in chains[j] ==> a in heap
    ensures LinkedAll(h, table[i := e], chains[i := [e] + chains[i]])
    ensures Total(chains[i := [e] + chains[i]]) == Total(chains) + multiset{e}
  {
    HeadGiven(heap, h, table, chains, i, e);
    TotalUpdate(chains, i, [e] + chains[i]);
    Grow(Total(chains), multiset(chains[i]), multiset{e});
  }

  lemma Grow(t: multiset<nat>, c: multiset<nat>, e: multiset<nat>)
    requires c <= t
    ensures t - c + (e + c) == t + e
  {
  }

  /** The pointer before the entry e of chain i is made to skip it, and e is gone. */
  ghost predicate Unhooked(heap: Heap, h: Heap, table: seq<nat>, t: seq<nat>, i: nat, l: seq<nat>, e: nat)
    requires e in heap && i < |table| && (l != [] ==> l[|l| - 1] in heap)
  {
    if l == [] then t == table[i := heap[e].next] && h == heap - {e}
    else t == table && h == heap[l[|l| - 1] := heap[l[|l| - 1]].(next := heap[e].next)] - {e}
  }

  lemma Dropped(heap: Heap, h: Heap, table: seq<nat>, t: seq<nat>, chains: seq<seq<nat>>, i: nat, l: seq<nat>,
                e: nat, r: seq<nat>)
    requires LinkedAll(heap, table, chains) && Unique(Total(chains)) && i < |chains| && chains[i] == l + [e] + r
    requires e in heap && (l != [] ==> l[|l| - 1] in heap) && Unhooked(heap, h, table, t, i, l, e)
    ensures LinkedAll(h, t, chains[i := l + r])
    ensures Total(chains[i := l + r]) == Total(chains) - multiset{e} && Total(chains)[e] == 1
  {
    UniqueOne(chains, i);
    SplitUnique(l, e, r);
    LastLink(heap, table[i], l, e, r);
    var c := chains[i := l + r];
    forall j | 0 <= j < |c| ensures IsChain(h, t[j], c[j]) {
      if j == i {
        DropFrom(heap, h, table, t, i, l, e, r);
      } else {
        forall a | a in chains[j] ensures a != e && (l != [] ==> a != l[|l| - 1]) { UniqueChains(chains, j, i, a); }
        InsideHeap(heap, table[j], chains[j]);
        ChainFrame(heap, h, table[j], chains[j]);
      }
    }
    TotalUpdate(chains, i, l + r);
    Shrink(Total(chains), multiset(l), multiset{e}, multiset(r), e);
  }

  lemma Shrink(t: multiset<nat>, l: multiset<nat>, s: multiset<nat>, r: multiset<nat>, e: nat)
    requires l + s + r <= t && s == multiset{e} && Unique(t)
    ensures t - (l + s + r) + (l + r) == t - s && t[e] == 1
  {
    assert (l + s + r)[e] >= 1;
  }

  lemma DropFrom(heap: Heap, h: Heap, table: seq<nat>, t: seq<nat>, i: nat, l: seq<nat>, e: nat, r: seq<nat>)
    requires i < |table| && IsChain(heap, table[i], l + [e] + r) && Unique(multiset(l + [e] + r))
    requires e in heap && (l != [] ==> l[|l| - 1] in heap) && Unhooked(heap, h, table, t, i, l, e)
    ensures i < |t| && IsChain(h, t[i], l + r)
  {
    SplitUnique(l, e, r);
    LastLink(heap, table[i], l, e, r);
    InsideHeap(heap, table[i], l + [e] + r);
    forall a | a in l + r ensures a in h { assert a in l + [e] + r; }
    if l != [] {
      forall p | 0 <= p < |l| - 1 ensures l[p] != l[|l| - 1] {
        assert (l + [e] + r)[p] == l[p] && (l + [e] + r)[|l| - 1] == l[|l| - 1];
        UniquePlaces(l + [e] + r, p, |l| - 1);
      }
    }
    ChainCut(heap, h, table[i], t[i], l, e, r);
  }
}
