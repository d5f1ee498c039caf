/** Chains of entries in memory, and what moving entries between buckets does to them. */
module HashChains {

  datatype Entry = Entry(k: nat, v: nat, h: nat, next: nat)

  type Heap = map<nat, Entry>

  /** The address at place p of a chain; null behind its end. */
  function Nth(ids: seq<nat>, p: nat): nat { if p < |ids| then ids[p] else 0 }

  ghost predicate Linked(heap: Heap, ids: seq<nat>, p: nat)
    requires p < |ids|
  {
    ids[p] != 0 && ids[p] in heap && heap[ids[p]].next == Nth(ids, p + 1)
  }

  /** The pointer `head` leads through exactly these entries, in this order. */
  ghost predicate IsChain(heap: Heap, head: nat, ids: seq<nat>) {
    && head == Nth(ids, 0)
    && forall p :: 0 <= p < |ids| ==> Linked(heap, ids, p)
  }

  /** Hash, key and value of an entry, wherever it hangs. */
  ghost predicate SameEntries(heap: Heap, heap': Heap) {
    && heap.Keys == heap'.Keys
    && forall a :: a in heap ==> heap'[a].h == heap[a].h && heap'[a].k == heap[a].k && heap'[a].v == heap[a].v
  }

  lemma ChainFrame(heap: Heap, heap': Heap, head: nat, ids: seq<nat>)
    requires IsChain(heap, head, ids)
    requires forall a :: a in ids ==> a in heap' && (a in heap ==> heap'[a].next == heap[a].next)
    ensures IsChain(heap', head, ids)
  {
    forall p | 0 <= p < |ids| ensures Linked(heap', ids, p) { assert Linked(heap, ids, p); }
  }

  lemma ChainTail(heap: Heap, head: nat, ids: seq<nat>)
    requires IsChain(heap, head, ids) && ids != []
    ensures head == ids[0] != 0 && head in heap && IsChain(heap, heap[head].next, ids[1..])
  {
    assert Linked(heap, ids, 0);
    forall p | 0 <= p < |ids[1..]| ensures Linked(heap, ids[1..], p) { assert Linked(heap, ids, p + 1); }
  }

  lemma ChainEmpty(heap: Heap, head: nat, ids: seq<nat>)
    requires IsChain(heap, head, ids)
    ensures head == 0 <==> ids == []
  {
    if ids != [] { assert Linked(heap, ids, 0); }
  }

  /** A new head. */
  lemma ChainPush(heap: Heap, heap': Heap, head: nat, ids: seq<nat>, e: nat)
    requires IsChain(heap, head, ids) && e != 0 && e !in ids && e in heap' && heap'[e].next == head
    requires forall a :: a in ids ==> a in heap' && (a in heap ==> heap'[a].next == heap[a].next)
    ensures IsChain(heap', e, [e] + ids)
  {
    var c := [e] + ids;
    forall p | 0 <= p < |c| ensures Linked(heap', c, p) {
      if p > 0 { assert Linked(heap, ids, p - 1); }
    }
  }

  /** The entry at place p, between l and r, is taken out. */
  lemma ChainCut(heap: Heap, heap': Heap, head: nat, head': nat, l: seq<nat>, e: nat, r: seq<nat>)
    requires IsChain(heap, head, l + [e] + r) && e !in l && e !in r
    requires forall a :: a in l + r ==> a in heap'
    requires forall a :: a in r && a in heap ==> heap'[a].next == heap[a].next
    requires forall p :: 0 <= p < |l| - 1 && l[p] in heap && l[p] in heap' ==> heap'[l[p]].next == heap[l[p]].next
    requires if l == [] then head' == Nth(r, 0)
             else head' == head && l[|l| - 1] in heap' && heap'[l[|l| - 1]].next == Nth(r, 0)
    ensures IsChain(heap', head', l + r)
  {
    var s, c := l + [e] + r, l + r;
    forall p | 0 <= p < |c| ensures Linked(heap', c, p) {
      if p < |l| {
        assert Linked(heap, s, p);
      } else {
        assert Linked(heap, s, p + 1) && s[p + 1] == c[p];
        assert c[p] in r;
      }
    }
    assert head == s[0];
  }

  lemma LastLink(heap: Heap, head: nat, l: seq<nat>, e: nat, r: seq<nat>)
    requires IsChain(heap, head, l + [e] + r)
    ensures e in heap && e != 0 && heap[e].next == Nth(r, 0)
    ensures l != [] ==> l[|l| - 1] in heap && heap[l[|l| - 1]].next == e
    ensures l == [] ==> head == e
  {
    var s := l + [e] + r;
    assert Linked(heap, s, |l|);
    if l != [] { assert Linked(heap, s, |l| - 1); }
  }

  // ---------------------------------------------------------------------------------------
  // All chains together
  // ---------------------------------------------------------------------------------------

  ghost function Total(chains: seq<seq<nat>>): multiset<nat> {
    if chains == [] then multiset{} else multiset(chains[0]) + Total(chains[1..])
  }

  ghost function Flat(chains: seq<seq<nat>>): seq<nat> {
    if chains == [] then [] else chains[0] + Flat(chains[1..])
  }

  lemma {:induction false} TotalFlat(chains: seq<seq<nat>>)
    ensures Total(chains) == multiset(Flat(chains))
  {
    if chains != [] { TotalFlat(chains[1..]); }
  }

  lemma {:induction false} TotalUpdate(chains: seq<seq<nat>>, i: nat, c: seq<nat>)
    requires i < |chains|
    ensures multiset(chains[i]) <= Total(chains)
    ensures Total(chains[i := c]) == Total(chains) - multiset(chains[i]) + multiset(c)
    decreases i
  {
    if i == 0 {
      assert chains[0 := c][1..] == chains[1..];
    } else {
      TotalUpdate(chains[1..], i - 1, c);
      assert chains[i := c][1..] == chains[1..][i - 1 := c];
      var x, y := multiset(chains[0]), Total(chains[1..]);
      assert Total(chains[i := c]) == x + (y - multiset(chains[i]) + multiset(c));
      Exchange(x, y, multiset(chains[i]), multiset(c));
    }
  }

  lemma Exchange(x: multiset<nat>, y: multiset<nat>, c: multiset<nat>, d: multiset<nat>)
    requires c <= y
    ensures x + (y - c + d) == x + y - c + d && c <= x + y
  {
  }

  ghost predicate AllEmpty(chains: seq<seq<nat>>) { forall i :: 0 <= i < |chains| ==> chains[i] == [] }

  lemma {:induction false} TotalEmpty(chains: seq<seq<nat>>)
    requires AllEmpty(chains)
    ensures Total(chains) == multiset{} && Flat(chains) == []
  {
    if chains != [] { TotalEmpty(chains[1..]); }
  }

  /** Empty buckets behind the others. */
  lemma {:induction false} TotalGrown(a: seq<seq<nat>>, b: seq<seq<nat>>)
    requires AllEmpty(b)
    ensures Total(a + b) == Total(a)
    decreases a
  {
    if a == [] {
      assert a + b == b;
      TotalEmpty(b);
    } else {
      TotalGrown(a[1..], b);
      assert (a + b)[1..] == a[1..] + b;
    }
  }

  /** Empty buckets before the others. */
  lemma {:induction false} FlatSkips(chains: seq<seq<nat>>, i: nat)
    requires i < |chains| && AllEmpty(chains[..i])
    ensures Flat(chains) == chains[i] + Flat(chains[i + 1..])
    decreases i
  {
    if i > 0 {
      assert chains[0] == chains[..i][0] == [];
      assert chains[1..][..i - 1] == chains[..i][1..];
      assert forall j :: 0 <= j < i - 1 ==> chains[..i][1..][j] == chains[..i][j + 1];
      FlatSkips(chains[1..], i - 1);
      assert chains[1..][i..] == chains[i + 1..];
    }
  }

  ghost predicate Unique(m: multiset<nat>) { forall a :: m[a] <= 1 }

  lemma {:induction false} TotalHas(chains: seq<seq<nat>>, a: nat)
    ensures a in Total(chains) <==> exists i :: 0 <= i < |chains| && a in chains[i]
  {
    if chains != [] {
      TotalHas(chains[1..], a);
      if i :| 0 <= i < |chains| && a in chains[i] {
        if i > 0 { assert a in chains[1..][i - 1]; }
      }
      if a in Total(chains[1..]) {
        var j :| 0 <= j < |chains[1..]| && a in chains[1..][j];
        assert a in chains[j + 1];
      }
    }
  }

  /** No entry hangs in two places. */
  lemma UniqueChains(chains: seq<seq<nat>>, i: nat, j: nat, a: nat)
    requires Unique(Total(chains)) && i < |chains| && j < |chains| && i != j && a in chains[i]
    ensures a !in chains[j]
  {
    TotalUpdate(chains, i, []);
    var d := chains[i := []];
    assert multiset(chains[i])[a] >= 1;
    assert Total(d)[a] == 0;
    TotalUpdate(d, j, []);
    assert d[j] == chains[j];
    assert multiset(chains[j])[a] == 0;
  }

  lemma UniquePlaces(ids: seq<nat>, p: nat, q: nat)
    requires Unique(multiset(ids)) && p < q < |ids|
    ensures ids[p] != ids[q]
  {
    assert ids == ids[..p] + [ids[p]] + ids[p + 1..];
    assert ids[q] == ids[p + 1..][q - p - 1];
    assert multiset(ids)[ids[p]] >= 1 + multiset(ids[p + 1..])[ids[p]];
  }

  lemma UniqueOne(chains: seq<seq<nat>>, i: nat)
    requires Unique(Total(chains)) && i < |chains|
    ensures Unique(multiset(chains[i]))
  {
    TotalUpdate(chains, i, []);
    forall a ensures multiset(chains[i])[a] <= 1 {
      assert multiset(chains[i])[a] <= Total(chains)[a];
    }
  }

  /** An entry once in its chain. */
  lemma SplitUnique(l: seq<nat>, e: nat, r: seq<nat>)
    requires Unique(multiset(l + [e] + r))
    ensures e !in l && e !in r
    ensures forall a :: a in l ==> a !in r
  {
    assert multiset(l + [e] + r) == multiset(l) + multiset{e} + multiset(r);
    forall a | a in l ensures a !in r && a != e {
      assert multiset(l)[a] >= 1;
      assert multiset(l + [e] + r)[a] == multiset(l)[a] + multiset{e}[a] + multiset(r)[a];
    }
    assert multiset(l + [e] + r)[e] == multiset(l)[e] + 1 + multiset(r)[e];
  }

  // ---------------------------------------------------------------------------------------
  // Buckets
  // ---------------------------------------------------------------------------------------

  ghost predicate InBucket(heap: Heap, size: nat, a: nat, i: nat)
    requires size > 0
  {
    a in heap && heap[a].h % size == i
  }

  ghost predicate Bucketed(heap: Heap, chains: seq<seq<nat>>, size: nat)
    requires size > 0
  {
    forall i, a :: 0 <= i < |chains| && a in chains[i] ==> InBucket(heap, size, a, i)
  }

  /** The entries of s that belong into bucket j, in order. */
  ghost function Picked(heap: Heap, size: nat, s: seq<nat>, j: nat): seq<nat>
    requires size > 0
  {
    if s == [] then []
    else if InBucket(heap, size, s[0], j) then [s[0]] + Picked(heap, size, s[1..], j)
    else Picked(heap, size, s[1..], j)
  }

  function Reversed(s: seq<nat>): (r: seq<nat>)
    ensures |r| == |s| && forall i :: 0 <= i < |s| ==> r[i] == s[|s| - 1 - i]
  {
    if s == [] then [] else Reversed(s[1..]) + [s[0]]
  }

  lemma {:induction false} PickedAppend(heap: Heap, size: nat, s: seq<nat>, e: nat, j: nat)
    requires size > 0
    ensures Picked(heap, size, s + [e], j) == Picked(heap, size, s, j) + if InBucket(heap, size, e, j) then [e] else []
  {
    if s == [] {
      assert s + [e] == [e];
      assert [e][1..] == [];
    } else {
      PickedAppend(heap, size, s[1..], e, j);
      assert (s + [e])[1..] == s[1..] + [e];
    }
  }

  lemma {:induction false} PickedConcat(heap: Heap, size: nat, s: seq<nat>, t: seq<nat>, j: nat)
    requires size > 0
    ensures Picked(heap, size, s + t, j) == Picked(heap, size, s, j) + Picked(heap, size, t, j)
  {
    if s == [] {
      assert s + t == t;
    } else {
      PickedConcat(heap, size, s[1..], t, j);
      assert (s + t)[1..] == s[1..] + t;
    }
  }

  lemma ReversedAppend(s: seq<nat>, e: nat)
    ensures Reversed(s + [e]) == [e] + Reversed(s)
  {
  }

  lemma {:induction false} PickedFrame(heap: Heap, heap': Heap, size: nat, s: seq<nat>, j: nat)
    requires size > 0 && SameEntries(heap, heap')
    ensures Picked(heap', size, s, j) == Picked(heap, size, s, j)
  {
    if s != [] { PickedFrame(heap, heap', size, s[1..], j); }
  }

  lemma {:induction false} PickedNone(heap: Heap, size: nat, s: seq<nat>, j: nat)
    requires size > 0 && forall a :: a in s ==> !InBucket(heap, size, a, j)
    ensures Picked(heap, size, s, j) == []
  {
    if s != [] { PickedNone(heap, size, s[1..], j); }
  }

  lemma {:induction false} PickedAll(heap: Heap, size: nat, s: seq<nat>, j: nat)
    requires size > 0 && forall a :: a in s ==> InBucket(heap, size, a, j)
    ensures Picked(heap, size, s, j) == s
  {
    if s != [] { PickedAll(heap, size, s[1..], j); }
  }

  /** The same entries, each in its bucket: every bucket holds the same, up to the order. */
  lemma SameBuckets(heap: Heap, a: seq<seq<nat>>, heap': Heap, b: seq<seq<nat>>, size: nat, j: nat)
    requires size > 0 && |a| == |b| && j < |a| && SameEntries(heap, heap')
    requires Total(a) == Total(b) && Bucketed(heap, a, size) && Bucketed(heap', b, size)
    ensures multiset(a[j]) == multiset(b[j])
  {
    forall x ensures multiset(a[j])[x] == multiset(b[j])[x] {
      BucketCount(heap, a, size, j, x);
      BucketCount(heap', b, size, j, x);
    }
  }

  lemma {:induction false} BucketCount(heap: Heap, chains: seq<seq<nat>>, size: nat, j: nat, x: nat)
    requires size > 0 && j < |chains| && Bucketed(heap, chains, size)
    ensures multiset(chains[j])[x] == if InBucket(heap, size, x, j) then Total(chains)[x] else 0
  {
    TotalUpdate(chains, j, []);
    var d := chains[j := []];
    TotalHas(d, x);
    forall i | 0 <= i < |d| ensures x in d[i] ==> i != j && InBucket(heap, size, x, i) {
      ChainBucket(heap, chains, size, i, x);
    }
    ChainBucket(heap, chains, size, j, x);
  }

  lemma ChainBucket(heap: Heap, chains: seq<seq<nat>>, size: nat, i: nat, x: nat)
    requires size > 0 && i < |chains| && Bucketed(heap, chains, size)
    ensures x in chains[i] ==> InBucket(heap, size, x, i)
  {
  }
}
