/** Inserting into and removing from what a B-tree holds, in order. */
module BTreeOrder {
  import opened KeySearch
  import opened BTreeShape

  // ---------------------------------------------------------------------------------------
  // Sorted sequences
  // ---------------------------------------------------------------------------------------

  ghost predicate AllAtMost(s: seq<Item>, r: int) { forall i :: 0 <= i < |s| ==> s[i].rank <= r }

  ghost predicate AllAtLeast(s: seq<Item>, r: int) { forall i :: 0 <= i < |s| ==> s[i].rank >= r }

  ghost predicate AllAbove(s: seq<Item>, r: int) { forall i :: 0 <= i < |s| ==> s[i].rank > r }

  lemma SortedParts(a: seq<Item>, b: seq<Item>, c: seq<Item>)
    requires Sorted(a + b + c)
    ensures Sorted(a) && Sorted(b) && Sorted(c)
    ensures forall i, j :: 0 <= i < |a| && 0 <= j < |b| ==> a[i].rank <= b[j].rank
    ensures forall i, j :: 0 <= i < |a| && 0 <= j < |c| ==> a[i].rank <= c[j].rank
    ensures forall i, j :: 0 <= i < |b| && 0 <= j < |c| ==> b[i].rank <= c[j].rank
  {
    var s := a + b + c;
    forall i | 0 <= i < |a| ensures a[i] == s[i] {}
    forall i | 0 <= i < |b| ensures b[i] == s[|a| + i] {}
    forall i | 0 <= i < |c| ensures c[i] == s[|a| + |b| + i] {}
  }

  lemma SortedJoin(a: seq<Item>, b: seq<Item>, c: seq<Item>)
    requires Sorted(a) && Sorted(b) && Sorted(c)
    requires forall i, j :: 0 <= i < |a| && 0 <= j < |b| ==> a[i].rank <= b[j].rank
    requires forall i, j :: 0 <= i < |a| && 0 <= j < |c| ==> a[i].rank <= c[j].rank
    requires forall i, j :: 0 <= i < |b| && 0 <= j < |c| ==> b[i].rank <= c[j].rank
    ensures Sorted(a + b + c)
  {
  }

  // ---------------------------------------------------------------------------------------
  // Insertion
  // ---------------------------------------------------------------------------------------

  ghost predicate InsertedAt(s: seq<Item>, k: Item, s': seq<Item>, j: nat) {
    j <= |s| && s' == s[..j] + [k] + s[j..]
  }

  /** s' is s with one more item. */
  ghost predicate Inserted(s: seq<Item>, k: Item, s': seq<Item>) {
    exists j: nat :: InsertedAt(s, k, s', j)
  }

  lemma InsertedCount(s: seq<Item>, k: Item, s': seq<Item>)
    requires Inserted(s, k, s')
    ensures multiset(s') == multiset(s) + multiset{k} && |s'| == |s| + 1
  {
    var j: nat :| InsertedAt(s, k, s', j);
    assert s == s[..j] + s[j..];
  }

  lemma InsertedInside(l: seq<Item>, c: seq<Item>, r: seq<Item>, k: Item, c': seq<Item>)
    requires Inserted(c, k, c')
    ensures Inserted(l + c + r, k, l + c' + r)
  {
    var j: nat :| InsertedAt(c, k, c', j);
    assert (l + c + r)[..|l| + j] == l + c[..j] && (l + c + r)[|l| + j..] == c[j..] + r;
    assert InsertedAt(l + c + r, k, l + c' + r, |l| + j);
  }

  lemma InsertedSorted(l: seq<Item>, c: seq<Item>, r: seq<Item>, k: Item, c': seq<Item>)
    requires Sorted(l + c + r) && Inserted(c, k, c') && Sorted(c')
    requires AllAtMost(l, k.rank) && AllAtLeast(r, k.rank)
    ensures Sorted(l + c' + r)
  {
    SortedParts(l, c, r);
    var j: nat :| InsertedAt(c, k, c', j);
    forall i | 0 <= i < |c'| ensures c'[i] == k || exists m :: 0 <= m < |c| && c'[i] == c[m] {
      if i < j { assert c'[i] == c[i]; } else if i > j { assert c'[i] == c[i - 1]; }
    }
    SortedJoin(l, c', r);
  }

  /** After the last key that is at most k is the place for k. */
  lemma InsertedLeaf(keys: seq<Item>, k: Item, i: int)
    requires Sorted(keys) && LastAtMost(keys, k, i)
    ensures Inserted(keys, k, keys[..i + 1] + [k] + keys[i + 1..])
    ensures Sorted(keys[..i + 1] + [k] + keys[i + 1..])
  {
    assert InsertedAt(keys, k, keys[..i + 1] + [k] + keys[i + 1..], i + 1);
  }

  // ---------------------------------------------------------------------------------------
  // Removal
  // ---------------------------------------------------------------------------------------

  ghost predicate SameOrEqual(a: Item, b: Item, k: Item) { a == b || (a == k && b.rank == k.rank) }

  /** u is s, with k in some of the places of items that compare equal to k. */
  ghost predicate Patched(u: seq<Item>, s: seq<Item>, k: Item) {
    |u| == |s| && forall i :: 0 <= i < |s| ==> SameOrEqual(u[i], s[i], k)
  }

  ghost predicate RemovedAt(s: seq<Item>, k: Item, mode: nat, s': seq<Item>, gone: Item, swapped: bool,
                            u: seq<Item>, j: nat) {
    && Patched(u, s, k) && (swapped <==> u != s)
    && j < |u| && u[j] == gone && s' == u[..j] + u[j + 1..]
    && (mode == 0 ==> gone.rank == k.rank)
    && (mode == 1 ==> !swapped && j == |s| - 1)
    && (mode == 2 ==> !swapped && j == 0)
  }

  /** One item goes: one that compares equal to k (mode 0), the last (1) or the first (2).  The
      search key may have been put in the place of items it compares equal to: `swapped`. */
  ghost predicate Removed(s: seq<Item>, k: Item, mode: nat, s': seq<Item>, gone: Item, swapped: bool) {
    exists u, j: nat :: RemovedAt(s, k, mode, s', gone, swapped, u, j)
  }

  lemma PatchedSorted(u: seq<Item>, s: seq<Item>, k: Item)
    requires Patched(u, s, k)
    ensures forall i :: 0 <= i < |s| ==> u[i].rank == s[i].rank
    ensures Sorted(s) ==> Sorted(u)
  {
    forall i | 0 <= i < |s| ensures u[i].rank == s[i].rank { assert SameOrEqual(u[i], s[i], k); }
  }

  lemma RemovedSorted(s: seq<Item>, k: Item, mode: nat, s': seq<Item>, gone: Item, swapped: bool)
    requires Removed(s, k, mode, s', gone, swapped) && Sorted(s)
    ensures Sorted(s') && |s'| == |s| - 1
  {
    var u, j: nat :| RemovedAt(s, k, mode, s', gone, swapped, u, j);
    PatchedSorted(u, s, k);
  }

  lemma RemovedInside(l: seq<Item>, c: seq<Item>, r: seq<Item>, k: Item, mode: nat, c': seq<Item>, gone: Item,
                      swapped: bool)
    requires Removed(c, k, mode, c', gone, swapped)
    requires mode == 1 ==> r == []
    requires mode == 2 ==> l == []
    ensures Removed(l + c + r, k, mode, l + c' + r, gone, swapped)
  {
    var u, j: nat :| RemovedAt(c, k, mode, c', gone, swapped, u, j);
    var v := l + u + r;
    PatchedInside(l, c, r, u, k);
    RemoveInside(l, u, r, j);
    assert u != c ==> v != l + c + r by { MiddleDiffers(l, u, c, r); }
    assert RemovedAt(l + c + r, k, mode, l + c' + r, gone, swapped, v, |l| + j);
  }

  lemma MiddleDiffers(l: seq<Item>, u: seq<Item>, c: seq<Item>, r: seq<Item>)
    requires |u| == |c|
    ensures l + u + r == l + c + r ==> u == c
  {
    assert (l + u + r)[|l|..|l| + |u|] == u && (l + c + r)[|l|..|l| + |c|] == c;
  }

  lemma RemoveInside(l: seq<Item>, u: seq<Item>, r: seq<Item>, j: nat)
    requires j < |u|
    ensures var v := l + u + r;
            v[|l| + j] == u[j] && v[..|l| + j] + v[|l| + j + 1..] == l + (u[..j] + u[j + 1..]) + r
  {
  }

  lemma PatchedInside(l: seq<Item>, c: seq<Item>, r: seq<Item>, u: seq<Item>, k: Item)
    requires Patched(u, c, k)
    ensures Patched(l + u + r, l + c + r, k)
  {
    var v, s := l + u + r, l + c + r;
    forall i | 0 <= i < |s| ensures SameOrEqual(v[i], s[i], k) {
      if |l| <= i < |l| + |c| { assert SameOrEqual(u[i - |l|], c[i - |l|], k); }
    }
  }

  /** A leaf loses its key i. */
  lemma RemovedLeaf(keys: seq<Item>, k: Item, mode: nat, i: nat)
    requires i < |keys|
    requires mode == 0 ==> keys[i].rank == k.rank
    requires mode == 1 ==> i == |keys| - 1
    requires mode == 2 ==> i == 0
    ensures Removed(keys, k, mode, keys[..i] + keys[i + 1..], keys[i], false)
  {
    assert RemovedAt(keys, k, mode, keys[..i] + keys[i + 1..], keys[i], false, keys, i);
  }

  /** The key kp gives way to its predecessor, the last item of c. */
  lemma RemovedBefore(l: seq<Item>, c: seq<Item>, kp: Item, r: seq<Item>, k: Item, any: Item, c': seq<Item>, p: Item)
    requires Removed(c, any, 1, c', p, false) && kp.rank == k.rank
    ensures Removed(l + (c + [kp]) + r, k, 0, l + (c' + [p]) + r, kp, false)
  {
    var u, j: nat :| RemovedAt(c, any, 1, c', p, false, u, j);
    assert c' + [p] == c;
    RemovedLeaf(c + [kp], k, 0, |c|);
    assert (c + [kp])[..|c|] + (c + [kp])[|c| + 1..] == c;
    RemovedInside(l, c + [kp], r, k, 0, c, kp, false);
  }

  /** The key kp gives way to its successor, the first item of c. */
  lemma RemovedAfter(l: seq<Item>, kp: Item, c: seq<Item>, r: seq<Item>, k: Item, any: Item, c': seq<Item>, p: Item)
    requires Removed(c, any, 2, c', p, false) && kp.rank == k.rank
    ensures Removed(l + ([kp] + c) + r, k, 0, l + ([p] + c') + r, kp, false)
  {
    var u, j: nat :| RemovedAt(c, any, 2, c', p, false, u, j);
    assert [p] + c' == c;
    RemovedLeaf([kp] + c, k, 0, 0);
    assert ([kp] + c)[..0] + ([kp] + c)[0 + 1..] == c;
    RemovedInside(l, [kp] + c, r, k, 0, c, kp, false);
  }

  /** The key kp is replaced by k before k is removed from the merged child. */
  lemma RemovedMerged(l: seq<Item>, y: seq<Item>, kp: Item, z: seq<Item>, r: seq<Item>, k: Item, c': seq<Item>,
                      gone: Item, swapped: bool)
    requires Removed(y + [k] + z, k, 0, c', gone, swapped) && kp.rank == k.rank
    ensures Removed(l + (y + [kp] + z) + r, k, 0, l + c' + r, gone, swapped || kp != k)
  {
    var c, d := y + [k] + z, y + [kp] + z;
    var u, j: nat :| RemovedAt(c, k, 0, c', gone, swapped, u, j);
    forall i | 0 <= i < |d| ensures SameOrEqual(u[i], d[i], k) {
      assert SameOrEqual(u[i], c[i], k);
      assert SameOrEqual(c[i], d[i], k);
    }
    assert SameOrEqual(u[|y|], c[|y|], k) && d[|y|] == kp;
    assert RemovedAt(d, k, 0, c', gone, swapped || kp != k, u, j);
    RemovedInside(l, d, r, k, 0, c', gone, swapped || kp != k);
  }

  lemma {:induction false} PatchedCount(u: seq<Item>, s: seq<Item>, k: Item)
    requires Patched(u, s, k)
    ensures multiset(u)[k] >= multiset(s)[k]
    ensures u != s ==> multiset(u)[k] > multiset(s)[k]
    decreases |s|
  {
    if s != [] {
      var n := |s| - 1;
      assert u == u[..n] + [u[n]] && s == s[..n] + [s[n]];
      assert SameOrEqual(u[n], s[n], k);
      PatchedCount(u[..n], s[..n], k);
    }
  }

  lemma TakeOut<T>(u: seq<T>, j: nat)
    requires j < |u|
    ensures multiset(u) == multiset(u[..j] + u[j + 1..]) + multiset{u[j]}
  {
    assert u == u[..j] + [u[j]] + u[j + 1..];
  }

  lemma PatchedSame(u: seq<Item>, s: seq<Item>, k: Item)
    requires Patched(u, s, k) && forall i :: 0 <= i < |s| && s[i].rank == k.rank ==> s[i] == k
    ensures u == s
  {
    forall i | 0 <= i < |s| ensures u[i] == s[i] { assert SameOrEqual(u[i], s[i], k); }
  }

  /** What is given back and what is left make up what was there, unless the search key has taken
      the place of another object. */
  lemma RemovedExactly(s: seq<Item>, k: Item, mode: nat, s': seq<Item>, gone: Item, swapped: bool)
    requires Removed(s, k, mode, s', gone, swapped)
    ensures multiset(s) == multiset(s') + multiset{gone} <==> !swapped
    ensures (forall i :: 0 <= i < |s| && s[i].rank == k.rank ==> s[i] == k) ==> !swapped
  {
    var u, j: nat :| RemovedAt(s, k, mode, s', gone, swapped, u, j);
    PatchedCount(u, s, k);
    TakeOut(u, j);
    hide SameOrEqual;
    if forall i :: 0 <= i < |s| && s[i].rank == k.rank ==> s[i] == k { PatchedSame(u, s, k); }
  }

  ghost function Ranks(s: seq<Item>): seq<int> { seq(|s|, i requires 0 <= i < |s| => s[i].rank) }

  /** As far as the comparison can tell, exactly one occurrence of k goes. */
  lemma RemovedRanks(s: seq<Item>, k: Item, s': seq<Item>, gone: Item, swapped: bool)
    requires Removed(s, k, 0, s', gone, swapped)
    ensures multiset(Ranks(s)) == multiset(Ranks(s')) + multiset{k.rank} && gone.rank == k.rank
  {
    var u: seq<Item>, j: nat :| RemovedAt(s, k, 0, s', gone, swapped, u, j);
    PatchedSorted(u, s, k);
    hide SameOrEqual;
    assert Ranks(u) == Ranks(s);
    TakeOut(Ranks(u), j);
    assert Ranks(s') == Ranks(u)[..j] + Ranks(u)[j + 1..];
  }

  // ---------------------------------------------------------------------------------------
  // Finding the way
  // ---------------------------------------------------------------------------------------

  ghost predicate Has(s: seq<Item>, k: Item) {
    exists j :: 0 <= j < |s| && s[j].rank == k.rank
  }

  lemma {:induction false} BeforeHas(tr: Tree, i: nat, j: nat)
    requires Inner(tr) && i < j <= |tr.keys|
    ensures exists m :: 0 <= m < |Before(tr, j)| && Before(tr, j)[m] == tr.keys[i]
    decreases j
  {
    BeforeKey(tr, j);
    if i == j - 1 {
      assert Before(tr, j)[|Before(tr, j)| - 1] == tr.keys[i];
    } else {
      BeforeHas(tr, i, j - 1);
      var m :| 0 <= m < |Before(tr, j - 1)| && Before(tr, j - 1)[m] == tr.keys[i];
      assert Before(tr, j)[m] == tr.keys[i];
    }
  }

  /** The keys of a node are sorted if everything below it is. */
  lemma KeysSorted(tr: Tree)
    requires (tr.kids == [] || Inner(tr)) && Sorted(InOrder(tr))
    ensures Sorted(tr.keys)
  {
    if tr.kids != [] {
      forall i, j | 0 <= i < j < |tr.keys| ensures tr.keys[i].rank <= tr.keys[j].rank {
        BeforeHas(tr, i, j);
        AtChild(tr, j);
        AfterKey(tr, j);
        SortedParts(Before(tr, j), InOrder(tr.kids[j]), After(tr, j));
        assert After(tr, j)[0] == tr.keys[j];
      }
    }
  }

  /** Child i + 1 is the place for k: nothing before it is above k, everything after it is. */
  lemma Route(tr: Tree, k: Item, i: int)
    requires Inner(tr) && Sorted(InOrder(tr)) && LastAtMost(tr.keys, k, i)
    ensures AllAtMost(Before(tr, i + 1), if i < 0 then k.rank else tr.keys[i].rank)
    ensures AllAtMost(Before(tr, i + 1), k.rank) && AllAbove(After(tr, i + 1), k.rank)
    ensures Sorted(InOrder(tr.kids[i + 1]))
  {
    hide InOrder;
    hide Before;
    hide After;
    var b, a := Before(tr, i + 1), After(tr, i + 1);
    AtChild(tr, i + 1);
    SortedParts(b, InOrder(tr.kids[i + 1]), a);
    if i >= 0 {
      BeforeKey(tr, i + 1);
      assert b[|b| - 1] == tr.keys[i];
      forall j | 0 <= j < |b| ensures b[j].rank <= tr.keys[i].rank {
        if j < |b| - 1 { assert b[j].rank <= b[|b| - 1].rank; }
      }
    } else {
      NothingBefore(tr);
    }
    if i + 1 < |tr.keys| {
      AfterKey(tr, i + 1);
      assert a[0] == tr.keys[i + 1];
      forall j | 0 <= j < |a| ensures a[j].rank > k.rank {
        if j > 0 { assert a[0].rank <= a[j].rank; }
      }
    } else {
      NothingAfter(tr);
    }
  }

  lemma NothingBefore(tr: Tree)
    requires Inner(tr)
    ensures Before(tr, 0) == []
  {
  }

  lemma NothingAfter(tr: Tree)
    requires Inner(tr)
    ensures After(tr, |tr.keys|) == []
  {
  }

  /** Child c is a place for k: the keys around it say so. */
  ghost predicate FitsAt(keys: seq<Item>, k: Item, c: nat) {
    && c <= |keys|
    && (c > 0 ==> keys[c - 1].rank <= k.rank) && (c < |keys| ==> k.rank <= keys[c].rank)
  }

  lemma RouteInsert(tr: Tree, k: Item, c: nat)
    requires Inner(tr) && Sorted(InOrder(tr)) && FitsAt(tr.keys, k, c)
    ensures AllAtMost(Before(tr, c), k.rank) && AllAtLeast(After(tr, c), k.rank) && Sorted(InOrder(tr.kids[c]))
  {
    hide InOrder;
    hide Before;
    hide After;
    var b, a := Before(tr, c), After(tr, c);
    AtChild(tr, c);
    SortedParts(b, InOrder(tr.kids[c]), a);
    if c > 0 {
      BeforeKey(tr, c);
      assert b[|b| - 1] == tr.keys[c - 1];
      forall j | 0 <= j < |b| ensures b[j].rank <= tr.keys[c - 1].rank {
        if j < |b| - 1 { assert b[j].rank <= b[|b| - 1].rank; }
      }
    } else {
      NothingBefore(tr);
    }
    if c < |tr.keys| {
      AfterKey(tr, c);
      assert a[0] == tr.keys[c];
      forall j | 0 <= j < |a| ensures a[j].rank >= k.rank {
        if j > 0 { assert a[0].rank <= a[j].rank; }
      }
    } else {
      NothingAfter(tr);
    }
  }

  /** An insertion below child c is an insertion into the whole. */
  lemma InsertBelow(tr: Tree, k: Item, c: nat, d: Tree)
    requires Inner(tr) && Sorted(InOrder(tr)) && FitsAt(tr.keys, k, c)
    requires Inserted(InOrder(tr.kids[c]), k, InOrder(d)) && Sorted(InOrder(d))
    ensures Inserted(InOrder(tr), k, InOrder(ChildAt(tr, c, d))) && Sorted(InOrder(ChildAt(tr, c, d)))
  {
    hide InOrder;
    hide Before;
    hide After;
    RouteInsert(tr, k, c);
    AtChild(tr, c);
    ChildOrder(tr, c, d);
    InsertedInside(Before(tr, c), InOrder(tr.kids[c]), After(tr, c), k, InOrder(d));
    InsertedSorted(Before(tr, c), InOrder(tr.kids[c]), After(tr, c), k, InOrder(d));
  }

  /** An item that compares equal to k and is not the key found lies in that child. */
  lemma RouteHas(tr: Tree, k: Item, i: int)
    requires Inner(tr) && Sorted(InOrder(tr)) && LastAtMost(tr.keys, k, i) && Has(InOrder(tr), k)
    requires i >= 0 ==> tr.keys[i].rank != k.rank
    ensures Has(InOrder(tr.kids[i + 1]), k)
  {
    hide InOrder;
    hide Before;
    hide After;
    Route(tr, k, i);
    AtChild(tr, i + 1);
    var b, c, a := Before(tr, i + 1), InOrder(tr.kids[i + 1]), After(tr, i + 1);
    var j :| 0 <= j < |InOrder(tr)| && InOrder(tr)[j].rank == k.rank;
    PartOf(b, c, a, j);
    if i < 0 { NothingBefore(tr); }
  }

  lemma PartOf(b: seq<Item>, c: seq<Item>, a: seq<Item>, j: nat)
    requires j < |b + c + a|
    ensures (b + c + a)[j] == if j < |b| then b[j] else if j < |b| + |c| then c[j - |b|] else a[j - |b| - |c|]
  {
  }
}
