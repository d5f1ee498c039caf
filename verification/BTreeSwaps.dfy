/** When a deletion puts the search key in the place of the stored one, and does not give that one
    back: told from the tree before the call, along the search path. */
module BTreeSwaps {
  import opened KeySearch
  import opened BTreeShape
  import opened BTreeOrder
  import opened BTreeDelete

  /** The search for k below x (h levels of children) meets, as the last key that is at most k, one
      that compares equal and has both neighbours at their least; and either that key is another
      object, or the same happens in the child the two neighbours become. */
  ghost predicate Swaps(x: Tree, h: nat, k: Item, t: nat)
    decreases h, 1
  {
    exists i :: LastAtMost(x.keys, k, i) && SwapsAt(x, h, k, t, i)
  }

  ghost predicate SwapsAt(x: Tree, h: nat, k: Item, t: nat, i: int)
    decreases h, 0
  {
    && h > 0 && Inner(x) && -1 <= i < |x.keys|
    && if i >= 0 && x.keys[i].rank == k.rank
       then AtLeast(x, t, i) && (x.keys[i] != k || Swaps(Joined(x, i, k), h - 1, k, t))
       else Swaps(x.kids[i + 1], h - 1, k, t)
  }

  /** Both neighbours of the key i are at their least. */
  ghost predicate AtLeast(x: Tree, t: nat, i: nat)
    requires Inner(x) && i < |x.keys|
  {
    |x.kids[i].keys| == t - 1 && |x.kids[i + 1].keys| == t - 1
  }

  /** What the neighbours of the key i become with k between them. */
  ghost function Joined(x: Tree, i: nat, k: Item): Tree
    requires Inner(x) && i < |x.keys|
  {
    Join(x.kids[i].id, x.kids[i], k, x.kids[i + 1])
  }

  lemma SwapsHere(x: Tree, h: nat, k: Item, t: nat, i: int)
    requires LastAtMost(x.keys, k, i)
    ensures Swaps(x, h, k, t) <==> SwapsAt(x, h, k, t, i)
  {
    if j :| LastAtMost(x.keys, k, j) && SwapsAt(x, h, k, t, j) { LastUnique(x.keys, k, i, j); }
  }

  lemma LeafNeverSwaps(x: Tree, k: Item, t: nat)
    ensures !Swaps(x, 0, k, t)
  {
  }

  lemma {:induction false} LastExists(keys: seq<Item>, k: Item) returns (i: int)
    requires Sorted(keys)
    ensures LastAtMost(keys, k, i)
  {
    var n := |keys|;
    if n == 0 || keys[n - 1].rank <= k.rank {
      i := n - 1;
    } else {
      assert keys == keys[..n - 1] + [keys[n - 1]];
      i := LastExists(keys[..n - 1], k);
      assert forall j :: 0 <= j < n - 1 ==> keys[..n - 1][j] == keys[j];
    }
  }

  lemma LastBehind(a: seq<Item>, m: Item, b: seq<Item>, k: Item, i: int)
    requires Sorted(a + [m] + b) && m.rank < k.rank && LastAtMost(b, k, i)
    ensures LastAtMost(a + [m] + b, k, i + |a| + 1)
  {
    var c, n := a + [m] + b, |a| + 1;
    assert c[|a|] == m;
    forall j | 0 <= j < |c| ensures c[j].rank <= k.rank <==> j <= i + n {
      if j < n { assert c[j].rank <= c[|a|].rank; } else { assert c[j] == b[j - n]; }
    }
  }

  lemma LastInFront(a: seq<Item>, m: Item, b: seq<Item>, k: Item, i: int)
    requires Sorted(a + [m] + b) && m.rank > k.rank && LastAtMost(a, k, i)
    ensures LastAtMost(a + [m] + b, k, i)
  {
    var c := a + [m] + b;
    assert c[|a|] == m;
    forall j | 0 <= j < |c| ensures c[j].rank <= k.rank <==> j <= i {
      if j >= |a| { assert c[|a|].rank <= c[j].rank; } else { assert c[j] == a[j]; }
    }
  }

  /** A part added in front of everything the search can meet makes no difference. */
  lemma JoinedInFront(id: nat, a: Tree, m: Item, b: Tree, h: nat, k: Item, t: nat)
    requires Alike(a, b) && Sorted(Join(id, a, m, b).keys) && m.rank < k.rank && (h > 0 <==> Inner(b))
    ensures Swaps(Join(id, a, m, b), h, k, t) <==> Swaps(b, h, k, t)
  {
    hide Swaps;
    hide Sorted;
    hide LastAtMost;
    var c, n := Join(id, a, m, b), |a.keys| + 1;
    assert a.keys + [m] + b.keys + [] == c.keys;
    SortedParts(a.keys + [m], b.keys, []);
    var i := LastExists(b.keys, k);
    LastBehind(a.keys, m, b.keys, k, i);
    SwapsHere(c, h, k, t, i + n);
    SwapsHere(b, h, k, t, i);
    LastInRange(b.keys, k, i);
    if h > 0 {
      JoinedParts(id, a, m, b);
      if i < 0 { assert c.keys[n + i] == m; }
    }
  }

  lemma LastInRange(keys: seq<Item>, k: Item, i: int)
    requires LastAtMost(keys, k, i)
    ensures -1 <= i < |keys|
  {
  }

  lemma JoinedParts(id: nat, a: Tree, m: Item, b: Tree)
    requires Inner(a) && Inner(b)
    ensures var c := Join(id, a, m, b);
            && |c.kids| == |a.kids| + |b.kids| && |c.keys| == |a.keys| + 1 + |b.keys|
            && (forall j :: 0 <= j < |a.kids| ==> c.kids[j] == a.kids[j])
            && (forall j :: |a.kids| <= j < |c.kids| ==> c.kids[j] == b.kids[j - |a.kids|])
  {
  }

  /** Neither does one added behind it. */
  lemma JoinedBehind(id: nat, a: Tree, m: Item, b: Tree, h: nat, k: Item, t: nat)
    requires Alike(a, b) && Sorted(Join(id, a, m, b).keys) && m.rank > k.rank && (h > 0 <==> Inner(a))
    ensures Swaps(Join(id, a, m, b), h, k, t) <==> Swaps(a, h, k, t)
  {
    hide Swaps;
    hide Sorted;
    hide LastAtMost;
    var c := Join(id, a, m, b);
    assert a.keys + ([m] + b.keys) + [] == c.keys;
    SortedParts(a.keys, [m] + b.keys, []);
    var i := LastExists(a.keys, k);
    LastInFront(a.keys, m, b.keys, k, i);
    SwapsHere(c, h, k, t, i);
    SwapsHere(a, h, k, t, i);
    LastInRange(a.keys, k, i);
    if h > 0 { JoinedParts(id, a, m, b); }
  }

  /** c is the child i of x, or that child with a key of x and part of a sibling on one side. */
  ghost predicate Widened(x: Tree, i: nat, c: Tree)
    requires Inner(x) && i <= |x.keys|
  {
    || c == x.kids[i]
    || (i > 0 && exists a :: Alike(a, x.kids[i]) && c == Join(c.id, a, x.keys[i - 1], x.kids[i]))
    || (i < |x.keys| && exists b :: Alike(x.kids[i], b) && c == Join(c.id, x.kids[i], x.keys[i], b))
  }

  /** The key or the sibling a child is given does not change what its search meets. */
  lemma SwapsWidened(x: Tree, i: int, c: Tree, h: nat, k: Item, t: nat, lo: int)
    requires Shape(x, h, t, lo) && h > 0 && LastAtMost(x.keys, k, i) && (i >= 0 ==> x.keys[i].rank != k.rank)
    requires Widened(x, i + 1, c) && Sorted(c.keys)
    ensures Swaps(c, h - 1, k, t) <==> Swaps(x, h, k, t)
  {
    hide Alike;
    hide Swaps;
    hide Sorted;
    hide Join;
    SwapsHere(x, h, k, t, i);
    ChildInner(x, i + 1, h, t, lo);
    hide Shape;
    AroundPlace(x.keys, k, i);
    hide LastAtMost;
    var y := x.kids[i + 1];
    if c != y {
      if i >= 0 && exists a :: Alike(a, y) && c == Join(c.id, a, x.keys[i], y) {
        var a :| Alike(a, y) && c == Join(c.id, a, x.keys[i], y);
        JoinedInFront(c.id, a, x.keys[i], y, h - 1, k, t);
      } else {
        var b :| Alike(y, b) && c == Join(c.id, y, x.keys[i + 1], b);
        JoinedBehind(c.id, y, x.keys[i + 1], b, h - 1, k, t);
      }
    }
  }

  lemma AroundPlace(keys: seq<Item>, k: Item, i: int)
    requires LastAtMost(keys, k, i)
    ensures -1 <= i < |keys|
    ensures i >= 0 && keys[i].rank != k.rank ==> keys[i].rank < k.rank
    ensures i + 1 < |keys| ==> keys[i + 1].rank > k.rank
  {
  }

  lemma ChildInner(x: Tree, i: int, h: nat, t: nat, lo: int)
    requires Shape(x, h, t, lo) && h > 0 && 0 <= i <= |x.keys|
    ensures Inner(x) && (h > 1 <==> Inner(x.kids[i]))
  {
    assert Shape(x.kids[i], h - 1, t, t - 1);
  }

  // ---------------------------------------------------------------------------------------
  // The four ways to give a child a key
  // ---------------------------------------------------------------------------------------

  lemma WidenedSelf(x: Tree, i: nat)
    requires Inner(x) && i <= |x.keys|
    ensures Widened(x, i, x.kids[i])
  {
  }

  lemma WidenedByLeft(x: Tree, i: nat, h: nat, t: nat, lo: int)
    requires Shape(x, h, t, lo) && h > 0 && i < |x.keys| && t >= 2 && |x.kids[i].keys| >= t
    ensures Widened(x, i + 1, LendRight(x, i).kids[i + 1])
  {
    LenderParts(x, i, h, t, lo);
  }

  lemma WidenedByRight(x: Tree, i: nat, h: nat, t: nat, lo: int)
    requires Shape(x, h, t, lo) && h > 0 && i < |x.keys| && t >= 2 && |x.kids[i + 1].keys| >= t
    ensures Widened(x, i, LendLeft(x, i).kids[i])
  {
    GiverParts(x, i, h, t, lo);
  }

  lemma WidenedByMerge(x: Tree, i: nat, h: nat, t: nat, lo: int)
    requires Shape(x, h, t, lo) && h > 0 && i < |x.keys|
    ensures Widened(x, i, Merge(x, i, x.keys[i]).kids[i]) && Widened(x, i + 1, Merge(x, i, x.keys[i]).kids[i])
  {
    assert Shape(x.kids[i], h - 1, t, t - 1) && Shape(x.kids[i + 1], h - 1, t, t - 1);
    AlikeKids(x.kids[i], x.kids[i + 1], h - 1, t);
  }
}
