/** Looking into a B-tree without changing it: search, least and greatest key, height, and the
    consistency check. */
module BTreeCheck {
  import opened BitLog
  import opened KeySearch
  import opened Options
  import opened BTreeShape
  import opened BTreeOrder
  import opened BTreeHeap
  import opened BTrees

  // ---------------------------------------------------------------------------------------
  // Search
  // ---------------------------------------------------------------------------------------

  /** An item that compares equal to k, or None if there is none. */
  method Find(b: BTree, k: Item, ghost tr0: Tree, ghost h0: nat) returns (found: Option<Item>)
    requires b.Valid(tr0, h0)
    modifies b.logs
    ensures b.Valid(tr0, h0)
    ensures found.Some? ==> found.value.rank == k.rank && found.value in InOrder(tr0)
    ensures found.None? ==> !Has(InOrder(tr0), k)
  {
    hide Owns;
    hide NodeIs;
    hide Ids;
    hide Shape;
    hide InOrder;
    hide Has;
    hide Inner;
    var x := b.root;
    ghost var tr, h, lo := tr0, h0, if h0 == 0 then 0 else 1;
    FoundSoFar(tr0, k);
    while true
      invariant b.Valid(tr0, h0) && Owns(b.heap, b.t, tr) && tr.id == x && Shape(tr, h, b.t, lo)
      invariant Sorted(InOrder(tr)) && Below(tr0, tr, k)
      decreases h
    {
      NodeFacts(b.heap, b.t, tr, h, lo);
      var i, r := b.FindKIndex(x, k);
      if i >= 0 && r == 0 {
        KeyInside(tr, h, b.t, lo, i);
        BelowIn(tr0, tr, k, tr.keys[i]);
        return Some(b.heap[x].keys[i]);
      }
      if b.heap[x].leaf {
        LeafMisses(tr, k, i, r, b.t, lo);
        BelowNone(tr0, tr, k);
        return None;
      }
      ChildFacts(b.heap, b.t, tr, i + 1, h, lo);
      BelowStep(tr0, tr, k, i, r);
      x := b.heap[x].kids[i + 1];
      tr, h, lo := tr.kids[i + 1], h - 1, b.t - 1;
    }
  }

  /** The search has narrowed down to the subtree x. */
  ghost predicate Below(whole: Tree, x: Tree, k: Item) {
    && (Has(InOrder(whole), k) ==> Has(InOrder(x), k))
    && forall v :: v in InOrder(x) ==> v in InOrder(whole)
  }

  lemma FoundSoFar(x: Tree, k: Item)
    ensures Below(x, x, k)
  {
  }

  lemma KeyInside(x: Tree, h: nat, t: nat, lo: int, i: nat)
    requires Shape(x, h, t, lo) && i < |x.keys|
    ensures x.keys[i] in InOrder(x)
  {
    if h > 0 { AtPair(x, i); }
  }

  lemma BelowIn(whole: Tree, x: Tree, k: Item, v: Item)
    requires Below(whole, x, k) && v in InOrder(x)
    ensures v in InOrder(whole)
  {
  }

  lemma LeafMisses(x: Tree, k: Item, i: int, r: int, t: nat, lo: int)
    requires x.kids == [] && Sorted(x.keys) && Found(x.keys, k, i, r) && (i < 0 || r != 0)
    ensures !Has(InOrder(x), k)
  {
    forall j | 0 <= j < |x.keys| ensures x.keys[j].rank != k.rank {
      if j <= i { assert x.keys[j].rank <= x.keys[i].rank; }
    }
  }

  lemma BelowNone(whole: Tree, x: Tree, k: Item)
    requires Below(whole, x, k) && !Has(InOrder(x), k)
    ensures !Has(InOrder(whole), k)
  {
  }

  lemma BelowStep(whole: Tree, x: Tree, k: Item, i: int, r: int)
    requires Below(whole, x, k) && Inner(x) && Sorted(InOrder(x)) && Found(x.keys, k, i, r) && (i < 0 || r != 0)
    ensures Below(whole, x.kids[i + 1], k) && Sorted(InOrder(x.kids[i + 1]))
  {
    Route(x, k, i);
    if Has(InOrder(x), k) { RouteHas(x, k, i); }
    AtChild(x, i + 1);
  }

  // ---------------------------------------------------------------------------------------
  // Least and greatest
  // ---------------------------------------------------------------------------------------

  method FindMax(b: BTree, x: nat, ghost tr: Tree, ghost h: nat, ghost lo: int) returns (k: Item)
    requires Owns(b.heap, b.t, tr) && tr.id == x && Shape(tr, h, b.t, lo) && lo >= 1 && b.t >= 2
    ensures InOrder(tr) != [] && k == InOrder(tr)[|InOrder(tr)| - 1]
    decreases h
  {
    hide Owns;
    hide NodeIs;
    hide Shape;
    hide InOrder;
    PlainFacts(b.heap, b.t, tr, h, lo);
    LastItem(b.heap, b.t, tr, h, lo);
    if b.heap[x].leaf {
      return b.heap[x].keys[b.heap[x].n - 1];
    }
    ChildFacts(b.heap, b.t, tr, |tr.keys|, h, lo);
    k := FindMax(b, b.heap[x].kids[b.heap[x].n], tr.kids[|tr.keys|], h - 1, b.t - 1);
  }

  lemma LastItem(heap: Heap, t: nat, x: Tree, h: nat, lo: int)
    requires Owns(heap, t, x) && Shape(x, h, t, lo) && lo >= 1 && x.id in heap
    ensures |x.keys| > 0 && |x.keys| <= |heap[x.id].keys|
    ensures h == 0 ==> InOrder(x) == x.keys && heap[x.id].keys[|x.keys| - 1] == x.keys[|x.keys| - 1]
    ensures h > 0 ==> Inner(x) && InOrder(x) == Before(x, |x.keys|) + InOrder(x.kids[|x.keys|])
  {
    assert heap[x.id].keys[..|x.keys|][|x.keys| - 1] == x.keys[|x.keys| - 1];
    if h > 0 {
      AtChild(x, |x.keys|);
      NothingAfter(x);
    }
  }

  method FindMin(b: BTree, x: nat, ghost tr: Tree, ghost h: nat, ghost lo: int) returns (k: Item)
    requires Owns(b.heap, b.t, tr) && tr.id == x && Shape(tr, h, b.t, lo) && lo >= 1 && b.t >= 2
    ensures InOrder(tr) != [] && k == InOrder(tr)[0]
    decreases h
  {
    hide Owns;
    hide NodeIs;
    hide Shape;
    hide InOrder;
    PlainFacts(b.heap, b.t, tr, h, lo);
    FirstItem(b.heap, b.t, tr, h, lo);
    if b.heap[x].leaf {
      return b.heap[x].keys[0];
    }
    ChildFacts(b.heap, b.t, tr, 0, h, lo);
    k := FindMin(b, b.heap[x].kids[0], tr.kids[0], h - 1, b.t - 1);
  }

  lemma FirstItem(heap: Heap, t: nat, x: Tree, h: nat, lo: int)
    requires Owns(heap, t, x) && Shape(x, h, t, lo) && lo >= 1 && x.id in heap
    ensures |x.keys| > 0 && |x.keys| <= |heap[x.id].keys|
    ensures h == 0 ==> InOrder(x) == x.keys && heap[x.id].keys[0] == x.keys[0]
    ensures h > 0 ==> Inner(x) && InOrder(x) == InOrder(x.kids[0]) + After(x, 0)
  {
    assert heap[x.id].keys[..|x.keys|][0] == x.keys[0];
    if h > 0 {
      AtChild(x, 0);
      NothingBefore(x);
    }
  }

  // ---------------------------------------------------------------------------------------
  // Height
  // ---------------------------------------------------------------------------------------

  method TreeHeight(b: BTree, ghost tr0: Tree, ghost h0: nat) returns (levels: nat)
    requires b.Valid(tr0, h0)
    ensures levels == h0 + 1
  {
    hide Owns;
    hide NodeIs;
    hide Shape;
    hide InOrder;
    var x := b.root;
    ghost var tr, h, lo := tr0, h0, if h0 == 0 then 0 else 1;
    levels := 0;
    PlainFacts(b.heap, b.t, tr, h, lo);
    while !b.heap[x].leaf
      invariant Owns(b.heap, b.t, tr) && tr.id == x && Shape(tr, h, b.t, lo) && levels + h == h0
      invariant x in b.heap && (b.heap[x].leaf <==> h == 0)
      decreases h
    {
      PlainFacts(b.heap, b.t, tr, h, lo);
      ChildFacts(b.heap, b.t, tr, 0, h, lo);
      x := b.heap[x].kids[0];
      tr, h, lo := tr.kids[0], h - 1, b.t - 1;
      PlainFacts(b.heap, b.t, tr, h, lo);
      levels := levels + 1;
    }
    levels := levels + 1;
  }

  ghost function Power(t: nat, e: nat): nat {
    if e == 0 then 1 else t * Power(t, e - 1)
  }

  lemma {:induction false} TrailLength(ks: seq<Item>, fs: seq<seq<Item>>, m: nat)
    requires |ks| == |fs| && forall i :: 0 <= i < |fs| ==> |fs[i]| >= m
    ensures |Trail(ks, fs)| >= |ks| * (m + 1)
    decreases |ks|
  {
    if ks != [] {
      TrailLength(ks[1..], fs[1..], m);
      assert |ks| * (m + 1) == (m + 1) + |ks[1..]| * (m + 1) by { OneLess(|ks|, m + 1); }
    }
  }

  lemma OneLess(n: nat, m: nat)
    requires n > 0
    ensures n * m == m + (n - 1) * m
  {
  }

  /** A node of at least n keys whose subtrees hold at least m items each. */
  lemma InnerLength(x: Tree, n: nat, m: nat)
    requires Inner(x) && |x.keys| >= n && forall i :: 0 <= i < |x.kids| ==> |InOrder(x.kids[i])| >= m
    ensures |InOrder(x)| >= m + n * (m + 1)
  {
    AtChild(x, 0);
    NothingBefore(x);
    var fs := Flats(x.kids[1..]);
    assert x.keys[0..] == x.keys;
    forall i | 0 <= i < |fs| ensures |fs[i]| >= m { assert fs[i] == InOrder(x.kids[i + 1]); }
    TrailLength(x.keys, fs, m);
    MoreTimes(n, |x.keys|, m + 1);
  }

  lemma MoreTimes(n: nat, k: nat, m: nat)
    requires n <= k
    ensures n * m <= k * m
  {
  }

  lemma {:induction false} SubtreeHolds(x: Tree, h: nat, t: nat)
    requires Shape(x, h, t, t - 1) && t >= 1
    ensures |InOrder(x)| >= Power(t, h + 1) - 1
    decreases h
  {
    if h == 0 {
      assert Power(t, 1) == t * Power(t, 0);
    } else {
      var m := Power(t, h) - 1;
      PowerPositive(t, h);
      forall i | 0 <= i < |x.kids| ensures |InOrder(x.kids[i])| >= m {
        assert Shape(x.kids[i], h - 1, t, t - 1);
        SubtreeHolds(x.kids[i], h - 1, t);
      }
      InnerLength(x, t - 1, m);
      OneLess(t, m + 1);
    }
  }

  lemma {:induction false} PowerPositive(t: nat, e: nat)
    requires t >= 1
    ensures Power(t, e) >= 1
  {
    if e > 0 {
      PowerPositive(t, e - 1);
      OneLess(t, Power(t, e - 1));
    }
  }

  /** A tree of h + 1 levels that is not empty holds at least 2 * t^h - 1 items. */
  lemma TreeHolds(x: Tree, h: nat, t: nat)
    requires Shape(x, h, t, if h == 0 then 0 else 1) && t >= 1 && InOrder(x) != []
    ensures |InOrder(x)| >= 2 * Power(t, h) - 1
  {
    PowerPositive(t, h);
    if h > 0 {
      var m := Power(t, h) - 1;
      forall i | 0 <= i < |x.kids| ensures |InOrder(x.kids[i])| >= m {
        assert Shape(x.kids[i], h - 1, t, t - 1);
        SubtreeHolds(x.kids[i], h - 1, t);
      }
      InnerLength(x, 1, m);
    }
  }

  // ---------------------------------------------------------------------------------------
  // The check
  // ---------------------------------------------------------------------------------------

  ghost predicate Increasing(s: seq<Item>) {
    forall i, j :: 0 <= i < j < |s| ==> s[i].rank < s[j].rank
  }

  lemma PairIncreasing(a: Item, b: Item)
    ensures Increasing([a, b]) <==> a.rank < b.rank
  {
    assert [a, b][0] == a && [a, b][1] == b;
  }

  lemma IncreasingJoin(a: seq<Item>, k: Item, b: seq<Item>)
    ensures Increasing(a + [k] + b) <==> Increasing(a + [k]) && Increasing([k] + b)
  {
    var s := a + [k] + b;
    forall i | 0 <= i < |a + [k]| ensures s[i] == (a + [k])[i] {}
    forall i | 0 <= i < |[k] + b| ensures s[|a| + i] == ([k] + b)[i] {}
    if Increasing(s) {
      forall i, j | 0 <= i < j < |[k] + b| ensures ([k] + b)[i].rank < ([k] + b)[j].rank {
        assert s[|a| + i].rank < s[|a| + j].rank;
      }
    } else {
      var i, j :| 0 <= i < j < |s| && s[i].rank >= s[j].rank;
      if i >= |a| { assert s[i] == ([k] + b)[i - |a|] && s[j] == ([k] + b)[j - |a|]; }
      if j <= |a| { assert s[i] == (a + [k])[i] && s[j] == (a + [k])[j]; }
      if i < |a| < j {
        assert (a + [k])[|a|] == k && ([k] + b)[0] == k;
        assert s[i] == (a + [k])[i] && s[j] == ([k] + b)[j - |a|];
      }
    }
  }

  /** What comes before child i, and that child; a leaf has empty subtrees between its keys. */
  ghost function Left(x: Tree, i: nat): seq<Item>
    requires (x.kids == [] || Inner(x)) && i <= |x.keys|
  {
    if x.kids == [] then x.keys[..i] else Before(x, i)
  }

  ghost function Kid(x: Tree, i: nat): seq<Item>
    requires (x.kids == [] || Inner(x)) && i <= |x.keys|
  {
    if x.kids == [] then [] else InOrder(x.kids[i])
  }

  lemma LeftStep(x: Tree, i: nat, kmin: Item)
    requires (x.kids == [] || Inner(x)) && i < |x.keys|
    ensures Left(x, 0) == []
    ensures Left(x, i + 1) == Left(x, i) + Kid(x, i) + [x.keys[i]]
    ensures i > 0 ==> Left(x, i) != [] && Left(x, i)[|Left(x, i)| - 1] == x.keys[i - 1]
    ensures Left(x, |x.keys|) + Kid(x, |x.keys|) == InOrder(x)
  {
    if x.kids != [] {
      NothingBefore(x);
      BeforeKey(x, i + 1);
      if i > 0 { BeforeKey(x, i); }
      AtChild(x, |x.keys|);
      NothingAfter(x);
    }
  }

  /** The check of child i extends what has been checked so far. */
  lemma CheckedMore(x: Tree, i: nat, kmin: Item, next: Item)
    requires (x.kids == [] || Inner(x)) && i <= |x.keys| && |x.keys| > 0
    ensures var low := if i == 0 then kmin else x.keys[i - 1];
            Increasing([kmin] + Left(x, i) + Kid(x, i) + [next]) <==>
              Increasing([kmin] + Left(x, i)) && Increasing([low] + Kid(x, i) + [next])
  {
    hide InOrder;
    var b := Kid(x, i) + [next];
    if i == 0 {
      LeftStep(x, 0, kmin);
      assert [kmin] + Left(x, i) + Kid(x, i) + [next] == [kmin] + Kid(x, i) + [next];
      assert [kmin] + Left(x, 0) == [kmin];
    } else {
      LeftStep(x, i - 1, kmin);
      var l := Left(x, i);
      LastOf(x, i, kmin);
      var a := [kmin] + l[..|l| - 1];
      assert l == l[..|l| - 1] + [x.keys[i - 1]];
      assert [kmin] + l == a + [x.keys[i - 1]];
      assert [kmin] + l + Kid(x, i) + [next] == a + [x.keys[i - 1]] + b;
      assert [x.keys[i - 1]] + Kid(x, i) + [next] == [x.keys[i - 1]] + b;
      IncreasingJoin(a, x.keys[i - 1], b);
    }
  }

  lemma LastOf(x: Tree, i: nat, kmin: Item)
    requires (x.kids == [] || Inner(x)) && 0 < i <= |x.keys|
    ensures Left(x, i) != [] && Left(x, i)[|Left(x, i)| - 1] == x.keys[i - 1]
  {
    if x.kids != [] { BeforeKey(x, i); }
  }

  /** x is the child i of the node p; null below a leaf. */
  method CheckNode(b: BTree, x: nat, kmin: Item, kmax: Item, ghost tr: Tree, ghost h: nat,
                   ghost lo: int) returns (ok: bool)
    requires b.t >= 2
    requires x != 0 ==> Owns(b.heap, b.t, tr) && tr.id == x && Shape(tr, h, b.t, lo) && lo >= 1
    ensures ok <==> Increasing([kmin] + (if x == 0 then [] else InOrder(tr)) + [kmax])
    decreases x != 0, h
  {
    hide Owns;
    hide NodeIs;
    hide Shape;
    hide InOrder;
    hide Left;
    hide Kid;
    if x == 0 {
      assert [kmin] + [] + [kmax] == [kmin, kmax];
      PairIncreasing(kmin, kmax);
      return Cmp(kmin, kmax) < 0;
    }
    SizeAtLeast(tr, h, b.t, lo);
    PlainFacts(b.heap, b.t, tr, h, lo);
    LeftStep(tr, 0, kmin);
    assert [kmin] + Left(tr, 0) == [kmin];
    var i := 0;
    while i < b.heap[x].n
      invariant 0 <= i <= |tr.keys| && Increasing([kmin] + Left(tr, i))
    {
      KeyAt(b.heap, b.t, tr, h, lo, i);
      if i > 0 { KeyAt(b.heap, b.t, tr, h, lo, i - 1); }
      var low := if i == 0 then kmin else b.heap[x].keys[i - 1];
      CheckedMore(tr, i, kmin, tr.keys[i]);
      LeftStep(tr, i, kmin);
      KidPointer(b.heap, b.t, tr, h, lo, i);
      ok := CheckNode(b, b.heap[x].kids[i], low, b.heap[x].keys[i], if h == 0 then tr else tr.kids[i],
                      if h == 0 then 0 else h - 1, b.t - 1);
      Assemble(kmin, Left(tr, i), Kid(tr, i), tr.keys[i], Left(tr, i + 1));
      if !ok {
        WholeFails(tr, i, kmin, kmax, h, b.t, lo);
        return;
      }
      i := i + 1;
    }
    KeyAt(b.heap, b.t, tr, h, lo, i - 1);
    CheckedMore(tr, i, kmin, kmax);
    KidPointer(b.heap, b.t, tr, h, lo, i);
    ok := CheckNode(b, b.heap[x].kids[i], b.heap[x].keys[i - 1], kmax, if h == 0 then tr else tr.kids[i],
                    if h == 0 then 0 else h - 1, b.t - 1);
    Assemble(kmin, Left(tr, i), Kid(tr, i), kmax, InOrder(tr) + [kmax]);
  }

  lemma Assemble(kmin: Item, l: seq<Item>, c: seq<Item>, k: Item, whole: seq<Item>)
    ensures [kmin] + l + c + [k] == [kmin] + (l + c + [k])
    ensures [kmin] + (l + c) + [k] == [kmin] + l + c + [k]
  {
  }

  lemma KeyAt(heap: Heap, t: nat, x: Tree, h: nat, lo: int, i: nat)
    requires Owns(heap, t, x) && Shape(x, h, t, lo) && i < |x.keys|
    ensures x.id in heap && i < |heap[x.id].keys| && heap[x.id].keys[i] == x.keys[i]
  {
    assert heap[x.id].keys[..heap[x.id].n][i] == x.keys[i];
  }

  /** Child address i of a node: child i, or null in a leaf. */
  lemma KidPointer(heap: Heap, t: nat, x: Tree, h: nat, lo: int, i: nat)
    requires Owns(heap, t, x) && Shape(x, h, t, lo) && i <= |x.keys|
    ensures x.id in heap && i < |heap[x.id].kids|
    ensures h == 0 ==> heap[x.id].kids[i] == 0 && Kid(x, i) == []
    ensures h > 0 ==>
              && Inner(x) && heap[x.id].kids[i] == x.kids[i].id != 0 && Kid(x, i) == InOrder(x.kids[i])
              && Owns(heap, t, x.kids[i]) && Shape(x.kids[i], h - 1, t, t - 1)
  {
    if h > 0 { ChildFacts(heap, t, x, i, h, lo); }
  }

  /** A part that is not increasing spoils the whole. */
  lemma WholeFails(x: Tree, i: nat, kmin: Item, kmax: Item, h: nat, t: nat, lo: int)
    requires Shape(x, h, t, lo) && i < |x.keys| && (x.kids == [] || Inner(x))
    requires !Increasing([kmin] + Left(x, i) + Kid(x, i) + [x.keys[i]])
    ensures !Increasing([kmin] + InOrder(x) + [kmax])
  {
    LeftStep(x, i, kmin);
    PrefixOf(x, i + 1);
    hide Left;
    hide Kid;
    hide InOrder;
    hide Increasing;
    var l := Left(x, i + 1);
    var r :| InOrder(x) == l + r;
    Split3(kmin, Left(x, i), Kid(x, i), x.keys[i], r, kmax);
    PrefixFails([kmin] + Left(x, i) + Kid(x, i) + [x.keys[i]], r + [kmax]);
  }

  lemma Split3(a: Item, l: seq<Item>, c: seq<Item>, k: Item, r: seq<Item>, z: Item)
    ensures [a] + ((l + c + [k]) + r) + [z] == ([a] + l + c + [k]) + (r + [z])
  {
  }

  lemma PrefixOf(x: Tree, i: nat)
    requires (x.kids == [] || Inner(x)) && i <= |x.keys|
    ensures exists r :: InOrder(x) == Left(x, i) + r
  {
    hide Before;
    hide After;
    if x.kids == [] {
      assert InOrder(x) == Left(x, i) + x.keys[i..];
    } else {
      InnerPrefix(x, i);
      var r :| InOrder(x) == Before(x, i) + r;
      assert InOrder(x) == Left(x, i) + r;
    }
  }

  lemma InnerPrefix(x: Tree, i: nat)
    requires Inner(x) && i <= |x.keys|
    ensures exists r :: InOrder(x) == Before(x, i) + r
  {
    hide InOrder;
    hide Before;
    hide After;
    AtChild(x, i);
    assert InOrder(x) == Before(x, i) + (InOrder(x.kids[i]) + After(x, i));
  }

  lemma PrefixFails(a: seq<Item>, b: seq<Item>)
    requires !Increasing(a)
    ensures !Increasing(a + b)
  {
    var i, j :| 0 <= i < j < |a| && a[i].rank >= a[j].rank;
    assert (a + b)[i] == a[i] && (a + b)[j] == a[j];
  }

  /** For a tree that is not empty, sorted or not: whether the keys, between the two bounds, are
      strictly increasing. */
  method CheckTree(b: BTree, kmin: Item, kmax: Item, ghost tr: Tree, ghost h: nat) returns (ok: bool)
    requires b.t >= 2 && tr.id == b.root && Owns(b.heap, b.t, tr)
    requires Shape(tr, h, b.t, if h == 0 then 0 else 1) && InOrder(tr) != []
    ensures ok <==> Increasing([kmin] + InOrder(tr) + [kmax])
  {
    NotEmpty(tr, h, b.t);
    ok := CheckNode(b, b.root, kmin, kmax, tr, h, 1);
  }

  lemma NotEmpty(x: Tree, h: nat, t: nat)
    requires Shape(x, h, t, if h == 0 then 0 else 1) && InOrder(x) != []
    ensures Shape(x, h, t, 1)
  {
  }
}
