/** Merging two children, lending a key to a child: what the stores of a deletion add up to. */
module BTreeDelete {
  import opened KeySearch
  import opened BTreeShape
  import opened BTreeOrder
  import opened BTreeHeap
  import opened BTreeSteps

  // ---------------------------------------------------------------------------------------
  // Trees
  // ---------------------------------------------------------------------------------------

  /** The children i and i + 1 with `mid` between them become one node. */
  ghost function Merge(x: Tree, i: nat, mid: Item): Tree
    requires Inner(x) && i < |x.keys|
  {
    MergeAt(x, i, Join(x.kids[i].id, x.kids[i], mid, x.kids[i + 1]))
  }

  /** The left child without its last key and subtree. */
  ghost function Lender(y: Tree): Tree
    requires y.keys != []
  {
    Tree(y.id, y.keys[..|y.keys| - 1], if y.kids == [] then [] else y.kids[..|y.kids| - 1])
  }

  /** The subtree that moves right, as a node without keys. */
  ghost function LentRight(y: Tree): Tree {
    Tree(0, [], if y.kids == [] then [] else [y.kids[|y.kids| - 1]])
  }

  /** Child i passes its last key to its right neighbour, by way of the parent. */
  ghost function LendRight(x: Tree, i: nat): Tree
    requires Inner(x) && i < |x.keys| && x.kids[i].keys != []
  {
    var y, z := x.kids[i], x.kids[i + 1];
    PairAt(x, i, Lender(y), y.keys[|y.keys| - 1], Join(z.id, LentRight(y), x.keys[i], z))
  }

  /** The right child without its first key and subtree. */
  ghost function Giver(z: Tree): Tree
    requires z.keys != []
  {
    Tree(z.id, z.keys[1..], if z.kids == [] then [] else z.kids[1..])
  }

  ghost function LentLeft(z: Tree): Tree {
    Tree(0, [], if z.kids == [] then [] else [z.kids[0]])
  }

  /** Child i + 1 passes its first key to its left neighbour. */
  ghost function LendLeft(x: Tree, i: nat): Tree
    requires Inner(x) && i < |x.keys| && x.kids[i + 1].keys != []
  {
    var y, z := x.kids[i], x.kids[i + 1];
    PairAt(x, i, Join(y.id, y, x.keys[i], LentLeft(z)), z.keys[0], Giver(z))
  }

  ghost predicate Includes(big: seq<Item>, small: seq<Item>) {
    exists a, b :: big == a + small + b
  }

  lemma IncludesHas(big: seq<Item>, small: seq<Item>, k: Item)
    requires Includes(big, small) && Has(small, k)
    ensures Has(big, k)
  {
    var a, b :| big == a + small + b;
    var j :| 0 <= j < |small| && small[j].rank == k.rank;
    assert big[|a| + j].rank == k.rank;
  }

  lemma IncludesParts(y: seq<Item>, m: Item, z: seq<Item>)
    ensures Includes(y + [m] + z, y) && Includes(y + [m] + z, z)
  {
    assert y + [m] + z == [] + y + ([m] + z);
    assert y + [m] + z == (y + [m]) + z + [];
  }

  lemma AlikeKids(y: Tree, z: Tree, h: nat, t: nat)
    requires Shape(y, h, t, t - 1) && Shape(z, h, t, t - 1)
    ensures Alike(y, z)
  {
  }

  /** A key and a subtree change sides. */
  lemma Regrouped(b: seq<Item>, l: seq<Item>, m: Item, e: seq<Item>, k: Item, z: seq<Item>, a: seq<Item>)
    ensures b + (l + [m] + e + [k] + z) + a == b + (l + [m] + (e + [k] + z)) + a
  {
    assert l + [m] + e + [k] + z == l + [m] + (e + [k] + z);
  }

  lemma MergeOrders(x: Tree, i: nat, mid: Item, h: nat, t: nat, lo: int)
    requires Shape(x, h, t, lo) && h > 0 && i < |x.keys|
    ensures var c := Merge(x, i, mid).kids[i];
            && InOrder(c) == InOrder(x.kids[i]) + [mid] + InOrder(x.kids[i + 1])
            && InOrder(Merge(x, i, mid)) == Before(x, i) + InOrder(c) + After(x, i + 1)
    ensures InOrder(x) == Before(x, i) + (InOrder(x.kids[i]) + [x.keys[i]] + InOrder(x.kids[i + 1])) + After(x, i + 1)
    ensures mid == x.keys[i] ==> InOrder(Merge(x, i, mid)) == InOrder(x)
  {
    hide Weave;
    var y, z := x.kids[i], x.kids[i + 1];
    assert Shape(y, h - 1, t, t - 1) && Shape(z, h - 1, t, t - 1);
    hide InOrder;
    hide Shape;
    hide Before;
    hide After;
    hide Join;
    AlikeKids(y, z, h - 1, t);
    JoinOrder(y.id, y, mid, z);
    AtPair(x, i);
    MergedAt(x, i, Join(y.id, y, mid, z));
  }

  lemma MergeIncludes(x: Tree, i: nat, mid: Item, h: nat, t: nat, lo: int)
    requires Shape(x, h, t, lo) && h > 0 && i < |x.keys|
    ensures var c := Merge(x, i, mid).kids[i];
            Includes(InOrder(c), InOrder(x.kids[i])) && Includes(InOrder(c), InOrder(x.kids[i + 1]))
  {
    hide InOrder;
    hide Before;
    hide After;
    hide Includes;
    MergeOrders(x, i, mid, h, t, lo);
    IncludesParts(InOrder(x.kids[i]), mid, InOrder(x.kids[i + 1]));
  }

  lemma MergedAt(x: Tree, i: nat, c: Tree)
    requires Inner(x) && i < |x.keys|
    ensures InOrder(MergeAt(x, i, c)) == Before(x, i) + InOrder(c) + After(x, i + 1)
  {
    hide InOrder;
    var x' := MergeAt(x, i, c);
    AtChild(x', i);
    assert x'.keys[..i] == x.keys[..i] && x'.kids[..i] == x.kids[..i];
    assert x'.keys[i..] == x.keys[i + 1..] && x'.kids[i + 1..] == x.kids[i + 2..];
  }

  lemma MergeShape(x: Tree, i: nat, mid: Item, h: nat, t: nat, lo: int)
    requires Shape(x, h, t, lo) && h > 0 && i < |x.keys| && t >= 2
    requires |x.kids[i].keys| == t - 1 && |x.kids[i + 1].keys| == t - 1
    ensures Shape(Merge(x, i, mid), h, t, |x.keys| - 1)
    ensures |Merge(x, i, mid).kids[i].keys| == 2 * t - 1
  {
    var y, z := x.kids[i], x.kids[i + 1];
    var c := Join(y.id, y, mid, z);
    assert Shape(y, h - 1, t, t - 1) && Shape(z, h - 1, t, t - 1);
    LowerShape(y, h - 1, t, t - 1);
    LowerShape(z, h - 1, t, t - 1);
    JoinShape(y.id, y, mid, z, h - 1, t, t - 1);
    OneKid(c, h - 1, t);
    RowShape(x.kids, i, [c], i + 2, h - 1, t);
  }

  lemma LowerShape(x: Tree, h: nat, t: nat, lo: int)
    requires Shape(x, h, t, lo)
    ensures forall l: int :: l <= |x.keys| ==> Shape(x, h, t, l)
  {
  }

  lemma OneKid(c: Tree, h: nat, t: nat)
    requires Shape(c, h, t, t - 1)
    ensures Kids([c], h, t)
  {
    hide Shape;
  }

  lemma TwoKids(c: Tree, d: Tree, h: nat, t: nat)
    requires Shape(c, h, t, t - 1) && Shape(d, h, t, t - 1)
    ensures Kids([c, d], h, t)
  {
    hide Shape;
  }

  lemma LendRightOrders(x: Tree, i: nat, h: nat, t: nat, lo: int)
    requires Shape(x, h, t, lo) && h > 0 && i < |x.keys| && t >= 2 && |x.kids[i].keys| >= t
    ensures InOrder(LendRight(x, i)) == InOrder(x)
    ensures Includes(InOrder(LendRight(x, i).kids[i + 1]), InOrder(x.kids[i + 1]))
  {
    var y, z := x.kids[i], x.kids[i + 1];
    LenderParts(x, i, h, t, lo);
    hide InOrder;
    hide Shape;
    hide Before;
    hide After;
    hide Includes;
    hide Join;
    hide Alike;
    var l, m, e := Lender(y), y.keys[|y.keys| - 1], LentRight(y);
    var r := Join(z.id, e, x.keys[i], z);
    JoinOrder(y.id, l, m, e);
    JoinOrder(z.id, e, x.keys[i], z);
    IncludesParts(InOrder(e), x.keys[i], InOrder(z));
    AtPair(x, i);
    PairOrder(x, i, l, m, r);
    Regrouped(Before(x, i), InOrder(l), m, InOrder(e), x.keys[i], InOrder(z), After(x, i + 1));
  }

  lemma LenderParts(x: Tree, i: nat, h: nat, t: nat, lo: int)
    requires Shape(x, h, t, lo) && h > 0 && i < |x.keys| && t >= 2 && |x.kids[i].keys| >= t
    ensures var y, z := x.kids[i], x.kids[i + 1];
            && Alike(Lender(y), LentRight(y)) && Alike(LentRight(y), z)
            && y == Join(y.id, Lender(y), y.keys[|y.keys| - 1], LentRight(y))
  {
    var y, z := x.kids[i], x.kids[i + 1];
    assert Shape(y, h - 1, t, t - 1) && Shape(z, h - 1, t, t - 1);
    var l, m, e := Lender(y), y.keys[|y.keys| - 1], LentRight(y);
    assert y.keys == l.keys + [m] + e.keys && y.kids == l.kids + e.kids;
  }

  lemma LendLeftOrders(x: Tree, i: nat, h: nat, t: nat, lo: int)
    requires Shape(x, h, t, lo) && h > 0 && i < |x.keys| && t >= 2 && |x.kids[i + 1].keys| >= t
    ensures InOrder(LendLeft(x, i)) == InOrder(x)
    ensures Includes(InOrder(LendLeft(x, i).kids[i]), InOrder(x.kids[i]))
  {
    var y, z := x.kids[i], x.kids[i + 1];
    GiverParts(x, i, h, t, lo);
    hide InOrder;
    hide Shape;
    hide Before;
    hide After;
    hide Includes;
    hide Join;
    hide Alike;
    var r, m, e := Giver(z), z.keys[0], LentLeft(z);
    var l := Join(y.id, y, x.keys[i], e);
    JoinOrder(z.id, e, m, r);
    JoinOrder(y.id, y, x.keys[i], e);
    IncludesParts(InOrder(y), x.keys[i], InOrder(e));
    AtPair(x, i);
    PairOrder(x, i, l, m, r);
    Regrouped(Before(x, i), InOrder(y), x.keys[i], InOrder(e), m, InOrder(r), After(x, i + 1));
    assert InOrder(y) + [x.keys[i]] + InOrder(e) + [m] + InOrder(r) == InOrder(l) + [m] + InOrder(r);
  }

  lemma GiverParts(x: Tree, i: nat, h: nat, t: nat, lo: int)
    requires Shape(x, h, t, lo) && h > 0 && i < |x.keys| && t >= 2 && |x.kids[i + 1].keys| >= t
    ensures var y, z := x.kids[i], x.kids[i + 1];
            && Alike(LentLeft(z), Giver(z)) && Alike(y, LentLeft(z))
            && z == Join(z.id, LentLeft(z), z.keys[0], Giver(z))
  {
    var y, z := x.kids[i], x.kids[i + 1];
    assert Shape(y, h - 1, t, t - 1) && Shape(z, h - 1, t, t - 1);
    var r, m, e := Giver(z), z.keys[0], LentLeft(z);
    assert z.keys == e.keys + [m] + r.keys && z.kids == e.kids + r.kids;
  }

  lemma PairShape(x: Tree, i: nat, l: Tree, m: Item, r: Tree, h: nat, t: nat, lo: int)
    requires Shape(x, h, t, lo) && h > 0 && i < |x.keys|
    requires Shape(l, h - 1, t, t - 1) && Shape(r, h - 1, t, t - 1)
    ensures Shape(PairAt(x, i, l, m, r), h, t, lo)
  {
    TwoKids(l, r, h - 1, t);
    RowShape(x.kids, i, [l, r], i + 2, h - 1, t);
    assert x.kids[i := l][i + 1 := r] == x.kids[..i] + [l, r] + x.kids[i + 2..];
  }

  lemma LendRightShape(x: Tree, i: nat, h: nat, t: nat, lo: int)
    requires Shape(x, h, t, lo) && h > 0 && i < |x.keys| && t >= 2
    requires |x.kids[i].keys| >= t && |x.kids[i + 1].keys| == t - 1
    ensures Shape(LendRight(x, i), h, t, lo) && |LendRight(x, i).kids[i + 1].keys| == t
  {
    var y, z := x.kids[i], x.kids[i + 1];
    assert Shape(y, h - 1, t, t - 1) && Shape(z, h - 1, t, t - 1);
    LenderShape(y, h - 1, t);
    LowerShape(z, h - 1, t, t - 1);
    JoinShape(z.id, LentRight(y), x.keys[i], z, h - 1, t, t - 1);
    PairShape(x, i, Lender(y), y.keys[|y.keys| - 1], Join(z.id, LentRight(y), x.keys[i], z), h, t, lo);
  }

  lemma LenderShape(y: Tree, h: nat, t: nat)
    requires Shape(y, h, t, t - 1) && t >= 2 && |y.keys| >= t
    ensures Shape(Lender(y), h, t, t - 1) && Shape(LentRight(y), h, t, 0)
  {
    if h > 0 {
      assert y.kids[..|y.kids| - 1] == y.kids[0..|y.kids| - 1];
      KidsParts(y.kids, h - 1, t, 0, |y.kids| - 1);
      OneKid(y.kids[|y.kids| - 1], h - 1, t);
    }
  }

  lemma LendLeftShape(x: Tree, i: nat, h: nat, t: nat, lo: int)
    requires Shape(x, h, t, lo) && h > 0 && i < |x.keys| && t >= 2
    requires |x.kids[i].keys| == t - 1 && |x.kids[i + 1].keys| >= t
    ensures Shape(LendLeft(x, i), h, t, lo) && |LendLeft(x, i).kids[i].keys| == t
  {
    var y, z := x.kids[i], x.kids[i + 1];
    assert Shape(y, h - 1, t, t - 1) && Shape(z, h - 1, t, t - 1);
    GiverShape(z, h - 1, t);
    LowerShape(y, h - 1, t, t - 1);
    JoinShape(y.id, y, x.keys[i], LentLeft(z), h - 1, t, t - 1);
    PairShape(x, i, Join(y.id, y, x.keys[i], LentLeft(z)), z.keys[0], Giver(z), h, t, lo);
  }

  lemma GiverShape(z: Tree, h: nat, t: nat)
    requires Shape(z, h, t, t - 1) && t >= 2 && |z.keys| >= t
    ensures Shape(Giver(z), h, t, t - 1) && Shape(LentLeft(z), h, t, 0)
  {
    if h > 0 {
      assert z.kids[1..] == z.kids[1..|z.kids|];
      KidsParts(z.kids, h - 1, t, 1, |z.kids|);
      OneKid(z.kids[0], h - 1, t);
    }
  }

  // ---------------------------------------------------------------------------------------
  // Removals
  // ---------------------------------------------------------------------------------------

  /** A removal below child p is a removal from the whole. */
  lemma DeleteBelow(x: Tree, p: nat, c: Tree, k: Item, mode: nat, gone: Item, swapped: bool)
    requires Inner(x) && p <= |x.keys| && Removed(InOrder(x.kids[p]), k, mode, InOrder(c), gone, swapped)
    requires mode == 1 ==> p == |x.keys|
    requires mode == 2 ==> p == 0
    ensures Removed(InOrder(x), k, mode, InOrder(ChildAt(x, p, c)), gone, swapped)
  {
    AtChild(x, p);
    ChildOrder(x, p, c);
    NothingBefore(x);
    NothingAfter(x);
    hide Removed;
    hide InOrder;
    hide Before;
    hide After;
    RemovedInside(Before(x, p), InOrder(x.kids[p]), After(x, p), k, mode, InOrder(c), gone, swapped);
  }

  /** The key i gives way to its predecessor, taken from the child before it. */
  lemma DeleteByPredecessor(x: Tree, i: nat, c: Tree, k: Item, any: Item, p: Item)
    requires Inner(x) && i < |x.keys| && x.keys[i].rank == k.rank
    requires Removed(InOrder(x.kids[i]), any, 1, InOrder(c), p, false)
    ensures Removed(InOrder(x), k, 0, InOrder(PairAt(x, i, c, p, x.kids[i + 1])), x.keys[i], false)
  {
    hide Removed;
    hide InOrder;
    hide Before;
    hide After;
    AtPair(x, i);
    PairOrder(x, i, c, p, x.kids[i + 1]);
    var b, a := Before(x, i), InOrder(x.kids[i + 1]) + After(x, i + 1);
    RemovedBefore(b, InOrder(x.kids[i]), x.keys[i], a, k, any, InOrder(c), p);
    Tail(b, InOrder(x.kids[i]), x.keys[i], InOrder(x.kids[i + 1]), After(x, i + 1));
    Tail(b, InOrder(c), p, InOrder(x.kids[i + 1]), After(x, i + 1));
  }

  lemma Tail(b: seq<Item>, y: seq<Item>, m: Item, z: seq<Item>, a: seq<Item>)
    ensures b + (y + [m] + z) + a == b + (y + [m]) + (z + a)
    ensures b + (y + [m] + z) + a == (b + y) + ([m] + z) + a
  {
  }

  /** The key i gives way to its successor, taken from the child behind it. */
  lemma DeleteBySuccessor(x: Tree, i: nat, c: Tree, k: Item, any: Item, p: Item)
    requires Inner(x) && i < |x.keys| && x.keys[i].rank == k.rank
    requires Removed(InOrder(x.kids[i + 1]), any, 2, InOrder(c), p, false)
    ensures Removed(InOrder(x), k, 0, InOrder(PairAt(x, i, x.kids[i], p, c)), x.keys[i], false)
  {
    hide Removed;
    hide InOrder;
    hide Before;
    hide After;
    AtPair(x, i);
    PairOrder(x, i, x.kids[i], p, c);
    var b, a := Before(x, i) + InOrder(x.kids[i]), After(x, i + 1);
    RemovedAfter(b, x.keys[i], InOrder(x.kids[i + 1]), a, k, any, InOrder(c), p);
    Tail(Before(x, i), InOrder(x.kids[i]), x.keys[i], InOrder(x.kids[i + 1]), a);
    Tail(Before(x, i), InOrder(x.kids[i]), p, InOrder(c), a);
  }

  /** The search key takes the place of the key i before it is removed from the merged child. */
  lemma DeleteFromMerged(x: Tree, i: nat, c: Tree, k: Item, gone: Item, swapped: bool, h: nat, t: nat, lo: int)
    requires Shape(x, h, t, lo) && h > 0 && i < |x.keys| && x.keys[i].rank == k.rank
    requires Removed(InOrder(Merge(x, i, k).kids[i]), k, 0, InOrder(c), gone, swapped)
    ensures Removed(InOrder(x), k, 0, InOrder(ChildAt(Merge(x, i, k), i, c)), gone, swapped || x.keys[i] != k)
  {
    MergeOrders(x, i, k, h, t, lo);
    var m := Merge(x, i, k);
    ChildOrder(m, i, c);
    MergeAround(x, i, k);
    hide Removed;
    hide InOrder;
    hide Before;
    hide After;
    RemovedMerged(Before(x, i), InOrder(x.kids[i]), x.keys[i], InOrder(x.kids[i + 1]), After(x, i + 1), k,
                  InOrder(c), gone, swapped);
  }

  lemma MergeAround(x: Tree, i: nat, mid: Item)
    requires Inner(x) && i < |x.keys|
    ensures var m := Merge(x, i, mid); Inner(m) && Before(m, i) == Before(x, i) && After(m, i) == After(x, i + 1)
  {
    var m := Merge(x, i, mid);
    assert m.keys[..i] == x.keys[..i] && m.kids[..i] == x.kids[..i];
    assert m.keys[i..] == x.keys[i + 1..] && m.kids[i + 1..] == x.kids[i + 2..];
  }

  /** The merged child holds the search key. */
  lemma MergedHas(x: Tree, i: nat, k: Item, h: nat, t: nat, lo: int)
    requires Shape(x, h, t, lo) && h > 0 && i < |x.keys| && x.keys[i].rank == k.rank && Sorted(InOrder(x))
    ensures Has(InOrder(Merge(x, i, k).kids[i]), k) && Sorted(InOrder(Merge(x, i, k).kids[i]))
  {
    MergeOrders(x, i, k, h, t, lo);
    hide InOrder;
    hide Before;
    hide After;
    var y, z := InOrder(x.kids[i]), InOrder(x.kids[i + 1]);
    SortedParts(Before(x, i), y + [x.keys[i]] + z, After(x, i + 1));
    assert (y + [k] + z)[|y|] == k;
    SameRanks(y, x.keys[i], k, z);
  }

  lemma SameRanks(y: seq<Item>, a: Item, b: Item, z: seq<Item>)
    requires a.rank == b.rank && Sorted(y + [a] + z)
    ensures Sorted(y + [b] + z)
  {
    forall i | 0 <= i < |y + [b] + z| ensures (y + [b] + z)[i].rank == (y + [a] + z)[i].rank {}
  }

  // ---------------------------------------------------------------------------------------
  // Nodes
  // ---------------------------------------------------------------------------------------

  lemma MergedNode(ny: Node, nz: Node, t: nat, y: Tree, z: Tree, id: nat, mid: Item)
    requires NodeIs(ny, t, y.keys, y.kids) && NodeIs(nz, t, z.keys, z.kids) && Alike(y, z)
    requires |y.keys| + 1 + |z.keys| <= 2 * t - 1
    ensures var c := Join(id, y, mid, z);
            NodeIs(Node(ny.leaf, ny.n + 1 + nz.n, Moved(ny.keys[ny.n := mid], ny.n + 1, nz.keys, 0, nz.n),
                        Moved(ny.kids, ny.n + 1, nz.kids, 0, nz.n + 1)), t, c.keys, c.kids)
  {
    Appended(ny.keys[ny.n := mid], ny.n + 1, nz.keys, nz.n);
    Appended(ny.kids, ny.n + 1, nz.kids, nz.n + 1);
    RootsConcat(y.kids, z.kids);
  }

  lemma ShrunkNode(nd: Node, t: nat, x: Tree, i: nat, c: Tree)
    requires NodeIs(nd, t, x.keys, x.kids) && Inner(x) && i < |x.keys| && c.id == x.kids[i].id
    ensures var x' := MergeAt(x, i, c); var n := nd.n;
            NodeIs(Node(nd.leaf, n - 1, Moved(nd.keys, i, nd.keys, i + 1, n - i - 1),
                        Moved(nd.kids, i + 1, nd.kids, i + 2, n - i - 1)), t, x'.keys, x'.kids)
  {
    ShiftOut(nd.keys, i, nd.n);
    ShiftOut(nd.kids, i + 1, nd.n + 1);
    MergeRoots(x.kids, i, c);
  }

  lemma MergeRoots(kids: seq<Tree>, i: nat, c: Tree)
    requires i + 1 < |kids| && c.id == kids[i].id
    ensures Roots(kids[..i] + [c] + kids[i + 2..]) == Roots(kids)[..i + 1] + Roots(kids)[i + 2..]
  {
  }

  lemma PairNode(nd: Node, t: nat, x: Tree, i: nat, l: Tree, m: Item, r: Tree)
    requires NodeIs(nd, t, x.keys, x.kids) && Inner(x) && i < |x.keys|
    requires l.id == x.kids[i].id && r.id == x.kids[i + 1].id
    ensures var x' := PairAt(x, i, l, m, r); NodeIs(nd.(keys := nd.keys[i := m]), t, x'.keys, x'.kids)
  {
    assert nd.keys[i := m][..nd.n] == nd.keys[..nd.n][i := m];
    assert Roots(x.kids[i := l][i + 1 := r]) == Roots(x.kids);
  }

  lemma LenderNode(ny: Node, t: nat, y: Tree)
    requires NodeIs(ny, t, y.keys, y.kids) && y.keys != [] && (y.kids == [] || Inner(y))
    ensures NodeIs(ny.(n := ny.n - 1), t, Lender(y).keys, Lender(y).kids)
    ensures ny.keys[ny.n - 1] == y.keys[|y.keys| - 1]
  {
    assert ny.keys[..ny.n - 1] == ny.keys[..ny.n][..ny.n - 1];
    if y.kids != [] {
      assert ny.kids[..ny.n] == ny.kids[..ny.n + 1][..ny.n];
      RootsSlices(y.kids, |y.kids| - 1);
    }
  }

  lemma ReceiverRight(ny: Node, nz: Node, t: nat, y: Tree, z: Tree, k: Item)
    requires NodeIs(ny, t, y.keys, y.kids) && NodeIs(nz, t, z.keys, z.kids) && Alike(y, z)
    requires y.keys != [] && |z.keys| < 2 * t - 1
    ensures var r := Join(z.id, LentRight(y), k, z);
            NodeIs(Node(nz.leaf, nz.n + 1, Moved(nz.keys, 1, nz.keys, 0, nz.n)[0 := k],
                        Moved(nz.kids, 1, nz.kids, 0, nz.n + 1)[0 := ny.kids[ny.n]]), t, r.keys, r.kids)
  {
    ShiftIn(nz.keys, 0, nz.n, k);
    ShiftIn(nz.kids, 0, nz.n + 1, ny.kids[ny.n]);
    if y.kids != [] {
      RootsConcat([y.kids[|y.kids| - 1]], z.kids);
      assert ny.kids[ny.n] == ny.kids[..ny.n + 1][ny.n] == y.kids[|y.kids| - 1].id;
      assert Roots([y.kids[|y.kids| - 1]]) == [ny.kids[ny.n]];
    }
  }

  lemma GiverNode(nz: Node, t: nat, z: Tree)
    requires NodeIs(nz, t, z.keys, z.kids) && z.keys != [] && (z.kids == [] || Inner(z))
    ensures NodeIs(Node(nz.leaf, nz.n - 1, Moved(nz.keys, 0, nz.keys, 1, nz.n - 1),
                        Moved(nz.kids, 0, nz.kids, 1, nz.n)),
                   t, Giver(z).keys, Giver(z).kids)
    ensures nz.keys[0] == z.keys[0]
  {
    ShiftOut(nz.keys, 0, nz.n);
    ShiftOut(nz.kids, 0, nz.n + 1);
    assert nz.keys[..nz.n][..0] + nz.keys[..nz.n][1..] == z.keys[1..];
    if z.kids != [] {
      RootsSlices(z.kids, 1);
      assert nz.kids[..nz.n + 1][..0] + nz.kids[..nz.n + 1][1..] == Roots(z.kids)[1..];
    }
  }

  lemma ReceiverLeft(ny: Node, nz: Node, t: nat, y: Tree, z: Tree, k: Item)
    requires NodeIs(ny, t, y.keys, y.kids) && NodeIs(nz, t, z.keys, z.kids) && Alike(y, z)
    requires z.keys != [] && |y.keys| < 2 * t - 1
    ensures var l := Join(y.id, y, k, LentLeft(z));
            NodeIs(Node(ny.leaf, ny.n + 1, ny.keys[ny.n := k], ny.kids[ny.n + 1 := nz.kids[0]]), t, l.keys, l.kids)
  {
    assert ny.keys[ny.n := k][..ny.n + 1] == ny.keys[..ny.n] + [k];
    if y.kids != [] {
      RootsConcat(y.kids, [z.kids[0]]);
      assert ny.kids[ny.n + 1 := nz.kids[0]][..ny.n + 2] == ny.kids[..ny.n + 1] + [nz.kids[0]];
      assert nz.kids[0] == nz.kids[..nz.n + 1][0] == z.kids[0].id;
      assert Roots([z.kids[0]]) == [nz.kids[0]];
    }
  }

  /** A leaf without its key i. */
  lemma LeafShrinks(nd: Node, t: nat, x: Tree, i: nat)
    requires NodeIs(nd, t, x.keys, []) && i < |x.keys|
    ensures NodeIs(nd.(keys := Moved(nd.keys, i, nd.keys, i + 1, nd.n - i - 1), n := nd.n - 1), t,
                   x.keys[..i] + x.keys[i + 1..], [])
    ensures nd.keys[i] == x.keys[i]
  {
    ShiftOut(nd.keys, i, nd.n);
  }

  // ---------------------------------------------------------------------------------------
  // Ownership
  // ---------------------------------------------------------------------------------------

  lemma OwnsPairOf(heap: Heap, t: nat, x: Tree, i: nat)
    requires Owns(heap, t, x) && i + 1 < |x.kids|
    ensures x.kids == x.kids[..i] + [x.kids[i], x.kids[i + 1]] + x.kids[i + 2..]
    ensures Owns(heap, t, x.kids[i]) && Owns(heap, t, x.kids[i + 1]) && Ids(x.kids[i]) !! Ids(x.kids[i + 1])
    ensures AllIds([x.kids[i], x.kids[i + 1]]) == Ids(x.kids[i]) + Ids(x.kids[i + 1])
    ensures x.id !in Ids(x.kids[i]) + Ids(x.kids[i + 1]) && Ids(x.kids[i]) + Ids(x.kids[i + 1]) <= heap.Keys
  {
    hide NodeIs;
    assert x.kids == x.kids[..i] + [x.kids[i], x.kids[i + 1]] + x.kids[i + 2..];
    OwnsMiddle(heap, t, x.kids[..i], [x.kids[i], x.kids[i + 1]], x.kids[i + 2..]);
    OwnsTwo(heap, t, x.kids[i], x.kids[i + 1]);
    OwnsInHeap(heap, t, x);
  }

  lemma OwnsTwo(heap: Heap, t: nat, l: Tree, r: Tree)
    ensures OwnsAll(heap, t, [l, r]) <==> Owns(heap, t, l) && Owns(heap, t, r) && Ids(l) !! Ids(r)
    ensures AllIds([l, r]) == Ids(l) + Ids(r)
  {
    hide Owns;
    hide Ids;
    assert [l, r] == [l] + [r];
    OwnsConcat(heap, t, [l], [r]);
    OwnsOne(heap, t, l);
    OwnsOne(heap, t, r);
    IdsConcat([l], [r]);
  }

  lemma PairReplaced(h0: Heap, heap: Heap, t: nat, x: Tree, i: nat, l: Tree, m: Item, r: Tree)
    requires Owns(h0, t, x) && i + 1 < |x.kids| && Inner(x)
    requires var y, z := x.kids[i], x.kids[i + 1];
             && l.id == y.id && r.id == z.id && l.kids + r.kids == y.kids + z.kids
             && heap.Keys == h0.Keys && Agree(h0, heap, h0.Keys - {x.id, y.id, z.id})
             && x.id in heap && y.id in heap && z.id in heap
             && NodeIs(heap[y.id], t, l.keys, l.kids) && NodeIs(heap[z.id], t, r.keys, r.kids)
             && NodeIs(heap[x.id], t, PairAt(x, i, l, m, r).keys, PairAt(x, i, l, m, r).kids)
    ensures Owns(heap, t, PairAt(x, i, l, m, r)) && Changed(h0, heap, Ids(x), Ids(PairAt(x, i, l, m, r)))
  {
    hide NodeIs;
    var y, z := x.kids[i], x.kids[i + 1];
    OwnsPairOf(h0, t, x, i);
    DealtBelow(h0, heap, t, x.id, y, z, l, r);
    assert x.kids[i := l][i + 1 := r] == x.kids[..i] + [l, r] + x.kids[i + 2..];
    PairChanged(h0, heap, x.id, y.id, z.id, Ids(y) + Ids(z));
    RowReplaced(h0, heap, t, x, x.kids[..i], [y, z], x.kids[i + 2..], PairAt(x, i, l, m, r), [l, r]);
  }

  /** The subtrees of two nodes are dealt out anew, in the same order; the parent changes too. */
  lemma DealtBelow(h0: Heap, heap: Heap, t: nat, x: nat, y: Tree, z: Tree, l: Tree, r: Tree)
    requires Owns(h0, t, y) && Owns(h0, t, z) && Ids(y) !! Ids(z) && x !in Ids(y) + Ids(z)
    requires l.id == y.id && r.id == z.id && l.kids + r.kids == y.kids + z.kids
    requires Agree(h0, heap, h0.Keys - {x, y.id, z.id}) && y.id in heap && z.id in heap
    requires NodeIs(heap[y.id], t, l.keys, l.kids) && NodeIs(heap[z.id], t, r.keys, r.kids)
    ensures OwnsAll(heap, t, [l, r]) && AllIds([l, r]) == Ids(y) + Ids(z)
  {
    hide NodeIs;
    OwnsInHeap(h0, t, y);
    OwnsInHeap(h0, t, z);
    OwnsAllFrame(h0, heap, t, y.kids);
    OwnsAllFrame(h0, heap, t, z.kids);
    OwnsConcat(heap, t, y.kids, z.kids);
    OwnsConcat(heap, t, l.kids, r.kids);
    IdsConcat(l.kids, r.kids);
    IdsConcat(y.kids, z.kids);
    OwnsTwo(heap, t, l, r);
  }

  lemma PairChanged(h0: Heap, heap: Heap, x: nat, y: nat, z: nat, c: set<nat>)
    requires heap.Keys == h0.Keys && Agree(h0, heap, h0.Keys - {x, y, z}) && y in c && z in c && c <= h0.Keys && x in h0
    ensures Changed(h0, heap, {x} + c, {x} + c)
  {
  }

  /** The right one of two nodes goes, its subtrees to the left one. */
  lemma MergeReplaced(h0: Heap, heap: Heap, t: nat, x: Tree, i: nat, mid: Item)
    requires Owns(h0, t, x) && Inner(x) && i < |x.keys|
    requires var y, z := x.kids[i], x.kids[i + 1]; var c := Join(y.id, y, mid, z);
             && heap.Keys == h0.Keys - {z.id} && Agree(h0, heap, h0.Keys - {x.id, y.id, z.id})
             && x.id in heap && y.id in heap
             && NodeIs(heap[y.id], t, c.keys, c.kids)
             && NodeIs(heap[x.id], t, Merge(x, i, mid).keys, Merge(x, i, mid).kids)
    ensures Owns(heap, t, Merge(x, i, mid)) && Changed(h0, heap, Ids(x), Ids(Merge(x, i, mid)))
  {
    hide NodeIs;
    var y, z := x.kids[i], x.kids[i + 1];
    var c := Join(y.id, y, mid, z);
    OwnsPairOf(h0, t, x, i);
    Merged(h0, heap, t, x.id, y, z, mid);
    OwnsOne(heap, t, c);
    MergeChanged(h0, heap, x.id, y.id, z.id, Ids(y) + Ids(z));
    RowReplaced(h0, heap, t, x, x.kids[..i], [y, z], x.kids[i + 2..], Merge(x, i, mid), [c]);
  }

  lemma Merged(h0: Heap, heap: Heap, t: nat, x: nat, y: Tree, z: Tree, mid: Item)
    requires Owns(h0, t, y) && Owns(h0, t, z) && Ids(y) !! Ids(z) && x !in Ids(y) + Ids(z)
    requires Agree(h0, heap, h0.Keys - {x, y.id, z.id}) && y.id in heap
    requires NodeIs(heap[y.id], t, Join(y.id, y, mid, z).keys, Join(y.id, y, mid, z).kids)
    ensures Owns(heap, t, Join(y.id, y, mid, z)) && Ids(Join(y.id, y, mid, z)) == Ids(y) + Ids(z) - {z.id}
  {
    hide NodeIs;
    OwnsInHeap(h0, t, y);
    OwnsInHeap(h0, t, z);
    OwnsAllFrame(h0, heap, t, y.kids);
    OwnsAllFrame(h0, heap, t, z.kids);
    OwnsConcat(heap, t, y.kids, z.kids);
    IdsConcat(y.kids, z.kids);
  }

  lemma MergeChanged(h0: Heap, heap: Heap, x: nat, y: nat, z: nat, c: set<nat>)
    requires heap.Keys == h0.Keys - {z} && Agree(h0, heap, h0.Keys - {x, y, z}) && y in c && z in c && c <= h0.Keys
    requires x in h0 && x !in c
    ensures Changed(h0, heap, {x} + c, {x} + (c - {z}))
  {
  }
}
