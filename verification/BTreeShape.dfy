/** B-trees as values: what they hold, in order, and how full and how deep they are. */
module BTreeShape {
  import opened KeySearch

  /** A node and what hangs below it; a leaf has no children.  `id` is the node's address. */
  datatype Tree = Tree(id: nat, keys: seq<Item>, kids: seq<Tree>)

  // ---------------------------------------------------------------------------------------
  // Keys between subtrees
  // ---------------------------------------------------------------------------------------

  /** f0 k0 f1 k1 ... */
  ghost function Lead(ks: seq<Item>, fs: seq<seq<Item>>): seq<Item>
    requires |ks| == |fs|
  {
    if ks == [] then [] else fs[0] + [ks[0]] + Lead(ks[1..], fs[1..])
  }

  /** k0 f0 k1 f1 ... */
  ghost function Trail(ks: seq<Item>, fs: seq<seq<Item>>): seq<Item>
    requires |ks| == |fs|
  {
    if ks == [] then [] else [ks[0]] + fs[0] + Trail(ks[1..], fs[1..])
  }

  /** f0 k0 f1 k1 ... fn */
  ghost function Weave(ks: seq<Item>, fs: seq<seq<Item>>): seq<Item>
    requires |fs| == |ks| + 1
  {
    fs[0] + Trail(ks, fs[1..])
  }

  lemma {:induction false} TrailConcat(ks: seq<Item>, fs: seq<seq<Item>>, ks': seq<Item>, fs': seq<seq<Item>>)
    requires |ks| == |fs| && |ks'| == |fs'|
    ensures Trail(ks + ks', fs + fs') == Trail(ks, fs) + Trail(ks', fs')
    decreases |ks|
  {
    if ks == [] {
      assert ks + ks' == ks' && fs + fs' == fs';
    } else {
      TrailConcat(ks[1..], fs[1..], ks', fs');
      assert (ks + ks')[1..] == ks[1..] + ks' && (fs + fs')[1..] == fs[1..] + fs';
    }
  }

  /** Two woven runs with a key between them. */
  lemma WeaveJoin(ks: seq<Item>, fs: seq<seq<Item>>, k: Item, ks': seq<Item>, fs': seq<seq<Item>>)
    requires |fs| == |ks| + 1 && |fs'| == |ks'| + 1
    ensures Weave(ks + [k] + ks', fs + fs') == Weave(ks, fs) + [k] + Weave(ks', fs')
  {
    TrailConcat(ks, fs[1..], [k] + ks', fs');
    assert ks + [k] + ks' == ks + ([k] + ks') && (fs + fs')[1..] == fs[1..] + fs';
    assert ([k] + ks')[1..] == ks';
  }

  lemma {:induction false} WeaveAt(ks: seq<Item>, fs: seq<seq<Item>>, i: nat)
    requires |fs| == |ks| + 1 && i <= |ks|
    ensures Weave(ks, fs) == Lead(ks[..i], fs[..i]) + fs[i] + Trail(ks[i..], fs[i + 1..])
    decreases i
  {
    if i == 0 {
      assert ks[0..] == ks;
    } else {
      WeaveAt(ks[1..], fs[1..], i - 1);
      assert ks[..i][1..] == ks[1..][..i - 1] && fs[..i][1..] == fs[1..][..i - 1];
      assert ks[i..] == ks[1..][i - 1..] && fs[i + 1..] == fs[1..][i..];
      assert Weave(ks, fs) == fs[0] + ([ks[0]] + fs[1] + Trail(ks[1..], fs[1..][1..]));
      assert Weave(ks, fs) == fs[0] + [ks[0]] + Weave(ks[1..], fs[1..]);
    }
  }

  // ---------------------------------------------------------------------------------------
  // In order
  // ---------------------------------------------------------------------------------------

  ghost function InOrder(tr: Tree): seq<Item>
    decreases tr
  {
    if tr.kids == [] then tr.keys
    else if |tr.kids| == |tr.keys| + 1 then Weave(tr.keys, Flats(tr.kids))
    else []
  }

  ghost function Flats(kids: seq<Tree>): (fs: seq<seq<Item>>)
    ensures |fs| == |kids|
    ensures forall i :: 0 <= i < |kids| ==> fs[i] == InOrder(kids[i])
    decreases kids
  {
    if kids == [] then [] else [InOrder(kids[0])] + Flats(kids[1..])
  }

  lemma FlatsConcat(a: seq<Tree>, b: seq<Tree>)
    ensures Flats(a + b) == Flats(a) + Flats(b)
  {
    hide InOrder;
    hide Flats;
    forall i | 0 <= i < |a + b| ensures Flats(a + b)[i] == (Flats(a) + Flats(b))[i] {
      assert (a + b)[i] == if i < |a| then a[i] else b[i - |a|];
    }
  }

  lemma FlatsTake(a: seq<Tree>, i: nat)
    requires i <= |a|
    ensures Flats(a[..i]) == Flats(a)[..i]
  {
    hide InOrder;
    hide Flats;
  }

  lemma FlatsDrop(a: seq<Tree>, i: nat)
    requires i <= |a|
    ensures Flats(a[i..]) == Flats(a)[i..]
  {
    hide InOrder;
    hide Flats;
  }

  /** An inner node has one more child than keys. */
  ghost predicate Inner(tr: Tree) { |tr.kids| == |tr.keys| + 1 }

  lemma InnerOrder(tr: Tree)
    requires Inner(tr)
    ensures InOrder(tr) == Weave(tr.keys, Flats(tr.kids))
  {
  }

  /** What comes before child i, and what comes after it. */
  ghost function Before(tr: Tree, i: nat): seq<Item>
    requires Inner(tr) && i <= |tr.keys|
  {
    Lead(tr.keys[..i], Flats(tr.kids[..i]))
  }

  ghost function After(tr: Tree, i: nat): seq<Item>
    requires Inner(tr) && i <= |tr.keys|
  {
    Trail(tr.keys[i..], Flats(tr.kids[i + 1..]))
  }

  lemma AtChild(tr: Tree, i: nat)
    requires Inner(tr) && i <= |tr.keys|
    ensures InOrder(tr) == Before(tr, i) + InOrder(tr.kids[i]) + After(tr, i)
  {
    InnerOrder(tr);
    hide InOrder;
    hide Flats;
    hide Lead;
    hide Trail;
    hide Weave;
    WeaveAt(tr.keys, Flats(tr.kids), i);
    FlatsTake(tr.kids, i);
    FlatsDrop(tr.kids, i + 1);
  }

  lemma AfterKey(tr: Tree, i: nat)
    requires Inner(tr) && i < |tr.keys|
    ensures After(tr, i) == [tr.keys[i]] + InOrder(tr.kids[i + 1]) + After(tr, i + 1)
  {
    hide InOrder;
    hide Flats;
    var ks, cs := tr.keys[i..], tr.kids[i + 1..];
    assert ks[1..] == tr.keys[i + 1..] && cs[1..] == tr.kids[i + 2..];
    FlatsDrop(cs, 1);
    assert Flats(cs)[0] == InOrder(cs[0]);
  }

  lemma {:induction false} LeadLast(ks: seq<Item>, fs: seq<seq<Item>>)
    requires |ks| == |fs| > 0
    ensures var n := |ks| - 1; Lead(ks, fs) == Lead(ks[..n], fs[..n]) + fs[n] + [ks[n]]
    decreases |ks|
  {
    var n := |ks| - 1;
    if n > 0 {
      LeadLast(ks[1..], fs[1..]);
      assert ks[1..][..n - 1] == ks[..n][1..] && fs[1..][..n - 1] == fs[..n][1..];
    }
  }

  lemma BeforeKey(tr: Tree, i: nat)
    requires Inner(tr) && 0 < i <= |tr.keys|
    ensures Before(tr, i) == Before(tr, i - 1) + InOrder(tr.kids[i - 1]) + [tr.keys[i - 1]]
  {
    hide InOrder;
    hide Flats;
    var ks, cs := tr.keys[..i], tr.kids[..i];
    LeadLast(ks, Flats(cs));
    assert ks[..i - 1] == tr.keys[..i - 1] && cs[..i - 1] == tr.kids[..i - 1];
    FlatsTake(cs, i - 1);
    assert Flats(cs)[i - 1] == InOrder(cs[i - 1]);
  }

  /** Children i and i + 1 with the key between them. */
  lemma AtPair(tr: Tree, i: nat)
    requires Inner(tr) && i < |tr.keys|
    ensures InOrder(tr) ==
              Before(tr, i) + (InOrder(tr.kids[i]) + [tr.keys[i]] + InOrder(tr.kids[i + 1])) + After(tr, i + 1)
  {
    hide InOrder;
    hide Flats;
    hide Lead;
    hide Trail;
    AtChild(tr, i);
    AfterKey(tr, i);
  }

  // ---------------------------------------------------------------------------------------
  // Two nodes and a key make one node
  // ---------------------------------------------------------------------------------------

  /** Both leaves, or both inner nodes. */
  ghost predicate Alike(y: Tree, z: Tree) {
    (y.kids == [] && z.kids == []) || (Inner(y) && Inner(z))
  }

  ghost function Join(id: nat, y: Tree, k: Item, z: Tree): Tree {
    Tree(id, y.keys + [k] + z.keys, y.kids + z.kids)
  }

  lemma JoinOrder(id: nat, y: Tree, k: Item, z: Tree)
    requires Alike(y, z)
    ensures InOrder(Join(id, y, k, z)) == InOrder(y) + [k] + InOrder(z)
  {
    if y.kids != [] {
      FlatsConcat(y.kids, z.kids);
      WeaveJoin(y.keys, Flats(y.kids), k, z.keys, Flats(z.kids));
    }
  }

  /** The child i of x becomes l and r with the key m between them. */
  ghost function SplitAt(x: Tree, i: nat, l: Tree, m: Item, r: Tree): Tree
    requires Inner(x) && i <= |x.keys|
  {
    Tree(x.id, x.keys[..i] + [m] + x.keys[i..], x.kids[..i] + [l, r] + x.kids[i + 1..])
  }

  /** The children i and i + 1 become one. */
  ghost function MergeAt(x: Tree, i: nat, y: Tree): Tree
    requires Inner(x) && i < |x.keys|
  {
    Tree(x.id, x.keys[..i] + x.keys[i + 1..], x.kids[..i] + [y] + x.kids[i + 2..])
  }

  /** The children i and i + 1 and the key between them are replaced. */
  ghost function PairAt(x: Tree, i: nat, l: Tree, m: Item, r: Tree): Tree
    requires Inner(x) && i < |x.keys|
  {
    Tree(x.id, x.keys[i := m], x.kids[i := l][i + 1 := r])
  }

  ghost function ChildAt(x: Tree, i: nat, c: Tree): Tree
    requires i < |x.kids|
  {
    Tree(x.id, x.keys, x.kids[i := c])
  }

  lemma SplitOrder(x: Tree, i: nat, l: Tree, m: Item, r: Tree)
    requires Inner(x) && i <= |x.keys| && InOrder(x.kids[i]) == InOrder(l) + [m] + InOrder(r)
    ensures InOrder(SplitAt(x, i, l, m, r)) == InOrder(x)
  {
    hide InOrder;
    hide Flats;
    hide Lead;
    hide Trail;
    var x' := SplitAt(x, i, l, m, r);
    AtChild(x, i);
    AtPair(x', i);
    assert x'.keys[..i] == x.keys[..i] && x'.kids[..i] == x.kids[..i];
    assert x'.keys[i + 1..] == x.keys[i..] && x'.kids[i + 2..] == x.kids[i + 1..];
  }

  lemma PairOrder(x: Tree, i: nat, l: Tree, m: Item, r: Tree)
    requires Inner(x) && i < |x.keys|
    ensures InOrder(PairAt(x, i, l, m, r)) == Before(x, i) + (InOrder(l) + [m] + InOrder(r)) + After(x, i + 1)
  {
    hide InOrder;
    hide Flats;
    hide Lead;
    hide Trail;
    var x' := PairAt(x, i, l, m, r);
    AtPair(x', i);
    assert x'.keys[..i] == x.keys[..i] && x'.kids[..i] == x.kids[..i];
    assert x'.keys[i + 1..] == x.keys[i + 1..] && x'.kids[i + 2..] == x.kids[i + 2..];
  }

  lemma ChildOrder(x: Tree, i: nat, c: Tree)
    requires Inner(x) && i < |x.kids|
    ensures InOrder(ChildAt(x, i, c)) == Before(x, i) + InOrder(c) + After(x, i)
  {
    hide InOrder;
    hide Flats;
    hide Lead;
    hide Trail;
    var x' := ChildAt(x, i, c);
    AtChild(x', i);
    assert x'.kids[..i] == x.kids[..i] && x'.kids[i + 1..] == x.kids[i + 1..];
  }

  // ---------------------------------------------------------------------------------------
  // Occupancy and depth
  // ---------------------------------------------------------------------------------------

  /** Every leaf is h levels down; this node has at least `lo` keys, every other at least t - 1, and
      all at most 2 * t - 1. */
  ghost predicate Shape(tr: Tree, h: nat, t: nat, lo: int)
    decreases h, 0
  {
    && lo <= |tr.keys| <= 2 * t - 1
    && if h == 0 then tr.kids == [] else Inner(tr) && Kids(tr.kids, h - 1, t)
  }

  ghost predicate Kids(kids: seq<Tree>, h: nat, t: nat)
    decreases h, 1
  {
    forall i :: 0 <= i < |kids| ==> Shape(kids[i], h, t, t - 1)
  }

  lemma KidsParts(kids: seq<Tree>, h: nat, t: nat, i: nat, j: nat)
    requires Kids(kids, h, t) && i <= j <= |kids|
    ensures Kids(kids[i..j], h, t)
  {
  }

  lemma KidsConcat(a: seq<Tree>, b: seq<Tree>, h: nat, t: nat)
    requires Kids(a, h, t) && Kids(b, h, t)
    ensures Kids(a + b, h, t)
  {
  }

  lemma JoinShape(id: nat, y: Tree, k: Item, z: Tree, h: nat, t: nat, lo: int)
    requires Shape(y, h, t, 0) && Shape(z, h, t, 0)
    requires lo <= |y.keys| + 1 + |z.keys| <= 2 * t - 1
    ensures Shape(Join(id, y, k, z), h, t, lo) && Alike(y, z)
  {
    if h > 0 { KidsConcat(y.kids, z.kids, h - 1, t); }
  }
}
