/** Searching a node: bit by bit, or from the end. */
module KeySearch {
  import opened BitLog

  /** What a key pointer leads to: its place in the order, and which object it is.  Different
      objects may compare equal. */
  datatype Item = Item(rank: int, tag: nat)

  /** The comparison: negative, zero or positive. */
  function Cmp(a: Item, b: Item): int { a.rank - b.rank }

  ghost predicate Sorted(s: seq<Item>) {
    forall i, j :: 0 <= i < j < |s| ==> s[i].rank <= s[j].rank
  }

  /** i is the last index whose key is at most k, or -1. */
  ghost predicate LastAtMost(keys: seq<Item>, k: Item, i: int) {
    && -1 <= i < |keys|
    && (forall j :: 0 <= j <= i ==> keys[j].rank <= k.rank)
    && (forall j :: i < j < |keys| ==> keys[j].rank > k.rank)
  }

  lemma LastUnique(keys: seq<Item>, k: Item, i: int, j: int)
    requires LastAtMost(keys, k, i) && LastAtMost(keys, k, j)
    ensures i == j
  {
    assert i >= 0 ==> keys[i].rank <= k.rank;
    assert j >= 0 ==> keys[j].rank <= k.rank;
  }

  /** The index and the last comparison made. */
  ghost predicate Found(keys: seq<Item>, k: Item, i: int, r: int) {
    && LastAtMost(keys, k, i)
    && (keys != [] ==> r == Cmp(k, keys[if i < 0 then 0 else i]))
  }

  // ---------------------------------------------------------------------------------------
  // Bits of an index
  // ---------------------------------------------------------------------------------------

  /** Bit b of i. */
  function BitAt(i: nat, b: nat): nat { Lower(Upper(i, Pow2(b)), 2) }

  /** i | 1 << b */
  function OrBit(i: nat, b: nat): nat {
    if BitAt(i, b) == 1 then i else i + Pow2(b)
  }

  /** No bit below c is set. */
  ghost predicate BitsFrom(i: nat, c: nat) { exists q: nat :: i == q * Pow2(c) }

  lemma MultipleEven(q: nat, d: nat, b: nat)
    ensures q * Pow2(b + 1 + d) == (2 * (q * Pow2(d))) * Pow2(b)
  {
    PowAdd(d, b + 1);
    Regroup(q, Pow2(d), Pow2(b));
    assert Pow2(b + 1) == 2 * Pow2(b);
  }

  lemma Regroup(q: nat, d: nat, p: nat)
    ensures q * (d * (2 * p)) == (2 * (q * d)) * p
  {
  }

  lemma EvenMultiple(e: nat, p: nat)
    requires p > 0
    ensures Upper(2 * e * p, p) == 2 * e && Lower(2 * e, 2) == 0
  {
    Exactly(2 * e, p);
  }

  lemma Exactly(x: nat, p: nat)
    requires p > 0
    ensures x * p / p == x
  {
    var q := x * p / p;
    assert x * p == q * p + x * p % p;
    Monotone(q, x + 1, p);
    Monotone(x, q + 1, p);
    OneMore(x, p);
    OneMore(q, p);
  }

  /** The bit is not yet there, so the or adds it. */
  lemma FreshBit(i: nat, c: nat, b: nat)
    requires BitsFrom(i, c) && b < c
    ensures BitAt(i, b) == 0 && OrBit(i, b) == i + Pow2(b)
    ensures BitsFrom(i, b) && BitsFrom(i + Pow2(b), b)
  {
    hide Upper;
    hide Lower;
    hide Pow2;
    var q: nat :| i == q * Pow2(c);
    var e := q * Pow2(c - b - 1);
    MultipleEven(q, c - b - 1, b);
    EvenMultiple(e, Pow2(b));
    OneMore(2 * e, Pow2(b));
    assert i == (2 * e) * Pow2(b);
    assert i + Pow2(b) == (2 * e + 1) * Pow2(b);
  }

  lemma OneMore(x: nat, p: nat)
    ensures x * p + p == (x + 1) * p
  {
  }

  // ---------------------------------------------------------------------------------------
  // The two searches
  // ---------------------------------------------------------------------------------------

  /** From the last key down. */
  method FindFromEnd(keys: seq<Item>, n: nat, k: Item) returns (i: int, r: int)
    requires n <= |keys| && Sorted(keys[..n])
    ensures Found(keys[..n], k, i, r)
  {
    i := n - 1;
    r := 0;
    while i >= 0
      invariant -1 <= i < n
      invariant forall j :: i < j < n ==> keys[..n][j].rank > k.rank
      invariant i < n - 1 ==> r == Cmp(k, keys[i + 1])
    {
      r := Cmp(k, keys[i]);
      if r >= 0 { break; }
      i := i - 1;
    }
    forall j | 0 <= j <= i ensures keys[..n][j].rank <= k.rank {
      assert keys[..n][j].rank <= keys[..n][i].rank;
    }
  }

  /** Bit by bit, from the highest: `a` is how far past `i` the answer can still be. */
  method FindByBits(keys: seq<Item>, n: nat, k: Item, logs: LogTable, nbits: nat) returns (i: int, r: int)
    requires n <= |keys| && Sorted(keys[..n])
    requires logs.Valid() && n <= |logs.table| && SearchBits(n, nbits)
    modifies logs
    ensures logs.Valid() && |logs.table| == old(|logs.table|)
    ensures Found(keys[..n], k, i, r)
  {
    hide Pow2;
    hide Log;
    hide BitsFrom;
    hide BitAt;
    hide OrBit;
    hide PowerOfTwo;
    r := 0;
    if n == 0 { return -1, r; }
    var a, p: nat := n - 1, 0;
    ghost var c: nat := nbits;
    ZeroBits(c);
    while a > 0
      invariant logs.Valid() && |logs.table| == old(|logs.table|)
      invariant 0 <= a && p + a <= n - 1 && a < Pow2(c) && c <= nbits && BitsFrom(p, c)
      invariant p > 0 ==> keys[..n][p].rank <= k.rank
      invariant forall j :: p + a < j < n ==> keys[..n][j].rank > k.rank
      decreases a
    {
      BitsRange(a, c, n, nbits);
      var b := logs.Log2(a, nbits);
      FreshBit(p, c, b);
      r := Cmp(k, keys[Pow2(b) + p]);
      if r < 0 {
        SortedAbove(keys[..n], k, Pow2(b) + p);
        a := Pow2(b) - 1;
      } else {
        a := a - Pow2(b);
        p := OrBit(p, b);
      }
      c := b;
    }
    r := Cmp(k, keys[p]);
    i := if r < 0 then p - 1 else p;
    SortedBelow(keys[..n], k, p);
  }

  lemma ZeroBits(c: nat)
    ensures BitsFrom(0, c)
  {
    assert 0 == 0 * Pow2(c);
  }

  lemma BitsRange(a: nat, c: nat, n: nat, nbits: nat)
    requires 1 <= a < Pow2(c) && a < n && c <= nbits && SearchBits(n, nbits)
    ensures a < Pow2(nbits) && Log(a) < c && Pow2(Log(a)) <= a < 2 * Pow2(Log(a))
  {
    LogBounds(a);
    if Log(a) >= c { PowGrows(c, Log(a)); }
  }

  lemma SortedAbove(s: seq<Item>, k: Item, i: nat)
    requires Sorted(s) && i < |s| && s[i].rank > k.rank
    ensures forall j :: i <= j < |s| ==> s[j].rank > k.rank
  {
  }

  lemma SortedBelow(s: seq<Item>, k: Item, i: nat)
    requires Sorted(s) && i < |s|
    ensures s[i].rank <= k.rank ==> forall j :: 0 <= j <= i ==> s[j].rank <= k.rank
  {
  }

  /** The two searches agree: same index, same comparison. */
  lemma SearchesAgree(keys: seq<Item>, k: Item, i: int, r: int, i': int, r': int)
    requires Found(keys, k, i, r) && Found(keys, k, i', r') && keys != []
    ensures i == i' && r == r'
  {
    LastUnique(keys, k, i, i');
  }
}
