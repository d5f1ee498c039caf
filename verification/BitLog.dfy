/** The halving logarithm of the B-tree and its lookup table. */
module BitLog {

  function Pow2(b: nat): (p: nat)
    ensures p > 0
  {
    if b == 0 then 1 else 2 * Pow2(b - 1)
  }

  /** The integer logarithm to base two. */
  function Log(a: nat): nat
    requires a > 0
  {
    if a == 1 then 0 else 1 + Log(a / 2)
  }

  lemma {:induction false} PowAdd(a: nat, b: nat)
    ensures Pow2(a + b) == Pow2(a) * Pow2(b)
  {
    if a > 0 { PowAdd(a - 1, b); }
  }

  lemma {:induction false} PowGrows(a: nat, b: nat)
    requires a <= b
    ensures Pow2(a) <= Pow2(b) && b < Pow2(b)
  {
    if b > 0 { PowGrows(if a < b then a else b - 1, b - 1); }
  }

  lemma {:induction false} LogBounds(a: nat)
    requires a > 0
    ensures Pow2(Log(a)) <= a < Pow2(Log(a) + 1)
  {
    if a > 1 { LogBounds(a / 2); }
  }

  lemma {:induction false} LogUnique(a: nat, e: nat)
    requires a > 0 && Pow2(e) <= a < Pow2(e + 1)
    ensures Log(a) == e
  {
    if a > 1 && e > 0 { LogUnique(a / 2, e - 1); }
  }

  lemma LogOfPow(e: nat)
    ensures Log(Pow2(e)) == e
  {
    LogUnique(Pow2(e), e);
  }

  lemma {:induction false} LogShift(a: nat, b: nat)
    requires a >= Pow2(b)
    ensures a / Pow2(b) >= 1 && Log(a) == b + Log(a / Pow2(b))
  {
    var q := a / Pow2(b);
    assert q >= 1 by { assert a == q * Pow2(b) + a % Pow2(b); }
    LogBounds(q);
    var e := Log(q);
    PowAdd(e, b);
    PowAdd(e + 1, b);
    Between(a, Pow2(b), q, Pow2(e), Pow2(e + 1));
    LogUnique(a, e + b);
  }

  lemma Between(a: nat, p: nat, q: nat, lo: nat, hi: nat)
    requires p > 0 && q == a / p && lo <= q < hi
    ensures lo * p <= a < hi * p
  {
    Quotient(a, p, q);
    Monotone(q, lo, p);
    Monotone(hi, q + 1, p);
  }

  lemma Quotient(a: nat, p: nat, q: nat)
    requires p > 0 && q == a / p
    ensures q * p <= a < (q + 1) * p
  {
    assert a == q * p + a % p;
  }

  predicate PowerOfTwo(n: nat) { n > 0 && n == Pow2(Log(n)) }

  lemma PowIsPower(e: nat)
    ensures PowerOfTwo(Pow2(e))
  {
    LogOfPow(e);
  }

  // ---------------------------------------------------------------------------------------
  // Halving
  // ---------------------------------------------------------------------------------------

  function Upper(a: nat, p: nat): nat
    requires p > 0
  {
    a / p
  }

  function Lower(a: nat, p: nat): nat
    requires p > 0
  {
    a % p
  }

  /** The loop: b bits to decide, i decided so far. */
  function Halve(a: nat, i: nat, b: nat): nat
    decreases b
  {
    if b == 0 then i
    else if a >= Pow2(b) then Halve(Upper(a, Pow2(b)), 2 * i + 1, b / 2)
    else Halve(Lower(a, Pow2(b)), 2 * i, b / 2)
  }

  /** One round on a number of at most 2 * b bits. */
  lemma HalveStep(a: nat, i: nat, b: nat)
    requires b > 0 && 1 <= a < Pow2(2 * b)
    ensures a >= Pow2(b) ==>
              && 1 <= Upper(a, Pow2(b)) < Pow2(b) && Log(a) == b + Log(Upper(a, Pow2(b)))
              && Halve(a, i, b) == Halve(Upper(a, Pow2(b)), 2 * i + 1, b / 2)
    ensures a < Pow2(b) ==> Halve(a, i, b) == Halve(a, 2 * i, b / 2)
  {
    hide Log;
    hide Pow2;
    hide Upper;
    hide Lower;
    PowAdd(b, b);
    if a >= Pow2(b) {
      UpperSmall(a, Pow2(b));
      UpperLog(a, b);
    } else {
      SmallLower(a, Pow2(b));
    }
  }

  lemma SmallLower(a: nat, p: nat)
    requires a < p
    ensures Lower(a, p) == a
  {
  }

  lemma SelfUpper(p: nat)
    requires p > 0
    ensures Upper(p, p) == 1
  {
  }

  lemma UpperSmall(a: nat, p: nat)
    requires 0 < p && a < p * p
    ensures Upper(a, p) < p
  {
    var q := Upper(a, p);
    assert a == q * p + a % p;
    NotAbove(q, p, a);
  }

  lemma NotAbove(q: nat, p: nat, a: nat)
    requires q * p <= a < p * p
    ensures q < p
  {
    Monotone(q, p, p);
  }

  lemma Monotone(x: nat, y: nat, p: nat)
    ensures x >= y ==> x * p >= y * p
  {
  }

  lemma UpperLog(a: nat, b: nat)
    requires a >= Pow2(b)
    ensures Upper(a, Pow2(b)) >= 1 && Log(a) == b + Log(Upper(a, Pow2(b)))
  {
    hide Pow2;
    hide Log;
    LogShift(a, b);
  }

  lemma {:induction false} HalveRight(a: nat, i: nat, b: nat, e: nat)
    requires b == Pow2(e) && 1 <= a < Pow2(2 * b)
    ensures Halve(a, i, b) == 2 * b * i + Log(a)
    decreases e
  {
    HalveStep(a, i, b);
    var up := a >= Pow2(b);
    var a', i' := if up then Upper(a, Pow2(b)) else a, if up then 2 * i + 1 else 2 * i;
    Doubled(b, i);
    hide Upper;
    if e > 0 {
      assert b / 2 == Pow2(e - 1) && 2 * (b / 2) == b;
      hide Pow2;
      hide Halve;
      hide Log;
      HalveRight(a', i', b / 2, e - 1);
    } else {
      assert b == 1 && Pow2(1) == 2 && a' == 1;
    }
  }

  lemma Doubled(b: nat, i: nat)
    ensures b * (2 * i + 1) == 2 * b * i + b && b * (2 * i) == 2 * b * i
  {
  }

  lemma {:induction false} HalveOne(i: nat, b: nat)
    ensures Halve(1, i, b) == if b == 0 then i else i * Pow2(Log(b) + 1)
    decreases b
  {
    if b > 0 {
      PowGrows(1, b);
      assert Halve(1, i, b) == Halve(1, 2 * i, b / 2) by { SmallLower(1, Pow2(b)); }
      HalveOne(2 * i, b / 2);
      Twice(i, Pow2(Log(b)));
    }
  }

  lemma Twice(i: nat, p: nat)
    ensures 2 * i * p == i * (2 * p)
  {
  }

  ghost predicate RightUpTo(nbits: nat) {
    forall a :: 1 <= a < Pow2(nbits) ==> Halve(a, 0, (nbits + 1) / 2) == Log(a)
  }

  /** The halving is the logarithm of every number of nbits bits exactly if half of nbits, rounded
      up, is a power of two; nbits being one is enough. */
  lemma HalvingExact(nbits: nat)
    requires nbits > 0
    ensures RightUpTo(nbits) <==> PowerOfTwo((nbits + 1) / 2)
    ensures PowerOfTwo(nbits) ==> PowerOfTwo((nbits + 1) / 2)
  {
    hide Halve;
    hide Pow2;
    var b := (nbits + 1) / 2;
    if PowerOfTwo(b) {
      PowGrows(nbits, 2 * b);
      forall a | 1 <= a < Pow2(nbits) ensures Halve(a, 0, b) == Log(a) {
        HalveRight(a, 0, b, Log(b));
      }
    } else {
      HalvingWrong(nbits);
    }
    if PowerOfTwo(nbits) { HalfPower(nbits); }
  }

  lemma HalfPower(nbits: nat)
    requires PowerOfTwo(nbits)
    ensures PowerOfTwo((nbits + 1) / 2)
  {
    if nbits > 1 { PowIsPower(Log(nbits) - 1); }
  }

  /** Otherwise it fails for the power in the middle. */
  lemma HalvingWrong(nbits: nat)
    requires nbits > 0 && !PowerOfTwo((nbits + 1) / 2)
    ensures var a := Pow2((nbits + 1) / 2); a < Pow2(nbits) && Halve(a, 0, (nbits + 1) / 2) != Log(a)
  {
    hide Pow2;
    hide Halve;
    var b := (nbits + 1) / 2;
    PowIsPower(0);
    PowOne();
    PowGrows(b + 1, nbits);
    PowNext(b);
    LogOfPow(b);
    MiddleOnce(b);
    HalveOne(1, b / 2);
    assert Log(b) == Log(b / 2) + 1;
  }

  lemma PowTwice(b: nat)
    ensures Pow2(b + 1) == 2 * Pow2(b)
  {
  }

  lemma PowOne()
    ensures Pow2(0) == 1
  {
  }

  lemma PowNext(b: nat)
    ensures Pow2(b) < Pow2(b + 1)
  {
  }

  lemma MiddleOnce(b: nat)
    requires b > 0
    ensures Halve(Pow2(b), 0, b) == Halve(1, 1, b / 2)
  {
    SelfUpper(Pow2(b));
  }

  method RealLog2(a: nat, nbits: nat) returns (i: nat)
    requires nbits > 0 && PowerOfTwo((nbits + 1) / 2) && 1 <= a < Pow2(nbits)
    ensures i == Log(a)
  {
    HalvingExact(nbits);
    i := Halving(a, nbits);
  }

  /** The loop itself, for any width. */
  method Halving(a0: nat, nbits: nat) returns (i: nat)
    ensures i == Halve(a0, 0, (nbits + 1) / 2)
  {
    hide Upper;
    hide Lower;
    var a: nat, b: nat := a0, (nbits + 1) / 2;
    i := 0;
    while b != 0
      invariant Halve(a, i, b) == Halve(a0, 0, (nbits + 1) / 2)
      decreases b
    {
      i := 2 * i;
      if a >= Pow2(b) {
        a := Upper(a, Pow2(b));
        i := i + 1;
      } else {
        a := Lower(a, Pow2(b));
      }
      b := b / 2;
    }
  }

  // ---------------------------------------------------------------------------------------
  // The table
  // ---------------------------------------------------------------------------------------

  /** The memo table that all trees share; -1 marks what has not been computed yet. */
  class LogTable {
    var table: seq<int>

    ghost predicate Valid()
      reads this
    {
      forall a :: 0 <= a < |table| && table[a] != -1 ==> a > 0 && table[a] == Log(a)
    }

    constructor ()
      ensures Valid() && table == []
    {
      table := [];
    }

    /** The growth test lets a == |table| pass, which would read past the end. */
    method Log2(a: nat, nbits: nat) returns (r: nat)
      requires Valid() && a != |table|
      requires nbits > 0 && PowerOfTwo((nbits + 1) / 2) && 1 <= a < Pow2(nbits)
      modifies this
      ensures Valid() && r == Log(a)
      ensures |table| == if a > old(|table|) then a + 1 else old(|table|)
    {
      if a > |table| {
        var i := |table|;
        while i < a + 1
          invariant old(|table|) <= i <= a + 1 && |table| == i && Valid()
        {
          table := table + [-1];
          i := i + 1;
        }
      }
      if table[a] == -1 {
        var l := RealLog2(a, nbits);
        table := table[a := l];
      }
      r := table[a];
    }

    /** What creating a tree does: the logarithm of the node size, which is odd, and the number of
        bits for the searches in its nodes. */
    method NodeBits(nkeys: nat) returns (nbits: nat)
      requires Valid() && |table| % 2 == 0
      requires nkeys % 2 == 1 && 3 <= nkeys < Pow2(32)
      modifies this
      ensures Valid() && |table| % 2 == 0 && nkeys < |table| && old(|table|) <= |table|
      ensures SearchBits(nkeys, nbits)
      ensures exists bits: nat :: bits > 0 && Pow2(bits - 1) <= nkeys < Pow2(bits) && bits < nbits <= 2 * bits
    {
      hide Pow2;
      hide Log;
      hide PowerOfTwo;
      IntBits();
      var l := Log2(nkeys, 32);
      FewBits(nkeys);
      var m := Log2(l + 1, 32);
      nbits := Pow2(m + 1);
      BitsEnough(nkeys);
      LogBounds(nkeys);
      LogBounds(l + 1);
      PowTwice(m);
      assert Pow2((l + 1) - 1) <= nkeys < Pow2(l + 1);
    }
  }

  /** The width is fit for every index into a node of nkeys keys. */
  predicate SearchBits(nkeys: nat, nbits: nat) {
    nbits > 0 && PowerOfTwo((nbits + 1) / 2) && nkeys < Pow2(nbits)
  }

  lemma IntBits()
    ensures PowerOfTwo((32 + 1) / 2)
  {
    PowIsPower(4);
  }

  lemma FewBits(nkeys: nat)
    requires 3 <= nkeys < Pow2(32)
    ensures Log(nkeys) + 1 < nkeys + 1 && Log(nkeys) + 1 < Pow2(32)
  {
    LogBounds(nkeys);
    PowGrows(0, Log(nkeys));
  }

  lemma BitsEnough(nkeys: nat)
    requires nkeys > 0
    ensures SearchBits(nkeys, Pow2(Log(Log(nkeys) + 1) + 1))
  {
    var w := Log(nkeys) + 1;
    LogBounds(w);
    LogBounds(nkeys);
    PowGrows(w, Pow2(Log(w) + 1));
    PowIsPower(Log(w) + 1);
    HalvingExact(Pow2(Log(w) + 1));
  }
}
