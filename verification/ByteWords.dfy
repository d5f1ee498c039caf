/** Bytes inside 8-byte words, and C strings. */
module ByteWords {

  const TWO_32 := 0x1_0000_0000

  /** Byte k of a little-endian word. */
  function Digit(v: nat, k: nat): nat {
    if k == 0 then v % 256 else Digit(v / 256, k - 1)
  }

  /** The number whose bytes these are, the least significant first. */
  function Little(bytes: seq<nat>): nat { if bytes == [] then 0 else bytes[0] + 256 * Little(bytes[1..]) }

  function Digits(v: nat, n: nat): seq<nat> { seq(n, k requires 0 <= k < n => Digit(v, k)) }

  function TopValue(n: nat): nat { if n == 0 then 1 else 256 * TopValue(n - 1) }

  /** The digits of a word are its bytes. */
  lemma {:induction false} DigitsAreBytes(v: nat, n: nat)
    requires v < TopValue(n)
    ensures Little(Digits(v, n)) == v && forall k :: 0 <= k < n ==> Digits(v, n)[k] < 256
  {
    if n > 0 {
      DigitsAreBytes(v / 256, n - 1);
      assert Digits(v, n)[1..] == Digits(v / 256, n - 1);
      forall k | 0 <= k < n ensures Digits(v, n)[k] < 256 {
        if k > 0 { assert Digits(v, n)[k] == Digits(v / 256, n - 1)[k - 1]; }
      }
    }
  }

  function SetDigit(v: nat, k: nat, b: nat): nat {
    if k == 0 then v / 256 * 256 + b else v % 256 + 256 * SetDigit(v / 256, k - 1, b)
  }

  lemma {:induction false} DigitSet(v: nat, k: nat, b: nat, j: nat)
    requires b < 256
    ensures Digit(SetDigit(v, k, b), j) == if j == k then b else Digit(v, j)
  {
    if k == 0 {
      assert (v / 256 * 256 + b) / 256 == v / 256;
    } else {
      var w := v % 256 + 256 * SetDigit(v / 256, k - 1, b);
      assert w / 256 == SetDigit(v / 256, k - 1, b) && w % 256 == v % 256;
      if j > 0 { DigitSet(v / 256, k - 1, b, j - 1); }
    }
  }

  /** The low four bytes. */
  function Low(v: nat): nat { v % TWO_32 }

  function SetLow(v: nat, c: nat): nat { v / TWO_32 * TWO_32 + c }

  lemma High(v: nat)
    ensures v / 256 / 256 / 256 / 256 == v / TWO_32
  {
  }

  lemma DigitHigh(v: nat, k: nat)
    requires k >= 4
    ensures Digit(v, k) == Digit(v / TWO_32, k - 4)
  {
    High(v);
    assert Digit(v, k) == Digit(v / 256, k - 1) == Digit(v / 256 / 256, k - 2);
    assert Digit(v / 256 / 256, k - 2) == Digit(v / 256 / 256 / 256, k - 3) == Digit(v / 256 / 256 / 256 / 256, k - 4);
  }

  /** The count and the characters behind it do not disturb each other. */
  lemma SetLowKeeps(v: nat, c: nat, k: nat)
    requires c < TWO_32 && k >= 4
    ensures Low(SetLow(v, c)) == c && Digit(SetLow(v, c), k) == Digit(v, k)
  {
    DigitHigh(v, k);
    DigitHigh(SetLow(v, c), k);
  }

  lemma SetDigitHigh(v: nat, k: nat, b: nat)
    requires k >= 4
    ensures SetDigit(v, k, b) % TWO_32 == v % TWO_32
  {
    var v1 := v / 256;
    var v2 := v1 / 256;
    var v3 := v2 / 256;
    var d := SetDigit(v3 / 256, k - 4, b);
    assert SetDigit(v3, k - 3, b) == v3 % 256 + 256 * d;
    assert SetDigit(v2, k - 2, b) == v2 % 256 + 256 * SetDigit(v3, k - 3, b);
    assert SetDigit(v1, k - 1, b) == v1 % 256 + 256 * SetDigit(v2, k - 2, b);
    assert SetDigit(v, k, b) == v % 256 + 256 * SetDigit(v1, k - 1, b);
    assert v == v % 256 + 256 * (v1 % 256) + 65536 * (v2 % 256) + 16777216 * (v3 % 256) + TWO_32 * (v3 / 256);
    Parts(v % 256, v1 % 256, v2 % 256, v3 % 256, d);
    Parts(v % 256, v1 % 256, v2 % 256, v3 % 256, v3 / 256);
  }

  lemma Parts(a: nat, b: nat, c: nat, d: nat, e: nat)
    requires a < 256 && b < 256 && c < 256 && d < 256
    ensures (a + 256 * b + 65536 * c + 16777216 * d + TWO_32 * e) % TWO_32 == a + 256 * b + 65536 * c + 16777216 * d
  {
  }

  // ---------------------------------------------------------------------------------------
  // Words of a text
  // ---------------------------------------------------------------------------------------

  /** Characters without the terminating NUL. */
  ghost predicate Text(s: seq<nat>) { forall i :: 0 <= i < |s| ==> 0 < s[i] < 256 }

  /** The order of strcmp: bytes as unsigned, and a prefix comes first. */
  function Compare(a: seq<nat>, b: seq<nat>): int {
    if a == [] then (if b == [] then 0 else -1)
    else if b == [] then 1
    else if a[0] < b[0] then -1
    else if a[0] > b[0] then 1
    else Compare(a[1..], b[1..])
  }

  lemma {:induction false} CompareEqual(a: seq<nat>, b: seq<nat>)
    ensures Compare(a, b) == 0 <==> a == b
    ensures Compare(b, a) == -Compare(a, b)
  {
    if a != [] && b != [] {
      CompareEqual(a[1..], b[1..]);
      assert a == [a[0]] + a[1..] && b == [b[0]] + b[1..];
    }
  }

  lemma {:induction false} CompareTrans(a: seq<nat>, b: seq<nat>, c: seq<nat>)
    requires Compare(a, b) < 0 && Compare(b, c) < 0
    ensures Compare(a, c) < 0
  {
    if a != [] && b != [] && c != [] && a[0] == b[0] == c[0] { CompareTrans(a[1..], b[1..], c[1..]); }
  }

  /** Strings with a common prefix. */
  lemma {:induction false} CompareDrop(a: seq<nat>, b: seq<nat>, n: nat)
    requires n <= |a| && n <= |b| && a[..n] == b[..n]
    ensures Compare(a, b) == Compare(a[n..], b[n..])
    decreases n
  {
    if n == 0 {
      assert a[0..] == a && b[0..] == b;
    } else {
      assert a[0] == a[..n][0] == b[..n][0] == b[0];
      assert a[1..][..n - 1] == a[..n][1..] && b[1..][..n - 1] == b[..n][1..];
      CompareDrop(a[1..], b[1..], n - 1);
      assert a[1..][n - 1..] == a[n..] && b[1..][n - 1..] == b[n..];
    }
  }

  /** a comes before b in a dictionary of bytes: it is a proper prefix, or the first byte that differs
      is smaller. */
  ghost predicate Precedes(a: seq<nat>, b: seq<nat>) {
    || (a != b && a <= b)
    || exists n :: 0 <= n < |a| && n < |b| && a[..n] == b[..n] && a[n] < b[n]
  }

  /** The sign of strcmp says which word comes first. */
  lemma {:induction false} ComparePrecedes(a: seq<nat>, b: seq<nat>)
    ensures Compare(a, b) < 0 <==> Precedes(a, b)
    decreases |a|
  {
    if a != [] && b != [] && a[0] == b[0] {
      ComparePrecedes(a[1..], b[1..]);
      PrecedesTail(a, b);
    } else if a != [] && b != [] && a[0] < b[0] {
      assert a[..0] == b[..0];
    } else if a != [] && b != [] {
      FirstDiffers(a, b);
    }
  }

  lemma FirstDiffers(a: seq<nat>, b: seq<nat>)
    requires a != [] && b != [] && a[0] > b[0]
    ensures !Precedes(a, b)
  {
  }

  lemma PrecedesTail(a: seq<nat>, b: seq<nat>)
    requires a != [] && b != [] && a[0] == b[0]
    ensures Precedes(a, b) <==> Precedes(a[1..], b[1..])
  {
    var c, d := a[1..], b[1..];
    assert a == [a[0]] + c && b == [b[0]] + d;
    if n :| 0 <= n < |a| && n < |b| && a[..n] == b[..n] && a[n] < b[n] {
      assert c[..n - 1] == a[..n][1..] && d[..n - 1] == b[..n][1..] && c[n - 1] < d[n - 1];
    }
    if n :| 0 <= n < |c| && n < |d| && c[..n] == d[..n] && c[n] < d[n] {
      assert a[..n + 1] == [a[0]] + c[..n] && b[..n + 1] == [b[0]] + d[..n] && a[n + 1] < b[n + 1];
    }
  }
}
