/** The layout of a pool file and what recovery makes of it.

    Offsets are counted in 8-byte words: word w holds the bytes [8 * w, 8 * w + 8).  The size
    words and the `off` fields inside an image keep their byte values. */
module PoolImage {
  import opened PersistentMemory

  const STATIC_WORD := 512    // byte 4096, the static area
  const STATIC_END := 1024    // byte 8192, the red zone
  const FIRST := 2048         // byte 16384, the first clump
  const MIN_WORDS := 131072   // 1 MiB

  const FREE := 0
  const RESERVED := 1
  const ACTIVATING := 2
  const ACTIVE := 3
  const FREEING := 4

  /** A size word carries the state in its six low bits. */
  function State(v: nat): nat { v % 64 }

  /** The clump's size in bytes, header included. */
  function Bytes(v: nat): nat { v - v % 64 }

  /** The same size in words. */
  function Span(v: nat): nat { v / 64 * 8 }

  lemma SizeWord(bytes: nat, state: nat)
    requires bytes % 64 == 0 && state < 64
    ensures State(bytes + state) == state && Bytes(bytes + state) == bytes && Span(bytes + state) == bytes / 8
  {
  }

  /** Header of the zero-size clump that ends the chain. */
  function LastHeader(words: nat): int { words / 8 * 8 - 8 }

  // ---------------------------------------------------------------------------------------
  // The chain
  // ---------------------------------------------------------------------------------------

  ghost predicate Bounds(hs: seq<nat>, words: nat) {
    && |hs| >= 2
    && hs[0] == FIRST && hs[|hs| - 1] == LastHeader(words)
    && (forall i, j :: 0 <= i < j < |hs| ==> hs[i] + 8 <= hs[j])
    && (forall i :: 0 <= i < |hs| ==> hs[i] % 8 == 0 && FIRST <= hs[i] && hs[i] + 8 <= words)
  }

  ghost predicate Clump(img: Image, hs: seq<nat>, i: nat)
    requires i + 1 < |hs| && hs[i] < |img|
  {
    hs[i] + Span(img[hs[i]]) == hs[i + 1] && State(img[hs[i]]) <= FREEING
  }

  /** The clumps whose headers are `hs` tile the pool exactly up to the zero-size terminator. */
  ghost predicate Tiled(img: Image, hs: seq<nat>) {
    && Bounds(hs, |img|)
    && (forall i :: 0 <= i < |hs| - 1 ==> Clump(img, hs, i))
    && img[hs[|hs| - 1]] == 0
  }

  /** The headers that the loop `while (clp->size)` comes by, the one it stops at included. */
  ghost function Walk(img: Image, h: nat): seq<nat>
    decreases |img| - h
  {
    if h < |img| && Span(img[h]) > 0 then [h] + Walk(img, h + Span(img[h])) else [h]
  }

  ghost function Chain(img: Image): seq<nat> { Walk(img, FIRST) }

  lemma {:induction false} WalkIsChain(img: Image, hs: seq<nat>, i: nat)
    requires Tiled(img, hs) && i < |hs|
    ensures Walk(img, hs[i]) == hs[i..]
    decreases |hs| - i
  {
    if i == |hs| - 1 {
      assert hs[i..] == [hs[i]];
    } else {
      assert Clump(img, hs, i);
      assert hs[i] + 8 <= hs[i + 1];
      assert hs[i + 1] <= hs[|hs| - 1] by { if i + 1 < |hs| - 1 { assert hs[i + 1] + 8 <= hs[|hs| - 1]; } }
      WalkIsChain(img, hs, i + 1);
      assert hs[i..] == [hs[i]] + hs[i + 1..];
    }
  }

  /** An image has at most one tiling. */
  lemma ChainUnique(img: Image, hs: seq<nat>)
    requires Tiled(img, hs)
    ensures Chain(img) == hs
  {
    WalkIsChain(img, hs, 0);
    assert hs[0..] == hs;
  }

  // ---------------------------------------------------------------------------------------
  // Words that are not headers
  // ---------------------------------------------------------------------------------------

  predicate Static(w: nat) { STATIC_WORD <= w < STATIC_END }

  /** Word w lies in the payload of clump i. */
  ghost predicate Inside(hs: seq<nat>, i: nat, w: nat) {
    i < |hs| - 1 && hs[i] + 8 <= w < hs[i + 1]
  }

  ghost predicate Payload(hs: seq<nat>, w: nat) {
    exists i: nat :: Inside(hs, i, w)
  }

  ghost predicate Target(hs: seq<nat>, w: nat) { Static(w) || Payload(hs, w) }

  /** One of the eight words of a header. */
  ghost predicate Header(hs: seq<nat>, w: nat) {
    exists i :: 0 <= i < |hs| && hs[i] <= w < hs[i] + 8
  }

  /** A word inside payload j is before or after every header. */
  lemma PayloadBesideHeader(hs: seq<nat>, words: nat, j: nat, i: nat, w: nat)
    requires Bounds(hs, words) && Inside(hs, j, w) && i < |hs|
    ensures w < hs[i] || hs[i] + 8 <= w
    ensures w < LastHeader(words)
  {
    if i < j { assert hs[i] + 8 <= hs[j]; }
    if j + 1 < i { assert hs[j + 1] + 8 <= hs[i]; }
    if j + 1 < |hs| - 1 { assert hs[j + 1] + 8 <= hs[|hs| - 1]; }
  }

  lemma TargetIsNoHeader(hs: seq<nat>, words: nat, w: nat)
    requires Bounds(hs, words) && Target(hs, w)
    ensures !Header(hs, w) && w < LastHeader(words)
  {
    forall i: nat | i < |hs| ensures w < hs[i] || hs[i] + 8 <= w {
        if !Static(w) {
        var j: nat :| Inside(hs, j, w);
        PayloadBesideHeader(hs, words, j, i, w);
      }
    }
    if !Static(w) {
      var j: nat :| Inside(hs, j, w);
      PayloadBesideHeader(hs, words, j, j, w);
    }
  }

  // ---------------------------------------------------------------------------------------
  // The "on" lists: entry i of the header at h is (img[h + 2 + 2 * i], img[h + 3 + 2 * i])
  // ---------------------------------------------------------------------------------------

  /** Entries executed: the loop breaks at the first zero offset. */
  function ListLen(img: Image, h: nat): (n: nat)
    requires h + 8 <= |img|
  {
    if img[h + 2] == 0 then 0 else if img[h + 4] == 0 then 1 else if img[h + 6] == 0 then 2 else 3
  }

  predicate Transit(v: nat) { State(v) == ACTIVATING || State(v) == FREEING }

  ghost predicate TargetOffset(hs: seq<nat>, off: nat) {
    off % 8 == 0 && Target(hs, off / 8)
  }

  /** Every executed entry stores outside the headers. */
  ghost predicate ListOk(img: Image, hs: seq<nat>, h: nat)
    requires h + 8 <= |img|
  {
    && (ListLen(img, h) > 0 ==> TargetOffset(hs, img[h + 2]))
    && (ListLen(img, h) > 1 ==> TargetOffset(hs, img[h + 4]))
    && (ListLen(img, h) > 2 ==> TargetOffset(hs, img[h + 6]))
  }

  /** Executed entries with the same destination store the same value. */
  predicate Consistent(img: Image, h: nat)
    requires h + 8 <= |img|
  {
    && (ListLen(img, h) > 1 && img[h + 2] == img[h + 4] ==> img[h + 3] == img[h + 5])
    && (ListLen(img, h) > 2 && img[h + 2] == img[h + 6] ==> img[h + 3] == img[h + 7])
    && (ListLen(img, h) > 2 && img[h + 4] == img[h + 6] ==> img[h + 5] == img[h + 7])
  }

  predicate Allows(owner: nat, state: nat) { state == ACTIVE || (owner == RESERVED && state == RESERVED) }

  /** A word that an entry owned by a clump in state `owner` may name: in the static area, in
      an active clump, or, for a reserved owner, in a reserved clump. */
  ghost predicate Reach(img: Image, hs: seq<nat>, owner: nat, w: nat)
    requires Bounds(hs, |img|)
  {
    Static(w) ||
    exists j: nat :: Inside(hs, j, w) && Allows(owner, State(img[hs[j]]))
  }

  ghost predicate ReachOffset(img: Image, hs: seq<nat>, owner: nat, off: nat)
    requires Bounds(hs, |img|)
  {
    off % 8 == 0 && Reach(img, hs, owner, off / 8)
  }

  ghost predicate ListReaches(img: Image, hs: seq<nat>, owner: nat, h: nat)
    requires Bounds(hs, |img|) && h + 8 <= |img|
  {
    && (img[h + 2] != 0 ==> ReachOffset(img, hs, owner, img[h + 2]))
    && (img[h + 4] != 0 ==> ReachOffset(img, hs, owner, img[h + 4]))
    && (img[h + 6] != 0 ==> ReachOffset(img, hs, owner, img[h + 6]))
  }

  lemma ReachesIsOk(img: Image, hs: seq<nat>, owner: nat, h: nat)
    requires Bounds(hs, |img|) && h + 8 <= |img| && ListReaches(img, hs, owner, h)
    ensures ListOk(img, hs, h)
  {
  }

  // ---------------------------------------------------------------------------------------
  // What recovery does
  // ---------------------------------------------------------------------------------------

  function Put(img: Image, w: nat, v: nat): (r: Image)
    ensures |r| == |img|
  {
    if w < |img| then img[w := v] else img
  }

  /** The stores of the "on" list, in order: all three entries, the last two, the last. */
  function Replay(img: Image, h: nat): (r: Image)
    requires h + 8 <= |img|
    ensures |r| == |img|
  {
    if img[h + 2] == 0 then img else ReplayFrom1(Put(img, img[h + 2] / 8, img[h + 3]), h)
  }

  function ReplayFrom1(img: Image, h: nat): (r: Image)
    requires h + 8 <= |img|
    ensures |r| == |img|
  {
    if img[h + 4] == 0 then img else ReplayFrom2(Put(img, img[h + 4] / 8, img[h + 5]), h)
  }

  function ReplayFrom2(img: Image, h: nat): (r: Image)
    requires h + 8 <= |img|
    ensures |r| == |img|
  {
    if img[h + 6] == 0 then img else Put(img, img[h + 6] / 8, img[h + 7])
  }

  /** The value the list leaves in word w. */
  function ReplayAt(img: Image, h: nat, w: nat): nat
    requires h + 8 <= |img| && w < |img|
  {
    if ListLen(img, h) > 2 && img[h + 6] / 8 == w then img[h + 7]
    else if ListLen(img, h) > 1 && img[h + 4] / 8 == w then img[h + 5]
    else if ListLen(img, h) > 0 && img[h + 2] / 8 == w then img[h + 3]
    else img[w]
  }

  function Clear(img: Image, h: nat): (r: Image)
    requires h + 8 <= |img|
    ensures |r| == |img|
  {
    img[h + 6 := 0][h + 4 := 0][h + 2 := 0]
  }

  /** The state recovery leaves a clump in. */
  function Settled(state: nat): nat {
    if state == RESERVED || state == FREEING then FREE
    else if state == ACTIVATING then ACTIVE
    else state
  }

  /** One round of the recovery loop. */
  function ResolveClump(img: Image, h: nat): (r: Image)
    requires h + 8 <= |img|
    ensures |r| == |img|
  {
    var v := img[h];
    if State(v) == RESERVED then Clear(img, h)[h := Bytes(v) + FREE]
    else if State(v) == ACTIVATING then Clear(Replay(img, h), h)[h := Bytes(v) + ACTIVE]
    else if State(v) == FREEING then Clear(Replay(img, h), h)[h := Bytes(v) + FREE]
    else img
  }

  ghost function ResolveUpTo(img: Image, hs: seq<nat>, k: nat): (r: Image)
    requires Bounds(hs, |img|) && k < |hs|
    ensures |r| == |img|
  {
    if k == 0 then img
    else
      ResolveClump(ResolveUpTo(img, hs, k - 1), hs[k - 1])
  }

  /** The image after a whole recovery pass. */
  ghost function Resolve(img: Image, hs: seq<nat>): (r: Image)
    requires Bounds(hs, |img|)
    ensures |r| == |img|
  {
    ResolveUpTo(img, hs, |hs| - 1)
  }

  // ---------------------------------------------------------------------------------------
  // What a restarted program sees
  // ---------------------------------------------------------------------------------------

  /** The allocations with their spans, and every word of theirs and of the static area. */
  datatype View = View(live: map<nat, nat>, words: map<nat, nat>)

  ghost function LiveOf(r: Image, hs: seq<nat>): map<nat, nat>
    requires Bounds(hs, |r|)
  {
    map h: nat | h in hs && h < |r| && State(r[h]) == ACTIVE :: Span(r[h])
  }

  ghost predicate Visible(live: map<nat, nat>, w: nat) {
    Static(w) || exists h :: h in live && h + 8 <= w < h + live[h]
  }

  ghost function Shot(r: Image, hs: seq<nat>): View
    requires Bounds(hs, |r|)
  {
    var live := LiveOf(r, hs);
    View(live, map w: nat | w < |r| && Visible(live, w) :: r[w])
  }

  ghost function ViewOf(img: Image, hs: seq<nat>): View
    requires Bounds(hs, |img|)
  {
    Shot(Resolve(img, hs), hs)
  }

  /** An image recovery can work on: the clumps tile the pool, unfinished lists stay clear of the
      headers and agree on shared destinations, and the lists that active clumps keep name
      static or active words. */
  ghost predicate Recoverable(img: Image, hs: seq<nat>) {
    && Tiled(img, hs)
    && forall i :: 0 <= i < |hs| - 1 ==> ClumpOk(img, hs, i)
  }

  ghost predicate ClumpOk(img: Image, hs: seq<nat>, i: nat)
    requires Bounds(hs, |img|) && i < |hs| - 1
  {
    && (Transit(img[hs[i]]) ==> ListOk(img, hs, hs[i]) && Consistent(img, hs[i]))
    && (State(img[hs[i]]) == ACTIVE ==> ListReaches(img, hs, ACTIVE, hs[i]))
  }
}
