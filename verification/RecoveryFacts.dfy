/** Word by word, what recovery leaves. */
module RecoveryFacts {
  import opened PersistentMemory
  import opened PoolImage

  ghost predicate ListsOk(img: Image, hs: seq<nat>) {
    && Bounds(hs, |img|)
    && forall i :: 0 <= i < |hs| - 1 ==> OwnListOk(img, hs, i)
  }

  ghost predicate OwnListOk(img: Image, hs: seq<nat>, i: nat)
    requires Bounds(hs, |img|) && i < |hs| - 1
  {
    Transit(img[hs[i]]) ==> ListOk(img, hs, hs[i])
  }

  predicate Pending(v: nat) { State(v) == RESERVED || Transit(v) }

  /** Word w of the header at h after its clump has been settled. */
  function SettledWord(img: Image, h: nat, w: nat): nat
    requires h + 8 <= |img| && h <= w < h + 8
  {
    if w == h then Bytes(img[h]) + Settled(State(img[h]))
    else if (w == h + 2 || w == h + 4 || w == h + 6) && Pending(img[h]) then 0
    else img[w]
  }

  lemma PutOutside(img: Image, hs: seq<nat>, off: nat, v: nat)
    requires Bounds(hs, |img|) && TargetOffset(hs, off)
    ensures off / 8 < |img| && Put(img, off / 8, v) == img[off / 8 := v]
    ensures !Header(hs, off / 8)
  {
    TargetIsNoHeader(hs, |img|, off / 8);
  }

  lemma ReplayFrom1Point(a: Image, h: nat)
    requires h + 8 <= |a|
    requires a[h + 4] != 0 ==> a[h + 4] / 8 < |a| && (a[h + 4] / 8 < h || h + 8 <= a[h + 4] / 8)
    requires a[h + 4] != 0 && a[h + 6] != 0 ==> a[h + 6] / 8 < |a|
    ensures forall w :: 0 <= w < |a| ==>
              ReplayFrom1(a, h)[w] == (if a[h + 4] == 0 then a[w]
                                       else if a[h + 6] != 0 && a[h + 6] / 8 == w then a[h + 7]
                                       else if a[h + 4] / 8 == w then a[h + 5]
                                       else a[w])
  {
  }

  /** The list is read from a header that its own stores leave alone; the last entry wins. */
  lemma ReplayPoint(img: Image, hs: seq<nat>, k: nat)
    requires Bounds(hs, |img|) && k < |hs| - 1
    requires ListOk(img, hs, hs[k])
    ensures forall w :: 0 <= w < |img| ==> Replay(img, hs[k])[w] == ReplayAt(img, hs[k], w)
  {
    hide Exec;
    var h := hs[k];
    if ListLen(img, h) > 0 {
      PutOutside(img, hs, img[h + 2], img[h + 3]);
      OutsideHeader(hs, k, img[h + 2] / 8);
      if ListLen(img, h) > 1 { PutOutside(img, hs, img[h + 4], img[h + 5]); OutsideHeader(hs, k, img[h + 4] / 8); }
      if ListLen(img, h) > 2 { PutOutside(img, hs, img[h + 6], img[h + 7]); }
      ReplayFrom1Point(img[img[h + 2] / 8 := img[h + 3]], h);
    }
  }

  lemma OutsideHeader(hs: seq<nat>, k: nat, w: nat)
    requires k < |hs| && !Header(hs, w)
    ensures w < hs[k] || hs[k] + 8 <= w
  {
  }

  lemma ReplayKeepsHeaders(img: Image, hs: seq<nat>, k: nat, w: nat)
    requires Bounds(hs, |img|) && k < |hs| - 1 && w < |img|
    requires ListOk(img, hs, hs[k])
    requires Header(hs, w)
    ensures ReplayAt(img, hs[k], w) == img[w]
  {
    var h := hs[k];
    if ListLen(img, h) > 0 { TargetIsNoHeader(hs, |img|, img[h + 2] / 8); }
    if ListLen(img, h) > 1 { TargetIsNoHeader(hs, |img|, img[h + 4] / 8); }
    if ListLen(img, h) > 2 { TargetIsNoHeader(hs, |img|, img[h + 6] / 8); }
  }

  /** Word w after clump k has been settled. */
  ghost function ResolvedWord(img: Image, hs: seq<nat>, k: nat, w: nat): nat
    requires Bounds(hs, |img|) && k < |hs| - 1 && w < |img|
  {
    var h := hs[k];
    if h <= w < h + 8 then SettledWord(img, h, w)
    else if Transit(img[h]) then ReplayAt(img, h, w)
    else img[w]
  }

  lemma ResolveClumpPoint(img: Image, hs: seq<nat>, k: nat)
    requires Bounds(hs, |img|) && k < |hs| - 1 && OwnListOk(img, hs, k)
    ensures forall w :: 0 <= w < |img| ==> ResolveClump(img, hs[k])[w] == ResolvedWord(img, hs, k, w)
  {
    var h := hs[k];
    if Transit(img[h]) {
      ReplayPoint(img, hs, k);
      forall w | h <= w < h + 8 ensures Replay(img, h)[w] == img[w] {
        assert Header(hs, w);
        ReplayKeepsHeaders(img, hs, k, w);
      }
    }
  }

  /** Header words once the first k clumps are settled: those are, the others are as they were. */
  ghost predicate HeadersSettled(img: Image, hs: seq<nat>, k: nat, r: Image)
    requires Bounds(hs, |img|) && |r| == |img|
  {
    forall i, w :: 0 <= i < |hs| && hs[i] <= w < hs[i] + 8 ==>
      r[w] == if i < k then SettledWord(img, hs[i], w) else img[w]
  }

  lemma {:induction false} HeadersAfter(img: Image, hs: seq<nat>, k: nat)
    requires ListsOk(img, hs) && k < |hs|
    ensures HeadersSettled(img, hs, k, ResolveUpTo(img, hs, k))
  {
    if k > 0 {
      HeadersAfter(img, hs, k - 1);
      var a := ResolveUpTo(img, hs, k - 1);
      StillOk(img, hs, k - 1, a);
      ResolveClumpPoint(a, hs, k - 1);
      forall i, w | 0 <= i < |hs| && hs[i] <= w < hs[i] + 8
        ensures ResolveUpTo(img, hs, k)[w] == if i < k then SettledWord(img, hs[i], w) else img[w]
      {
        if i == k - 1 {
          assert a[hs[i]] == img[hs[i]];
        } else {
          assert hs[i] + 8 <= hs[k - 1] || hs[k - 1] + 8 <= hs[i];
          assert Header(hs, w);
          if Transit(a[hs[k - 1]]) { ReplayKeepsHeaders(a, hs, k - 1, w); }
        }
      }
    }
  }

  lemma HeadersApart(hs: seq<nat>, words: nat, i: nat, j: nat)
    requires Bounds(hs, words) && i < |hs| && j < |hs| && i != j
    ensures hs[i] + 8 <= hs[j] || hs[j] + 8 <= hs[i]
  {
  }

  /** A clump that has not been reached keeps its list. */
  lemma StillOk(img: Image, hs: seq<nat>, k: nat, a: Image)
    requires ListsOk(img, hs) && k < |hs| - 1 && |a| == |img|
    requires HeadersSettled(img, hs, k, a)
    ensures OwnListOk(a, hs, k)
    ensures forall w :: hs[k] <= w < hs[k] + 8 ==> a[w] == img[w]
  {
    assert OwnListOk(img, hs, k);
    assert a[hs[k]] == img[hs[k]];
  }

  /** Clump t is the only one that may be in transit. */
  ghost predicate OnlyTransit(img: Image, hs: seq<nat>, t: nat)
    requires Bounds(hs, |img|)
  {
    && t < |hs| - 1
    && forall i :: 0 <= i < |hs| - 1 && i != t ==> !Transit(img[hs[i]])
  }

  /** One more clump: a word outside the headers changes only by that clump's list. */
  lemma WordStep(img: Image, hs: seq<nat>, k: nat, a: Image, w: nat)
    requires ListsOk(img, hs) && k < |hs| - 1 && |a| == |img|
    requires HeadersSettled(img, hs, k, a)
    requires w < |img| && Target(hs, w)
    ensures ResolveClump(a, hs[k])[w] == (if Transit(img[hs[k]]) then ReplayAt(a, hs[k], w) else a[w])
    ensures a[w] == img[w] ==> ReplayAt(a, hs[k], w) == ReplayAt(img, hs[k], w)
  {
    StillOk(img, hs, k, a);
    ResolveClumpPoint(a, hs, k);
    TargetIsNoHeader(hs, |img|, w);
    assert !(hs[k] <= w < hs[k] + 8);
  }

  /** A word outside the headers changes only by the list of the clump in transit. */
  lemma {:induction false} WordAfter(img: Image, hs: seq<nat>, k: nat, t: nat, w: nat)
    requires ListsOk(img, hs) && k < |hs| && OnlyTransit(img, hs, t)
    requires w < |img| && Target(hs, w)
    ensures ResolveUpTo(img, hs, k)[w] ==
              if t < k && Transit(img[hs[t]]) then ReplayAt(img, hs[t], w) else img[w]
  {
    hide ResolveClump;
    hide ReplayAt;
    if k > 0 {
      WordAfter(img, hs, k - 1, t, w);
      HeadersAfter(img, hs, k - 1);
      WordStep(img, hs, k - 1, ResolveUpTo(img, hs, k - 1), w);
    }
  }

  /** The whole pass: header words. */
  lemma HeadersResolved(img: Image, hs: seq<nat>)
    requires ListsOk(img, hs)
    ensures HeadersSettled(img, hs, |hs| - 1, Resolve(img, hs))
  {
    HeadersAfter(img, hs, |hs| - 1);
  }

  lemma RecoverableLists(img: Image, hs: seq<nat>)
    requires Recoverable(img, hs)
    ensures ListsOk(img, hs)
  {
    forall i | 0 <= i < |hs| - 1 ensures OwnListOk(img, hs, i) {
      assert ClumpOk(img, hs, i);
    }
  }

  // ---------------------------------------------------------------------------------------
  // Views
  // ---------------------------------------------------------------------------------------

  predicate LiveState(v: nat) { State(v) == ACTIVE || State(v) == ACTIVATING }

  /** The clumps that are, or are about to be, allocated. */
  ghost function Living(img: Image, hs: seq<nat>): map<nat, nat>
    requires Bounds(hs, |img|)
  {
    map h: nat | h in hs && h < |img| && LiveState(img[h]) :: Span(img[h])
  }

  lemma LiveResolved(img: Image, hs: seq<nat>)
    requires Recoverable(img, hs)
    ensures LiveOf(Resolve(img, hs), hs) == Living(img, hs)
  {
    hide Exec;
    RecoverableLists(img, hs);
    HeadersResolved(img, hs);
    var r := Resolve(img, hs);
    forall h: nat | h in hs && h < |img|
      ensures (State(r[h]) == ACTIVE <==> LiveState(img[h])) && Span(r[h]) == Span(img[h])
    {
      var i :| 0 <= i < |hs| && hs[i] == h;
      if i < |hs| - 1 {
        assert r[h] == SettledWord(img, hs[i], h);
        SizeWord(Bytes(img[h]), Settled(State(img[h])));
        assert Clump(img, hs, i);
      }
    }
  }

  /** A visible word lies outside the headers. */
  lemma VisibleIsTarget(img: Image, hs: seq<nat>, w: nat)
    requires Tiled(img, hs) && Visible(Living(img, hs), w)
    ensures Target(hs, w) && w < |img|
  {
    if !Static(w) {
      var h :| h in Living(img, hs) && h + 8 <= w < h + Living(img, hs)[h];
      var i :| 0 <= i < |hs| && hs[i] == h;
      assert i < |hs| - 1 && Clump(img, hs, i);
      assert Inside(hs, i, w);
    }
    TargetIsNoHeader(hs, |img|, w);
  }

  /** What the restarted program sees in word w. */
  ghost function Seen(img: Image, hs: seq<nat>, t: nat, w: nat): nat
    requires Bounds(hs, |img|) && t < |hs| - 1 && w < |img|
  {
    if Transit(img[hs[t]]) then ReplayAt(img, hs[t], w) else img[w]
  }

  lemma SeenResolved(img: Image, hs: seq<nat>, t: nat, w: nat)
    requires Recoverable(img, hs) && OnlyTransit(img, hs, t)
    requires w < |img| && Visible(Living(img, hs), w)
    ensures Resolve(img, hs)[w] == Seen(img, hs, t, w)
  {
    RecoverableLists(img, hs);
    VisibleIsTarget(img, hs, w);
    WordAfter(img, hs, |hs| - 1, t, w);
  }

  /** The view of an image, written out. */
  lemma ViewWords(img: Image, hs: seq<nat>, t: nat)
    requires Recoverable(img, hs) && OnlyTransit(img, hs, t)
    ensures ViewOf(img, hs).live == Living(img, hs)
    ensures forall w: nat :: w in ViewOf(img, hs).words <==> w < |img| && Visible(Living(img, hs), w)
    ensures forall w: nat :: w < |img| && Visible(Living(img, hs), w) ==>
              ViewOf(img, hs).words[w] == Seen(img, hs, t, w)
  {
    LiveResolved(img, hs);
    forall w: nat | w < |img| && Visible(Living(img, hs), w)
      ensures ViewOf(img, hs).words[w] == Seen(img, hs, t, w)
    {
      SeenResolved(img, hs, t, w);
    }
  }

  /** Two images with the same allocations and the same visible words have the same view. */
  lemma SameView(a: Image, hs: seq<nat>, s: nat, b: Image, gs: seq<nat>, t: nat)
    requires Recoverable(a, hs) && OnlyTransit(a, hs, s)
    requires Recoverable(b, gs) && OnlyTransit(b, gs, t)
    requires |a| == |b| && Living(a, hs) == Living(b, gs)
    requires forall w: nat :: w < |a| && Visible(Living(a, hs), w) ==> Seen(a, hs, s, w) == Seen(b, gs, t, w)
    ensures ViewOf(a, hs) == ViewOf(b, gs)
  {
    ViewWords(a, hs, s);
    ViewWords(b, gs, t);
    assert ViewOf(a, hs).words == ViewOf(b, gs).words;
  }
}
