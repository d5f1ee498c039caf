/** Inserting a word: what the stores and persists of the call do to a pool that shows a tree. */
module WordInserts {
  import opened PersistentMemory
  import opened PoolImage
  import opened RecoveryFacts
  import opened CrashSafety
  import opened Activation
  import opened Reserving
  import opened Registering
  import opened Runs
  import StaleCursor
  import opened Trails
  import opened Allocator
  import opened Leftovers
  import opened ByteWords
  import opened WordTrees
  import opened WordTreeSteps
  import opened TakingDown
  import opened WordPrograms

  // ---------------------------------------------------------------------------------------
  // Reserving
  // ---------------------------------------------------------------------------------------

  lemma {:induction false} FitIs(m: Image, hs: seq<nat>, i: nat, bytes: nat)
    requires Tiled(m, hs) && i < |hs|
    ensures var k := FirstFit(m, hs, i, bytes); Fit(m, hs[i], bytes) == if k == |hs| - 1 then 0 else hs[k]
    decreases |hs| - i
  {
    if i < |hs| - 1 {
      WalkStep(m, hs, i);
      FitIs(m, hs, i + 1, bytes);
    }
  }

  lemma WalkStep(m: Image, hs: seq<nat>, i: nat)
    requires Tiled(m, hs) && i < |hs| - 1
    ensures hs[i] < |m| && Span(m[hs[i]]) > 0 && hs[i] + Span(m[hs[i]]) == hs[i + 1]
  {
    assert Clump(m, hs, i);
    assert hs[i] + 8 <= hs[i + 1];
  }

  /** The search of the call is the first-fit search of the allocator, and so are its stores. */
  lemma ReserveRuns(s: Pm, cursor: nat, x: seq<nat>) returns (r: Pm)
    requires Quiet(s, Chain(s.mem)) && IsClump(s.mem, cursor) && NodeSize(x) + 127 < TWO_64
    ensures r == Exec(s, ReserveProgram(s.mem, cursor, NodeSize(x)))
    ensures Called(s, cursor, Command.Reserve(NodeSize(x)), r) && Sight(r) == Sight(s)
    ensures CallSteps(s.mem, Chain(s.mem), cursor, Command.Reserve(NodeSize(x))) ==
              ReserveProgram(s.mem, cursor, NodeSize(x))
    ensures var c := NodeFit(s.mem, cursor, x);
            ReserveResult(s.mem, Chain(s.mem), cursor, NodeSize(x), if c == 0 then 0 else 8 * (c + 8), r.mem,
                          Chain(r.mem))
  {
    hide PersistentMemory.Exec;
    hide Recoverable;
    hide Chain;
    hide ReserveSteps;
    hide Called;
    hide NodeSize;
    hide Carved;
    hide ReservedChain;
    var m, hs, size := s.mem, Chain(s.mem), NodeSize(x);
    var i := Index(hs, cursor);
    StaleCursor.QuietTiled(s, hs);
    var k := FirstFit(m, hs, i, ClumpBytes(size));
    FitIs(m, hs, i, ClumpBytes(size));
    r := Exec(s, ReserveProgram(m, cursor, size));
    if k == |hs| - 1 {
      SearchOver(s, hs, cursor, size, k);
    } else {
      ReserveFound(s, hs, cursor, size, k, r);
    }
  }

  lemma SearchOver(s: Pm, hs: seq<nat>, cursor: nat, size: nat, k: nat)
    requires Quiet(s, hs) && hs == Chain(s.mem) && Legal(s.mem, hs, cursor, Command.Reserve(size))
    requires k == |hs| - 1 == FirstFit(s.mem, hs, Index(hs, cursor), ClumpBytes(size))
    ensures Exec(s, []) == s && CallSteps(s.mem, hs, cursor, Command.Reserve(size)) == []
    ensures Called(s, cursor, Command.Reserve(size), s)
    ensures ReserveResult(s.mem, hs, cursor, size, 0, s.mem, hs)
  {
    hide PersistentMemory.Exec;
    assert FirstFit(s.mem, hs, k, ClumpBytes(size)) == k;
    ReserveNone(s, hs, cursor, size, k, hs[k]);
  }

  /** The chain with the clump of the new node. */
  ghost predicate Rechained(m: Image, b: Image, c: nat, x: seq<nat>) {
    var hs := Chain(m);
    Bounds(hs, |m|) && IsClump(m, c) && Chain(b) == ReservedChain(m, hs, Index(hs, c), ClumpBytes(NodeSize(x)))
  }

  /** The clump c of the chain holds a header, the 24 bytes of a node, n characters and their NUL, in chunks
      of 64 bytes; what it has over it has lost if that was two chunks or more. */
  ghost predicate HoldsNode(m: Image, b: Image, c: nat, n: nat) {
    var hs := Chain(m);
    exists k: nat :: k < |hs| - 1 && hs[k] == c &&
                     var bytes := (64 + 24 + n + 1 + 63) / 64 * 64;
                     && 8 * (hs[k + 1] - c) >= bytes
                     && Chain(b) == if 8 * (hs[k + 1] - c) >= bytes + 128
                                    then hs[..k + 1] + [c + bytes / 8] + hs[k + 1..] else hs
  }

  lemma RechainedHolds(s: Pm, cursor: nat, x: seq<nat>, b: Image)
    requires Quiet(s, Chain(s.mem)) && NodeSize(x) + 127 < TWO_64 && NodeFit(s.mem, cursor, x) != 0
    requires Rechained(s.mem, b, NodeFit(s.mem, cursor, x), x)
    ensures HoldsNode(s.mem, b, NodeFit(s.mem, cursor, x), |x|)
  {
    hide PersistentMemory.Exec;
    hide Chain;
    hide ClumpOk;
    hide Fit;
    var hs, c := Chain(s.mem), NodeFit(s.mem, cursor, x);
    var k := Index(hs, c);
    assert Clump(s.mem, hs, k) && Fits(s.mem[c], ClumpBytes(NodeSize(x)));
    assert ClumpBytes(NodeSize(x)) == (64 + 24 + |x| + 1 + 63) / 64 * 64;
  }

  lemma ReservedRechained(s: Pm, cursor: nat, x: seq<nat>, ptr: nat, b: Image)
    requires Quiet(s, Chain(s.mem)) && IsClump(s.mem, cursor) && NodeFit(s.mem, cursor, x) != 0
    requires ReserveResult(s.mem, Chain(s.mem), cursor, NodeSize(x), ptr, b, Chain(b))
    ensures Rechained(s.mem, b, NodeFit(s.mem, cursor, x), x)
  {
    hide PersistentMemory.Exec;
    hide Chain;
    hide Carved;
    hide ReservedChain;
    var m, hs, bytes := s.mem, Chain(s.mem), ClumpBytes(NodeSize(x));
    FitIs(m, hs, Index(hs, cursor), bytes);
    IndexUnique(hs, |m|, FirstFit(m, hs, Index(hs, cursor), bytes));
  }

  /** The node under way: its clump is reserved and nobody sees it. */
  lemma ReservedNode(s: Pm, cursor: nat, x: seq<nat>) returns (r: Pm)
    requires Quiet(s, Chain(s.mem)) && IsClump(s.mem, cursor) && NodeSize(x) + 127 < TWO_64
    ensures r == Exec(s, ReserveProgram(s.mem, cursor, NodeSize(x)))
    ensures Quiet(r, Chain(r.mem)) && Sight(r) == Sight(s)
    ensures Did(s, ReserveProgram(s.mem, cursor, NodeSize(x)), r)
    ensures var c := NodeFit(s.mem, cursor, x);
            if c == 0 then r == s
            else Held(r, c + 8, x) && (Tidy(s) ==> TidyBut(r, c)) && Rechained(s.mem, r.mem, c, x)
  {
    hide PersistentMemory.Exec;
    hide Chain;
    hide Quiet;
    hide ReserveResult;
    hide Called;
    hide Held;
    hide Did;
    hide TidyBut;
    hide NodeSize;
    hide CallSteps;
    hide Rechained;
    r := ReserveRuns(s, cursor, x);
    var c := NodeFit(s.mem, cursor, x);
    CalledQuiet(s, cursor, Command.Reserve(NodeSize(x)), r);
    DidCall(s, cursor, Command.Reserve(NodeSize(x)), r);
    if c == 0 {
      assert ReserveProgram(s.mem, cursor, NodeSize(x)) == [];
      ExecNothing(s);
    } else {
      ReservedHeld(s, cursor, x, 8 * (c + 8), r);
      assert 8 * (c + 8) / 8 == c + 8;
      if Tidy(s) { ReservedTidy(s, cursor, x, 8 * (c + 8), r); }
      ReservedRechained(s, cursor, x, 8 * (c + 8), r.mem);
    }
  }

  // ---------------------------------------------------------------------------------------
  // Filling
  // ---------------------------------------------------------------------------------------

  /** Stores into the node under way: nothing shows, and it stays under way. */
  ghost predicate Filled(s: Pm, prog: seq<Instr>, r: Pm, at: nat, x: seq<nat>) {
    && Held(s, at, x) && Held(r, at, x) && Chain(r.mem) == Chain(s.mem) && Sight(r) == Sight(s)
    && Did(s, prog, r) && (TidyBut(s, at - 8) ==> TidyBut(r, at - 8))
  }

  lemma FilledMore(s: Pm, p: seq<Instr>, a: Pm, q: seq<Instr>, r: Pm, at: nat, x: seq<nat>)
    requires Filled(s, p, a, at, x) && Filled(a, q, r, at, x)
    ensures Filled(s, p + q, r, at, x)
  {
    hide Held;
    hide Chain;
    hide Quiet;
    hide Did;
    hide TidyBut;
    HeldQuiet(s, at, x);
    HeldQuiet(a, at, x);
    HeldQuiet(r, at, x);
    DidMore(s, p, a, q, r);
  }

  lemma HeldQuiet(s: Pm, at: nat, x: seq<nat>)
    requires Held(s, at, x)
    ensures Quiet(s, Chain(s.mem))
  {
  }

  lemma FilledOne(s: Pm, at: nat, x: seq<nat>, w: nat, v: nat) returns (r: Pm)
    requires Held(s, at, x) && w in NodeSet(at, x)
    ensures r == Exec(s, [Store(w, v)]) && w < |s.mem| && r.mem == s.mem[w := v]
    ensures Filled(s, [Store(w, v)], r, at, x) && Held(r, at, x)
  {
    hide PersistentMemory.Exec;
    hide Chain;
    hide Quiet;
    hide Called;
    hide Did;
    hide TidyBut;
    HeldQuiet(s, at, x);
    HeldHidden(s, at, x, w);
    var hs := Chain(s.mem);
    FillLegal(s, hs, w, v);
    FillDone(s, hs, w, v);
    r := Step(s, Store(w, v));
    ExecSingle(s, Store(w, v));
    HeldFilled(s, at, x, w, r);
    DidCall(s, FIRST, Command.Fill(w, v), r);
    if TidyBut(s, at - 8) { FilledTidy(s, at, x, w, v, r); }
  }

  lemma FillLegal(s: Pm, hs: seq<nat>, w: nat, v: nat)
    requires Quiet(s, hs) && Legal(s.mem, hs, FIRST, Command.Fill(w, 0))
    ensures Legal(s.mem, hs, FIRST, Command.Fill(w, v))
  {
  }

  /** strcpy. */
  lemma {:induction false} TextFilled(s: Pm, at: nat, x: seq<nat>, i: nat) returns (r: Pm)
    requires Held(s, at, x) && Text(x) && i <= |x| && Written(s.mem, at, x, i)
    ensures r == Exec(s, TextSteps(s.mem, at, x, i))
    ensures Filled(s, TextSteps(s.mem, at, x, i), r, at, x) && Written(r.mem, at, x, |x| + 1)
    decreases |x| - i
  {
    hide PersistentMemory.Exec;
    hide Held;
    hide Filled;
    hide Written;
    hide NodeSet;
    CharStored(s.mem, at, x, i, Char(x, i));
    var w := CharWord(at, i);
    var v := SetDigit(s.mem[w], (i + 4) % 8, Char(x, i));
    r := FilledOne(s, at, x, w, v);
    assert TextSteps(s.mem, at, x, i) == [Store(w, v)] + TextSteps(r.mem, at, x, i + 1);
    if i < |x| {
      var a := r;
      r := TextFilled(a, at, x, i + 1);
      FilledMore(s, [Store(w, v)], a, TextSteps(a.mem, at, x, i + 1), r, at, x);
      ExecConcat(s, [Store(w, v)], TextSteps(a.mem, at, x, i + 1));
    } else {
      assert TextSteps(r.mem, at, x, i + 1) == [];
      assert TextSteps(s.mem, at, x, i) == [Store(w, v)];
    }
  }

  /** The null pointers and the count. */
  lemma FieldsFilled(s: Pm, at: nat, x: seq<nat>) returns (r: Pm)
    requires Held(s, at, x)
    ensures at + 2 < |s.mem| && r == Exec(s, FieldSteps(s.mem, at))
    ensures Filled(s, FieldSteps(s.mem, at), r, at, x) && Written(r.mem, at, x, 0)
  {
    hide PersistentMemory.Exec;
    hide Held;
    hide Filled;
    hide NodeSet;
    NodeParts(at, x);
    HeldRoom(s, at, x);
    var p, q, z := [Store(at + 1, 0)], [Store(at, 0)], [Store(at + 2, SetLow(s.mem[at + 2], 1))];
    var a := FilledOne(s, at, x, at + 1, 0);
    var b := FilledOne(a, at, x, at, 0);
    FilledMore(s, p, a, q, b, at, x);
    r := FilledOne(b, at, x, at + 2, SetLow(s.mem[at + 2], 1));
    FilledMore(s, p + q, b, z, r, at, x);
    HeldSane(s, at, x);
    FieldsRun(s, at);
  }

  lemma NodeFilled(s: Pm, at: nat, x: seq<nat>) returns (r: Pm)
    requires Held(s, at, x) && Text(x)
    ensures r == Exec(s, NodeSteps(s.mem, at, x))
    ensures Filled(s, NodeSteps(s.mem, at, x), r, at, x) && Written(r.mem, at, x, |x| + 1)
  {
    hide PersistentMemory.Exec;
    hide Held;
    hide Filled;
    hide Written;
    hide FieldSteps;
    hide TextSteps;
    var a := FieldsFilled(s, at, x);
    HeldSane(s, at, x);
    MemoryOf(s, FieldSteps(s.mem, at));
    FilledHeld(s, FieldSteps(s.mem, at), a, at, x);
    r := TextFilled(a, at, x, 0);
    FilledMore(s, FieldSteps(s.mem, at), a, TextSteps(a.mem, at, x, 0), r, at, x);
    ExecConcat(s, FieldSteps(s.mem, at), TextSteps(a.mem, at, x, 0));
  }

  lemma HeldSane(s: Pm, at: nat, x: seq<nat>)
    requires Held(s, at, x)
    ensures Sane(s)
  {
  }

  lemma FilledHeld(s: Pm, prog: seq<Instr>, r: Pm, at: nat, x: seq<nat>)
    requires Filled(s, prog, r, at, x)
    ensures Held(r, at, x) && Quiet(s, Chain(s.mem)) && Quiet(r, Chain(r.mem)) && Sight(r) == Sight(s)
    ensures Chain(r.mem) == Chain(s.mem) && Did(s, prog, r) && (TidyBut(s, at - 8) ==> TidyBut(r, at - 8))
  {
  }

  // ---------------------------------------------------------------------------------------
  // Hanging it in
  // ---------------------------------------------------------------------------------------

  /** The call turned s into r and did what an insertion below `slot` does, or nothing. */
  ghost predicate Grew(s: Pm, prog: seq<Instr>, r: Pm, slot: nat, t: Tree, x: seq<nat>, at: nat, ok: bool) {
    && Quiet(s, Chain(s.mem)) && Quiet(r, Chain(r.mem)) && r == Exec(s, prog) && Did(s, prog, r)
    && (Tidy(s) ==> Tidy(r))
    && if ok then at >= 8 && GrewWords(Sight(s).words, Sight(r).words, slot, t, x, at)
                  && GrewLive(Sight(s).live, Sight(r).live, t, x, at)
       else r == s
  }

  lemma Pledging(s: Pm, at: nat, x: seq<nat>, slot: nat) returns (a: Pm)
    requires Held(s, at, x) && slot in Sight(s).words
    ensures at >= 8 && at <= |s.mem| && FreeSlot(s.mem, at - 8) < 3
    ensures var p := RegisterSteps(at - 8, FreeSlot(s.mem, at - 8), 8 * slot, 8 * at);
            && a == Exec(s, p) && a.mem == Memory(s.mem, p) && Did(s, p, a)
    ensures Registered(a.mem, s.mem, at - 8, 8 * slot, 8 * at)
    ensures Quiet(a, Chain(a.mem)) && Chain(a.mem) == Chain(s.mem) && Sight(a) == Sight(s)
  {
    hide PersistentMemory.Exec;
    hide Chain;
    hide Quiet;
    hide Did;
    hide Registered;
    hide RegisterSteps;
    hide Atomically;
    hide FreeSlot;
    HeldQuiet(s, at, x);
    HeldSane(s, at, x);
    HeldRegisters(s, at, x, slot);
    var hs, h := Chain(s.mem), at - 8;
    RegisterReady(s, hs, h, RESERVED, 8 * slot);
    RegisterDone(s, hs, h, 8 * slot, 8 * at);
    var p := RegisterSteps(h, FreeSlot(s.mem, h), 8 * slot, 8 * at);
    a := Exec(s, p);
    MemoryOf(s, p);
    assert Called(s, FIRST, Command.OnActive(h, 8 * slot, 8 * at), a);
    DidCall(s, FIRST, Command.OnActive(h, 8 * slot, 8 * at), a);
  }

  /** The moment the node becomes part of the tree. */
  lemma NodeHung(s: Pm, at: nat, x: seq<nat>, slot: nat) returns (r: Pm)
    requires Held(s, at, x) && Written(s.mem, at, x, |x| + 1) && Text(x)
    requires Planted(Sight(s).words, slot, Leaf)
    ensures r == Exec(s, HangSteps(s.mem, at, slot)) && Quiet(s, Chain(s.mem)) && Quiet(r, Chain(r.mem))
    ensures Chain(r.mem) == Chain(s.mem) && (TidyBut(s, at - 8) ==> Tidy(r))
    ensures Did(s, HangSteps(s.mem, at, slot), r)
    ensures GrewWords(Sight(s).words, Sight(r).words, slot, Leaf, x, at)
    ensures GrewLive(Sight(s).live, Sight(r).live, Leaf, x, at)
  {
    hide PersistentMemory.Exec;
    hide Chain;
    hide Quiet;
    hide Held;
    hide Pledged;
    hide Called;
    hide Did;
    hide Registered;
    hide Committed;
    hide ViewAfter;
    hide ActivateSteps;
    hide RegisterSteps;
    hide NodeAt;
    hide Legal;
    hide Index;
    hide Bounds;
    hide FreeSlot;
    hide TidyBut;
    hide GrewWords;
    hide GrewLive;
    hide Written;
    HeldQuiet(s, at, x);
    var h := at - 8;
    var a := Pledging(s, at, x, slot);
    PledgeKeepsNode(s, at, x, slot, a);
    PledgedReady(a, at, x, slot);
    var hs := Chain(s.mem);
    CommitWell(a, hs, h, Index(hs, h));
    CommitSizes(s, a, hs, h, 8 * slot, 8 * at);
    r := Exec(a, ActivateSteps(a.mem, h));
    DidActivate(a, h, r);
    var p := RegisterSteps(h, FreeSlot(s.mem, h), 8 * slot, 8 * at);
    DidMore(s, p, a, ActivateSteps(a.mem, h), r);
    ExecConcat(s, p, ActivateSteps(a.mem, h));
    HungGrows(a, at, x, slot, r);
    if TidyBut(s, h) { ActivatedTidy(s, a.mem, at, x, slot, r); }
  }

  lemma CommitSizes(s: Pm, a: Pm, hs: seq<nat>, h: nat, off: nat, v: nat)
    requires Bounds(hs, |a.mem|) && Legal(a.mem, hs, FIRST, Command.Activate(h)) && Registered(a.mem, s.mem, h, off, v)
    ensures h + 8 <= |a.mem| == |s.mem| && s.mem[h] == a.mem[h] >= 64
  {
  }

  // ---------------------------------------------------------------------------------------
  // The search for the place
  // ---------------------------------------------------------------------------------------

  /** The comparison in memory is that of the words. */
  lemma {:induction false} ComparesText(m: Image, p: nat, count: nat, text: seq<nat>, x: seq<nat>, i: nat)
    requires NodeAt(Whole(m), p, count, text) && Text(x)
    requires i <= |x| && i <= |text| && x[..i] == text[..i]
    ensures CompareFrom(m, p, x, i) == Compare(x, text)
    decreases |x| - i
  {
    CompareDrop(x, text, i);
    assert CharAt(Whole(m), p, i, Char(text, i));
    if i < |x| && i < |text| && x[i] == text[i] {
      assert x[..i + 1] == x[..i] + [x[i]] && text[..i + 1] == text[..i] + [text[i]];
      ComparesText(m, p, count, text, x, i + 1);
    }
  }

  // ---------------------------------------------------------------------------------------
  // The whole call
  // ---------------------------------------------------------------------------------------

  /** The search finds nothing, or a clump of the chain. */
  ghost predicate TakesClump(m: Image, cursor: nat, x: seq<nat>) {
    NodeFit(m, cursor, x) != 0 ==> IsClump(m, NodeFit(m, cursor, x))
  }

  /** It does when it starts at a clump of the chain. */
  lemma ClumpTakesClump(s: Pm, cursor: nat, x: seq<nat>)
    requires Quiet(s, Chain(s.mem)) && IsClump(s.mem, cursor)
    ensures TakesClump(s.mem, cursor, x)
  {
    hide Chain;
    var m, hs, bytes := s.mem, Chain(s.mem), ClumpBytes(NodeSize(x));
    FitIs(m, hs, Index(hs, cursor), bytes);
    IndexUnique(hs, |m|, FirstFit(m, hs, Index(hs, cursor), bytes));
  }

  /** All that counts is where the search ends. */
  lemma FitAgain(m: Image, cursor: nat, slot: nat, x: seq<nat>)
    requires NodeFit(m, cursor, x) != 0
    ensures var c := NodeFit(m, cursor, x);
            NodeFit(m, c, x) == c && HereSteps(m, c, slot, x) == HereSteps(m, cursor, slot, x)
  {
    hide ClumpBytes;
    hide NodeSize;
    hide ReserveSteps;
    hide NodeSteps;
    hide HangSteps;
    hide Memory;
    FitTwice(m, cursor, ClumpBytes(NodeSize(x)));
  }

  lemma {:induction false} FitTwice(m: Image, h: nat, bytes: nat)
    requires Fit(m, h, bytes) != 0
    ensures Fit(m, Fit(m, h, bytes), bytes) == Fit(m, h, bytes)
    decreases |m| - h
  {
    if !Fits(m[h], bytes) { FitTwice(m, h + Span(m[h]), bytes); }
  }

  /** Doing nothing. */
  lemma NothingDone(s: Pm)
    requires Quiet(s, Chain(s.mem))
    ensures Did(s, [], s) && Exec(s, []) == s
  {
    hide PersistentMemory.Exec;
    hide Chain;
    hide ClumpOk;
    hide Clump;
    ExecNothing(s);
    QuietSafe(s, Chain(s.mem));
    LiveActive(s);
    var live := Sight(s).live.Keys;
    QuietRests(s, Chain(s.mem), live);
    RestSafe(s, HeaderWords(live));
    assert {Sight(s), Sight(s)} == {Sight(s)};
    forall img | Survives(s.may, img) ensures img in Heirs(s) {
      assert img in Showing({Sight(s)}) && img in Keeping(s.mem, HeaderWords(live));
      CutInherits(s, img, {});
    }
  }

  lemma HereGrown(s: Pm, cursor: nat, slot: nat, x: seq<nat>) returns (r: Pm)
    requires Quiet(s, Chain(s.mem)) && TakesClump(s.mem, cursor, x) && Text(x) && NodeSize(x) + 127 < TWO_64
    requires Planted(Sight(s).words, slot, Leaf)
    ensures var c := NodeFit(s.mem, cursor, x);
            && Grew(s, HereSteps(s.mem, cursor, slot, x), r, slot, Leaf, x, c + 8, c != 0)
            && (c != 0 ==> IsClump(r.mem, c) && Rechained(s.mem, r.mem, c, x))
  {
    hide PersistentMemory.Exec;
    hide Chain;
    hide Quiet;
    hide NodeFit;
    hide Did;
    hide Planted;
    hide TidyBut;
    hide NodeSize;
    hide GrewWords;
    hide GrewLive;
    hide NodeSteps;
    hide HangSteps;
    hide ReserveProgram;
    hide Memory;
    hide IsClump;
    hide Rechained;
    if NodeFit(s.mem, cursor, x) == 0 {
      NothingDone(s);
      r := s;
    } else {
      FitAgain(s.mem, cursor, slot, x);
      r := NodeGrown(s, NodeFit(s.mem, cursor, x), slot, x);
    }
  }

  lemma NodeGrown(s: Pm, c: nat, slot: nat, x: seq<nat>) returns (r: Pm)
    requires Quiet(s, Chain(s.mem)) && IsClump(s.mem, c) && Text(x) && NodeSize(x) + 127 < TWO_64
    requires Planted(Sight(s).words, slot, Leaf) && NodeFit(s.mem, c, x) == c != 0
    ensures Grew(s, HereSteps(s.mem, c, slot, x), r, slot, Leaf, x, c + 8, true)
    ensures IsClump(r.mem, c) && Rechained(s.mem, r.mem, c, x)
  {
    hide PersistentMemory.Exec;
    hide Chain;
    hide Quiet;
    hide Held;
    hide Filled;
    hide Written;
    hide Did;
    hide TidyBut;
    hide GrewWords;
    hide GrewLive;
    hide NodeSteps;
    hide HangSteps;
    hide ReserveProgram;
    hide NodeSize;
    hide Planted;
    hide HereSteps;
    hide ClumpBytes;
    var p := ReserveProgram(s.mem, c, NodeSize(x));
    var a := ReservedNode(s, c, x);
    HeldCursor(a, c + 8, x);
    var b := NodeFilled(a, c + 8, x);
    var q := NodeSteps(a.mem, c + 8, x);
    FilledHeld(a, q, b, c + 8, x);
    r := NodeHung(b, c + 8, x, slot);
    var z := HangSteps(b.mem, c + 8, slot);
    QuietSane(s);
    QuietSane(a);
    HereRuns(s, c, slot, x, a, b);
    DidMore(s, p, a, q, b);
    DidMore(s, p + q, b, z, r);
  }

  /** One more of a word that is there. */
  lemma BumpGrown(s: Pm, slot: nat, x: seq<nat>, t: Tree, at: nat) returns (r: Pm)
    requires Quiet(s, Chain(s.mem)) && t.Node? && Compare(x, t.text) == 0 && at >= 8
    requires Planted(Sight(s).words, slot, t) && Apart(t) && slot !in Footprint(t)
    ensures Grew(s, BumpSteps(s.mem, t.at), r, slot, t, x, at, true)
    ensures Chain(r.mem) == Chain(s.mem) && TrailsKept(s.mem, r.mem)
  {
    hide PersistentMemory.Exec;
    hide Chain;
    hide Quiet;
    hide Called;
    hide Did;
    hide GrewWords;
    hide Planted;
    hide Tidy;
    BumpReady(s, slot, t);
    var w := t.at + 2;
    r := Poked(s, w, SetLow(s.mem[w], (Low(s.mem[w]) + 1) % TWO_32));
    GrewCount(Sight(s).words, slot, t, x, at);
  }

  lemma Poked(s: Pm, w: nat, v: nat) returns (r: Pm)
    requires Quiet(s, Chain(s.mem)) && w in Sight(s).words
    ensures r == Exec(s, [Store(w, v), Persist(8 * w, 4)]) && Did(s, [Store(w, v), Persist(8 * w, 4)], r)
    ensures Quiet(r, Chain(r.mem)) && Chain(r.mem) == Chain(s.mem) && (Tidy(s) ==> Tidy(r))
    ensures TrailsKept(s.mem, r.mem)
    ensures Sight(r) == Sight(s).(words := Sight(s).words[w := v])
  {
    hide PersistentMemory.Exec;
    hide Chain;
    hide Quiet;
    hide Called;
    hide Did;
    hide Tidy;
    hide Living;
    QuietReads(s, Chain(s.mem));
    PokeLegal(s, w, v);
    PokeDone(s, Chain(s.mem), w, v, 4);
    r := Exec(s, [Store(w, v), Persist(8 * w, 4)]);
    ExecTwo(s, Store(w, v), Persist(8 * w, 4));
    DidCall(s, FIRST, Command.Poke(w, v, 4), r);
    if Tidy(s) { PokedTidy(s, w, v, r); }
    PokedTrails(s, w, v, r.mem);
  }

  lemma PokedTrails(s: Pm, w: nat, v: nat, b: Image)
    requires Quiet(s, Chain(s.mem)) && w < |s.mem| && Visible(Living(s.mem, Chain(s.mem)), w)
    requires b == s.mem[w := v] && Chain(b) == Chain(s.mem)
    ensures TrailsKept(s.mem, b)
  {
    hide PersistentMemory.Exec;
    hide Chain;
    hide ClumpOk;
    hide Clump;
    hide TrailsKept;
    SeenTrails(s.mem, b, w);
  }

  lemma PokeLegal(s: Pm, w: nat, v: nat)
    requires Quiet(s, Chain(s.mem)) && w < |s.mem| && Visible(Living(s.mem, Chain(s.mem)), w)
    ensures Bounds(Chain(s.mem), |s.mem|) && Legal(s.mem, Chain(s.mem), FIRST, Command.Poke(w, v, 4))
  {
  }

  /** The descent ends at the node of the word if the tree has one, and at an empty pointer if not. */
  lemma {:induction false} DescendFinds(s: Pm, slot: nat, x: seq<nat>, t: Tree, depth: nat)
    requires Quiet(s, Chain(s.mem)) && Text(x) && Planted(Sight(s).words, slot, t) && depth > Nodes(t)
    ensures var place := Descend(s.mem, slot, x, depth); if Finds(t, x) then place.Found? else place.Empty?
    decreases t
  {
    hide Chain;
    hide Quiet;
    hide CompareFrom;
    hide Planted;
    hide Compare;
    SlotRead(s, slot, t);
    if t.Node? {
      PlantedParts(s, slot, t);
      ComparesText(s.mem, t.at, t.count, t.text, x, 0);
      if Compare(x, t.text) < 0 { DescendFinds(s, t.at, x, t.left, depth - 1); }
      if Compare(x, t.text) > 0 { DescendFinds(s, t.at + 1, x, t.right, depth - 1); }
    }
  }

  /** The node of the new word. */
  ghost function PlaceNode(m: Image, cursor: nat, x: seq<nat>): nat { NodeFit(m, cursor, x) + 8 }

  /** The call for the subtree at `slot`: the word is added or its count bumped; nothing happens, and
      the word is not there, exactly if there is no room. */
  lemma {:induction false} SubtreeGrown(s: Pm, cursor: nat, slot: nat, x: seq<nat>, t: Tree, depth: nat) returns (r: Pm)
    requires Quiet(s, Chain(s.mem)) && Text(x) && NodeSize(x) + 127 < TWO_64
    requires Finds(t, x) || TakesClump(s.mem, cursor, x)
    requires Planted(Sight(s).words, slot, t) && Apart(t) && slot !in Footprint(t) && depth > Nodes(t)
    ensures var place := Descend(s.mem, slot, x, depth);
            && Grew(s, PlaceSteps(s.mem, cursor, x, place), r, slot, t, x, PlaceNode(s.mem, cursor, x),
                    PlaceOk(s.mem, cursor, x, place))
            && (if Finds(t, x) then place.Found? && Chain(r.mem) == Chain(s.mem) && TrailsKept(s.mem, r.mem)
                else place.Empty?)
            && (place.Empty? && NodeFit(s.mem, cursor, x) != 0 ==>
                  IsClump(r.mem, NodeFit(s.mem, cursor, x)) && Rechained(s.mem, r.mem, NodeFit(s.mem, cursor, x), x))
    decreases t
  {
    hide PersistentMemory.Exec;
    hide Chain;
    hide Quiet;
    hide Did;
    hide GrewWords;
    hide GrewLive;
    hide NodeAt;
    hide NodeSet;
    hide HereSteps;
    hide BumpSteps;
    hide NodeFit;
    hide NodeSize;
    hide CompareFrom;
    hide Grew;
    hide Planted;
    hide IsClump;
    hide Rechained;
    hide Footprint;
    hide TrailsKept;
    SlotRead(s, slot, t);
    if t.Node? { PlantedParts(s, slot, t); }
    var at := PlaceNode(s.mem, cursor, x);
    if t.Leaf? {
      r := HereGrown(s, cursor, slot, x);
    } else {
      ComparesText(s.mem, t.at, t.count, t.text, x, 0);
      ApartParts(t);
      if Compare(x, t.text) == 0 {
        r := BumpGrown(s, slot, x, t, at);
      } else {
        var left := Compare(x, t.text) < 0;
        r := SubtreeGrown(s, cursor, if left then t.at else t.at + 1, x, if left then t.left else t.right, depth - 1);
        GrewSide(s, PlaceSteps(s.mem, cursor, x, Descend(s.mem, slot, x, depth)), r, slot, t, x, at,
                 Finds(t, x) || NodeFit(s.mem, cursor, x) != 0);
      }
    }
  }

  lemma PlantedParts(s: Pm, slot: nat, t: Tree)
    requires Quiet(s, Chain(s.mem)) && Planted(Sight(s).words, slot, t) && t.Node?
    ensures Planted(Sight(s).words, t.at, t.left) && Planted(Sight(s).words, t.at + 1, t.right)
    ensures NodeAt(Whole(s.mem), t.at, t.count, t.text)
  {
    WholePlanted(s, slot, t);
  }

  /** One level up. */
  lemma GrewSide(s: Pm, prog: seq<Instr>, r: Pm, slot: nat, t: Tree, x: seq<nat>, at: nat, ok: bool)
    requires Quiet(s, Chain(s.mem)) && t.Node? && Compare(x, t.text) != 0
    requires Planted(Sight(s).words, slot, t) && Apart(t) && slot !in Footprint(t)
    requires if Compare(x, t.text) < 0 then Grew(s, prog, r, t.at, t.left, x, at, ok)
             else Grew(s, prog, r, t.at + 1, t.right, x, at, ok)
    ensures Grew(s, prog, r, slot, t, x, at, ok)
  {
    hide PersistentMemory.Exec;
    hide Chain;
    hide Quiet;
    hide Did;
    hide Tidy;
    hide Planted;
    hide GrewWords;
    if ok {
      if Compare(x, t.text) < 0 {
        GrewLeft(Sight(s).words, Sight(r).words, slot, t, x, at);
      } else {
        GrewRight(Sight(s).words, Sight(r).words, slot, t, x, at);
      }
    }
  }

  /** What a program has done to a pool that shows the tree t and nothing else. */
  ghost predicate Inserted(s: Pm, prog: seq<Instr>, r: Pm, t: Tree, x: seq<nat>, at: nat, ok: bool) {
    && Quiet(s, Chain(s.mem)) && Quiet(r, Chain(r.mem)) && Holds(Sight(s), t)
    && r == Exec(s, prog) && Did(s, prog, r) && (Tidy(s) ==> Tidy(r))
    && (ok ==> at >= 8 && Holds(Sight(r), Grown(t, x, at)) && GrewLive(Sight(s).live, Sight(r).live, t, x, at))
    && (!ok ==> r == s && x !in Entries(t))
  }

  lemma WordInserted(s: Pm, cursor: nat, x: seq<nat>, t: Tree) returns (r: Pm)
    requires Quiet(s, Chain(s.mem)) && Text(x) && NodeSize(x) + 127 < TWO_64
    requires Holds(Sight(s), t) && (Finds(t, x) || TakesClump(s.mem, cursor, x))
    ensures Inserted(s, InsertSteps(s.mem, cursor, x), r, t, x, PlaceNode(s.mem, cursor, x), InsertOk(s.mem, cursor, x))
    ensures InsertOk(s.mem, cursor, x) <==> Finds(t, x) || NodeFit(s.mem, cursor, x) != 0
    ensures var c := NodeFit(s.mem, cursor, x);
            if Finds(t, x) || c == 0 then InsertCursor(s.mem, cursor, x) == cursor
            else InsertCursor(s.mem, cursor, x) == c && IsClump(r.mem, c) && Rechained(s.mem, r.mem, c, x)
    ensures !Finds(t, x) && NodeFit(s.mem, cursor, x) != 0 ==> HoldsNode(s.mem, r.mem, NodeFit(s.mem, cursor, x), |x|)
    ensures IsClump(s.mem, cursor) ==> IsClump(r.mem, InsertCursor(s.mem, cursor, x))
    ensures OnTrail(s.mem, cursor) ==> OnTrail(r.mem, InsertCursor(s.mem, cursor, x))
  {
    hide PersistentMemory.Exec;
    hide Chain;
    hide Quiet;
    hide Did;
    hide GrewWords;
    hide GrewLive;
    hide NodeFit;
    hide NodeSize;
    hide IsClump;
    hide Tidy;
    hide PlaceSteps;
    hide Planted;
    hide Descend;
    hide Grown;
    hide OnTrail;
    hide Rechained;
    hide HoldsNode;
    TreeSmall(s, t);
    r := SubtreeGrown(s, cursor, STATIC_WORD, x, t, |s.mem| + 1);
    FindsEntries(t, x);
    if Finds(t, x) { SameClumps(s.mem, r.mem); }
    if !Finds(t, x) && NodeFit(s.mem, cursor, x) != 0 { RechainedHolds(s, cursor, x, r.mem); }
    if IsClump(r.mem, InsertCursor(s.mem, cursor, x)) { ClumpOnTrail(r, InsertCursor(s.mem, cursor, x)); }
    if InsertOk(s.mem, cursor, x) { GrewHolds(Sight(s), Sight(r), t, x, PlaceNode(s.mem, cursor, x)); }
  }

  lemma ClumpOnTrail(s: Pm, c: nat)
    requires Quiet(s, Chain(s.mem)) && IsClump(s.mem, c)
    ensures OnTrail(s.mem, c)
  {
  }

  /** The pool still shows its tree and nothing else. */
  lemma InsertedMarked(s: Pm, prog: seq<Instr>, r: Pm, t: Tree, x: seq<nat>, at: nat, ok: bool)
    requires Marked(s, t) && Inserted(s, prog, r, t, x, at, ok)
    ensures Marked(r, if ok then Grown(t, x, at) else t)
    ensures NoneFull(s.mem, t) ==> NoneFull(r.mem, if ok then Grown(t, x, at) else t)
    ensures ok ==> Entries(Grown(t, x, at)) == Bumped(Entries(t), x)
  {
    hide PersistentMemory.Exec;
    hide Chain;
    hide Quiet;
    hide Did;
    hide GrewLive;
    hide Grown;
    hide TidyBut;
    hide Noted;
    hide NoneFull;
    DidMarks(s, prog, r, t, x, at, ok);
    GrownCounts(t, x, at);
  }

  // ---------------------------------------------------------------------------------------
  // Steps of the code
  // ---------------------------------------------------------------------------------------

  lemma CalledRuns(s: Pm, cursor: nat, cmd: Command, r: Pm)
    requires Called(s, cursor, cmd, r)
    ensures r == Exec(s, CallSteps(s.mem, Chain(s.mem), cursor, cmd))
  {
  }

  lemma NextChar(m: Image, at: nat, x: seq<nat>, i: nat, done: seq<Instr>)
    requires i <= |x| && CharWord(at, i) < |m|
    ensures var w := CharWord(at, i); var v := SetDigit(m[w], (i + 4) % 8, Char(x, i));
            done + TextSteps(m, at, x, i) == done + [Store(w, v)] + TextSteps(m[w := v], at, x, i + 1)
  {
  }

  lemma TextOver(m: Image, at: nat, x: seq<nat>, done: seq<Instr>)
    ensures done + TextSteps(m, at, x, |x| + 1) == done
  {
  }

  lemma HeldWord(s: Pm, at: nat, x: seq<nat>, i: nat)
    requires Held(s, at, x) && i <= |x|
    ensures CharWord(at, i) in NodeSet(at, x) && CharWord(at, i) < |s.mem|
  {
    NodeParts(at, x);
    HeldRoom(s, at, x);
  }

  lemma FieldsRun(s: Pm, at: nat)
    requires Sane(s) && at + 2 < |s.mem|
    ensures var p, q, z := [Store(at + 1, 0)], [Store(at, 0)], [Store(at + 2, SetLow(s.mem[at + 2], 1))];
            Exec(s, FieldSteps(s.mem, at)) == Exec(Exec(Exec(s, p), q), z) && FieldSteps(s.mem, at) == p + q + z
  {
    hide PersistentMemory.Exec;
    var p, q, z := [Store(at + 1, 0)], [Store(at, 0)], [Store(at + 2, SetLow(s.mem[at + 2], 1))];
    ExecConcat(s, p, q);
    ExecConcat(s, p + q, z);
    assert FieldSteps(s.mem, at) == p + q + z;
  }

  lemma ReservedWhere(s: Pm, cursor: nat, x: seq<nat>, ptr: nat, b: Image, gs: seq<nat>)
    requires Quiet(s, Chain(s.mem)) && IsClump(s.mem, cursor) && NodeSize(x) + 127 < TWO_64
    requires ReserveResult(s.mem, Chain(s.mem), cursor, NodeSize(x), ptr, b, gs)
    ensures var c := NodeFit(s.mem, cursor, x); ptr == if c == 0 then 0 else 8 * (c + 8)
    ensures NodeFit(s.mem, cursor, x) == 0 ==>
              ReserveProgram(s.mem, cursor, NodeSize(x)) == [] && forall slot :: HereSteps(s.mem, cursor, slot, x) == []
  {
    hide PersistentMemory.Exec;
    hide Chain;
    hide Carved;
    hide ReservedChain;
    FitIs(s.mem, Chain(s.mem), Index(Chain(s.mem), cursor), ClumpBytes(NodeSize(x)));
  }

  lemma QuietSane(s: Pm)
    requires Quiet(s, Chain(s.mem))
    ensures Sane(s)
  {
  }

  lemma HereRuns(s: Pm, cursor: nat, slot: nat, x: seq<nat>, a: Pm, b: Pm)
    requires Sane(s) && Sane(a) && NodeFit(s.mem, cursor, x) != 0
    requires a == Exec(s, ReserveProgram(s.mem, cursor, NodeSize(x)))
    requires b == Exec(a, NodeSteps(a.mem, NodeFit(s.mem, cursor, x) + 8, x))
    ensures var c, p := NodeFit(s.mem, cursor, x), ReserveProgram(s.mem, cursor, NodeSize(x));
            && HereSteps(s.mem, cursor, slot, x) == p + NodeSteps(a.mem, c + 8, x) + HangSteps(b.mem, c + 8, slot)
            && Exec(s, HereSteps(s.mem, cursor, slot, x)) == Exec(b, HangSteps(b.mem, c + 8, slot))
  {
    hide PersistentMemory.Exec;
    hide ReserveProgram;
    hide NodeSteps;
    hide HangSteps;
    hide NodeSize;
    var c, p := NodeFit(s.mem, cursor, x), ReserveProgram(s.mem, cursor, NodeSize(x));
    var q := NodeSteps(a.mem, c + 8, x);
    MemoryOf(s, p);
    MemoryOf(a, q);
    ExecConcat(s, p, q);
    ExecConcat(s, p + q, HangSteps(b.mem, c + 8, slot));
  }

  /** A search that finds nothing has met no free clump that is large enough. */
  lemma NoClumpFits(s: Pm, cursor: nat, x: seq<nat>)
    requires Quiet(s, Chain(s.mem)) && IsClump(s.mem, cursor) && NodeFit(s.mem, cursor, x) == 0
    ensures var m, hs := s.mem, Chain(s.mem);
            forall i :: Index(hs, cursor) <= i < |hs| - 1 ==> !Fits(m[hs[i]], ClumpBytes(NodeSize(x)))
  {
    hide Chain;
    FitIs(s.mem, Chain(s.mem), Index(Chain(s.mem), cursor), ClumpBytes(NodeSize(x)));
  }

  /** What the recursion does when the search starts at a clump. */
  lemma SubtreeInserted(s: Pm, cursor: nat, slot: nat, x: seq<nat>, t: Tree, depth: nat) returns (r: Pm)
    requires Quiet(s, Chain(s.mem)) && IsClump(s.mem, cursor) && Text(x) && NodeSize(x) + 127 < TWO_64
    requires Planted(Sight(s).words, slot, t) && Apart(t) && slot !in Footprint(t) && depth > Nodes(t)
    ensures var m, place := s.mem, Descend(s.mem, slot, x, depth);
            && r == Exec(s, PlaceSteps(m, cursor, x, place))
            && Grew(s, PlaceSteps(m, cursor, x, place), r, slot, t, x, PlaceNode(m, cursor, x),
                    PlaceOk(m, cursor, x, place))
            && IsClump(r.mem, PlaceCursor(m, cursor, x, place))
            && (!PlaceOk(m, cursor, x, place) ==> !Finds(t, x) && NodeFit(m, cursor, x) == 0)
  {
    hide PersistentMemory.Exec;
    hide Chain;
    hide Quiet;
    hide Did;
    hide TidyBut;
    hide GrewWords;
    hide GrewLive;
    hide PlaceSteps;
    hide Descend;
    hide NodeFit;
    hide Planted;
    hide IsClump;
    hide Rechained;
    ClumpTakesClump(s, cursor, x);
    r := SubtreeGrown(s, cursor, slot, x, t, depth);
    if Finds(t, x) { SameClumps(s.mem, r.mem); }
  }
}
