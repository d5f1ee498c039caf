/** The first insertions into a new pool, word by word. */
module SmallRuns {
  import opened PersistentMemory
  import opened PoolImage
  import opened RecoveryFacts
  import opened Activation
  import opened Rechaining
  import opened Coalescing
  import opened Reserving
  import opened Calls
  import Runs
  import StaleCursor
  import opened Allocator
  import opened ByteWords
  import opened WordTrees
  import opened WordTreeSteps
  import opened Pruning
  import opened TakingDown
  import opened WordPrograms
  import opened WordInserts
  import opened WordFrees
  import opened WordRuns

  /** A new pool, opened: one free clump. */
  lemma FreshPool(size: nat) returns (s: Pm)
    requires size >= 8 * MIN_WORDS
    ensures Next(Down(NewPool(size)), Open, Up(s, FIRST)) && Marked(s, Leaf) && |s.mem| >= MIN_WORDS - 8
    ensures Chain(s.mem) == [FIRST, LastHeader(|s.mem|)] && State(s.mem[FIRST]) == FREE
  {
    hide PersistentMemory.Exec;
    hide Chain;
    hide ClumpOk;
    hide Clump;
    hide ViewOf;
    hide Marked;
    hide MarkedFile;
    hide RestartSteps;
    hide CoalescedFrom;
    hide SameUse;
    var file := NewPool(size);
    NewPoolMarked(size);
    NewPoolRecoverable(size);
    BootClean(file);
    var gs;
    s, gs := RestartAtomic(file, Chain(file));
    ChainUnique(s.mem, gs);
    OpenedMarked(file, Leaf, s);
    EmptyChain(s);
  }

  /** The clump of a word of one letter. */
  lemma LetterSize(x: seq<nat>)
    requires |x| == 1 && 0 < x[0] < 256
    ensures ClumpBytes(NodeSize(x)) == 128 && Proper(x) && NodeWords(x) == 3
  {
  }

  /** An insertion into a pool whose clump k, and none before it from the cursor on, is free and
      large: the clump is split. */
  lemma SplitInsert(s: Pm, cursor: nat, x: seq<nat>, t: Tree, k: nat) returns (r: Pm)
    requires Marked(s, t) && Proper(x) && !Finds(t, x) && IsClump(s.mem, cursor)
    requires var hs := Chain(s.mem);
             && Bounds(hs, |s.mem|) && k < |hs| - 1 && Fits(s.mem[hs[k]], ClumpBytes(NodeSize(x)) + 128)
             && FirstFit(s.mem, hs, Runs.Index(hs, cursor), ClumpBytes(NodeSize(x))) == k
    ensures var hs, c := Chain(s.mem), NodeFit(s.mem, cursor, x);
            && c == hs[k] && Chain(r.mem) == Split(hs, k, c + ClumpBytes(NodeSize(x)) / 8)
            && Next(Up(s, cursor), Insert(x), Up(r, c)) && Marked(r, Grown(t, x, c + 8)) && IsClump(r.mem, c)
    ensures Grounded(s.mem, cursor, x) && |r.mem| == |s.mem|
    ensures NoneFull(s.mem, t) ==> NoneFull(r.mem, Grown(t, x, NodeFit(s.mem, cursor, x) + 8))
  {
    hide GrewLive;
    hide Bounds;
    hide PersistentMemory.Exec;
    hide Chain;
    hide Quiet;
    hide Holds;
    hide Noted;
    hide NoneFull;
    hide TidyBut;
    hide InsertSteps;
    hide IsClump;
    hide Descend;
    hide Did;
    hide Grown;
    hide ClumpBytes;
    hide NodeSize;
    hide Rechained;
    hide FirstFit;
    var hs := Chain(s.mem);
    MarkedQuiet(s, t);
    StaleCursor.QuietTiled(s, hs);
    FitIsAt(s, cursor, x, k);
    ClumpTakesClump(s, cursor, x);
    r := WordInserted(s, cursor, x, t);
    SplitChain(s.mem, r.mem, NodeFit(s.mem, cursor, x), x, k);
    InsertedMarked(s, InsertSteps(s.mem, cursor, x), r, t, x, NodeFit(s.mem, cursor, x) + 8, true);
  }

  lemma SplitChain(m: Image, b: Image, c: nat, x: seq<nat>, k: nat)
    requires Rechained(m, b, c, x) && Runs.Index(Chain(m), c) == k && Chain(m)[k] == c
    requires Fits(m[c], ClumpBytes(NodeSize(x)) + 128)
    ensures Chain(b) == Split(Chain(m), k, c + ClumpBytes(NodeSize(x)) / 8)
  {
    hide Chain;
    hide ClumpBytes;
    hide NodeSize;
  }

  lemma FitIsAt(s: Pm, cursor: nat, x: seq<nat>, k: nat)
    requires Quiet(s, Chain(s.mem)) && IsClump(s.mem, cursor) && k < |Chain(s.mem)| - 1
    requires FirstFit(s.mem, Chain(s.mem), Runs.Index(Chain(s.mem), cursor), ClumpBytes(NodeSize(x))) == k
    ensures NodeFit(s.mem, cursor, x) == Chain(s.mem)[k] != 0 && Runs.Index(Chain(s.mem), Chain(s.mem)[k]) == k
  {
    hide Chain;
    var hs := Chain(s.mem);
    FitIs(s.mem, hs, Runs.Index(hs, cursor), ClumpBytes(NodeSize(x)));
    Runs.IndexUnique(hs, |s.mem|, k);
  }

  lemma FirstWord(s: Pm, x: seq<nat>) returns (r: Pm, t: Tree)
    requires Marked(s, Leaf) && |s.mem| >= MIN_WORDS - 8 && |x| == 1 && 0 < x[0] < 256
    requires Chain(s.mem) == [FIRST, LastHeader(|s.mem|)] && State(s.mem[FIRST]) == FREE
    ensures Next(Up(s, FIRST), Insert(x), Up(r, FIRST)) && Firm(Up(s, FIRST), Insert(x))
    ensures t == Node(FIRST + 8, Leaf, 1, x, Leaf) && Marked(r, t) && NoneFull(r.mem, t) && IsClump(r.mem, FIRST)
    ensures |r.mem| == |s.mem| && Chain(r.mem) == [FIRST, FIRST + 16, LastHeader(|r.mem|)]
  {
    hide PersistentMemory.Exec;
    hide Chain;
    hide ClumpOk;
    hide Holds;
    hide Noted;
    hide TidyBut;
    hide InsertSteps;
    hide Grounded;
    hide ClumpBytes;
    hide NodeSize;
    var hs := Chain(s.mem);
    LetterSize(x);
    assert Clump(s.mem, hs, 0);
    FirstClump(s);
    Runs.IndexUnique(hs, |s.mem|, 0);
    r := SplitInsert(s, FIRST, x, Leaf, 0);
    t := Grown(Leaf, x, FIRST + 8);
  }

  lemma SecondWord(s: Pm, t: Tree, y: seq<nat>) returns (r: Pm, u: Tree)
    requires |s.mem| >= MIN_WORDS - 8 && Marked(s, t) && NoneFull(s.mem, t) && IsClump(s.mem, FIRST)
    requires t.Node? && t.at == FIRST + 8 && t.left.Leaf? && t.right.Leaf? && !Finds(t, y)
    requires |y| == 1 && 0 < y[0] < 256 && Chain(s.mem) == [FIRST, FIRST + 16, LastHeader(|s.mem|)]
    ensures Next(Up(s, FIRST), Insert(y), Up(r, FIRST + 16)) && Firm(Up(s, FIRST), Insert(y))
    ensures u == Grown(t, y, FIRST + 24) && Marked(r, u) && NoneFull(r.mem, u) && IsClump(r.mem, FIRST + 16)
    ensures |r.mem| == |s.mem| && Bytes(r.mem[FIRST + 16]) == 128
    ensures Chain(r.mem) == [FIRST, FIRST + 16, FIRST + 32, LastHeader(|r.mem|)]
  {
    hide PersistentMemory.Exec;
    hide Chain;
    hide ClumpOk;
    hide Holds;
    hide Noted;
    hide TidyBut;
    hide InsertSteps;
    hide Grounded;
    hide ClumpBytes;
    hide NodeSize;
    hide NodeFit;
    hide NoneFull;
    var hs := Chain(s.mem);
    LetterSize(y);
    MarkedQuiet(s, t);
    Runs.IndexUnique(hs, |s.mem|, 0);
    TwoClumps(s, t);
    r := SplitInsert(s, FIRST, y, t, 1);
    u := Grown(t, y, FIRST + 24);
    MarkedQuiet(r, u);
    assert Chain(r.mem) == [FIRST, FIRST + 16, FIRST + 32, LastHeader(|r.mem|)];
    assert Clump(r.mem, Chain(r.mem), 1);
  }

  /** The first clump is the node's, the second free and as large as can be. */
  lemma TwoClumps(s: Pm, t: Tree)
    requires |s.mem| >= MIN_WORDS - 8 && Marked(s, t) && t.Node? && t.at == FIRST + 8 && t.left.Leaf? && t.right.Leaf?
    requires Chain(s.mem) == [FIRST, FIRST + 16, LastHeader(|s.mem|)]
    ensures State(s.mem[FIRST]) == ACTIVE && Fits(s.mem[FIRST + 16], 256)
  {
    hide PersistentMemory.Exec;
    hide Chain;
    hide ClumpOk;
    hide Noted;
    var m, hs := s.mem, Chain(s.mem);
    QuietReads(s, hs);
    BareHeads(t);
    assert hs[0] in Living(m, hs) && hs[1] !in Living(m, hs);
    assert Clump(m, hs, 1) && !Transit(m[hs[1]]);
    ActiveLives(m, hs, 1);
  }

  lemma MarkedQuiet(s: Pm, t: Tree)
    requires Marked(s, t)
    ensures Quiet(s, Chain(s.mem))
  {
  }

  /** The six low bytes at the count: four of the count, then the text. */
  lemma LetterBytes(v: nat, c: nat)
    requires Low(v) == 1 && Digit(v, 4) == c && Digit(v, 5) == 0
    ensures v % 0x1_0000_0000_0000 == 1 + 0x1_0000_0000 * c
  {
    DigitHigh(v, 4);
    DigitHigh(v, 5);
    var w := v / TWO_32;
    assert Digit(w, 0) == w % 256 && Digit(w, 1) == Digit(w / 256, 0) == w / 256 % 256;
  }

  /** What a node of one letter is in memory. */
  lemma LetterNode(m: map<nat, nat>, at: nat, x: seq<nat>)
    requires NodeAt(m, at, 1, x) && |x| == 1
    ensures at + 2 in m && m[at + 2] % 0x1_0000_0000_0000 == 1 + 0x1_0000_0000 * x[0]
  {
    assert CharAt(m, at, 0, x[0]) && CharAt(m, at, 1, 0);
    LetterBytes(m[at + 2], x[0]);
  }

  /** A new pool after two different words of one letter, in numbers: the root pointer at byte 4096; the
      clumps of 128 bytes from byte 16384 on, in use; in each the left and the right pointer, the count
      of one in four bytes, and the letter with its NUL. */
  lemma TwoWords(size: nat, x: seq<nat>, y: seq<nat>) returns (xs: seq<Client>)
    requires size >= 0x10_0000 && |x| == |y| == 1 && x != y && 0 < x[0] < 256 && 0 < y[0] < 256
    ensures Run(xs, [Open, Insert(x), Insert(y)]) && xs[3].Up? && |xs[3].pm.mem| > 2074
    ensures var m := xs[3].pm.mem;
            && m[4096 / 8] == 16384 + 64
            && m[2048] == m[2064] == 128 + 3
            && m[2056] == (if y[0] < x[0] then 16512 + 64 else 0)
            && m[2057] == (if y[0] < x[0] then 0 else 16512 + 64)
            && m[2058] % 0x1_0000_0000_0000 == 1 + 0x1_0000_0000 * x[0]
            && m[2072] == m[2073] == 0
            && m[2074] % 0x1_0000_0000_0000 == 1 + 0x1_0000_0000 * y[0]
  {
    hide Next;
    hide Marked;
    hide Firm;
    hide IsClump;
    hide NoneFull;
    CompareEqual(y, x);
    var a := FreshPool(size);
    var b, t := FirstWord(a, x);
    var c, u := SecondWord(b, t, y);
    xs := [Down(NewPool(size)), Up(a, FIRST), Up(b, FIRST), Up(c, FIRST + 16)];
    TwoNodes(c, t, u, x, y);
    TwoHeads(c, u, x, y);
  }

  lemma TwoHeads(c: Pm, u: Tree, x: seq<nat>, y: seq<nat>)
    requires Marked(c, u) && u == Grown(Node(2056, Leaf, 1, x, Leaf), y, 2072) && x != y
    requires Chain(c.mem) == [2048, 2064, 2080, LastHeader(|c.mem|)]
    ensures |c.mem| > 2064 && c.mem[2048] == c.mem[2064] == 128 + 3
  {
    hide PersistentMemory.Exec;
    hide Chain;
    hide ClumpOk;
    hide Noted;
    hide Planted;
    hide Compare;
    CompareEqual(y, x);
    var m, hs := c.mem, Chain(c.mem);
    var v := Node(2072, Leaf, 1, y, Leaf);
    BareHeads(v);
    HeadsOf(u);
    HeadsOf(v);
    assert Heads(Leaf) == {};
    assert 2048 in Sight(c).live && 2064 in Sight(c).live;
    QuietReads(c, hs);
    assert Clump(m, hs, 0) && Clump(m, hs, 1);
  }

  lemma TwoNodes(c: Pm, t: Tree, u: Tree, x: seq<nat>, y: seq<nat>)
    requires Marked(c, u) && t == Node(2056, Leaf, 1, x, Leaf) && u == Grown(t, y, 2072)
    requires |x| == |y| == 1 && x != y
    ensures |c.mem| > 2074
    ensures var m := c.mem;
            && m[512] == 16448
            && m[2056] == (if y[0] < x[0] then 16576 else 0) && m[2057] == (if y[0] < x[0] then 0 else 16576)
            && m[2058] % 0x1_0000_0000_0000 == 1 + 0x1_0000_0000 * x[0]
            && m[2072] == m[2073] == 0
            && m[2074] % 0x1_0000_0000_0000 == 1 + 0x1_0000_0000 * y[0]
  {
    hide Chain;
    hide Quiet;
    hide Noted;
    hide TidyBut;
    hide NodeAt;
    assert Compare(y, x) == if y[0] < x[0] then -1 else 1;
    WholePlanted(c, STATIC_WORD, u);
    var v := Node(2072, Leaf, 1, y, Leaf);
    assert u == if y[0] < x[0] then t.(left := v) else t.(right := v);
    assert Planted(Whole(c.mem), if y[0] < x[0] then 2056 else 2057, v);
    PointerRead(c.mem, 512, u);
    PointerRead(c.mem, 2056, u.left);
    PointerRead(c.mem, 2057, u.right);
    PointerRead(c.mem, 2072, Leaf);
    PointerRead(c.mem, 2073, Leaf);
    LetterNode(Whole(c.mem), 2056, x);
    LetterNode(Whole(c.mem), 2072, y);
  }

  lemma PointerRead(m: Image, slot: nat, t: Tree)
    requires Planted(Whole(m), slot, t)
    ensures slot < |m| && m[slot] == if t.Leaf? then 0 else 8 * t.at
  {
  }
}
