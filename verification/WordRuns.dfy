/** Programs that insert words and take the tree down, power failures between any two stores, and
    restarts that may fail in turn: what the pool holds at every moment. */
module WordRuns {
  import opened PersistentMemory
  import opened PoolImage
  import opened RecoveryFacts
  import opened CrashSafety
  import opened Finishing
  import opened Activation
  import opened Coalescing
  import opened Registering
  import opened Calls
  import Runs
  import opened Allocator
  import opened Leftovers
  import opened ByteWords
  import opened WordTrees
  import opened WordTreeSteps
  import opened Pruning
  import opened TakingDown
  import opened Trails
  import opened WordPrograms
  import opened WordInserts
  import opened WordFrees

  // ---------------------------------------------------------------------------------------
  // The memory decides the tree
  // ---------------------------------------------------------------------------------------

  /** Text goes on before the terminator of another text in the same place. */
  lemma TextGoesOn(m: map<nat, nat>, at: nat, x: seq<nat>, y: seq<nat>, i: nat)
    requires TextAt(m, at, x) && TextAt(m, at, y) && i < |y|
    ensures i != |x|
  {
    assert CharAt(m, at, i, y[i]);
  }

  lemma TextUnique(m: map<nat, nat>, at: nat, x: seq<nat>, y: seq<nat>)
    requires TextAt(m, at, x) && TextAt(m, at, y)
    ensures x == y
  {
    var n := if |x| < |y| then |x| else |y|;
    forall i | 0 <= i < n ensures x[i] == y[i] { assert CharAt(m, at, i, x[i]) && CharAt(m, at, i, y[i]); }
    if |x| < |y| { TextGoesOn(m, at, x, y, |x|); }
    if |y| < |x| { TextGoesOn(m, at, y, x, |y|); }
  }

  lemma {:induction false} PlantedUnique(m: map<nat, nat>, slot: nat, t: Tree, u: Tree)
    requires Planted(m, slot, t) && Planted(m, slot, u)
    ensures t == u
    decreases t
  {
    hide TextAt;
    if t.Node? && u.Node? {
      TextUnique(m, t.at, t.text, u.text);
      PlantedUnique(m, t.at, t.left, u.left);
      PlantedUnique(m, t.at + 1, t.right, u.right);
    }
  }

  // ---------------------------------------------------------------------------------------
  // Crashes
  // ---------------------------------------------------------------------------------------

  /** What strlen and the size of a node ask of a word. */
  ghost predicate Proper(x: seq<nat>) { Text(x) && NodeSize(x) + 127 < TWO_64 }

  /** The insertion bumps a count, or it finds no room, or it takes a clump of the chain. */
  ghost predicate Grounded(m: Image, cursor: nat, x: seq<nat>) {
    Descend(m, STATIC_WORD, x, |m| + 1).Empty? ==> TakesClump(m, cursor, x)
  }

  lemma GroundedFinds(s: Pm, cursor: nat, x: seq<nat>, t: Tree)
    requires Marked(s, t) && Text(x) && Grounded(s.mem, cursor, x)
    ensures Finds(t, x) || TakesClump(s.mem, cursor, x)
  {
    hide TidyBut;
    hide Chain;
    hide Quiet;
    hide Descend;
    hide TakesClump;
    TreeSmall(s, t);
    DescendFinds(s, STATIC_WORD, x, t, |s.mem| + 1);
  }

  /** A crash anywhere in an insertion leaves a file that recovery turns into a pool with the old
      tree, or with the tree that has the word in it, and nothing else. */
  lemma InsertAllOrNothing(s: Pm, cursor: nat, x: seq<nat>, t: Tree, cut: nat, img: Image)
    requires Marked(s, t) && Proper(x) && Grounded(s.mem, cursor, x)
    requires cut <= |InsertSteps(s.mem, cursor, x)|
    requires Survives(Exec(s, InsertSteps(s.mem, cursor, x)[..cut]).may, img)
    ensures var u := Grown(t, x, PlaceNode(s.mem, cursor, x));
            && (MarkedFile(img, t) || (InsertOk(s.mem, cursor, x) && MarkedFile(img, u)))
            && Entries(u) == Bumped(Entries(t), x)
  {
    hide PersistentMemory.Exec;
    hide Chain;
    hide ClumpOk;
    hide Clump;
    hide ViewOf;
    hide Holds;
    hide Noted;
    hide NoneFull;
    hide After;
    hide InsertSteps;
    hide InsertOk;
    hide Grounded;
    hide TakesClump;
    var prog, at := InsertSteps(s.mem, cursor, x), PlaceNode(s.mem, cursor, x);
    GroundedFinds(s, cursor, x, t);
    var r := WordInserted(s, cursor, x, t);
    OrderedHolds(Sight(s), t);
    GrownCounts(t, x, at);
    GuardedEverywhere(s, prog, Showing({Sight(s), Sight(r)}), cut, img);
    GuardedEverywhere(s, prog, Heirs(s), cut, img);
    var u := ViewOf(img, Chain(img));
    if u == Sight(s) {
      SameMarks(s.mem, Sight(s), After(img), t);
    } else {
      GrownMarks(s.mem, Sight(s), After(img), u, t, x, at);
    }
  }

  lemma OrderedHolds(v: View, t: Tree)
    requires Holds(v, t)
    ensures Ordered(t)
  {
  }

  /** A crash anywhere in taking the tree down leaves a search tree of some of the nodes, with their
      counts, and nothing else in the pool. */
  lemma FreeLeavesTree(s: Pm, t: Tree, cut: nat, img: Image) returns (q: Tree)
    requires Marked(s, t) && cut <= |FreeAll(s.mem).prog|
    requires Survives(Exec(s, FreeAll(s.mem).prog[..cut]).may, img)
    ensures MarkedFile(img, q) && Prunes(q, t)
    ensures forall w :: w in Entries(q) ==> w in Entries(t) && Entries(t)[w] == Entries(q)[w]
  {
    hide PersistentMemory.Exec;
    hide Chain;
    hide ClumpOk;
    hide Clump;
    hide ViewOf;
    hide CutIn;
    hide Noted;
    hide NoneFull;
    hide After;
    hide FreeAll;
    hide Carried;
    var r, p := AllFreed(s, t);
    GuardedEverywhere(s, FreeAll(s.mem).prog, Cuts(Sight(s), s.mem, STATIC_WORD, t), cut, img);
    MarkedRemovable(s, t);
    q :| CutIn(Sight(s), s.mem, ViewOf(img, Chain(img)), After(img), STATIC_WORD, t, q);
    CutMarked(Sight(s), s.mem, ViewOf(img, Chain(img)), After(img), t, q);
  }

  /** Between registering the store that unlinks a node and freeing its clump, a crash leaves one more
      entry in the clump's list, for good: three such crashes, and the node cannot be freed. */
  lemma CrashFillsList(s: Pm, h: nat, slot: nat, a: Pm)
    requires Called(s, FIRST, Runs.Command.OnFree(h, 8 * slot, 0), a) && slot > 0 && h in Sight(s).live
    requires Registered(a.mem, s.mem, h, 8 * slot, 0) && Sight(a) == Sight(s)
    ensures Survives(a.may, a.mem) && h + 8 <= |s.mem|
    ensures FreeSlot(After(a.mem), h) > FreeSlot(s.mem, h)
  {
    hide PersistentMemory.Exec;
    hide Chain;
    hide ClumpOk;
    hide Clump;
    hide ViewOf;
    hide RegisterSteps;
    LiveActive(a);
    ActiveAfter(a.mem, h);
    assert State(a.mem[h]) == ACTIVE;
  }

  /** A crash while nothing is being done. */
  lemma IdleLeavesTree(s: Pm, t: Tree, img: Image)
    requires Marked(s, t) && Survives(s.may, img)
    ensures MarkedFile(img, t)
  {
    hide PersistentMemory.Exec;
    hide Chain;
    hide ClumpOk;
    hide Clump;
    hide ViewOf;
    hide Holds;
    hide Noted;
    hide NoneFull;
    QuietSafe(s, Chain(s.mem));
    LiveActive(s);
    var live := Sight(s).live.Keys;
    QuietRests(s, Chain(s.mem), live);
    RestSafe(s, HeaderWords(live));
    assert img in Showing({Sight(s)}) && img in Keeping(s.mem, HeaderWords(live));
    forall h | h in live ensures SameHeader(After(img), s.mem, h) {
      KeptHeader(img, s.mem, live, h);
      ActiveAfter(img, h);
    }
    SameMarks(s.mem, Sight(s), After(img), t);
  }

  /** Opening the pool: the tree is there, and each list can take as many entries as before. */
  lemma OpenedMarked(file: Image, t: Tree, r: Pm)
    requires MarkedFile(file, t) && r == Exec(Boot(file), RestartSteps(file, Chain(file)))
    ensures Marked(r, t) && (NoneFull(r.mem, t) <==> NoneFull(After(file), t))
  {
    hide PersistentMemory.Exec;
    hide Chain;
    hide ClumpOk;
    hide Clump;
    hide ViewOf;
    hide Holds;
    hide Noted;
    hide NoneFull;
    hide RestartSteps;
    hide CoalescedFrom;
    hide SameUse;
    hide Coalesced;
    var r', gs := RestartAtomic(file, Chain(file));
    ChainUnique(r.mem, gs);
    RestartHeaders(file, r);
    SameMarks(After(file), Sight(r), r.mem, t);
  }

  /** The same for what opening a pool file is promised to do. */
  lemma OpenedWith(file: Image, t: Tree, trace: seq<Instr>, r: Pm)
    requires MarkedFile(file, t) && Restored(file, trace, r)
    ensures Quiet(r, Chain(r.mem)) && Marked(r, t) && (NoneFull(r.mem, t) <==> NoneFull(After(file), t))
    ensures |Chain(r.mem)| >= 2 && Chain(r.mem)[0] == FIRST
  {
    hide PersistentMemory.Exec;
    hide Chain;
    hide ClumpOk;
    hide Clump;
    hide Holds;
    hide Noted;
    hide NoneFull;
    hide RestartSteps;
    hide Guarded;
    OpenedMarked(file, t, r);
  }

  /** A crash while the pool is being opened. */
  lemma OpeningLeavesTree(file: Image, t: Tree, cut: nat, img: Image)
    requires MarkedFile(file, t) && cut <= |RestartSteps(file, Chain(file))|
    requires Survives(Exec(Boot(file), RestartSteps(file, Chain(file))[..cut]).may, img)
    ensures MarkedFile(img, t)
  {
    hide PersistentMemory.Exec;
    hide Chain;
    hide ClumpOk;
    hide Clump;
    hide ViewOf;
    hide Holds;
    hide Noted;
    hide NoneFull;
    hide RestartSteps;
    hide CoalescedFrom;
    hide SameUse;
    hide Coalesced;
    hide After;
    var prog := RestartSteps(file, Chain(file));
    var r, gs := RestartAtomic(file, Chain(file));
    RestartHeaders(file, r);
    var v := ViewOf(file, Chain(file));
    GuardedEverywhere(Boot(file), prog, Showing({v}), cut, img);
    GuardedEverywhere(Boot(file), prog, Leading(After(file), v.live.Keys), cut, img);
    SameMarks(After(file), v, After(img), t);
  }

  /** A new pool holds the empty tree. */
  lemma NewPoolMarked(size: nat)
    requires size >= 8 * MIN_WORDS
    ensures MarkedFile(NewPool(size), Leaf)
  {
    var img := NewPool(size);
    NewPoolRecoverable(size);
    hide PersistentMemory.Exec;
    hide Chain;
    LiveResolved(img, Chain(img));
    EmptyRoot(img);
  }

  lemma EmptyRoot(img: Image)
    requires Recoverable(img, Chain(img)) && Chain(img) == [FIRST, LastHeader(|img|)] && STATIC_WORD < |img|
    requires !Pending(img[FIRST]) && img[STATIC_WORD] == 0
    ensures STATIC_WORD in ViewOf(img, Chain(img)).words && ViewOf(img, Chain(img)).words[STATIC_WORD] == 0
  {
    hide PersistentMemory.Exec;
    hide Chain;
    assert Static(STATIC_WORD);
    assert Resolve(img, Chain(img)) == ResolveUpTo(img, Chain(img), 1) ==
        ResolveClump(ResolveUpTo(img, Chain(img), 0), FIRST);
  }

  // ---------------------------------------------------------------------------------------
  // Runs
  // ---------------------------------------------------------------------------------------

  /** `cursor` is where the next search for a clump starts. */
  datatype Client = Up(pm: Pm, cursor: nat) | Down(file: Image)

  /** A step of a run: what the program does, or was doing when the power failed. */
  datatype Act = Insert(word: seq<nat>) | TakeDown | Idle | Open

  ghost function Steps(m: Image, cursor: nat, act: Act): seq<Instr> {
    match act
    case Insert(x) => InsertSteps(m, cursor, x)
    case TakeDown => FreeAll(m).prog
    case Idle => []
    case Open => if Bounds(Chain(m), |m|) then RestartSteps(m, Chain(m)) else []
  }

  function NextCursor(m: Image, cursor: nat, act: Act): nat {
    match act
    case Insert(x) => InsertCursor(m, cursor, x)
    case TakeDown => cursor
    case Idle => cursor
    case Open => FIRST
  }

  /** Power fails before, between or after the stores and persists. */
  ghost predicate CutOff(s: Pm, prog: seq<Instr>, img: Image) {
    exists n: nat :: n <= |prog| && Survives(Exec(s, prog[..n]).may, img)
  }

  /** A program that is running does one of its calls, one that starts opens the pool. */
  ghost predicate Next(x: Client, act: Act, y: Client) {
    && (act.Open? <==> x.Down?) && (act.Insert? ==> Proper(act.word))
    && var s, cursor := if x.Up? then x.pm else Boot(x.file), if x.Up? then x.cursor else FIRST;
       var prog := Steps(s.mem, cursor, act);
       match y
       case Up(r, c) => r == Exec(s, prog) && c == NextCursor(s.mem, cursor, act)
       case Down(img) => CutOff(s, prog, img)
  }

  /** A run starts with a new pool file. */
  ghost predicate Run(xs: seq<Client>, acts: seq<Act>) {
    && |xs| == |acts| + 1
    && (exists size: nat :: size >= 8 * MIN_WORDS && xs[0] == Down(NewPool(size)))
    && forall i :: 0 <= i < |acts| ==> Next(xs[i], acts[i], xs[i + 1])
  }

  /** If the step inserts a word, then not at the header of a clump that has been merged away. */
  ghost predicate Firm(x: Client, act: Act) {
    x.Up? && act.Insert? ==> Grounded(x.pm.mem, x.cursor, act.word)
  }

  /** The pool holds the tree t and nothing else: no memory is lost. */
  ghost predicate Holding(x: Client, t: Tree) {
    match x
    case Up(pm, _) => Marked(pm, t)
    case Down(file) => MarkedFile(file, t)
  }

  /** How the tree changes in a step that does, or is cut off doing, `act`. */
  ghost predicate Changes(act: Act, x: Client, t: Tree, y: Client, u: Tree) {
    match act
    case Insert(w) =>
      if x.Up? && y.Up? then
        if InsertOk(x.pm.mem, x.cursor, w) then Entries(u) == Bumped(Entries(t), w) else u == t && w !in Entries(t)
      else u == t || Entries(u) == Bumped(Entries(t), w)
    case TakeDown =>
      && Prunes(u, t) && (forall w :: w in Entries(u) ==> w in Entries(t) && Entries(t)[w] == Entries(u)[w])
      && (x.Up? && y.Up? && NoneFull(x.pm.mem, t) ==> u == Leaf)
    case Idle => u == t
    case Open => u == t
  }

  /** The search cursor leads to the chain. */
  ghost predicate Leads(x: Client) { x.Up? ==> OnTrail(x.pm.mem, x.cursor) }

  /** When the search cursor is a clump after the step. */
  ghost predicate Points(act: Act, x: Client, t: Tree, y: Client) {
    y.Up? ==>
      match act
      case Insert(_) => x.Up? && (IsClump(x.pm.mem, x.cursor) ==> IsClump(y.pm.mem, y.cursor))
      case TakeDown =>
        && x.Up?
        && (IsClump(y.pm.mem, y.cursor) <==> IsClump(x.pm.mem, x.cursor) && Survived(FreeAll(x.pm.mem).frees, x.cursor))
        && (NoneFull(x.pm.mem, t) && t.Node? ==> (IsClump(y.pm.mem, y.cursor) <==> x.cursor == FIRST))
      case Idle => x.Up? && (IsClump(y.pm.mem, y.cursor) <==> IsClump(x.pm.mem, x.cursor))
      case Open => IsClump(y.pm.mem, y.cursor)
  }

  lemma StepHolds(x: Client, act: Act, y: Client, t: Tree) returns (u: Tree)
    requires Holding(x, t) && Next(x, act, y) && Firm(x, act)
    ensures Holding(y, u) && Changes(act, x, t, y, u) && Points(act, x, t, y) && (Leads(x) ==> Leads(y))
  {
    match act
    case Insert(w) =>
      if y.Up? { u := InsertReturns(x.pm, x.cursor, w, t, y); } else { u := InsertFails(x.pm, x.cursor, w, t, y.file); }
    case TakeDown =>
      if y.Up? { u := FreeReturns(x.pm, x.cursor, t, y); } else { u := FreeFails(x.pm, x.cursor, t, y.file); }
    case Idle =>
      u := t;
      if y.Up? { ExecNothing(x.pm); } else { IdleFails(x.pm, t, y.file); }
    case Open =>
      u := t;
      OpenHolds(x.file, t, y);
  }

  lemma InsertReturns(s: Pm, cursor: nat, w: seq<nat>, t: Tree, y: Client) returns (u: Tree)
    requires Marked(s, t) && Proper(w) && Grounded(s.mem, cursor, w)
    requires y == Up(Exec(s, InsertSteps(s.mem, cursor, w)), InsertCursor(s.mem, cursor, w))
    ensures Holding(y, u) && Changes(Insert(w), Up(s, cursor), t, y, u) && Points(Insert(w), Up(s, cursor), t, y)
    ensures Leads(Up(s, cursor)) ==> Leads(y)
  {
    hide PersistentMemory.Exec;
    hide Chain;
    hide Quiet;
    hide Did;
    hide Descend;
    hide PlaceSteps;
    hide NodeFit;
    hide IsClump;
    hide Grown;
    hide Holds;
    hide Noted;
    hide NoneFull;
    hide Tidy;
    hide OnTrail;
    var at, ok := PlaceNode(s.mem, cursor, w), InsertOk(s.mem, cursor, w);
    GroundedFinds(s, cursor, w, t);
    var r := WordInserted(s, cursor, w, t);
    InsertedMarked(s, InsertSteps(s.mem, cursor, w), r, t, w, at, ok);
    u := if ok then Grown(t, w, at) else t;
  }

  lemma InsertFails(s: Pm, cursor: nat, w: seq<nat>, t: Tree, img: Image) returns (u: Tree)
    requires Marked(s, t) && Proper(w) && Grounded(s.mem, cursor, w) && CutOff(s, InsertSteps(s.mem, cursor, w), img)
    ensures MarkedFile(img, u) && Changes(Insert(w), Up(s, cursor), t, Down(img), u)
  {
    var prog := InsertSteps(s.mem, cursor, w);
    var n: nat :| n <= |prog| && Survives(Exec(s, prog[..n]).may, img);
    InsertAllOrNothing(s, cursor, w, t, n, img);
    u := if MarkedFile(img, t) then t else Grown(t, w, PlaceNode(s.mem, cursor, w));
  }

  lemma FreeReturns(s: Pm, cursor: nat, t: Tree, y: Client) returns (u: Tree)
    requires Marked(s, t) && y == Up(Exec(s, FreeAll(s.mem).prog), cursor)
    ensures Holding(y, u) && Changes(TakeDown, Up(s, cursor), t, y, u) && Points(TakeDown, Up(s, cursor), t, y)
    ensures Leads(Up(s, cursor)) ==> Leads(y)
  {
    var r;
    r, u := AllFreed(s, t);
  }

  lemma FreeFails(s: Pm, cursor: nat, t: Tree, img: Image) returns (u: Tree)
    requires Marked(s, t) && CutOff(s, FreeAll(s.mem).prog, img)
    ensures MarkedFile(img, u) && Changes(TakeDown, Up(s, cursor), t, Down(img), u)
  {
    var prog := FreeAll(s.mem).prog;
    var n: nat :| n <= |prog| && Survives(Exec(s, prog[..n]).may, img);
    u := FreeLeavesTree(s, t, n, img);
  }

  lemma IdleFails(s: Pm, t: Tree, img: Image)
    requires Marked(s, t) && CutOff(s, [], img)
    ensures MarkedFile(img, t)
  {
    var none: seq<Instr> := [];
    var n: nat :| n <= |none| && Survives(Exec(s, none[..n]).may, img);
    assert none[..n] == [];
    ExecNothing(s);
    IdleLeavesTree(s, t, img);
  }

  lemma OpenHolds(file: Image, t: Tree, y: Client)
    requires MarkedFile(file, t) && Next(Down(file), Open, y)
    ensures Holding(y, t) && Points(Open, Down(file), t, y) && Leads(y)
  {
    hide PersistentMemory.Exec;
    hide MarkedFile;
    hide Marked;
    hide RestartSteps;
    hide Chain;
    hide OnTrail;
    hide IsClump;
    BootClean(file);
    FileBounds(file, t);
    if y.Up? { OpenReturns(file, t, y.pm); } else { OpenFails(file, t, y.file); }
  }

  lemma FileBounds(file: Image, t: Tree)
    requires MarkedFile(file, t)
    ensures Bounds(Chain(file), |file|)
  {
  }

  lemma OpenReturns(file: Image, t: Tree, r: Pm)
    requires MarkedFile(file, t) && r == Exec(Boot(file), RestartSteps(file, Chain(file)))
    ensures Marked(r, t) && IsClump(r.mem, FIRST) && OnTrail(r.mem, FIRST)
  {
    hide PersistentMemory.Exec;
    hide Chain;
    hide Recoverable;
    hide Holds;
    hide Noted;
    hide RestartSteps;
    hide IsClump;
    hide OnTrail;
    OpenedMarked(file, t, r);
    FirstClump(r);
    ClumpOnTrail(r, FIRST);
  }

  lemma OpenFails(file: Image, t: Tree, img: Image)
    requires MarkedFile(file, t) && CutOff(Boot(file), RestartSteps(file, Chain(file)), img)
    ensures MarkedFile(img, t)
  {
    hide PersistentMemory.Exec;
    hide Chain;
    hide Holds;
    hide Noted;
    hide RestartSteps;
    var prog := RestartSteps(file, Chain(file));
    var n: nat :| n <= |prog| && Survives(Exec(Boot(file), prog[..n]).may, img);
    OpeningLeavesTree(file, t, n, img);
  }

  lemma FirstClump(s: Pm)
    requires Quiet(s, Chain(s.mem))
    ensures IsClump(s.mem, FIRST)
  {
    Runs.IndexUnique(Chain(s.mem), |s.mem|, 0);
  }

  /** Every state of every run in which no insertion takes memory at the header of a clump that has
      been merged away holds a search tree and nothing else; the trees change as the calls say. */
  lemma {:induction false} RunHolds(xs: seq<Client>, acts: seq<Act>) returns (ts: seq<Tree>)
    requires Run(xs, acts) && forall i :: 0 <= i < |acts| ==> Firm(xs[i], acts[i])
    ensures |ts| == |xs| && ts[0] == Leaf
    ensures forall i :: 0 <= i < |xs| ==> Holding(xs[i], ts[i]) && Leads(xs[i])
    ensures forall i :: 0 <= i < |acts| ==> Changes(acts[i], xs[i], ts[i], xs[i + 1], ts[i + 1])
    ensures forall i :: 0 <= i < |acts| ==> Points(acts[i], xs[i], ts[i], xs[i + 1])
    decreases |acts|
  {
    hide Holding;
    hide Next;
    hide Changes;
    hide Points;
    hide Firm;
    hide Leads;
    if acts == [] {
      var size: nat :| size >= 8 * MIN_WORDS && xs[0] == Down(NewPool(size));
      FreshHolding(size);
      ts := [Leaf];
    } else {
      var n := |acts| - 1;
      RunPrefix(xs, acts, n);
      var us := RunHolds(xs[..n + 1], acts[..n]);
      var t := StepHolds(xs[n], acts[n], xs[n + 1], us[n]);
      ts := us + [t];
    }
  }

  lemma FreshHolding(size: nat)
    requires size >= 8 * MIN_WORDS
    ensures Holding(Down(NewPool(size)), Leaf) && Leads(Down(NewPool(size)))
  {
    NewPoolMarked(size);
  }

  lemma RunPrefix(xs: seq<Client>, acts: seq<Act>, n: nat)
    requires Run(xs, acts) && n <= |acts|
    ensures Run(xs[..n + 1], acts[..n])
  {
    hide Next;
  }

  /** The process has called tree_free since it opened the pool. */
  ghost predicate HasFreed(acts: seq<Act>, i: nat)
    requires i <= |acts|
  {
    i > 0 && (acts[i - 1].TakeDown? || (!acts[i - 1].Open? && HasFreed(acts, i - 1)))
  }

  /** A process that has not freed the tree has a cursor that is a clump. */
  lemma {:induction false} CursorFresh(xs: seq<Client>, acts: seq<Act>, i: nat)
    requires Run(xs, acts) && i <= |acts| && xs[i].Up? && !HasFreed(acts, i)
    requires forall j :: 0 <= j < i ==> Firm(xs[j], acts[j])
    ensures IsClump(xs[i].pm.mem, xs[i].cursor)
  {
    hide Next;
    hide Firm;
    RunStart(xs, acts);
    RunPrefix(xs, acts, i);
    var ts := RunHolds(xs[..i + 1], acts[..i]);
    assert Points(acts[..i][i - 1], xs[..i + 1][i - 1], ts[i - 1], xs[..i + 1][i]);
    if !acts[i - 1].Open? { CursorFresh(xs, acts, i - 1); }
  }

  lemma RunStart(xs: seq<Client>, acts: seq<Act>)
    requires Run(xs, acts)
    ensures xs[0].Down?
  {
  }

  /** So do the runs in which no process inserts words after it has freed the tree: they hold. */
  lemma {:induction false} FreshRun(xs: seq<Client>, acts: seq<Act>, n: nat)
    requires Run(xs, acts) && n <= |acts|
    requires forall i :: 0 <= i < |acts| && acts[i].Insert? ==> !HasFreed(acts, i)
    ensures forall i :: 0 <= i < n ==> Firm(xs[i], acts[i])
  {
    hide Changes;
    hide Points;
    hide Leads;
    hide IsClump;
    hide Next;
    hide HasFreed;
    if n > 0 {
      FreshRun(xs, acts, n - 1);
      if xs[n - 1].Up? && acts[n - 1].Insert? {
        CursorFresh(xs, acts, n - 1);
        RunPrefix(xs, acts, n - 1);
        var ts := RunHolds(xs[..n], acts[..n - 1]);
        assert Holding(xs[..n][n - 1], ts[n - 1]);
        ClumpTakesClump(xs[n - 1].pm, xs[n - 1].cursor, acts[n - 1].word);
      }
    }
  }
}
