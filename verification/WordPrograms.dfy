/** The calls of the word-count tree as lists of stores and persists: what each of them does with the
    memory it finds, whatever that is. */
module WordPrograms {
  import opened PersistentMemory
  import opened PoolImage
  import opened Activation
  import opened Reserving
  import opened Registering
  import opened Calls
  import opened Runs
  import opened ByteWords
  import opened WordTrees
  import opened WordTreeSteps

  // ---------------------------------------------------------------------------------------
  // Memory
  // ---------------------------------------------------------------------------------------

  /** What the program reads after its stores. */
  function Memory(m: Image, prog: seq<Instr>): (r: Image)
    ensures |r| == |m|
    decreases |prog|
  {
    if prog == [] then m else Memory(if prog[0].Store? then Put(m, prog[0].w, prog[0].v) else m, prog[1..])
  }

  lemma {:induction false} MemoryOf(s: Pm, prog: seq<Instr>)
    requires Sane(s)
    ensures Exec(s, prog).mem == Memory(s.mem, prog)
    decreases |prog|
  {
    if prog != [] { MemoryOf(Step(s, prog[0]), prog[1..]); }
  }

  lemma QuietMemory(s: Pm, prog: seq<Instr>)
    requires Quiet(s, Chain(s.mem))
    ensures Exec(s, prog).mem == Memory(s.mem, prog)
  {
    MemoryOf(s, prog);
  }

  /** c is the header of a clump, and not the terminator. */
  ghost predicate IsClump(m: Image, c: nat) { Index(Chain(m), c) < |Chain(m)| - 1 }

  lemma SameClumps(m: Image, a: Image)
    requires Chain(a) == Chain(m)
    ensures forall c :: IsClump(a, c) <==> IsClump(m, c)
  {
  }

  // ---------------------------------------------------------------------------------------
  // A new node
  // ---------------------------------------------------------------------------------------

  /** The loop of the search: from h on the first clump that is free and large enough, 0 if the
      terminator comes first. */
  function Fit(m: Image, h: nat, bytes: nat): (c: nat)
    ensures c != 0 ==> h <= c < |m| && Fits(m[c], bytes)
    decreases |m| - h
  {
    if h >= |m| || Span(m[h]) == 0 then 0
    else if Fits(m[h], bytes) then h
    else Fit(m, h + Span(m[h]), bytes)
  }

  function NodeFit(m: Image, cursor: nat, x: seq<nat>): nat { Fit(m, cursor, ClumpBytes(NodeSize(x))) }

  /** The two null pointers and the count. */
  function FieldSteps(m: Image, at: nat): seq<Instr>
    requires at + 2 < |m|
  {
    [Store(at + 1, 0), Store(at, 0), Store(at + 2, SetLow(m[at + 2], 1))]
  }

  /** strcpy from character i on. */
  function TextSteps(m: Image, at: nat, x: seq<nat>, i: nat): seq<Instr>
    decreases |x| + 1 - i
  {
    var w := CharWord(at, i);
    if i > |x| || w >= |m| then []
    else
      var v := SetDigit(m[w], (i + 4) % 8, Char(x, i));
      [Store(w, v)] + TextSteps(m[w := v], at, x, i + 1)
  }

  function NodeSteps(m: Image, at: nat, x: seq<nat>): seq<Instr> {
    if at + 2 >= |m| then []
    else FieldSteps(m, at) + TextSteps(Memory(m, FieldSteps(m, at)), at, x, 0)
  }

  /** Registering the store of the node's address, then activating its clump. */
  function HangSteps(m: Image, at: nat, slot: nat): seq<Instr> {
    if at < 8 || at > |m| || m[at - 8] < 64 || FreeSlot(m, at - 8) == 3 then []
    else
      var p := RegisterSteps(at - 8, FreeSlot(m, at - 8), 8 * slot, 8 * at);
      var a := Memory(m, p);
      p + (if a[at - 8] < 64 then [] else ActivateSteps(a, at - 8))
  }

  function ReserveProgram(m: Image, cursor: nat, size: nat): seq<Instr> {
    var c := Fit(m, cursor, ClumpBytes(size));
    if c == 0 then [] else ReserveSteps(m, c, ClumpBytes(size))
  }

  /** A new node for x behind the empty pointer in `slot`; nothing if there is no room for it. */
  function HereSteps(m: Image, cursor: nat, slot: nat, x: seq<nat>): seq<Instr> {
    var c := NodeFit(m, cursor, x);
    if c == 0 then []
    else
      var p := ReserveProgram(m, cursor, NodeSize(x));
      var a := Memory(m, p);
      var q := NodeSteps(a, c + 8, x);
      p + q + HangSteps(Memory(a, q), c + 8, slot)
  }

  // ---------------------------------------------------------------------------------------
  // Inserting a word
  // ---------------------------------------------------------------------------------------

  /** strcmp with the text of the node at p, from character i on. */
  function CompareFrom(m: Image, p: nat, x: seq<nat>, i: nat): int
    decreases |x| - i
  {
    var w := CharWord(p, i);
    if w >= |m| then 1
    else
      var c := Digit(m[w], (i + 4) % 8);
      if i >= |x| then (if c == 0 then 0 else -1)
      else if x[i] < c then -1
      else if x[i] > c then 1
      else CompareFrom(m, p, x, i + 1)
  }

  /** Where a search ends: at an empty pointer, at the node of the word, or nowhere. */
  datatype Place = Empty(slot: nat) | Found(p: nat) | Lost

  /** The descent from the pointer in `slot`; one of more steps than the memory has words goes round
      in circles. */
  function Descend(m: Image, slot: nat, x: seq<nat>, depth: nat): Place
    decreases depth
  {
    if depth == 0 || slot >= |m| then Lost
    else if m[slot] == 0 then Empty(slot)
    else
      var p := m[slot] / 8;
      var d := CompareFrom(m, p, x, 0);
      if d == 0 then Found(p) else Descend(m, if d < 0 then p else p + 1, x, depth - 1)
  }

  /** count++ and its persist. */
  function BumpSteps(m: Image, p: nat): seq<Instr> {
    if p + 2 >= |m| then []
    else [Store(p + 2, SetLow(m[p + 2], (Low(m[p + 2]) + 1) % TWO_32)), Persist(8 * (p + 2), 4)]
  }

  function PlaceSteps(m: Image, cursor: nat, x: seq<nat>, place: Place): seq<Instr> {
    match place
    case Empty(slot) => HereSteps(m, cursor, slot, x)
    case Found(p) => BumpSteps(m, p)
    case Lost => []
  }

  /** The whole call. */
  function InsertSteps(m: Image, cursor: nat, x: seq<nat>): seq<Instr> {
    PlaceSteps(m, cursor, x, Descend(m, STATIC_WORD, x, |m| + 1))
  }

  /** The call returns; otherwise it ends the process for want of room. */
  predicate PlaceOk(m: Image, cursor: nat, x: seq<nat>, place: Place) {
    place.Found? || (place.Empty? && NodeFit(m, cursor, x) != 0)
  }

  predicate InsertOk(m: Image, cursor: nat, x: seq<nat>) {
    PlaceOk(m, cursor, x, Descend(m, STATIC_WORD, x, |m| + 1))
  }

  /** Where the next search for a clump starts. */
  function PlaceCursor(m: Image, cursor: nat, x: seq<nat>, place: Place): nat {
    if place.Empty? && NodeFit(m, cursor, x) != 0 then NodeFit(m, cursor, x) else cursor
  }

  function InsertCursor(m: Image, cursor: nat, x: seq<nat>): nat {
    PlaceCursor(m, cursor, x, Descend(m, STATIC_WORD, x, |m| + 1))
  }

  // ---------------------------------------------------------------------------------------
  // Taking the tree down
  // ---------------------------------------------------------------------------------------

  /** pmemalloc_free as it meets the memory: the clump h is about to be freed. */
  datatype Freeing = Freeing(mem: Image, h: nat)

  /** What a call does, whether it returns, and the frees in it that are carried out. */
  datatype Doing = Doing(prog: seq<Instr>, ok: bool, frees: seq<Freeing>)

  ghost function FreeProgram(m: Image, h: nat): seq<Instr> {
    if h + 8 <= |m| && Bounds(Chain(m), |m|) then FreeSteps(m, Chain(m), h) else []
  }

  /** pmemalloc_onfree and pmemalloc_free for the node that `slot` points to; a full list ends the
      process. */
  ghost function NodeFree(m: Image, slot: nat): Doing {
    if slot >= |m| || m[slot] < 64 || m[slot] / 8 > |m| || FreeSlot(m, m[slot] / 8 - 8) == 3 then Doing([], false, [])
    else
      var h := m[slot] / 8 - 8;
      var p := RegisterSteps(h, FreeSlot(m, h), 8 * slot, 0);
      var a := Memory(m, p);
      if a[slot] < 64 then Doing(p, false, [])
      else Doing(p + FreeProgram(a, a[slot] / 8 - 8), true, [Freeing(a, a[slot] / 8 - 8)])
  }

  /** First this, then that, unless this has ended the process. */
  ghost function Both(one: Doing, two: Doing): Doing {
    if one.ok then Doing(one.prog + two.prog, two.ok, one.frees + two.frees) else one
  }

  /** Left, right, node. */
  ghost function TreeFree(m: Image, slot: nat, depth: nat): Doing
    decreases depth
  {
    if depth == 0 || slot >= |m| then Doing([], false, [])
    else if m[slot] == 0 then Doing([], true, [])
    else
      var left := TreeFree(m, m[slot] / 8, depth - 1);
      var a := Memory(m, left.prog);
      var right := TreeFree(a, a[slot] / 8 + 1, depth - 1);
      Both(Both(left, right), NodeFree(Memory(a, right.prog), slot))
  }

  ghost function FreeAll(m: Image): Doing { TreeFree(m, STATIC_WORD, |m| + 1) }
}
