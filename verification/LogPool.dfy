/** The calls of the append log, and walking through its data. */
module LogPool {
  import opened PersistentMemory
  import opened CrashSafety
  import opened ByteWords
  import opened AppendLog

  datatype Outcome = Done | NoSpace | ReadOnly

  /** The stores and persists of a call, and what they make of the log. */
  ghost predicate Logs(s: Pm, l: Layout, c: Command, before: seq<Instr>, r: Pm, after: seq<Instr>) {
    && LogOk(s, l) && LogOk(r, l) && before <= after && after[|before|..] == Steps(s.mem, l, c)
    && r == Exec(s, Steps(s.mem, l, c)) && Logged(r.mem, l) == After(Logged(s.mem, l), l, c)
    && Guarded(s, Steps(s.mem, l, c), Holding(l, {Logged(s.mem, l), Logged(r.mem, l)}))
  }

  class Log {
    const pm: Pmem
    const rdonly: bool
    const meta: nat
    ghost const layout: Layout

    ghost predicate Valid()
      reads this, pm, pm.mem, pm.disk
    {
      pm.Valid() && layout.meta == meta && LogOk(pm.now, layout)
    }

    /** Maps a log; nothing needs to be repaired. */
    constructor Open(file: Image, meta: nat, rdonly: bool, ghost l: Layout)
      requires |file| % 8 == 0 && l.meta == meta && LogImage(file, l)
      ensures Valid() && layout == l && this.rdonly == rdonly && fresh(pm) && fresh(pm.mem) && fresh(pm.disk)
      ensures Logged(pm.now.mem, l) == Logged(file, l)
    {
      pm := new Pmem.Map(file);
      this.rdonly := rdonly;
      this.meta := meta;
      layout := l;
      new;
      BootOk(file, l);
    }

    /** Appends a piece of data, if there is room for all of it. */
    method Append(data: seq<nat>) returns (result: Outcome)
      requires Valid() && ByteData(data)
      modifies pm, pm.mem, pm.disk
      ensures Valid()
      ensures result == Outcome.ReadOnly <==> rdonly
      ensures !rdonly ==> Logs(old(pm.now), layout, Command.Append(data), old(pm.trace), pm.now, pm.trace)
      ensures !rdonly ==>
                var at := layout.start + old(|Logged(pm.now.mem, layout)|);
                && (result == Done <==> at < layout.end && at + |data| <= layout.end)
                && Logged(pm.now.mem, layout) == old(Logged(pm.now.mem, layout)) + if result == Done then data else []
      ensures result != Done ==> pm.now == old(pm.now) && pm.trace == old(pm.trace)
    {
      hide Survives;
      hide PersistentMemory.Exec;
      hide Guarded;
      hide FirmUpTo;
      hide CopySteps;
      hide Content;
      hide Step;
      hide PersistSteps;
      if rdonly { return ReadOnly; }
      CallAtomic(pm.now, layout, Command.Append(data));
      FullLog(pm.now, layout, Command.Append(data), pm.trace);
      var end, off := pm.mem[meta + 1], pm.mem[meta + 2];
      if off >= end {
        return NoSpace;
      } else if |data| > end - off {
        return NoSpace;
      }
      ghost var s, t := pm.now, pm.trace;
      Copy(off, data);
      PersistData(off, off + |data|);
      InRow(s, CopySteps(s.mem, off, data), PersistSteps(layout, off, |data|), t);
      return Done;
    }

    /** Appends several pieces as one. */
    method AppendV(pieces: seq<seq<nat>>) returns (result: Outcome)
      requires Valid() && ByteData(Joined(pieces))
      requires SumTells(pm.now.mem[meta + 2], layout.end, |Joined(pieces)|)
      modifies pm, pm.mem, pm.disk
      ensures Valid()
      ensures result == Outcome.ReadOnly <==> rdonly
      ensures !rdonly ==> Logs(old(pm.now), layout, Command.AppendV(pieces), old(pm.trace), pm.now, pm.trace)
      ensures !rdonly ==>
                var at := layout.start + old(|Logged(pm.now.mem, layout)|);
                && (result == Done <==> at < layout.end && at + |Joined(pieces)| <= layout.end)
                && Logged(pm.now.mem, layout) ==
                     old(Logged(pm.now.mem, layout)) + if result == Done then Joined(pieces) else []
      ensures result != Done ==> pm.now == old(pm.now) && pm.trace == old(pm.trace)
    {
      hide Survives;
      hide Sane;
      hide PersistentMemory.Exec;
      hide Guarded;
      hide FirmUpTo;
      hide CopySteps;
      hide Copied;
      hide Content;
      hide Step;
      hide PersistSteps;
      if rdonly { return ReadOnly; }
      CallAtomic(pm.now, layout, Command.AppendV(pieces));
      FullLog(pm.now, layout, Command.AppendV(pieces), pm.trace);
      var end, off := pm.mem[meta + 1], pm.mem[meta + 2];
      if off >= end { return NoSpace; }
      var count := TotalLength(pieces);
      SumDecides(off, end, |Joined(pieces)|);
      if count > end - off { return NoSpace; }
      ghost var s, t := pm.now, pm.trace;
      var at := CopyAll(off, pieces);
      PersistData(off, at);
      InRow(s, CopySteps(s.mem, off, Joined(pieces)), PersistSteps(layout, off, at - off), t);
      return Done;
    }

    method CopyAll(off: nat, pieces: seq<seq<nat>>) returns (at: nat)
      requires pm.Valid() && off + |Joined(pieces)| <= 8 * pm.mem.Length
      modifies pm, pm.mem
      ensures pm.Valid() && at == off + |Joined(pieces)|
      ensures CopiedSoFar(old(pm.now), old(pm.trace), off, Joined(pieces), pm.now, pm.trace)
    {
      hide PersistentMemory.Exec;
      hide CopySteps;
      hide Copied;
      ghost var s, t := pm.now, pm.trace;
      at := off;
      var i := 0;
      NothingCopied(s, off, t);
      while i < |pieces|
        invariant 0 <= i <= |pieces| && at == off + |Joined(pieces[..i])| && pm.Valid()
        invariant CopiedSoFar(s, t, off, Joined(pieces[..i]), pm.now, pm.trace)
      {
        JoinedStep(pieces, i);
        ghost var a, u := pm.now, pm.trace;
        Copy(at, pieces[i]);
        CopiedMore(s, t, off, Joined(pieces[..i]), a, u, pieces[i], pm.now, pm.trace);
        at := at + |pieces[i]|;
        i := i + 1;
      }
      assert pieces[..i] == pieces;
    }

    /** The sum of the lengths, in 64 bits. */
    static method TotalLength(pieces: seq<seq<nat>>) returns (count: nat)
      ensures count == |Joined(pieces)| % TWO_64
    {
      hide Joined;
      NothingJoined();
      count := 0;
      var i := 0;
      while i < |pieces|
        invariant 0 <= i <= |pieces| && count == |Joined(pieces[..i])| % TWO_64
      {
        JoinedStep(pieces, i);
        SumWraps(|Joined(pieces[..i])|, |pieces[i]|, TWO_64);
        count := (count + |pieces[i]|) % TWO_64;
        i := i + 1;
      }
      assert pieces[..i] == pieces;
    }

    /** Empties the log. */
    method Rewind() returns (result: Outcome)
      requires Valid()
      modifies pm, pm.mem, pm.disk
      ensures Valid()
      ensures result == if rdonly then Outcome.ReadOnly else Done
      ensures !rdonly ==> Logs(old(pm.now), layout, Command.Rewind, old(pm.trace), pm.now, pm.trace)
      ensures !rdonly ==> Logged(pm.now.mem, layout) == []
      ensures rdonly ==> pm.now == old(pm.now) && pm.trace == old(pm.trace)
    {
      CallAtomic(pm.now, layout, Command.Rewind);
      if rdonly { return ReadOnly; }
      ghost var s := pm.now;
      pm.Write(meta + 2, pm.mem[meta]);
      pm.Flush(8 * (meta + 2), 8);
      ExecTwo(s, Store(meta + 2, layout.start), Persist(8 * (meta + 2), 8));
      return Done;
    }

    /** Bytes in the log. */
    method Tell() returns (n: nat)
      requires Valid()
      ensures n == |Logged(pm.now.mem, layout)|
    {
      n := pm.mem[meta + 2] - pm.mem[meta];
    }

    method Copy(off: nat, data: seq<nat>)
      requires pm.Valid() && off + |data| <= 8 * pm.mem.Length
      modifies pm, pm.mem
      ensures pm.Valid() && pm.trace == old(pm.trace) + CopySteps(old(pm.now.mem), off, data)
      ensures pm.now == Exec(old(pm.now), CopySteps(old(pm.now.mem), off, data))
      ensures pm.now.mem == Copied(old(pm.now.mem), off, data)
    {
      hide PersistentMemory.Exec;
      hide Step;
      hide SetDigit;
      hide CopySteps;
      hide Copied;
      ghost var s, t, m := pm.now, pm.trace, pm.now.mem;
      NothingRun(s);
      ghost var done: seq<Instr> := [];
      var i := 0;
      while i < |data|
        invariant 0 <= i <= |data| && pm.Valid() && pm.mem.Length == |m|
        invariant pm.trace == t + done && pm.now == Exec(s, done)
        invariant done + CopySteps(pm.now.mem, off + i, data[i..]) == CopySteps(m, off, data)
        invariant Copied(pm.now.mem, off + i, data[i..]) == Copied(m, off, data)
      {
        ghost var a := pm.now.mem;
        CopyOne(a, off, data, i);
        var w := (off + i) / 8;
        var v := SetDigit(pm.mem[w], (off + i) % 8, data[i]);
        pm.Write(w, v);
        ExecOne(s, done, Store(w, v));
        assert done + ([Store(w, v)] + CopySteps(pm.now.mem, off + i + 1, data[i + 1..])) ==
               done + [Store(w, v)] + CopySteps(pm.now.mem, off + i + 1, data[i + 1..]);
        done := done + [Store(w, v)];
        i := i + 1;
      }
      CopyEnd(pm.now.mem, off + i, data[i..]);
      assert done + [] == done;
    }

    /** Data first, then the write offset. */
    method PersistData(off: nat, next: nat)
      requires pm.Valid() && off <= next <= 8 * pm.mem.Length && meta + 2 < pm.mem.Length && layout.meta == meta
      modifies pm, pm.mem, pm.disk
      ensures pm.Valid() && pm.trace == old(pm.trace) + PersistSteps(layout, off, next - off)
      ensures pm.now == Exec(old(pm.now), PersistSteps(layout, off, next - off))
    {
      hide PersistentMemory.Exec;
      hide Step;
      ghost var s := pm.now;
      pm.Flush(off, next - off);
      ghost var a := pm.now;
      pm.Write(meta + 2, next);
      pm.Flush(8 * (meta + 2), 8);
      ExecTwo(a, Store(meta + 2, next), Persist(8 * (meta + 2), 8));
      ExecConcat(s, [Persist(off, next - off)], MoveSteps(layout, next));
      ExecSingle(s, Persist(off, next - off));
    }

    /** Walks through the data.  A chunk size of 0 delivers all of it at once; otherwise the callback
        sees chunk after chunk, and `more` says whether it asks for another one after those. */
    method Walk(chunksize: nat, more: seq<seq<nat>> -> bool) returns (chunks: seq<seq<nat>>)
      requires Valid() && chunksize < TWO_64 && WalkEnds(Logged(pm.now.mem, layout), layout.start, chunksize, more)
      ensures chunks == if chunksize == 0 then [Logged(pm.now.mem, layout)]
                        else Chunks(Logged(pm.now.mem, layout), chunksize, more, [])
      ensures Delivers(chunks, Logged(pm.now.mem, layout), chunksize, more)
    {
      WalkMeans(Logged(pm.now.mem, layout), chunksize, more);
      hide Delivers;
      hide LastChunk;
      hide StepFits;
      hide Chunks;
      hide FirmUpTo;
      hide AsksOn;
      hide Content;
      hide WalkStands;
      var start, write := pm.mem[meta], pm.mem[meta + 2];
      ghost var m, all := pm.now.mem, Logged(pm.now.mem, layout);
      if chunksize == 0 {
        var whole := Read(start, write);
        return [whole];
      }
      var at := start;
      chunks := [];
      ghost var n, left := 0, all;
      WalkStart(m, start, write, chunksize, more);
      while at < write
        invariant 0 <= at && (at < write ==> left == Content(m, at, write))
        invariant WalkStands(m, start, write, chunksize, more, n, at, left, chunks, all)
        decreases |left|
      {
        var len := if chunksize < write - at then chunksize else write - at;
        var chunk := Read(at, at + len);
        WalkNext(m, start, write, chunksize, more, n, at, left, chunks, chunk, all);
        chunks := chunks + [chunk];
        if !more(chunks) { return; }
        at := (at + chunksize) % TWO_64;
        left := left[len..];
        n := n + 1;
      }
      WalkDone(m, start, write, chunksize, more, n, at, left, chunks, all);
    }

    method Read(lo: nat, hi: nat) returns (bytes: seq<nat>)
      requires pm.Valid() && lo <= hi <= 8 * pm.mem.Length
      ensures bytes == Content(pm.now.mem, lo, hi)
    {
      bytes := [];
      var i := lo;
      while i < hi
        invariant lo <= i <= hi && bytes == Content(pm.now.mem, lo, i)
      {
        bytes := bytes + [Digit(pm.mem[i / 8], i % 8)];
        i := i + 1;
      }
    }
  }

  /** The sum of the lengths has not wrapped around, or what it has become does not fit either. */
  predicate SumTells(write: nat, end: nat, count: nat) {
    count < TWO_64 || write >= end || count % TWO_64 > end - write
  }

  /** Exactly then does the check of appendv decide as that of append would for all the data. */
  lemma SumDecides(write: nat, end: nat, count: nat)
    requires end < TWO_64
    ensures (write < end && count % TWO_64 <= end - write <==> write < end && count <= end - write) <==>
              SumTells(write, end, count)
  {
  }

  lemma NothingJoined()
    ensures Joined([]) == []
  {
  }

  lemma SumWraps(a: nat, b: nat, m: nat)
    requires m > 0
    ensures (a % m + b) % m == (a + b) % m
  {
    var q, r, p := a / m, a % m, (a % m + b) / m;
    assert a == q * m + r && r + b == p * m + (r + b) % m;
    ProductSum(q, p, m);
    Remains(q + p, (r + b) % m, m);
  }

  lemma ProductSum(q: nat, p: nat, m: nat)
    ensures q * m + p * m == (q + p) * m
  {
  }

  lemma {:induction false} Remains(q: nat, r: nat, m: nat)
    requires r < m
    ensures (q * m + r) % m == r
  {
    var k := (q * m + r) / m;
    assert q * m + r == k * m + (q * m + r) % m;
    Times(k, q + 1, m);
    Times(q, k + 1, m);
  }

  lemma NothingRun(s: Pm)
    ensures Exec(s, []) == s
  {
  }

  lemma CopyEnd(m: Image, off: nat, data: seq<nat>)
    requires off <= 8 * |m| && data == []
    ensures CopySteps(m, off, data) == [] && Copied(m, off, data) == m
  {
  }

  lemma CopyOne(m: Image, off: nat, data: seq<nat>, i: nat)
    requires i < |data| && off + |data| <= 8 * |m|
    ensures var w := (off + i) / 8; var v := SetDigit(m[w], (off + i) % 8, data[i]);
            && CopySteps(m, off + i, data[i..]) == [Store(w, v)] + CopySteps(m[w := v], off + i + 1, data[i + 1..])
            && Copied(m, off + i, data[i..]) == Copied(m[w := v], off + i + 1, data[i + 1..])
  {
    assert data[i..][1..] == data[i + 1..];
  }

  /** No room: nothing is done. */
  lemma FullLog(s: Pm, l: Layout, c: Command, t: seq<Instr>)
    requires LogOk(s, l) && Fine(c) && !c.Rewind?
    ensures !Room(s.mem[l.meta + 2], l.end, |Data(c)|) ==> Logs(s, l, c, t, s, t)
    ensures l.meta + 2 < |s.mem| && l.end <= 8 * |s.mem|
  {
    CallAtomic(s, l, c);
    assert t[|t|..] == [];
  }

  lemma InRow(s: Pm, p: seq<Instr>, q: seq<Instr>, t: seq<Instr>)
    ensures Exec(Exec(s, p), q) == Exec(s, p + q)
    ensures (t + p + q)[|t|..] == p + q && t <= t + p + q
  {
    ExecConcat(s, p, q);
  }

  lemma {:induction false} JoinedStep(pieces: seq<seq<nat>>, i: nat)
    requires i < |pieces|
    ensures Joined(pieces[..i + 1]) == Joined(pieces[..i]) + pieces[i]
    ensures |Joined(pieces[..i + 1])| <= |Joined(pieces)|
    decreases i
  {
    if i == 0 {
      assert pieces[..1][1..] == [] && pieces[..0] == [];
    } else {
      JoinedStep(pieces[1..], i - 1);
      assert pieces[..i + 1][1..] == pieces[1..][..i] && pieces[..i][1..] == pieces[1..][..i - 1];
    }
  }

  /** The pieces so far have been copied as one. */
  ghost predicate CopiedSoFar(s: Pm, t: seq<Instr>, off: nat, data: seq<nat>, r: Pm, u: seq<Instr>) {
    && off + |data| <= 8 * |s.mem|
    && u == t + CopySteps(s.mem, off, data) && r == Exec(s, CopySteps(s.mem, off, data))
    && r.mem == Copied(s.mem, off, data)
  }

  lemma NothingCopied(s: Pm, off: nat, t: seq<Instr>)
    requires off <= 8 * |s.mem|
    ensures CopiedSoFar(s, t, off, [], s, t) && Joined([]) == []
  {
    assert t + [] == t;
  }

  lemma CopiedMore(s: Pm, t: seq<Instr>, off: nat, data: seq<nat>, a: Pm, u: seq<Instr>, piece: seq<nat>, r: Pm,
                   v: seq<Instr>)
    requires CopiedSoFar(s, t, off, data, a, u) && off + |data| + |piece| <= 8 * |s.mem|
    requires v == u + CopySteps(a.mem, off + |data|, piece) && r == Exec(a, CopySteps(a.mem, off + |data|, piece))
    requires r.mem == Copied(a.mem, off + |data|, piece)
    ensures CopiedSoFar(s, t, off, data + piece, r, v)
  {
    hide PersistentMemory.Exec;
    hide CopySteps;
    hide Copied;
    CopyConcat(s.mem, off, data, piece);
    ExecConcat(s, CopySteps(s.mem, off, data), CopySteps(a.mem, off + |data|, piece));
  }

  // ---------------------------------------------------------------------------------------
  // Chunks
  // ---------------------------------------------------------------------------------------

  /** The chunks delivered, after those in `seen`. */
  ghost function Chunks(data: seq<nat>, size: nat, more: seq<seq<nat>> -> bool, seen: seq<seq<nat>>): seq<seq<nat>>
    requires size > 0
    decreases |data|
  {
    if data == [] then seen
    else
      var chunk := if size < |data| then data[..size] else data;
      if more(seen + [chunk]) then Chunks(data[|chunk|..], size, more, seen + [chunk]) else seen + [chunk]
  }

  /** The first of the chunks delivered. */
  lemma ChunksGrow(data: seq<nat>, size: nat, more: seq<seq<nat>> -> bool, seen: seq<seq<nat>>)
    requires size > 0
    ensures seen <= Chunks(data, size, more, seen)
    decreases |data|
  {
    if data != [] {
      var chunk := if size < |data| then data[..size] else data;
      if more(seen + [chunk]) { ChunksGrow(data[|chunk|..], size, more, seen + [chunk]); }
    }
  }

  /** All but the last have the chunk size, and the callback has asked for more after them; none is
      empty or larger. */
  lemma {:induction false} ChunkSizes(data: seq<nat>, size: nat, more: seq<seq<nat>> -> bool, seen: seq<seq<nat>>)
    requires size > 0
    ensures var cs := Chunks(data, size, more, seen);
            && (forall i :: |seen| <= i < |cs| - 1 ==> |cs[i]| == size && more(cs[..i + 1]))
            && (forall i :: |seen| <= i < |cs| ==> 0 < |cs[i]| <= size)
    decreases |data|
  {
    if data != [] {
      var chunk := if size < |data| then data[..size] else data;
      var next, rest := seen + [chunk], data[|chunk|..];
      if more(next) {
        ChunkSizes(rest, size, more, next);
        ChunksGrow(rest, size, more, next);
        var cs := Chunks(rest, size, more, next);
        assert Chunks(data, size, more, seen) == cs;
        if rest == [] { NoChunk(size, more, next); } else { assert |chunk| == size; }
        forall i | |seen| <= i < |cs| - 1 ensures |cs[i]| == size && more(cs[..i + 1]) {
          if i == |seen| { assert cs[..i + 1] == next && cs[i] == next[i]; }
        }
        forall i | |seen| <= i < |cs| ensures 0 < |cs[i]| <= size {
          if i == |seen| { assert cs[i] == next[i]; }
        }
      }
    }
  }

  /** The chunks are the data from the start on, in order; all of it unless the callback stops. */
  lemma {:induction false} ChunksInOrder(data: seq<nat>, size: nat, more: seq<seq<nat>> -> bool, seen: seq<seq<nat>>)
    requires size > 0
    ensures var cs := Chunks(data, size, more, seen);
            && seen <= cs && Joined(seen) <= Joined(cs) <= Joined(seen) + data
            && (Joined(cs) != Joined(seen) + data ==> |seen| < |cs| && !more(cs))
    decreases |data|
  {
    hide Joined;
    ChunksGrow(data, size, more, seen);
    if data == [] {
      assert Joined(seen) + [] == Joined(seen);
    } else {
      var chunk := if size < |data| then data[..size] else data;
      var next, rest := seen + [chunk], data[|chunk|..];
      JoinedStep(next, |seen|);
      assert next[..|seen|] == seen && next[..|seen| + 1] == next;
      assert Joined(seen) + data == Joined(next) + rest;
      if more(next) { ChunksInOrder(rest, size, more, next); }
    }
  }

  /** The data from the start on, all of them unless the callback has stopped the walk: in one piece for
      size 0, else in chunks of that size, the last of which may be smaller. */
  ghost predicate Delivers(cs: seq<seq<nat>>, data: seq<nat>, size: nat, more: seq<seq<nat>> -> bool) {
    && Joined(cs) <= data && (Joined(cs) != data ==> cs != [] && !more(cs)) && (size == 0 ==> |cs| == 1)
    && (size > 0 ==> forall i :: 0 <= i < |cs| ==> 0 < |cs[i]| <= size)
    && (size > 0 ==> forall i :: 0 <= i < |cs| - 1 ==> |cs[i]| == size && more(cs[..i + 1]))
  }

  lemma WalkMeans(data: seq<nat>, size: nat, more: seq<seq<nat>> -> bool)
    ensures Delivers(if size == 0 then [data] else Chunks(data, size, more, []), data, size, more)
  {
    hide Chunks;
    NothingJoined();
    assert [] + data == data;
    if size == 0 {
      JoinedStep([data], 0);
      assert [data][..0] == [] && [data][..1] == [data];
    } else {
      ChunksInOrder(data, size, more, []);
      ChunkSizes(data, size, more, []);
    }
  }

  /** Where the last chunk begins. */
  function LastChunk(start: nat, write: nat, chunksize: nat): nat
    requires chunksize > 0 && start < write
  {
    start + (write - start - 1) / chunksize * chunksize
  }

  /** The step past the last chunk fits into 64 bits. */
  predicate StepFits(start: nat, write: nat, chunksize: nat) {
    chunksize > 0 && start < write ==> LastChunk(start, write, chunksize) + chunksize < TWO_64
  }

  /** The callback asks for more after every chunk, the last one included. */
  ghost predicate AsksOn(data: seq<nat>, size: nat, more: seq<seq<nat>> -> bool, seen: seq<seq<nat>>)
    requires size > 0
    decreases |data|
  {
    data != [] &&
    var chunk := if size < |data| then data[..size] else data;
    more(seen + [chunk]) && (size >= |data| || AsksOn(data[size..], size, more, seen + [chunk]))
  }

  /** The walk ends behind the last chunk: the step past it fits, or the callback stops it before. */
  ghost predicate WalkEnds(data: seq<nat>, start: nat, size: nat, more: seq<seq<nat>> -> bool) {
    size == 0 || StepFits(start, start + |data|, size) || !AsksOn(data, size, more, [])
  }

  /** The loop stands before what is left, and has delivered the rest. */
  ghost predicate WalkStands(m: Image, start: nat, write: nat, size: nat, more: seq<seq<nat>> -> bool,
                             n: nat, at: nat, left: seq<nat>, seen: seq<seq<nat>>, all: seq<nat>) {
    && size > 0 && write <= 8 * |m|
    && Chunks(all, size, more, []) == Chunks(left, size, more, seen)
    && (if at < write then Standing(m, start, write, size, n, at, left) else left == [])
    && (left != [] ==> StepFits(start, write, size) || !AsksOn(left, size, more, seen))
  }

  lemma WalkStart(m: Image, start: nat, write: nat, size: nat, more: seq<seq<nat>> -> bool)
    requires 0 < size < TWO_64 && start <= write < TWO_64 && write <= 8 * |m|
    requires WalkEnds(Content(m, start, write), start, size, more)
    ensures WalkStands(m, start, write, size, more, 0, start, Content(m, start, write), [], Content(m, start, write))
  {
  }

  lemma WalkNext(m: Image, start: nat, write: nat, size: nat, more: seq<seq<nat>> -> bool,
                 n: nat, at: nat, left: seq<nat>, seen: seq<seq<nat>>, chunk: seq<nat>, all: seq<nat>)
    requires WalkStands(m, start, write, size, more, n, at, left, seen, all) && at < write && size < TWO_64
    requires at + (if size < write - at then size else write - at) <= 8 * |m|
    requires chunk == Content(m, at, at + if size < write - at then size else write - at)
    ensures var len := if size < write - at then size else write - at;
            var at' := (at + size) % TWO_64;
            && len <= |left| && len > 0
            && (if !more(seen + [chunk]) then Chunks(all, size, more, []) == seen + [chunk]
                else
                  && WalkStands(m, start, write, size, more, n + 1, at', left[len..], seen + [chunk], all)
                  && (at' < write ==> left[len..] == Content(m, at', write)))
  {
    hide StepFits;
    hide Chunks;
    StandingNext(m, start, write, size, n, at, left);
    ChunkStep(left, size, more, seen);
    if more(seen + [chunk]) {
      if size < |left| {
        if !StepFits(start, write, size) { AsksLess(left, size, more, seen, chunk); }
      } else {
        assert left[..|left|] == left;
        LastStanding(m, start, write, size, n, at, left);
      }
    }
  }

  lemma WalkDone(m: Image, start: nat, write: nat, size: nat, more: seq<seq<nat>> -> bool,
                 n: nat, at: nat, left: seq<nat>, seen: seq<seq<nat>>, all: seq<nat>)
    requires WalkStands(m, start, write, size, more, n, at, left, seen, all) && at >= write
    ensures Chunks(all, size, more, []) == seen
  {
    NoChunk(size, more, seen);
  }

  lemma AsksLess(data: seq<nat>, size: nat, more: seq<seq<nat>> -> bool, seen: seq<seq<nat>>, chunk: seq<nat>)
    requires size > 0 && data != [] && chunk == (if size < |data| then data[..size] else data)
    requires more(seen + [chunk]) && !AsksOn(data, size, more, seen)
    ensures size < |data| && !AsksOn(data[size..], size, more, seen + [chunk])
  {
  }

  // ---------------------------------------------------------------------------------------
  // The loop as it is
  // ---------------------------------------------------------------------------------------

  /** At most `steps` rounds of the loop, the offset taken modulo 2^64: whether it has ended, and the
      chunks delivered. */
  ghost function Walked(m: Image, at: nat, write: nat, size: nat, more: seq<seq<nat>> -> bool, seen: seq<seq<nat>>,
                        steps: nat): (r: (bool, seq<seq<nat>>))
    requires write <= 8 * |m|
    ensures |r.1| >= |seen|
    decreases steps
  {
    if at >= write then (true, seen)
    else if steps == 0 then (false, seen)
    else
      var next := seen + [Content(m, at, at + if size < write - at then size else write - at)];
      if !more(next) then (true, next) else Walked(m, (at + size) % TWO_64, write, size, more, next, steps - 1)
  }

  /** The loop stands n chunks behind the start. */
  ghost predicate Standing(m: Image, start: nat, write: nat, size: nat, n: nat, at: nat, left: seq<nat>) {
    && size > 0 && write < TWO_64 && write <= 8 * |m| && start <= at < write && at == start + n * size
    && left == Content(m, at, write)
  }

  lemma StandingNext(m: Image, start: nat, write: nat, size: nat, n: nat, at: nat, left: seq<nat>)
    requires Standing(m, start, write, size, n, at, left)
    ensures var len := if size < |left| then size else |left|;
            Content(m, at, at + len) == left[..len] && |left| == write - at
    ensures size < |left| ==>
              (at + size) % TWO_64 == at + size && Standing(m, start, write, size, n + 1, at + size, left[size..])
  {
    Times(n + 1, n, size);
  }

  lemma LastStanding(m: Image, start: nat, write: nat, size: nat, n: nat, at: nat, left: seq<nat>)
    requires Standing(m, start, write, size, n, at, left) && size >= |left| && size < TWO_64
    ensures StepFits(start, write, size) ==> (at + size) % TWO_64 >= write
    ensures !StepFits(start, write, size) ==> (at + size) % TWO_64 < write
  {
    hide LastChunk;
    hide Content;
    AtLast(m, start, write, size, n, at, left);
    WrapsOnce(at, size);
  }

  lemma AtLast(m: Image, start: nat, write: nat, size: nat, n: nat, at: nat, left: seq<nat>)
    requires Standing(m, start, write, size, n, at, left) && size >= |left|
    ensures LastChunk(start, write, size) == at && write <= at + size
  {
    hide LastChunk;
    var q := LastParts(start, write, size);
    SameQuotient(n, q, size, write - start - 1);
  }

  lemma WrapsOnce(a: nat, b: nat)
    requires a < TWO_64 && b < TWO_64
    ensures (a + b) % TWO_64 == if a + b < TWO_64 then a + b else a + b - TWO_64
  {
  }

  lemma SameQuotient(n: nat, q: nat, c: nat, d: nat)
    requires c > 0 && n * c <= d < n * c + c && q * c <= d < q * c + c
    ensures n == q
  {
    Times(n, q + 1, c);
    Times(q, n + 1, c);
  }

  /** If the walk ends behind the last chunk, it has delivered the chunks of the data. */
  lemma {:induction false} WalkedWell(m: Image, start: nat, write: nat, size: nat, more: seq<seq<nat>> -> bool,
                                      n: nat, at: nat, left: seq<nat>, seen: seq<seq<nat>>)
    requires Standing(m, start, write, size, n, at, left) && size < TWO_64
    requires StepFits(start, write, size) || !AsksOn(left, size, more, seen)
    ensures Walked(m, at, write, size, more, seen, |left|) == (true, Chunks(left, size, more, seen))
    decreases |left|
  {
    hide Chunks;
    hide Content;
    hide StepFits;
    StandingNext(m, start, write, size, n, at, left);
    ChunkStep(left, size, more, seen);
    var len := if size < |left| then size else |left|;
    var next := seen + [left[..len]];
    if more(next) {
      if size < |left| {
        WalkedWell(m, start, write, size, more, n + 1, at + size, left[size..], next);
        MoreSteps(m, at + size, write, size, more, next, |left| - size, |left| - 1);
      } else {
        LastStanding(m, start, write, size, n, at, left);
        assert left[..len] == left && left[len..] == [];
        NoChunk(size, more, next);
      }
    }
  }

  /** A walk that has ended is not changed by more rounds. */
  lemma {:induction false} MoreSteps(m: Image, at: nat, write: nat, size: nat, more: seq<seq<nat>> -> bool,
                                     seen: seq<seq<nat>>, few: nat, many: nat)
    requires write <= 8 * |m| && few <= many && Walked(m, at, write, size, more, seen, few).0
    ensures Walked(m, at, write, size, more, seen, many) == Walked(m, at, write, size, more, seen, few)
    decreases few
  {
    if at < write {
      var next := seen + [Content(m, at, at + if size < write - at then size else write - at)];
      if more(next) { MoreSteps(m, (at + size) % TWO_64, write, size, more, next, few - 1, many - 1); }
    }
  }

  /** Otherwise it goes back, and never ends with just the chunks of the data. */
  lemma {:induction false} WalkedWraps(m: Image, start: nat, write: nat, size: nat, more: seq<seq<nat>> -> bool,
                                       n: nat, at: nat, left: seq<nat>, seen: seq<seq<nat>>, steps: nat)
    requires Standing(m, start, write, size, n, at, left) && size < TWO_64
    requires !StepFits(start, write, size) && AsksOn(left, size, more, seen)
    ensures Walked(m, at, write, size, more, seen, steps).0 ==>
              |Walked(m, at, write, size, more, seen, steps).1| > |Chunks(left, size, more, seen)|
    decreases |left|
  {
    hide Content;
    hide Chunks;
    hide StepFits;
    StandingNext(m, start, write, size, n, at, left);
    ChunkStep(left, size, more, seen);
    if steps > 0 {
      var len := if size < |left| then size else |left|;
      var next := seen + [left[..len]];
      if size < |left| {
        WalkedWraps(m, start, write, size, more, n + 1, at + size, left[size..], next, steps - 1);
      } else {
        LastStanding(m, start, write, size, n, at, left);
        assert left[..len] == left && left[len..] == [];
        NoChunk(size, more, next);
      }
    }
  }

  /** Walking delivers the chunks of the data and ends, or it wraps around: exactly if the step past
      the last chunk does not fit into 64 bits and the callback still asks for more there. */
  lemma WalkDelivers(m: Image, start: nat, write: nat, size: nat, more: seq<seq<nat>> -> bool)
    requires 0 < size < TWO_64 && start <= write < TWO_64 && write <= 8 * |m|
    ensures var data := Content(m, start, write);
            (exists steps: nat :: Walked(m, start, write, size, more, [], steps) ==
                (true, Chunks(data, size, more, [])))
            <==> WalkEnds(data, start, size, more)
  {
    var data := Content(m, start, write);
    if start == write {
      NoChunk(size, more, []);
      assert Walked(m, start, write, size, more, [], 0) == (true, Chunks(data, size, more, []));
    } else if WalkEnds(data, start, size, more) {
      WalkedWell(m, start, write, size, more, 0, start, data, []);
    } else {
      forall steps: nat ensures Walked(m, start, write, size, more, [], steps) != (true, Chunks(data, size, more, [])) {
        WalkedWraps(m, start, write, size, more, 0, start, data, [], steps);
      }
    }
  }

  lemma LastParts(start: nat, write: nat, chunksize: nat) returns (q: nat)
    requires chunksize > 0 && start < write
    ensures LastChunk(start, write, chunksize) == start + q * chunksize
    ensures q * chunksize <= write - start - 1 < q * chunksize + chunksize
  {
    q := (write - start - 1) / chunksize;
    assert write - start - 1 == q * chunksize + (write - start - 1) % chunksize;
  }

  lemma Times(x: nat, y: nat, c: nat)
    ensures x >= y ==> x * c >= y * c
    ensures (x + 1) * c == x * c + c && (y + 1) * c == y * c + c
  {
  }

  lemma NoChunk(size: nat, more: seq<seq<nat>> -> bool, seen: seq<seq<nat>>)
    requires size > 0
    ensures Chunks([], size, more, seen) == seen
  {
  }

  /** One chunk of what is left. */
  lemma ChunkStep(data: seq<nat>, size: nat, more: seq<seq<nat>> -> bool, seen: seq<seq<nat>>)
    requires size > 0 && data != []
    ensures var len := if size < |data| then size else |data|;
            var next := seen + [data[..len]];
            Chunks(data, size, more, seen) == if !more(next) then next else Chunks(data[len..], size, more, next)
  {
    assert data[..|data|] == data;
  }

}
