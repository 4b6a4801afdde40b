/** `PoolAllocator` used by one thread (src/Containers.h, lines 139-484 and 547-581).

    Every write below is a step of the concurrent protocol, so the ownership invariant proved
    there is this class's invariant too, with the calling thread as the only one. */
module SequentialPool {
  import opened Bits
  import opened Kernel
  import opened PoolProtocol
  import opened PoolSafety
  import opened PoolSearch
  import opened PoolSteps
  import opened PoolTheorems
  import opened PoolWords
  import opened ZeroRuns

  /** `UINT32_MAX`, the result of an allocation that found no room */
  const NO_ROOM: nat := 0xFFFF_FFFF

  /** The state of the pool while its only thread is at `pc`. */
  ghost predicate Shows(poolSize: nat, ws: seq<Word>, blocks: map<nat, nat>, pc: Pc, o: seq<Owner>) {
    Inv(Pool(poolSize, Intended), State(ws, blocks, [pc]), o)
  }

  /** What an attempt to start a block in one word ends with. */
  datatype Attempt = OneWord(b: nat) | Across(plan: Plan) | TryNext(wordIndex: nat) | GiveUp

  ghost predicate AttemptOk(poolSize: nat, ws: seq<Word>, req: Request, w: nat, a: Attempt)
    requires |ws| == WordCount(poolSize) && w < |ws|
  {
    match a
    case OneWord(b) =>
      && PcOk(Pool(poolSize, Intended), CasSingle(req, w, b, ws[w])) && Fits(ws, 64 * w + b, req.count)
      && NoFit(ws, req.count, req.alignment, 64 * w, 64 * w + b)
    case Across(p) =>
      && p.req == req && p.w == w && PcOk(Pool(poolSize, Intended), CasFirst(p, ws[w]))
      && Fits(ws, p.Start(), req.count) && NoFit(ws, req.count, req.alignment, 64 * w, p.Start())
    case TryNext(v) =>
      w < v && CanStartIn(req.alignment, v) && NoFit(ws, req.count, req.alignment, 64 * w, 64 * v)
    case GiveUp => NoFitFrom(ws, req.count, req.alignment, 64 * w)
  }

  class PoolAllocator {
    const poolSize: nat
    const words: array<Word>
    /** the live blocks: start to size */
    ghost var blocks: map<nat, nat>
    ghost var owners: seq<Owner>

    ghost predicate Valid()
      reads this, words
    {
      && words.Length == WordCount(poolSize) && 0 < poolSize <= 0x1_0000_0000 - 64
      && Shows(poolSize, words[..], blocks, Idle, owners)
    }

    /** Lines 215-295, for one word: where a block could start in it, or where to go on. */
    method TryWord(req: Request, w: nat) returns (a: Attempt)
      requires words.Length == WordCount(poolSize) && req.Valid() && w < words.Length && CanStartIn(req.alignment, w)
      ensures AttemptOk(poolSize, words[..], req, w, a)
    {
      hide IsPowerOfTwo, CanStartIn, NextWord, NoFit, Fits, FirstFit, PcOk;
      ghost var ws := words[..];
      var count, alignment := req.count, req.alignment;
      NextWordCanStart(alignment, w);
      NoFitInSkippedWords(ws, count, alignment, w);
      var currentWord := words[w];
      if currentWord.bitmap == Ones() {
        NoFitInFullWord(ws, count, alignment, w);
        NoFitJoin(ws, count, alignment, 64 * w, 64 * (w + 1), 64 * NextWord(alignment, w));
        return TryNext(NextWord(alignment, w));
      }
      PowerOfTwoIff(alignment);
      var found := FindConsecutiveZerosAligned(currentWord.bitmap, req.count, req.alignment);
      var b := found.value;
      NoFitBefore(ws, count, alignment, w, b);
      if b == 64 {
        NoFitJoin(ws, count, alignment, 64 * w, 64 * (w + 1), 64 * NextWord(alignment, w));
        return TryNext(NextWord(alignment, w));
      }
      PlanOrSingle(poolSize, ws, req, w, b);
      if b + req.count <= 64 {
        return OneWord(b);
      }
      a := ScanOn(Plan(req, w, b, w + 1, req.count - (64 - b)));
    }

    /** Lines 253-295: whether the words behind the first are free. */
    method ScanOn(start: Plan) returns (a: Attempt)
      requires words.Length == WordCount(poolSize)
      requires PlanOk(Pool(poolSize, Intended), start) && start.next == start.w + 1
      requires ZerosAt(words[start.w].bitmap, 64, start.b)
      requires NoFit(words[..], start.req.count, start.req.alignment, 64 * start.w, start.Start())
      ensures AttemptOk(poolSize, words[..], start.req, start.w, a)
    {
      var p := start;
      ghost var ws := words[..];
      while p.rest >= 64
        invariant p == start.(next := p.next, rest := p.rest)
        invariant PlanOk(Pool(poolSize, Intended), p)
        invariant FreeUpTo(ws, p.w, p.b, p.next)
        decreases p.rest
      {
        if p.next >= words.Length {
          NoFitAtEnd(ws, p.req.count, p.req.alignment, 64 * p.w, p.Start());
          return GiveUp;
        }
        if words[p.next].bitmap != Zeros() {
          ghost var k :| 0 <= k < 64 && ws[p.next].bitmap[k];
          Blocked(poolSize, ws, p, k);
          return TryNext(NextWord(p.req.alignment, p.next - 1));
        }
        p := p.(next := p.next + 1, rest := p.rest - 64);
      }
      if p.rest > 0 {
        if p.next >= words.Length {
          NoFitAtEnd(ws, p.req.count, p.req.alignment, 64 * p.w, p.Start());
          return GiveUp;
        }
        LowBitsTest(words[p.next].bitmap, p.rest);
        if Shl(words[p.next].bitmap, 64 - p.rest) != Zeros() {
          ghost var k :| 0 <= k < p.rest && ws[p.next].bitmap[k];
          Blocked(poolSize, ws, p, k);
          return TryNext(NextWord(p.req.alignment, p.next - 1));
        }
      }
      PlanFitsThere(ws, p.w, p.b, p.next, p.rest);
      a := Across(p);
    }

    /** `AllocateInternal` with nobody interfering: the least aligned position from the hint's word
        on where `count` slots are free. */
    method AllocateInternal(hint: nat, count: nat, alignment: nat) returns (r: Outcome<nat>)
      requires Valid() && count <= 0x1_0000_0000 - 64 && alignment < 0x1_0000_0000
      modifies this`blocks, this`owners, words
      ensures Valid()
      ensures r.Panics? <==> count == 0 || !SomePower(alignment) || !Aligned(hint, alignment)
      ensures r.Panics? || r.value == NO_ROOM ==> blocks == old(blocks) && words[..] == old(words[..])
      ensures r == Returns(NO_ROOM) ==> NoFitFrom(old(words[..]), count, alignment, WordStart(hint))
      ensures r.Returns? && r.value != NO_ROOM ==>
                && IsFirstFit(old(words[..]), count, alignment, WordStart(hint), r.value)
                && r.value !in old(blocks) && blocks == old(blocks)[r.value := count]
    {
      PowerOfTwoIff(alignment);
      if count == 0 || !IsPowerOfTwo(alignment) || !Aligned(hint, alignment) {
        return Panics;
      }
      HintCanStart(alignment, hint);
      var p := SearchFrom(Request(count, alignment), hint / 64);
      r := Returns(p);
    }

    /** Lines 209-380: the word loop, with the commit of the place it finds. */
    method SearchFrom(req: Request, firstWord: nat) returns (r: nat)
      requires Valid() && req.Valid() && CanStartIn(req.alignment, firstWord)
      modifies this`blocks, this`owners, words
      ensures Valid()
      ensures r == NO_ROOM ==>
                && blocks == old(blocks) && words[..] == old(words[..])
                && NoFitFrom(old(words[..]), req.count, req.alignment, 64 * firstWord)
      ensures r != NO_ROOM ==>
                && IsFirstFit(old(words[..]), req.count, req.alignment, 64 * firstWord, r)
                && r !in old(blocks) && blocks == old(blocks)[r := req.count]
    {
      hide IsPowerOfTwo, CanStartIn, NoFitFrom, NoFit, Fits, PcOk, Aligned, Shows;
      ghost var ws := words[..];
      ghost var lo := 64 * firstWord;
      var wordIndex := firstWord;
      NoFitNowhere(ws, req.count, req.alignment, lo);
      while wordIndex < words.Length
        invariant Valid() && words[..] == ws && blocks == old(blocks)
        invariant firstWord <= wordIndex && CanStartIn(req.alignment, wordIndex)
        invariant NoFit(ws, req.count, req.alignment, lo, 64 * wordIndex)
        decreases words.Length - wordIndex
      {
        var a := TryWord(req, wordIndex);
        match a {
          case GiveUp =>
            NoFitExtend(ws, req.count, req.alignment, lo, 64 * wordIndex);
            return NO_ROOM;
          case TryNext(v) =>
            NoFitJoin(ws, req.count, req.alignment, lo, 64 * wordIndex, 64 * v);
            wordIndex := v;
          case OneWord(b) =>
            NoFitJoin(ws, req.count, req.alignment, lo, 64 * wordIndex, 64 * wordIndex + b);
            CommitSingle(req, wordIndex, b);
            return 64 * wordIndex + b;
          case Across(p) =>
            NoFitJoin(ws, req.count, req.alignment, lo, 64 * wordIndex, p.Start());
            CommitAcross(p);
            return p.Start();
        }
      }
      NoFitAtEnd(ws, req.count, req.alignment, lo, 64 * wordIndex);
      r := NO_ROOM;
    }

    /** Lines 231-240 */
    method CommitSingle(req: Request, w: nat, b: nat)
      requires Valid() && w < words.Length && PcOk(Pool(poolSize, Intended), CasSingle(req, w, b, words[w]))
      modifies this`blocks, this`owners, words
      ensures Valid() && 64 * w + b !in old(blocks) && blocks == old(blocks)[64 * w + b := req.count]
      ensures 64 * w + b < poolSize && Aligned(64 * w + b, req.alignment)
    {
      owners := SingleShows(poolSize, words[..], blocks, owners, req, w, b);
      words[w] := SingleWord(words[w], b, req.count);
      blocks := blocks[64 * w + b := req.count];
    }

    /** Lines 300-348: the words are claimed front to back. */
    method CommitAcross(p: Plan)
      requires Valid() && p.w < words.Length && PcOk(Pool(poolSize, Intended), CasFirst(p, words[p.w]))
      requires Fits(words[..], p.Start(), p.req.count)
      modifies this`blocks, this`owners, words
      ensures Valid() && p.Start() !in old(blocks) && blocks == old(blocks)[p.Start() := p.req.count]
      ensures p.Start() < poolSize && Aligned(p.Start(), p.req.alignment)
    {
      hide Shows, IsPowerOfTwo, Aligned;
      var first := FirstWord(words[p.w], p.b);
      ghost var o := FirstShows(poolSize, words[..], blocks, owners, p);
      words[p.w] := first;
      var wordIndex := p.w + 1;
      while wordIndex < p.next
        invariant p.w < wordIndex <= p.next && blocks == old(blocks)
        invariant Shows(poolSize, words[..], blocks, CasWhole(p, first, wordIndex), o)
        invariant forall v :: wordIndex <= v < words.Length ==> words[v] == old(words[v])
      {
        o := WholeShows(poolSize, words[..], old(words[..]), blocks, o, p, first, wordIndex);
        words[wordIndex] := FullWord();
        wordIndex := wordIndex + 1;
      }
      if p.rest > 0 {
        var finalWord := Keep(words[wordIndex], Not(RestMask(p.rest)));
        owners := FinalShows(poolSize, words[..], old(words[..]), blocks, o, p, first);
        words[wordIndex] := FinalWord(finalWord, p.rest);
      } else {
        owners := DoneShows(poolSize, words[..], blocks, o, p, first);
      }
      blocks := blocks[p.Start() := p.req.count];
    }

    constructor (poolSize: nat)
      requires 0 < poolSize <= 0x1_0000_0000 - 64
      ensures Valid() && fresh(words) && this.poolSize == poolSize && blocks == map[]
    {
      this.poolSize := poolSize;
      words := new Word[WordCount(poolSize)](_ => EmptyWord());
      blocks := map[];
      new;
      if poolSize % 64 != 0 {
        words[poolSize / 64] := Word(Shl(Ones(), poolSize % 64), Shl(Single(0), poolSize % 64));
      }
      assert words[..] == InitialWords(poolSize);
      owners := InitialShows(poolSize);
    }

    /** First fit, and complete: the least aligned position that starts `count` free slots, and
        `NO_ROOM` exactly when there is none. */
    method Allocate(count: nat, alignment: nat) returns (r: Outcome<nat>)
      requires Valid() && count <= 0x1_0000_0000 - 64 && alignment < 0x1_0000_0000
      modifies this`blocks, this`owners, words
      ensures Valid()
      ensures r.Panics? <==> count == 0 || !SomePower(alignment)
      ensures r.Panics? || r.value == NO_ROOM ==> blocks == old(blocks) && words[..] == old(words[..])
      ensures r == Returns(NO_ROOM) ==> NoFitFrom(old(words[..]), count, alignment, 0)
      ensures r.Returns? && r.value != NO_ROOM ==>
                && IsFirstFit(old(words[..]), count, alignment, 0, r.value)
                && r.value !in old(blocks) && blocks == old(blocks)[r.value := count]
    {
      PowerOfTwoIff(alignment);
      // A first attempt that nobody interferes with is the last one.
      r := AllocateInternal(0, count, alignment);
    }

    /** The size is not stored: it is read off the bits, and it is the size asked for. */
    method GetBlockSize(start: nat) returns (r: Outcome<nat>)
      requires Valid()
      ensures r == if start in blocks then Returns(blocks[start]) else Panics
    {
      ghost var pool, s := Pool(poolSize, Intended), State(words[..], blocks, [Idle]);
      BlocksInside(poolSize, words[..], blocks, owners);
      if start >= poolSize {
        return Panics;
      }
      var wordIndex, bitIndex := start / 64, start % 64;
      var currentWord := words[wordIndex];
      StartIffBlock(poolSize, words[..], blocks, owners, wordIndex, bitIndex);
      hide Shows, Inv, Extent;
      if !currentWord.starts[bitIndex] {
        return Panics;
      }
      ghost var n := FirstRun(pool, s, owners, Block(start), wordIndex, bitIndex);
      var count := 1;
      if bitIndex + 1 < 64 {
        count := count + CountrOne(Shr(Xor(currentWord.bitmap, currentWord.starts), bitIndex + 1));
      }
      var position := bitIndex + count;
      wordIndex := wordIndex + 1;
      while position == 64 && wordIndex < words.Length
        invariant 0 < count <= blocks[start] && wordIndex <= words.Length
        invariant position <= 64 && start + count == 64 * (wordIndex - 1) + position
        invariant position < 64 ==> count == blocks[start]
        decreases words.Length - wordIndex
      {
        var nextWord := words[wordIndex];
        ghost var run := WordRun(pool, s, owners, Block(start), wordIndex);
        position := CountrOne(Xor(nextWord.bitmap, nextWord.starts));
        count := count + position;
        wordIndex := wordIndex + 1;
      }
      r := Returns(count);
    }

    /** Exactly the block is given back; anything that is not the start of a block panics. */
    method Deallocate(start: nat) returns (r: Outcome<()>)
      requires Valid()
      modifies this`blocks, this`owners, words
      ensures Valid()
      ensures r == if start in old(blocks) then Returns(()) else Panics
      ensures blocks == old(blocks) - {start} && (r.Panics? ==> words[..] == old(words[..]))
    {
      if start >= poolSize {
        BlocksInside(poolSize, words[..], blocks, owners);
        return Panics;
      }
      var size := GetBlockSize(start);
      if size.Panics? {
        return Panics;
      }
      var count := size.value;
      var bitIndex := start % 64;
      var ok;
      if bitIndex + count <= 64 {
        ok := FreeOneWord(start, count);
      } else {
        ok := FreeAcross(start, count);
      }
      r := if ok then Returns(()) else Panics;
    }

    /** Lines 396-418. The check of line 404 passes. */
    method FreeOneWord(start: nat, count: nat) returns (ok: bool)
      requires Valid() && start in blocks && blocks[start] == count && start % 64 + count <= 64
      modifies this`blocks, this`owners, words
      ensures ok && Valid() && blocks == old(blocks) - {start}
    {
      hide Shows, Inv, Clearable;
      BlocksInside(poolSize, words[..], blocks, owners);
      var wordIndex, bitIndex := start / 64, start % 64;
      var gone := Shl(Shr(Ones(), 64 - count), bitIndex);
      var currentWord := words[wordIndex];
      ghost var after := OneWordFreed(poolSize, words[..], blocks, owners, start);
      ok := Clearable(gone, Single(bitIndex), currentWord);
      if ok {
        words[wordIndex] := Keep(currentWord, Not(gone));
        owners, blocks := after, blocks - {start};
      }
    }

    /** Lines 420-483: the words are cleared back to front, so that the block only shrinks. The checks
        of lines 428, 439 and 469 pass. */
    method FreeAcross(start: nat, count: nat) returns (ok: bool)
      requires Valid() && start in blocks && blocks[start] == count && start % 64 + count > 64
      modifies this`blocks, this`owners, words
      ensures ok && Valid() && blocks == old(blocks) - {start}
    {
      hide Shows, Inv;
      BlocksInside(poolSize, words[..], blocks, owners);
      LastSlot(start, count);
      owners := Shrinking(poolSize, words[..], blocks, owners, start);
      blocks := blocks - {start};
      ok := (start + count - 1) / 64 < words.Length;
      if ok {
        ok := ClearBackwards(start, start + count);
      }
    }

    /** Lines 432-453 */
    method ClearBackwards(start: nat, end: nat) returns (ok: bool)
      requires 0 < end && (end - 1) / 64 < words.Length == WordCount(poolSize) && start / 64 < (end - 1) / 64
      requires Shows(poolSize, words[..], blocks, FreeFrom(start, end), owners)
      modifies this`owners, words
      ensures ok && Shows(poolSize, words[..], blocks, Idle, owners)
    {
      hide Shows, Clearable;
      var wordIndex := (end - 1) / 64;
      ok := true;
      if end % 64 != 0 {
        var mask := Shl(Ones(), end % 64);
        ghost var after := LastFreed(poolSize, words[..], blocks, owners, start, wordIndex, end % 64);
        ok := Clearable(Not(mask), Zeros(), words[wordIndex]);
        if ok {
          words[wordIndex] := Keep(words[wordIndex], mask);
          owners := after;
          wordIndex := wordIndex - 1;
        }
      }
      if ok {
        ok := ClearWholeWords(start, wordIndex);
      }
    }

    /** Lines 455-483 */
    method ClearWholeWords(start: nat, last: nat) returns (ok: bool)
      requires start / 64 <= last < words.Length == WordCount(poolSize)
      requires Shows(poolSize, words[..], blocks, FreeWhole(start, last), owners)
      modifies this`owners, words
      ensures ok && Shows(poolSize, words[..], blocks, Idle, owners)
    {
      hide Shows, Clearable;
      var wordIndex := last;
      while wordIndex != start / 64
        invariant start / 64 <= wordIndex < words.Length
        invariant Shows(poolSize, words[..], blocks, FreeWhole(start, wordIndex), owners)
        decreases wordIndex
      {
        owners := WholeFreed(poolSize, words[..], blocks, owners, start, wordIndex);
        words[wordIndex] := EmptyWord();
        wordIndex := wordIndex - 1;
      }
      var gone := Shl(Ones(), start % 64);
      ghost var after := FirstFreed(poolSize, words[..], blocks, owners, start);
      ok := Clearable(gone, Single(start % 64), words[wordIndex]);
      if ok {
        words[wordIndex] := Keep(words[wordIndex], Not(gone));
        owners := after;
      }
    }
  }

  /** The bit found is aligned, and either the block ends in this word or its tail is free. */
  lemma PlanOrSingle(poolSize: nat, ws: seq<Word>, req: Request, w: nat, b: nat)
    requires |ws| == WordCount(poolSize) && w < |ws| && req.Valid() && CanStartIn(req.alignment, w)
    requires b == FirstFit(ws[w].bitmap, req.count, req.alignment, 0) < 64
    ensures b + req.count <= 64 ==>
              PcOk(Pool(poolSize, Intended), CasSingle(req, w, b, ws[w])) && Fits(ws, 64 * w + b, req.count)
    ensures b + req.count > 64 ==>
              PlanOk(Pool(poolSize, Intended), Plan(req, w, b, w + 1, req.count - (64 - b))) && ZerosAt(ws[w].bitmap, 64, b)
  {
    hide IsPowerOfTwo, CanStartIn;
    AlignedPosition(req.alignment, w, b);
    if b + req.count <= 64 {
      SingleFitsThere(ws, w, b, req.count);
    }
  }

  /** A used slot of word `next` blocks every start before that word: skipping to it loses nothing. */
  lemma Blocked(poolSize: nat, ws: seq<Word>, p: Plan, k: nat)
    requires p.req.Valid() && p.Start() + p.req.count == 64 * p.next + p.rest && p.w < p.next < |ws|
    requires k < 64 && k < p.rest && ws[p.next].bitmap[k]
    requires NoFit(ws, p.req.count, p.req.alignment, 64 * p.w, p.Start()) && p.b < 64
    ensures var v := NextWord(p.req.alignment, p.next - 1);
            p.w < v && CanStartIn(p.req.alignment, v) && NoFit(ws, p.req.count, p.req.alignment, 64 * p.w, 64 * v)
  {
    hide IsPowerOfTwo, CanStartIn, NextWord, NoFit;
    var count, alignment, g := p.req.count, p.req.alignment, 64 * p.next + k;
    var v := NextWord(alignment, p.next - 1);
    NextWordCanStart(alignment, p.next - 1);
    assert Used(ws, g);
    NoFitAcross(ws, count, alignment, p.Start(), 64 * p.next, g);
    NoFitJoin(ws, count, alignment, 64 * p.w, p.Start(), 64 * p.next);
    NoFitInSkippedWords(ws, count, alignment, p.next - 1);
    NoFitJoin(ws, count, alignment, 64 * p.w, 64 * p.next, 64 * v);
  }

  // ---------- The protocol's steps, with one thread ----------

  lemma MoveTo(poolSize: nat, ws: seq<Word>, blocks: map<nat, nat>, o: seq<Owner>, from: Pc, to: Pc) returns (o': seq<Owner>)
    requires Shows(poolSize, ws, blocks, from, o)
    requires PcOk(Pool(poolSize, Intended), to) && !to.Panicked? && Held(to) == Held(from)
    ensures Shows(poolSize, ws, blocks, to, o')
  {
    hide Inv, PcOk, Held;
    var s := State(ws, blocks, [from]);
    o' := QuietStep(Pool(poolSize, Intended), s, o, 0, 0, to);
    assert s.threads[0 := to] == [to];
  }

  lemma SingleShows(poolSize: nat, ws: seq<Word>, blocks: map<nat, nat>, o: seq<Owner>, req: Request, w: nat, b: nat) returns (o': seq<Owner>)
    requires Shows(poolSize, ws, blocks, Idle, o) && w < |ws|
    requires PcOk(Pool(poolSize, Intended), CasSingle(req, w, b, ws[w]))
    ensures 64 * w + b !in blocks && 64 * w + b < poolSize
    ensures Shows(poolSize, ws[w := SingleWord(ws[w], b, req.count)], blocks[64 * w + b := req.count], Idle, o')
  {
    var pool, pc := Pool(poolSize, Intended), CasSingle(req, w, b, ws[w]);
    var o1 := MoveTo(poolSize, ws, blocks, o, Idle, pc);
    var s := State(ws, blocks, [pc]);
    FreeSlotInside(pool, s, o1, w, b);
    NotLive(pool, s, o1, 0, 64 * w + b);
    hide Inv, PcOk, SingleWord;
    o' := ClaimSingle(pool, s, o1, 0, req, w, b);
    assert s.threads[0 := Idle] == [Idle];
  }

  /** A free slot is not the sentinel's. */
  lemma FreeSlotInside(pool: Pool, s: State, o: seq<Owner>, w: nat, b: nat)
    requires Inv(pool, s, o) && w < |s.words| && b < 64 && !s.words[w].bitmap[b]
    ensures !Used(s.words, 64 * w + b) && 64 * w + b < pool.size
  {
    assert (64 * w + b) / 64 == w && (64 * w + b) % 64 == b;
    assert (o[64 * w + b] == Tail) == Extent(pool, s, Tail).Has(64 * w + b);
  }

  lemma FirstShows(poolSize: nat, ws: seq<Word>, blocks: map<nat, nat>, o: seq<Owner>, p: Plan) returns (o': seq<Owner>)
    requires Shows(poolSize, ws, blocks, Idle, o) && p.w < |ws|
    requires PcOk(Pool(poolSize, Intended), CasFirst(p, ws[p.w]))
    ensures p.Start() !in blocks && p.Start() < poolSize
    ensures var first := FirstWord(ws[p.w], p.b);
            Shows(poolSize, ws[p.w := first], blocks, CasWhole(p, first, p.w + 1), o')
  {
    var pool, pc := Pool(poolSize, Intended), CasFirst(p, ws[p.w]);
    var o1 := MoveTo(poolSize, ws, blocks, o, Idle, pc);
    var s := State(ws, blocks, [pc]);
    FreeSlotInside(pool, s, o1, p.w, p.b);
    NotLive(pool, s, o1, 0, p.Start());
    hide Inv, PcOk, FirstWord;
    o' := ClaimFirst(pool, s, o1, 0, p);
    var next := CasWhole(p, FirstWord(ws[p.w], p.b), p.w + 1);
    assert s.threads[0 := next] == [next];
  }

  /** A word without used slots has no starts either. */
  lemma StartsAreUsed(poolSize: nat, ws: seq<Word>, blocks: map<nat, nat>, pc: Pc, o: seq<Owner>, w: nat, k: nat)
    requires Shows(poolSize, ws, blocks, pc, o) && w < |ws| && k < 64
    ensures ws[w].starts[k] ==> ws[w].bitmap[k]
  {
    var s := State(ws, blocks, [pc]);
    assert (64 * w + k) / 64 == w && (64 * w + k) % 64 == k;
    assert Start(s.words, 64 * w + k) ==> Used(s.words, 64 * w + k);
  }

  lemma WholeShows(poolSize: nat, ws: seq<Word>, was: seq<Word>, blocks: map<nat, nat>, o: seq<Owner>, p: Plan, first: Word, i: nat) returns (o': seq<Owner>)
    requires Shows(poolSize, ws, blocks, CasWhole(p, first, i), o) && p.w < i < p.next
    requires |was| == |ws| && i < |ws| && ws[i] == was[i] && Fits(was, p.Start(), p.req.count)
    requires p.b < 64 && p.Start() + p.req.count == 64 * p.next + p.rest
    ensures ws[i] == EmptyWord()
    ensures Shows(poolSize, ws[i := FullWord()], blocks, CasWhole(p, first, i + 1), o')
  {
    var pool, s := Pool(poolSize, Intended), State(ws, blocks, [CasWhole(p, first, i)]);
    forall k | 0 <= k < 64 ensures !ws[i].bitmap[k] && !ws[i].starts[k] {
      assert !Used(was, 64 * i + k);
      StartsAreUsed(poolSize, ws, blocks, CasWhole(p, first, i), o, i, k);
    }
    assert ws[i].bitmap == Zeros() && ws[i].starts == Zeros();
    hide Inv, PcOk, Fits;
    o' := ClaimWhole(pool, s, o, 0, p, first, i);
    var next := CasWhole(p, first, i + 1);
    assert s.threads[0 := next] == [next];
  }

  lemma FinalShows(poolSize: nat, ws: seq<Word>, was: seq<Word>, blocks: map<nat, nat>, o: seq<Owner>, p: Plan, first: Word) returns (o': seq<Owner>)
    requires Shows(poolSize, ws, blocks, CasWhole(p, first, p.next), o) && PlanFits(Pool(poolSize, Intended), p) && 0 < p.rest
    requires |was| == |ws| && p.next < |ws| && ws[p.next] == was[p.next] && Fits(was, p.Start(), p.req.count)
    ensures Shows(poolSize, ws[p.next := FinalWord(Keep(ws[p.next], Not(RestMask(p.rest))), p.rest)],
                  blocks[p.Start() := p.req.count], Idle, o')
  {
    var pool, w := Pool(poolSize, Intended), ws[p.next];
    var pc := CasFinal(p, first, w);
    forall k | 0 <= k < p.rest ensures !w.bitmap[k] && !w.starts[k] {
      assert !Used(was, 64 * p.next + k);
      StartsAreUsed(poolSize, ws, blocks, CasWhole(p, first, p.next), o, p.next, k);
    }
    NothingToMask(w, p.rest);
    hide Fits, IsPowerOfTwo, Aligned, Shows;
    var o1 := MoveTo(poolSize, ws, blocks, o, CasWhole(p, first, p.next), pc);
    o' := FinalClaimed(poolSize, ws, blocks, o1, p, first);
  }

  lemma NothingToMask(w: Word, rest: nat)
    requires 0 < rest < 64 && forall k :: 0 <= k < rest ==> !w.bitmap[k] && !w.starts[k]
    ensures Keep(w, Not(RestMask(rest))) == w
  {
    var x := Keep(w, Not(RestMask(rest)));
    assert x.bitmap == w.bitmap && x.starts == w.starts;
  }

  lemma FinalClaimed(poolSize: nat, ws: seq<Word>, blocks: map<nat, nat>, o: seq<Owner>, p: Plan, first: Word) returns (o': seq<Owner>)
    requires 0 < p.rest < 64 && p.next < |ws| && Shows(poolSize, ws, blocks, CasFinal(p, first, ws[p.next]), o)
    ensures Shows(poolSize, ws[p.next := FinalWord(ws[p.next], p.rest)], blocks[p.Start() := p.req.count], Idle, o')
  {
    var s := State(ws, blocks, [CasFinal(p, first, ws[p.next])]);
    hide Inv, PcOk, FinalWord;
    o' := ClaimFinal(Pool(poolSize, Intended), s, o, 0, p, first);
    assert s.threads[0 := Idle] == [Idle];
  }

  lemma DoneShows(poolSize: nat, ws: seq<Word>, blocks: map<nat, nat>, o: seq<Owner>, p: Plan, first: Word) returns (o': seq<Owner>)
    requires Shows(poolSize, ws, blocks, CasWhole(p, first, p.next), o) && PlanFits(Pool(poolSize, Intended), p) && p.rest == 0
    ensures Shows(poolSize, ws, blocks[p.Start() := p.req.count], Idle, o')
  {
    var s := State(ws, blocks, [CasWhole(p, first, p.next)]);
    hide Inv, PcOk;
    o' := HandOver(Pool(poolSize, Intended), s, o, 0, 0, p.Start(), p.req.count);
    assert s.threads[0 := Idle] == [Idle];
  }

  lemma InitialShows(poolSize: nat) returns (o: seq<Owner>)
    ensures Shows(poolSize, InitialWords(poolSize), map[], Idle, o)
  {
    o := InitialInv(Pool(poolSize, Intended), 1);
    assert Initial(Pool(poolSize, Intended), 1).threads == [Idle];
  }

  lemma BlocksInside(poolSize: nat, ws: seq<Word>, blocks: map<nat, nat>, o: seq<Owner>)
    requires Shows(poolSize, ws, blocks, Idle, o)
    ensures forall b :: b in blocks ==> 0 < blocks[b] && b + blocks[b] <= poolSize
  {
    var pool, s := Pool(poolSize, Intended), State(ws, blocks, [Idle]);
    forall b | b in blocks ensures 0 < blocks[b] && b + blocks[b] <= poolSize {
      var g := b + blocks[b] - 1;
      assert (o[g] == Block(b)) == Extent(pool, s, Block(b)).Has(g);
      assert (o[g] == Tail) == Extent(pool, s, Tail).Has(g);
    }
  }

  /** The bits in plain terms: a slot is in use exactly when a live block covers it or it lies behind the
      end of the pool, and it is marked exactly when a block, or what lies behind the end, starts there. */
  lemma BitsOfBlocks(poolSize: nat, ws: seq<Word>, blocks: map<nat, nat>, o: seq<Owner>, w: nat, k: nat)
    requires Shows(poolSize, ws, blocks, Idle, o) && w < |ws| && k < 64
    ensures |ws| == (poolSize + 63) / 64
    ensures ws[w].bitmap[k] <==>
      poolSize <= 64 * w + k || exists b :: b in blocks && b <= 64 * w + k < b + blocks[b]
    ensures ws[w].starts[k] <==> 64 * w + k == poolSize || 64 * w + k in blocks
  {
    var pool, s, g := Pool(poolSize, Intended), State(ws, blocks, [Idle]), 64 * w + k;
    assert g / 64 == w && g % 64 == k;
    BlocksInside(poolSize, ws, blocks, o);
    assert (o[g] == Tail) == Extent(pool, s, Tail).Has(g);
    assert forall t :: !Extent(pool, s, Thread(t)).Has(g);
    forall b | b in blocks ensures (o[g] == Block(b)) == (b <= g < b + blocks[b]) {
      assert (o[g] == Block(b)) == Extent(pool, s, Block(b)).Has(g);
    }
    if o[g] != Free {
      assert Extent(pool, s, o[g]).Has(g);
    }
  }

  /** Live blocks never overlap. */
  lemma BlocksDisjoint(poolSize: nat, ws: seq<Word>, blocks: map<nat, nat>, o: seq<Owner>, b: nat, c: nat)
    requires Shows(poolSize, ws, blocks, Idle, o) && b in blocks && c in blocks && b < c
    ensures b + blocks[b] <= c
  {
    var pool, s := Pool(poolSize, Intended), State(ws, blocks, [Idle]);
    BlocksInside(poolSize, ws, blocks, o);
    assert (o[c] == Block(b)) == Extent(pool, s, Block(b)).Has(c);
    assert (o[c] == Block(c)) == Extent(pool, s, Block(c)).Has(c);
  }

  /** Below the end of the pool the start bits are exactly the starts of the blocks. */
  lemma StartIffBlock(poolSize: nat, ws: seq<Word>, blocks: map<nat, nat>, o: seq<Owner>, w: nat, b: nat)
    requires Shows(poolSize, ws, blocks, Idle, o) && w < |ws| && b < 64 && 64 * w + b < poolSize
    ensures ws[w].starts[b] <==> 64 * w + b in blocks
    ensures var s := State(ws, blocks, [Idle]);
            64 * w + b in blocks ==> Extent(Pool(poolSize, Intended), s, Block(64 * w + b)) == Span(64 * w + b, 64 * w + b + blocks[64 * w + b])
  {
    var pool, s, g := Pool(poolSize, Intended), State(ws, blocks, [Idle]), 64 * w + b;
    assert g / 64 == w && g % 64 == b;
    assert (o[g] == Tail) == Extent(pool, s, Tail).Has(g);
    assert forall t :: !Extent(pool, s, Thread(t)).Has(g);
    if g in blocks {
      assert (o[g] == Block(g)) == Extent(pool, s, Block(g)).Has(g);
    }
    if o[g] != Free {
      assert Extent(pool, s, o[g]).Has(g);
    }
  }

  /** The caller's block becomes the freeing thread's claim. */
  lemma TakenBack(poolSize: nat, ws: seq<Word>, blocks: map<nat, nat>, o: seq<Owner>, start: nat, pc: Pc) returns (o': seq<Owner>)
    requires Shows(poolSize, ws, blocks, Idle, o) && start in blocks
    requires PcOk(Pool(poolSize, Intended), pc) && !pc.Panicked? && Held(pc) == Span(start, start + blocks[start])
    ensures Shows(poolSize, ws, blocks - {start}, pc, o')
  {
    var s := State(ws, blocks, [Idle]);
    var taken := SizeFirst(start, blocks[start], true);
    assert Held(taken) == Span(start, start + blocks[start]);
    hide Inv, PcOk, Held;
    var o1 := BlockTaken(Pool(poolSize, Intended), s, o, 0, start);
    assert s.threads[0 := taken] == [taken];
    o' := MoveTo(poolSize, ws, blocks - {start}, o1, taken, pc);
  }

  lemma OneWordFreed(poolSize: nat, ws: seq<Word>, blocks: map<nat, nat>, o: seq<Owner>, start: nat) returns (o': seq<Owner>)
    requires Shows(poolSize, ws, blocks, Idle, o) && start in blocks
    requires 0 < blocks[start] && start + blocks[start] <= poolSize && start % 64 + blocks[start] <= 64 && start / 64 < |ws|
    ensures Clearable(SingleMask(start, blocks[start]), Single(start % 64), ws[start / 64])
    ensures Shows(poolSize, ws[start / 64 := Cleared(ws[start / 64], SingleMask(start, blocks[start]))], blocks - {start}, Idle, o')
  {
    var pool, n, i := Pool(poolSize, Intended), blocks[start], start / 64;
    var pc := FreeSingle(start, n, Unread);
    var o1 := TakenBack(poolSize, ws, blocks, o, start, pc);
    var s := State(ws, blocks - {start}, [pc]);
    SingleMaskCovers(start, n);
    hide Inv, PcOk, Covers, SingleMask, Cleared, Clearable;
    ClaimIsClearable(pool, s, o1, 0, i, SingleMask(start, n), start);
    o' := ReleaseTail(pool, s, o1, 0, i, SingleMask(start, n), start, Idle);
    assert s.threads[0 := Idle] == [Idle];
  }

  /** Where a block of several words starts to be freed (line 432). */
  function FreeFrom(start: nat, end: nat): Pc
    requires 0 < end
  {
    if end % 64 != 0 then FreeLast(start, (end - 1) / 64, end % 64, Unread) else FreeWhole(start, (end - 1) / 64)
  }

  lemma Shrinking(poolSize: nat, ws: seq<Word>, blocks: map<nat, nat>, o: seq<Owner>, start: nat) returns (o': seq<Owner>)
    requires Shows(poolSize, ws, blocks, Idle, o) && start in blocks
    requires start + blocks[start] <= poolSize && 64 < start % 64 + blocks[start]
    ensures Shows(poolSize, ws, blocks - {start}, FreeFrom(start, start + blocks[start]), o')
  {
    LastSlot(start, blocks[start]);
    hide Shows;
    o' := TakenBack(poolSize, ws, blocks, o, start, FreeFrom(start, start + blocks[start]));
  }

  lemma LastFreed(poolSize: nat, ws: seq<Word>, blocks: map<nat, nat>, o: seq<Owner>, start: nat, i: nat, k: nat) returns (o': seq<Owner>)
    requires Shows(poolSize, ws, blocks, FreeLast(start, i, k, Unread), o) && i < |ws|
    requires start < 64 * i && 0 < k < 64 && i < WordCount(poolSize)
    ensures Clearable(LastMask(k), Zeros(), ws[i])
    ensures Shows(poolSize, ws[i := Keep(ws[i], Shl(Ones(), k))], blocks, FreeWhole(start, i - 1), o')
  {
    var pool, mask := Pool(poolSize, Intended), Shl(Ones(), k);
    var s := State(ws, blocks, [FreeLast(start, i, k, Unread)]);
    assert Not(Not(mask)) == mask;
    LastMaskCovers(k);
    hide Inv, Covers, Clearable;
    ClaimIsClearable(pool, s, o, 0, i, LastMask(k), 64 * i);
    o' := ReleaseTail(pool, s, o, 0, i, LastMask(k), 64 * i, FreeWhole(start, i - 1));
    assert s.threads[0 := FreeWhole(start, i - 1)] == [FreeWhole(start, i - 1)];
  }

  lemma WholeFreed(poolSize: nat, ws: seq<Word>, blocks: map<nat, nat>, o: seq<Owner>, start: nat, i: nat) returns (o': seq<Owner>)
    requires Shows(poolSize, ws, blocks, FreeWhole(start, i), o) && start / 64 < i < |ws|
    ensures Shows(poolSize, ws[i := EmptyWord()], blocks, FreeWhole(start, i - 1), o')
  {
    var pool, s := Pool(poolSize, Intended), State(ws, blocks, [FreeWhole(start, i)]);
    Facts(pool, s, o, 0);
    hide Inv;
    o' := ReleaseWhole(pool, s, o, 0, i, start, FreeWhole(start, i - 1));
    assert s.threads[0 := FreeWhole(start, i - 1)] == [FreeWhole(start, i - 1)];
  }

  lemma FirstFreed(poolSize: nat, ws: seq<Word>, blocks: map<nat, nat>, o: seq<Owner>, start: nat) returns (o': seq<Owner>)
    requires Shows(poolSize, ws, blocks, FreeWhole(start, start / 64), o) && start / 64 < |ws| == WordCount(poolSize)
    ensures Clearable(FirstMask(start), Single(start % 64), ws[start / 64])
    ensures Shows(poolSize, ws[start / 64 := Keep(ws[start / 64], Not(Shl(Ones(), start % 64)))], blocks, Idle, o')
  {
    var pool, i, pc := Pool(poolSize, Intended), start / 64, FreeFirst(start, Unread);
    var o1 := MoveTo(poolSize, ws, blocks, o, FreeWhole(start, i), pc);
    var s := State(ws, blocks, [pc]);
    FirstMaskCovers(start);
    hide Inv, Covers, Clearable;
    ClaimIsClearable(pool, s, o1, 0, i, FirstMask(start), start);
    o' := ReleaseTail(pool, s, o1, 0, i, FirstMask(start), start, Idle);
    assert s.threads[0 := Idle] == [Idle];
  }

  // ---------- What the blocks say of the words ----------

  /** The words are a function of the blocks: the same blocks always give the same words. */
  lemma WordsFromBlocks(poolSize: nat, ws: seq<Word>, ws': seq<Word>, blocks: map<nat, nat>, o: seq<Owner>, o': seq<Owner>)
    requires Shows(poolSize, ws, blocks, Idle, o) && Shows(poolSize, ws', blocks, Idle, o')
    ensures ws == ws'
  {
    var pool, s, s' := Pool(poolSize, Intended), State(ws, blocks, [Idle]), State(ws', blocks, [Idle]);
    forall c ensures Extent(pool, s, c) == Extent(pool, s', c) {
    }
    hide Extent, PcOk;
    forall i, k | 0 <= i < |ws| && 0 <= k < 64
      ensures ws[i].bitmap[k] == ws'[i].bitmap[k] && ws[i].starts[k] == ws'[i].starts[k]
    {
      var g := 64 * i + k;
      assert g / 64 == i && g % 64 == k;
      assert o[g] != Free ==> Extent(pool, s, o[g]).Has(g);
      assert o'[g] != Free ==> Extent(pool, s', o'[g]).Has(g);
    }
    forall i | 0 <= i < |ws| ensures ws[i] == ws'[i] {
      assert ws[i].bitmap == ws'[i].bitmap && ws[i].starts == ws'[i].starts;
    }
  }

  /** Freeing what was just allocated restores every bit. */
  method AllocateThenDeallocate(pool: PoolAllocator, count: nat, alignment: nat) returns (r: Outcome<nat>)
    requires pool.Valid() && count <= 0x1_0000_0000 - 64 && alignment < 0x1_0000_0000
    modifies pool`blocks, pool`owners, pool.words
    ensures pool.Valid() && pool.blocks == old(pool.blocks) && pool.words[..] == old(pool.words[..])
  {
    r := pool.Allocate(count, alignment);
    if r.Returns? && r.value != NO_ROOM {
      var freed := pool.Deallocate(r.value);
      assert pool.blocks == old(pool.blocks);
      WordsFromBlocks(pool.poolSize, pool.words[..], old(pool.words[..]), pool.blocks, pool.owners, old(pool.owners));
    }
  }
}
