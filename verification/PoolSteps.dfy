/** Every step of the concurrent pool keeps the ownership invariant. */
module PoolSteps {
  import opened Bits
  import opened Kernel
  import opened PoolProtocol
  import opened PoolSafety
  import opened PoolWords
  import opened ZeroRuns

  // ---------- Steps that only move a thread along ----------

  /** A thread may be at `pc` while it holds `span`. */
  predicate MayBeAt(pool: Pool, pc: Pc, span: Span) {
    PcOk(pool, pc) && !pc.Panicked? && Held(pc) == span
  }

  lemma FindStaysOk(pool: Pool, req: Request, i: nat, read: Word)
    requires PcOk(pool, Find(req, i))
    ensures MayBeAt(pool, FindStep(pool, req, i, read), Nothing)
  {
    hide IsPowerOfTwo, NextWord, CanStartIn;
    NextWordCanStart(req.alignment, i);
    var b := FirstFit(read.bitmap, req.count, req.alignment, 0);
    if b < 64 {
      AlignedPosition(req.alignment, i, b);
    }
  }

  lemma ScanStaysOk(pool: Pool, p: Plan, cw: Word, read: Word)
    requires PcOk(pool, Scan(p, cw))
    ensures MayBeAt(pool, ScanStep(pool, p, cw, read), Nothing)
  {
    hide IsPowerOfTwo, NextWord, CanStartIn;
    NextWordCanStart(p.req.alignment, p.next - 1);
  }

  lemma RetryStaysOk(pool: Pool, req: Request, hint: nat)
    requires req.Valid() && Aligned(hint, req.alignment)
    ensures MayBeAt(pool, Retry(req, hint), Nothing)
  {
    HintCanStart(req.alignment, hint);
  }

  // ---------- How a step redistributes slots ----------

  /** Thread `t` alone changes what it holds. */
  lemma OnlyThread(pool: Pool, s: State, s': State, t: nat, pc: Pc)
    requires t < |s.threads| && s'.threads == s.threads[t := pc] && s'.live == s.live
    requires PcOk(pool, pc) && !pc.Panicked? && ThreadsOk(pool, s.threads)
    ensures Reassigned(pool, s, s', Thread(t), Thread(t)) && ThreadsOk(pool, s'.threads)
    ensures Extent(pool, s, Thread(t)) == Held(s.threads[t]) && Extent(pool, s', Thread(t)) == Held(pc)
  {
  }

  /** Thread `t` hands out block `b`, which had not been handed out before. */
  lemma Publishes(pool: Pool, s: State, s': State, t: nat, b: nat, n: nat)
    requires t < |s.threads| && s'.threads == s.threads[t := Idle] && s'.live == s.live[b := n]
    requires ThreadsOk(pool, s.threads) && LiveOk(pool, s.live)
    requires b !in s.live && 0 < n && b + n <= 64 * Count(pool)
    ensures Reassigned(pool, s, s', Thread(t), Block(b)) && ThreadsOk(pool, s'.threads) && LiveOk(pool, s'.live)
    ensures Extent(pool, s, Thread(t)) == Held(s.threads[t]) && Extent(pool, s', Block(b)) == Span(b, b + n)
  {
  }

  lemma QuietStep(pool: Pool, s: State, o: seq<Owner>, t: nat, i: nat, pc: Pc) returns (o': seq<Owner>)
    requires Inv(pool, s, o) && t < |s.threads|
    requires MayBeAt(pool, pc, Held(s.threads[t]))
    ensures Inv(pool, After(s, t, i, Go(pc)), o')
  {
    var s' := After(s, t, i, Go(pc));
    OnlyThread(pool, s, s', t, pc);
    o' := KeepQuietly(pool, s, s', o, Thread(t), Thread(t));
  }

  /** A block cannot be live while its first slot is free or held by a thread. */
  lemma NotLive(pool: Pool, s: State, o: seq<Owner>, t: nat, b: nat)
    requires Inv(pool, s, o) && b < |o|
    requires !Used(s.words, b) || Extent(pool, s, Thread(t)).Has(b)
    ensures b !in s.live
  {
    assert b in s.live ==> Extent(pool, s, Block(b)).Has(b);
    assert (o[b] == Block(b)) == Extent(pool, s, Block(b)).Has(b);
    assert (o[b] == Thread(t)) == Extent(pool, s, Thread(t)).Has(b);
  }

  // ---------- What each write does to its word ----------

  lemma SingleFollows(w: nat, b: nat, count: nat, cw: Word)
    requires 0 < count && b + count <= 64 && ZerosAt(cw.bitmap, count, b)
    ensures var now := Span(64 * w + b, 64 * w + b + count);
            WordFollows(w, cw, SingleWord(cw, b, count), Nothing, now) && SameElsewhere(w, Nothing, now)
  {
  }

  lemma FirstFollows(w: nat, b: nat, cw: Word)
    requires b < 64 && ZerosAt(cw.bitmap, 64, b)
    ensures var now := Span(64 * w + b, 64 * (w + 1));
            WordFollows(w, cw, FirstWord(cw, b), Nothing, now) && SameElsewhere(w, Nothing, now)
  {
  }

  lemma WholeFollows(i: nat, lo: nat)
    requires lo < 64 * i
    ensures var was, now := Span(lo, 64 * i), Span(lo, 64 * (i + 1));
            WordFollows(i, EmptyWord(), FullWord(), was, now) && SameElsewhere(i, was, now)
  {
  }

  lemma FinalFollows(i: nat, lo: nat, rest: nat, cw: Word)
    requires lo < 64 * i && 0 < rest < 64
    requires forall k :: 0 <= k < rest ==> !cw.bitmap[k]
    ensures var was, now := Span(lo, 64 * i), Span(lo, 64 * i + rest);
            WordFollows(i, cw, FinalWord(cw, rest), was, now) && SameElsewhere(i, was, now)
  {
  }

  lemma EmptyFollows(i: nat, lo: nat, w: Word)
    requires lo < 64 * i
    ensures var was, now := Span(lo, 64 * (i + 1)), Span(lo, 64 * i);
            WordFollows(i, w, EmptyWord(), was, now) && SameElsewhere(i, was, now)
  {
  }

  lemma UndoneFollows(w: nat, b: nat, cw: Word)
    requires b < 64 && forall k :: b < k < 64 ==> !cw.starts[k]
    ensures var was := Span(64 * w + b, 64 * (w + 1));
            WordFollows(w, cw, UndoneWord(Intended, cw, b), was, Nothing) && SameElsewhere(w, was, Nothing)
  {
  }

  /** Bits `lo .. hi` of a mask */
  predicate Covers(mask: Bits64, lo: nat, hi: nat) {
    forall k :: 0 <= k < 64 ==> mask[k] == (lo <= k < hi)
  }

  lemma SingleMaskCovers(start: nat, n: nat)
    requires 0 < n && start % 64 + n <= 64
    ensures Covers(SingleMask(start, n), start % 64, start % 64 + n)
  {
    LowMask(n);
    ShiftedMask(Shr(Ones(), 64 - n), n, start % 64);
    assert start % 64 % 64 == start % 64;
  }

  lemma LowMask(n: nat)
    requires 0 < n <= 64
    ensures Covers(Shr(Ones(), 64 - n), 0, n)
  {
    var d := (64 - n) % 64;
    assert d == 64 - n;
  }

  lemma ShiftedMask(m: Bits64, n: nat, b: nat)
    requires Covers(m, 0, n) && b < 64 && b + n <= 64
    ensures Covers(Shl(m, b), b, b + n)
  {
    assert b % 64 == b;
  }

  lemma LastMaskCovers(k: nat)
    requires k < 64
    ensures Covers(LastMask(k), 0, k)
  {
  }

  lemma FirstMaskCovers(start: nat)
    ensures Covers(FirstMask(start), start % 64, 64)
  {
  }

  /** Clearing the tail of a span, from slot `lo` in word `i` on. */
  lemma ClearedFollows(i: nat, w: Word, gone: Bits64, from: nat, was: Span, now: Span)
    requires from <= 64 * i + 64 && 64 * i <= from && from <= was.hi <= 64 * (i + 1)
    requires Covers(gone, from - 64 * i, was.hi - 64 * i) && was.lo <= from
    requires now == (if was.lo < from then Span(was.lo, from) else Nothing)
    requires was.lo < from ==> from == 64 * i
    ensures WordFollows(i, w, Cleared(w, gone), was, now) && SameElsewhere(i, was, now)
  {
  }

  // ---------- The writing steps of an allocation ----------

  lemma Sizes(pool: Pool, s: State, o: seq<Owner>)
    requires Inv(pool, s, o)
    ensures |s.words| == Count(pool) && |o| == 64 * Count(pool)
  {
  }

  lemma Facts(pool: Pool, s: State, o: seq<Owner>, t: nat)
    requires Inv(pool, s, o) && t < |s.threads|
    ensures |s.words| == Count(pool) && |o| == 64 * Count(pool) && PcOk(pool, s.threads[t])
    ensures ThreadsOk(pool, s.threads) && LiveOk(pool, s.live)
    ensures Extent(pool, s, Thread(t)) == Held(s.threads[t])
  {
  }

  /** Line 237: the whole block is claimed at once. */
  lemma ClaimSingle(pool: Pool, s: State, o: seq<Owner>, t: nat, req: Request, w: nat, b: nat) returns (o': seq<Owner>)
    requires Inv(pool, s, o) && t < |s.threads| && w < |s.words|
    requires s.threads[t] == CasSingle(req, w, b, s.words[w])
    ensures PcOk(pool, s.threads[t])
    ensures Inv(pool, After(s, t, w, Move(Idle, Some(SingleWord(s.words[w], b, req.count)), Some((64 * w + b, req.count)))), o')
  {
    hide Inv, ThreadsOk, LiveOk, Reassigned, WordFollows, SameElsewhere, Extent, IsPowerOfTwo, Aligned, SingleWord;
    Facts(pool, s, o, t);
    var start, cw := 64 * w + b, s.words[w];
    var s' := After(s, t, w, Move(Idle, Some(SingleWord(cw, b, req.count)), Some((start, req.count))));
    assert !Used(s.words, start);
    NotLive(pool, s, o, t, start);
    Publishes(pool, s, s', t, start, req.count);
    SingleFollows(w, b, req.count, cw);
    o' := KeepByWord(pool, s, s', o, Thread(t), Block(start), w);
  }

  /** Line 305: the tail of the first word is claimed, and the block's start with it. */
  lemma ClaimFirst(pool: Pool, s: State, o: seq<Owner>, t: nat, p: Plan) returns (o': seq<Owner>)
    requires Inv(pool, s, o) && t < |s.threads| && p.w < |s.words|
    requires s.threads[t] == CasFirst(p, s.words[p.w])
    ensures Inv(pool, After(s, t, p.w, Move(CasWhole(p, FirstWord(s.words[p.w], p.b), p.w + 1), Some(FirstWord(s.words[p.w], p.b)), None)), o')
  {
    hide Inv, ThreadsOk, LiveOk, Reassigned, WordFollows, SameElsewhere, Extent, IsPowerOfTwo, Aligned, FirstWord;
    Facts(pool, s, o, t);
    var first := FirstWord(s.words[p.w], p.b);
    var s' := After(s, t, p.w, Move(CasWhole(p, first, p.w + 1), Some(first), None));
    OnlyThread(pool, s, s', t, CasWhole(p, first, p.w + 1));
    FirstFollows(p.w, p.b, s.words[p.w]);
    o' := KeepByWord(pool, s, s', o, Thread(t), Thread(t), p.w);
  }

  /** Line 318: one more whole word. */
  lemma ClaimWhole(pool: Pool, s: State, o: seq<Owner>, t: nat, p: Plan, first: Word, i: nat) returns (o': seq<Owner>)
    requires Inv(pool, s, o) && t < |s.threads| && i < |s.words|
    requires s.threads[t] == CasWhole(p, first, i) && i < p.next && s.words[i] == EmptyWord()
    ensures Inv(pool, After(s, t, i, Move(CasWhole(p, first, i + 1), Some(FullWord()), None)), o')
  {
    hide Inv, ThreadsOk, LiveOk, Reassigned, WordFollows, SameElsewhere, Extent, IsPowerOfTwo, Aligned;
    Facts(pool, s, o, t);
    var s' := After(s, t, i, Move(CasWhole(p, first, i + 1), Some(FullWord()), None));
    OnlyThread(pool, s, s', t, CasWhole(p, first, i + 1));
    WholeFollows(i, p.Start());
    o' := KeepByWord(pool, s, s', o, Thread(t), Thread(t), i);
  }

  /** Line 345: the rest of the block is claimed and the block is complete. */
  lemma ClaimFinal(pool: Pool, s: State, o: seq<Owner>, t: nat, p: Plan, first: Word) returns (o': seq<Owner>)
    requires Inv(pool, s, o) && t < |s.threads| && p.next < |s.words|
    requires s.threads[t] == CasFinal(p, first, s.words[p.next])
    ensures PcOk(pool, s.threads[t])
    ensures var cw := s.words[p.next];
            Inv(pool, After(s, t, p.next, Move(Idle, Some(FinalWord(cw, p.rest)), Some((p.Start(), p.req.count)))), o')
  {
    hide Inv, ThreadsOk, LiveOk, Reassigned, WordFollows, SameElsewhere, Extent, IsPowerOfTwo, Aligned, FinalWord;
    Facts(pool, s, o, t);
    var cw := s.words[p.next];
    var s' := After(s, t, p.next, Move(Idle, Some(FinalWord(cw, p.rest)), Some((p.Start(), p.req.count))));
    NotLive(pool, s, o, t, p.Start());
    Publishes(pool, s, s', t, p.Start(), p.req.count);
    FinalFollows(p.next, p.Start(), p.rest, cw);
    o' := KeepByWord(pool, s, s', o, Thread(t), Block(p.Start()), p.next);
  }

  /** A thread that hands out all it holds, without touching a word (lines 325-329 and 580). */
  lemma HandOver(pool: Pool, s: State, o: seq<Owner>, t: nat, i: nat, b: nat, n: nat) returns (o': seq<Owner>)
    requires Inv(pool, s, o) && t < |s.threads|
    requires Held(s.threads[t]) == Span(b, b + n) && 0 < n && b + n <= 64 * Count(pool)
    ensures Inv(pool, After(s, t, i, Move(Idle, None, Some((b, n)))), o')
  {
    hide Inv, ThreadsOk, LiveOk, Reassigned, WordFollows, SameElsewhere, Extent, IsPowerOfTwo, Aligned, Held;
    Facts(pool, s, o, t);
    var s' := After(s, t, i, Move(Idle, None, Some((b, n))));
    NotLive(pool, s, o, t, b);
    Publishes(pool, s, s', t, b, n);
    o' := KeepQuietly(pool, s, s', o, Thread(t), Block(b));
  }

  /** Lines 361 and 459: a whole word that this thread holds is given back. */
  lemma ReleaseWhole(pool: Pool, s: State, o: seq<Owner>, t: nat, i: nat, lo: nat, pc: Pc) returns (o': seq<Owner>)
    requires Inv(pool, s, o) && t < |s.threads| && i < |s.words|
    requires Held(s.threads[t]) == Span(lo, 64 * (i + 1)) && lo < 64 * i
    requires PcOk(pool, pc) && !pc.Panicked? && Held(pc) == Span(lo, 64 * i)
    ensures Inv(pool, After(s, t, i, Move(pc, Some(EmptyWord()), None)), o')
  {
    hide Inv, ThreadsOk, LiveOk, Reassigned, WordFollows, SameElsewhere, Extent, IsPowerOfTwo, Aligned, Held, PcOk;
    Facts(pool, s, o, t);
    var s' := After(s, t, i, Move(pc, Some(EmptyWord()), None));
    OnlyThread(pool, s, s', t, pc);
    EmptyFollows(i, lo, s.words[i]);
    o' := KeepByWord(pool, s, s', o, Thread(t), Thread(t), i);
  }

  /** Behind the start of a claim that fills the rest of its word, no slot is marked. */
  lemma NoOtherStart(pool: Pool, s: State, o: seq<Owner>, t: nat, w: nat, b: nat)
    requires Inv(pool, s, o) && w < |s.words| && b < 64
    requires Extent(pool, s, Thread(t)) == Span(64 * w + b, 64 * (w + 1))
    ensures forall k :: b < k < 64 ==> !s.words[w].starts[k]
  {
    forall k | b < k < 64 ensures !s.words[w].starts[k] {
      OwnedBit(pool, s, o, Thread(t), w, k);
    }
  }

  /** Line 371 with the mask that was meant, or with a bit index where the mask written is that one. */
  lemma ReleaseFirst(pool: Pool, s: State, o: seq<Owner>, t: nat, p: Plan) returns (o': seq<Owner>)
    requires Inv(pool, s, o) && t < |s.threads| && p.w < |s.words|
    requires s.threads[t] == UndoFirst(p, s.words[p.w])
    requires pool.rollback == Intended || p.b != 0
    ensures Inv(pool, After(s, t, p.w, Move(Retry(p.req, p.Start()), Some(UndoneWord(pool.rollback, s.words[p.w], p.b)), None)), o')
  {
    hide Inv, ThreadsOk, LiveOk, Reassigned, WordFollows, SameElsewhere, Extent, IsPowerOfTwo, Aligned, Retry, UndoneWord;
    Facts(pool, s, o, t);
    RetryStaysOk(pool, p.req, p.Start());
    assert p.b < 64 && Held(s.threads[t]) == Span(p.Start(), 64 * (p.w + 1));
    var cw := s.words[p.w];
    var s' := After(s, t, p.w, Move(Retry(p.req, p.Start()), Some(UndoneWord(pool.rollback, cw, p.b)), None));
    OnlyThread(pool, s, s', t, Retry(p.req, p.Start()));
    NoOtherStart(pool, s, o, t, p.w, p.b);
    UndoneFollows(p.w, p.b, cw);
    MaskAsIntended(pool.rollback, cw, p.b);
    o' := KeepByWord(pool, s, s', o, Thread(t), Thread(t), p.w);
  }

  /** `INT64_MAX << b` is `UINT64_MAX << b` for every `b` but 0, where it lacks exactly bit 63. */
  lemma MaskAsIntended(rollback: RollbackMask, cw: Word, b: nat)
    requires b < 64
    ensures forall k :: 0 <= k < 64 ==>
              (UndoMask(AsWritten, b)[k] != UndoMask(Intended, b)[k] <==> b == 0 && k == 63)
    ensures rollback == Intended || b != 0 ==> UndoneWord(rollback, cw, b) == UndoneWord(Intended, cw, b)
    ensures b == 0 && cw.bitmap[63] ==> UndoneWord(AsWritten, cw, 0).bitmap[63] && !UndoneWord(Intended, cw, 0).bitmap[63]
  {
    if b != 0 {
      assert UndoMask(AsWritten, b) == UndoMask(Intended, b);
    }
  }

  // ---------- The steps of a deallocation ----------

  /** The checked slots: those of the thread's claim from `from` on, all in word `i`. */
  ghost predicate ClearsTail(s: State, t: nat, i: nat, gone: Bits64, from: nat)
    requires t < |s.threads|
  {
    var was := Held(s.threads[t]);
    && i < |s.words| && 64 * i <= from < was.hi <= 64 * (i + 1) && was.lo <= from
    && (was.lo < from ==> from == 64 * i)
    && Covers(gone, from - 64 * i, was.hi - 64 * i)
  }

  /** A word that shows a claim passes the check that `Deallocate` makes before clearing it. */
  lemma ClaimIsClearable(pool: Pool, s: State, o: seq<Owner>, t: nat, i: nat, gone: Bits64, from: nat)
    requires Inv(pool, s, o) && t < |s.threads| && ClearsTail(s, t, i, gone, from)
    ensures Clearable(gone, if Held(s.threads[t]).lo == from then Single(from - 64 * i) else Zeros(), s.words[i])
  {
    hide Inv, ThreadsOk, LiveOk, Reassigned, WordFollows, SameElsewhere, Extent, IsPowerOfTwo, Aligned, Held, PcOk;
    Facts(pool, s, o, t);
    var w, was := s.words[i], Held(s.threads[t]);
    var mark := if was.lo == from then Single(from - 64 * i) else Zeros();
    forall k | 0 <= k < 64
      ensures And(w.bitmap, gone)[k] == gone[k] && And(w.starts, gone)[k] == mark[k]
    {
      if gone[k] {
        OwnedBit(pool, s, o, Thread(t), i, k);
      }
    }
    assert And(w.bitmap, gone) == gone;
    assert And(w.starts, gone) == mark;
  }

  /** Lines 412, 447 and 477: the tail of the claim is given back. */
  lemma ReleaseTail(pool: Pool, s: State, o: seq<Owner>, t: nat, i: nat, gone: Bits64, from: nat, pc: Pc) returns (o': seq<Owner>)
    requires Inv(pool, s, o) && t < |s.threads| && ClearsTail(s, t, i, gone, from)
    requires PcOk(pool, pc) && !pc.Panicked?
    requires var was := Held(s.threads[t]); Held(pc) == if was.lo < from then Span(was.lo, from) else Nothing
    ensures Inv(pool, After(s, t, i, Move(pc, Some(Cleared(s.words[i], gone)), None)), o')
  {
    hide Inv, ThreadsOk, LiveOk, Reassigned, WordFollows, SameElsewhere, Extent, IsPowerOfTwo, Aligned, Held, PcOk, Cleared;
    Facts(pool, s, o, t);
    var s' := After(s, t, i, Move(pc, Some(Cleared(s.words[i], gone)), None));
    OnlyThread(pool, s, s', t, pc);
    ClearedFollows(i, s.words[i], gone, from, Held(s.threads[t]), Held(pc));
    o' := KeepByWord(pool, s, s', o, Thread(t), Thread(t), i);
  }

  /** `GetBlockSize` at bit `position` of word `i` after counting `n` slots. */
  lemma SizeNextOk(pool: Pool, start: nat, size: nat, thenFree: bool, i: nat, n: nat, position: nat)
    requires 0 < n <= size && start + size <= 64 * Count(pool) && i < Count(pool)
    requires start + n == 64 * i + position && position <= 64
    requires position < 64 ==> n == size
    ensures MayBeAt(pool, SizeNext(pool, start, size, thenFree, i, n, position), HeldFor(start, size, thenFree))
  {
    LastSlot(start, size);
  }

  /** The word of a block's last slot, and how far the block reaches into it. */
  lemma LastSlot(start: nat, n: nat)
    requires 0 < n
    ensures var i, k := (start + n - 1) / 64, (start + n) % 64;
            && start / 64 <= i
            && (64 < start % 64 + n ==> start / 64 < i)
            && (k == 0 ==> start + n == 64 * (i + 1)) && (k != 0 ==> start + n == 64 * i + k)
  {
  }

  lemma SizeFirstOk(pool: Pool, s: State, o: seq<Owner>, c: Owner, start: nat, size: nat, thenFree: bool)
    requires Inv(pool, s, o) && c != Free && Extent(pool, s, c) == Span(start, start + size)
    requires 0 < size && start + size <= 64 * Count(pool)
    ensures start / 64 < |s.words|
    ensures MayBeAt(pool, SizeFirstStep(pool, start, size, thenFree, s.words[start / 64]), HeldFor(start, size, thenFree))
  {
    hide Inv, Extent, CountrOne, Xor, Shr, MayBeAt, SizeNext;
    Sizes(pool, s, o);
    var i, b := start / 64, start % 64;
    var n := FirstRun(pool, s, o, c, i, b);
    SizeNextOk(pool, start, size, thenFree, i, n, b + n);
  }

  /** What `GetBlockSize` counts in the word where the block starts. */
  lemma FirstRun(pool: Pool, s: State, o: seq<Owner>, c: Owner, i: nat, b: nat) returns (n: nat)
    requires Inv(pool, s, o) && c != Free && i < |s.words| && b < 64
    requires var e := Extent(pool, s, c); e.lo == 64 * i + b < e.hi <= |o|
    ensures s.words[i].starts[b]
    ensures var x := Xor(s.words[i].bitmap, s.words[i].starts);
            n == if b + 1 < 64 then 1 + CountrOne(Shr(x, b + 1)) else 1
    ensures n == Min(64 - b, Extent(pool, s, c).hi - Extent(pool, s, c).lo)
  {
    hide Inv, Extent;
    Sizes(pool, s, o);
    OwnedBit(pool, s, o, c, i, b);
    var x := Xor(s.words[i].bitmap, s.words[i].starts);
    n := 1;
    if b + 1 < 64 {
      CountedRun(pool, s, o, c, i, b + 1);
      ShiftedCount(x, b + 1);
      n := 1 + CountrOne(Shr(x, b + 1));
    }
  }

  lemma SizeMoreOk(pool: Pool, s: State, o: seq<Owner>, c: Owner, start: nat, size: nat, thenFree: bool, i: nat, n: nat)
    requires Inv(pool, s, o) && c != Free && Extent(pool, s, c) == Span(start, start + size)
    requires start + size <= 64 * Count(pool) && 0 < n <= size && start + n == 64 * i && i < Count(pool)
    ensures |s.words| == Count(pool)
    ensures MayBeAt(pool, SizeMoreStep(pool, start, size, thenFree, i, n, s.words[i]), HeldFor(start, size, thenFree))
  {
    hide Inv, Extent, CountrOne, Xor, MayBeAt, SizeNext;
    Sizes(pool, s, o);
    var position := WordRun(pool, s, o, c, i);
    SizeNextOk(pool, start, size, thenFree, i, n + position, position);
  }

  /** What `GetBlockSize` counts in a later word of the block, or in the word behind it. */
  lemma WordRun(pool: Pool, s: State, o: seq<Owner>, c: Owner, i: nat) returns (position: nat)
    requires Inv(pool, s, o) && c != Free && i < |s.words|
    requires var e := Extent(pool, s, c); e.lo < 64 * i <= e.hi <= |o|
    ensures position == CountrOne(Xor(s.words[i].bitmap, s.words[i].starts))
    ensures position == Min(64, Extent(pool, s, c).hi - 64 * i)
  {
    hide Inv, Extent;
    CountedRun(pool, s, o, c, i, 0);
    position := CountrOne(Xor(s.words[i].bitmap, s.words[i].starts));
  }

  // ---------- Every step ----------

  function Stepped(pool: Pool, s: State, t: nat, read: Word): State
    requires t < |s.threads| && PcOk(pool, s.threads[t])
  {
    var pc := s.threads[t];
    After(s, t, Target(pc), ThreadStep(pool, pc, WordAt(s, Target(pc)), read))
  }

  /** The one step that goes wrong: the rollback of line 368 with the mask as written, at bit 0. */
  predicate FaultyRollback(pool: Pool, s: State, t: nat)
    requires t < |s.threads|
  {
    var pc := s.threads[t];
    pool.rollback == AsWritten && pc.UndoFirst? && pc.plan.b == 0 && WordAt(s, pc.plan.w) == pc.cw
  }

  lemma FindKeeps(pool: Pool, s: State, o: seq<Owner>, t: nat, read: Word) returns (o': seq<Owner>)
    requires Inv(pool, s, o) && t < |s.threads| && s.threads[t].Find?
    ensures PcOk(pool, s.threads[t]) && Inv(pool, Stepped(pool, s, t, read), o')
  {
    hide MayBeAt, Inv, ThreadsOk, LiveOk, Reassigned, WordFollows, SameElsewhere, Extent, IsPowerOfTwo, Aligned, FindStep;
    Facts(pool, s, o, t);
    var Find(req, i) := s.threads[t];
    FindStaysOk(pool, req, i, read);
    o' := QuietStep(pool, s, o, t, Target(s.threads[t]), FindStep(pool, req, i, read));
  }

  lemma ScanKeeps(pool: Pool, s: State, o: seq<Owner>, t: nat, read: Word) returns (o': seq<Owner>)
    requires Inv(pool, s, o) && t < |s.threads| && s.threads[t].Scan?
    ensures PcOk(pool, s.threads[t]) && Inv(pool, Stepped(pool, s, t, read), o')
  {
    hide MayBeAt, Inv, ThreadsOk, LiveOk, Reassigned, WordFollows, SameElsewhere, Extent, IsPowerOfTwo, Aligned, ScanStep;
    Facts(pool, s, o, t);
    var Scan(p, cw) := s.threads[t];
    ScanStaysOk(pool, p, cw, read);
    o' := QuietStep(pool, s, o, t, Target(s.threads[t]), ScanStep(pool, p, cw, read));
  }

  lemma CasSingleKeeps(pool: Pool, s: State, o: seq<Owner>, t: nat, read: Word) returns (o': seq<Owner>)
    requires Inv(pool, s, o) && t < |s.threads| && s.threads[t].CasSingle?
    ensures PcOk(pool, s.threads[t]) && Inv(pool, Stepped(pool, s, t, read), o')
  {
    hide Inv, ThreadsOk, LiveOk, Reassigned, WordFollows, SameElsewhere, Extent, IsPowerOfTwo, Aligned, Retry, SingleWord;
    Facts(pool, s, o, t);
    var CasSingle(req, w, b, cw) := s.threads[t];
    if s.words[w] == cw {
      o' := ClaimSingle(pool, s, o, t, req, w, b);
    } else {
      RetryStaysOk(pool, req, 64 * w + b);
      o' := QuietStep(pool, s, o, t, w, Retry(req, 64 * w + b));
    }
  }

  lemma CasFirstKeeps(pool: Pool, s: State, o: seq<Owner>, t: nat, read: Word) returns (o': seq<Owner>)
    requires Inv(pool, s, o) && t < |s.threads| && s.threads[t].CasFirst?
    ensures PcOk(pool, s.threads[t]) && Inv(pool, Stepped(pool, s, t, read), o')
  {
    hide Inv, ThreadsOk, LiveOk, Reassigned, WordFollows, SameElsewhere, Extent, IsPowerOfTwo, Aligned, Retry, FirstWord;
    Facts(pool, s, o, t);
    var CasFirst(p, cw) := s.threads[t];
    if s.words[p.w] == cw {
      o' := ClaimFirst(pool, s, o, t, p);
    } else {
      RetryStaysOk(pool, p.req, p.Start());
      o' := QuietStep(pool, s, o, t, p.w, Retry(p.req, p.Start()));
    }
  }

  lemma CasWholeKeeps(pool: Pool, s: State, o: seq<Owner>, t: nat, read: Word) returns (o': seq<Owner>)
    requires Inv(pool, s, o) && t < |s.threads| && s.threads[t].CasWhole?
    ensures PcOk(pool, s.threads[t]) && Inv(pool, Stepped(pool, s, t, read), o')
  {
    hide Inv, ThreadsOk, LiveOk, Reassigned, WordFollows, SameElsewhere, Extent, IsPowerOfTwo, Aligned;
    Facts(pool, s, o, t);
    var CasWhole(p, first, i) := s.threads[t];
    if i < p.next && s.words[i] == EmptyWord() {
      o' := ClaimWhole(pool, s, o, t, p, first, i);
    } else if i == p.next && p.rest == 0 {
      o' := HandOver(pool, s, o, t, i, p.Start(), p.req.count);
    } else {
      o' := QuietStep(pool, s, o, t, i, Stepped(pool, s, t, read).threads[t]);
    }
  }

  lemma CasFinalKeeps(pool: Pool, s: State, o: seq<Owner>, t: nat, read: Word) returns (o': seq<Owner>)
    requires Inv(pool, s, o) && t < |s.threads| && s.threads[t].CasFinal?
    ensures PcOk(pool, s.threads[t]) && Inv(pool, Stepped(pool, s, t, read), o')
  {
    hide Inv, ThreadsOk, LiveOk, Reassigned, WordFollows, SameElsewhere, Extent, IsPowerOfTwo, Aligned;
    Facts(pool, s, o, t);
    var CasFinal(p, first, cw) := s.threads[t];
    if s.words[p.next] == cw {
      o' := ClaimFinal(pool, s, o, t, p, first);
    } else {
      o' := QuietStep(pool, s, o, t, p.next, UndoWhole(p, first, p.next - 1));
    }
  }

  lemma UndoWholeKeeps(pool: Pool, s: State, o: seq<Owner>, t: nat, read: Word) returns (o': seq<Owner>)
    requires Inv(pool, s, o) && t < |s.threads| && s.threads[t].UndoWhole?
    ensures PcOk(pool, s.threads[t]) && Inv(pool, Stepped(pool, s, t, read), o')
  {
    hide Inv, ThreadsOk, LiveOk, Reassigned, WordFollows, SameElsewhere, Extent, IsPowerOfTwo, Aligned;
    Facts(pool, s, o, t);
    var UndoWhole(p, first, i) := s.threads[t];
    if i != p.w {
      o' := ReleaseWhole(pool, s, o, t, i, p.Start(), UndoWhole(p, first, i - 1));
    } else {
      o' := QuietStep(pool, s, o, t, i, UndoFirst(p, first));
    }
  }

  lemma UndoFirstKeeps(pool: Pool, s: State, o: seq<Owner>, t: nat, read: Word) returns (o': seq<Owner>)
    requires Inv(pool, s, o) && t < |s.threads| && s.threads[t].UndoFirst? && !FaultyRollback(pool, s, t)
    ensures PcOk(pool, s.threads[t]) && Inv(pool, Stepped(pool, s, t, read), o')
  {
    hide Inv, ThreadsOk, LiveOk, Reassigned, WordFollows, SameElsewhere, Extent, IsPowerOfTwo, Aligned, Retry, UndoneWord;
    Facts(pool, s, o, t);
    var UndoFirst(p, cw) := s.threads[t];
    if s.words[p.w] == cw {
      o' := ReleaseFirst(pool, s, o, t, p);
    } else {
      o' := QuietStep(pool, s, o, t, p.w, UndoFirst(p, s.words[p.w]));
    }
  }

  /** Whoever has the block that is measured, its extent is the size the thread expects. */
  lemma SizedOwner(pool: Pool, s: State, t: nat, start: nat, size: nat, thenFree: bool)
    requires MeasuresLive(s) && t < |s.threads|
    requires s.threads[t] == SizeFirst(start, size, thenFree) ||
             (s.threads[t].SizeMore? && s.threads[t].start == start && s.threads[t].size == size && s.threads[t].thenFree == thenFree)
    ensures Extent(pool, s, if thenFree then Thread(t) else Block(start)) == Span(start, start + size)
  {
    assert !thenFree ==> Measures(s.threads[t], start);
  }

  lemma SizeFirstKeeps(pool: Pool, s: State, o: seq<Owner>, t: nat, read: Word) returns (o': seq<Owner>)
    requires Inv(pool, s, o) && MeasuresLive(s) && t < |s.threads| && s.threads[t].SizeFirst?
    ensures PcOk(pool, s.threads[t]) && Inv(pool, Stepped(pool, s, t, read), o')
  {
    hide MayBeAt, Inv, ThreadsOk, LiveOk, Reassigned, WordFollows, SameElsewhere, Extent, IsPowerOfTwo, Aligned, SizeFirstStep;
    Facts(pool, s, o, t);
    var SizeFirst(start, size, thenFree) := s.threads[t];
    SizedOwner(pool, s, t, start, size, thenFree);
    SizeFirstOk(pool, s, o, if thenFree then Thread(t) else Block(start), start, size, thenFree);
    o' := QuietStep(pool, s, o, t, start / 64, SizeFirstStep(pool, start, size, thenFree, s.words[start / 64]));
  }

  lemma SizeMoreKeeps(pool: Pool, s: State, o: seq<Owner>, t: nat, read: Word) returns (o': seq<Owner>)
    requires Inv(pool, s, o) && MeasuresLive(s) && t < |s.threads| && s.threads[t].SizeMore?
    ensures PcOk(pool, s.threads[t]) && Inv(pool, Stepped(pool, s, t, read), o')
  {
    hide MayBeAt, Inv, ThreadsOk, LiveOk, Reassigned, WordFollows, SameElsewhere, Extent, IsPowerOfTwo, Aligned, SizeMoreStep;
    Facts(pool, s, o, t);
    var SizeMore(start, size, thenFree, i, n) := s.threads[t];
    SizedOwner(pool, s, t, start, size, thenFree);
    SizeMoreOk(pool, s, o, if thenFree then Thread(t) else Block(start), start, size, thenFree, i, n);
    o' := QuietStep(pool, s, o, t, i, SizeMoreStep(pool, start, size, thenFree, i, n, s.words[i]));
  }

  lemma SizedKeeps(pool: Pool, s: State, o: seq<Owner>, t: nat, read: Word) returns (o': seq<Owner>)
    requires Inv(pool, s, o) && t < |s.threads| && s.threads[t].Sized?
    ensures PcOk(pool, s.threads[t]) && Inv(pool, Stepped(pool, s, t, read), o')
  {
    hide Inv, ThreadsOk, LiveOk, Reassigned, WordFollows, SameElsewhere, Extent, IsPowerOfTwo, Aligned;
    Facts(pool, s, o, t);
    o' := QuietStep(pool, s, o, t, 0, Idle);
  }

  /** A read torn between two moments passes the check as well: the thread's own bits do not change. */
  lemma ReadingOn(gone: Bits64, mark: Bits64, seen: Seen, actual: Word, read: Word)
    requires SeenOk(gone, mark, seen) && Clearable(gone, mark, actual)
    ensures SeenOk(gone, mark, ReadOn(seen, actual, read)) && SeenOk(gone, mark, Read(actual))
    ensures seen.Read? ==> Clearable(gone, mark, seen.word) && ReadOn(seen, actual, read) == Read(actual)
    ensures SeenOk(gone, mark, Unread)
  {
  }

  lemma FreeSingleKeeps(pool: Pool, s: State, o: seq<Owner>, t: nat, read: Word) returns (o': seq<Owner>)
    requires Inv(pool, s, o) && t < |s.threads| && s.threads[t].FreeSingle?
    ensures PcOk(pool, s.threads[t]) && Inv(pool, Stepped(pool, s, t, read), o')
  {
    hide Inv, ThreadsOk, LiveOk, Reassigned, WordFollows, SameElsewhere, Extent, IsPowerOfTwo, Aligned, Clearable, SeenOk, ReadOn, Cleared, SingleMask, LastMask, FirstMask, Covers;
    Facts(pool, s, o, t);
    var FreeSingle(start, n, seen) := s.threads[t];
    var i := start / 64;
    SingleMaskCovers(start, n);
    ClaimIsClearable(pool, s, o, t, i, SingleMask(start, n), start);
    ReadingOn(SingleMask(start, n), Single(start % 64), seen, s.words[i], read);
    if seen == Read(s.words[i]) {
      o' := ReleaseTail(pool, s, o, t, i, SingleMask(start, n), start, Idle);
    } else {
      o' := QuietStep(pool, s, o, t, i, FreeSingle(start, n, ReadOn(seen, s.words[i], read)));
    }
  }

  lemma FreeLastKeeps(pool: Pool, s: State, o: seq<Owner>, t: nat, read: Word) returns (o': seq<Owner>)
    requires Inv(pool, s, o) && t < |s.threads| && s.threads[t].FreeLast?
    ensures PcOk(pool, s.threads[t]) && Inv(pool, Stepped(pool, s, t, read), o')
  {
    hide Inv, ThreadsOk, LiveOk, Reassigned, WordFollows, SameElsewhere, Extent, IsPowerOfTwo, Aligned, Clearable, SeenOk, ReadOn, Cleared, SingleMask, LastMask, FirstMask, Covers;
    Facts(pool, s, o, t);
    var FreeLast(start, i, k, seen) := s.threads[t];
    LastMaskCovers(k);
    ClaimIsClearable(pool, s, o, t, i, LastMask(k), 64 * i);
    ReadingOn(LastMask(k), Zeros(), seen, s.words[i], read);
    if seen == Read(s.words[i]) {
      o' := ReleaseTail(pool, s, o, t, i, LastMask(k), 64 * i, FreeWhole(start, i - 1));
    } else {
      o' := QuietStep(pool, s, o, t, i, FreeLast(start, i, k, ReadOn(seen, s.words[i], read)));
    }
  }

  lemma FreeWholeKeeps(pool: Pool, s: State, o: seq<Owner>, t: nat, read: Word) returns (o': seq<Owner>)
    requires Inv(pool, s, o) && t < |s.threads| && s.threads[t].FreeWhole?
    ensures PcOk(pool, s.threads[t]) && Inv(pool, Stepped(pool, s, t, read), o')
  {
    hide Inv, ThreadsOk, LiveOk, Reassigned, WordFollows, SameElsewhere, Extent, IsPowerOfTwo, Aligned;
    Facts(pool, s, o, t);
    var FreeWhole(start, i) := s.threads[t];
    if i != start / 64 {
      o' := ReleaseWhole(pool, s, o, t, i, start, FreeWhole(start, i - 1));
    } else {
      o' := QuietStep(pool, s, o, t, i, FreeFirst(start, Unread));
    }
  }

  lemma FreeFirstKeeps(pool: Pool, s: State, o: seq<Owner>, t: nat, read: Word) returns (o': seq<Owner>)
    requires Inv(pool, s, o) && t < |s.threads| && s.threads[t].FreeFirst?
    ensures PcOk(pool, s.threads[t]) && Inv(pool, Stepped(pool, s, t, read), o')
  {
    hide Inv, ThreadsOk, LiveOk, Reassigned, WordFollows, SameElsewhere, Extent, IsPowerOfTwo, Aligned, Clearable, SeenOk, ReadOn, Cleared, SingleMask, LastMask, FirstMask, Covers;
    Facts(pool, s, o, t);
    var FreeFirst(start, seen) := s.threads[t];
    var i := start / 64;
    FirstMaskCovers(start);
    ClaimIsClearable(pool, s, o, t, i, FirstMask(start), start);
    ReadingOn(FirstMask(start), Single(start % 64), seen, s.words[i], read);
    if seen == Read(s.words[i]) {
      o' := ReleaseTail(pool, s, o, t, i, FirstMask(start), start, Idle);
    } else {
      o' := QuietStep(pool, s, o, t, i, FreeFirst(start, ReadOn(seen, s.words[i], read)));
    }
  }
}
