/** `PoolAllocator` run by any number of threads at once (src/Containers.h, lines 172-484 and
    547-581): one step per compare-exchange, store or load of a word.

    The plain reads of `AllocateInternal` (lines 215, 261, 287, 334) may return anything at all;
    the compare-exchanges alone have to keep the pool consistent. */
module PoolProtocol {
  import opened Bits
  import opened Kernel
  import opened PoolWords
  import opened ZeroRuns

  /** Which mask the rollback of line 368 clears: `INT64_MAX << bitIndex` is written there,
      `UINT64_MAX << bitIndex` is what undoes line 301. */
  datatype RollbackMask = AsWritten | Intended

  datatype Pool = Pool(size: nat, rollback: RollbackMask)

  function Count(pool: Pool): nat { WordCount(pool.size) }

  datatype Request = Request(count: nat, alignment: nat) {
    predicate Valid() {
      0 < count <= 0x1_0000_0000 - 64 && IsPowerOfTwo(alignment) && alignment < 0x1_0000_0000
    }
  }

  /** A candidate block that leaves its first word: it starts at bit `b` of word `w`, takes the
      words up to `next` whole and `rest` slots from there. */
  datatype Plan = Plan(req: Request, w: nat, b: nat, next: nat, rest: nat) {
    function Start(): nat { 64 * w + b }
  }

  /** What `Deallocate` has read of a word. The first read, a plain one, may catch its two halves at
      different moments, in either order; after a failed compare-exchange the word is whole. */
  datatype Seen = Unread | BitmapRead(bitmap: Bits64) | StartsRead(starts: Bits64) | Read(word: Word)

  /** Where a thread is, with the locals of the call it is in. */
  datatype Pc =
    | Idle
    | Find(req: Request, wordIndex: nat)                                  // line 215
    | CasSingle(req: Request, w: nat, b: nat, cw: Word)                   // line 237
    | Scan(plan: Plan, cw: Word)                                          // lines 253-295
    | CasFirst(plan: Plan, cw: Word)                                      // line 305
    | CasWhole(plan: Plan, first: Word, i: nat)                           // lines 314-334
    | CasFinal(plan: Plan, first: Word, cw: Word)                         // line 345
    | UndoWhole(plan: Plan, first: Word, i: nat)                          // line 361
    | UndoFirst(plan: Plan, cw: Word)                                     // line 371
    | SizeFirst(start: nat, size: nat, thenFree: bool)                    // line 557
    | SizeMore(start: nat, size: nat, thenFree: bool, i: nat, n: nat)     // line 574
    | Sized(start: nat, size: nat, n: nat)                                // line 580
    | FreeSingle(start: nat, n: nat, seen: Seen)                  // lines 400-417
    | FreeLast(start: nat, i: nat, k: nat, seen: Seen)            // lines 435-451
    | FreeWhole(start: nat, i: nat)                                       // line 459
    | FreeFirst(start: nat, seen: Seen)                           // lines 465-482
    | Panicked

  /** `live` has the blocks handed to callers and not taken back: start to the count asked for. */
  datatype State = State(words: seq<Word>, live: map<nat, nat>, threads: seq<Pc>)

  // ---------- The code of one step ----------

  /** What a step does: go to `pc`, perhaps write the accessed word, perhaps hand a block out. */
  datatype Move = Move(pc: Pc, write: Option<Word>, publish: Option<(nat, nat)>)

  function Go(pc: Pc): Move { Move(pc, None, None) }

  /** The word that a step accesses atomically. */
  function Target(pc: Pc): nat {
    match pc
    case CasSingle(_, w, _, _) => w
    case CasFirst(plan, _) => plan.w
    case CasWhole(_, _, i) => i
    case CasFinal(plan, _, _) => plan.next
    case UndoWhole(_, _, i) => i
    case UndoFirst(plan, _) => plan.w
    case SizeFirst(start, _, _) => start / 64
    case SizeMore(_, _, _, i, _) => i
    case FreeSingle(start, _, _) => start / 64
    case FreeLast(_, i, _, _) => i
    case FreeWhole(_, i) => i
    case FreeFirst(start, _) => start / 64
    case _ => 0
  }

  /** A failed attempt starts over with its position as the hint (lines 184 and 204). */
  function Retry(req: Request, hint: nat): Pc {
    if !Aligned(hint, req.alignment) then Panicked else Find(req, hint / 64)
  }

  function FindStep(pool: Pool, req: Request, wordIndex: nat, read: Word): Pc
    requires req.alignment > 0
  {
    if wordIndex >= Count(pool) then Idle
    else if read.bitmap == Ones() then Find(req, NextWord(req.alignment, wordIndex))
    else
      var b := FirstFit(read.bitmap, req.count, req.alignment, 0);
      if b == 64 then Find(req, NextWord(req.alignment, wordIndex))
      else if b + req.count <= 64 then CasSingle(req, wordIndex, b, read)
      else Scan(Plan(req, wordIndex, b, wordIndex + 1, req.count - (64 - b)), read)
  }

  function ScanStep(pool: Pool, p: Plan, cw: Word, read: Word): Pc
    requires p.req.alignment > 0 && 0 < p.next
  {
    if p.rest > 0 && p.next >= Count(pool) then Idle
    else if p.rest >= 64 then
      if read.bitmap != Zeros() then Find(p.req, NextWord(p.req.alignment, p.next - 1))
      else Scan(Plan(p.req, p.w, p.b, p.next + 1, p.rest - 64), cw)
    else if p.rest > 0 && Shl(read.bitmap, 64 - p.rest) != Zeros() then
      Find(p.req, NextWord(p.req.alignment, p.next - 1))
    else CasFirst(p, cw)
  }

  function SingleWord(cw: Word, b: nat, count: nat): Word
    requires 0 < count <= 64
  {
    Word(Or(cw.bitmap, Shl(Shr(Ones(), 64 - count), b)), Or(cw.starts, Single(b)))
  }

  function FirstWord(cw: Word, b: nat): Word {
    Word(Or(cw.bitmap, Shl(Ones(), b)), Or(cw.starts, Single(b)))
  }

  function RestMask(rest: nat): Bits64
    requires 0 < rest < 64
  {
    Shr(Ones(), 64 - rest)
  }

  function FinalWord(cw: Word, rest: nat): Word
    requires 0 < rest < 64
  {
    Word(Or(cw.bitmap, RestMask(rest)), cw.starts)
  }

  /** The claimed slots of the first word, as line 368 computes them and as line 301 set them. */
  function UndoMask(rollback: RollbackMask, b: nat): Bits64 {
    if rollback == AsWritten then Shl(SignedMax(), b) else Shl(Ones(), b)
  }

  function UndoneWord(rollback: RollbackMask, cw: Word, b: nat): Word {
    Word(And(cw.bitmap, Not(UndoMask(rollback, b))), And(cw.starts, Not(Single(b))))
  }

  /** `GetBlockSize` has counted `n` slots and stands at bit `position` of word `i`. */
  function SizeNext(pool: Pool, start: nat, size: nat, thenFree: bool, i: nat, n: nat, position: nat): Pc {
    if position == 64 && i + 1 < Count(pool) then SizeMore(start, size, thenFree, i + 1, n)
    else if !thenFree then Sized(start, size, n)
    else if start % 64 + n <= 64 then FreeSingle(start, n, Unread)
    else if (start + n - 1) / 64 >= Count(pool) then Panicked
    else if (start + n) % 64 != 0 then FreeLast(start, (start + n - 1) / 64, (start + n) % 64, Unread)
    else FreeWhole(start, (start + n - 1) / 64)
  }

  predicate Clearable(gone: Bits64, mark: Bits64, seen: Word) {
    And(seen.bitmap, gone) == gone && And(seen.starts, gone) == mark
  }

  /** What has been read so far will pass the check. */
  predicate SeenOk(gone: Bits64, mark: Bits64, seen: Seen) {
    match seen
    case Unread => true
    case BitmapRead(b) => And(b, gone) == gone
    case StartsRead(s) => And(s, gone) == mark
    case Read(w) => Clearable(gone, mark, w)
  }

  /** The next half is read; which comes first, the racy value decides. */
  function ReadOn(seen: Seen, actual: Word, read: Word): Seen {
    match seen
    case Unread => if read.bitmap[0] then BitmapRead(actual.bitmap) else StartsRead(actual.starts)
    case BitmapRead(b) => Read(Word(b, actual.starts))
    case StartsRead(s) => Read(Word(actual.bitmap, s))
    case Read(_) => Read(actual)
  }

  function Cleared(w: Word, gone: Bits64): Word { Keep(w, Not(gone)) }

  /** The three checked clears of `Deallocate`: panic unless every slot of `gone` is in use and
      only the start, if it is among them, is marked; then try to clear those slots. */
  function ClearStep(gone: Bits64, mark: Bits64, seen: Word, actual: Word, again: Pc, done: Pc): Move {
    if !Clearable(gone, mark, seen) then Go(Panicked)
    else if actual == seen then
      Move(done, Some(Cleared(seen, gone)), None)
    else Go(again)
  }

  function SingleMask(start: nat, n: nat): Bits64
    requires 0 < n <= 64
  {
    Shl(Shr(Ones(), 64 - n), start % 64)
  }

  function LastMask(k: nat): Bits64 { Not(Shl(Ones(), k)) }

  function FirstMask(start: nat): Bits64 { Shl(Ones(), start % 64) }

  /** One step of a thread at `pc`. `actual` is the word it accesses, `read` what a racy plain
      read returns. */
  function ThreadStep(pool: Pool, pc: Pc, actual: Word, read: Word): Move
    requires PcOk(pool, pc)
  {
    match pc
    case Idle => Go(Idle)
    case Panicked => Go(Panicked)
    case Find(req, i) => Go(FindStep(pool, req, i, read))
    case Scan(p, cw) => Go(ScanStep(pool, p, cw, read))
    case CasSingle(req, w, b, cw) =>
      if actual == cw
      then Move(Idle, Some(SingleWord(cw, b, req.count)), Some((64 * w + b, req.count)))
      else Go(Retry(req, 64 * w + b))
    case CasFirst(p, cw) =>
      if actual == cw
      then Move(CasWhole(p, FirstWord(cw, p.b), p.w + 1), Some(FirstWord(cw, p.b)), None)
      else Go(Retry(p.req, p.Start()))
    case CasWhole(p, first, i) => CasWholeStep(p, first, i, actual, read)
    case CasFinal(p, first, cw) =>
      if actual == cw
      then Move(Idle, Some(FinalWord(cw, p.rest)), Some((p.Start(), p.req.count)))
      else Go(UndoWhole(p, first, p.next - 1))
    case UndoWhole(p, first, i) =>
      if i != p.w then Move(UndoWhole(p, first, i - 1), Some(EmptyWord()), None)
      else Go(UndoFirst(p, first))
    case UndoFirst(p, cw) =>
      if actual == cw then Move(Retry(p.req, p.Start()), Some(UndoneWord(pool.rollback, cw, p.b)), None)
      else Go(UndoFirst(p, actual))
    case SizeFirst(start, size, thenFree) => Go(SizeFirstStep(pool, start, size, thenFree, actual))
    case SizeMore(start, size, thenFree, i, n) => Go(SizeMoreStep(pool, start, size, thenFree, i, n, actual))
    case Sized(start, size, n) => Go(Idle)
    case FreeSingle(start, n, seen) =>
      if !seen.Read? then Go(FreeSingle(start, n, ReadOn(seen, actual, read)))
      else ClearStep(SingleMask(start, n), Single(start % 64), seen.word, actual,
                     FreeSingle(start, n, Read(actual)), Idle)
    case FreeLast(start, i, k, seen) =>
      if !seen.Read? then Go(FreeLast(start, i, k, ReadOn(seen, actual, read)))
      else ClearStep(LastMask(k), Zeros(), seen.word, actual,
                     FreeLast(start, i, k, Read(actual)), FreeWhole(start, i - 1))
    case FreeWhole(start, i) =>
      if i != start / 64 then Move(FreeWhole(start, i - 1), Some(EmptyWord()), None)
      else Go(FreeFirst(start, Unread))
    case FreeFirst(start, seen) =>
      if !seen.Read? then Go(FreeFirst(start, ReadOn(seen, actual, read)))
      else ClearStep(FirstMask(start), Single(start % 64), seen.word, actual,
                     FreeFirst(start, Read(actual)), Idle)
  }

  function CasWholeStep(p: Plan, first: Word, i: nat, actual: Word, read: Word): Move
    requires 0 < i && p.rest < 64
  {
    if i < p.next then
      if actual == EmptyWord() then Move(CasWhole(p, first, i + 1), Some(FullWord()), None)
      else Go(UndoWhole(p, first, i - 1))
    else if p.rest == 0 then Move(Idle, None, Some((p.Start(), p.req.count)))
    else
      Go(CasFinal(p, first, Keep(read, Not(RestMask(p.rest)))))
  }

  function SizeFirstStep(pool: Pool, start: nat, size: nat, thenFree: bool, actual: Word): Pc {
    var b := start % 64;
    if !actual.starts[b] then Panicked
    else
      var n := if b + 1 < 64 then 1 + CountrOne(Shr(Xor(actual.bitmap, actual.starts), b + 1)) else 1;
      SizeNext(pool, start, size, thenFree, start / 64, n, b + n)
  }

  function SizeMoreStep(pool: Pool, start: nat, size: nat, thenFree: bool, i: nat, n: nat, actual: Word): Pc {
    var position := CountrOne(Xor(actual.bitmap, actual.starts));
    SizeNext(pool, start, size, thenFree, i, n + position, position)
  }

  // ---------- Runs ----------

  /** What can happen next: a call begins, or a thread inside a call takes its next step.
      Callers ask for the size of, or free, only blocks they were handed, and do not free a block
      while it is being measured; any number of threads may measure a block at once. */
  datatype Event =
    | Allocate(req: Request)
    | Deallocate(start: nat)
    | GetBlockSize(start: nat)
    | Continue(read: Word)

  /** The thread is measuring the block at `start`, which stays with its caller. */
  predicate Measures(pc: Pc, start: nat) {
    match pc
    case SizeFirst(b, _, thenFree) => b == start && !thenFree
    case SizeMore(b, _, thenFree, _, _) => b == start && !thenFree
    case Sized(b, _, _) => b == start
    case _ => false
  }

  predicate Enabled(pool: Pool, s: State, t: nat, e: Event) {
    && t < |s.threads|
    && PcOk(pool, s.threads[t])
    && match e
       case Allocate(req) => s.threads[t].Idle? && req.Valid()
       case Deallocate(start) =>
         s.threads[t].Idle? && start in s.live && forall u :: 0 <= u < |s.threads| ==> !Measures(s.threads[u], start)
       case GetBlockSize(start) => s.threads[t].Idle? && start in s.live
       case Continue(_) => !s.threads[t].Idle? && !s.threads[t].Panicked?
  }

  function WordAt(s: State, i: nat): Word {
    if i < |s.words| then s.words[i] else EmptyWord()
  }

  function Store(words: seq<Word>, i: nat, w: Option<Word>): (r: seq<Word>)
    ensures |r| == |words|
  {
    if w.Some? && i < |words| then words[i := w.value] else words
  }

  function Next(pool: Pool, s: State, t: nat, e: Event): State
    requires Enabled(pool, s, t, e)
  {
    match e
    case Allocate(req) => s.(threads := s.threads[t := Find(req, 0)])
    case Deallocate(start) =>
      s.(live := s.live - {start}, threads := s.threads[t := SizeFirst(start, s.live[start], true)])
    case GetBlockSize(start) =>
      s.(threads := s.threads[t := SizeFirst(start, s.live[start], false)])
    case Continue(read) =>
      var pc := s.threads[t];
      After(s, t, Target(pc), ThreadStep(pool, pc, WordAt(s, Target(pc)), read))
  }

  function After(s: State, t: nat, i: nat, m: Move): State
    requires t < |s.threads|
  {
    State(Store(s.words, i, m.write),
          if m.publish.Some? then s.live[m.publish.value.0 := m.publish.value.1] else s.live,
          s.threads[t := m.pc])
  }

  /** A run: each event is one step of one thread. `None` when some event was not enabled. */
  function Exec(pool: Pool, s: State, events: seq<(nat, Event)>): Option<State>
    decreases |events|
  {
    if events == [] then Some(s)
    else if !Enabled(pool, s, events[0].0, events[0].1) then None
    else Exec(pool, Next(pool, s, events[0].0, events[0].1), events[1..])
  }

  function Initial(pool: Pool, threads: nat): State {
    State(InitialWords(pool.size), map[], seq(threads, _ => Idle))
  }

  // ---------- What a thread holds ----------

  /** Slots `lo .. hi` */
  datatype Span = Span(lo: nat, hi: nat) {
    predicate Has(g: nat) { lo <= g < hi }
  }

  const Nothing := Span(0, 0)

  /** A block is the thread's own while it is measured to be freed, and otherwise its caller's. */
  function HeldFor(start: nat, size: nat, thenFree: bool): Span {
    if thenFree then Span(start, start + size) else Nothing
  }

  /** The slots claimed by a thread that is in the middle of a call. */
  function Held(pc: Pc): Span {
    match pc
    case CasWhole(p, _, i) => Span(p.Start(), 64 * i)
    case CasFinal(p, _, _) => Span(p.Start(), 64 * p.next)
    case UndoWhole(p, _, i) => Span(p.Start(), 64 * (i + 1))
    case UndoFirst(p, _) => Span(p.Start(), 64 * (p.w + 1))
    case SizeFirst(start, size, thenFree) => HeldFor(start, size, thenFree)
    case SizeMore(start, size, thenFree, _, _) => HeldFor(start, size, thenFree)
    case FreeSingle(start, n, _) => Span(start, start + n)
    case FreeLast(start, i, k, _) => Span(start, 64 * i + k)
    case FreeWhole(start, i) => Span(start, 64 * (i + 1))
    case FreeFirst(start, _) => Span(start, 64 * (start / 64 + 1))
    case _ => Nothing
  }

  predicate PlanOk(pool: Pool, p: Plan) {
    && p.req.Valid()
    && p.b < 64 && p.w < p.next <= Count(pool)
    && p.Start() + p.req.count == 64 * p.next + p.rest
    && Aligned(p.Start(), p.req.alignment)
  }

  /** The plan has been checked to the end: it stays inside the pool's words. */
  predicate PlanFits(pool: Pool, p: Plan) {
    PlanOk(pool, p) && p.rest < 64 && (p.rest > 0 ==> p.next < Count(pool))
  }

  /** What is known of a thread's locals. */
  predicate PcOk(pool: Pool, pc: Pc) {
    match pc
    case Idle => true
    case Panicked => true
    case Find(req, i) => req.Valid() && CanStartIn(req.alignment, i)
    case CasSingle(req, w, b, cw) =>
      req.Valid() && w < Count(pool) && b + req.count <= 64 && ZerosAt(cw.bitmap, req.count, b)
      && Aligned(64 * w + b, req.alignment)
    case Scan(p, cw) => PlanOk(pool, p) && ZerosAt(cw.bitmap, 64, p.b)
    case CasFirst(p, cw) => PlanFits(pool, p) && ZerosAt(cw.bitmap, 64, p.b)
    case CasWhole(p, _, i) => PlanFits(pool, p) && p.w < i <= p.next
    case CasFinal(p, _, cw) =>
      PlanFits(pool, p) && 0 < p.rest && forall k :: 0 <= k < p.rest ==> !cw.bitmap[k] && !cw.starts[k]
    case UndoWhole(p, _, i) => PlanFits(pool, p) && p.w <= i < p.next
    case UndoFirst(p, _) => PlanFits(pool, p)
    case SizeFirst(start, size, _) => 0 < size && start + size <= 64 * Count(pool)
    case SizeMore(start, size, _, i, n) =>
      start + size <= 64 * Count(pool) && 0 < n <= size && start + n == 64 * i && i < Count(pool)
    case Sized(start, size, n) => 0 < size && start + size <= 64 * Count(pool) && n == size
    case FreeSingle(start, n, seen) =>
      && 0 < n && start % 64 + n <= 64 && start + n <= 64 * Count(pool)
      && SeenOk(SingleMask(start, n), Single(start % 64), seen)
    case FreeLast(start, i, k, seen) =>
      && start < 64 * i && i < Count(pool) && 0 < k < 64
      && SeenOk(LastMask(k), Zeros(), seen)
    case FreeWhole(start, i) => start / 64 <= i < Count(pool)
    case FreeFirst(start, seen) =>
      && start / 64 < Count(pool)
      && SeenOk(FirstMask(start), Single(start % 64), seen)
  }
}
