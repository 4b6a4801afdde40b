/** What one thread of the concurrent pool achieves when nobody disturbs it: the other threads may
    stand anywhere, but only this one takes steps, and its reads return what is there. Every call then
    ends, with the result that the words call for. */
module PoolSolo {
  import opened Arith
  import opened Bits
  import opened Kernel
  import opened PoolProtocol
  import opened PoolSafety
  import opened PoolSearch
  import opened PoolSteps
  import opened PoolTheorems
  import opened PoolWords
  import opened SequentialPool
  import opened ZeroRuns

  /** The word that a plain read of `AllocateInternal` looks at (lines 215, 261, 287 and 334). */
  function LookedAt(pc: Pc): nat {
    match pc
    case Find(_, i) => i
    case Scan(p, _) => p.next
    case CasWhole(p, _, _) => p.next
    case _ => 0
  }

  /** The thread's next step, with a truthful read. */
  function Honest(s: State, t: nat): Event
    requires t < |s.threads|
  {
    Continue(WordAt(s, LookedAt(s.threads[t])))
  }

  /** `n` such steps. The thread stops at Idle, where no step is enabled. */
  function Alone(pool: Pool, s: State, t: nat, n: nat): Option<State>
    requires t < |s.threads|
    decreases n
  {
    if n == 0 then Some(s)
    else if !Enabled(pool, s, t, Honest(s, t)) then None
    else Alone(pool, Next(pool, s, t, Honest(s, t)), t, n - 1)
  }

  lemma KeepsThreads(pool: Pool, s: State, t: nat, e: Event)
    requires Enabled(pool, s, t, e)
    ensures |Next(pool, s, t, e).threads| == |s.threads|
  {
    hide PcOk, ThreadStep, Target;
  }

  ghost predicate Reaches(pool: Pool, s: State, t: nat, s': State)
    requires t < |s.threads|
  {
    exists n: nat :: Alone(pool, s, t, n) == Some(s')
  }

  lemma Arrived(pool: Pool, s: State, t: nat)
    requires t < |s.threads|
    ensures Reaches(pool, s, t, s)
  {
    assert Alone(pool, s, t, 0) == Some(s);
  }

  /** One step first. */
  lemma AfterOneStep(pool: Pool, s: State, t: nat, next: State, s': State)
    requires t < |s.threads| && t < |next.threads| && Enabled(pool, s, t, Honest(s, t))
    requires next == Next(pool, s, t, Honest(s, t)) && Reaches(pool, next, t, s')
    ensures Reaches(pool, s, t, s')
  {
    hide Enabled, Next;
    var n: nat :| Alone(pool, next, t, n) == Some(s');
    assert Alone(pool, s, t, n + 1) == Some(s');
  }

  /** These steps are a run like any other. */
  lemma {:induction false} AloneIsARun(pool: Pool, s: State, t: nat, n: nat) returns (events: seq<(nat, Event)>)
    requires t < |s.threads| && Alone(pool, s, t, n).Some?
    ensures |events| == n && forall i :: 0 <= i < n ==> events[i].0 == t && events[i].1.Continue?
    ensures Exec(pool, s, events) == Alone(pool, s, t, n)
    decreases n
  {
    hide Enabled, Next;
    if n == 0 {
      events := [];
    } else {
      var e := Honest(s, t);
      KeepsThreads(pool, s, t, e);
      var rest := AloneIsARun(pool, Next(pool, s, t, e), t, n - 1);
      events := [(t, e)] + rest;
      assert events[1..] == rest;
    }
  }

  // ---------- Claiming what was found ----------

  /** Only slots in use are marked as starts. */
  ghost predicate StartsWithin(ws: seq<Word>) {
    forall w, k :: 0 <= w < |ws| && 0 <= k < 64 && ws[w].starts[k] ==> ws[w].bitmap[k]
  }

  lemma InvStartsWithin(pool: Pool, s: State, o: seq<Owner>)
    requires Inv(pool, s, o)
    ensures StartsWithin(s.words)
  {
    forall w, k | 0 <= w < |s.words| && 0 <= k < 64 && s.words[w].starts[k] ensures s.words[w].bitmap[k] {
      var g := 64 * w + k;
      assert g / 64 == w && g % 64 == k;
      assert Start(s.words, g) ==> Used(s.words, g);
    }
  }

  /** The state with thread `t` elsewhere. */
  function At(s: State, t: nat, ws: seq<Word>, live: map<nat, nat>, pc: Pc): State
    requires t < |s.threads|
  {
    State(ws, live, s.threads[t := pc])
  }

  lemma StepAt(pool: Pool, s: State, t: nat, m: Move)
    requires t < |s.threads| && PcOk(pool, s.threads[t]) && !s.threads[t].Idle? && !s.threads[t].Panicked?
    requires m == ThreadStep(pool, s.threads[t], WordAt(s, Target(s.threads[t])), WordAt(s, LookedAt(s.threads[t])))
    ensures Enabled(pool, s, t, Honest(s, t))
    ensures Next(pool, s, t, Honest(s, t)) == After(s, t, Target(s.threads[t]), m)
  {
    hide PcOk, ThreadStep, Target, LookedAt, After;
  }

  /** The words behind the first, from word `i` on, when the first has been claimed. */
  lemma {:induction false} WholeAlone(pool: Pool, s: State, was: seq<Word>, t: nat, p: Plan, first: Word, i: nat) returns (s': State)
    requires t < |s.threads| && s.threads[t] == CasWhole(p, first, i) && PcOk(pool, s.threads[t])
    requires |s.words| == |was| == Count(pool) && forall v :: i <= v < |was| ==> s.words[v] == was[v]
    requires Fits(was, p.Start(), p.req.count) && StartsWithin(was)
    ensures Reaches(pool, s, t, s')
    ensures s'.threads == s.threads[t := Idle] && s'.live == s.live[p.Start() := p.req.count]
    decreases p.next - i
  {
    hide Reaches, IsPowerOfTwo, Aligned, Fits, StartsWithin;
    if i < p.next {
      WholeIsEmpty(pool, was, p, i);
      StepAt(pool, s, t, Move(CasWhole(p, first, i + 1), Some(FullWord()), None));
      var next := Next(pool, s, t, Honest(s, t));
      s' := WholeAlone(pool, next, was, t, p, first, i + 1);
      AfterOneStep(pool, s, t, next, s');
    } else if p.rest == 0 {
      StepAt(pool, s, t, Move(Idle, None, Some((p.Start(), p.req.count))));
      s' := Next(pool, s, t, Honest(s, t));
      Arrived(pool, s', t);
      AfterOneStep(pool, s, t, s', s');
    } else {
      FinalIsFree(pool, was, p);
      var w := was[p.next];
      StepAt(pool, s, t, Go(CasFinal(p, first, w)));
      var next := Next(pool, s, t, Honest(s, t));
      StepAt(pool, next, t, Move(Idle, Some(FinalWord(w, p.rest)), Some((p.Start(), p.req.count))));
      s' := Next(pool, next, t, Honest(next, t));
      Arrived(pool, s', t);
      AfterOneStep(pool, next, t, s', s');
      AfterOneStep(pool, s, t, next, s');
    }
  }

  lemma WholeIsEmpty(pool: Pool, was: seq<Word>, p: Plan, i: nat)
    requires PlanFits(pool, p) && p.w < i < p.next && |was| == Count(pool)
    requires Fits(was, p.Start(), p.req.count) && StartsWithin(was)
    ensures was[i] == EmptyWord()
  {
    forall k | 0 <= k < 64 ensures !was[i].bitmap[k] && !was[i].starts[k] {
      assert (64 * i + k) / 64 == i && (64 * i + k) % 64 == k;
      assert !Used(was, 64 * i + k);
    }
    assert was[i].bitmap == Zeros() && was[i].starts == Zeros();
  }

  lemma FinalIsFree(pool: Pool, was: seq<Word>, p: Plan)
    requires PlanFits(pool, p) && 0 < p.rest && |was| == Count(pool)
    requires Fits(was, p.Start(), p.req.count) && StartsWithin(was)
    ensures var w := was[p.next];
      (forall k :: 0 <= k < p.rest ==> !w.bitmap[k] && !w.starts[k]) && Keep(w, Not(RestMask(p.rest))) == w
  {
    var w := was[p.next];
    forall k | 0 <= k < p.rest ensures !w.bitmap[k] && !w.starts[k] {
      assert (64 * p.next + k) / 64 == p.next && (64 * p.next + k) % 64 == k;
      assert !Used(was, 64 * p.next + k);
    }
    NothingToMask(w, p.rest);
  }

  /** Lines 300-348 */
  lemma CommitAlone(pool: Pool, s: State, t: nat, p: Plan) returns (s': State)
    requires t < |s.threads| && |s.words| == Count(pool) && p.w < |s.words|
    requires s.threads[t] == CasFirst(p, s.words[p.w]) && PcOk(pool, s.threads[t])
    requires Fits(s.words, p.Start(), p.req.count) && StartsWithin(s.words)
    ensures Reaches(pool, s, t, s')
    ensures s'.threads == s.threads[t := Idle] && s'.live == s.live[p.Start() := p.req.count]
  {
    hide Reaches, IsPowerOfTwo, Aligned, Fits, StartsWithin, FirstWord;
    var first := FirstWord(s.words[p.w], p.b);
    StepAt(pool, s, t, Move(CasWhole(p, first, p.w + 1), Some(first), None));
    var next := Next(pool, s, t, Honest(s, t));
    s' := WholeAlone(pool, next, s.words, t, p, first, p.w + 1);
    AfterOneStep(pool, s, t, next, s');
  }

  // ---------- Searching ----------

  /** How the search may end: with the first fit handed out, or with nothing because nothing fits. */
  ghost predicate Found(s: State, t: nat, req: Request, s': State)
    requires t < |s.threads|
  {
    && s'.threads == s.threads[t := Idle]
    && ((s'.words == s.words && s'.live == s.live && NoFitFrom(s.words, req.count, req.alignment, 0))
        || exists p :: IsFirstFit(s.words, req.count, req.alignment, 0, p) && s'.live == s.live[p := req.count])
  }

  /** How much of the word loop is left. */
  function WordsLeft(pool: Pool, i: nat): nat { if i <= Count(pool) then Count(pool) + 1 - i else 0 }

  ghost predicate Searching(pool: Pool, s: State, t: nat, req: Request, i: nat) {
    && t < |s.threads| && s.threads[t] == Find(req, i) && PcOk(pool, s.threads[t])
    && |s.words| == Count(pool) && StartsWithin(s.words)
    && NoFit(s.words, req.count, req.alignment, 0, 64 * i)
  }

  ghost predicate Scanning(pool: Pool, s: State, t: nat, p: Plan) {
    && t < |s.threads| && |s.words| == Count(pool) && StartsWithin(s.words)
    && FreeUpTo(s.words, p.w, p.b, p.next) && s.threads[t] == Scan(p, s.words[p.w]) && PcOk(pool, s.threads[t])
    && NoFit(s.words, p.req.count, p.req.alignment, 0, p.Start())
  }

  /** What the step of line 215 sees in word `i`. */
  lemma FindSees(pool: Pool, s: State, t: nat, req: Request, i: nat)
    requires Searching(pool, s, t, req, i)
    ensures var pc := FindStep(pool, req, i, WordAt(s, i));
      && Enabled(pool, s, t, Honest(s, t))
      && Next(pool, s, t, Honest(s, t)) == At(s, t, s.words, s.live, pc)
      && match pc
         case Idle => NoFitFrom(s.words, req.count, req.alignment, 0)
         case Find(_, v) => pc.req == req && WordsLeft(pool, v) < WordsLeft(pool, i)
                            && Searching(pool, At(s, t, s.words, s.live, pc), t, req, v)
         case CasSingle(_, w, b, cw) =>
           && pc.req == req && w == i < |s.words| && cw == s.words[i] && PcOk(pool, pc)
           && IsFirstFit(s.words, req.count, req.alignment, 0, 64 * w + b)
         case Scan(p, _) => p.req == req && p.w == i < Count(pool) && Scanning(pool, At(s, t, s.words, s.live, pc), t, p)
         case _ => false
  {
    hide IsPowerOfTwo, CanStartIn, NextWord, NoFit, Fits, FirstFit, NoFitFrom, Aligned;
    var ws, count, alignment := s.words, req.count, req.alignment;
    FindStaysOk(pool, req, i, WordAt(s, i));
    StepAt(pool, s, t, Go(FindStep(pool, req, i, WordAt(s, i))));
    if i >= Count(pool) {
      NoFitAtEnd(ws, count, alignment, 0, 64 * i);
    } else {
      var v := NextWord(alignment, i);
      NextWordCanStart(alignment, i);
      NoFitInSkippedWords(ws, count, alignment, i);
      var b := FirstFit(ws[i].bitmap, count, alignment, 0);
      NoFitBefore(ws, count, alignment, i, b);
      NoFitJoin(ws, count, alignment, 0, 64 * i, 64 * i + b);
      if ws[i].bitmap == Ones() {
        NoFitInFullWord(ws, count, alignment, i);
        NoFitJoin(ws, count, alignment, 0, 64 * i, 64 * (i + 1));
        NoFitJoin(ws, count, alignment, 0, 64 * (i + 1), 64 * v);
      } else if b == 64 {
        NoFitJoin(ws, count, alignment, 0, 64 * (i + 1), 64 * v);
      } else {
        PlanOrSingle(pool.size, ws, req, i, b);
        AlignedPosition(alignment, i, b);
      }
    }
  }

  /** What the step of lines 261 and 287 sees. */
  lemma ScanSees(pool: Pool, s: State, t: nat, p: Plan)
    requires Scanning(pool, s, t, p)
    ensures var pc := ScanStep(pool, p, s.words[p.w], WordAt(s, p.next));
      && Enabled(pool, s, t, Honest(s, t))
      && Next(pool, s, t, Honest(s, t)) == At(s, t, s.words, s.live, pc)
      && match pc
         case Idle => NoFitFrom(s.words, p.req.count, p.req.alignment, 0)
         case Find(_, v) => pc.req == p.req && WordsLeft(pool, v) < WordsLeft(pool, p.w)
                            && Searching(pool, At(s, t, s.words, s.live, pc), t, p.req, v)
         case Scan(q, _) => q.req == p.req && q.w == p.w && q.rest < p.rest && Scanning(pool, At(s, t, s.words, s.live, pc), t, q)
         case CasFirst(q, cw) =>
           && q == p && cw == s.words[p.w] && PcOk(pool, pc)
           && IsFirstFit(s.words, p.req.count, p.req.alignment, 0, p.Start()) && Fits(s.words, p.Start(), p.req.count)
         case _ => false
  {
    hide IsPowerOfTwo, CanStartIn, NextWord, NoFit, Fits, NoFitFrom, Shl;
    var ws, req := s.words, p.req;
    ScanStaysOk(pool, p, ws[p.w], WordAt(s, p.next));
    StepAt(pool, s, t, Go(ScanStep(pool, p, ws[p.w], WordAt(s, p.next))));
    if p.rest > 0 && p.next >= Count(pool) {
      NoFitAtEnd(ws, req.count, req.alignment, 0, p.Start());
    } else if p.rest >= 64 {
      if ws[p.next].bitmap != Zeros() {
        var k :| 0 <= k < 64 && ws[p.next].bitmap[k];
        BlockedFromStart(ws, p, k);
      }
    } else {
      if p.rest > 0 {
        LowBitsTest(ws[p.next].bitmap, p.rest);
        if Shl(ws[p.next].bitmap, 64 - p.rest) != Zeros() {
          var k :| 0 <= k < p.rest && ws[p.next].bitmap[k];
          BlockedFromStart(ws, p, k);
        } else {
          PlanFitsThere(ws, p.w, p.b, p.next, p.rest);
        }
      } else {
        PlanFitsThere(ws, p.w, p.b, p.next, p.rest);
      }
    }
  }

  /** A used slot of word `next` blocks every start before that word. */
  lemma BlockedFromStart(ws: seq<Word>, p: Plan, k: nat)
    requires p.req.Valid() && p.Start() + p.req.count == 64 * p.next + p.rest && p.w < p.next < |ws|
    requires k < 64 && k < p.rest && ws[p.next].bitmap[k]
    requires NoFit(ws, p.req.count, p.req.alignment, 0, p.Start()) && p.b < 64
    ensures var v := NextWord(p.req.alignment, p.next - 1);
            p.w < v && CanStartIn(p.req.alignment, v) && NoFit(ws, p.req.count, p.req.alignment, 0, 64 * v)
  {
    hide IsPowerOfTwo, CanStartIn, NextWord, NoFit;
    var count, alignment, g := p.req.count, p.req.alignment, 64 * p.next + k;
    NextWordCanStart(alignment, p.next - 1);
    assert Used(ws, g);
    NoFitAcross(ws, count, alignment, p.Start(), 64 * p.next, g);
    NoFitJoin(ws, count, alignment, 0, p.Start(), 64 * p.next);
    NoFitInSkippedWords(ws, count, alignment, p.next - 1);
    NoFitJoin(ws, count, alignment, 0, 64 * p.next, 64 * NextWord(alignment, p.next - 1));
  }

  lemma SearchAlone(pool: Pool, s: State, t: nat, req: Request, i: nat) returns (s': State)
    requires Searching(pool, s, t, req, i)
    ensures Reaches(pool, s, t, s') && Found(s, t, req, s')
    decreases WordsLeft(pool, i), 1, 0
  {
    hide Reaches, Searching, Scanning, IsFirstFit, NoFitFrom, Enabled, Next, FindStep, PcOk;
    SearchingIn(pool, s, t, req, i);
    FindSees(pool, s, t, req, i);
    var pc := FindStep(pool, req, i, WordAt(s, i));
    var next := Next(pool, s, t, Honest(s, t));
    match pc {
      case Idle =>
        s' := next;
        Arrived(pool, s', t);
      case Find(_, v) => s' := SearchAlone(pool, next, t, req, v);
      case CasSingle(_, w, b, cw) => s' := SingleAlone(pool, next, t, req, w, b);
      case Scan(p, _) => s' := ScanAlone(pool, next, t, p);
    }
    AfterOneStep(pool, s, t, next, s');
  }

  lemma SearchingIn(pool: Pool, s: State, t: nat, req: Request, i: nat)
    requires Searching(pool, s, t, req, i)
    ensures t < |s.threads| && |s.words| == Count(pool) && 0 < req.alignment
  {
  }

  lemma ScanningIn(pool: Pool, s: State, t: nat, p: Plan)
    requires Scanning(pool, s, t, p)
    ensures t < |s.threads| && |s.words| == Count(pool) && 0 < p.req.alignment && p.w < p.next && p.w < |s.words|
  {
  }

  lemma SingleAlone(pool: Pool, s: State, t: nat, req: Request, w: nat, b: nat) returns (s': State)
    requires t < |s.threads| && |s.words| == Count(pool) && w < |s.words|
    requires s.threads[t] == CasSingle(req, w, b, s.words[w]) && PcOk(pool, s.threads[t])
    ensures Reaches(pool, s, t, s')
    ensures s'.threads == s.threads[t := Idle] && s'.live == s.live[64 * w + b := req.count]
  {
    hide Reaches, IsPowerOfTwo, Aligned, SingleWord;
    StepAt(pool, s, t, Move(Idle, Some(SingleWord(s.words[w], b, req.count)), Some((64 * w + b, req.count))));
    s' := Next(pool, s, t, Honest(s, t));
    Arrived(pool, s', t);
    AfterOneStep(pool, s, t, s', s');
  }

  lemma ScanAlone(pool: Pool, s: State, t: nat, p: Plan) returns (s': State)
    requires Scanning(pool, s, t, p)
    ensures Reaches(pool, s, t, s') && Found(s, t, p.req, s')
    decreases WordsLeft(pool, p.w), 0, p.rest
  {
    hide Reaches, Searching, IsFirstFit, NoFitFrom, Enabled, Next, ScanStep, PcOk, FreeUpTo, NoFit;
    ScanningIn(pool, s, t, p);
    ScanSees(pool, s, t, p);
    var pc := ScanStep(pool, p, s.words[p.w], WordAt(s, p.next));
    var next := Next(pool, s, t, Honest(s, t));
    match pc {
      case Idle =>
        s' := next;
        Arrived(pool, s', t);
      case Find(_, v) => s' := SearchAlone(pool, next, t, p.req, v);
      case Scan(q, _) => s' := ScanAlone(pool, next, t, q);
      case CasFirst(_, _) => s' := CommitAlone(pool, next, t, p);
    }
    AfterOneStep(pool, s, t, next, s');
  }

  /** An allocation that nobody disturbs ends: it hands out the least aligned position that starts
      `count` free slots, or nothing, and then there is none. Whatever the others are in the middle of. */
  lemma UndisturbedAllocate(pool: Pool, s: State, o: seq<Owner>, t: nat, req: Request) returns (s': State)
    requires Safe(pool, s, o) && Enabled(pool, s, t, Allocate(req))
    ensures Reaches(pool, Next(pool, s, t, Allocate(req)), t, s')
    ensures s'.threads == s.threads
    ensures if NoFitFrom(s.words, req.count, req.alignment, 0) then s'.words == s.words && s'.live == s.live
            else exists p :: IsFirstFit(s.words, req.count, req.alignment, 0, p) && s'.live == s.live[p := req.count]
  {
    hide Reaches, IsPowerOfTwo;
    InvStartsWithin(pool, s, o);
    Sizes(pool, s, o);
    NoFitNowhere(s.words, req.count, req.alignment, 0);
    var s1 := Next(pool, s, t, Allocate(req));
    s' := SearchAlone(pool, s1, t, req, 0);
  }

  // ---------- Contention ----------

  /** A swap that is lost before anything was claimed leads back to the search, at the same word; one that
      is lost later, and the rollback that follows, lead there too. */
  lemma LostSwapSearchesOn(pool: Pool, pc: Pc, actual: Word, read: Word)
    requires PcOk(pool, pc)
    ensures var next := ThreadStep(pool, pc, actual, read).pc;
      && (pc.CasSingle? && actual != pc.cw ==> next == Find(pc.req, pc.w))
      && (pc.CasFirst? && actual != pc.cw ==> next == Find(pc.plan.req, pc.plan.w))
      && (pc.CasWhole? && pc.i < pc.plan.next && actual != EmptyWord() ==> next == UndoWhole(pc.plan, pc.first, pc.i - 1))
      && (pc.CasFinal? && actual != pc.cw ==> next == UndoWhole(pc.plan, pc.first, pc.plan.next - 1))
      && (pc.UndoWhole? ==> next == if pc.i == pc.plan.w then UndoFirst(pc.plan, pc.first) else UndoWhole(pc.plan, pc.first, pc.i - 1))
      && (pc.UndoFirst? ==> next == if actual == pc.cw then Find(pc.plan.req, pc.plan.w) else UndoFirst(pc.plan, actual))
  {
    hide FirstFit, ZerosAt, IsPowerOfTwo, NextWord, CanStartIn, SingleWord, FirstWord, FinalWord, UndoneWord, Clearable;
  }

  /** An allocation ends with nothing only where the words end: a pool of `size` slots has
      `(size + 63) / 64` of them. */
  lemma EndsWithNothingOnlyAtTheEnd(pool: Pool, pc: Pc, actual: Word, read: Word)
    requires PcOk(pool, pc) && (pc.Find? || pc.Scan? || pc.CasSingle? || pc.CasFirst? || pc.CasWhole? || pc.CasFinal?
             || pc.UndoWhole? || pc.UndoFirst?)
    ensures var m := ThreadStep(pool, pc, actual, read);
      m.pc == Idle && m.publish.None? ==>
        || (pc.Find? && pc.wordIndex >= (pool.size + 63) / 64)
        || (pc.Scan? && pc.plan.rest > 0 && pc.plan.next >= (pool.size + 63) / 64)
  {
    hide FirstFit, ZerosAt, IsPowerOfTwo, NextWord, CanStartIn, SingleWord, FirstWord, FinalWord, UndoneWord, Clearable;
  }

  // ---------- Measuring and freeing ----------

  /** One truthful step keeps everything that holds between steps. */
  lemma SafeStep(pool: Pool, s: State, o: seq<Owner>, t: nat) returns (o': seq<Owner>)
    requires Safe(pool, s, o) && t < |s.threads| && !s.threads[t].Idle? && !s.threads[t].UndoFirst?
    ensures Enabled(pool, s, t, Honest(s, t)) && Safe(pool, Next(pool, s, t, Honest(s, t)), o')
    ensures var s' := Next(pool, s, t, Honest(s, t));
      && |s'.threads| == |s.threads| && |s'.words| == |s.words| == Count(pool) && s'.threads == s.threads[t := s'.threads[t]]
      && !s'.threads[t].Panicked? && PcOk(pool, s'.threads[t])
    ensures PcOk(pool, s.threads[t])
  {
    hide MeasuresLive, PcOk, ThreadStep, Target, LookedAt;
    Facts(pool, s, o, t);
    o' := StepKeeps(pool, s, o, t, Honest(s, t));
    Facts(pool, Next(pool, s, t, Honest(s, t)), o', t);
  }

  /** The thread is counting the slots of the block at `start`. */
  predicate Counting(pc: Pc, start: nat, size: nat, thenFree: bool) {
    || pc == SizeFirst(start, size, thenFree)
    || (pc.SizeMore? && pc.start == start && pc.size == size && pc.thenFree == thenFree)
  }

  /** Where counting leads: the size is known, or the block begins to be freed from its last word. */
  predicate Counted(pc: Pc, start: nat, size: nat, thenFree: bool) {
    if !thenFree then pc == Sized(start, size, size)
    else (pc.FreeSingle? || pc.FreeLast? || pc.FreeWhole?) && pc.start == start
  }

  lemma CountStep(pool: Pool, pc: Pc, start: nat, size: nat, thenFree: bool, actual: Word, read: Word)
    requires PcOk(pool, pc) && Counting(pc, start, size, thenFree)
    requires var m := ThreadStep(pool, pc, actual, read); PcOk(pool, m.pc) && !m.pc.Panicked?
    ensures var m := ThreadStep(pool, pc, actual, read);
      && m.write == None && m.publish == None
      && (Counted(m.pc, start, size, thenFree) ||
          (Counting(m.pc, start, size, thenFree) && m.pc.SizeMore? && m.pc.i < Count(pool)
           && m.pc.i == (if pc.SizeMore? then pc.i else start / 64) + 1))
  {
    hide CountrOne, Xor, Shr;
  }

  lemma CountAlone(pool: Pool, s: State, o: seq<Owner>, t: nat, start: nat, size: nat, thenFree: bool)
    returns (s': State, o': seq<Owner>)
    requires Safe(pool, s, o) && t < |s.threads| && Counting(s.threads[t], start, size, thenFree)
    ensures Reaches(pool, s, t, s') && Safe(pool, s', o')
    ensures |s'.threads| == |s.threads| && s' == At(s, t, s.words, s.live, s'.threads[t])
    ensures Counted(s'.threads[t], start, size, thenFree)
    decreases if s.threads[t].SizeMore? then Count(pool) - s.threads[t].i else Count(pool) + 1
  {
    hide Reaches, Safe, PcOk, ThreadStep, Counted;
    var pc := s.threads[t];
    var o1 := SafeStep(pool, s, o, t);
    var next := Next(pool, s, t, Honest(s, t));
    CountStep(pool, pc, start, size, thenFree, WordAt(s, Target(pc)), WordAt(s, LookedAt(pc)));
    if Counted(next.threads[t], start, size, thenFree) {
      s', o' := next, o1;
      Arrived(pool, s', t);
    } else {
      s', o' := CountAlone(pool, next, o1, t, start, size, thenFree);
    }
    AfterOneStep(pool, s, t, next, s');
  }

  /** A measurement that nobody disturbs finds the size of the block. */
  lemma UndisturbedGetBlockSize(pool: Pool, s: State, o: seq<Owner>, t: nat, b: nat) returns (s': State)
    requires Safe(pool, s, o) && Enabled(pool, s, t, GetBlockSize(b))
    ensures Reaches(pool, Next(pool, s, t, GetBlockSize(b)), t, s')
    ensures s' == At(s, t, s.words, s.live, Sized(b, s.live[b], s.live[b]))
  {
    hide Reaches, Safe, PcOk;
    var o1 := StepKeeps(pool, s, o, t, GetBlockSize(b));
    var s1 := Next(pool, s, t, GetBlockSize(b));
    var o2;
    s', o2 := CountAlone(pool, s1, o1, t, b, s.live[b], false);
  }

  /** How far the thread is from having freed its block: the phase, the word, and what is still to be
      read of it. */
  function FreePhase(pc: Pc): nat {
    match pc
    case FreeSingle(_, _, _) => 1
    case FreeLast(_, _, _, _) => 3
    case FreeWhole(_, _) => 2
    case FreeFirst(_, _) => 1
    case _ => 0
  }

  function WordToFree(pc: Pc): nat { if pc.FreeWhole? then pc.i else 0 }

  function ToRead(pc: Pc, actual: Word): nat {
    if pc.FreeSingle? || pc.FreeLast? || pc.FreeFirst? then
      match pc.seen
      case Unread => 3
      case Read(w) => if w == actual then 0 else 1
      case _ => 2
    else 0
  }

  predicate Freeing(pc: Pc) { pc.FreeSingle? || pc.FreeLast? || pc.FreeWhole? || pc.FreeFirst? }

  lemma FreeStep(pool: Pool, pc: Pc, actual: Word, read: Word)
    requires PcOk(pool, pc) && Freeing(pc)
    requires !ThreadStep(pool, pc, actual, read).pc.Panicked?
    ensures var m := ThreadStep(pool, pc, actual, read);
      && m.publish == None && (m.pc == Idle || Freeing(m.pc))
      && (m.pc != Idle ==>
            || FreePhase(m.pc) < FreePhase(pc)
            || (FreePhase(m.pc) == FreePhase(pc) && WordToFree(m.pc) < WordToFree(pc))
            || (FreePhase(m.pc) == FreePhase(pc) && WordToFree(m.pc) == WordToFree(pc) && m.write == None
                && Target(m.pc) == Target(pc) && ToRead(m.pc, actual) < ToRead(pc, actual)))
  {
    hide Clearable, Cleared, SingleMask, LastMask, FirstMask, SeenOk;
  }

  lemma FreeAlone(pool: Pool, s: State, o: seq<Owner>, t: nat) returns (s': State, o': seq<Owner>)
    requires Safe(pool, s, o) && t < |s.threads| && Freeing(s.threads[t])
    ensures Reaches(pool, s, t, s') && Safe(pool, s', o')
    ensures s'.threads == s.threads[t := Idle] && s'.live == s.live
    decreases FreePhase(s.threads[t]), WordToFree(s.threads[t]), ToRead(s.threads[t], WordAt(s, Target(s.threads[t])))
  {
    hide Reaches, Safe, PcOk, ThreadStep, Target, FreePhase, WordToFree, ToRead, Freeing;
    var pc := s.threads[t];
    NotDone(pc);
    var o1 := SafeStep(pool, s, o, t);
    var next := Next(pool, s, t, Honest(s, t));
    FreeStep(pool, pc, WordAt(s, Target(pc)), WordAt(s, LookedAt(pc)));
    if next.threads[t] == Idle {
      s', o' := next, o1;
      Arrived(pool, s', t);
    } else {
      s', o' := FreeAlone(pool, next, o1, t);
    }
    AfterOneStep(pool, s, t, next, s');
  }

  lemma NotDone(pc: Pc)
    ensures Freeing(pc) ==> !pc.Idle? && !pc.UndoFirst?
  {
  }

  /** A deallocation that nobody disturbs ends, and the block is gone. */
  lemma UndisturbedDeallocate(pool: Pool, s: State, o: seq<Owner>, t: nat, b: nat) returns (s': State)
    requires Safe(pool, s, o) && Enabled(pool, s, t, Deallocate(b))
    ensures Reaches(pool, Next(pool, s, t, Deallocate(b)), t, s')
    ensures s'.threads == s.threads && s'.live == s.live - {b} && Consistent(pool, s')
  {
    hide Reaches, Safe, PcOk, Consistent;
    var o1 := StepKeeps(pool, s, o, t, Deallocate(b));
    var s1 := Next(pool, s, t, Deallocate(b));
    var s2, o2 := CountAlone(pool, s1, o1, t, b, s.live[b], true);
    var o3;
    s', o3 := FreeAlone(pool, s2, o2, t);
    InvIsConsistent(pool, s', o3);
    ReachesOn(pool, s1, t, s2, s');
  }

  lemma {:induction false} AloneOn(pool: Pool, s: State, t: nat, n: nat, m: nat)
    requires t < |s.threads| && Alone(pool, s, t, n).Some?
    ensures t < |Alone(pool, s, t, n).value.threads|
    ensures Alone(pool, s, t, n + m) == Alone(pool, Alone(pool, s, t, n).value, t, m)
    decreases n
  {
    hide Enabled, Next, Honest;
    if n > 0 {
      KeepsThreads(pool, s, t, Honest(s, t));
      AloneOn(pool, Next(pool, s, t, Honest(s, t)), t, n - 1, m);
    }
  }

  lemma ReachesOn(pool: Pool, s: State, t: nat, s1: State, s2: State)
    requires t < |s.threads| && t < |s1.threads| && Reaches(pool, s, t, s1) && Reaches(pool, s1, t, s2)
    ensures Reaches(pool, s, t, s2)
  {
    var n: nat :| Alone(pool, s, t, n) == Some(s1);
    var m: nat :| Alone(pool, s1, t, m) == Some(s2);
    AloneOn(pool, s, t, n, m);
    assert Alone(pool, s, t, n + m) == Some(s2);
  }

  // ---------- What callers may do ----------

  /** In a consistent state a thread that is in no call may make any: an allocation of any count and any
      alignment that is a power of two below 2^32, a measurement of any block in a caller's hands, and a
      deallocation of any that is not being measured; a thread in a call can always take its next step. */
  lemma NothingIsRefused(pool: Pool, s: State, t: nat, count: nat, k: nat, b: nat, read: Word)
    requires Consistent(pool, s) && t < |s.threads|
    requires 0 < count <= 0xFFFF_FFC0 && Power(k) < 0x1_0000_0000
    ensures s.threads[t].Idle? ==> Enabled(pool, s, t, Allocate(Request(count, Power(k))))
    ensures s.threads[t].Idle? && b in s.live ==> Enabled(pool, s, t, GetBlockSize(b))
    ensures s.threads[t].Idle? && b in s.live && (forall u :: 0 <= u < |s.threads| ==> s.threads[u].Idle?) ==>
              Enabled(pool, s, t, Deallocate(b))
    ensures !s.threads[t].Idle? ==> Enabled(pool, s, t, Continue(read))
  {
    assert SomePower(Power(k));
    PowerOfTwoIff(Power(k));
  }
}
