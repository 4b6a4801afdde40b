/** What holds in every run of the concurrent pool, with any number of threads. */
module PoolTheorems {
  import opened Bits
  import opened Kernel
  import opened PoolProtocol
  import opened PoolSafety
  import opened PoolSteps
  import opened PoolWords
  import opened ZeroRuns

  // ---------- Calls beginning ----------

  lemma AllocateBegins(pool: Pool, s: State, o: seq<Owner>, t: nat, req: Request) returns (o': seq<Owner>)
    requires Inv(pool, s, o) && Enabled(pool, s, t, Allocate(req))
    ensures Inv(pool, Next(pool, s, t, Allocate(req)), o')
  {
    hide Inv, IsPowerOfTwo;
    o' := QuietStep(pool, s, o, t, 0, Find(req, 0));
  }

  /** What holds between steps. */
  ghost predicate Safe(pool: Pool, s: State, o: seq<Owner>) {
    Inv(pool, s, o) && MeasuresLive(s)
  }

  /** A caller passes its block to a thread that is to free it. */
  lemma BlockTaken(pool: Pool, s: State, o: seq<Owner>, t: nat, b: nat) returns (o': seq<Owner>)
    requires Inv(pool, s, o) && t < |s.threads| && s.threads[t].Idle? && b in s.live
    ensures Inv(pool, s.(live := s.live - {b}, threads := s.threads[t := SizeFirst(b, s.live[b], true)]), o')
  {
    var pc := SizeFirst(b, s.live[b], true);
    var s' := s.(live := s.live - {b}, threads := s.threads[t := pc]);
    o' := KeepQuietly(pool, s, s', o, Block(b), Thread(t));
  }

  lemma MeasureBegins(pool: Pool, s: State, o: seq<Owner>, t: nat, b: nat) returns (o': seq<Owner>)
    requires Inv(pool, s, o) && Enabled(pool, s, t, GetBlockSize(b))
    ensures Inv(pool, Next(pool, s, t, GetBlockSize(b)), o')
  {
    Facts(pool, s, o, t);
    hide Inv, Extent;
    o' := QuietStep(pool, s, o, t, 0, SizeFirst(b, s.live[b], false));
  }

  /** A step of a thread that measures leaves it measuring the same block, or done. */
  lemma StepMeasures(pool: Pool, pc: Pc, actual: Word, read: Word, b: nat)
    requires PcOk(pool, pc)
    ensures var pc' := ThreadStep(pool, pc, actual, read).pc;
            Measures(pc', b) ==> Measures(pc, b) && pc'.size == pc.size
  {
    hide FirstFit, ZerosAt, IsPowerOfTwo, Aligned, NextWord, SingleWord, FirstWord, FinalWord, UndoneWord, Clearable, Cleared, CountrOne, Shl, Shr, Xor;
  }

  lemma MeasuresKeep(pool: Pool, s: State, o: seq<Owner>, t: nat, e: Event)
    requires Safe(pool, s, o) && Enabled(pool, s, t, e)
    ensures MeasuresLive(Next(pool, s, t, e))
  {
    hide Inv, ThreadStep, PcOk, Target, Aligned, IsPowerOfTwo;
    var s' := Next(pool, s, t, e);
    if e.Continue? {
      var pc := s.threads[t];
      PublishedIsFresh(pool, s, o, t, e.read);
      forall b: nat ensures Measures(s'.threads[t], b) ==> Measures(pc, b) && s'.threads[t].size == pc.size {
        StepMeasures(pool, pc, WordAt(s, Target(pc)), e.read, b);
      }
    }
    forall u, b: nat | 0 <= u < |s'.threads| && Measures(s'.threads[u], b)
      ensures b in s'.live && s'.live[b] == s'.threads[u].size
    {
      if u != t {
        assert Measures(s.threads[u], b);
      }
    }
  }

  lemma ContinueKeeps(pool: Pool, s: State, o: seq<Owner>, t: nat, read: Word) returns (o': seq<Owner>)
    requires Safe(pool, s, o) && Enabled(pool, s, t, Continue(read)) && !FaultyRollback(pool, s, t)
    ensures Inv(pool, Next(pool, s, t, Continue(read)), o')
  {
    hide Inv, ThreadStep, PcOk, Target, After, FaultyRollback;
    match s.threads[t] {
      case Find(_, _) => o' := FindKeeps(pool, s, o, t, read);
      case CasSingle(_, _, _, _) => o' := CasSingleKeeps(pool, s, o, t, read);
      case Scan(_, _) => o' := ScanKeeps(pool, s, o, t, read);
      case CasFirst(_, _) => o' := CasFirstKeeps(pool, s, o, t, read);
      case CasWhole(_, _, _) => o' := CasWholeKeeps(pool, s, o, t, read);
      case CasFinal(_, _, _) => o' := CasFinalKeeps(pool, s, o, t, read);
      case UndoWhole(_, _, _) => o' := UndoWholeKeeps(pool, s, o, t, read);
      case UndoFirst(_, _) => o' := UndoFirstKeeps(pool, s, o, t, read);
      case SizeFirst(_, _, _) => o' := SizeFirstKeeps(pool, s, o, t, read);
      case SizeMore(_, _, _, _, _) => o' := SizeMoreKeeps(pool, s, o, t, read);
      case Sized(start, size, _) => o' := SizedKeeps(pool, s, o, t, read);
      case FreeSingle(_, _, _) => o' := FreeSingleKeeps(pool, s, o, t, read);
      case FreeLast(_, _, _, _) => o' := FreeLastKeeps(pool, s, o, t, read);
      case FreeWhole(_, _) => o' := FreeWholeKeeps(pool, s, o, t, read);
      case FreeFirst(_, _) => o' := FreeFirstKeeps(pool, s, o, t, read);
    }
  }

  /** Whether a step is the one that line 368 gets wrong. */
  predicate GoesWrong(pool: Pool, s: State, t: nat, e: Event)
    requires t < |s.threads|
  {
    e.Continue? && FaultyRollback(pool, s, t)
  }

  lemma StepKeeps(pool: Pool, s: State, o: seq<Owner>, t: nat, e: Event) returns (o': seq<Owner>)
    requires Safe(pool, s, o) && Enabled(pool, s, t, e) && !GoesWrong(pool, s, t, e)
    ensures Safe(pool, Next(pool, s, t, e), o')
  {
    hide Inv, MeasuresLive, ThreadStep, PcOk, Target, After, FaultyRollback;
    MeasuresKeep(pool, s, o, t, e);
    match e {
      case Allocate(req) => o' := AllocateBegins(pool, s, o, t, req);
      case Deallocate(b) => o' := BlockTaken(pool, s, o, t, b);
      case GetBlockSize(b) => o' := MeasureBegins(pool, s, o, t, b);
      case Continue(read) => o' := ContinueKeeps(pool, s, o, t, read);
    }
  }

  // ---------- What a consistent pool is, without naming owners slot by slot ----------

  /** The set bits are exactly the union of the disjoint extents of the blocks in callers' hands,
      of the partly claimed and partly freed blocks of threads in calls, and of the sentinel; the
      start bits are exactly their first slots; blocks lie inside the pool; no thread has panicked or
      stands where its next step is not defined, and every size measured is the count the block was
      allocated with. */
  ghost predicate Consistent(pool: Pool, s: State) {
    && |s.words| == Count(pool)
    && (forall c, d, g: nat :: c != d && g < 64 * |s.words| && Extent(pool, s, c).Has(g) ==> !Extent(pool, s, d).Has(g))
    && (forall g :: 0 <= g < 64 * |s.words| ==> (Used(s.words, g) <==> exists c :: Extent(pool, s, c).Has(g)))
    && (forall g :: 0 <= g < 64 * |s.words| ==>
          (Start(s.words, g) <==> exists c :: Extent(pool, s, c).Has(g) && Extent(pool, s, c).lo == g))
    && ThreadsOk(pool, s.threads)
    && (forall t :: 0 <= t < |s.threads| && s.threads[t].Sized? ==>
          s.threads[t].start in s.live && s.threads[t].n == s.live[s.threads[t].start])
    && (forall b :: b in s.live ==> 0 < s.live[b] && b + s.live[b] <= pool.size)
  }

  lemma LiveInside(pool: Pool, s: State, o: seq<Owner>)
    requires Inv(pool, s, o)
    ensures forall b :: b in s.live ==> 0 < s.live[b] && b + s.live[b] <= pool.size
  {
    forall b | b in s.live ensures 0 < s.live[b] && b + s.live[b] <= pool.size {
      var g := b + s.live[b] - 1;
      assert (o[g] == Block(b)) == Extent(pool, s, Block(b)).Has(g);
      assert (o[g] == Tail) == Extent(pool, s, Tail).Has(g);
    }
  }

  lemma InvIsConsistent(pool: Pool, s: State, o: seq<Owner>)
    requires Safe(pool, s, o)
    ensures Consistent(pool, s)
  {
    LiveInside(pool, s, o);
    assert forall t :: 0 <= t < |s.threads| && s.threads[t].Sized? ==> Measures(s.threads[t], s.threads[t].start);
    assert forall g :: !Extent(pool, s, Free).Has(g);
    assert forall t :: 0 <= t < |s.threads| ==> PcOk(pool, s.threads[t]);
    assert forall t :: 0 <= t < |s.threads| && s.threads[t].Sized? ==> s.threads[t].n == s.threads[t].size;
    hide Extent, PcOk;
    forall c, d, g: nat | c != d && g < 64 * |s.words| && Extent(pool, s, c).Has(g)
      ensures !Extent(pool, s, d).Has(g)
    {
      assert c != Free && o[g] == c;
    }
    forall g | 0 <= g < 64 * |s.words|
      ensures Used(s.words, g) <==> exists c :: Extent(pool, s, c).Has(g)
      ensures Start(s.words, g) <==> exists c :: Extent(pool, s, c).Has(g) && Extent(pool, s, c).lo == g
    {
      if o[g] != Free {
        assert Extent(pool, s, o[g]).Has(g);
      }
      forall c | Extent(pool, s, c).Has(g) ensures o[g] == c {
      }
    }
  }

  lemma InitialInv(pool: Pool, threads: nat) returns (o: seq<Owner>)
    ensures Safe(pool, Initial(pool, threads), o)
  {
    var s := Initial(pool, threads);
    InitialSlots(pool.size);
    o := seq(64 * Count(pool), g => if pool.size <= g then Tail else Free);
  }

  /** Main result: with the mask that was meant, every state of every run is consistent. */
  lemma {:induction false} EveryRunIsConsistent(pool: Pool, threads: nat, events: seq<(nat, Event)>)
    requires pool.rollback == Intended
    requires Exec(pool, Initial(pool, threads), events).Some?
    ensures Consistent(pool, Exec(pool, Initial(pool, threads), events).value)
  {
    var o := InitialInv(pool, threads);
    IntendedNeverGoesWrong(pool, Initial(pool, threads), events);
    var o' := RunKeeps(pool, Initial(pool, threads), o, events);
    InvIsConsistent(pool, Exec(pool, Initial(pool, threads), events).value, o');
  }

  lemma {:induction false} RunKeeps(pool: Pool, s: State, o: seq<Owner>, events: seq<(nat, Event)>) returns (o': seq<Owner>)
    requires Safe(pool, s, o) && Exec(pool, s, events).Some?
    requires NeverGoesWrong(pool, s, events)
    ensures Safe(pool, Exec(pool, s, events).value, o')
    decreases |events|
  {
    hide Safe, Next, Enabled, GoesWrong;
    if events == [] {
      o' := o;
    } else {
      var o1 := StepKeeps(pool, s, o, events[0].0, events[0].1);
      o' := RunKeeps(pool, Next(pool, s, events[0].0, events[0].1), o1, events[1..]);
    }
  }

  /** No step of the run is a rollback at bit 0 with the mask as written. */
  predicate NeverGoesWrong(pool: Pool, s: State, events: seq<(nat, Event)>)
    decreases |events|
  {
    events == [] ||
    (Enabled(pool, s, events[0].0, events[0].1) ==>
      !GoesWrong(pool, s, events[0].0, events[0].1)
      && NeverGoesWrong(pool, Next(pool, s, events[0].0, events[0].1), events[1..]))
  }

  lemma {:induction false} IntendedNeverGoesWrong(pool: Pool, s: State, events: seq<(nat, Event)>)
    requires pool.rollback == Intended
    ensures NeverGoesWrong(pool, s, events)
    decreases |events|
  {
    if events != [] && Enabled(pool, s, events[0].0, events[0].1) {
      hide Enabled, Next;
      IntendedNeverGoesWrong(pool, Next(pool, s, events[0].0, events[0].1), events[1..]);
    }
  }

  // ---------- The mask as written ----------

  /** A rollback at bit 0 with the mask as written leaves slot 63 of the word in use with no owner. */
  lemma FaultBreaks(pool: Pool, s: State, o: seq<Owner>, t: nat, read: Word)
    requires Inv(pool, s, o) && Enabled(pool, s, t, Continue(read)) && FaultyRollback(pool, s, t)
    ensures var s' := Next(pool, s, t, Continue(read));
            var g := 64 * s.threads[t].plan.w + 63;
            g < 64 * |s'.words| && Used(s'.words, g) && forall c :: !Extent(pool, s', c).Has(g)
  {
    Facts(pool, s, o, t);
    var UndoFirst(p, cw) := s.threads[t];
    var s' := Next(pool, s, t, Continue(read));
    var g := 64 * p.w + 63;
    RetryStaysOk(pool, p.req, p.Start());
    OnlyThread(pool, s, s', t, Retry(p.req, p.Start()));
    MaskAsIntended(AsWritten, cw, 0);
    OwnedBit(pool, s, o, Thread(t), p.w, 63);
    OwnedSlot(pool, s, o, Thread(t), g);
    hide Extent, PcOk, ThreadStep;
    forall c ensures !Extent(pool, s', c).Has(g) {
      if c != Thread(t) && c != Free {
        assert (o[g] == c) == Extent(pool, s, c).Has(g);
      }
    }
  }

  /** Exactly when a step keeps the pool consistent: always, but for the rollback of line 368 at
      bit 0 with the mask as written. */
  lemma StepKeepsConsistencyIff(pool: Pool, s: State, o: seq<Owner>, t: nat, e: Event)
    requires Safe(pool, s, o) && Enabled(pool, s, t, e)
    ensures Consistent(pool, Next(pool, s, t, e)) <==> !GoesWrong(pool, s, t, e)
  {
    hide Inv, Next, Consistent;
    if GoesWrong(pool, s, t, e) {
      FaultBreaks(pool, s, o, t, e.read);
      LeakIsInconsistent(pool, Next(pool, s, t, e), 64 * s.threads[t].plan.w + 63);
    } else {
      var o' := StepKeeps(pool, s, o, t, e);
      InvIsConsistent(pool, Next(pool, s, t, e), o');
    }
  }

  lemma LeakIsInconsistent(pool: Pool, s: State, g: nat)
    requires g < 64 * |s.words| && Used(s.words, g) && forall c :: !Extent(pool, s, c).Has(g)
    ensures !Consistent(pool, s)
  {
  }

  /** The code as written is consistent in every run without such a rollback. */
  lemma {:induction false} RunsWithoutFaultAreConsistent(pool: Pool, threads: nat, events: seq<(nat, Event)>)
    requires Exec(pool, Initial(pool, threads), events).Some?
    requires NeverGoesWrong(pool, Initial(pool, threads), events)
    ensures Consistent(pool, Exec(pool, Initial(pool, threads), events).value)
  {
    var o := InitialInv(pool, threads);
    var o' := RunKeeps(pool, Initial(pool, threads), o, events);
    InvIsConsistent(pool, Exec(pool, Initial(pool, threads), events).value, o');
  }

  /** The thread works on a request for at most a word, so that a block across words cannot start at
      bit 0. */
  predicate Short(pc: Pc) {
    match pc
    case Find(req, _) => req.count <= 64
    case CasSingle(req, _, _, _) => req.count <= 64
    case Scan(p, _) => p.req.count <= 64 && 0 < p.b
    case CasFirst(p, _) => p.req.count <= 64 && 0 < p.b
    case CasWhole(p, _, _) => p.req.count <= 64 && 0 < p.b
    case CasFinal(p, _, _) => p.req.count <= 64 && 0 < p.b
    case UndoWhole(p, _, _) => p.req.count <= 64 && 0 < p.b
    case UndoFirst(p, _) => p.req.count <= 64 && 0 < p.b
    case _ => true
  }

  lemma StaysShort(pool: Pool, pc: Pc, actual: Word, read: Word)
    requires PcOk(pool, pc) && Short(pc)
    ensures Short(ThreadStep(pool, pc, actual, read).pc)
  {
    hide FirstFit, ZerosAt, IsPowerOfTwo, NextWord, SingleWord, FirstWord, FinalWord, UndoneWord, Clearable, Cleared, CountrOne, Shl, Shr, Xor;
  }

  lemma {:induction false} ShortNeverGoesWrong(pool: Pool, s: State, events: seq<(nat, Event)>)
    requires forall t :: 0 <= t < |s.threads| ==> Short(s.threads[t])
    requires forall i :: 0 <= i < |events| && events[i].1.Allocate? ==> events[i].1.req.count <= 64
    ensures NeverGoesWrong(pool, s, events)
    decreases |events|
  {
    hide PcOk, ThreadStep, Target, Aligned, IsPowerOfTwo;
    if events != [] && Enabled(pool, s, events[0].0, events[0].1) {
      var (t, e) := events[0];
      if e.Continue? {
        StaysShort(pool, s.threads[t], WordAt(s, Target(s.threads[t])), e.read);
      }
      ShortNeverGoesWrong(pool, Next(pool, s, t, e), events[1..]);
    }
  }

  /** What a caller can see to: while nobody asks for more than a word, the code as written is
      consistent in every run. */
  lemma {:induction false} ShortRequestsAreConsistent(pool: Pool, threads: nat, events: seq<(nat, Event)>)
    requires Exec(pool, Initial(pool, threads), events).Some?
    requires forall i :: 0 <= i < |events| && events[i].1.Allocate? ==> events[i].1.req.count <= 64
    ensures Consistent(pool, Exec(pool, Initial(pool, threads), events).value)
  {
    hide Consistent, Exec, NeverGoesWrong;
    ShortNeverGoesWrong(pool, Initial(pool, threads), events);
    RunsWithoutFaultAreConsistent(pool, threads, events);
  }

  // ---------- What a step may touch ----------

  /** The request that an allocating thread is working on. */
  function Asked(pc: Pc): Option<Request> {
    match pc
    case CasSingle(req, _, _, _) => Some(req)
    case CasWhole(p, _, _) => Some(p.req)
    case CasFinal(p, _, _) => Some(p.req)
    case _ => None
  }

  /** A block is handed out only to an allocation, of the size and alignment it asked for, and only
      when its start is not already that of a live block. */
  lemma PublishedIsFresh(pool: Pool, s: State, o: seq<Owner>, t: nat, read: Word)
    requires Inv(pool, s, o) && Enabled(pool, s, t, Continue(read))
    ensures var pc := s.threads[t];
            var m := ThreadStep(pool, pc, WordAt(s, Target(pc)), read);
            m.publish.Some? ==>
              && m.publish.value.0 !in s.live && Asked(pc).Some?
              && m.publish.value.1 == Asked(pc).value.count && Aligned(m.publish.value.0, Asked(pc).value.alignment)
  {
    hide Inv, Extent, IsPowerOfTwo, Aligned, FindStep, ScanStep, SizeFirstStep, SizeMoreStep, Retry, SingleWord, FinalWord, Clearable;
    Facts(pool, s, o, t);
    var pc := s.threads[t];
    if pc.CasSingle? {
      if s.words[pc.w] == pc.cw {
        FreeBit(s, pc.w, pc.b);
        NotLive(pool, s, o, t, 64 * pc.w + pc.b);
      }
    } else if pc.CasWhole? || pc.CasFinal? {
      NotLive(pool, s, o, t, pc.plan.Start());
    }
  }

  lemma FreeBit(s: State, w: nat, b: nat)
    requires w < |s.words| && b < 64 && !s.words[w].bitmap[b]
    ensures !Used(s.words, 64 * w + b)
  {
  }

  /** The slots that a step may change: what its thread holds before or after it, and the block it
      hands out. */
  ghost predicate MayTouch(pool: Pool, s: State, s': State, t: nat, g: nat)
    requires t < |s.threads| && t < |s'.threads|
  {
    || Held(s.threads[t]).Has(g) || Held(s'.threads[t]).Has(g)
    || exists b :: b in s'.live && b !in s.live && Extent(pool, s', Block(b)).Has(g)
  }

  /** Every other slot keeps its bits: a step never disturbs a slot that its thread does not own. */
  lemma StepTouchesOnlyItsOwn(pool: Pool, s: State, o: seq<Owner>, t: nat, read: Word, g: nat)
    requires Safe(pool, s, o) && Enabled(pool, s, t, Continue(read)) && !FaultyRollback(pool, s, t)
    ensures var s' := Next(pool, s, t, Continue(read));
            |s'.words| == |s.words| && |s'.threads| == |s.threads|
            && (g < 64 * |s.words| && !MayTouch(pool, s, s', t, g) ==>
                  Used(s'.words, g) == Used(s.words, g) && Start(s'.words, g) == Start(s.words, g))
  {
    hide PcOk, ThreadStep, Target, Held, FaultyRollback, ThreadsOk, LiveOk;
    var s' := Next(pool, s, t, Continue(read));
    var o' := StepKeeps(pool, s, o, t, Continue(read));
    PublishedIsFresh(pool, s, o, t, read);
    if g < 64 * |s.words| && !MayTouch(pool, s, s', t, g) {
      var c, c' := o[g], o'[g];
      forall d | d != Free ensures Extent(pool, s, d).Has(g) == Extent(pool, s', d).Has(g) {
        if d.Block? && d.start in s'.live && d.start !in s.live {
          assert !Extent(pool, s', d).Has(g);
        }
      }
      assert (o[g] == c') == (c' != Free && Extent(pool, s, c').Has(g)) || c' == Free;
      assert (o'[g] == c) == (c != Free && Extent(pool, s', c).Has(g)) || c == Free;
    }
  }

  /** A multi-word attempt that backs out gives back, word by word, exactly slots it had claimed:
      no other bit changes, whatever other threads have done to the same words meanwhile. */
  lemma RollbackGivesBackItsClaim(pool: Pool, s: State, o: seq<Owner>, t: nat, read: Word, g: nat)
    requires Safe(pool, s, o) && Enabled(pool, s, t, Continue(read)) && !FaultyRollback(pool, s, t)
    requires s.threads[t].UndoWhole? || s.threads[t].UndoFirst?
    requires g < 64 * |s.words|
    ensures var s' := Next(pool, s, t, Continue(read));
            var back := Held(s.threads[t]).Has(g) && !Held(s'.threads[t]).Has(g);
            |s'.words| == |s.words|
            && Used(s'.words, g) == (Used(s.words, g) && !back)
            && Start(s'.words, g) == (Start(s.words, g) && !back)
    ensures var s' := Next(pool, s, t, Continue(read));
            s'.live == s.live && (Held(s'.threads[t]) == Nothing || Held(s'.threads[t]).lo == Held(s.threads[t]).lo)
  {
    var s' := Next(pool, s, t, Continue(read));
    var o' := StepKeeps(pool, s, o, t, Continue(read));
    StepTouchesOnlyItsOwn(pool, s, o, t, read, g);
    RollbackShrinks(pool, s, t, read);
    hide PcOk, ThreadStep, Target, Held, Next;
    var owner := o'[g];
    if Held(s.threads[t]).Has(g) {
      OwnedSlot(pool, s, o, Thread(t), g);
      if Held(s'.threads[t]).Has(g) {
        OwnedSlot(pool, s', o', Thread(t), g);
      } else {
        assert owner != Free ==> Extent(pool, s, owner) == Extent(pool, s', owner);
      }
    }
  }

  lemma RollbackShrinks(pool: Pool, s: State, t: nat, read: Word)
    requires Enabled(pool, s, t, Continue(read)) && (s.threads[t].UndoWhole? || s.threads[t].UndoFirst?)
    ensures var s' := Next(pool, s, t, Continue(read));
            && s'.live == s.live && s'.threads == s.threads[t := s'.threads[t]]
            && (forall g :: Held(s'.threads[t]).Has(g) ==> Held(s.threads[t]).Has(g))
            && (Held(s'.threads[t]) == Nothing || Held(s'.threads[t]).lo == Held(s.threads[t]).lo)
  {
    hide IsPowerOfTwo, Aligned;
  }

  // ---------- The slot that the mask as written loses ----------

  /** Two words. Thread 0 claimed word 0 for a block of 128 slots from slot 0, met the one-slot
      block that another thread put at slot 64, and is about to undo word 0. */
  function Contended(): State {
    var first := FirstWord(EmptyWord(), 0);
    State([first, SingleWord(EmptyWord(), 0, 1)], map[64 := 1],
          [UndoFirst(Plan(Request(128, 1), 0, 0, 2, 0), first), Idle])
  }

  lemma ContendedInv() returns (o: seq<Owner>)
    ensures Safe(Pool(128, AsWritten), Contended(), o)
  {
    var s := Contended();
    o := seq(128, g => if g < 64 then Thread(0) else if g == 64 then Block(64) else Free);
    assert Aligned(0, 1) && IsPowerOfTwo(1);
    assert forall g :: 0 <= g < 128 ==> Used(s.words, g) == (g <= 64);
    assert forall g :: 0 <= g < 128 ==> Start(s.words, g) == (g == 0 || g == 64);
    hide PcOk, Used, Start, FirstWord, SingleWord;
  }

  /** The failing input: the next step of thread 0 leaves slot 63 in use although nobody owns it. */
  lemma WrittenMaskLosesASlot(read: Word)
    ensures var pool, s := Pool(128, AsWritten), Contended();
            && Consistent(pool, s) && Enabled(pool, s, 0, Continue(read))
            && var s' := Next(pool, s, 0, Continue(read));
               && |s'.words| == 2 && Used(s'.words, 63)
               && (forall c :: !Extent(pool, s', c).Has(63)) && !Consistent(pool, s')
  {
    var pool, s := Pool(128, AsWritten), Contended();
    var o := ContendedInv();
    InvIsConsistent(pool, s, o);
    Facts(pool, s, o, 0);
    FaultBreaks(pool, s, o, 0, read);
    LeakIsInconsistent(pool, Next(pool, s, 0, Continue(read)), 63);
  }
}
