/** The completion protocol of `promise_base` (src/Async.h, lines 240-548): a coroutine that
    finishes and the task that owns it share one atomic word. One step per access to the shared
    promise; the two sides interleave freely. */
module Promise {
  import opened Kernel

  // The special values of `m_waiting` (lines 255-258). Any other value is a registered waiter.
  const RUNNING: nat := 0xFFFF_FFFF_FFFF_FFFF
  const COMPLETING: nat := RUNNING - 1
  const COMPLETED: nat := RUNNING - 2
  const ABANDONED: nat := RUNNING - 3

  predicate IsWaiter(v: nat) { 16 < v < ABANDONED }

  datatype Holder = Empty | Value | Error

  /** The finishing coroutine: its body, then `final_suspend`. */
  datatype Coroutine =
    | Body                             // until the result is stored (lines 360-368)
    | Publish                          // line 392
    | NoAwaiter                        // line 403
    | DestroyAbandoned                 // line 397
    | DestroyLateUnawaited             // line 408
    | ReadNotifier(w: nat)             // line 429
    | Notify(w: nat)                   // line 432
    | ReadResumer(w: nat)              // line 438
    | MarkCompleted(w: nat, resumer: bool) // line 440
    | DestroyLateAwaited               // line 444
    | Resume(w: nat)                   // lines 448-458
    | Finished

  /** The task that owns the coroutine. */
  datatype Owner =
    | Holding                          // between calls
    | Register(v: nat, notify: bool)   // lines 482-483 or 493-494
    | Exchange(v: nat)                 // line 511
    | RestoreCompleting(v: nat)        // line 528
    | RestoreCompleted                 // line 539
    | Abandon                          // line 309
    | AbandonWaiter(v: nat)            // line 324
    | Destroy                          // lines 317 and 332
    | CheckNotifier                    // line 338
    | Spin                             // line 349
    | Gone

  /** The promise, both sides, and what has happened so far: how the await ended, how often the
      frame was destroyed and a callback called, whether the owner gave up before the coroutine
      finished (`early`), whether `abandon` read Completing, and whether anything went wrong: an
      assertion, a panic, or an access to the promise after its destruction. */
  datatype State = State(
    word: nat, notifier: bool, resumer: bool, holder: Holder,
    co: Coroutine, owner: Owner,
    waiter: nat, await: Option<bool>, ready: bool,
    destroyed: nat, callbacks: nat, early: bool, sawCompleting: bool, fault: bool)

  const Start := State(RUNNING, false, false, Empty, Body, Holding, 0, None, false, 0, 0, false, false, false)

  /** An access to the promise; too late once the frame is destroyed. */
  function Touch(s: State): (r: State)
    ensures r.co == s.co && r.owner == s.owner && r.holder == s.holder && r.word == s.word
    ensures r.await == s.await && r.early == s.early && r.sawCompleting == s.sawCompleting
  {
    s.(fault := s.fault || s.destroyed > 0)
  }

  function Check(s: State, ok: bool): (r: State)
    ensures r.co == s.co && r.owner == s.owner && r.holder == s.holder && r.word == s.word
    ensures r.await == s.await && r.early == s.early && r.sawCompleting == s.sawCompleting
  {
    s.(fault := s.fault || !ok)
  }

  function DestroyFrame(s: State): (r: State)
    ensures r.co == s.co && r.owner == s.owner && r.holder == s.holder && r.word == s.word
    ensures r.await == s.await && r.early == s.early && r.sawCompleting == s.sawCompleting
  {
    Touch(s).(destroyed := s.destroyed + 1)
  }

  function CoStep(s: State, throws: bool): State {
    match s.co
    case Body =>
      Check(Touch(s), s.holder == Empty).(holder := if throws then Error else Value, co := Publish)
    case Publish =>
      var t := Touch(s).(word := COMPLETING);
      if s.word == ABANDONED then t.(co := DestroyAbandoned)
      else if s.word == RUNNING then t.(co := NoAwaiter)
      else Check(t, s.word != COMPLETING && s.word != COMPLETED).(co := ReadNotifier(s.word))
    case NoAwaiter =>
      Touch(s).(word := COMPLETED, co := if s.word == ABANDONED then DestroyLateUnawaited else Finished)
    case DestroyAbandoned => DestroyFrame(s).(co := Finished)
    case DestroyLateUnawaited => DestroyFrame(s).(co := Finished)
    case ReadNotifier(w) => Touch(s).(co := if s.notifier then Notify(w) else ReadResumer(w))
    case Notify(w) => Check(s, s.holder != Empty).(callbacks := s.callbacks + 1, co := ReadResumer(w))
    case ReadResumer(w) => Touch(s).(co := MarkCompleted(w, s.resumer))
    case MarkCompleted(w, resumer) =>
      if s.word == COMPLETING
      then Touch(s).(word := COMPLETED, co := if resumer then Resume(w) else Finished)
      else Check(Touch(s), s.word == ABANDONED).(co := DestroyLateAwaited)
    case DestroyLateAwaited => DestroyFrame(s).(co := Finished)
    case Resume(w) => Check(s, s.holder != Empty).(callbacks := s.callbacks + 1, co := Finished)
    case Finished => s
  }

  /** The owner goes on with the call it is in. */
  function OwnerStep(s: State): State {
    match s.owner
    case Holding => s
    case Register(v, notify) =>
      Check(Touch(s), !s.resumer && !s.notifier).(notifier := notify, resumer := !notify, owner := Exchange(v))
    case Exchange(v) =>
      var t := Check(Touch(s), v > 16 && (s.word == RUNNING || s.word == COMPLETING || s.word == COMPLETED))
               .(word := v, waiter := v, await := Some(s.word == RUNNING));
      if s.word == RUNNING then t.(owner := Holding)
      else if s.word == COMPLETING then t.(owner := RestoreCompleting(v))
      else t.(owner := RestoreCompleted)
    case RestoreCompleting(v) =>
      Touch(s).(word := if s.word == v then COMPLETING else s.word, ready := true, owner := Holding)
    case RestoreCompleted => Touch(s).(word := COMPLETED, ready := true, owner := Holding)
    case Abandon =>
      if s.word == RUNNING then Touch(s).(word := ABANDONED, early := true, owner := Gone)
      else if s.word == COMPLETED then Touch(s).(owner := Destroy)
      else if s.word == COMPLETING then Touch(s).(sawCompleting := true, owner := CheckNotifier)
      else Check(Touch(s), s.word != ABANDONED).(owner := AbandonWaiter(s.word))
    case AbandonWaiter(v) =>
      if s.word == v then Touch(s).(word := ABANDONED, early := true, owner := Gone)
      else if s.word == COMPLETED then Touch(s).(owner := Destroy)
      else Check(Touch(s), s.word == COMPLETING).(sawCompleting := true, owner := CheckNotifier)
    case Destroy => DestroyFrame(s).(owner := Gone)
    case CheckNotifier => Touch(s).(owner := if s.notifier then Spin else Gone)
    case Spin => Touch(s).(owner := if s.word == COMPLETING then Spin else Gone)
    case Gone => s
  }

  /** What can happen next. The owner awaits at most once, reads the result only when it has been
      told that it is there, and makes no call after `abandon`. */
  datatype Event =
    | Coroutine(throws: bool)
    | Continue
    | Await(v: nat, notify: bool)
    | Poll
    | ReadResult
    | GiveUp

  predicate Enabled(s: State, e: Event) {
    match e
    case Coroutine(_) => !s.co.Finished?
    case Continue => !s.owner.Holding? && !s.owner.Gone?
    case Await(v, _) => s.owner.Holding? && s.await.None? && IsWaiter(v)
    case Poll => s.owner.Holding?
    case ReadResult => s.owner.Holding? && (s.ready || s.callbacks > 0)
    case GiveUp => s.owner.Holding?
  }

  function Next(s: State, e: Event): State {
    match e
    case Coroutine(throws) => CoStep(s, throws)
    case Continue => OwnerStep(s)
    case Await(v, notify) => s.(owner := Register(v, notify))
    case Poll =>
      Check(Touch(s), s.word != ABANDONED).(ready := s.ready || s.word == COMPLETING || s.word == COMPLETED)
    case ReadResult => Check(Touch(s), s.holder != Empty)
    case GiveUp => s.(owner := Abandon)
  }

  /** A run; `None` when some event was not enabled. */
  function Exec(s: State, events: seq<Event>): Option<State>
    decreases |events|
  {
    if events == [] then Some(s)
    else if !Enabled(s, events[0]) then None
    else Exec(Next(s, events[0]), events[1..])
  }

  // ---------- The invariant ----------

  /** The owner has called `abandon`. */
  predicate Leaving(o: Owner) {
    o.Abandon? || o.AbandonWaiter? || o.Destroy? || o.CheckNotifier? || o.Spin? || o.Gone?
  }

  /** What the owner's own locals and the history say, whatever the coroutine does. */
  predicate OwnerOk(s: State) {
    && (s.await.None? <==> s.waiter == 0)
    && (s.await.Some? ==> IsWaiter(s.waiter) && s.notifier != s.resumer)
    && (s.await.None? && !s.owner.Exchange? && !Leaving(s.owner) ==> !s.notifier && !s.resumer)
    && (s.await.None? ==> !(s.notifier && s.resumer))
    && match s.owner
       case Holding => !s.early && !s.sawCompleting
       case Register(v, _) => s.await.None? && IsWaiter(v) && !s.early && !s.sawCompleting
       case Exchange(v) => s.await.None? && IsWaiter(v) && s.notifier != s.resumer && !s.early && !s.sawCompleting
       case RestoreCompleting(v) => s.await == Some(false) && v == s.waiter && !s.early && !s.sawCompleting
       case RestoreCompleted => s.await == Some(false) && !s.early && !s.sawCompleting
       case Abandon => !s.early && !s.sawCompleting
       case AbandonWaiter(v) => s.await == Some(true) && v == s.waiter && !s.early && !s.sawCompleting
       case Destroy => !s.early && !s.sawCompleting
       case CheckNotifier => !s.early && s.sawCompleting
       case Spin => !s.early && s.sawCompleting
       case Gone => !(s.early && s.sawCompleting)
  }

  /** Before the coroutine publishes: the word tells how far the owner is. */
  predicate BeforePublish(s: State) {
    && s.destroyed == 0 && s.callbacks == 0 && !s.ready && !s.sawCompleting && s.await != Some(false)
    && !s.owner.Destroy? && (s.owner.Gone? <==> s.early)
    && s.word == if s.early then ABANDONED else if s.await == Some(true) then s.waiter else RUNNING
  }

  /** After it marked the task completed without having been abandoned before. */
  predicate AfterCompleted(s: State) {
    && s.holder != Empty && !s.early
    && s.destroyed == (if s.owner.Gone? && !s.sawCompleting then 1 else 0)
    && (s.destroyed == 0 ==> s.word == if s.owner.RestoreCompleted? then s.waiter else COMPLETED)
  }

  predicate Inv(s: State) {
    && !s.fault && OwnerOk(s)
    && match s.co
       case Body => s.holder == Empty && BeforePublish(s)
       case Publish => s.holder != Empty && BeforePublish(s)
       case NoAwaiter =>
         && s.holder != Empty && !s.early && s.destroyed == 0 && s.callbacks == 0 && s.await != Some(true)
         && !s.owner.Destroy? && !s.owner.RestoreCompleted? && (s.owner.Gone? ==> s.sawCompleting)
         && s.word == if s.owner.RestoreCompleting? then s.waiter else COMPLETING
       case DestroyAbandoned =>
         s.holder != Empty && s.early && s.owner.Gone? && s.destroyed == 0 && s.callbacks == 0 && s.await != Some(false)
       case ReadNotifier(w) => Completing(s) && s.callbacks == 0
       case Notify(w) => Completing(s) && s.callbacks == 0 && s.notifier
       case ReadResumer(w) => Completing(s) && s.callbacks == if s.notifier then 1 else 0
       case MarkCompleted(w, r) => Completing(s) && r == s.resumer && s.callbacks == if s.notifier then 1 else 0
       case DestroyLateUnawaited => false
       case DestroyLateAwaited => false
       case Resume(w) => AfterCompleted(s) && s.callbacks == 0 && s.resumer && s.await == Some(true)
       case Finished =>
         || (s.early && s.owner.Gone? && s.destroyed == 1 && s.callbacks == 0 && s.await != Some(false))
         || (AfterCompleted(s) && s.callbacks == if s.await == Some(true) then 1 else 0)
  }

  /** The coroutine has taken the waiter and is about to call back. */
  predicate Completing(s: State) {
    && s.holder != Empty && !s.early && s.destroyed == 0 && s.await == Some(true) && s.word == COMPLETING
    && !s.owner.Destroy? && (s.owner.Gone? ==> s.sawCompleting)
  }

  // ---------- Every step keeps it ----------

  lemma StoringKeeps(s: State, throws: bool)
    requires Inv(s) && (s.co.Body?)
    ensures Inv(CoStep(s, throws))
  {
  }

  lemma PublishingKeeps(s: State, throws: bool)
    requires Inv(s) && (s.co.Publish?)
    ensures Inv(CoStep(s, throws))
  {
  }

  lemma UnawaitedKeeps(s: State, throws: bool)
    requires Inv(s) && (s.co.NoAwaiter? || s.co.DestroyAbandoned?)
    ensures Inv(CoStep(s, throws))
  {
  }

  lemma NotifyingKeeps(s: State, throws: bool)
    requires Inv(s) && (s.co.ReadNotifier? || s.co.Notify?)
    ensures Inv(CoStep(s, throws))
  {
  }

  lemma MarkingKeeps(s: State, throws: bool)
    requires Inv(s) && (s.co.ReadResumer? || s.co.MarkCompleted?)
    ensures Inv(CoStep(s, throws))
  {
  }

  lemma ResumingKeeps(s: State, throws: bool)
    requires Inv(s) && (s.co.Resume?)
    ensures Inv(CoStep(s, throws))
  {
  }

  lemma RegisteringKeeps(s: State)
    requires Inv(s) && (s.owner.Register?)
    ensures Inv(OwnerStep(s))
  {
  }

  lemma ExchangingKeeps(s: State)
    requires Inv(s) && (s.owner.Exchange?)
    ensures Inv(OwnerStep(s))
  {
  }

  lemma RestoringKeeps(s: State)
    requires Inv(s) && (s.owner.RestoreCompleting? || s.owner.RestoreCompleted?)
    ensures Inv(OwnerStep(s))
  {
  }

  lemma AbandoningKeeps(s: State)
    requires Inv(s) && (s.owner.Abandon?)
    ensures Inv(OwnerStep(s))
  {
  }

  lemma AbandoningWaiterKeeps(s: State)
    requires Inv(s) && (s.owner.AbandonWaiter?)
    ensures Inv(OwnerStep(s))
  {
  }

  lemma LeavingKeeps(s: State)
    requires Inv(s) && (s.owner.Destroy? || s.owner.CheckNotifier? || s.owner.Spin?)
    ensures Inv(OwnerStep(s))
  {
  }

  lemma StepKeeps(s: State, e: Event)
    requires Inv(s) && Enabled(s, e)
    ensures Inv(Next(s, e))
  {
    hide Inv, CoStep, OwnerStep;
    if e.Coroutine? {
      CoStepKeeps(s, e.throws);
    } else if e.Continue? {
      OwnerStepKeeps(s);
    } else {
      CallKeeps(s, e);
    }
  }

  /** The owner begins a call. */
  lemma CallKeeps(s: State, e: Event)
    requires Inv(s) && Enabled(s, e) && !e.Coroutine? && !e.Continue?
    ensures Inv(Next(s, e))
  {
    hide CoStep, OwnerStep;
  }

  lemma CoStepKeeps(s: State, throws: bool)
    requires Inv(s) && !s.co.Finished?
    ensures Inv(CoStep(s, throws))
  {
    assert !s.co.DestroyLateUnawaited? && !s.co.DestroyLateAwaited?;
    hide Inv, CoStep;
    match s.co {
      case Body => StoringKeeps(s, throws);
      case Publish => PublishingKeeps(s, throws);
      case NoAwaiter => UnawaitedKeeps(s, throws);
      case DestroyAbandoned => UnawaitedKeeps(s, throws);
      case ReadNotifier(_) => NotifyingKeeps(s, throws);
      case Notify(_) => NotifyingKeeps(s, throws);
      case ReadResumer(_) => MarkingKeeps(s, throws);
      case MarkCompleted(_, _) => MarkingKeeps(s, throws);
      case Resume(_) => ResumingKeeps(s, throws);
      case DestroyLateUnawaited =>
      case DestroyLateAwaited =>
    }
  }

  lemma OwnerStepKeeps(s: State)
    requires Inv(s)
    ensures Inv(OwnerStep(s))
  {
    assert s.owner.Holding? || s.owner.Gone? ==> OwnerStep(s) == s;
    hide Inv, OwnerStep;
    match s.owner {
      case Register(_, _) => RegisteringKeeps(s);
      case Exchange(_) => ExchangingKeeps(s);
      case RestoreCompleting(_) => RestoringKeeps(s);
      case RestoreCompleted => RestoringKeeps(s);
      case Abandon => AbandoningKeeps(s);
      case AbandonWaiter(_) => AbandoningWaiterKeeps(s);
      case Destroy => LeavingKeeps(s);
      case CheckNotifier => LeavingKeeps(s);
      case Spin => LeavingKeeps(s);
      case _ =>
    }
  }

  lemma {:induction false} RunKeeps(s: State, events: seq<Event>)
    requires Inv(s) && Exec(s, events).Some?
    ensures Inv(Exec(s, events).value)
    decreases |events|
  {
    hide Inv, Next, Enabled;
    if events != [] {
      StepKeeps(s, events[0]);
      RunKeeps(Next(s, events[0]), events[1..]);
    }
  }

  // ---------- What holds of every run ----------

  /** The frame is destroyed at most once, nobody touches it afterwards, no assertion fires and
      no read finds the result missing. The two branches that destroy a coroutine "abandoned while
      completing" (lines 404-409 and 440-446) are never taken. */
  lemma {:induction false} EveryRunIsSafe(events: seq<Event>)
    requires Exec(Start, events).Some?
    ensures var s := Exec(Start, events).value;
            && !s.fault && s.destroyed <= 1
            && !s.co.DestroyLateUnawaited? && !s.co.DestroyLateAwaited?
  {
    assert Inv(Start);
    RunKeeps(Start, events);
  }

  predicate BothDone(s: State) { s.co.Finished? && s.owner.Gone? }

  /** A finished run destroys the frame exactly once, except that it never does when `abandon` read
      Completing: then the frame is lost. */
  lemma {:induction false} DestroyedOnceUnlessAbandonReadCompleting(events: seq<Event>)
    requires Exec(Start, events).Some? && BothDone(Exec(Start, events).value)
    ensures var s := Exec(Start, events).value; s.destroyed == if s.sawCompleting then 0 else 1
  {
    assert Inv(Start);
    RunKeeps(Start, events);
  }

  /** The owner gives up only after its resumer has run. */
  predicate GivesUpAfterResume(s: State, events: seq<Event>)
    decreases |events|
  {
    events == [] ||
    (Enabled(s, events[0]) ==>
      && (events[0].GiveUp? ==> s.resumer && s.callbacks == 1)
      && GivesUpAfterResume(Next(s, events[0]), events[1..]))
  }

  /** An owner that is leaving found the coroutine finished. */
  predicate LeftInTime(s: State) {
    Leaving(s.owner) ==> s.co.Finished? && AfterCompleted(s) && !s.sawCompleting && !s.owner.AbandonWaiter?
  }

  /** The resumer is the coroutine's last step. */
  lemma LeavingInTime(s: State, e: Event)
    requires Inv(s) && LeftInTime(s) && Enabled(s, e) && (e.GiveUp? ==> s.resumer && s.callbacks == 1)
    ensures LeftInTime(Next(s, e))
  {
    if e.GiveUp? {
      assert !s.notifier;
    } else if !Leaving(s.owner) {
      StaysUntilGiveUp(s, e);
    }
  }

  lemma StaysUntilGiveUp(s: State, e: Event)
    requires Enabled(s, e) && !Leaving(s.owner) && !e.GiveUp?
    ensures !Leaving(Next(s, e).owner)
  {
    hide CoStep, OwnerStep;
    if e.Coroutine? {
      CoStepKeepsOwner(s, e.throws);
    } else if e.Continue? {
      OwnerComesBack(s);
    }
  }

  lemma CoStepKeepsOwner(s: State, throws: bool)
    ensures CoStep(s, throws).owner == s.owner
  {
    hide Touch, Check, DestroyFrame;
  }

  lemma OwnerComesBack(s: State)
    requires !Leaving(s.owner)
    ensures !Leaving(OwnerStep(s).owner)
  {
  }

  lemma {:induction false} RunLeavesInTime(s: State, events: seq<Event>)
    requires Inv(s) && LeftInTime(s) && Exec(s, events).Some? && GivesUpAfterResume(s, events)
    ensures LeftInTime(Exec(s, events).value)
    decreases |events|
  {
    hide Inv, LeftInTime, Next, Enabled;
    if events != [] {
      LeavingInTime(s, events[0]);
      StepKeeps(s, events[0]);
      RunLeavesInTime(Next(s, events[0]), events[1..]);
    }
  }

  // ---------- What is stored, told and counted ----------

  /** How the body ended, if it has: its first step says whether it threw. */
  function Ended(events: seq<Event>): Option<bool> {
    if events == [] then None
    else if events[0].Coroutine? then Some(events[0].throws)
    else Ended(events[1..])
  }

  /** What the holder has, given how the body ended. */
  predicate Stored(s: State, ended: Option<bool>) {
    match ended
    case None => s.co.Body? && s.holder == Empty
    case Some(threw) => !s.co.Body? && s.holder == if threw then Error else Value
  }

  /** Only the end of the body stores anything. */
  lemma StepStores(s: State, e: Event)
    requires Enabled(s, e)
    ensures var s' := Next(s, e);
      if s.co.Body? && e.Coroutine? then !s'.co.Body? && s'.holder == (if e.throws then Error else Value)
      else s'.co.Body? == s.co.Body? && s'.holder == s.holder
  {
    hide Touch, Check, DestroyFrame;
    if e.Coroutine? {
      CoStepStores(s, e.throws);
    } else if e.Continue? {
      OwnerStepStores(s);
    }
  }

  lemma CoStepStores(s: State, throws: bool)
    requires !s.co.Finished?
    ensures var s' := CoStep(s, throws);
      if s.co.Body? then !s'.co.Body? && s'.holder == (if throws then Error else Value)
      else !s'.co.Body? && s'.holder == s.holder
  {
    hide Touch, Check, DestroyFrame;
  }

  lemma OwnerStepStores(s: State)
    ensures OwnerStep(s).co == s.co && OwnerStep(s).holder == s.holder
  {
    hide Touch, Check, DestroyFrame;
    match s.owner {
      case Holding =>
      case Register(_, _) =>
      case Exchange(_) =>
      case RestoreCompleting(_) =>
      case RestoreCompleted =>
      case Abandon =>
      case AbandonWaiter(_) =>
      case Destroy =>
      case CheckNotifier =>
      case Spin =>
      case Gone =>
    }
  }

  lemma {:induction false} RunStores(s: State, events: seq<Event>, ended: Option<bool>)
    requires Exec(s, events).Some? && Stored(s, ended)
    ensures Stored(Exec(s, events).value, if ended.Some? then ended else Ended(events))
    decreases |events|
  {
    hide Next, Enabled;
    if events != [] {
      StepStores(s, events[0]);
      RunStores(Next(s, events[0]), events[1..],
                if ended.None? && events[0].Coroutine? then Some(events[0].throws) else ended);
    }
  }

  /** In every run the holder has an error exactly when the body threw, a value exactly when it
      returned, and nothing before: what the owner reads is what the body ended with. */
  lemma {:induction false} HolderIsHowTheBodyEnded(events: seq<Event>)
    requires Exec(Start, events).Some?
    ensures var s := Exec(Start, events).value;
      && (s.co.Body? <==> Ended(events) == None)
      && s.holder == match Ended(events) case None => Empty case Some(true) => Error case Some(false) => Value
    ensures Enabled(Exec(Start, events).value, ReadResult) ==> Ended(events).Some?
  {
    RunStores(Start, events, None);
    assert Inv(Start);
    RunKeeps(Start, events);
  }

  /** Polling says ready exactly when the coroutine has begun to complete, and does nothing else. */
  lemma {:induction false} PollTellsTheTruth(events: seq<Event>)
    requires Exec(Start, events).Some? && Exec(Start, events).value.owner.Holding?
    ensures var s := Exec(Start, events).value;
      && Next(s, Poll) == s.(ready := Next(s, Poll).ready)
      && (Next(s, Poll).ready <==> !s.co.Body? && !s.co.Publish?)
  {
    assert Inv(Start);
    RunKeeps(Start, events);
    RunTold(Start, events);
  }

  /** The owner has been told ready only after the coroutine began to complete. */
  predicate Told(s: State) { s.ready ==> !s.co.Body? && !s.co.Publish? }

  lemma StepTold(s: State, e: Event)
    requires Inv(s) && Told(s) && Enabled(s, e)
    ensures Told(Next(s, e))
  {
  }

  lemma {:induction false} RunTold(s: State, events: seq<Event>)
    requires Inv(s) && Told(s) && Exec(s, events).Some?
    ensures Told(Exec(s, events).value)
    decreases |events|
  {
    hide Inv, Told, Next, Enabled;
    if events != [] {
      StepTold(s, events[0]);
      StepKeeps(s, events[0]);
      RunTold(Next(s, events[0]), events[1..]);
    }
  }

  /** The word that `abandon` has read Completing from, in its first look or when its exchange fails. */
  predicate ReadsCompleting(s: State) {
    || (s.owner.Abandon? && s.word == 0xFFFF_FFFF_FFFF_FFFE)
    || (s.owner.AbandonWaiter? && s.word != s.owner.v && s.word != 0xFFFF_FFFF_FFFF_FFFD)
  }

  /** `abandon` has found the coroutine running, with or without its waiter. */
  predicate ReadsRunning(s: State) {
    || (s.owner.Abandon? && s.word == 0xFFFF_FFFF_FFFF_FFFF)
    || (s.owner.AbandonWaiter? && s.word == s.owner.v)
  }

  /** What the history records, and that nothing else touches it. */
  lemma OwnerStepRecords(s: State)
    ensures OwnerStep(s).sawCompleting == (s.sawCompleting || ReadsCompleting(s))
    ensures OwnerStep(s).early == (s.early || ReadsRunning(s))
    ensures OwnerStep(s).await == if s.owner.Exchange? then Some(s.word == 0xFFFF_FFFF_FFFF_FFFF) else s.await
  {
    hide Touch, Check, DestroyFrame;
    match s.owner {
      case Holding =>
      case Register(_, _) =>
      case Exchange(_) =>
      case RestoreCompleting(_) =>
      case RestoreCompleted =>
      case Abandon =>
      case AbandonWaiter(_) =>
      case Destroy =>
      case CheckNotifier =>
      case Spin =>
      case Gone =>
    }
  }

  lemma CoStepRecords(s: State, throws: bool)
    ensures var s' := CoStep(s, throws);
      s'.sawCompleting == s.sawCompleting && s'.early == s.early && s'.await == s.await
  {
    hide Touch, Check, DestroyFrame;
    match s.co {
      case Body =>
      case Publish =>
      case NoAwaiter =>
      case DestroyAbandoned =>
      case DestroyLateUnawaited =>
      case ReadNotifier(_) =>
      case Notify(_) =>
      case ReadResumer(_) =>
      case MarkCompleted(_, _) =>
      case DestroyLateAwaited =>
      case Resume(_) =>
      case Finished =>
    }
  }

  /** The coroutine always comes to its end: every step brings it nearer. */
  function StepsLeft(co: Coroutine): nat {
    match co
    case Body => 7
    case Publish => 6
    case ReadNotifier(_) => 5
    case Notify(_) => 4
    case ReadResumer(_) => 3
    case MarkCompleted(_, _) => 2
    case NoAwaiter => 2
    case DestroyAbandoned => 1
    case DestroyLateUnawaited => 1
    case DestroyLateAwaited => 1
    case Resume(_) => 1
    case Finished => 0
  }

  lemma CoroutineAdvances(s: State, throws: bool)
    requires !s.co.Finished?
    ensures StepsLeft(CoStep(s, throws).co) < StepsLeft(s.co)
  {
    hide Touch, Check, DestroyFrame;
  }

  /** So does the owner's call, but for the wait in `abandon`, which ends when the word is no longer
      Completing. */
  function CallStepsLeft(o: Owner): nat {
    match o
    case Register(_, _) => 3
    case Exchange(_) => 2
    case RestoreCompleting(_) => 1
    case RestoreCompleted => 1
    case Abandon => 4
    case AbandonWaiter(_) => 3
    case CheckNotifier => 2
    case Destroy => 1
    case Spin => 1
    case _ => 0
  }

  lemma OwnerAdvances(s: State)
    requires !s.owner.Holding? && !s.owner.Gone?
    ensures CallStepsLeft(OwnerStep(s).owner) < CallStepsLeft(s.owner)
         || (s.owner.Spin? && OwnerStep(s).owner.Spin? && s.word == 0xFFFF_FFFF_FFFF_FFFE)
  {
    hide Touch, Check, DestroyFrame;
  }

  /** What the two sides may do: the coroutine takes its steps to the end; an owner between calls may
      poll, give up, and await once with any waiter above 16 that is none of the four states, and read
      the result once it has been told; inside a call it takes its next step. */
  lemma NothingIsRefused(s: State, throws: bool, v: nat, notify: bool)
    ensures !s.co.Finished? ==> Enabled(s, Coroutine(throws))
    ensures s.owner.Holding? ==> Enabled(s, Poll) && Enabled(s, GiveUp)
    ensures s.owner.Holding? && s.await == None && 16 < v < 0xFFFF_FFFF_FFFF_FFFC ==> Enabled(s, Await(v, notify))
    ensures s.owner.Holding? && (s.ready || s.callbacks > 0) ==> Enabled(s, ReadResult)
    ensures !s.owner.Holding? && !s.owner.Gone? ==> Enabled(s, Continue)
  {
  }

  /** What an owner can see to: one that gives up only after its resumer has run never reads
      Completing, and a finished run has destroyed the frame exactly once. */
  lemma {:induction false} DestroyedOnceAfterResume(events: seq<Event>)
    requires Exec(Start, events).Some? && GivesUpAfterResume(Start, events)
    ensures var s := Exec(Start, events).value;
            !s.sawCompleting && (BothDone(s) ==> s.destroyed == 1)
  {
    assert Inv(Start) && LeftInTime(Start);
    RunKeeps(Start, events);
    RunLeavesInTime(Start, events);
  }

  /** Callbacks: an await that returned true is called back exactly once by a coroutine that
      finishes unless the owner gave up first; an await that returned false is never called back,
      and nor is one that was never made. A callback finds the result stored. */
  lemma {:induction false} CallbackExactlyOnce(events: seq<Event>)
    requires Exec(Start, events).Some?
    ensures var s := Exec(Start, events).value;
            && s.callbacks <= 1
            && (s.callbacks == 1 ==> s.await == Some(true) && !s.early && s.holder != Empty)
            && (s.co.Finished? && s.await == Some(true) ==> s.callbacks == if s.early then 0 else 1)
  {
    assert Inv(Start);
    RunKeeps(Start, events);
  }

  /** Once the coroutine is finished, the owner's call has ended and the frame is still there, the
      word is Completed, so that polling says ready. A busy-waiting `abandon` then gets through. */
  lemma {:induction false} EndsCompleted(events: seq<Event>)
    requires Exec(Start, events).Some?
    ensures var s := Exec(Start, events).value;
            s.co.Finished? && s.destroyed == 0 && !s.owner.RestoreCompleted? ==> s.word == COMPLETED
  {
    assert Inv(Start);
    RunKeeps(Start, events);
  }

  lemma LosingSteps(throws: bool) returns (s1: State, s2: State, s3: State, s4: State, s5: State, s6: State)
    ensures var c := Coroutine(throws);
      && Enabled(Start, c) && s1 == Next(Start, c)
      && Enabled(s1, c) && s2 == Next(s1, c)
      && Enabled(s2, GiveUp) && s3 == Next(s2, GiveUp)
      && Enabled(s3, Continue) && s4 == Next(s3, Continue)
      && Enabled(s4, Continue) && s5 == Next(s4, Continue)
      && Enabled(s5, c) && s6 == Next(s5, c)
    ensures BothDone(s6) && s6.sawCompleting && s6.destroyed == 0
  {
    var c := Coroutine(throws);
    s1 := Next(Start, c);
    s2 := Next(s1, c);
    s3 := Next(s2, GiveUp);
    s4 := Next(s3, Continue);
    s5 := Next(s4, Continue);
    s6 := Next(s5, c);
  }

  /** The run that loses the frame: the owner abandons between lines 392 and 403. */
  lemma AbandonWhileCompletingLosesTheFrame(throws: bool)
    ensures var events := [Coroutine(throws), Coroutine(throws), GiveUp, Continue, Continue, Coroutine(throws)];
            && Exec(Start, events).Some?
            && var s := Exec(Start, events).value;
               BothDone(s) && s.sawCompleting && s.destroyed == 0
  {
    hide Next, Enabled;
    var c := Coroutine(throws);
    var s1, s2, s3, s4, s5, s6 := LosingSteps(throws);
    assert Exec(s5, [c]) == Some(s6) by { assert [c][1..] == []; }
    assert Exec(s4, [Continue, c]) == Exec(s5, [c]) by { assert [Continue, c][1..] == [c]; }
    assert Exec(s3, [Continue, Continue, c]) == Exec(s4, [Continue, c]) by { assert [Continue, Continue, c][1..] == [Continue, c]; }
    assert Exec(s2, [GiveUp, Continue, Continue, c]) == Exec(s3, [Continue, Continue, c]) by {
      assert [GiveUp, Continue, Continue, c][1..] == [Continue, Continue, c];
    }
    assert Exec(s1, [c, GiveUp, Continue, Continue, c]) == Exec(s2, [GiveUp, Continue, Continue, c]) by {
      assert [c, GiveUp, Continue, Continue, c][1..] == [GiveUp, Continue, Continue, c];
    }
    assert [c, c, GiveUp, Continue, Continue, c][1..] == [c, GiveUp, Continue, Continue, c];
  }
}
