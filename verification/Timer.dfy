/** The timer table and the spark queue of one core (src/Timer.cpp and the spark half of
    src/Scheduler.cpp). Every call is one atomic step; the clock reading is a parameter. */
module Timer {
  import opened Arith
  import opened Kernel
  import opened Fifo

  const WORD := 0x1_0000_0000_0000_0000
  const HALF := 0x8000_0000_0000_0000
  /** INT64_MAX / 2: how far ahead of the clock a timer may lie and still be armed */
  const FAR := 0x3FFF_FFFF_FFFF_FFFF
  const MAX_SCHEDULED_TIMERS := 64
  const MAX_SPARKS := 64

  type Time = t: int | 0 <= t < WORD

  /** `a - b` as a signed 64-bit number. Times compare by its sign, so they may wrap around. */
  function Since(a: Time, b: Time): (d: int)
    ensures -HALF <= d < HALF && (b + d) % WORD == a
  {
    var d := (a - b) % WORD;
    if d < HALF then d else d - WORD
  }

  function Plus(t: Time, d: int): Time { (t + d) % WORD }

  /** Among times ahead of the clock, the circular order agrees with how long is left, provided
      the reference is not beyond the far-future bound. */
  lemma NearerFirst(t: Time, e: Time, now: Time)
    requires 0 < Since(t, now) && 0 < Since(e, now) <= FAR
    ensures Since(t, e) < 0 <==> Since(t, now) < Since(e, now)
  {
  }

  datatype Spark = Spark(func: nat, context: nat)

  const NoSpark := Spark(0, 0)

  datatype Slot = Slot(time: Time, spark: Spark)

  predicate Live(s: Slot) { s.spark.func != 0 }

  predicate Due(s: Slot, now: Time) { Live(s) && Since(s.time, now) <= 0 }

  /** Emptied when due: the exchange of line 59. */
  function Fired(s: Slot, now: Time): Slot {
    if Due(s, now) then s.(spark := NoSpark) else s
  }

  function AllFired(s: seq<Slot>, now: Time): seq<Slot> {
    seq(|s|, i requires 0 <= i < |s| => Fired(s[i], now))
  }

  /** The sparks of the due slots, in slot order. */
  function DueSparks(s: seq<Slot>, now: Time): seq<Spark> {
    if s == [] then [] else
      DueSparks(s[..|s| - 1], now) + if Due(s[|s| - 1], now) then [s[|s| - 1].spark] else []
  }

  /** A slot is emptied exactly when it holds a function and its time has come, which may be as much as
      2^63 ticks ago; what still lies ahead of the clock stays as it is. */
  lemma OnlyDueSlotsFire(s: seq<Slot>, now: Time, i: nat)
    requires i < |s|
    ensures |AllFired(s, now)| == |s|
    ensures var ahead := (s[i].time - now) % 0x1_0000_0000_0000_0000;
            var due := s[i].spark.func != 0 && (ahead == 0 || 0x8000_0000_0000_0000 <= ahead);
      AllFired(s, now)[i] == if due then Slot(s[i].time, Spark(0, 0)) else s[i]
  {
  }

  /** The sparks queued, slot by slot. */
  lemma DueSparksInOrder(s: seq<Slot>, x: Slot, now: Time)
    ensures DueSparks([], now) == []
    ensures var ahead := (x.time - now) % 0x1_0000_0000_0000_0000;
            var due := x.spark.func != 0 && (ahead == 0 || 0x8000_0000_0000_0000 <= ahead);
      DueSparks(s + [x], now) == DueSparks(s, now) + if due then [x.spark] else []
  {
    assert (s + [x])[..|s|] == s;
  }

  lemma Sizes(start: nat, i: nat)
    ensures MAX_SCHEDULED_TIMERS == 64 && MAX_SPARKS == 64 && FAR == 0x3FFF_FFFF_FFFF_FFFF
    ensures Probe(start, i) == (start + i) % 64
  {
    var x := i + start;
    var q, m := x / 0x1_0000_0000, x % 0x1_0000_0000;
    ModUnique(x, 64, 0x400_0000 * q + m / 64, m % 64);
  }

  function SparkOf(s: Slot): multiset<Spark> {
    if Live(s) then multiset{s.spark} else multiset{}
  }

  /** The sparks waiting in the table, with multiplicity. */
  function Waiting(s: seq<Slot>): multiset<Spark> {
    if s == [] then multiset{} else Waiting(s[..|s| - 1]) + SparkOf(s[|s| - 1])
  }

  lemma {:induction false} WaitingUpdate(s: seq<Slot>, i: nat, x: Slot)
    requires i < |s|
    ensures Waiting(s[i := x]) + SparkOf(s[i]) == Waiting(s) + SparkOf(x)
  {
    hide SparkOf;
    var n := |s| - 1;
    if i == n {
      assert s[i := x][..n] == s[..n];
    } else {
      assert s[i := x][..n] == s[..n][i := x];
      WaitingUpdate(s[..n], i, x);
      Exchange(Waiting(s[..n][i := x]), SparkOf(s[i]), Waiting(s[..n]), SparkOf(x), SparkOf(s[n]));
    }
  }

  lemma Exchange(a: multiset<Spark>, b: multiset<Spark>, c: multiset<Spark>, d: multiset<Spark>, e: multiset<Spark>)
    requires a + b == c + d
    ensures (a + e) + b == (c + e) + d
  {
    assert (a + e) + b == (a + b) + e;
    assert (c + e) + d == (c + d) + e;
  }

  /** Firing moves sparks: what leaves the table is what is handed to the queue. */
  lemma {:induction false} FiringMoves(s: seq<Slot>, now: Time)
    ensures Waiting(s) == Waiting(AllFired(s, now)) + multiset(DueSparks(s, now))
  {
    if s != [] {
      var n := |s| - 1;
      assert AllFired(s, now)[..n] == AllFired(s[..n], now);
      FiringMoves(s[..n], now);
    }
  }

  lemma {:induction false} WaitingNone(s: seq<Slot>)
    requires forall i :: 0 <= i < |s| ==> !Live(s[i])
    ensures Waiting(s) == multiset{}
  {
    if s != [] { WaitingNone(s[..|s| - 1]); }
  }

  /** A spark waits in the table exactly when some slot holds it. */
  lemma {:induction false} WaitingMeansHeld(s: seq<Slot>, x: Spark)
    ensures x in Waiting(s) <==> exists i :: 0 <= i < |s| && Live(s[i]) && s[i].spark == x
  {
    if s != [] {
      var n := |s| - 1;
      WaitingMeansHeld(s[..n], x);
      assert forall i :: 0 <= i < n ==> s[..n][i] == s[i];
      assert Live(s[n]) && s[n].spark == x ==> x in SparkOf(s[n]);
    }
  }

  lemma {:induction false} DueGrows(s: seq<Slot>, k: nat, now: Time)
    requires k <= |s|
    ensures |DueSparks(s[..k], now)| <= |DueSparks(s, now)|
    decreases |s| - k
  {
    if k == |s| {
      assert s[..k] == s;
    } else {
      assert s[..k + 1][..k] == s[..k];
      DueGrows(s, k + 1, now);
    }
  }

  /** The table once the scan has passed the first `k` slots. */
  function PartlyFired(s: seq<Slot>, k: nat, now: Time): (r: seq<Slot>)
    requires k <= |s|
    ensures |r| == |s|
  {
    AllFired(s[..k], now) + s[k..]
  }

  lemma ScanStep(s: seq<Slot>, k: nat, now: Time)
    requires k < |s|
    ensures PartlyFired(s, k, now)[k] == s[k]
    ensures PartlyFired(s, k, now)[k := Fired(s[k], now)] == PartlyFired(s, k + 1, now)
  {
    hide Fired;
  }

  lemma DueStep(s: seq<Slot>, k: nat, now: Time)
    requires k < |s|
    ensures DueSparks(s[..k + 1], now) == DueSparks(s[..k], now) + if Due(s[k], now) then [s[k].spark] else []
    ensures |DueSparks(s[..k + 1], now)| <= |DueSparks(s, now)|
  {
    hide Since;
    assert s[..k + 1][..k] == s[..k];
    DueGrows(s, k + 1, now);
  }

  lemma ScanEnds(s: seq<Slot>, now: Time)
    ensures PartlyFired(s, 0, now) == s && PartlyFired(s, |s|, now) == AllFired(s, now)
    ensures DueSparks(s[..0], now) == [] && s[..|s|] == s
  {
  }

  /** Slot number `i` of the search that starts at `start`, computed in 32 bits. */
  function Probe(start: nat, i: nat): (h: nat)
    ensures h < MAX_SCHEDULED_TIMERS
  {
    (i + start) % 0x1_0000_0000 % MAX_SCHEDULED_TIMERS
  }

  /** The search visits every slot, wherever it starts. */
  lemma ProbesReachAll(start: nat, h: nat)
    requires h < MAX_SCHEDULED_TIMERS
    ensures exists i: nat :: i < MAX_SCHEDULED_TIMERS && Probe(start, i) == h
  {
    var k, i := (h - start) / 64, (h - start) % 64;
    ModUnique(i + start, 64, -k, h);
    var x := i + start;
    var q, m := x / 0x1_0000_0000, x % 0x1_0000_0000;
    ModUnique(x, 64, 0x400_0000 * q + m / 64, m % 64);
    assert Probe(start, i) == h;
  }

  /** `h` is the first free slot in the order the search visits them. */
  ghost predicate FirstFree(s: seq<Slot>, start: nat, h: nat)
    requires |s| == MAX_SCHEDULED_TIMERS
  {
    exists i: nat :: i < MAX_SCHEDULED_TIMERS && Probe(start, i) == h && !Live(s[h])
      && forall j: nat :: j < i ==> Live(s[Probe(start, j)])
  }

  ghost predicate Full(s: seq<Slot>) {
    forall i :: 0 <= i < |s| ==> Live(s[i])
  }

  /** Nothing still waiting was due at `now`, and the hardware is armed for the least time left;
      it is switched off exactly when every waiting spark lies at or beyond the far-future bound. */
  ghost predicate Settled(s: seq<Slot>, armed: Option<int>, now: Time) {
    && (forall i :: 0 <= i < |s| && Live(s[i]) ==> 0 < Since(s[i].time, now))
    && (armed.None? <==> forall i :: 0 <= i < |s| && Live(s[i]) ==> FAR <= Since(s[i].time, now))
    && (armed.Some? ==>
        && (exists i :: 0 <= i < |s| && Live(s[i]) && Since(s[i].time, now) == armed.value)
        && forall i :: 0 <= i < |s| && Live(s[i]) ==> armed.value <= Since(s[i].time, now))
  }

  /** What the scan of the first `k` slots has found. */
  ghost predicate Nearest(s: seq<Slot>, k: nat, now: Time, next: Option<nat>, earliest: Time)
    requires k <= |s|
  {
    && 0 < Since(earliest, now) <= FAR
    && (forall i :: 0 <= i < k && Live(s[i]) ==>
          0 < Since(s[i].time, now) && Since(earliest, now) <= Since(s[i].time, now))
    && match next
       case None => Since(earliest, now) == FAR
       case Some(i) => i < k && Live(s[i]) && s[i].time == earliest && Since(earliest, now) < FAR
  }

  lemma NearestAtFirst(s: seq<Slot>, now: Time)
    ensures Nearest(s, 0, now, None, Plus(now, FAR))
  {
  }

  lemma NearestOn(s: seq<Slot>, t: seq<Slot>, k: nat, now: Time, next: Option<nat>, earliest: Time)
    requires k < |s| == |t| && Nearest(s, k, now, next, earliest) && t[..k] == s[..k]
    requires Live(t[k]) ==> 0 < Since(t[k].time, now)
    ensures if Live(t[k]) && Since(t[k].time, earliest) < 0 then Nearest(t, k + 1, now, Some(k), t[k].time)
            else Nearest(t, k + 1, now, next, earliest)
  {
    hide Since;
    if Live(t[k]) {
      NearerFirst(t[k].time, earliest, now);
    }
    assert forall i :: 0 <= i < k ==> t[i] == t[..k][i] == s[..k][i] == s[i];
  }

  lemma NearestSettles(s: seq<Slot>, now: Time, next: Option<nat>, earliest: Time)
    requires Nearest(s, |s|, now, next, earliest)
    ensures next.Some? ==> next.value < |s|
    ensures Settled(s, if next.None? then None else Some(Since(s[next.value].time, now)), now)
  {
    hide Since;
  }

  /** Each spark taken on is waiting, queued (and perhaps already delivered) or cancelled, once. */
  ghost predicate Conserved(accepted: multiset<Spark>, s: seq<Slot>, queued: seq<Spark>, cancelled: multiset<Spark>) {
    accepted == Waiting(s) + multiset(queued) + cancelled
  }

  lemma ConservedByQueueing(a: multiset<Spark>, s: seq<Slot>, q: seq<Spark>, c: multiset<Spark>, x: Spark)
    requires Conserved(a, s, q, c)
    ensures Conserved(a + multiset{x}, s, q + [x], c)
  {
  }

  lemma ConservedByFiring(a: multiset<Spark>, s: seq<Slot>, q: seq<Spark>, c: multiset<Spark>, now: Time)
    requires Conserved(a, s, q, c)
    ensures Conserved(a, AllFired(s, now), q + DueSparks(s, now), c)
  {
    hide AllFired;
    FiringMoves(s, now);
    assert multiset(q + DueSparks(s, now)) == multiset(q) + multiset(DueSparks(s, now));
  }

  lemma ConservedByScheduling(a: multiset<Spark>, s: seq<Slot>, q: seq<Spark>, c: multiset<Spark>, i: nat, x: Slot)
    requires Conserved(a, s, q, c) && i < |s| && !Live(s[i]) && Live(x)
    ensures Conserved(a + multiset{x.spark}, s[i := x], q, c)
  {
    WaitingUpdate(s, i, x);
    assert Waiting(s[i := x]) == Waiting(s) + multiset{x.spark};
  }

  lemma ConservedByCancelling(a: multiset<Spark>, s: seq<Slot>, q: seq<Spark>, c: multiset<Spark>, i: nat)
    requires Conserved(a, s, q, c) && i < |s| && Live(s[i])
    ensures Conserved(a, s[i := s[i].(spark := NoSpark)], q, c + multiset{s[i].spark})
  {
    var x := s[i].(spark := NoSpark);
    WaitingUpdate(s, i, x);
    assert Waiting(s[i := x]) + multiset{s[i].spark} == Waiting(s);
  }

  /** A spark taken on once is in exactly one place. */
  lemma InExactlyOnePlace(a: multiset<Spark>, s: seq<Slot>, delivered: seq<Spark>, held: seq<Spark>, c: multiset<Spark>, x: Spark)
    requires Conserved(a, s, delivered + held, c) && a[x] == 1
    ensures Waiting(s)[x] + multiset(held)[x] + multiset(delivered)[x] + c[x] == 1
  {
    assert multiset(delivered + held) == multiset(delivered) + multiset(held);
  }

  class Core {
    const slots: array<Slot>
    const fifo: CircularFifo<Spark>
    var currentStart: nat
    /** ticks the virtual timer counts down, or None while its interrupt is off */
    var armed: Option<int>
    /** every spark taken on; those cancelled; those queued so far; those handed out so far */
    ghost var accepted: multiset<Spark>
    ghost var cancelled: multiset<Spark>
    ghost var queued: seq<Spark>
    ghost var delivered: seq<Spark>

    ghost predicate Shape()
      reads this, fifo, fifo.data
    {
      && slots.Length == MAX_SCHEDULED_TIMERS && currentStart < 0x1_0000_0000
      && fifo.Valid() && fifo.data.Length == MAX_SPARKS && |fifo.contents| < MAX_SPARKS
    }

    /** Conservation: each spark taken on is waiting, queued, delivered or cancelled, once; and the
        queue hands out in the order of queueing. */
    ghost predicate Valid()
      reads this, slots, fifo, fifo.data
    {
      && Shape()
      && Conserved(accepted, slots[..], queued, cancelled)
      && queued == delivered + fifo.contents
    }

    constructor ()
      ensures Valid() && accepted == multiset{} && queued == [] && currentStart == 0 && armed == None
      ensures forall i :: 0 <= i < MAX_SCHEDULED_TIMERS ==> !Live(slots[i])
      ensures fresh(slots) && fresh(fifo) && fresh(fifo.data)
    {
      slots := new Slot[MAX_SCHEDULED_TIMERS](_ => Slot(0, NoSpark));
      fifo := new CircularFifo(MAX_SPARKS, NoSpark);
      currentStart, armed := 0, None;
      accepted, cancelled, queued, delivered := multiset{}, multiset{}, [], [];
      new;
      WaitingNone(slots[..]);
    }

    /** Scheduler.cpp, lines 78-83 */
    method AddSpark(spark: Spark) returns (o: Outcome<()>)
      requires Valid()
      modifies this`accepted, this`queued, fifo`head, fifo`contents, fifo.data
      ensures o.Panics? <==> |old(fifo.contents)| + 1 == MAX_SPARKS
      ensures o.Returns? ==> Valid() && accepted == old(accepted) + multiset{spark}
      ensures o.Returns? ==> fifo.contents == old(fifo.contents) + [spark]
    {
      hide Conserved, CircularFifo.Valid;
      ConservedByQueueing(accepted, slots[..], queued, cancelled, spark);
      o := fifo.Push(spark);
      accepted, queued := accepted + multiset{spark}, queued + [spark];
    }

    /** Scheduler.cpp, lines 85-105 */
    method GetNextScheduledSpark() returns (o: Option<Spark>)
      requires Valid()
      modifies this`delivered, fifo`tail, fifo`contents
      ensures Valid()
      ensures o.None? <==> old(fifo.contents) == []
      ensures o.None? ==> delivered == old(delivered)
      ensures o.Some? ==> delivered == old(delivered) + [o.value] && old(fifo.contents) == [o.value] + fifo.contents
    {
      hide Conserved, CircularFifo.Valid;
      var empty := fifo.IsEmpty();
      if empty {
        return None;
      }
      var popped := fifo.Pop();
      delivered := delivered + [popped.value];
      o := Some(popped.value);
    }

    /** Lines 40-69: queue the due sparks, and find the next slot to arm for. */
    method FindNextScheduledTimerTriggerTime(now: Time) returns (o: Outcome<Option<nat>>)
      requires Shape()
      modifies slots, fifo`head, fifo`contents, fifo.data
      ensures o.Panics? <==> |old(fifo.contents)| + |DueSparks(old(slots[..]), now)| >= MAX_SPARKS
      ensures o.Returns? ==>
        && Shape()
        && slots[..] == AllFired(old(slots[..]), now)
        && fifo.contents == old(fifo.contents) + DueSparks(old(slots[..]), now)
        && exists earliest :: Nearest(slots[..], MAX_SCHEDULED_TIMERS, now, o.value, earliest)
    {
      hide CircularFifo.Valid, Since, Nearest, PartlyFired, AllFired, DueSparks;
      ghost var was := slots[..];
      ScanEnds(was, now);
      NearestAtFirst(was, now);
      var next: Option<nat>, earliest := None, Plus(now, FAR);
      var i := 0;
      while i < MAX_SCHEDULED_TIMERS
        invariant 0 <= i <= MAX_SCHEDULED_TIMERS && Shape()
        invariant slots[..] == PartlyFired(was, i, now)
        invariant fifo.contents == old(fifo.contents) + DueSparks(was[..i], now)
        invariant Nearest(slots[..], i, now, next, earliest)
      {
        ScanStep(was, i, now);
        DueStep(was, i, now);
        var slot := slots[i];
        NearestOn(slots[..], PartlyFired(was, i + 1, now), i, now, next, earliest);
        if Live(slot) {
          if Since(slot.time, now) <= 0 {
            slots[i] := slot.(spark := NoSpark);
            var pushed := fifo.Push(slot.spark);
            if pushed.Panics? {
              return Panics;
            }
          } else if Since(slot.time, earliest) < 0 {
            next, earliest := Some(i), slot.time;
          }
        }
        i := i + 1;
      }
      o := Returns(next);
    }

    /** Lines 72-102 */
    method SetupTimerForNext(now: Time) returns (o: Outcome<()>)
      requires Valid()
      modifies this`armed, this`queued, slots, fifo`head, fifo`contents, fifo.data
      ensures o.Panics? <==> |old(fifo.contents)| + |DueSparks(old(slots[..]), now)| >= MAX_SPARKS
      ensures o.Returns? ==>
        && Valid() && Settled(slots[..], armed, now)
        && slots[..] == AllFired(old(slots[..]), now)
        && fifo.contents == old(fifo.contents) + DueSparks(old(slots[..]), now)
    {
      hide Conserved, CircularFifo.Valid, Since, Nearest, Settled, AllFired, DueSparks;
      ConservedByFiring(accepted, slots[..], queued, cancelled, now);
      ghost var due := DueSparks(slots[..], now);
      var found := FindNextScheduledTimerTriggerTime(now);
      if found.Panics? {
        return Panics;
      }
      queued := queued + due;
      ghost var earliest :| Nearest(slots[..], MAX_SCHEDULED_TIMERS, now, found.value, earliest);
      NearestSettles(slots[..], now, found.value, earliest);
      match found.value {
        case None => armed := None;
        case Some(next) => armed := Some(Since(slots[next].time, now));
      }
      o := Returns(());
    }

    /** Lines 112-144. A refused spark changes nothing; an accepted one goes to the first free slot
        of the search, and is queued at once when it is already due. */
    method ScheduleSparkAtTime(time: Time, spark: Spark, now: Time) returns (o: Outcome<Option<nat>>)
      requires Valid()
      modifies this, slots, fifo`head, fifo`contents, fifo.data
      ensures o == Returns(None) <==> spark.func == 0 || Full(old(slots[..]))
      ensures o == Returns(None) ==>
        && Valid() && accepted == old(accepted) && slots[..] == old(slots[..])
        && fifo.contents == old(fifo.contents) && armed == old(armed)
      ensures o != Returns(None) ==> exists h: nat ::
        h < MAX_SCHEDULED_TIMERS && FirstFree(old(slots[..]), old(currentStart), h) &&
        var table := old(slots[..])[h := Slot(time, spark)];
        && (o.Panics? <==> |old(fifo.contents)| + |DueSparks(table, now)| >= MAX_SPARKS)
        && (o.Returns? ==>
            && o.value == Some(h) && slots[..] == AllFired(table, now)
            && fifo.contents == old(fifo.contents) + DueSparks(table, now))
      ensures o.Returns? && o.value.Some? ==>
        && Valid() && Settled(slots[..], armed, now)
        && accepted == old(accepted) + multiset{spark}
        && cancelled == old(cancelled) && delivered == old(delivered)
        && currentStart == (old(currentStart) + 1) % 0x1_0000_0000
      ensures o == Returns(None) ==> currentStart == old(currentStart) && delivered == old(delivered)
    {
      hide Conserved, CircularFifo.Valid, Settled, AllFired, DueSparks, FirstFree, Full;
      if spark.func == 0 {
        return Returns(None);
      }
      var free := FindFreeSlot();
      if free.None? {
        return Returns(None);
      }
      var handle := free.value;
      ghost var was := slots[..];
      ConservedByScheduling(accepted, was, queued, cancelled, handle, Slot(time, spark));
      slots[handle] := Slot(time, spark);
      accepted := accepted + multiset{spark};
      assert slots[..] == was[handle := Slot(time, spark)];
      var setup := SetupTimerForNext(now);
      if setup.Panics? {
        return Panics;
      }
      currentStart := (currentStart + 1) % 0x1_0000_0000;
      o := Returns(Some(handle));
    }

    /** Lines 125-129 */
    method FindFreeSlot() returns (free: Option<nat>)
      requires slots.Length == MAX_SCHEDULED_TIMERS
      ensures free.None? <==> Full(slots[..])
      ensures free.Some? ==>
        free.value < MAX_SCHEDULED_TIMERS && !Live(slots[free.value]) && FirstFree(slots[..], currentStart, free.value)
    {
      hide Probe;
      var i := 0;
      while i < MAX_SCHEDULED_TIMERS
        invariant 0 <= i <= MAX_SCHEDULED_TIMERS
        invariant forall j: nat :: j < i ==> Live(slots[Probe(currentStart, j)])
      {
        var handle := Probe(currentStart, i);
        if !Live(slots[handle]) {
          return Some(handle);
        }
        i := i + 1;
      }
      forall h | 0 <= h < MAX_SCHEDULED_TIMERS ensures Live(slots[h]) {
        ProbesReachAll(currentStart, h);
      }
      free := None;
    }

    /** Lines 146-167 */
    method CancelSpark(handle: nat, now: Time) returns (o: Outcome<bool>)
      requires Valid()
      modifies this, slots, fifo`head, fifo`contents, fifo.data
      ensures o == Returns(false) <==> handle >= MAX_SCHEDULED_TIMERS || !Live(old(slots[..])[handle])
      ensures o == Returns(false) ==>
        && Valid() && accepted == old(accepted) && cancelled == old(cancelled)
        && slots[..] == old(slots[..]) && fifo.contents == old(fifo.contents) && armed == old(armed)
      ensures o != Returns(false) ==>
        var table := old(slots[..])[handle := old(slots[..])[handle].(spark := NoSpark)];
        && (o.Panics? <==> |old(fifo.contents)| + |DueSparks(table, now)| >= MAX_SPARKS)
        && (o.Returns? ==>
            && Valid() && Settled(slots[..], armed, now)
            && accepted == old(accepted) && delivered == old(delivered)
            && currentStart == old(currentStart)
            && cancelled == old(cancelled) + multiset{old(slots[..])[handle].spark}
            && slots[..] == AllFired(table, now)
            && fifo.contents == old(fifo.contents) + DueSparks(table, now))
    {
      hide Conserved, CircularFifo.Valid, Settled, AllFired, DueSparks;
      if handle >= MAX_SCHEDULED_TIMERS {
        return Returns(false);
      }
      if !Live(slots[handle]) {
        return Returns(false);
      }
      ghost var was := slots[..];
      var emptied := slots[handle].(spark := NoSpark);
      ConservedByCancelling(accepted, was, queued, cancelled, handle);
      cancelled := cancelled + multiset{slots[handle].spark};
      slots[handle] := emptied;
      assert slots[..] == was[handle := emptied];
      var setup := SetupTimerForNext(now);
      if setup.Panics? {
        return Panics;
      }
      o := Returns(true);
    }

    /** Lines 225-232; the interrupt then runs `GetNextScheduledSpark`. */
    method HandleArmVirtualTimerInterrupt(now: Time) returns (o: Outcome<Option<Spark>>)
      requires Valid()
      modifies this, slots, fifo, fifo.data
      ensures o.Panics? <==> |old(fifo.contents)| + |DueSparks(old(slots[..]), now)| >= MAX_SPARKS
      ensures o.Returns? ==>
        && Valid() && Settled(slots[..], armed, now)
        && slots[..] == AllFired(old(slots[..]), now)
        && accepted == old(accepted) && cancelled == old(cancelled) && currentStart == old(currentStart)
        && var ready := old(fifo.contents) + DueSparks(old(slots[..]), now);
           if ready == [] then o.value == None && delivered == old(delivered)
           else o.value == Some(ready[0]) && delivered == old(delivered) + [ready[0]] && fifo.contents == ready[1..]
    {
      hide Conserved, CircularFifo.Valid, Settled, AllFired, DueSparks;
      var setup := SetupTimerForNext(now);
      if setup.Panics? {
        return Panics;
      }
      ghost var ready := fifo.contents;
      var next := GetNextScheduledSpark();
      o := Returns(next);
    }
  }

  // The failing input.

  /** A spark scheduled 2^62 - 1 ticks ahead on a new core is accepted, waits in its slot, and
      nothing is armed for it. */
  method FarSparkIsNotArmed() returns (core: Core, o: Outcome<Option<nat>>)
    ensures fresh(core) && core.Valid() && o.Returns? && o.value.Some?
    ensures o.value.value < MAX_SCHEDULED_TIMERS && core.slots[o.value.value] == Slot(FAR, Spark(1, 0))
    ensures core.armed == None && core.fifo.contents == []
  {
    hide Conserved, CircularFifo.Valid, DueSparks, Probe, Since, FirstFree;
    core := new Core();
    ghost var was := core.slots[..];
    var spark := Spark(1, 0);
    o := core.ScheduleSparkAtTime(FAR, spark, 0);
    assert !Live(was[0]) && !Full(was);
    ghost var h: nat :| h < MAX_SCHEDULED_TIMERS && FirstFree(was, 0, h)
      && (o.Panics? <==> |DueSparks(was[h := Slot(FAR, spark)], 0)| >= MAX_SPARKS)
      && (o.Returns? ==> o.value == Some(h));
    AloneAndFar(was, h, spark);
  }

  lemma AloneAndFar(s: seq<Slot>, h: nat, spark: Spark)
    requires h < |s| && spark.func != 0 && forall i :: 0 <= i < |s| ==> !Live(s[i])
    ensures var t := s[h := Slot(FAR, spark)];
      && DueSparks(t, 0) == [] && AllFired(t, 0) == t
      && Live(t[h]) && Since(t[h].time, 0) == FAR
      && Settled(t, None, 0)
  {
    var t := s[h := Slot(FAR, spark)];
    NoneDue(t, 0);
  }

  lemma {:induction false} NoneDue(s: seq<Slot>, now: Time)
    requires forall i :: 0 <= i < |s| ==> !Due(s[i], now)
    ensures DueSparks(s, now) == [] && AllFired(s, now) == s
  {
    hide Since;
    if s != [] { NoneDue(s[..|s| - 1], now); }
  }
}
