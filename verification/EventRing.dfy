/** The xHCI event ring (src/UsbXhci.cpp, lines 226-229 and 297-330; section 4.9.4 of the xHCI
    specification): the controller produces, `process_events` consumes, and the cycle bit of each
    entry is all that tells new from old. */
module EventRing {
  import opened Arith

  datatype Trb = Trb(parameter: nat, status: nat, control: nat)

  predicate CycleBit(t: Trb) { t.control % 2 == 1 }

  /** The entry as the controller writes it: the event with the producer's cycle bit. */
  function Stamp(t: Trb, cycle: bool): (r: Trb)
    ensures CycleBit(r) == cycle && r.control % 2 == (if cycle then 1 else 0)
    ensures r.parameter == t.parameter && r.status == t.status && r.control / 2 == t.control / 2
  {
    Trb(t.parameter, t.status, t.control / 2 * 2 + (if cycle then 1 else 0))
  }

  /** The cycle state while event number `k` of a ring of `n` entries is the current one. */
  predicate Lap(k: nat, n: nat)
    requires n > 0
  {
    k / n % 2 == 0
  }

  function AdvanceRingPointer(current: nat, size: nat): nat
    requires size > 0
  {
    (current + 1) % size
  }

  /** Stepping to the next event, and what a whole lap does. */
  lemma NextSlot(k: nat, n: nat)
    requires n > 0
    ensures (k + 1) % n == AdvanceRingPointer(k % n, n)
    ensures Lap(k + 1, n) == (Lap(k, n) != (AdvanceRingPointer(k % n, n) == 0))
    ensures (k + n) % n == k % n && Lap(k + n, n) != Lap(k, n)
  {
    var q, r := k / n, k % n;
    assert n * (q + 1) == n * q + n;
    if r + 1 == n {
      ModUnique(k + 1, n, q + 1, 0);
      ModUnique(r + 1, n, 1, 0);
    } else {
      ModUnique(k + 1, n, q, r + 1);
      ModUnique(r + 1, n, 0, r + 1);
    }
    ModUnique(k + n, n, q + 1, r);
    Alternate(q);
  }

  lemma Alternate(q: nat)
    ensures (q + 1) % 2 == 1 - q % 2
  {
  }

  /** Two different events less than a lap apart lie in different entries. */
  lemma DifferentSlots(j: nat, k: nat, n: nat)
    requires n > 0 && j < k < j + n
    ensures j % n != k % n
  {
    if j % n == k % n {
      var a, b := j / n, k / n;
      assert j == n * a + j % n && k == n * b + k % n;
      assert n * (b - a) == k - j;
      if b > a { MulGe(n, b - a); } else { MulNeg(n, b - a); }
    }
  }

  lemma MulNeg(n: nat, x: int)
    requires x <= 0
    ensures n * x <= 0
  {
  }

  class Ring {
    const ring: array<Trb>
    var dequeue: nat
    var cycleState: bool
    /** the controller's side */
    var enqueue: nat
    var producerCycle: bool
    /** every event the controller has written so far, and how many were consumed */
    ghost var produced: seq<Trb>
    ghost var consumed: nat

    ghost predicate Valid()
      reads this, ring
    {
      && 0 < ring.Length && consumed <= |produced| <= consumed + ring.Length
      && dequeue == consumed % ring.Length && cycleState == Lap(consumed, ring.Length)
      && enqueue == |produced| % ring.Length && producerCycle == Lap(|produced|, ring.Length)
      && Written(ring[..], produced)
    }

    /** Lines 159-160 and 248-254 */
    constructor (size: nat)
      requires size > 0
      ensures Valid() && fresh(ring) && ring.Length == size && produced == [] && consumed == 0
    {
      ring := new Trb[size](_ => Trb(0, 0, 0));
      dequeue, cycleState, enqueue, producerCycle := 0, true, 0, true;
      produced, consumed := [], 0;
    }

    /** The controller writes one event with its cycle bit, which it flips on wrapping around; it
        never gets more than a full ring ahead. */
    method Produce(event: Trb)
      requires Valid() && |produced| < consumed + ring.Length
      modifies this`produced, this`enqueue, this`producerCycle, ring
      ensures Valid() && produced == old(produced) + [event]
    {
      WrittenMore(ring[..], produced, event);
      NextSlot(|produced|, ring.Length);
      ring[enqueue] := Stamp(event, producerCycle);
      enqueue := AdvanceRingPointer(enqueue, ring.Length);
      if enqueue == 0 {
        producerCycle := !producerCycle;
      }
      produced := produced + [event];
    }

    /** One round of the loop of lines 298-325: the next event, if there is one. */
    method TakeEvent() returns (some: bool, event: Trb)
      requires Valid()
      modifies this`dequeue, this`cycleState, this`consumed
      ensures Valid()
      ensures some <==> old(consumed) < |produced|
      ensures consumed == old(consumed) + (if some then 1 else 0)
      ensures some ==> event == Stamp(produced[old(consumed)], Lap(old(consumed), ring.Length))
    {
      NewOrOld(ring[..], produced, consumed);
      NextSlot(consumed, ring.Length);
      event := ring[dequeue];
      if CycleBit(event) != cycleState {
        return false, event;
      }
      dequeue := AdvanceRingPointer(dequeue, ring.Length);
      if dequeue == 0 {
        cycleState := !cycleState;
      }
      consumed := consumed + 1;
      some := true;
    }

    /** The controller writes events as they come, and holds back while it is a full ring ahead. */
    method Arrive(events: seq<Trb>)
      requires Valid()
      modifies this`produced, this`enqueue, this`producerCycle, ring
      ensures Valid() && old(produced) <= produced <= old(produced) + events
      ensures produced == old(produced) + events || |produced| == consumed + ring.Length
    {
      var i := 0;
      FullRing(consumed, |produced|, ring.Length);
      while i < |events| && !(enqueue == dequeue && producerCycle != cycleState)
        invariant 0 <= i <= |events| && Valid() && produced == old(produced) + events[..i]
        invariant enqueue == dequeue && producerCycle != cycleState <==> |produced| == consumed + ring.Length
      {
        Produce(events[i]);
        i := i + 1;
        FullRing(consumed, |produced|, ring.Length);
      }
    }

    /** Lines 297-330, while the controller goes on writing: `arrivals[k]` comes during round `k`. Every
        event not yet consumed, also of those, is taken once and in order, and the loop stops exactly
        where the controller stands. Of the arrivals of round `k` the ring had room for the first
        `letIn[k]`. */
    method ProcessEvents(arrivals: seq<seq<Trb>>) returns (events: seq<Trb>, ghost letIn: seq<nat>)
      requires Valid()
      modifies this`dequeue, this`cycleState, this`consumed, this`produced, this`enqueue, this`producerCycle, ring
      ensures Valid() && consumed == |produced| && dequeue == enqueue && cycleState == producerCycle
      ensures LetInOk(arrivals, letIn) && produced == old(produced) + Admitted(arrivals, letIn)
      ensures old(consumed) <= |produced|
      ensures events == Stamped(produced, old(consumed), |produced|, ring.Length)
    {
      hide Lap, Stamp, Written, LetInOk, Admitted;
      NothingAdmitted(arrivals);
      events, letIn := [], [];
      var round := 0;
      while true
        invariant Valid() && old(consumed) <= consumed
        invariant LetInOk(arrivals, letIn) && produced == old(produced) + Admitted(arrivals, letIn)
        invariant |letIn| == if round < |arrivals| then round else |arrivals|
        invariant events == Stamped(produced, old(consumed), consumed, ring.Length)
        decreases if round < |arrivals| then |arrivals| - round else 0, |produced| - consumed
      {
        if round < |arrivals| {
          ghost var before := |produced|;
          Arrive(arrivals[round]);
          AdmittedOn(arrivals, letIn, |produced| - before);
          letIn := letIn + [|produced| - before];
        }
        round := round + 1;
        var some, event := TakeEvent();
        if !some {
          break;
        }
        events := events + [event];
      }
    }
  }

  predicate LetInOk(arrivals: seq<seq<Trb>>, letIn: seq<nat>) {
    |letIn| <= |arrivals| && forall k :: 0 <= k < |letIn| ==> letIn[k] <= |arrivals[k]|
  }

  /** The arrivals that were let in, in order. */
  function Admitted(arrivals: seq<seq<Trb>>, letIn: seq<nat>): seq<Trb>
    requires LetInOk(arrivals, letIn)
  {
    if letIn == [] then [] else
      var n := |letIn| - 1;
      Admitted(arrivals, letIn[..n]) + arrivals[n][..letIn[n]]
  }

  lemma NothingAdmitted(arrivals: seq<seq<Trb>>)
    ensures LetInOk(arrivals, []) && Admitted(arrivals, []) == []
  {
  }

  lemma AdmittedOn(arrivals: seq<seq<Trb>>, letIn: seq<nat>, n: nat)
    requires LetInOk(arrivals, letIn) && |letIn| < |arrivals| && n <= |arrivals[|letIn|]|
    ensures LetInOk(arrivals, letIn + [n])
    ensures Admitted(arrivals, letIn + [n]) == Admitted(arrivals, letIn) + arrivals[|letIn|][..n]
  {
    assert (letIn + [n])[..|letIn|] == letIn;
  }

  /** Events `from .. to` as they lie in the ring. */
  function Stamped(produced: seq<Trb>, from: nat, to: nat, n: nat): (r: seq<Trb>)
    requires from <= to <= |produced| && n > 0
  {
    seq(to - from, i requires 0 <= i < to - from => Stamp(produced[from + i], Lap(from + i, n)))
  }

  /** The last lap of events is in the ring; entries never written still have a clear cycle bit. */
  ghost predicate Written(ring: seq<Trb>, produced: seq<Trb>) {
    var n := |ring|;
    && 0 < n
    && (forall k :: 0 <= k < |produced| && |produced| <= k + n ==> ring[k % n] == Stamp(produced[k], Lap(k, n)))
    && (forall j :: |produced| <= j < n ==> !CycleBit(ring[j]))
  }

  /** A full ring ahead is the same position with the other cycle state. */
  lemma FullRing(c: nat, p: nat, n: nat)
    requires n > 0 && c <= p <= c + n
    ensures p % n == c % n && Lap(p, n) != Lap(c, n) <==> p == c + n
  {
    hide Lap;
    NextSlot(c, n);
    if c < p < c + n {
      DifferentSlots(c, p, n);
    }
  }

  lemma WrittenMore(ring: seq<Trb>, produced: seq<Trb>, event: Trb)
    requires Written(ring, produced)
    ensures var n, p := |ring|, |produced|;
            Written(ring[p % n := Stamp(event, Lap(p, n))], produced + [event])
  {
    var n, p := |ring|, |produced|;
    forall k | 0 <= k < p && p < k + n ensures k % n != p % n {
      DifferentSlots(k, p, n);
    }
    if p < n {
      ModUnique(p, n, 0, p);
    }
  }

  /** What lies at the consumer's position: its event, or one from the lap before. */
  lemma NewOrOld(ring: seq<Trb>, produced: seq<Trb>, c: nat)
    requires Written(ring, produced) && c <= |produced| <= c + |ring|
    ensures var n := |ring|; var t := ring[c % n];
            if c < |produced| then t == Stamp(produced[c], Lap(c, n)) else CycleBit(t) != Lap(c, n)
  {
    var n := |ring|;
    if c == |produced| {
      if c < n {
        ModUnique(c, n, 0, c);
      } else {
        NextSlot(c - n, n);
      }
    }
  }
}
