/** One transfer on a channel of the DesignWare USB host controller (src/DesignWareUsbChannel.cpp):
    which answers of the hardware are retried and how often, and which bytes an IN transfer copies.
    The hardware is an arbitrary sequence of answers, one for each transmission launched. */
module UsbTransfer {
  import opened Kernel

  datatype Interrupts = Interrupts(
    halt: bool, ahbError: bool, dataToggleError: bool, acknowledgement: bool, transferComplete: bool,
    stall: bool, babbleError: bool, frameOverrun: bool, negativeAcknowledgement: bool, notYet: bool,
    transactionError: bool)

  datatype Control = Control(
    splitTries: nat, packetTries: nat, globalTries: nat, longerDelay: bool,
    resendSplit: bool, retry: bool, fatal: bool, success: bool)

  const CLEARED := Control(0, 0, 0, false, false, false, false, false)

  datatype Status = Ok | ErrorDevice | ErrorTransmission | ErrorTimeout | ErrorStall | ErrorGeneral

  const SPLIT_LIMIT := 5
  const PACKET_LIMIT := 3
  const GLOBAL_LIMIT := 3
  const DMA_SIZE := 1024

  type DmaBuffer = s: seq<Byte> | |s| == DMA_SIZE witness seq(DMA_SIZE, _ => 0)

  /** The state of the channel when a transmission has ended: its interrupts, the packet count left
      in the transfer size register, and the DMA buffer. */
  datatype Answer = Answer(interrupts: Interrupts, packetCount: nat, dma: DmaBuffer)

  predicate Acknowledged(a: Answer) {
    var i := a.interrupts;
    i.halt && !i.ahbError && !i.dataToggleError && i.acknowledgement
  }

  predicate Completes(a: Answer) { Acknowledged(a) && a.interrupts.transferComplete }

  /** Lines 179-254 */
  function CheckErrorAndAction(i: Interrupts, packetSplit: bool, control: Control): (Status, Control) {
    var c := control.(resendSplit := false, retry := false, longerDelay := false);
    if i.ahbError then (ErrorDevice, c.(fatal := true))
    else if i.dataToggleError then (ErrorTransmission, c.(fatal := true))
    else if i.acknowledgement then
      (Ok, if i.transferComplete then c.(success := true, globalTries := 0)
           else c.(resendSplit := true, globalTries := 0))
    else
      var c := if packetSplit then c.(splitTries := c.splitTries + 1) else c.(packetTries := c.packetTries + 1);
      if (if packetSplit then c.splitTries == SPLIT_LIMIT else c.packetTries == PACKET_LIMIT) then
        (ErrorTransmission, c.(fatal := true))
      else
        var c := if packetSplit then c.(resendSplit := true) else c.(retry := true);
        if !i.stall && !i.babbleError && !i.frameOverrun then
          (if i.negativeAcknowledgement || i.notYet then ErrorTransmission else ErrorTimeout, c)
        else
          var c := c.(globalTries := c.globalTries + 1);
          if c.globalTries == GLOBAL_LIMIT then
            (ErrorTransmission, c.(retry := false, resendSplit := false, fatal := true))
          else if i.stall then (ErrorStall, c)
          else if i.babbleError || i.frameOverrun || i.transactionError then (ErrorTransmission, c)
          else (ErrorGeneral, c)
  }

  predicate AtMostLimits(c: Control) {
    c.splitTries <= SPLIT_LIMIT && c.packetTries <= PACKET_LIMIT && c.globalTries <= GLOBAL_LIMIT
  }

  predicate BelowLimits(c: Control) {
    !c.fatal && c.splitTries < SPLIT_LIMIT && c.packetTries < PACKET_LIMIT && c.globalTries < GLOBAL_LIMIT
  }

  /** A stall or a transmission error, which also counts for the whole transfer. */
  predicate Serious(a: Answer) {
    a.interrupts.stall || a.interrupts.babbleError || a.interrupts.frameOverrun
  }

  /** The answers after which nothing more is tried. */
  predicate Dead(a: Answer) {
    !a.interrupts.halt || a.interrupts.ahbError || a.interrupts.dataToggleError
  }

  predicate ReachesLimit(a: Answer, split: bool, c: Control) {
    || (if split then c.splitTries + 1 == SPLIT_LIMIT else c.packetTries + 1 == PACKET_LIMIT)
    || (Serious(a) && c.globalTries + 1 == GLOBAL_LIMIT)
  }

  /** What one answer does to the counters and flags, whatever it is: fatal are the two bus errors
      and an unacknowledged answer that brings a counter to its limit, and nothing else. The last
      error code of the source is never reported. */
  lemma OneAnswer(a: Answer, split: bool, c: Control)
    requires BelowLimits(c) && a.interrupts.halt
    ensures var (status, d) := CheckErrorAndAction(a.interrupts, split, c);
      && (status == Ok <==> Acknowledged(a)) && status != ErrorGeneral
      && AtMostLimits(d) && (!d.fatal ==> BelowLimits(d))
      && (d.fatal <==> Dead(a) || (!Acknowledged(a) && ReachesLimit(a, split, c)))
      && (!d.fatal ==> d.globalTries == if Acknowledged(a) then 0 else c.globalTries + if Serious(a) then 1 else 0)
      && d.success == (c.success || Completes(a))
      && (Acknowledged(a) ==> !d.fatal && d.splitTries == c.splitTries && d.packetTries == c.packetTries
                              && d.resendSplit == !Completes(a))
      && (!Acknowledged(a) && !d.fatal ==>
          if split then d.resendSplit && d.splitTries == c.splitTries + 1 && d.packetTries == c.packetTries
          else !d.resendSplit && d.packetTries == c.packetTries + 1 && d.splitTries == c.splitTries)
  {
  }

  /** The limits, and the packet size in use: 8 bytes for a low-speed device, the pipe's own otherwise. */
  lemma LimitsAndSizes(speed: Speed, maxPacketSize: nat)
    ensures SPLIT_LIMIT == 5 && PACKET_LIMIT == 3 && GLOBAL_LIMIT == 3 && DMA_SIZE == 1024
    ensures speed == Low ==> PacketSize(speed, maxPacketSize) == 8
    ensures speed == High || speed == Full ==> PacketSize(speed, maxPacketSize) == maxPacketSize
  {
  }

  /** The answer in full: what is reported, and which of the flags and counters change. */
  lemma AnswerInFull(i: Interrupts, split: bool, c: Control)
    ensures var (status, d) := CheckErrorAndAction(i, split, c);
      && !d.longerDelay && (c.fatal ==> d.fatal)
      && (i.ahbError ==> status == ErrorDevice)
      && (i.dataToggleError && !i.ahbError ==> status == ErrorTransmission)
      && (i.ahbError || i.dataToggleError ==> d == c.(resendSplit := false, retry := false, longerDelay := false, fatal := true))
      && (!i.ahbError && !i.dataToggleError && i.acknowledgement ==>
            && status == Ok && !d.retry && d.globalTries == 0 && d.splitTries == c.splitTries && d.packetTries == c.packetTries
            && d.success == (c.success || i.transferComplete) && d.resendSplit == !i.transferComplete)
      && (!i.ahbError && !i.dataToggleError && !i.acknowledgement ==>
            && d.success == c.success
            && (if split then d.splitTries == c.splitTries + 1 && d.packetTries == c.packetTries
                else d.packetTries == c.packetTries + 1 && d.splitTries == c.splitTries)
            && var exhausted := if split then c.splitTries + 1 == 5 else c.packetTries + 1 == 3;
               var serious := i.stall || i.babbleError || i.frameOverrun;
               var worn := serious && c.globalTries + 1 == 3;
               && d.globalTries == (if !exhausted && serious then c.globalTries + 1 else c.globalTries)
               && (c.fatal || exhausted || worn <==> d.fatal)
               && d.resendSplit == (split && !exhausted && !worn) && d.retry == (!split && !exhausted && !worn)
               && status == if exhausted || worn then ErrorTransmission
                            else if !serious then (if i.negativeAcknowledgement || i.notYet then ErrorTransmission else ErrorTimeout)
                            else if i.stall then ErrorStall else ErrorTransmission)
  {
  }

  /** Transmissions `from .. to` that brought no acknowledgement. */
  function Unacknowledged(hw: seq<Answer>, from: nat, to: nat): (n: nat)
    requires from <= to <= |hw|
    ensures n <= to - from
  {
    if from == to then 0
    else Unacknowledged(hw, from, to - 1) + if Acknowledged(hw[to - 1]) then 0 else 1
  }

  lemma {:induction false} UnacknowledgedAdds(hw: seq<Answer>, a: nat, b: nat, c: nat)
    requires a <= b <= c <= |hw|
    ensures Unacknowledged(hw, a, c) == Unacknowledged(hw, a, b) + Unacknowledged(hw, b, c)
    decreases c
  {
    if b < c { UnacknowledgedAdds(hw, a, b, c - 1); }
  }

  ghost predicate Succeeded(hw: seq<Answer>, to: nat)
    requires to <= |hw|
  {
    exists t :: 0 <= t < to && Completes(hw[t])
  }

  /** Serious answers since the last acknowledgement. */
  function SeriousRun(hw: seq<Answer>, to: nat): nat
    requires to <= |hw|
  {
    if to == 0 || Acknowledged(hw[to - 1]) then 0
    else SeriousRun(hw, to - 1) + if Serious(hw[to - 1]) then 1 else 0
  }

  /** After this answer the round is over, and the register is read. */
  predicate EndsRound(a: Answer, split: bool) {
    Completes(a) || (!split && !Acknowledged(a))
  }

  /** Why a round that began at `at` gives up after answer `to - 1`: the answer is dead, or it is not
      acknowledged and is the third such of a high-speed transfer, the fifth such since the split
      count was cleared, or the third serious one in a row. */
  predicate GivesUp(hw: seq<Answer>, at: nat, to: nat, split: bool, control: Control)
    requires at < to <= |hw|
  {
    || Dead(hw[to - 1])
    || (!Acknowledged(hw[to - 1]) && !split && control.packetTries + Unacknowledged(hw, at, to) == PACKET_LIMIT)
    || (!Acknowledged(hw[to - 1]) && split &&
        SPLIT_LIMIT == if to == at + 1 then control.splitTries + 1 else Unacknowledged(hw, at + 1, to))
    || (!Acknowledged(hw[to - 1]) && SeriousRun(hw, to) == GLOBAL_LIMIT)
  }

  datatype RoundEnd =
    | Ready      // the register can be read
    | GivenUp    // the transfer returns 0
    | Waiting    // the hardware has not answered the last transmission

  /** Where a round that began at `at` with `control` stands after answer `to - 1`. */
  ghost predicate InRound(hw: seq<Answer>, at: nat, to: nat, split: bool, control: Control, c: Control) {
    && at < to <= |hw| && BelowLimits(c)
    && c.success == Succeeded(hw, to) && c.globalTries == SeriousRun(hw, to)
    && (if split then c.splitTries == Unacknowledged(hw, at + 1, to)
        else c.packetTries == control.packetTries + Unacknowledged(hw, at, to))
    && c.resendSplit == !EndsRound(hw[to - 1], split) && !GivesUp(hw, at, to, split, control)
    && GoesOn(hw, at, to, split, control)
  }

  /** No answer of the round before the last one ended it or made it give up. */
  ghost predicate GoesOn(hw: seq<Answer>, at: nat, to: nat, split: bool, control: Control)
    requires to <= |hw|
  {
    forall k :: at < k < to ==> KeepsOn(hw, at, k, split, control)
  }

  predicate KeepsOn(hw: seq<Answer>, at: nat, k: nat, split: bool, control: Control)
    requires at < k <= |hw|
  {
    !EndsRound(hw[k - 1], split) && !GivesUp(hw, at, k, split, control)
  }

  /** At most 3 transmissions of a high-speed transfer stay unacknowledged, and 6 of a split round. */
  predicate TriesOk(hw: seq<Answer>, at: nat, to: nat, split: bool, control: Control)
    requires at <= to <= |hw|
  {
    if split then Unacknowledged(hw, at, to) <= SPLIT_LIMIT + 1
    else control.packetTries + Unacknowledged(hw, at, to) <= PACKET_LIMIT
  }

  lemma FirstAnswer(hw: seq<Answer>, at: nat, split: bool, control: Control)
    requires at < |hw| && BelowLimits(control)
    requires control.success == Succeeded(hw, at) && control.globalTries == SeriousRun(hw, at)
    ensures TriesOk(hw, at, at + 1, split, control)
    ensures !hw[at].interrupts.halt ==> GivesUp(hw, at, at + 1, split, control)
    ensures hw[at].interrupts.halt ==>
      var d := CheckErrorAndAction(hw[at].interrupts, split, control).1;
      && AtMostLimits(d)
      && if d.fatal then GivesUp(hw, at, at + 1, split, control)
         else InRound(hw, at, at + 1, split, control, d.(splitTries := 0))
  {
    hide CheckErrorAndAction, Succeeded;
    SucceededOn(hw, at);
    if hw[at].interrupts.halt { OneAnswer(hw[at], split, control); }
  }

  lemma NextAnswer(hw: seq<Answer>, at: nat, to: nat, split: bool, control: Control, c: Control)
    requires InRound(hw, at, to, split, control, c) && c.resendSplit && to < |hw|
    ensures TriesOk(hw, at, to + 1, split, control) && GoesOn(hw, at, to + 1, split, control)
    ensures !hw[to].interrupts.halt ==> GivesUp(hw, at, to + 1, split, control)
    ensures hw[to].interrupts.halt ==>
      var d := CheckErrorAndAction(hw[to].interrupts, split, c).1;
      && AtMostLimits(d)
      && if d.fatal then GivesUp(hw, at, to + 1, split, control) else InRound(hw, at, to + 1, split, control, d)
  {
    hide CheckErrorAndAction, Succeeded;
    SucceededOn(hw, to);
    UnacknowledgedAdds(hw, at, at + 1, to + 1);
    UnacknowledgedAdds(hw, at, to, to + 1);
    assert KeepsOn(hw, at, to, split, control);
    if hw[to].interrupts.halt { OneAnswer(hw[to], split, c); }
  }

  lemma TriesSoFar(hw: seq<Answer>, at: nat, to: nat, split: bool, control: Control, c: Control)
    requires InRound(hw, at, to, split, control, c)
    ensures TriesOk(hw, at, to, split, control) && AtMostLimits(c)
  {
    hide Succeeded, GivesUp;
    UnacknowledgedAdds(hw, at, at + 1, to);
  }

  /** Lines 605-657: one transmission and the completions of its split. */
  method Round(hw: seq<Answer>, at: nat, split: bool, control: Control) returns (c: Control, to: nat, end: RoundEnd)
    requires at <= |hw| && BelowLimits(control)
    requires control.success == Succeeded(hw, at) && control.globalTries == SeriousRun(hw, at)
    ensures at <= to <= |hw| && AtMostLimits(c) && TriesOk(hw, at, to, split, control)
    ensures GoesOn(hw, at, to, split, control)
    ensures end == GivenUp <==> at < to && GivesUp(hw, at, to, split, control)
    ensures end == Ready ==> at < to && InRound(hw, at, to, split, control, c) && EndsRound(hw[to - 1], split)
    ensures end == Waiting ==> to == |hw| && (at < to ==> !EndsRound(hw[to - 1], split))
  {
    hide CheckErrorAndAction, Succeeded, GivesUp, Unacknowledged, SeriousRun, EndsRound;
    c, to := control, at;
    if to == |hw| {
      NoneInNone(hw, at);
      return c, to, Waiting;
    }
    FirstAnswer(hw, at, split, control);
    to := to + 1;
    if !hw[at].interrupts.halt {
      return c, to, GivenUp;
    }
    c := CheckErrorAndAction(hw[at].interrupts, split, c).1;
    if c.fatal {
      return c, to, GivenUp;
    }
    c := c.(splitTries := 0);
    while c.resendSplit
      invariant InRound(hw, at, to, split, control, c)
      decreases |hw| - to, c.resendSplit
    {
      TriesSoFar(hw, at, to, split, control, c);
      if to == |hw| {
        return c, to, Waiting;
      }
      NextAnswer(hw, at, to, split, control, c);
      to := to + 1;
      if !hw[to - 1].interrupts.halt {
        return c, to, GivenUp;
      }
      c := CheckErrorAndAction(hw[to - 1].interrupts, split, c).1;
      if c.fatal {
        return c, to, GivenUp;
      }
    }
    TriesSoFar(hw, at, to, split, control, c);
    end := Ready;
  }

  lemma SucceededOn(hw: seq<Answer>, n: nat)
    requires n < |hw|
    ensures Succeeded(hw, n + 1) <==> Succeeded(hw, n) || Completes(hw[n])
  {
  }

  /** How many bytes lie before the packets still to come. */
  function Done(size: nat, packets: nat, packetSize: nat, left: nat): int {
    if left == 0 then size else (packets - left) * packetSize
  }

  /** Line 575 */
  function PacketCount(size: nat, packetSize: nat): nat
    requires packetSize > 0
  {
    if size == 0 then 1 else (size + packetSize - 1) / packetSize
  }

  /** Every packet but the last is full, and the last starts inside the buffer. */
  lemma LastPacketStartsInside(size: nat, packetSize: nat)
    requires packetSize > 0
    ensures var n := PacketCount(size, packetSize);
      n > 0 && (n - 1) * packetSize <= size <= n * packetSize && (size > 0 ==> (n - 1) * packetSize < size)
  {
    var x := size + packetSize - 1;
    var q, m := x / packetSize, x % packetSize;
    assert x == packetSize * q + m;
    assert q * packetSize == packetSize * q;
    assert (q - 1) * packetSize == packetSize * q - packetSize;
    if q <= 0 { NonPositive(packetSize, q); }
  }

  lemma NonPositive(k: nat, q: int)
    requires q <= 0
    ensures k * q <= 0
  {
  }

  lemma DoneGrows(size: nat, packetSize: nat, left: nat, next: nat)
    requires packetSize > 0 && next <= left <= PacketCount(size, packetSize)
    ensures var n := PacketCount(size, packetSize);
      && 0 <= Done(size, n, packetSize, left) <= Done(size, n, packetSize, next) <= size
      && (size > 0 && next < left ==> Done(size, n, packetSize, left) < Done(size, n, packetSize, next))
  {
    var n := PacketCount(size, packetSize);
    LastPacketStartsInside(size, packetSize);
    Scale(0, n - left, packetSize);
    Scale(n - left, n - next, packetSize);
    if left > 0 { Scale(n - left, n - 1, packetSize); }
    if next > 0 { Scale(n - next, n - 1, packetSize); }
  }

  lemma Scale(a: int, b: int, k: nat)
    requires a <= b && k > 0
    ensures a * k <= b * k && (a < b ==> a * k < b * k)
  {
  }

  datatype Result = StillRunning | Failed | Overrun | Finished(bytes: nat)

  /** Round `r` ends with answer `ends[r] - 1`. */
  predicate RoundsOf(hw: seq<Answer>, ends: seq<nat>, to: nat) {
    && to <= |hw| && (forall i :: 0 <= i < |ends| ==> 0 < ends[i] <= to)
    && (forall i, j :: 0 <= i < j < |ends| ==> ends[i] < ends[j])
  }

  /** The packet count before round `r`: what was programmed, then what the last round left. */
  function CountBefore(hw: seq<Answer>, ends: seq<nat>, packets: nat, r: nat): nat
    requires RoundsOf(hw, ends, |hw|) && r <= |ends|
  {
    if r == 0 then packets else hw[ends[r - 1] - 1].packetCount
  }

  /** Round `r` starts with packets left: the loop condition. */
  predicate Starts(hw: seq<Answer>, ends: seq<nat>, packets: nat, r: nat)
    requires RoundsOf(hw, ends, |hw|) && r < |ends|
  {
    0 < CountBefore(hw, ends, packets, r)
  }

  ghost predicate PacketsLeft(hw: seq<Answer>, ends: seq<nat>, packets: nat)
    requires RoundsOf(hw, ends, |hw|)
  {
    forall r :: 0 <= r < |ends| ==> Starts(hw, ends, packets, r)
  }

  /** Round `r` does not raise the number of packets left. */
  predicate Counts(hw: seq<Answer>, ends: seq<nat>, packets: nat, r: nat)
    requires RoundsOf(hw, ends, |hw|) && r < |ends|
  {
    CountBefore(hw, ends, packets, r + 1) <= CountBefore(hw, ends, packets, r)
  }

  ghost predicate NeverRises(hw: seq<Answer>, ends: seq<nat>, packets: nat)
    requires RoundsOf(hw, ends, |hw|)
  {
    forall r :: 0 <= r < |ends| ==> Counts(hw, ends, packets, r)
  }

  /** Round `r` lowers the number of packets left only with the success flag set. */
  ghost predicate Accounted(hw: seq<Answer>, ends: seq<nat>, packets: nat, r: nat)
    requires RoundsOf(hw, ends, |hw|) && r < |ends|
  {
    CountBefore(hw, ends, packets, r + 1) < CountBefore(hw, ends, packets, r) ==> Succeeded(hw, ends[r])
  }

  ghost predicate FallsOnlyOnSuccess(hw: seq<Answer>, ends: seq<nat>, packets: nat)
    requires RoundsOf(hw, ends, |hw|)
  {
    forall r :: 0 <= r < |ends| ==> Accounted(hw, ends, packets, r)
  }

  /** Lines 664-666 */
  function Transferred(size: nat, packets: nat, packetSize: nat, left: nat, next: nat): int {
    if next > 0 then (left - next) * packetSize else size - (packets - left) * packetSize
  }

  /** What the round that ends after `end` answers adds to the buffer. */
  ghost function Chunk(hw: seq<Answer>, end: nat, size: nat, packets: nat, packetSize: nat, left: nat): seq<Byte>
    requires 0 < end <= |hw|
  {
    var n := Transferred(size, packets, packetSize, left, hw[end - 1].packetCount);
    if Succeeded(hw, end) && 0 <= n <= DMA_SIZE then hw[end - 1].dma[..n] else []
  }

  /** What the rounds together deliver. */
  ghost function Received(hw: seq<Answer>, ends: seq<nat>, size: nat, packets: nat, packetSize: nat): seq<Byte>
    requires RoundsOf(hw, ends, |hw|)
  {
    if ends == [] then [] else
      var n := |ends| - 1;
      Received(hw, ends[..n], size, packets, packetSize)
        + Chunk(hw, ends[n], size, packets, packetSize, CountBefore(hw, ends, packets, n))
  }

  /** The bytes received never run past the packets gone from the count, and they are all of those
      exactly when the count fell only in rounds that count as successful. */
  lemma {:induction false} ReceivedIsDone(hw: seq<Answer>, ends: seq<nat>, size: nat, packetSize: nat)
    requires RoundsOf(hw, ends, |hw|) && packetSize > 0 && size <= DMA_SIZE
    requires var packets := PacketCount(size, packetSize);
      PacketsLeft(hw, ends, packets) && NeverRises(hw, ends, packets)
    ensures var packets := PacketCount(size, packetSize);
            var left := CountBefore(hw, ends, packets, |ends|);
            var got := |Received(hw, ends, size, packets, packetSize)|;
      && left <= packets && got <= Done(size, packets, packetSize, left) <= size
      && (got == Done(size, packets, packetSize, left) <==> size == 0 || FallsOnlyOnSuccess(hw, ends, packets))
  {
    hide RoundsOf, Succeeded, PacketsLeft, NeverRises, PacketCount, Chunk, Transferred;
    var packets := PacketCount(size, packetSize);
    LastPacketStartsInside(size, packetSize);
    if ends != [] {
      var n := |ends| - 1;
      var left, next := CountBefore(hw, ends, packets, n), CountBefore(hw, ends, packets, n + 1);
      RoundsSplit(hw, ends, packets);
      ReceivedIsDone(hw, ends[..n], size, packetSize);
      assert Counts(hw, ends, packets, n);
      RoundAdds(size, packetSize, left, next);
      ChunkLength(hw, ends, size, packets, packetSize);
    }
  }

  lemma ChunkLength(hw: seq<Answer>, ends: seq<nat>, size: nat, packets: nat, packetSize: nat)
    requires RoundsOf(hw, ends, |hw|) && ends != []
    ensures var n := |ends| - 1;
            var left, next := CountBefore(hw, ends, packets, n), CountBefore(hw, ends, packets, n + 1);
            var t := Transferred(size, packets, packetSize, left, next);
      && 0 < ends[n] <= |hw|
      && |Chunk(hw, ends[n], size, packets, packetSize, left)|
         == (if Succeeded(hw, ends[n]) && 0 <= t <= DMA_SIZE then t else 0)
      && |Received(hw, ends, size, packets, packetSize)|
         == |Received(hw, ends[..n], size, packets, packetSize)| + |Chunk(hw, ends[n], size, packets, packetSize, left)|
  {
    hide Succeeded, Transferred;
  }

  /** Dropping the last round. */
  lemma RoundsSplit(hw: seq<Answer>, ends: seq<nat>, packets: nat)
    requires RoundsOf(hw, ends, |hw|) && ends != []
    ensures var n := |ends| - 1; var init := ends[..n];
      && RoundsOf(hw, init, |hw|) && CountBefore(hw, init, packets, n) == CountBefore(hw, ends, packets, n)
      && (PacketsLeft(hw, ends, packets) <==> PacketsLeft(hw, init, packets) && Starts(hw, ends, packets, n))
      && (NeverRises(hw, ends, packets) <==> NeverRises(hw, init, packets) && Counts(hw, ends, packets, n))
      && (FallsOnlyOnSuccess(hw, ends, packets) <==>
          FallsOnlyOnSuccess(hw, init, packets) && Accounted(hw, ends, packets, n))
  {
    hide Succeeded;
    var n := |ends| - 1;
    var init := ends[..n];
    forall r | 0 <= r < n
      ensures Starts(hw, init, packets, r) == Starts(hw, ends, packets, r)
      ensures Counts(hw, init, packets, r) == Counts(hw, ends, packets, r)
      ensures Accounted(hw, init, packets, r) == Accounted(hw, ends, packets, r)
    {
      assert init[r] == ends[r];
    }
  }

  lemma RoundAdds(size: nat, packetSize: nat, left: nat, next: nat)
    requires packetSize > 0 && next <= left <= PacketCount(size, packetSize) && 0 < left
    ensures var n := PacketCount(size, packetSize);
      && Done(size, n, packetSize, left) + Transferred(size, n, packetSize, left, next) == Done(size, n, packetSize, next)
      && 0 <= Done(size, n, packetSize, left) <= Done(size, n, packetSize, next) <= size
      && (size == 0 || next < left <==> Transferred(size, n, packetSize, left, next) > 0 || size == 0)
  {
    DoneGrows(size, packetSize, left, next);
  }

  /** With such hardware, round `r` fills exactly the stretch between the packets gone before it and
      the packets gone after it, from the start of the DMA buffer it ended with: consecutive
      stretches, so no gap and no overlap. */
  lemma {:induction false} EachRoundFillsItsStretch(hw: seq<Answer>, ends: seq<nat>, size: nat, packetSize: nat, r: nat)
    requires RoundsOf(hw, ends, |hw|) && packetSize > 0 && size <= DMA_SIZE && r < |ends|
    requires var packets := PacketCount(size, packetSize);
      PacketsLeft(hw, ends, packets) && NeverRises(hw, ends, packets) && FallsOnlyOnSuccess(hw, ends, packets)
    ensures var packets := PacketCount(size, packetSize);
            var a := Done(size, packets, packetSize, CountBefore(hw, ends, packets, r));
            var b := Done(size, packets, packetSize, CountBefore(hw, ends, packets, r + 1));
            var got := Received(hw, ends, size, packets, packetSize);
      Fills(got, a, b, hw[ends[r] - 1].dma)
  {
    hide Fills, PacketsLeft, Succeeded, NeverRises, FallsOnlyOnSuccess, PacketCount, Done, Transferred, Chunk, Counts, Accounted;
    var packets := PacketCount(size, packetSize);
    var n := |ends| - 1;
    var init := ends[..n];
    RoundsSplit(hw, ends, packets);
    ReceivedIsDone(hw, init, size, packetSize);
    var before := Received(hw, init, size, packets, packetSize);
    var chunk := Chunk(hw, ends[n], size, packets, packetSize, CountBefore(hw, ends, packets, n));
    if r < n {
      EachRoundFillsItsStretch(hw, init, size, packetSize, r);
      assert CountBefore(hw, init, packets, r + 1) == CountBefore(hw, ends, packets, r + 1);
      assert CountBefore(hw, init, packets, r) == CountBefore(hw, ends, packets, r);
      StaysFilled(before, chunk, Done(size, packets, packetSize, CountBefore(hw, ends, packets, r)),
                  Done(size, packets, packetSize, CountBefore(hw, ends, packets, r + 1)), hw[ends[r] - 1].dma);
    } else {
      ChunkIsStretch(hw, ends, size, packetSize);
      LastFills(before, chunk, hw[ends[n] - 1].dma);
    }
  }

  /** Bytes `a .. b` of what was received are the first bytes of the DMA buffer. */
  ghost predicate Fills(got: seq<Byte>, a: int, b: int, dma: DmaBuffer) {
    0 <= a <= b <= |got| && b - a <= DMA_SIZE && got[a..b] == dma[..b - a]
  }

  lemma StaysFilled(got: seq<Byte>, more: seq<Byte>, a: int, b: int, dma: DmaBuffer)
    requires Fills(got, a, b, dma)
    ensures Fills(got + more, a, b, dma)
  {
    assert (got + more)[a..b] == got[a..b];
  }

  lemma LastFills(got: seq<Byte>, more: seq<Byte>, dma: DmaBuffer)
    requires |more| <= DMA_SIZE && more == dma[..|more|]
    ensures Fills(got + more, |got|, |got| + |more|, dma)
  {
  }

  lemma ChunkIsStretch(hw: seq<Answer>, ends: seq<nat>, size: nat, packetSize: nat)
    requires RoundsOf(hw, ends, |hw|) && packetSize > 0 && size <= DMA_SIZE && ends != []
    requires var packets, n := PacketCount(size, packetSize), |ends| - 1;
      && Counts(hw, ends, packets, n) && Accounted(hw, ends, packets, n)
      && 0 < CountBefore(hw, ends, packets, n) <= packets
    ensures var packets, n := PacketCount(size, packetSize), |ends| - 1;
            var left, next := CountBefore(hw, ends, packets, n), CountBefore(hw, ends, packets, n + 1);
            var t := Done(size, packets, packetSize, next) - Done(size, packets, packetSize, left);
      0 <= t <= DMA_SIZE && Chunk(hw, ends[n], size, packets, packetSize, left) == hw[ends[n] - 1].dma[..t]
  {
    hide Succeeded, PacketCount;
    var packets, n := PacketCount(size, packetSize), |ends| - 1;
    RoundAdds(size, packetSize, CountBefore(hw, ends, packets, n), CountBefore(hw, ends, packets, n + 1));
  }

  datatype Speed = High | Full | Low

  /** Line 573: a low-speed device always sends packets of 8 bytes. */
  function PacketSize(speed: Speed, maxPacketSize: nat): nat {
    if speed == Low then 8 else maxPacketSize
  }

  /** Lines 673-676 */
  method CopyIn(buffer: array<Byte>, offset: nat, dma: DmaBuffer, n: nat)
    requires offset + n <= buffer.Length && n <= DMA_SIZE
    modifies buffer
    ensures buffer[..offset + n] == old(buffer[..offset]) + dma[..n]
    ensures buffer[offset + n..] == old(buffer[offset + n..])
  {
    var i := 0;
    while i < n
      invariant 0 <= i <= n
      invariant buffer[..offset + i] == old(buffer[..offset]) + dma[..i]
      invariant buffer[offset + i..] == old(buffer[offset + i..])
    {
      buffer[offset + i] := dma[i];
      i := i + 1;
    }
  }

  /** Lines 660-684: the copy at the end of a round, unless it would run past the buffer. */
  method TakeIn(hw: seq<Answer>, end: nat, success: bool, packets: nat, packetSize: nat, left: nat, buffer: array<Byte>, offset: nat)
    returns (next: nat, overrun: bool)
    requires 0 < end <= |hw| && success == Succeeded(hw, end) && offset <= buffer.Length <= DMA_SIZE
    modifies buffer
    ensures var t := Transferred(buffer.Length, packets, packetSize, left, hw[end - 1].packetCount);
      overrun <==> success && (t < 0 || offset + t > buffer.Length)
    ensures !overrun ==> offset <= next <= buffer.Length && buffer[next..] == old(buffer[next..])
    ensures !overrun ==>
      buffer[..next] == old(buffer[..offset]) + Chunk(hw, end, buffer.Length, packets, packetSize, left)
  {
    hide Succeeded, Transferred;
    next, overrun := offset, false;
    if success {
      var transferred := Transferred(buffer.Length, packets, packetSize, left, hw[end - 1].packetCount);
      if transferred < 0 || offset + transferred > buffer.Length {
        return offset, true;
      }
      CopyIn(buffer, offset, hw[end - 1].dma, transferred);
      next := offset + transferred;
    }
  }

  function LastEnd(ends: seq<nat>): nat { if ends == [] then 0 else ends[|ends| - 1] }

  /** Where the last round began. */
  function LastStart(ends: seq<nat>): nat { if |ends| < 2 then 0 else ends[|ends| - 2] }

  /** The ends of the rounds among the first `n` answers: exactly the answers that end a round. */
  function EndsUpTo(hw: seq<Answer>, n: nat, split: bool): (ends: seq<nat>)
    requires n <= |hw|
    ensures RoundsOf(hw, ends, |hw|) && LastEnd(ends) <= n
  {
    if n == 0 then [] else
      var before := EndsUpTo(hw, n - 1, split);
      if EndsRound(hw[n - 1], split) then
        RoundsLonger(hw, before, n);
        before + [n]
      else before
  }

  /** What the counters hold between rounds. */
  ghost predicate Counted(hw: seq<Answer>, ends: seq<nat>, split: bool, control: Control)
    requires RoundsOf(hw, ends, |hw|)
  {
    var to := LastEnd(ends);
    && BelowLimits(control) && control.success == Succeeded(hw, to) && control.globalTries == SeriousRun(hw, to)
    && if split then control.splitTries == if ends == [] then 0 else Unacknowledged(hw, LastStart(ends) + 1, to)
       else control.packetTries == Unacknowledged(hw, 0, to)
  }

  /** The exact reasons for giving up, read off the answers alone. The count of split tries is cleared
      after the first transmission of each round, so that this one still counts with the round before. */
  predicate TransferGivesUp(hw: seq<Answer>, ends: seq<nat>, to: nat, split: bool)
    requires RoundsOf(hw, ends, |hw|) && LastEnd(ends) < to <= |hw|
  {
    var at := LastEnd(ends);
    || Dead(hw[to - 1])
    || (!Acknowledged(hw[to - 1]) && !split && Unacknowledged(hw, 0, to) == PACKET_LIMIT)
    || (!Acknowledged(hw[to - 1]) && split && at + 1 < to && Unacknowledged(hw, at + 1, to) == SPLIT_LIMIT)
    || (!Acknowledged(hw[to - 1]) && split && at + 1 == to && ends != []
        && Unacknowledged(hw, LastStart(ends) + 1, to) == SPLIT_LIMIT)
    || (!Acknowledged(hw[to - 1]) && SeriousRun(hw, to) == GLOBAL_LIMIT)
  }

  /** The transfer gives up on answer `k - 1`. */
  predicate StopsAt(hw: seq<Answer>, k: nat, split: bool)
    requires 0 < k <= |hw|
  {
    TransferGivesUp(hw, EndsUpTo(hw, k - 1, split), k, split)
  }

  ghost predicate NoneStops(hw: seq<Answer>, n: nat, split: bool)
    requires n <= |hw|
  {
    forall k :: 0 < k <= n ==> !StopsAt(hw, k, split)
  }

  lemma GivesUpMeans(hw: seq<Answer>, ends: seq<nat>, to: nat, split: bool, control: Control)
    requires RoundsOf(hw, ends, |hw|) && LastEnd(ends) < to <= |hw| && Counted(hw, ends, split, control)
    ensures TransferGivesUp(hw, ends, to, split) <==> GivesUp(hw, LastEnd(ends), to, split, control)
  {
    hide Succeeded, SeriousRun;
    var at := LastEnd(ends);
    UnacknowledgedAdds(hw, 0, at, to);
    if ends != [] {
      UnacknowledgedAdds(hw, LastStart(ends) + 1, at, to);
    }
  }

  lemma CountedOn(hw: seq<Answer>, ends: seq<nat>, now: nat, split: bool, control: Control, c: Control)
    requires RoundsOf(hw, ends, |hw|) && Counted(hw, ends, split, control)
    requires InRound(hw, LastEnd(ends), now, split, control, c)
    ensures RoundsOf(hw, ends + [now], |hw|) && Counted(hw, ends + [now], split, c)
  {
    hide Succeeded, SeriousRun, GivesUp, GoesOn;
    RoundsLonger(hw, ends, now);
    UnacknowledgedAdds(hw, 0, LastEnd(ends), now);
  }

  lemma {:induction false} EndsStay(hw: seq<Answer>, to: nat, k: nat, split: bool)
    requires to <= k <= |hw| && forall j :: to <= j < k ==> !EndsRound(hw[j], split)
    ensures EndsUpTo(hw, k, split) == EndsUpTo(hw, to, split)
    decreases k
  {
    hide EndsRound;
    if to < k { EndsStay(hw, to, k - 1, split); }
  }

  /** What the answers from `to` on mean for the whole transfer, while the round goes on. */
  lemma AnswerRecorded(hw: seq<Answer>, to: nat, k: nat, split: bool, control: Control)
    requires to < k <= |hw| && LastEnd(EndsUpTo(hw, to, split)) == to
    requires Counted(hw, EndsUpTo(hw, to, split), split, control)
    requires GoesOn(hw, to, k, split, control)
    ensures EndsUpTo(hw, k - 1, split) == EndsUpTo(hw, to, split)
    ensures StopsAt(hw, k, split) <==> GivesUp(hw, to, k, split, control)
  {
    hide EndsRound, GivesUp, Counted, TransferGivesUp;
    forall j | to <= j < k - 1 ensures !EndsRound(hw[j], split) {
      assert KeepsOn(hw, to, j + 1, split, control);
    }
    EndsStay(hw, to, k - 1, split);
    GivesUpMeans(hw, EndsUpTo(hw, to, split), k, split, control);
  }

  /** What a round from `to` to `now` means. */
  lemma RoundRecorded(hw: seq<Answer>, to: nat, now: nat, split: bool, control: Control)
    requires to < now <= |hw| && LastEnd(EndsUpTo(hw, to, split)) == to
    requires NoneStops(hw, to, split) && Counted(hw, EndsUpTo(hw, to, split), split, control)
    requires GoesOn(hw, to, now, split, control)
    ensures EndsUpTo(hw, now - 1, split) == EndsUpTo(hw, to, split) && NoneStops(hw, now - 1, split)
    ensures StopsAt(hw, now, split) <==> GivesUp(hw, to, now, split, control)
    ensures EndsUpTo(hw, now, split) ==
      if EndsRound(hw[now - 1], split) then EndsUpTo(hw, to, split) + [now] else EndsUpTo(hw, to, split)
  {
    hide EndsRound, GivesUp, Counted, StopsAt;
    AnswerRecorded(hw, to, now, split, control);
    forall k | to < k < now ensures !StopsAt(hw, k, split) {
      AnswerRecorded(hw, to, k, split, control);
      assert KeepsOn(hw, to, k, split, control);
    }
  }

  /** The last round would copy past the buffer. */
  ghost predicate Overruns(hw: seq<Answer>, ends: seq<nat>, size: nat, packets: nat, packetSize: nat)
    requires RoundsOf(hw, ends, |hw|) && ends != []
  {
    var n := |ends| - 1;
    var t := Transferred(size, packets, packetSize, CountBefore(hw, ends, packets, n), CountBefore(hw, ends, packets, n + 1));
    Succeeded(hw, ends[n]) && (t < 0 || |Received(hw, ends[..n], size, packets, packetSize)| + t > size)
  }

  ghost predicate NoneOverruns(hw: seq<Answer>, ends: seq<nat>, size: nat, packets: nat, packetSize: nat)
    requires RoundsOf(hw, ends, |hw|)
  {
    ends == [] || (!Overruns(hw, ends, size, packets, packetSize) && NoneOverruns(hw, ends[..|ends| - 1], size, packets, packetSize))
  }

  /** How many answers the transfer went on from. */
  function Used(r: Result, to: nat): nat { if r == Failed && 0 < to then to - 1 else to }

  /** The outcome of a transfer after `to` answers: at every earlier answer it went on, and at the last
      one it stopped for the reason reported, or the hardware has said nothing more. */
  ghost predicate Outcome(hw: seq<Answer>, split: bool, size: nat, packets: nat, packetSize: nat, r: Result, to: nat)
    requires to <= |hw|
  {
    var ends := EndsUpTo(hw, Used(r, to), split);
    var left := CountBefore(hw, ends, packets, |ends|);
    && NoneStops(hw, Used(r, to), split) && PacketsLeft(hw, ends, packets)
    && match r
       case Failed => 0 < to && StopsAt(hw, to, split) && 0 < left && NoneOverruns(hw, ends, size, packets, packetSize)
       case StillRunning => to == |hw| && 0 < left && NoneOverruns(hw, ends, size, packets, packetSize)
       case Finished(bytes) =>
         bytes == size && LastEnd(ends) == to && left == 0 && NoneOverruns(hw, ends, size, packets, packetSize)
       case Overrun =>
         && LastEnd(ends) == to && ends != [] && Overruns(hw, ends, size, packets, packetSize)
         && NoneOverruns(hw, ends[..|ends| - 1], size, packets, packetSize)
  }

  /** The bound on unacknowledged transmissions. */
  ghost predicate FewTries(hw: seq<Answer>, ends: seq<nat>, to: nat, split: bool)
    requires RoundsOf(hw, ends, |hw|) && LastEnd(ends) <= to <= |hw|
  {
    if split then TriesBounded(hw, ends, to) else Unacknowledged(hw, 0, to) <= PACKET_LIMIT
  }

  /** Where the transfer stands between rounds, with packets left or not. */
  ghost predicate Between(hw: seq<Answer>, ends: seq<nat>, to: nat, split: bool, size: nat, packets: nat, packetSize: nat) {
    && to <= |hw| && ends == EndsUpTo(hw, to, split) && LastEnd(ends) == to
    && NoneStops(hw, to, split) && PacketsLeft(hw, ends, packets)
    && NoneOverruns(hw, ends, size, packets, packetSize) && FewTries(hw, ends, to, split)
  }

  /** A round that gives up or is not over yet. */
  lemma RoundCutShort(hw: seq<Answer>, ends: seq<nat>, to: nat, now: nat, split: bool, control: Control, size: nat, packets: nat, packetSize: nat)
    requires Between(hw, ends, to, split, size, packets, packetSize) && Counted(hw, ends, split, control)
    requires to <= now <= |hw| && GoesOn(hw, to, now, split, control) && TriesOk(hw, to, now, split, control)
    requires 0 < CountBefore(hw, ends, packets, |ends|)
    ensures FewTries(hw, ends, now, split)
    ensures to < now && GivesUp(hw, to, now, split, control) ==>
      Outcome(hw, split, size, packets, packetSize, Failed, now) && EndsUpTo(hw, now - 1, split) == ends
    ensures now == |hw| && (to < now ==> !EndsRound(hw[now - 1], split) && !GivesUp(hw, to, now, split, control)) ==>
      Outcome(hw, split, size, packets, packetSize, StillRunning, now) && EndsUpTo(hw, now, split) == ends
  {
    hide RoundsOf, EndsUpTo, GoesOn, StopsAt, GivesUp, EndsRound, PacketsLeft, CountBefore, NoneOverruns, TriesBounded, NoneStops;
    TriesGoOn(hw, ends, to, now, split, control);
    if to < now {
      RoundRecorded(hw, to, now, split, control);
      NoneStopsOn(hw, now, split);
    }
  }

  /** A round that is over. */
  lemma RoundOver(hw: seq<Answer>, ends: seq<nat>, to: nat, now: nat, split: bool, control: Control, size: nat, packets: nat, packetSize: nat)
    requires Between(hw, ends, to, split, size, packets, packetSize) && Counted(hw, ends, split, control)
    requires to < now <= |hw| && GoesOn(hw, to, now, split, control) && TriesOk(hw, to, now, split, control)
    requires 0 < CountBefore(hw, ends, packets, |ends|)
    requires EndsRound(hw[now - 1], split) && !GivesUp(hw, to, now, split, control)
    ensures var longer := ends + [now];
      && RoundsOf(hw, longer, |hw|) && FewTries(hw, longer, now, split) && longer == EndsUpTo(hw, now, split)
      && if Overruns(hw, longer, size, packets, packetSize)
         then Outcome(hw, split, size, packets, packetSize, Overrun, now)
         else Between(hw, longer, now, split, size, packets, packetSize)
  {
    hide RoundsOf, EndsUpTo, GoesOn, StopsAt, GivesUp, EndsRound, PacketsLeft, CountBefore, TriesBounded, NoneStops, Overruns;
    TriesGoOn(hw, ends, to, now, split, control);
    RoundRecorded(hw, to, now, split, control);
    NoneStopsOn(hw, now, split);
    NextRound(hw, ends, now, size, packets, packetSize);
  }

  lemma TransferOver(hw: seq<Answer>, ends: seq<nat>, to: nat, split: bool, size: nat, packets: nat, packetSize: nat)
    requires Between(hw, ends, to, split, size, packets, packetSize) && CountBefore(hw, ends, packets, |ends|) == 0
    ensures Outcome(hw, split, size, packets, packetSize, Finished(size), to)
  {
  }

  /** Lines 537-690, over whatever the hardware answers; `to` answers are used, and Overrun is a copy
      past the end of the buffer. */
  method TransferIn(hw: seq<Answer>, speed: Speed, maxPacketSize: nat, buffer: array<Byte>)
    returns (r: Result, ghost to: nat)
    requires maxPacketSize > 0 && buffer.Length <= DMA_SIZE
    modifies buffer
    ensures to <= |hw|
    ensures var packets := PacketCount(buffer.Length, maxPacketSize);
            var size := PacketSize(speed, maxPacketSize);
            var ends := EndsUpTo(hw, Used(r, to), speed != High);
      && Outcome(hw, speed != High, buffer.Length, packets, size, r, to)
      && (r == Overrun && size == maxPacketSize ==> !NeverRises(hw, ends, packets))
      && (r != Overrun ==>
            var got := Received(hw, ends, buffer.Length, packets, size);
            |got| <= buffer.Length && buffer[..] == got + old(buffer[..])[|got|..])
      && FewTries(hw, ends, to, speed != High)
  {
    hide RoundsOf, Received, CountBefore, NeverRises, Succeeded, BelowLimits, Transferred, PacketCount, Counted,
         GivesUp, SeriousRun, EndsRound, EndsUpTo, GoesOn, Overruns, TriesOk, Outcome, Between, FewTries, TriesBounded, InRound, Chunk, AtMostLimits, PacketSize;
    var packetSize := PacketSize(speed, maxPacketSize);
    var size := buffer.Length;
    var packets := PacketCount(size, maxPacketSize);
    LastPacketStartsInside(size, maxPacketSize);
    var offset, left, control, used := 0, packets, CLEARED, 0;
    ghost var split, ends := speed != High, [];
    to := 0;
    FirstRound(hw, size, packets, packetSize, split);
    while left > 0
      invariant used == to <= |hw| && Between(hw, ends, to, split, size, packets, packetSize)
      invariant RoundsOf(hw, ends, |hw|) && LastEnd(ends) == to && ends == EndsUpTo(hw, to, split)
      invariant Counted(hw, ends, split, control) && left == CountBefore(hw, ends, packets, |ends|)
      invariant 0 <= offset <= size && buffer[..offset] == Received(hw, ends, size, packets, packetSize)
      invariant buffer[offset..] == old(buffer[offset..])
      decreases |hw| - to
    {
      CountedMeans(hw, ends, split, control);
      var next, now, end := Round(hw, used, speed != High, control);
      RoundCutShort(hw, ends, to, now, split, control, size, packets, packetSize);
      if end == Waiting {
        return StillRunning, now;
      } else if end == GivenUp {
        return Failed, now;
      }
      ghost var longer := ends + [now];
      RoundDone(hw, ends, to, now, split, control, next, size, maxPacketSize, packetSize);
      var overrun;
      offset, overrun := TakeIn(hw, now, next.success, packets, packetSize, left, buffer, offset);
      if overrun {
        return Overrun, now;
      }
      ends, to, used, left, control := longer, now, now, hw[now - 1].packetCount, next;
    }
    TransferOver(hw, ends, to, split, size, packets, packetSize);
    BetweenTries(hw, ends, to, split, size, packets, packetSize);
    r := Finished(size);
  }

  /** Everything a round that is over means. */
  lemma RoundDone(hw: seq<Answer>, ends: seq<nat>, to: nat, now: nat, split: bool, control: Control, next: Control,
                  size: nat, maxPacketSize: nat, packetSize: nat)
    requires maxPacketSize > 0 && size <= DMA_SIZE
    requires Between(hw, ends, to, split, size, PacketCount(size, maxPacketSize), packetSize)
    requires RoundsOf(hw, ends, |hw|) && LastEnd(ends) == to && Counted(hw, ends, split, control)
    requires to < now <= |hw| && GoesOn(hw, to, now, split, control) && TriesOk(hw, to, now, split, control)
    requires 0 < CountBefore(hw, ends, PacketCount(size, maxPacketSize), |ends|)
    requires EndsRound(hw[now - 1], split) && !GivesUp(hw, to, now, split, control)
    requires InRound(hw, to, now, split, control, next)
    ensures var longer, packets := ends + [now], PacketCount(size, maxPacketSize);
            var left := CountBefore(hw, ends, packets, |ends|);
            var t := Transferred(size, packets, packetSize, left, hw[now - 1].packetCount);
      && RoundsOf(hw, longer, |hw|) && LastEnd(longer) == now && longer == EndsUpTo(hw, now, split)
      && Counted(hw, longer, split, next) && next.success == Succeeded(hw, now)
      && CountBefore(hw, longer, packets, |longer|) == hw[now - 1].packetCount
      && Received(hw, longer, size, packets, packetSize)
         == Received(hw, ends, size, packets, packetSize) + Chunk(hw, now, size, packets, packetSize, left)
      && FewTries(hw, longer, now, split)
      && if next.success && (t < 0 || |Received(hw, ends, size, packets, packetSize)| + t > size)
         then Outcome(hw, split, size, packets, packetSize, Overrun, now)
              && (packetSize == maxPacketSize ==> !NeverRises(hw, longer, packets))
         else Between(hw, longer, now, split, size, packets, packetSize)
  {
    hide RoundsOf, Received, CountBefore, NeverRises, Succeeded, BelowLimits, Transferred, PacketCount, Counted, Chunk,
         GivesUp, SeriousRun, EndsRound, EndsUpTo, GoesOn, Overruns, TriesOk, Outcome, Between, FewTries, TriesBounded;
    var packets := PacketCount(size, maxPacketSize);
    RoundOver(hw, ends, to, now, split, control, size, packets, packetSize);
    NextRound(hw, ends, now, size, packets, packetSize);
    CountedOn(hw, ends, now, split, control, next);
    OverrunMeans(hw, ends, now, size, packets, packetSize);
    if Overruns(hw, ends + [now], size, packets, packetSize) {
      OverrunRises(hw, ends + [now], to, now, split, size, packetSize, maxPacketSize);
    }
  }

  lemma BetweenTries(hw: seq<Answer>, ends: seq<nat>, to: nat, split: bool, size: nat, packets: nat, packetSize: nat)
    requires Between(hw, ends, to, split, size, packets, packetSize)
    ensures FewTries(hw, ends, to, split)
  {
  }

  lemma OverrunRises(hw: seq<Answer>, ends: seq<nat>, to: nat, now: nat, split: bool, size: nat, packetSize: nat, maxPacketSize: nat)
    requires RoundsOf(hw, ends, |hw|) && ends != [] && maxPacketSize > 0 && size <= DMA_SIZE && now <= |hw|
    requires ends == EndsUpTo(hw, now, split)
    requires Overruns(hw, ends, size, PacketCount(size, maxPacketSize), packetSize)
    requires Outcome(hw, split, size, PacketCount(size, maxPacketSize), packetSize, Overrun, now)
    ensures packetSize == maxPacketSize ==> !NeverRises(hw, ends, PacketCount(size, maxPacketSize))
  {
    hide NeverRises, PacketCount, Transferred, Received;
    NoOverrun(hw, ends, size, packetSize, maxPacketSize);
  }

  // The answers of the hardware decide everything.

  lemma {:induction false} EndsExtend(hw: seq<Answer>, n: nat, m: nat, split: bool)
    requires n <= m <= |hw|
    ensures EndsUpTo(hw, n, split) <= EndsUpTo(hw, m, split)
    decreases m
  {
    hide RoundsOf, EndsRound;
    if n < m { EndsExtend(hw, n, m - 1, split); }
  }

  lemma {:induction false} NoneOverrunsBefore(hw: seq<Answer>, some: seq<nat>, ends: seq<nat>, size: nat, packets: nat, packetSize: nat)
    requires RoundsOf(hw, ends, |hw|) && some <= ends && NoneOverruns(hw, ends, size, packets, packetSize)
    ensures RoundsOf(hw, some, |hw|) && NoneOverruns(hw, some, size, packets, packetSize)
    decreases |ends|
  {
    hide Overruns;
    if some == ends {
    } else {
      NoneOverrunsBefore(hw, some, ends[..|ends| - 1], size, packets, packetSize);
    }
  }

  /** A transfer that goes on after `n` answers has packets left there, and no copy was too long. */
  lemma GoingOn(hw: seq<Answer>, split: bool, size: nat, packets: nat, packetSize: nat, r: Result, to: nat, n: nat)
    requires to <= |hw| && Outcome(hw, split, size, packets, packetSize, r, to) && n <= Used(r, to)
    requires EndsUpTo(hw, n, split) != EndsUpTo(hw, Used(r, to), split)
    ensures var ends := EndsUpTo(hw, n, split);
      0 < CountBefore(hw, ends, packets, |ends|) && NoneOverruns(hw, ends, size, packets, packetSize)
  {
    hide RoundsOf, EndsUpTo, Overruns, NoneStops, StopsAt, NoneOverruns;
    var some, ends := EndsUpTo(hw, n, split), EndsUpTo(hw, Used(r, to), split);
    EndsExtend(hw, n, Used(r, to), split);
    assert |some| < |ends|;
    assert Starts(hw, ends, packets, |some|);
    assert CountBefore(hw, ends, packets, |some|) == CountBefore(hw, some, packets, |some|);
    if r == Overrun {
      LastOff(hw, ends);
      assert some <= ends[..|ends| - 1];
      NoneOverrunsBefore(hw, some, ends[..|ends| - 1], size, packets, packetSize);
    } else {
      NoneOverrunsBefore(hw, some, ends, size, packets, packetSize);
    }
  }

  lemma LastOff(hw: seq<Answer>, ends: seq<nat>)
    requires RoundsOf(hw, ends, |hw|) && ends != []
    ensures RoundsOf(hw, ends[..|ends| - 1], |hw|)
  {
  }

  lemma FirstOutcomeIsLast(hw: seq<Answer>, split: bool, size: nat, packets: nat, packetSize: nat, r: Result, to: nat, r': Result, to': nat)
    requires to <= to' <= |hw|
    requires Outcome(hw, split, size, packets, packetSize, r, to) && Outcome(hw, split, size, packets, packetSize, r', to')
    ensures r == r' && to == to'
  {
    hide RoundsOf, EndsUpTo, Overruns, StopsAt, CountBefore, PacketsLeft;
    var used := Used(r', to');
    if r != Failed && to <= used && EndsUpTo(hw, to, split) != EndsUpTo(hw, used, split) {
      GoingOn(hw, split, size, packets, packetSize, r', to', to);
    }
  }

  /** Two accounts of a transfer on the same answers agree: `Outcome` admits exactly one result, after
      exactly one number of answers. */
  lemma OutcomeIsDetermined(hw: seq<Answer>, split: bool, size: nat, packets: nat, packetSize: nat, r: Result, to: nat, r': Result, to': nat)
    requires to <= |hw| && to' <= |hw|
    requires Outcome(hw, split, size, packets, packetSize, r, to) && Outcome(hw, split, size, packets, packetSize, r', to')
    ensures r == r' && to == to'
  {
    hide Outcome;
    if to <= to' {
      FirstOutcomeIsLast(hw, split, size, packets, packetSize, r, to, r', to');
    } else {
      FirstOutcomeIsLast(hw, split, size, packets, packetSize, r', to', r, to);
    }
  }

  lemma TriesGoOn(hw: seq<Answer>, ends: seq<nat>, to: nat, now: nat, split: bool, control: Control)
    requires RoundsOf(hw, ends, |hw|) && to == LastEnd(ends) <= now <= |hw| && Counted(hw, ends, split, control)
    requires TriesOk(hw, to, now, split, control)
    requires split ==> TriesBounded(hw, ends, to)
    ensures split ==> TriesBounded(hw, ends, now)
    ensures split && to < now ==> RoundsOf(hw, ends + [now], |hw|) && TriesBounded(hw, ends + [now], now)
    ensures !split ==> Unacknowledged(hw, 0, now) <= PACKET_LIMIT
  {
    hide Succeeded, SeriousRun;
    UnacknowledgedAdds(hw, 0, to, now);
    if split { TriesOn(hw, ends, to, now); }
  }

  lemma NoneStopsOn(hw: seq<Answer>, now: nat, split: bool)
    requires 0 < now <= |hw| && NoneStops(hw, now - 1, split)
    ensures NoneStops(hw, now, split) <==> !StopsAt(hw, now, split)
  {
    hide StopsAt;
  }

  lemma OverrunMeans(hw: seq<Answer>, ends: seq<nat>, now: nat, size: nat, packets: nat, packetSize: nat)
    requires RoundsOf(hw, ends, |hw|) && LastEnd(ends) < now <= |hw|
    ensures var longer, n := ends + [now], |ends|;
            var t := Transferred(size, packets, packetSize, CountBefore(hw, ends, packets, n), hw[now - 1].packetCount);
      && RoundsOf(hw, longer, |hw|) && longer[..n] == ends
      && (Overruns(hw, longer, size, packets, packetSize) <==>
          Succeeded(hw, now) && (t < 0 || |Received(hw, ends, size, packets, packetSize)| + t > size))
  {
    hide Transferred, Succeeded, Received, PacketsLeft, Chunk;
    NextRound(hw, ends, now, size, packets, packetSize);
  }

  lemma CountedMeans(hw: seq<Answer>, ends: seq<nat>, split: bool, control: Control)
    requires RoundsOf(hw, ends, |hw|) && Counted(hw, ends, split, control)
    ensures var to := LastEnd(ends);
      && BelowLimits(control) && control.success == Succeeded(hw, to) && control.globalTries == SeriousRun(hw, to)
  {
  }

  /** Unacknowledged transmissions in round `i`; round `|ends|` is the one under way. */
  function RoundTries(hw: seq<Answer>, ends: seq<nat>, to: nat, i: nat): nat
    requires RoundsOf(hw, ends, |hw|) && i <= |ends| && LastEnd(ends) <= to <= |hw|
  {
    Unacknowledged(hw, if i == 0 then 0 else ends[i - 1], if i == |ends| then to else ends[i])
  }

  ghost predicate TriesBounded(hw: seq<Answer>, ends: seq<nat>, to: nat)
    requires RoundsOf(hw, ends, |hw|) && LastEnd(ends) <= to <= |hw|
  {
    forall i :: 0 <= i <= |ends| ==> RoundTries(hw, ends, to, i) <= SPLIT_LIMIT + 1
  }

  lemma TriesOn(hw: seq<Answer>, ends: seq<nat>, to: nat, now: nat)
    requires RoundsOf(hw, ends, |hw|) && to <= now <= |hw| && to == LastEnd(ends)
    requires TriesBounded(hw, ends, to) && Unacknowledged(hw, to, now) <= SPLIT_LIMIT + 1
    ensures TriesBounded(hw, ends, now)
    ensures to < now ==> RoundsOf(hw, ends + [now], |hw|) && TriesBounded(hw, ends + [now], now)
  {
    hide RoundsOf, Unacknowledged;
    var n := |ends|;
    forall i | 0 <= i <= n ensures RoundTries(hw, ends, now, i) <= SPLIT_LIMIT + 1 {
      assert i < n ==> RoundTries(hw, ends, now, i) == RoundTries(hw, ends, to, i);
    }
    if to < now {
      var longer := ends + [now];
      RoundsLonger(hw, ends, now);
      forall i | 0 <= i <= n + 1 ensures RoundTries(hw, longer, now, i) <= SPLIT_LIMIT + 1 {
        if i <= n {
          assert RoundTries(hw, longer, now, i) == RoundTries(hw, ends, now, i);
        } else {
          NoneInNone(hw, now);
        }
      }
    }
  }

  lemma NoneInNone(hw: seq<Answer>, now: nat)
    requires now <= |hw|
    ensures Unacknowledged(hw, now, now) == 0
  {
  }

  lemma RoundsLonger(hw: seq<Answer>, ends: seq<nat>, now: nat)
    requires RoundsOf(hw, ends, |hw|) && LastEnd(ends) < now <= |hw|
    ensures RoundsOf(hw, ends + [now], |hw|)
  {
  }

  lemma FirstRound(hw: seq<Answer>, size: nat, packets: nat, packetSize: nat, split: bool)
    ensures RoundsOf(hw, [], |hw|) && CountBefore(hw, [], packets, 0) == packets && !Succeeded(hw, 0)
    ensures PacketsLeft(hw, [], packets)
    ensures Received(hw, [], size, packets, packetSize) == [] && Unacknowledged(hw, 0, 0) == 0
    ensures Counted(hw, [], split, CLEARED) && Between(hw, [], 0, split, size, packets, packetSize)
    ensures EndsUpTo(hw, 0, split) == []
  {
  }

  lemma NextRound(hw: seq<Answer>, ends: seq<nat>, now: nat, size: nat, packets: nat, packetSize: nat)
    requires RoundsOf(hw, ends, |hw|) && LastEnd(ends) < now <= |hw|
    ensures var longer, n := ends + [now], |ends|;
      && RoundsOf(hw, longer, |hw|) && longer[..n] == ends
      && CountBefore(hw, longer, packets, n) == CountBefore(hw, ends, packets, n)
      && CountBefore(hw, longer, packets, n + 1) == hw[now - 1].packetCount
      && (PacketsLeft(hw, longer, packets) <==> PacketsLeft(hw, ends, packets) && 0 < CountBefore(hw, ends, packets, n))
      && Received(hw, longer, size, packets, packetSize) == Received(hw, ends, size, packets, packetSize)
           + Chunk(hw, now, size, packets, packetSize, CountBefore(hw, ends, packets, n))
  {
    hide RoundsOf, Chunk, PacketsLeft, NeverRises, FallsOnlyOnSuccess, Received;
    RoundsLonger(hw, ends, now);
    assert (ends + [now])[..|ends|] == ends;
    RoundsSplit(hw, ends + [now], packets);
    ReceivedUnfolds(hw, ends + [now], size, packets, packetSize);
  }

  lemma ReceivedUnfolds(hw: seq<Answer>, ends: seq<nat>, size: nat, packets: nat, packetSize: nat)
    requires RoundsOf(hw, ends, |hw|) && ends != []
    ensures var n := |ends| - 1;
      && RoundsOf(hw, ends[..n], |hw|) && 0 < ends[n] <= |hw|
      && Received(hw, ends, size, packets, packetSize) == Received(hw, ends[..n], size, packets, packetSize)
           + Chunk(hw, ends[n], size, packets, packetSize, CountBefore(hw, ends, packets, n))
  {
    hide Chunk;
  }

  lemma NoOverrun(hw: seq<Answer>, ends: seq<nat>, size: nat, packetSize: nat, maxPacketSize: nat)
    requires RoundsOf(hw, ends, |hw|) && ends != [] && maxPacketSize > 0 && size <= DMA_SIZE
    requires var packets := PacketCount(size, maxPacketSize); var n := |ends| - 1;
      var left, next := CountBefore(hw, ends, packets, n), CountBefore(hw, ends, packets, n + 1);
      var t := Transferred(size, packets, packetSize, left, next);
      PacketsLeft(hw, ends, packets) && (t < 0 || |Received(hw, ends[..n], size, packets, packetSize)| + t > size)
    ensures packetSize == maxPacketSize ==> !NeverRises(hw, ends, PacketCount(size, maxPacketSize))
  {
    var packets := PacketCount(size, maxPacketSize);
    if packetSize == maxPacketSize && NeverRises(hw, ends, packets) {
      var n := |ends| - 1;
      RoundsSplit(hw, ends, packets);
      ReceivedIsDone(hw, ends[..n], size, packetSize);
      assert Counts(hw, ends, packets, n);
      RoundAdds(size, packetSize, CountBefore(hw, ends, packets, n), CountBefore(hw, ends, packets, n + 1));
    }
  }

  /** A finished transfer with packets of the programmed size and a count that never rises has
      received the whole buffer, and nothing else, exactly when the count fell only in rounds with
      the success flag set. */
  lemma FinishedIsWhole(hw: seq<Answer>, ends: seq<nat>, buffer: seq<Byte>, packetSize: nat)
    requires packetSize > 0 && |buffer| <= DMA_SIZE && RoundsOf(hw, ends, |hw|)
    requires var packets := PacketCount(|buffer|, packetSize);
      && PacketsLeft(hw, ends, packets) && NeverRises(hw, ends, packets)
      && CountBefore(hw, ends, packets, |ends|) == 0
      && Received(hw, ends, |buffer|, packets, packetSize) <= buffer
    ensures var packets := PacketCount(|buffer|, packetSize);
      buffer == Received(hw, ends, |buffer|, packets, packetSize) <==> buffer == [] || FallsOnlyOnSuccess(hw, ends, packets)
  {
    hide PacketsLeft, NeverRises, FallsOnlyOnSuccess, Received;
    ReceivedIsDone(hw, ends, |buffer|, packetSize);
  }

  // The success flag is never cleared: a later round that lowers the count without completing copies
  // whatever the DMA buffer holds.

  /** Round `r` lowers the number of packets left only by completing itself. */
  predicate OwnSuccess(hw: seq<Answer>, ends: seq<nat>, packets: nat, r: nat)
    requires RoundsOf(hw, ends, |hw|) && r < |ends|
  {
    CountBefore(hw, ends, packets, r + 1) < CountBefore(hw, ends, packets, r) ==> Completes(hw[ends[r] - 1])
  }

  /** What round `r` puts into the buffer, if anything, comes from a round that completed. */
  ghost predicate FilledByItself(hw: seq<Answer>, ends: seq<nat>, size: nat, packets: nat, packetSize: nat, r: nat)
    requires RoundsOf(hw, ends, |hw|) && r < |ends|
  {
    Chunk(hw, ends[r], size, packets, packetSize, CountBefore(hw, ends, packets, r)) == [] || Completes(hw[ends[r] - 1])
  }

  lemma {:induction false} CountAtMost(hw: seq<Answer>, ends: seq<nat>, packets: nat, r: nat)
    requires RoundsOf(hw, ends, |hw|) && NeverRises(hw, ends, packets) && r <= |ends|
    ensures CountBefore(hw, ends, packets, r) <= packets
  {
    if r > 0 {
      CountAtMost(hw, ends, packets, r - 1);
      assert Counts(hw, ends, packets, r - 1);
    }
  }

  lemma OneRoundFills(hw: seq<Answer>, ends: seq<nat>, size: nat, packetSize: nat, r: nat)
    requires RoundsOf(hw, ends, |hw|) && r < |ends| && packetSize > 0 && size <= DMA_SIZE
    requires var packets := PacketCount(size, packetSize); PacketsLeft(hw, ends, packets) && NeverRises(hw, ends, packets)
    ensures var packets := PacketCount(size, packetSize);
      && (size == 0 ==> FilledByItself(hw, ends, size, packets, packetSize, r))
      && (size > 0 ==> (OwnSuccess(hw, ends, packets, r) <==>
            FilledByItself(hw, ends, size, packets, packetSize, r) && Accounted(hw, ends, packets, r)))
  {
    hide PacketCount, Completes, Done, Transferred, PacketsLeft, NeverRises;
    var packets := PacketCount(size, packetSize);
    CountAtMost(hw, ends, packets, r);
    LeftBefore(hw, ends, packets, r);
    var left, next := CountBefore(hw, ends, packets, r), CountBefore(hw, ends, packets, r + 1);
    RoundAdds(size, packetSize, left, next);
    var t := Transferred(size, packets, packetSize, left, next);
    assert 0 <= t <= size;
    assert left == next && size > 0 ==> t <= 0;
  }

  lemma LeftBefore(hw: seq<Answer>, ends: seq<nat>, packets: nat, r: nat)
    requires RoundsOf(hw, ends, |hw|) && r < |ends| && PacketsLeft(hw, ends, packets) && NeverRises(hw, ends, packets)
    ensures 0 < CountBefore(hw, ends, packets, r) && CountBefore(hw, ends, packets, r + 1) <= CountBefore(hw, ends, packets, r)
  {
    assert Starts(hw, ends, packets, r) && Counts(hw, ends, packets, r);
  }

  /** All bytes of the packets gone are there, each from a round that completed itself, if and only if
      the count fell only in such rounds. */
  lemma OwnRoundsFill(hw: seq<Answer>, ends: seq<nat>, size: nat, packetSize: nat)
    requires RoundsOf(hw, ends, |hw|) && packetSize > 0 && size <= DMA_SIZE
    requires var packets := PacketCount(size, packetSize); PacketsLeft(hw, ends, packets) && NeverRises(hw, ends, packets)
    ensures var packets := PacketCount(size, packetSize);
            var left := CountBefore(hw, ends, packets, |ends|);
      |Received(hw, ends, size, packets, packetSize)| == Done(size, packets, packetSize, left)
        && (forall r :: 0 <= r < |ends| ==> FilledByItself(hw, ends, size, packets, packetSize, r))
      <==> size == 0 || forall r :: 0 <= r < |ends| ==> OwnSuccess(hw, ends, packets, r)
  {
    hide RoundsOf, PacketCount, FilledByItself, OwnSuccess, Accounted, PacketsLeft, NeverRises, Received, Done, CountBefore;
    ReceivedIsDone(hw, ends, size, packetSize);
    forall r | 0 <= r < |ends|
      ensures var packets := PacketCount(size, packetSize);
        && (size == 0 ==> FilledByItself(hw, ends, size, packets, packetSize, r))
        && (size > 0 ==> (OwnSuccess(hw, ends, packets, r) <==>
              FilledByItself(hw, ends, size, packets, packetSize, r) && Accounted(hw, ends, packets, r)))
    {
      OneRoundFills(hw, ends, size, packetSize, r);
    }
  }

  // The failing input.

  /** The channel halts without an acknowledgement, and yet no packet is left. */
  function Vanished(): Answer {
    Answer(Interrupts(true, false, false, false, false, false, false, false, false, false, false),
           0, seq(DMA_SIZE, _ => 0))
  }

  /** After this one answer a high-speed transfer of one packet is over: it has not failed, it is not
      waiting, and nothing has been received. */
  lemma OneVanishes(hw: seq<Answer>, r: Result, to: nat)
    requires hw == [Vanished()] && to <= 1
    requires Outcome(hw, false, 8, 1, 8, r, to) && (r == Overrun ==> !NeverRises(hw, EndsUpTo(hw, Used(r, to), false), 1))
    ensures r == Finished(8) && to == 1 && EndsUpTo(hw, 1, false) == [1]
    ensures Received(hw, [1], 8, 1, 8) == [] && !FallsOnlyOnSuccess(hw, [1], 1)
  {
    hide Received, NoneOverruns, Overruns, NoneStops, StopsAt, EndsUpTo, PacketsLeft, NeverRises, FallsOnlyOnSuccess;
    VanishedRound(hw);
    NothingReceived(hw);
  }

  lemma VanishedRound(hw: seq<Answer>)
    requires hw == [Vanished()]
    ensures EndsUpTo(hw, 0, false) == [] && EndsUpTo(hw, 1, false) == [1] && !StopsAt(hw, 1, false)
    ensures CountBefore(hw, [], 1, 0) == 1 && CountBefore(hw, [1], 1, 1) == 0
    ensures NeverRises(hw, [1], 1) && !FallsOnlyOnSuccess(hw, [1], 1)
  {
    assert EndsRound(hw[0], false) && EndsUpTo(hw, 0, false) == [];
    assert !Succeeded(hw, 1) && Unacknowledged(hw, 0, 0) == 0 && SeriousRun(hw, 0) == 0;
    assert CountBefore(hw, [1], 1, 0) == 1 && CountBefore(hw, [1], 1, 1) == 0;
    assert !Accounted(hw, [1], 1, 0);
  }

  lemma NothingReceived(hw: seq<Answer>)
    requires hw == [Vanished()] && RoundsOf(hw, [1], |hw|)
    ensures Received(hw, [1], 8, 1, 8) == []
  {
    assert !Succeeded(hw, 1);
    var ends: seq<nat> := [1];
    assert ends[..0] == [];
  }

  /** The transfer reports 8 bytes and has not touched the buffer. */
  method FinishesWithoutItsBytes() returns (r: Result, buffer: array<Byte>)
    ensures r == Finished(8) && fresh(buffer) && buffer.Length == 8
    ensures forall i :: 0 <= i < 8 ==> buffer[i] == 0xAA
  {
    hide Outcome, RoundsOf, NeverRises, Received, FallsOnlyOnSuccess, PacketCount, EndsUpTo;
    buffer := new Byte[8](_ => 0xAA);
    ghost var to;
    r, to := TransferIn([Vanished()], High, 8, buffer);
    OnePacket();
    OneVanishes([Vanished()], r, to);
  }

  lemma OnePacket()
    ensures PacketCount(8, 8) == 1
  {
  }
}
