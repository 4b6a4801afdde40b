/** A run of the code as written that loses a slot: two threads, a pool of two words, every read
    returning what is there. */
module PoolWitness {
  import opened Bits
  import opened Kernel
  import opened PoolProtocol
  import opened PoolSafety
  import opened PoolTheorems
  import opened PoolWords
  import opened ZeroRuns

  /** Two requests in a pool of two words, and the words that they lead to. */
  datatype Scene = Scene(pool: Pool, big: Request, small: Request, empty: Word, claimed: Word, taken: Word) {
    predicate Ok() {
      && pool.size == 128
      && big.count == 128 && big.alignment == 1 && small.count == 1 && small.alignment == 1
      && empty == EmptyWord() && claimed == FirstWord(empty, 0) && taken == SingleWord(empty, 0, small.count)
    }

    /** What the code finds out about these words and requests. */
    predicate Ready() {
      && Count(pool) == 2 && big.Valid() && small.Valid()
      && big.count == 128 && big.alignment == 1 && small.count == 1 && small.alignment == 1
      && empty == EmptyWord() && empty.bitmap == Zeros() != Ones()
      && claimed == FirstWord(empty, 0) && claimed.bitmap == Ones()
      && taken == SingleWord(empty, 0, small.count) != empty
      && FirstFit(empty.bitmap, big.count, big.alignment, 0) == 0
      && FirstFit(empty.bitmap, small.count, small.alignment, 0) == 0
      && ZerosAt(empty.bitmap, 64, 0) && ZerosAt(empty.bitmap, small.count, 0)
      && NextWord(small.alignment, 0) == 1
    }

    function Half(): Plan { Plan(big, 0, 0, 1, 64) }
    function Whole(): Plan { Plan(big, 0, 0, 2, 0) }
    function Waiting(): Pc { CasWhole(Whole(), claimed, 1) }

    /** The states: before thread 0 claims the first word, before thread 1 takes slot 64, and then. */
    function Before(a: Pc): State { State([empty, empty], map[], [a, Idle]) }
    function Claiming(b: Pc): State { State([claimed, empty], map[], [Waiting(), b]) }
    function Met(a: Pc): State { State([claimed, taken], map[64 := 1], [a, Idle]) }

    function Go0(): (nat, Event) { (0, Continue(empty)) }
    function Go1(): (nat, Event) { (1, Continue(empty)) }

    function ClaimEvents(): seq<(nat, Event)> { [(0, Allocate(big)), Go0(), Go0(), Go0(), Go0()] }
    function IntrudeEvents(): seq<(nat, Event)> { [(1, Allocate(small)), (1, Continue(claimed)), Go1(), Go1()] }
    function BackOutEvents(): seq<(nat, Event)> { [Go0(), Go0()] }
    function Events(): seq<(nat, Event)> { ClaimEvents() + IntrudeEvents() + BackOutEvents() }
  }

  lemma OkIsReady(x: Scene)
    requires x.Ok()
    ensures x.Ready()
  {
    var e := x.empty;
    assert IsPowerOfTwo(1);
    assert !e.bitmap[0] && Ones()[0] && x.taken.bitmap[0];
    assert FitsAt(e.bitmap, x.big.count, x.big.alignment, 0) && FitsAt(e.bitmap, x.small.count, x.small.alignment, 0);
  }

  predicate Steps(pool: Pool, s: State, t: nat, e: Event, u: State) {
    Enabled(pool, s, t, e) && Next(pool, s, t, e) == u
  }

  lemma ExecOne(pool: Pool, s: State, events: seq<(nat, Event)>, rest: seq<(nat, Event)>, u: State)
    requires events != [] && rest == events[1..] && Steps(pool, s, events[0].0, events[0].1, u)
    ensures Exec(pool, s, events) == Exec(pool, u, rest)
  {
  }

  lemma ExecNone(pool: Pool, s: State)
    ensures Exec(pool, s, []) == Some(s)
  {
  }

  lemma {:induction false} ExecAppend(pool: Pool, s: State, a: seq<(nat, Event)>, b: seq<(nat, Event)>)
    requires Exec(pool, s, a).Some?
    ensures Exec(pool, s, a + b) == Exec(pool, Exec(pool, s, a).value, b)
    decreases |a|
  {
    hide Enabled, Next;
    if a == [] {
      assert a + b == b;
    } else {
      assert (a + b)[0] == a[0] && (a + b)[1..] == a[1..] + b;
      ExecAppend(pool, Next(pool, s, a[0].0, a[0].1), a[1..], b);
    }
  }

  /** Thread 0 finds both words free. */
  lemma Finds(x: Scene)
    requires x.Ok()
    ensures Steps(x.pool, x.Before(Find(x.big, 0)), 0, Continue(x.empty), x.Before(Scan(x.Half(), x.empty)))
  {
    hide Scene.Ok, FirstFit, ZerosAt, IsPowerOfTwo, FirstWord, SingleWord, EmptyWord, NextWord;
    OkIsReady(x);
  }

  lemma Begins(x: Scene)
    requires x.Ok()
    ensures Steps(x.pool, x.Before(Idle), 0, Allocate(x.big), x.Before(Find(x.big, 0)))
    ensures Steps(x.pool, x.Claiming(Idle), 1, Allocate(x.small), x.Claiming(Find(x.small, 0)))
  {
    hide Scene.Ok, FirstFit, ZerosAt, IsPowerOfTwo, FirstWord, SingleWord, EmptyWord, NextWord;
    OkIsReady(x);
  }

  lemma Scans(x: Scene)
    requires x.Ok()
    ensures Steps(x.pool, x.Before(Scan(x.Half(), x.empty)), 0, Continue(x.empty), x.Before(Scan(x.Whole(), x.empty)))
    ensures Steps(x.pool, x.Before(Scan(x.Whole(), x.empty)), 0, Continue(x.empty), x.Before(CasFirst(x.Whole(), x.empty)))
  {
    hide Scene.Ok, FirstFit, ZerosAt, IsPowerOfTwo, FirstWord, SingleWord, EmptyWord, NextWord, Shl;
    OkIsReady(x);
  }

  lemma Claims(x: Scene)
    requires x.Ok()
    ensures Steps(x.pool, x.Before(CasFirst(x.Whole(), x.empty)), 0, Continue(x.empty), x.Claiming(Idle))
  {
    hide Scene.Ok, FirstFit, ZerosAt, IsPowerOfTwo, FirstWord, SingleWord, EmptyWord, NextWord;
    OkIsReady(x);
  }

  lemma ThreadZeroClaims(x: Scene)
    requires x.Ok()
    ensures Exec(x.pool, x.Before(Idle), x.ClaimEvents()) == Some(x.Claiming(Idle))
  {
    hide Steps, Exec, Scene.Ok;
    Begins(x);
    Finds(x);
    Scans(x);
    Claims(x);
    var go := x.Go0();
    ExecOne(x.pool, x.Before(Idle), x.ClaimEvents(), [go, go, go, go], x.Before(Find(x.big, 0)));
    ExecOne(x.pool, x.Before(Find(x.big, 0)), [go, go, go, go], [go, go, go], x.Before(Scan(x.Half(), x.empty)));
    ExecOne(x.pool, x.Before(Scan(x.Half(), x.empty)), [go, go, go], [go, go], x.Before(Scan(x.Whole(), x.empty)));
    ExecOne(x.pool, x.Before(Scan(x.Whole(), x.empty)), [go, go], [go], x.Before(CasFirst(x.Whole(), x.empty)));
    ExecOne(x.pool, x.Before(CasFirst(x.Whole(), x.empty)), [go], [], x.Claiming(Idle));
    ExecNone(x.pool, x.Claiming(Idle));
  }

  /** Thread 1 passes over the claimed word and takes the first slot of the next. */
  lemma Intrudes(x: Scene)
    requires x.Ok()
    ensures Steps(x.pool, x.Claiming(Find(x.small, 0)), 1, Continue(x.claimed), x.Claiming(Find(x.small, 1)))
    ensures Steps(x.pool, x.Claiming(Find(x.small, 1)), 1, Continue(x.empty), x.Claiming(CasSingle(x.small, 1, 0, x.empty)))
  {
    hide Scene.Ok, FirstFit, ZerosAt, IsPowerOfTwo, FirstWord, SingleWord, EmptyWord, NextWord;
    OkIsReady(x);
  }

  lemma Takes(x: Scene)
    requires x.Ok()
    ensures Steps(x.pool, x.Claiming(CasSingle(x.small, 1, 0, x.empty)), 1, Continue(x.empty), x.Met(x.Waiting()))
  {
    hide Scene.Ok, FirstFit, ZerosAt, IsPowerOfTwo, FirstWord, SingleWord, EmptyWord, NextWord;
    OkIsReady(x);
  }

  lemma ThreadOneIntrudes(x: Scene)
    requires x.Ok()
    ensures Exec(x.pool, x.Claiming(Idle), x.IntrudeEvents()) == Some(x.Met(x.Waiting()))
  {
    hide Steps, Exec, Scene.Ok;
    Begins(x);
    Intrudes(x);
    Takes(x);
    var go, look := x.Go1(), (1, Continue(x.claimed));
    ExecOne(x.pool, x.Claiming(Idle), x.IntrudeEvents(), [look, go, go], x.Claiming(Find(x.small, 0)));
    ExecOne(x.pool, x.Claiming(Find(x.small, 0)), [look, go, go], [go, go], x.Claiming(Find(x.small, 1)));
    ExecOne(x.pool, x.Claiming(Find(x.small, 1)), [go, go], [go], x.Claiming(CasSingle(x.small, 1, 0, x.empty)));
    ExecOne(x.pool, x.Claiming(CasSingle(x.small, 1, 0, x.empty)), [go], [], x.Met(x.Waiting()));
    ExecNone(x.pool, x.Met(x.Waiting()));
  }

  /** Thread 0 meets the block of thread 1 and starts to back out. */
  lemma BacksOut(x: Scene)
    requires x.Ok()
    ensures Steps(x.pool, x.Met(x.Waiting()), 0, Continue(x.empty), x.Met(UndoWhole(x.Whole(), x.claimed, 0)))
    ensures Steps(x.pool, x.Met(UndoWhole(x.Whole(), x.claimed, 0)), 0, Continue(x.empty), x.Met(UndoFirst(x.Whole(), x.claimed)))
  {
    hide Scene.Ok, FirstFit, ZerosAt, IsPowerOfTwo, FirstWord, SingleWord, EmptyWord, NextWord;
    OkIsReady(x);
  }

  lemma ThreadZeroBacksOut(x: Scene)
    requires x.Ok()
    ensures Exec(x.pool, x.Met(x.Waiting()), x.BackOutEvents()) == Some(x.Met(UndoFirst(x.Whole(), x.claimed)))
  {
    hide Steps, Exec, Scene.Ok;
    BacksOut(x);
    var go := x.Go0();
    ExecOne(x.pool, x.Met(x.Waiting()), x.BackOutEvents(), [go], x.Met(UndoWhole(x.Whole(), x.claimed, 0)));
    ExecOne(x.pool, x.Met(UndoWhole(x.Whole(), x.claimed, 0)), [go], [], x.Met(UndoFirst(x.Whole(), x.claimed)));
    ExecNone(x.pool, x.Met(UndoFirst(x.Whole(), x.claimed)));
  }

  lemma AllTogether(x: Scene)
    requires x.Ok()
    ensures Exec(x.pool, x.Before(Idle), x.Events()) == Some(x.Met(UndoFirst(x.Whole(), x.claimed)))
  {
    hide Exec, Scene.Ok;
    ThreadZeroClaims(x);
    ThreadOneIntrudes(x);
    ThreadZeroBacksOut(x);
    ExecAppend(x.pool, x.Before(Idle), x.ClaimEvents(), x.IntrudeEvents());
    ExecAppend(x.pool, x.Before(Idle), x.ClaimEvents() + x.IntrudeEvents(), x.BackOutEvents());
  }

  function TwoWords(): Scene {
    Scene(Pool(128, AsWritten), Request(128, 1), Request(1, 1), EmptyWord(),
          FirstWord(EmptyWord(), 0), SingleWord(EmptyWord(), 0, 1))
  }

  lemma TwoWordsOk()
    ensures TwoWords().Ok()
    ensures Initial(TwoWords().pool, 2) == TwoWords().Before(Idle)
    ensures Contended() == TwoWords().Met(UndoFirst(TwoWords().Whole(), TwoWords().claimed))
  {
  }

  /** From a new pool, thread 0 claims the first word for 128 slots, thread 1 takes slot 64, thread 0
      backs out: slot 63 stays in use although no block and no thread has it. */
  lemma RunLosesASlot()
    ensures var x := TwoWords();
            && Exec(x.pool, Initial(x.pool, 2), x.Events() + [x.Go0()]).Some?
            && var s := Exec(x.pool, Initial(x.pool, 2), x.Events() + [x.Go0()]).value;
               && |s.words| == 2 && Used(s.words, 63) && (forall c :: !Extent(x.pool, s, c).Has(63))
               && !Consistent(x.pool, s)
  {
    hide Exec, Next, Enabled, Consistent, Extent, Used, Initial, Scene.Ok, FirstWord, SingleWord, EmptyWord;
    var x := TwoWords();
    TwoWordsOk();
    AllTogether(x);
    ExecAppend(x.pool, x.Before(Idle), x.Events(), [x.Go0()]);
    WrittenMaskLosesASlot(x.empty);
    ExecOne(x.pool, Contended(), [x.Go0()], [], Next(x.pool, Contended(), 0, Continue(x.empty)));
    ExecNone(x.pool, Next(x.pool, Contended(), 0, Continue(x.empty)));
  }
}
