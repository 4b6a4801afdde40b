/** Safety of the concurrent pool: in every reachable state each slot has at most one owner, and
    the bits say exactly which slots are owned and where each block starts. */
module PoolSafety {
  import opened Bits
  import opened PoolProtocol
  import opened PoolWords
  import opened ZeroRuns

  datatype Owner = Free | Tail | Block(start: nat) | Thread(t: nat)

  /** The slots of an owner: the sentinel behind the end of the pool, a block in the hands of a
      caller, or what a thread has claimed and not yet handed out or given back. */
  function Extent(pool: Pool, s: State, c: Owner): Span {
    match c
    case Free => Nothing
    case Tail => Span(pool.size, 64 * Count(pool))
    case Block(b) => if b in s.live then Span(b, b + s.live[b]) else Nothing
    case Thread(t) => if t < |s.threads| then Held(s.threads[t]) else Nothing
  }

  predicate ThreadsOk(pool: Pool, threads: seq<Pc>) {
    forall t :: 0 <= t < |threads| ==> PcOk(pool, threads[t]) && !threads[t].Panicked?
  }

  predicate LiveOk(pool: Pool, live: map<nat, nat>) {
    forall b :: b in live ==> 0 < live[b] && b + live[b] <= 64 * Count(pool)
  }

  /** A block that is being measured is still its caller's, and of the size the thread is to find. */
  ghost predicate MeasuresLive(s: State) {
    forall t, b :: 0 <= t < |s.threads| && Measures(s.threads[t], b) ==> b in s.live && s.live[b] == s.threads[t].size
  }

  /** `o` names the owner of every slot: the extents are disjoint, and they are what the words show. */
  ghost predicate Inv(pool: Pool, s: State, o: seq<Owner>) {
    && |s.words| == Count(pool) && |o| == 64 * Count(pool)
    && ThreadsOk(pool, s.threads) && LiveOk(pool, s.live)
    && OwnersAre(pool, s, o)
    && WordsShow(pool, s, o)
  }

  ghost predicate OwnersAre(pool: Pool, s: State, o: seq<Owner>) {
    forall g, c :: 0 <= g < |o| && c != Free ==> (o[g] == c) == Extent(pool, s, c).Has(g)
  }

  ghost predicate WordsShow(pool: Pool, s: State, o: seq<Owner>)
    requires |o| == 64 * |s.words|
  {
    forall g :: 0 <= g < |o| ==>
      && Used(s.words, g) == (o[g] != Free)
      && Start(s.words, g) == (o[g] != Free && Extent(pool, s, o[g]).lo == g)
  }

  /** Nobody but `c` and `d` gains or loses a slot. */
  ghost predicate OthersKeep(pool: Pool, s: State, s': State, c: Owner, d: Owner) {
    forall x :: x != c && x != d ==> Extent(pool, s', x) == Extent(pool, s, x)
  }

  predicate Empty(p: Span) { p.hi <= p.lo }

  /** `c` held `was` and now `d` holds `now`, where `d` is `c` itself or had nothing before. */
  ghost predicate Reassigned(pool: Pool, s: State, s': State, c: Owner, d: Owner) {
    && c != Free && d != Free
    && OthersKeep(pool, s, s', c, d)
    && (c != d ==> Empty(Extent(pool, s, d)) && Empty(Extent(pool, s', c)))
    && Extent(pool, s', d).hi <= 64 * Count(pool)
  }

  function Reowned(o: seq<Owner>, was: Span, now: Span, d: Owner): (o': seq<Owner>)
    ensures |o'| == |o|
    ensures forall g :: 0 <= g < |o| ==> o'[g] == if now.Has(g) then d else if was.Has(g) then Free else o[g]
  {
    seq(|o|, g requires 0 <= g < |o| => if now.Has(g) then d else if was.Has(g) then Free else o[g])
  }

  lemma ReownedOwners(pool: Pool, s: State, s': State, o: seq<Owner>, c: Owner, d: Owner)
    requires |o| == 64 * Count(pool) && OwnersAre(pool, s, o) && Reassigned(pool, s, s', c, d)
    requires forall g :: 0 <= g < |o| && Extent(pool, s', d).Has(g) && !Extent(pool, s, c).Has(g) ==> o[g] == Free
    ensures OwnersAre(pool, s', Reowned(o, Extent(pool, s, c), Extent(pool, s', d), d))
  {
    hide Extent;
    var was, now := Extent(pool, s, c), Extent(pool, s', d);
    var o' := Reowned(o, was, now, d);
    forall g, x | 0 <= g < |o'| && x != Free ensures (o'[g] == x) == Extent(pool, s', x).Has(g) {
      assert (o[g] == x) == Extent(pool, s, x).Has(g);
      assert (o[g] == c) == was.Has(g);
      assert (o[g] == d) == Extent(pool, s, d).Has(g);
    }
  }

  /** One atomic step on word `i`, seen as slots changing hands. */
  ghost predicate WordFollows(i: nat, w: Word, w': Word, was: Span, now: Span) {
    forall k :: 0 <= k < 64 ==>
      && (now.Has(64 * i + k) && !was.Has(64 * i + k) ==> !w.bitmap[k])
      && w'.bitmap[k] == (now.Has(64 * i + k) || (w.bitmap[k] && !was.Has(64 * i + k)))
      && w'.starts[k] == ((now.Has(64 * i + k) && 64 * i + k == now.lo) || (w.starts[k] && !was.Has(64 * i + k)))
  }

  /** Outside word `i` the two spans have the same slots and the same first slot. */
  ghost predicate SameElsewhere(i: nat, was: Span, now: Span) {
    forall g {:trigger now.Has(g)} {:trigger was.Has(g)} :: 0 <= g && g / 64 != i ==>
      now.Has(g) == was.Has(g) && (now.Has(g) && g == now.lo <==> was.Has(g) && g == was.lo)
  }

  lemma ReownedWords(pool: Pool, s: State, s': State, o: seq<Owner>, c: Owner, d: Owner, i: nat)
    requires Inv(pool, s, o) && Reassigned(pool, s, s', c, d)
    requires i < |s.words| && |s'.words| == |s.words| && s'.words == s.words[i := s'.words[i]]
    requires WordFollows(i, s.words[i], s'.words[i], Extent(pool, s, c), Extent(pool, s', d))
    requires SameElsewhere(i, Extent(pool, s, c), Extent(pool, s', d))
    ensures var was, now := Extent(pool, s, c), Extent(pool, s', d);
            && (forall g :: 0 <= g < |o| && now.Has(g) && !was.Has(g) ==> o[g] == Free)
            && WordsShow(pool, s', Reowned(o, was, now, d))
  {
    hide Extent, PcOk;
    var was, now := Extent(pool, s, c), Extent(pool, s', d);
    var o' := Reowned(o, was, now, d);
    forall g | 0 <= g < |o|
      ensures now.Has(g) && !was.Has(g) ==> o[g] == Free
      ensures Used(s'.words, g) == (o'[g] != Free)
      ensures Start(s'.words, g) == (o'[g] != Free && Extent(pool, s', o'[g]).lo == g)
    {
      assert (o[g] == c) == was.Has(g);
      assert (o[g] == d) == Extent(pool, s, d).Has(g);
      assert Used(s.words, g) == (o[g] != Free);
      assert Start(s.words, g) == (o[g] != Free && Extent(pool, s, o[g]).lo == g);
      if g / 64 == i {
        var k := g % 64;
        assert g == 64 * i + k;
      } else {
        assert s'.words[g / 64] == s.words[g / 64];
        assert now.Has(g) == was.Has(g);
      }
    }
  }

  /** A step that writes word `i` keeps the invariant when the word follows the change of hands. */
  lemma KeepByWord(pool: Pool, s: State, s': State, o: seq<Owner>, c: Owner, d: Owner, i: nat)
    returns (o': seq<Owner>)
    requires Inv(pool, s, o) && Reassigned(pool, s, s', c, d)
    requires ThreadsOk(pool, s'.threads) && LiveOk(pool, s'.live)
    requires i < |s.words| && |s'.words| == |s.words| && s'.words == s.words[i := s'.words[i]]
    requires WordFollows(i, s.words[i], s'.words[i], Extent(pool, s, c), Extent(pool, s', d))
    requires SameElsewhere(i, Extent(pool, s, c), Extent(pool, s', d))
    ensures Inv(pool, s', o')
  {
    o' := Reowned(o, Extent(pool, s, c), Extent(pool, s', d), d);
    ReownedWords(pool, s, s', o, c, d, i);
    ReownedOwners(pool, s, s', o, c, d);
  }

  /** A step that writes nothing keeps the invariant when slots at most change hands. */
  lemma KeepQuietly(pool: Pool, s: State, s': State, o: seq<Owner>, c: Owner, d: Owner)
    returns (o': seq<Owner>)
    requires Inv(pool, s, o) && Reassigned(pool, s, s', c, d)
    requires ThreadsOk(pool, s'.threads) && LiveOk(pool, s'.live)
    requires s'.words == s.words
    requires Extent(pool, s', d) == Extent(pool, s, c)
    ensures Inv(pool, s', o')
  {
    hide Extent, PcOk;
    o' := Reowned(o, Extent(pool, s, c), Extent(pool, s', d), d);
    ReownedOwners(pool, s, s', o, c, d);
    forall g | 0 <= g < |o|
      ensures Used(s'.words, g) == (o'[g] != Free)
      ensures Start(s'.words, g) == (o'[g] != Free && Extent(pool, s', o'[g]).lo == g)
    {
      assert (o[g] == c) == Extent(pool, s, c).Has(g);
      assert (o[g] == d) == Extent(pool, s, d).Has(g);
      assert Used(s.words, g) == (o[g] != Free);
      assert Start(s.words, g) == (o[g] != Free && Extent(pool, s, o[g]).lo == g);
    }
  }

  // ---------- What the invariant says of one word ----------

  /** On the slots of an owner every bit is set, and only the first is marked as a start. */
  lemma OwnedSlot(pool: Pool, s: State, o: seq<Owner>, c: Owner, g: nat)
    requires Inv(pool, s, o) && c != Free && g < |o| && Extent(pool, s, c).Has(g)
    ensures Used(s.words, g) && Start(s.words, g) == (g == Extent(pool, s, c).lo) && o[g] == c
  {
    assert o[g] == c;
  }

  lemma OwnedBit(pool: Pool, s: State, o: seq<Owner>, c: Owner, i: nat, k: nat)
    requires Inv(pool, s, o) && c != Free && i < |s.words| && k < 64 && Extent(pool, s, c).Has(64 * i + k)
    ensures s.words[i].bitmap[k] && s.words[i].starts[k] == (64 * i + k == Extent(pool, s, c).lo)
  {
    hide Extent, PcOk;
    OwnedSlot(pool, s, o, c, 64 * i + k);
    assert (64 * i + k) / 64 == i && (64 * i + k) % 64 == k;
  }

  /** The slot behind an owner's last is free or starts the next block. */
  lemma SlotBehind(pool: Pool, s: State, o: seq<Owner>, c: Owner)
    requires Inv(pool, s, o) && c != Free
    requires var e := Extent(pool, s, c); e.lo < e.hi < |o|
    ensures var g := Extent(pool, s, c).hi; Used(s.words, g) == Start(s.words, g)
  {
    var e := Extent(pool, s, c);
    var d := o[e.hi];
    assert o[e.hi - 1] == c;
    if d != Free {
      assert Extent(pool, s, d).Has(e.hi);
      assert (o[e.hi - 1] == d) == Extent(pool, s, d).Has(e.hi - 1);
      assert d != c;
    }
  }

  function Min(a: int, b: int): int { if a < b then a else b }

  /** The run that `GetBlockSize` counts in word `i` ends where the block ends. */
  lemma CountedRun(pool: Pool, s: State, o: seq<Owner>, c: Owner, i: nat, k: nat)
    requires Inv(pool, s, o) && c != Free && i < |s.words| && k < 64
    requires var e := Extent(pool, s, c); e.lo < 64 * i + k <= e.hi <= |o|
    ensures var x := Xor(s.words[i].bitmap, s.words[i].starts);
            RunFrom(x, true, k) == Min(64, Extent(pool, s, c).hi - 64 * i) - k
  {
    hide Extent, PcOk;
    var e := Extent(pool, s, c);
    var x := Xor(s.words[i].bitmap, s.words[i].starts);
    var end := Min(64, e.hi - 64 * i);
    forall j | k <= j < end ensures x[j] {
      OwnedBit(pool, s, o, c, i, j);
    }
    if end < 64 {
      SlotBehind(pool, s, o, c);
      assert e.hi == 64 * i + end;
      assert !x[end];
    }
  }

  lemma ShiftedCount(x: Bits64, k: nat)
    requires k < 64
    ensures CountrOne(Shr(x, k)) == RunFrom(x, true, k)
  {
    ShiftedRuns(x, k);
    var n, r := CountrOne(Shr(x, k)), RunFrom(x, true, k);
    assert k + n < 64 ==> !x[k + n];
  }
}
