/** What `PoolAllocator` stores (src/Containers.h, lines 139-170): an array of words, each with
    64 slots, and the arithmetic that walks it. */
module PoolWords {
  import opened Arith
  import opened Bits

  /** `bitmap` has the slots in use, `starts` the first slot of each block. */
  datatype Word = Word(bitmap: Bits64, starts: Bits64)

  function EmptyWord(): Word { Word(Zeros(), Zeros()) }
  function FullWord(): Word { Word(Ones(), Zeros()) }

  /** Both halves of a word, with only the bits of `mask` kept. */
  function Keep(w: Word, mask: Bits64): Word { Word(And(w.bitmap, mask), And(w.starts, mask)) }

  /** The slot at which the word of slot `g` begins. */
  function WordStart(g: nat): nat { 64 * (g / 64) }

  function WordCount(poolSize: nat): (n: nat)
    ensures poolSize <= 64 * n < poolSize + 64
  {
    (poolSize + 63) / 64
  }

  /** Slot `g` of the pool is in use. */
  predicate Used(ws: seq<Word>, g: nat)
    requires g < 64 * |ws|
  {
    ws[g / 64].bitmap[g % 64]
  }

  /** Slot `g` of the pool is marked as the start of a block. */
  predicate Start(ws: seq<Word>, g: nat)
    requires g < 64 * |ws|
  {
    ws[g / 64].starts[g % 64]
  }

  /** The words of a new pool: all free, but for the slots of the last word beyond the end,
      which form one block that is never freed. */
  function InitialWords(poolSize: nat): (ws: seq<Word>)
    ensures |ws| == WordCount(poolSize)
  {
    seq(WordCount(poolSize), i =>
      if poolSize % 64 != 0 && i == poolSize / 64
      then Word(Shl(Ones(), poolSize % 64), Shl(Single(0), poolSize % 64)) else EmptyWord())
  }

  lemma InitialSlots(poolSize: nat)
    ensures var ws := InitialWords(poolSize);
            forall g :: 0 <= g < 64 * |ws| ==>
              Used(ws, g) == (poolSize <= g) && Start(ws, g) == (poolSize == g)
  {
    var ws := InitialWords(poolSize);
    forall g | 0 <= g < 64 * |ws|
      ensures Used(ws, g) == (poolSize <= g) && Start(ws, g) == (poolSize == g)
    {
      var i, n := g / 64, poolSize % 64;
      if n != 0 && i == poolSize / 64 {
        assert ws[i] == Word(Shl(Ones(), n), Shl(Single(0), n));
      } else {
        assert ws[i] == EmptyWord();
      }
    }
  }

  /** The step of the word loop, in words, for an alignment in slots. */
  function WordAlignment(alignment: nat): nat {
    (alignment + 63) / 64
  }

  /** `(wordIndex + wordAlignment) & wordAlignmentMask` */
  function NextWord(alignment: nat, wordIndex: nat): (r: nat)
    requires alignment > 0
    ensures wordIndex < r <= wordIndex + WordAlignment(alignment)
  {
    var wa := WordAlignment(alignment);
    wordIndex + wa - (wordIndex + wa) % wa
  }

  predicate Aligned(position: nat, alignment: nat) {
    alignment > 0 && position % alignment == 0
  }

  /** Only words whose first slot is aligned can start a block aligned to more than a word. */
  predicate CanStartIn(alignment: nat, wordIndex: nat) {
    alignment > 64 ==> Aligned(64 * wordIndex, alignment)
  }

  lemma NextWordCanStart(alignment: nat, wordIndex: nat)
    requires IsPowerOfTwo(alignment)
    ensures CanStartIn(alignment, NextWord(alignment, wordIndex))
  {
    hide IsPowerOfTwo;
    if alignment > 64 {
      WholeWords(alignment);
      WholeSteps(wordIndex + WordAlignment(alignment), WordAlignment(alignment), alignment);
    }
  }

  lemma {:induction false} WholeWords(alignment: nat)
    requires IsPowerOfTwo(alignment) && 64 < alignment
    ensures alignment == 64 * WordAlignment(alignment)
  {
    PowerOfTwoAgainst64(alignment);
  }

  lemma SkippedWord(alignment: nat, w: nat, v: nat)
    requires alignment > 64 && alignment == 64 * WordAlignment(alignment)
    requires w < v < NextWord(alignment, w)
    ensures !CanStartIn(alignment, v)
  {
    var wa, next := WordAlignment(alignment), NextWord(alignment, w);
    if Aligned(64 * v, alignment) {
      var q, r := (64 * v) / alignment, (w + wa) / wa;
      assert 64 * v == alignment * q == 64 * (wa * q);
      assert next == wa * r;
      assert wa * q < wa * r;
      assert q < r by { if q >= r { MulMono(wa, r, q); } }
      assert wa * (q + 1) == v + wa;
      MulMono(wa, q + 1, r);
    }
  }

  lemma MulMono(a: nat, x: nat, y: nat)
    requires x <= y
    ensures a * x <= a * y
  {
  }

  /** The next word tried is the first one behind `wordIndex` in which an aligned block can start. */
  lemma NextWordIsLeast(alignment: nat, wordIndex: nat)
    requires IsPowerOfTwo(alignment)
    ensures CanStartIn(alignment, NextWord(alignment, wordIndex))
    ensures forall v :: wordIndex < v < NextWord(alignment, wordIndex) ==> !CanStartIn(alignment, v)
  {
    hide CanStartIn, IsPowerOfTwo;
    NextWordCanStart(alignment, wordIndex);
    if alignment > 64 {
      WholeWords(alignment);
      forall v | wordIndex < v < NextWord(alignment, wordIndex) ensures !CanStartIn(alignment, v) {
        SkippedWord(alignment, wordIndex, v);
      }
    }
  }

  /** Rounding down to a multiple of `wa` words gives a multiple of `64 * wa` slots. */
  lemma WholeSteps(x: nat, wa: nat, alignment: nat)
    requires wa > 0 && alignment == 64 * wa
    ensures (64 * (x - x % wa)) % alignment == 0
  {
    var q := x / wa;
    assert x - x % wa == wa * q;
    assert 64 * (wa * q) == alignment * q;
    MultipleMod(q, alignment);
  }

  lemma HintCanStart(alignment: nat, hint: nat)
    requires IsPowerOfTwo(alignment) && Aligned(hint, alignment)
    ensures CanStartIn(alignment, hint / 64)
  {
    if alignment > 64 {
      PowerOfTwoAgainst64(alignment);
      var wa, q := alignment / 64, hint / alignment;
      assert hint == alignment * q == 64 * (wa * q);
    }
  }

  /** A position is aligned exactly when its word can start a block and its bit is aligned. */
  lemma AlignedPosition(alignment: nat, w: nat, b: nat)
    requires IsPowerOfTwo(alignment) && b < 64
    ensures Aligned(64 * w + b, alignment) <==> CanStartIn(alignment, w) && Aligned(b, alignment)
  {
    PowerOfTwoAgainst64(alignment);
    hide IsPowerOfTwo;
    if alignment > 64 {
      var wa := alignment / 64;
      assert alignment == 64 * wa;
      WideAlignment(wa, w, b);
    } else {
      NarrowAlignment(alignment, 64 / alignment, w, b);
    }
  }

  lemma NarrowAlignment(alignment: nat, k: nat, w: nat, b: nat)
    requires alignment > 0 && 64 == alignment * k
    ensures (64 * w + b) % alignment == b % alignment
  {
    assert 64 * w == alignment * (k * w);
    ModUnique(64 * w + b, alignment, k * w + b / alignment, b % alignment);
  }

  lemma WideAlignment(wa: nat, w: nat, b: nat)
    requires wa > 0 && b < 64
    ensures (64 * w + b) % (64 * wa) == (64 * w) % (64 * wa) + b
    ensures b % (64 * wa) == b
  {
    var q := w / wa;
    assert w == wa * q + w % wa;
    assert 64 * w == (64 * wa) * q + 64 * (w % wa);
    ModUnique(64 * w, 64 * wa, q, 64 * (w % wa));
    ModUnique(64 * w + b, 64 * wa, q, 64 * (w % wa) + b);
    ModUnique(b, 64 * wa, 0, b);
  }
}
