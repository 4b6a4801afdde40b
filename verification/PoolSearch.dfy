/** First fit over the whole pool: the facts behind the search loop of `AllocateInternal`
    (src/Containers.h, lines 209-295). */
module PoolSearch {
  import opened Bits
  import opened PoolWords
  import opened ZeroRuns

  /** `count` slots from `p` on are all free. */
  ghost predicate Fits(ws: seq<Word>, p: nat, count: nat) {
    p + count <= 64 * |ws| && forall g :: p <= g < p + count ==> !Used(ws, g)
  }

  /** No aligned position in `lo .. hi` fits. */
  ghost predicate NoFit(ws: seq<Word>, count: nat, alignment: nat, lo: nat, hi: nat) {
    forall p: nat :: lo <= p < hi && Aligned(p, alignment) ==> !Fits(ws, p, count)
  }

  /** A word whose own search fails starts no block; otherwise none starts before the bit found. */
  lemma NoFitBefore(ws: seq<Word>, count: nat, alignment: nat, w: nat, b: nat)
    requires w < |ws| && IsPowerOfTwo(alignment) && b == FirstFit(ws[w].bitmap, count, alignment, 0)
    ensures NoFit(ws, count, alignment, 64 * w, 64 * w + b)
  {
    hide IsPowerOfTwo, Fits, ZerosAt;
    forall p: nat | 64 * w <= p < 64 * w + b && Aligned(p, alignment) ensures !Fits(ws, p, count) {
      var k := p - 64 * w;
      AlignedPosition(alignment, w, k);
      assert !FitsAt(ws[w].bitmap, count, alignment, k);
      UsedInside(ws, count, w, k);
    }
  }

  lemma UsedInside(ws: seq<Word>, count: nat, w: nat, k: nat)
    requires w < |ws| && k < 64 && !ZerosAt(ws[w].bitmap, count, k)
    ensures !Fits(ws, 64 * w + k, count)
  {
    var j :| k <= j < k + count && j < 64 && ws[w].bitmap[j];
    assert (64 * w + j) / 64 == w && (64 * w + j) % 64 == j;
    assert Used(ws, 64 * w + j);
  }

  lemma NoFitInFullWord(ws: seq<Word>, count: nat, alignment: nat, w: nat)
    requires w < |ws| && 0 < count && ws[w].bitmap == Ones()
    ensures NoFit(ws, count, alignment, 64 * w, 64 * (w + 1))
  {
    forall p: nat | 64 * w <= p < 64 * (w + 1) ensures !Fits(ws, p, count) {
      assert Used(ws, p);
    }
  }

  /** The words between `w` and the next one tried start no aligned block. */
  lemma NoFitInSkippedWords(ws: seq<Word>, count: nat, alignment: nat, w: nat)
    requires IsPowerOfTwo(alignment)
    ensures NoFit(ws, count, alignment, 64 * (w + 1), 64 * NextWord(alignment, w))
  {
    assert alignment <= 64 ==> NextWord(alignment, w) == w + 1;
    forall p: nat | 64 * (w + 1) <= p < 64 * NextWord(alignment, w) ensures !Aligned(p, alignment) {
      var v, k := p / 64, p % 64;
      assert p == 64 * v + k && w < v < NextWord(alignment, w);
      AlignedPosition(alignment, v, k);
      if alignment > 64 {
        WholeWords(alignment);
        SkippedWord(alignment, w, v);
      }
    }
  }

  /** A slot in use blocks every start it lies behind by less than `count`. */
  lemma NoFitAcross(ws: seq<Word>, count: nat, alignment: nat, lo: nat, hi: nat, g: nat)
    requires g < 64 * |ws| && Used(ws, g) && hi <= g + 1 && g < lo + count
    ensures NoFit(ws, count, alignment, lo, hi)
  {
    forall p: nat | lo <= p < hi ensures !Fits(ws, p, count) {
      assert p <= g < p + count;
    }
  }

  /** No aligned position from `lo` on fits. */
  ghost predicate NoFitFrom(ws: seq<Word>, count: nat, alignment: nat, lo: nat) {
    forall p: nat :: lo <= p && Aligned(p, alignment) ==> !Fits(ws, p, count)
  }

  lemma NoFitAtEnd(ws: seq<Word>, count: nat, alignment: nat, lo: nat, mid: nat)
    requires NoFit(ws, count, alignment, lo, mid) && 64 * |ws| < mid + count
    ensures NoFitFrom(ws, count, alignment, lo)
  {
  }

  lemma NoFitExtend(ws: seq<Word>, count: nat, alignment: nat, lo: nat, mid: nat)
    requires NoFit(ws, count, alignment, lo, mid) && NoFitFrom(ws, count, alignment, mid)
    ensures NoFitFrom(ws, count, alignment, lo)
  {
  }

  lemma NoFitNowhere(ws: seq<Word>, count: nat, alignment: nat, lo: nat)
    ensures NoFit(ws, count, alignment, lo, lo)
  {
  }

  /** `p` is the least aligned position from `lo` on that starts `count` free slots. */
  ghost predicate IsFirstFit(ws: seq<Word>, count: nat, alignment: nat, lo: nat, p: nat) {
    lo <= p && Aligned(p, alignment) && Fits(ws, p, count) && NoFit(ws, count, alignment, lo, p)
  }

  lemma NoFitJoin(ws: seq<Word>, count: nat, alignment: nat, lo: nat, mid: nat, hi: nat)
    requires NoFit(ws, count, alignment, lo, mid) && NoFit(ws, count, alignment, mid, hi)
    ensures NoFit(ws, count, alignment, lo, hi)
  {
  }

  /** The tail of word `w` from bit `b`, the whole words up to `next`, and `rest` slots of it. */
  ghost predicate FreeUpTo(ws: seq<Word>, w: nat, b: nat, next: nat) {
    && w < next <= |ws| && b < 64 && ZerosAt(ws[w].bitmap, 64, b)
    && forall v :: w < v < next ==> ws[v].bitmap == Zeros()
  }

  lemma PlanFitsThere(ws: seq<Word>, w: nat, b: nat, next: nat, rest: nat)
    requires FreeUpTo(ws, w, b, next) && rest < 64
    requires rest > 0 ==> next < |ws| && forall k :: 0 <= k < rest ==> !ws[next].bitmap[k]
    ensures Fits(ws, 64 * w + b, 64 * next + rest - (64 * w + b))
  {
    forall g | 64 * w + b <= g < 64 * next + rest ensures !Used(ws, g) {
      var v, k := g / 64, g % 64;
      assert g == 64 * v + k;
      if v == w {
        assert b <= k;
      } else if v < next {
        assert ws[v].bitmap == Zeros();
      }
    }
  }

  lemma SingleFitsThere(ws: seq<Word>, w: nat, b: nat, count: nat)
    requires w < |ws| && b + count <= 64 && ZerosAt(ws[w].bitmap, count, b)
    ensures Fits(ws, 64 * w + b, count)
  {
  }

  /** `(bitmap << (64 - rest)) != 0` finds a set bit among the low `rest`. */
  lemma LowBitsTest(x: Bits64, rest: nat)
    requires 0 < rest < 64
    ensures Shl(x, 64 - rest) == Zeros() <==> forall k :: 0 <= k < rest ==> !x[k]
  {
    var y := Shl(x, 64 - rest);
    assert forall k :: 0 <= k < rest ==> y[k + (64 - rest)] == x[k];
    if forall k :: 0 <= k < rest ==> !x[k] {
      assert forall j :: 0 <= j < 64 ==> !y[j];
      assert y == Zeros();
    }
  }
}
