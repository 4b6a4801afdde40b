/** Searching a 64-bit word for a run of clear bits: src/Containers.h, lines 50-135. */
module ZeroRuns {
  import opened Arith
  import opened Bits
  import opened Kernel

  /** Bits `p .. p + n` of the zero-extended word are all clear. */
  predicate ZerosAt(data: Bits64, n: nat, p: nat) {
    forall k :: p <= k < p + n && k < 64 ==> !data[k]
  }

  predicate FitsAt(data: Bits64, n: nat, alignment: nat, p: nat)
    requires alignment > 0
  {
    p % alignment == 0 && ZerosAt(data, n, p)
  }

  /** The reference search: the least fitting position of the word from `from` on, else 64. */
  function FirstFit(data: Bits64, n: nat, alignment: nat, from: nat): (r: nat)
    requires alignment > 0 && from <= 64
    ensures from <= r <= 64
    ensures r < 64 ==> FitsAt(data, n, alignment, r)
    ensures forall p :: from <= p < r ==> !FitsAt(data, n, alignment, p)
    decreases 64 - from
  {
    if from == 64 || FitsAt(data, n, alignment, from) then from
    else FirstFit(data, n, alignment, from + 1)
  }

  /** No position below `pos` fits. */
  ghost predicate Passed(data: Bits64, n: nat, alignment: nat, pos: nat)
    requires alignment > 0
  {
    forall p :: 0 <= p < pos && p < 64 ==> !FitsAt(data, n, alignment, p)
  }

  /** A position that fits with nothing fitting before it is the one the reference search finds. */
  lemma FirstFitUnique(data: Bits64, n: nat, alignment: nat, p: nat)
    requires alignment > 0 && p <= 64 && Passed(data, n, alignment, p)
    requires p < 64 ==> FitsAt(data, n, alignment, p)
    ensures FirstFit(data, n, alignment, 0) == p
  {
    var r := FirstFit(data, n, alignment, 0);
    assert r < 64 ==> FitsAt(data, n, alignment, r);
  }

  /** With `mask` the low `n` bits, `((data >> pos) & mask) == 0` tests for a run of zeros at
      `pos`. A run of 64 or more only has to reach the end of the word. */
  lemma MaskTest(data: Bits64, n: nat, pos: nat)
    requires 0 < n && pos < 64
    ensures And(Shr(data, pos), Shr(Ones(), 64 - Clamp(n))) == Zeros() <==> ZerosAt(data, n, pos)
  {
    var x := And(Shr(data, pos), Shr(Ones(), 64 - Clamp(n)));
    assert forall i :: 0 <= i < 64 ==> x[i] == (i < n && i + pos < 64 && data[i + pos]);
    if x == Zeros() {
      forall k | pos <= k < pos + n && k < 64 ensures !data[k] {
        assert !x[k - pos];
      }
    }
  }

  function Clamp(n: nat): (r: nat)
    ensures r <= 64 && (n <= 64 ==> r == n) && (0 < n ==> 0 < r)
  {
    if n > 64 then 64 else n
  }

  /** Trailing counts of a shifted word, as runs of the word itself. */
  lemma ShiftedRuns(data: Bits64, pos: nat)
    requires pos < 64
    ensures var ones := CountrOne(Shr(data, pos));
            pos + ones <= 64
            && (forall k :: pos <= k < pos + ones ==> data[k])
            && (pos + ones < 64 ==> !data[pos + ones])
    ensures var zeros := CountrZero(Shr(data, pos));
            (forall k :: pos <= k < pos + zeros && k < 64 ==> !data[k])
            && (pos + zeros < 64 ==> data[pos + zeros])
  {
    var d := Shr(data, pos);
    assert forall k :: pos <= k < 64 ==> d[k - pos] == data[k];
    if pos > 0 {
      assert !d[64 - pos];
    }
  }

  /** Skipping ones and then rounding up to the alignment passes over no fit. */
  lemma SkipOnes(data: Bits64, n: nat, alignment: nat, pos: nat)
    requires 0 < n && 0 < alignment && pos < 64 && Passed(data, n, alignment, pos)
    ensures var next := pos + CountrOne(Shr(data, pos));
            next <= 64 && (data[pos] ==> pos < next) && Passed(data, n, alignment, AlignUp(next, alignment))
  {
    ShiftedRuns(data, pos);
    var next := pos + CountrOne(Shr(data, pos));
    forall p | pos <= p < AlignUp(next, alignment) && p < 64 ensures !FitsAt(data, n, alignment, p) {
      if p < next {
        assert data[p];
      }
    }
  }

  /** Skipping a run of zeros that is too short passes over no fit and stops at a one. */
  lemma SkipZeros(data: Bits64, n: nat, alignment: nat, pos: nat)
    requires 0 < n && 0 < alignment && pos < 64 && Passed(data, n, alignment, pos) && !ZerosAt(data, n, pos)
    ensures var stop := pos + CountrZero(Shr(data, pos));
            stop < 64 && data[stop] && Passed(data, n, alignment, stop)
  {
    var stop := pos + CountrZero(Shr(data, pos));
    ShiftedRuns(data, pos);
    var k :| pos <= k < pos + n && k < 64 && data[k];
    forall p | pos <= p < stop ensures !FitsAt(data, n, alignment, p) {
      assert p <= stop < p + n && data[stop];
    }
  }

  lemma NothingPassed(data: Bits64, n: nat, alignment: nat)
    requires 0 < alignment
    ensures Passed(data, n, alignment, 0)
  {
  }

  lemma StartAfterOnes(data: Bits64, n: nat)
    requires 0 < n
    ensures Passed(data, n, 1, CountrOne(data))
    ensures CountrOne(data) == 64 ==> data == Ones()
  {
    assert Shr(data, 0) == data;
    SkipOnes(data, n, 1, 0);
  }

  /** On a word without zeros the search starts at 64, where the shift amount wraps to 0. */
  lemma FullWordTest(data: Bits64, n: nat)
    requires 0 < n && data == Ones()
    ensures And(Shr(data, 64), Shr(Ones(), 64 - Clamp(n))) != Zeros()
    ensures CountrZero(Shr(data, 64)) == 0 && CountrOne(Shr(data, 64)) == 64
  {
    assert Shr(data, 64) == Ones();
    assert And(Ones(), Shr(Ones(), 64 - Clamp(n)))[0];
    assert Ones()[CountrZero(Ones())];
  }

  method FindConsecutiveZeros(data: Bits64, N: nat) returns (pos: nat)
    ensures pos == FirstFit(data, N, 1, 0)
  {
    hide *;
    if N == 0 {
      FirstFitUnique(data, 0, 1, 0);
      return 0;
    }
    var highestPos := 64 - Clamp(N);
    var mask := Shr(Ones(), highestPos);

    StartAfterOnes(data, N);
    pos := CountrOne(data);
    while true
      invariant pos <= 64
      invariant pos == 64 ==> data == Ones()
      invariant Passed(data, N, 1, pos)
      decreases 64 - pos
    {
      var datamask := Shr(data, pos);
      if pos == 64 {
        FullWordTest(data, N);
      } else {
        MaskTest(data, N, pos);
      }
      if And(datamask, mask) == Zeros() {
        FirstFitUnique(data, N, 1, pos);
        return;
      }
      if pos < 64 {
        SkipZeros(data, N, 1, pos);
        SkipOnes(data, N, 1, pos + CountrZero(Shr(data, pos)));
      }
      pos := pos + CountrZero(Shr(data, pos));
      pos := pos + CountrOne(Shr(data, pos));
      if pos >= 64 {
        FirstFitUnique(data, N, 1, 64);
        return 64;
      }
    }
  }

  method FindConsecutiveZerosAligned(data: Bits64, N: nat, alignment: nat) returns (r: Outcome<nat>)
    ensures N > 0 && alignment > 1 && !SomePower(alignment) ==> r == Panics
    ensures N == 0 || alignment <= 1 || SomePower(alignment) ==>
              r == Returns(FirstFit(data, N, if alignment == 0 then 1 else alignment, 0))
  {
    hide *;
    if N == 0 {
      FirstFitUnique(data, 0, if alignment == 0 then 1 else alignment, 0);
      return Returns(0);
    }
    if alignment <= 1 {
      var p := FindConsecutiveZeros(data, N);
      return Returns(p);
    }
    PowerOfTwoIff(alignment);
    if !IsPowerOfTwo(alignment) {
      return Panics;
    }
    var highestPos := 64 - Clamp(N);
    var mask := Shr(Ones(), highestPos);

    var pos := 0;
    NothingPassed(data, N, alignment);
    while true
      invariant pos < 64 && Passed(data, N, alignment, pos)
      invariant pos > 0 ==> data[pos]
      decreases 64 - pos
    {
      SkipOnes(data, N, alignment, pos);
      pos := pos + CountrOne(Shr(data, pos));
      pos := AlignUp(pos, alignment);
      if pos >= 64 {
        FirstFitUnique(data, N, alignment, 64);
        return Returns(64);
      }
      MaskTest(data, N, pos);
      var datamask := Shr(data, pos);
      if And(datamask, mask) == Zeros() {
        FirstFitUnique(data, N, alignment, pos);
        return Returns(pos);
      }
      SkipZeros(data, N, alignment, pos);
      pos := pos + CountrZero(Shr(data, pos));
    }
  }
}
