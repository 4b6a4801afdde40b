/** Unsigned 64-bit words as vectors of 64 bits, with the C++ operators the
    allocator uses. Bit `i` of the word is element `i` of the sequence. */
module Bits {

  type Bits64 = s: seq<bool> | |s| == 64 witness seq(64, _ => false)

  /** `0` */
  function Zeros(): (r: Bits64)
    ensures forall i :: 0 <= i < 64 ==> !r[i]
  {
    seq(64, _ => false)
  }

  /** `UINT64_MAX` */
  function Ones(): (r: Bits64)
    ensures forall i :: 0 <= i < 64 ==> r[i]
  {
    seq(64, _ => true)
  }

  /** `INT64_MAX`: every bit but the sign bit */
  function SignedMax(): (r: Bits64)
    ensures forall i :: 0 <= i < 64 ==> r[i] == (i < 63)
  {
    seq(64, i => i < 63)
  }

  function Or(a: Bits64, b: Bits64): (r: Bits64)
    ensures forall i :: 0 <= i < 64 ==> r[i] == (a[i] || b[i])
  {
    seq(64, i requires 0 <= i < 64 => a[i] || b[i])
  }

  function And(a: Bits64, b: Bits64): (r: Bits64)
    ensures forall i :: 0 <= i < 64 ==> r[i] == (a[i] && b[i])
  {
    seq(64, i requires 0 <= i < 64 => a[i] && b[i])
  }

  function Xor(a: Bits64, b: Bits64): (r: Bits64)
    ensures forall i :: 0 <= i < 64 ==> r[i] == (a[i] != b[i])
  {
    seq(64, i requires 0 <= i < 64 => a[i] != b[i])
  }

  function Not(a: Bits64): (r: Bits64)
    ensures forall i :: 0 <= i < 64 ==> r[i] == !a[i]
  {
    seq(64, i requires 0 <= i < 64 => !a[i])
  }

  /** `1ull << n` */
  function Single(n: nat): (r: Bits64)
    ensures forall i :: 0 <= i < 64 ==> r[i] == (i == n)
  {
    seq(64, i requires 0 <= i < 64 => i == n)
  }

  /** `a << n`. Like the AArch64 shift instructions, only `n % 64` counts. */
  function Shl(a: Bits64, n: nat): (r: Bits64)
    ensures forall i :: 0 <= i < 64 ==> r[i] == (n % 64 <= i && a[i - n % 64])
  {
    seq(64, i requires 0 <= i < 64 => n % 64 <= i && a[i - n % 64])
  }

  /** `a >> n`, with the shift amount taken modulo 64 in the same way. */
  function Shr(a: Bits64, n: nat): (r: Bits64)
    ensures forall i :: 0 <= i < 64 ==> r[i] == (i + n % 64 < 64 && a[i + n % 64])
  {
    seq(64, i requires 0 <= i < 64 => i + n % 64 < 64 && a[i + n % 64])
  }

  /** The length of the run of bits equal to `v` that starts at `i`. */
  function RunFrom(a: Bits64, v: bool, i: nat): (r: nat)
    requires i <= 64
    ensures i + r <= 64
    ensures forall k :: i <= k < i + r ==> a[k] == v
    ensures i + r < 64 ==> a[i + r] != v
    decreases 64 - i
  {
    if i < 64 && a[i] == v then 1 + RunFrom(a, v, i + 1) else 0
  }

  /** `std::countr_one` */
  function CountrOne(a: Bits64): (r: nat)
    ensures r <= 64
    ensures forall k :: 0 <= k < r ==> a[k]
    ensures r < 64 ==> !a[r]
  {
    RunFrom(a, true, 0)
  }

  /** `std::countr_zero` */
  function CountrZero(a: Bits64): (r: nat)
    ensures r <= 64
    ensures forall k :: 0 <= k < r ==> !a[k]
    ensures r < 64 ==> a[r]
  {
    RunFrom(a, false, 0)
  }

  /** A power of two, as the test `n & (n - 1)` recognises it. */
  predicate IsPowerOfTwo(n: nat): (r: bool)
    ensures r ==> 1 <= n
  {
    n == 1 || (n > 1 && n % 2 == 0 && IsPowerOfTwo(n / 2))
  }

  /** 2^k */
  function Power(k: nat): nat { if k == 0 then 1 else 2 * Power(k - 1) }

  ghost predicate SomePower(n: nat) { exists k: nat :: n == Power(k) }

  lemma {:induction false} PowerHalves(k: nat)
    ensures 1 <= Power(k) && (k > 0 ==> Power(k) % 2 == 0 && Power(k) / 2 == Power(k - 1) && 1 < Power(k))
  {
    if k > 0 { PowerHalves(k - 1); }
  }

  lemma OneIsPower()
    ensures SomePower(1)
  {
    assert Power(0) == 1;
  }

  /** The test accepts the powers of two, all of them and nothing else. */
  lemma {:induction false} PowerOfTwoIff(n: nat)
    ensures IsPowerOfTwo(n) <==> SomePower(n)
  {
    if n == 1 {
      assert n == Power(0);
    } else if n > 1 && n % 2 == 0 {
      PowerOfTwoIff(n / 2);
      if SomePower(n / 2) {
        var k: nat :| n / 2 == Power(k);
        assert n == Power(k + 1);
      }
      if SomePower(n) {
        var k: nat :| n == Power(k);
        PowerHalves(k);
        assert n / 2 == Power(k - 1);
      }
    } else if SomePower(n) {
      var k: nat :| n == Power(k);
      PowerHalves(k);
    }
  }

  /** Powers of two divide one another: against 64, either way round. */
  lemma {:induction false} PowerOfTwoAgainst64(n: nat)
    requires IsPowerOfTwo(n)
    ensures n <= 64 ==> n in {1, 2, 4, 8, 16, 32, 64}
    ensures 64 <= n ==> n % 64 == 0
  {
    if n > 1 {
      PowerOfTwoAgainst64(n / 2);
      assert n == 2 * (n / 2);
    }
  }
}
