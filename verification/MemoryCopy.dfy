/** Copying memory (src/Crt.cpp, lines 50-101). An address is an index of `mem`. */
module MemoryCopy {
  import opened Kernel

  /** `m` with the `n` bytes at `src` copied to `dest`, all at once. */
  function Copied(m: seq<Byte>, dest: nat, src: nat, n: nat): (r: seq<Byte>)
    requires dest + n <= |m| && src + n <= |m|
    ensures |r| == |m|
    ensures forall a :: 0 <= a < |m| ==> r[a] == if dest <= a < dest + n then m[a - dest + src] else m[a]
  {
    seq(|m|, a requires 0 <= a < |m| => if dest <= a < dest + n then m[a - dest + src] else m[a])
  }

  /** One more chunk copied forwards, when it does not read what was already written. */
  /** Byte by byte. */
  lemma CopiedByte(m: seq<Byte>, dest: nat, src: nat, n: nat, a: nat)
    requires dest + n <= |m| && src + n <= |m| && a < |m|
    ensures Copied(m, dest, src, n)[a] == if dest <= a < dest + n then m[src + (a - dest)] else m[a]
  {
  }

  lemma CopyOn(m: seq<Byte>, dest: nat, src: nat, i: nat, k: nat)
    requires dest + i + k <= |m| && src + i + k <= |m| && (dest <= src || src + i + k <= dest)
    ensures Copied(Copied(m, dest, src, i), dest + i, src + i, k) == Copied(m, dest, src, i + k)
  {
    var x := Copied(m, dest, src, i);
    var y, z := Copied(x, dest + i, src + i, k), Copied(m, dest, src, i + k);
    assert forall a :: 0 <= a < |m| ==> y[a] == z[a];
  }

  method MoveByte(mem: array<Byte>, d: nat, s: nat)
    requires d < mem.Length && s < mem.Length
    modifies mem
    ensures mem[..] == Copied(old(mem[..]), d, s, 1)
  {
    mem[d] := mem[s];
  }

  /** One 8-byte move: the whole source is read before anything is written. */
  method MoveQword(mem: array<Byte>, d: nat, s: nat)
    requires d + 8 <= mem.Length && s + 8 <= mem.Length
    modifies mem
    ensures mem[..] == Copied(old(mem[..]), d, s, 8)
  {
    var q := mem[s..s + 8];
    for i := 0 to 8
      invariant forall a :: 0 <= a < mem.Length ==> mem[a] == if d <= a < d + i then q[a - d] else old(mem[a])
    {
      mem[d + i] := q[i];
    }
  }

  /** Bytes up to a count taken from the address, then 8 at a time, then the rest: right for
      regions that do not overlap and for a destination below its source. */
  method Memcpy(mem: array<Byte>, dest: nat, src: nat, n: nat)
    requires dest + n <= mem.Length && src + n <= mem.Length
    requires dest <= src || src + n <= dest
    modifies mem
    ensures mem[..] == Copied(old(mem[..]), dest, src, n)
  {
    hide Copied;
    ghost var m := mem[..];
    var firstBytes := if dest % 8 > n then n else dest % 8;
    var i := 0;
    NothingCopied(m, dest, src);
    while i < firstBytes
      invariant i <= firstBytes <= n && mem[..] == Copied(m, dest, src, i)
    {
      CopyOn(m, dest, src, i, 1);
      MoveByte(mem, dest + i, src + i);
      i := i + 1;
    }
    var wholeQwords := (n - firstBytes) / 8;
    while wholeQwords > 0
      invariant 0 <= wholeQwords && i + 8 * wholeQwords <= n && mem[..] == Copied(m, dest, src, i)
    {
      CopyOn(m, dest, src, i, 8);
      MoveQword(mem, dest + i, src + i);
      i := i + 8;
      wholeQwords := wholeQwords - 1;
    }
    while i < n
      invariant i <= n && mem[..] == Copied(m, dest, src, i)
    {
      CopyOn(m, dest, src, i, 1);
      MoveByte(mem, dest + i, src + i);
      i := i + 1;
    }
  }

  lemma NothingCopied(m: seq<Byte>, dest: nat, src: nat)
    requires dest <= |m| && src <= |m|
    ensures Copied(m, dest, src, 0) == m
  {
  }

  /** `m` with the upper end of the region copied, from `d` on. */
  function CopiedFrom(m: seq<Byte>, dest: nat, src: nat, n: nat, d: nat): (r: seq<Byte>)
    requires dest <= d <= dest + n <= |m| && src + n <= |m|
    ensures |r| == |m|
  {
    m[..d] + m[d - dest + src..src + n] + m[dest + n..]
  }

  lemma CopyBack(m: seq<Byte>, dest: nat, src: nat, n: nat, d: nat)
    requires dest < d <= dest + n <= |m| && src <= dest
    ensures var s := d - dest + src; var r := CopiedFrom(m, dest, src, n, d);
      r[d - 1 := r[s - 1]] == CopiedFrom(m, dest, src, n, d - 1)
  {
  }

  lemma CopyBackEnds(m: seq<Byte>, dest: nat, src: nat, n: nat)
    requires dest + n <= |m| && src + n <= |m|
    ensures CopiedFrom(m, dest, src, n, dest + n) == m && CopiedFrom(m, dest, src, n, dest) == Copied(m, dest, src, n)
  {
  }

  /** Right for every overlap. */
  method Memmove(mem: array<Byte>, dest: nat, src: nat, n: nat)
    requires dest + n <= mem.Length && src + n <= mem.Length
    modifies mem
    ensures mem[..] == Copied(old(mem[..]), dest, src, n)
  {
    hide Copied, CopiedFrom;
    if dest < src || dest >= src + n {
      Memcpy(mem, dest, src, n);
    } else {
      ghost var m := mem[..];
      CopyBackEnds(m, dest, src, n);
      var d, s := dest + n, src + n;
      while d > dest
        invariant dest <= d <= dest + n && s == d - dest + src
        invariant mem[..] == CopiedFrom(m, dest, src, n, d)
      {
        CopyBack(m, dest, src, n, d);
        d, s := d - 1, s - 1;
        mem[d] := mem[s];
      }
    }
  }
}
