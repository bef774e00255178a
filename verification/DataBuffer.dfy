/** The growable byte buffer: capacity policy, splice in place, growth cost. */
module DataCapacity {

  function Pow2(k: nat): (r: nat)
    ensures r >= 1
  {
    if k == 0 then 1 else 2 * Pow2(k - 1)
  }

  // Index of the highest set bit, counted from 1.
  function Flsl(n: nat): nat {
    if n == 0 then 0 else 1 + Flsl(n / 2)
  }

  const ChunkSize := 0x2000_0000
  const LowThreshold := 0x10_0000
  const HighThreshold := 0x1_0000_0000
  const DataMaxSize := 0x3ff_ffff_ffff

  function Min(a: int, b: int): int { if a < b then a else b }

  function RoundUpCapacity(capacity: int): int {
    if capacity < 16 then 16
    else if capacity < LowThreshold then
      var idx := Flsl(capacity);
      Pow2(idx + if idx % 2 == 0 then 0 else 1)
    else if capacity < HighThreshold then
      Pow2(Flsl(capacity))
    else
      Min(ChunkSize * (1 + capacity / Pow2(Flsl(ChunkSize) - 1)), DataMaxSize)
  }

  lemma {:induction false} FlslBounds(n: nat)
    requires n > 0
    ensures Flsl(n) >= 1 && Pow2(Flsl(n) - 1) <= n < Pow2(Flsl(n))
  {
    if n > 1 {
      FlslBounds(n / 2);
      assert Pow2(Flsl(n) - 1) == 2 * Pow2(Flsl(n / 2) - 1);
    }
  }

  lemma {:induction false} Pow2Mono(a: nat, b: nat)
    requires a <= b
    ensures Pow2(a) <= Pow2(b)
    ensures a < b ==> 2 * Pow2(a) <= Pow2(b)
    decreases b
  {
    if a < b {
      Pow2Mono(a, b - 1);
    }
  }

  lemma Pow2Less(a: nat, b: nat)
    requires Pow2(a) < Pow2(b)
    ensures a < b
  {
    if b <= a {
      Pow2Mono(b, a);
    }
  }

  lemma {:induction false} FlslMono(a: nat, b: nat)
    requires a <= b
    ensures Flsl(a) <= Flsl(b)
  {
    if 0 < a {
      FlslMono(a / 2, b / 2);
    }
  }

  lemma Powers()
    ensures Pow2(4) == 16 && Pow2(20) == LowThreshold && Pow2(29) == ChunkSize && Pow2(32) == HighThreshold
    ensures Pow2(42) - 1 == DataMaxSize
  {
    assert Pow2(8) == 16 * Pow2(4);
    assert Pow2(12) == 16 * Pow2(8);
    assert Pow2(16) == 16 * Pow2(12);
    assert Pow2(20) == 16 * Pow2(16);
    assert Pow2(24) == 16 * Pow2(20);
    assert Pow2(28) == 16 * Pow2(24);
    assert Pow2(32) == 16 * Pow2(28);
    assert Pow2(36) == 16 * Pow2(32);
    assert Pow2(40) == 16 * Pow2(36);
    assert Pow2(42) == 4 * Pow2(40);
  }

  // The highest bit of a number between two powers of two.
  lemma FlslRange(n: nat, lo: nat, hi: nat)
    requires Pow2(lo) <= n < Pow2(hi)
    ensures lo < Flsl(n) <= hi
  {
    FlslBounds(n);
    Pow2Less(lo, Flsl(n));
    Pow2Less(Flsl(n) - 1, hi);
  }

  lemma ChunkShift()
    ensures Flsl(ChunkSize) == 30 && Pow2(Flsl(ChunkSize) - 1) == ChunkSize
  {
    Powers();
    assert Pow2(30) == 2 * Pow2(29);
    FlslRange(ChunkSize, 29, 30);
  }

  // The three regimes: enough room, at most 4x, 2x, or one chunk more than asked for.
  lemma CapacityRegimes(c: int)
    ensures c <= DataMaxSize ==> RoundUpCapacity(c) >= c
    ensures RoundUpCapacity(c) >= 16
    ensures c < 16 ==> RoundUpCapacity(c) == 16
    ensures 16 <= c < LowThreshold ==> c < RoundUpCapacity(c) <= 4 * c
    ensures LowThreshold <= c < HighThreshold ==> c < RoundUpCapacity(c) <= 2 * c
    ensures HighThreshold <= c ==> RoundUpCapacity(c) <= c + ChunkSize && RoundUpCapacity(c) <= DataMaxSize
    ensures 16 <= c < HighThreshold ==> exists k: nat :: k <= 32 && RoundUpCapacity(c) == Pow2(k)
  {
    Powers();
    ChunkShift();
    if 16 <= c < HighThreshold {
      FlslBounds(c);
      if c < LowThreshold {
        FlslRange(c, 4, 20);
        Pow2Mono(Flsl(c), Flsl(c) + 1);
      } else {
        FlslRange(c, 20, 32);
      }
    }
  }

  // ---------- the exact capacity ----------

  function Power(b: nat, k: nat): nat {
    if k == 0 then 1 else b * Power(b, k - 1)
  }

  // r is the least power of b above c.
  ghost predicate LeastPowerAbove(b: nat, c: int, r: int) {
    && c < r && (exists k: nat :: r == Power(b, k))
    && forall k: nat :: c < Power(b, k) ==> r <= Power(b, k)
  }

  // r is the least multiple of d above c.
  predicate LeastMultipleAbove(d: int, c: int, r: int)
    requires d > 0
  {
    r % d == 0 && r - d <= c < r
  }

  lemma {:induction false} PowerOfTwo(k: nat)
    ensures Power(2, k) == Pow2(k)
  {
    if k > 0 {
      PowerOfTwo(k - 1);
    }
  }

  lemma {:induction false} PowerOfFour(k: nat)
    ensures Power(4, k) == Pow2(2 * k)
  {
    if k > 0 {
      PowerOfFour(k - 1);
      assert Pow2(2 * k) == 2 * Pow2(2 * k - 1);
    }
  }

  // In the first regime the least power of four above the request, in the second the least
  // power of two, and then the least multiple of the chunk size, up to the maximum.
  lemma ExactCapacity(c: int)
    requires c >= 16
    ensures c < LowThreshold ==> LeastPowerAbove(4, c, RoundUpCapacity(c))
    ensures LowThreshold <= c < HighThreshold ==> LeastPowerAbove(2, c, RoundUpCapacity(c))
    ensures HighThreshold <= c ==>
              exists r :: LeastMultipleAbove(ChunkSize, c, r) && RoundUpCapacity(c) == if r <= DataMaxSize then r else DataMaxSize
  {
    hide Pow2, Flsl, Power;
    if c < HighThreshold {
      FlslBounds(c);
      var b := if c < LowThreshold then 2 else 1;
      var e := Flsl(c) + if b == 2 && Flsl(c) % 2 == 1 then 1 else 0;
      Pow2Mono(Flsl(c), e);
      PowerOfFour(e / 2);
      PowerOfTwo(e);
      forall k: nat | c < Power(2 * b, k) ensures Pow2(e) <= Power(2 * b, k) {
        PowerOfFour(k);
        PowerOfTwo(k);
        Pow2Less(Flsl(c) - 1, b * k);
        Pow2Mono(e, b * k);
      }
    } else {
      ChunkShift();
      assert LeastMultipleAbove(ChunkSize, c, ChunkSize * (1 + c / ChunkSize));
    }
  }

  lemma CapacityMonotone(a: int, b: int)
    requires a <= b
    ensures RoundUpCapacity(a) <= RoundUpCapacity(b)
  {
    hide Pow2, Flsl;
    Powers();
    ChunkShift();
    CapacityRegimes(a);
    CapacityRegimes(b);
    if 16 <= a {
      FlslMono(a, b);
      if b < LowThreshold {
        Pow2Mono(Flsl(a) + Flsl(a) % 2, Flsl(b) + Flsl(b) % 2);
      } else if a < LowThreshold {
        FlslRange(a, 4, 20);
        Pow2Mono(Flsl(a) + Flsl(a) % 2, 20);
      } else if b < HighThreshold {
        Pow2Mono(Flsl(a), Flsl(b));
      } else if a < HighThreshold {
        FlslRange(a, 20, 32);
        Pow2Mono(Flsl(a), 32);
      } else {
        assert a / ChunkSize <= b / ChunkSize;
      }
    }
  }

  // ---------- the cost of a run of appends ----------

  // Length, capacity, and the bytes that reallocations have moved so far.
  datatype Cost = Cost(length: nat, capacity: nat, moved: nat)

  function CapacityFor(capacity: nat, count: nat): nat {
    if capacity < count then RoundUpCapacity(count) else capacity
  }

  function Append(c: Cost, n: nat): Cost {
    Cost(c.length + n, CapacityFor(c.capacity, c.length + n),
         c.moved + if c.capacity < c.length + n then c.capacity else 0)
  }

  function Appends(c: Cost, ns: seq<nat>): Cost {
    if ns == [] then c else Append(Appends(c, ns[..|ns| - 1]), ns[|ns| - 1])
  }

  predicate CostInv(c: Cost) {
    && c.length <= c.capacity && c.moved <= c.capacity - 16
    && (c.moved == 0 || c.moved < 2 * c.length)
    && exists k: nat :: k <= 32 && c.capacity == Pow2(k)
  }

  // Growing beyond a power of two at least doubles it.
  lemma Doubles(i: nat, count: int) returns (j: nat)
    requires 16 <= Pow2(i) < count < HighThreshold
    ensures j <= 32 && RoundUpCapacity(count) == Pow2(j) >= 2 * Pow2(i)
  {
    hide Pow2, Flsl, RoundUpCapacity;
    CapacityRegimes(count);
    j :| j <= 32 && RoundUpCapacity(count) == Pow2(j);
    Pow2Less(i, j);
    Pow2Mono(i, j);
  }

  lemma AppendCost(c: Cost, n: nat)
    requires CostInv(c) && c.length + n < HighThreshold
    ensures CostInv(Append(c, n))
  {
    hide Pow2, Flsl, RoundUpCapacity;
    var count := c.length + n;
    if c.capacity < count {
      var i: nat :| i <= 32 && c.capacity == Pow2(i);
      var j := Doubles(i, count);
      CapacityRegimes(count);
    }
  }

  // From the default 16-byte buffer, any run of appends to a length n below 2^32 moves
  // fewer than 2n bytes.
  lemma {:induction false} AmortisedCost(ns: seq<nat>)
    requires Appends(Cost(0, 16, 0), ns).length < HighThreshold
    ensures var c := Appends(Cost(0, 16, 0), ns);
            CostInv(c) && (c.length > 0 ==> c.moved < 2 * c.length)
    decreases |ns|
  {
    if ns == [] {
      assert Pow2(4) == 16;
    } else {
      AmortisedCost(ns[..|ns| - 1]);
      AppendCost(Appends(Cost(0, 16, 0), ns[..|ns| - 1]), ns[|ns| - 1]);
    }
  }
}

module DataBuffer {
  import opened DataCapacity

  newtype byte = x: int | 0 <= x < 256

  // Replacing len bytes at loc by data.
  function Splice(s: seq<byte>, loc: nat, len: nat, data: seq<byte>): seq<byte>
    requires loc + len <= |s|
  {
    s[..loc] + data + s[loc + len..]
  }

  // memmove of data to position dst of a block of memory.
  function Write(mem: seq<byte>, dst: nat, data: seq<byte>): seq<byte>
    requires dst + |data| <= |mem|
  {
    mem[..dst] + data + mem[dst + |data|..]
  }

  lemma WriteNothing(mem: seq<byte>, dst: nat)
    requires dst <= |mem|
    ensures Write(mem, dst, []) == mem
  {
  }

  predicate ValidSplice(length: nat, loc: nat, len: nat, n: nat, capacity: nat) {
    loc + len <= length <= capacity && length - len + n <= capacity
  }

  // The memory after the tail has been moved to make room for n bytes.
  function Shifted(mem: seq<byte>, length: nat, loc: nat, len: nat, n: nat): (r: seq<byte>)
    requires ValidSplice(length, loc, len, n, |mem|)
    ensures |r| == |mem|
  {
    if n != len && loc + len < length then Write(mem, loc + n, mem[loc + len..length]) else mem
  }

  // The memory after the whole replacement without reallocation, when the source is
  // the n bytes at `off` of the buffer itself.
  function InPlace(mem: seq<byte>, length: nat, loc: nat, len: nat, off: nat, n: nat): (r: seq<byte>)
    requires ValidSplice(length, loc, len, n, |mem|) && off + n <= |mem|
    ensures |r| == |mem|
  {
    var shifted := Shifted(mem, length, loc, len, n);
    Write(shifted, loc, shifted[off..off + n])
  }

  // The source does not reach into the place that the tail moves to.
  predicate SourceStays(length: nat, loc: nat, len: nat, off: nat, n: nat) {
    || n == len || loc + len >= length          // no tail moves
    || off + n <= loc + n || length - len + n <= off || n == 0
  }

  lemma ShiftedIsSplice(mem: seq<byte>, length: nat, loc: nat, len: nat, data: seq<byte>)
    requires ValidSplice(length, loc, len, |data|, |mem|)
    ensures Write(Shifted(mem, length, loc, len, |data|), loc, data)[..length - len + |data|]
         == Splice(mem[..length], loc, len, data)
  {
    var n := |data|;
    var got := Write(Shifted(mem, length, loc, len, n), loc, data)[..length - len + n];
    var want := Splice(mem[..length], loc, len, data);
    assert |got| == |want|;
    forall i | 0 <= i < |want| ensures got[i] == want[i] {
      if i >= loc + n {
        assert want[i] == mem[i - n + len];
      }
    }
  }

  // A source inside the buffer is spliced correctly, whatever the buffer holds, if and
  // only if it does not reach into the place that the tail moves to.
  lemma AliasedSpliceIff(capacity: nat, length: nat, loc: nat, len: nat, off: nat, n: nat)
    requires ValidSplice(length, loc, len, n, capacity) && off + n <= capacity
    ensures SourceStays(length, loc, len, off, n)
       <==> forall mem: seq<byte> :: |mem| == capacity ==>
              InPlace(mem, length, loc, len, off, n)[..length - len + n]
              == Splice(mem[..length], loc, len, mem[off..off + n])
  {
    if SourceStays(length, loc, len, off, n) {
      forall mem: seq<byte> | |mem| == capacity
        ensures InPlace(mem, length, loc, len, off, n)[..length - len + n]
             == Splice(mem[..length], loc, len, mem[off..off + n])
      {
        AliasedSplice(mem, length, loc, len, off, n);
      }
    } else {
      var mem := AliasedWitness(capacity, length, loc, len, off, n);
      assert |mem| == capacity;
    }
  }

  // A buffer that shows the difference: one byte, where the source and the moved tail meet.
  lemma AliasedWitness(capacity: nat, length: nat, loc: nat, len: nat, off: nat, n: nat) returns (mem: seq<byte>)
    requires ValidSplice(length, loc, len, n, capacity) && off + n <= capacity
    requires !SourceStays(length, loc, len, off, n)
    ensures |mem| == capacity
    ensures InPlace(mem, length, loc, len, off, n)[..length - len + n]
         != Splice(mem[..length], loc, len, mem[off..off + n])
  {
    var p := if off < loc + n then loc + n else off;
    mem := seq(capacity, i => if i == p then 1 as byte else 0);
    var shifted := Shifted(mem, length, loc, len, n);
    var k := loc + p - off;
    assert shifted[p] == mem[p - n + len] == 0;
    assert InPlace(mem, length, loc, len, off, n)[k] == shifted[p];
    assert Splice(mem[..length], loc, len, mem[off..off + n])[k] == mem[p] == 1;
  }

  lemma AliasedSplice(mem: seq<byte>, length: nat, loc: nat, len: nat, off: nat, n: nat)
    requires ValidSplice(length, loc, len, n, |mem|) && off + n <= |mem| && SourceStays(length, loc, len, off, n)
    ensures InPlace(mem, length, loc, len, off, n)[..length - len + n]
         == Splice(mem[..length], loc, len, mem[off..off + n])
  {
    var shifted := Shifted(mem, length, loc, len, n);
    assert shifted[off..off + n] == mem[off..off + n];
    ShiftedIsSplice(mem, length, loc, len, mem[off..off + n]);
  }

  // For example, inserting the last two bytes of "abcd" after its first one.
  lemma AliasedInsertGoesWrong(a: byte, b: byte, c: byte, d: byte)
    ensures InPlace([a, b, c, d, 0, 0, 0, 0], 4, 1, 0, 2, 2)[..6] == [a, c, b, b, c, d]
    ensures Splice([a, b, c, d], 1, 0, [c, d]) == [a, c, d, b, c, d]
    ensures !SourceStays(4, 1, 0, 2, 2)
  {
    var mem := [a, b, c, d, 0, 0, 0, 0];
    assert mem[1..4] == [b, c, d];
    assert Shifted(mem, 4, 1, 0, 2) == [a, b, c, b, c, d, 0, 0];
    assert Shifted(mem, 4, 1, 0, 2)[2..4] == [c, b];
  }

  // The bytes around the gap, when nothing is written into it.
  lemma ShiftedKeeps(mem: seq<byte>, length: nat, loc: nat, len: nat, n: nat)
    requires ValidSplice(length, loc, len, n, |mem|)
    ensures var r := Shifted(mem, length, loc, len, n)[..length - len + n];
            r[..loc] == mem[..length][..loc] && r[loc + n..] == mem[..length][loc + len..]
  {
    var r := Shifted(mem, length, loc, len, n)[..length - len + n];
    var tail := r[loc + n..];
    forall i | 0 <= i < |tail| ensures tail[i] == mem[loc + len + i] {
    }
  }

  class Data {
    var bytes: array<byte>
    var length: nat
    var capacity: nat
    ghost var moved: nat      // bytes that reallocations have moved

    ghost predicate Valid()
      reads this
    {
      bytes.Length == capacity && length <= capacity
    }

    ghost function Contents(): seq<byte>
      requires Valid()
      reads this, bytes
    {
      bytes[..length]
    }

    // Data(): an empty buffer of 16 bytes
    constructor ()
      ensures Valid() && fresh(bytes) && Contents() == [] && capacity == 16 && moved == 0
    {
      bytes := new byte[16](_ => 0);
      length, capacity, moved := 0, 16, 0;
    }

    // Data(bytes, length, copy, freeWhenDone)
    constructor From(source: array?<byte>, n: nat, copy: bool)
      requires source != null ==> source.Length == n
      ensures Valid() && capacity == n && moved == 0
      ensures !copy && source != null ==> bytes == source && length == n
      ensures copy && source != null ==> fresh(bytes) && Contents() == source[..]
      ensures source == null ==> fresh(bytes) && length == 0 && forall i :: 0 <= i < n ==> bytes[i] == 0
    {
      var wrap := !copy && source != null;
      var block := new byte[n](_ => 0);
      bytes := if wrap then source else block;
      length, capacity, moved := if source != null then n else 0, n, 0;
      new;
      if source != null && !wrap {
        Memmove(bytes, 0, source, 0, n);
      }
    }

    // memmove: as if through a copy, so the ranges may overlap
    static method Memmove(target: array<byte>, dst: nat, source: array<byte>, src: nat, n: nat)
      requires dst + n <= target.Length && src + n <= source.Length
      modifies target
      ensures target[..] == Write(old(target[..]), dst, old(source[src..src + n]))
    {
      forall i | 0 <= i < n {
        target[dst + i] := source[src + i];
      }
    }

    // Data::__dataGrow without clearing; false where the original halts
    method Grow(more: int) returns (ok: bool)
      requires Valid() && length + more > capacity
      modifies this
      ensures Valid() && length == old(length)
      ensures ok <==> old(length) + more <= DataMaxSize
      ensures !ok ==> bytes == old(bytes) && capacity == old(capacity) && moved == old(moved)
      ensures ok ==> && fresh(bytes) && capacity == RoundUpCapacity(old(length) + more)
                     && capacity >= old(length) + more && moved == old(moved) + old(capacity)
                     && bytes[..old(capacity)] == old(bytes[..])
    {
      var newLength := length + more;
      if newLength > DataMaxSize {
        return false;
      }
      CapacityRegimes(newLength);
      var size: nat := RoundUpCapacity(newLength);
      var block := new byte[size];
      Memmove(block, 0, bytes, 0, capacity);
      moved := moved + capacity;
      capacity := size;
      bytes := block;
      return true;
    }

    // Data::replaceBytes: replace len bytes at loc by the n bytes at `off` of the source.
    // False, with nothing changed, where the original halts.
    method ReplaceBytes(loc: int, len: int, source: array?<byte>, off: nat, n: int) returns (ok: bool)
      requires Valid() && (source != null && n >= 0 ==> off + n <= source.Length)
      modifies this, bytes
      ensures Valid() && (bytes == old(bytes) || fresh(bytes))
      ensures ok <==> 0 <= loc <= loc + len <= old(length) && len >= 0 && n >= 0
                      && (old(length) - len + n <= old(capacity) || old(length) - len + n <= DataMaxSize)
      ensures !ok ==> Contents() == old(Contents()) && bytes == old(bytes) && capacity == old(capacity)
      ensures ok ==>
                && length == old(length) - len + n
                && capacity == CapacityFor(old(capacity), length)
                && moved == old(moved) + if old(capacity) < length then old(capacity) else 0
      // no source: the gap is not written
      ensures ok && source == null ==>
                Contents()[..loc] == old(Contents()[..loc]) && Contents()[loc + n..] == old(Contents()[loc + len..])
      // a source elsewhere, or a buffer that grows, or a source that stays where it is
      ensures ok && source != null
              && (source != old(bytes) || old(capacity) < length || SourceStays(old(length), loc, len, off, n)) ==>
                Contents() == Splice(old(Contents()), loc, len, old(source[off..off + n]))
      // any source in the buffer itself, without reallocation
      ensures ok && source == old(bytes) && length <= old(capacity) ==>
                bytes == old(bytes) && bytes[..] == InPlace(old(bytes[..]), old(length), loc, len, off, n)
    {
      hide Write, Shifted, InPlace, Splice, RoundUpCapacity;
      if !(0 <= loc <= length && 0 <= len && loc + len <= length) || n < 0 {
        return false;
      }
      var newCount := length - len + n;
      var from, start;
      ok, from, start := Reserve(newCount, source, off, n);
      if !ok {
        return;
      }
      ghost var mem := bytes[..];
      ghost var was := length;
      assert mem[..was] == old(bytes[..length]);
      if from == null {
        ShiftedKeeps(mem, was, loc, len, n);
      } else if from != bytes {
        ShiftedIsSplice(mem, was, loc, len, from[start..start + n]);
      } else if SourceStays(was, loc, len, start, n) {
        AliasedSplice(mem, was, loc, len, start, n);
      }
      Place(loc, len, from, start, n);
      length := newCount;
      return true;
    }

    // The growing part of replaceBytes: a source inside the buffer is saved first.  The bytes
    // to copy are then the n bytes at `start` of `from`.
    method Reserve(count: nat, source: array?<byte>, off: nat, n: nat) returns (ok: bool, from: array?<byte>, start: nat)
      requires Valid() && (source != null ==> off + n <= source.Length)
      modifies this
      ensures Valid() && length == old(length)
      ensures ok <==> count <= old(capacity) || count <= DataMaxSize
      ensures count <= old(capacity) || !ok ==> bytes == old(bytes) && capacity == old(capacity) && moved == old(moved)
      ensures count <= old(capacity) ==> from == source && start == off
      ensures old(capacity) < count && ok ==>
                && fresh(bytes) && capacity == RoundUpCapacity(count) >= count && moved == old(moved) + old(capacity)
                && bytes[..old(capacity)] == old(bytes[..]) && from != bytes && (from == null <==> source == null)
      ensures ok && from != null ==> start + n <= from.Length && from[start..start + n] == old(source[off..off + n])
    {
      from, start, ok := source, off, true;
      if capacity < count {
        if source == bytes && off < capacity && 0 < off + n {
          var saved := new byte[n];
          Memmove(saved, 0, source, off, n);
          from, start := saved, 0;
        }
        ok := Grow(count - length);
      }
    }

    // The two memmoves of replaceBytes
    method Place(loc: nat, len: nat, from: array?<byte>, start: nat, n: nat)
      requires Valid() && ValidSplice(length, loc, len, n, capacity)
      requires from != null ==> start + n <= from.Length
      modifies bytes
      ensures from == null ==> bytes[..] == Shifted(old(bytes[..]), length, loc, len, n)
      ensures from == bytes ==> bytes[..] == InPlace(old(bytes[..]), length, loc, len, start, n)
      ensures from != null && from != bytes ==>
                bytes[..] == Write(Shifted(old(bytes[..]), length, loc, len, n), loc, old(from[start..start + n]))
    {
      hide Write;
      ghost var mem := bytes[..];
      if n != len && loc + len < length {
        Memmove(bytes, loc + n, bytes, loc + len, length - loc - len);
      }
      ghost var shifted := bytes[..];
      assert shifted == Shifted(mem, length, loc, len, n);
      WriteNothing(shifted, loc);
      assert from == bytes && n == 0 ==> shifted[start..start + n] == [];
      assert from != null && n == 0 ==> old(from[start..start + n]) == [];
      if 0 < n && from != null {
        Memmove(bytes, loc, from, start, n);
      }
    }

    // Data::appendData(const Data &)
    method AppendData(other: Data) returns (ok: bool)
      requires Valid() && other.Valid()
      modifies this, bytes
      ensures Valid()
      ensures ok <==> old(length) + old(other.length) <= old(capacity) || old(length) + old(other.length) <= DataMaxSize
      ensures ok ==> Contents() == old(Contents()) + old(other.Contents())
    {
      ok := ReplaceBytes(length, 0, other.bytes, 0, other.length);
    }

    // Data::deleteBytes
    method DeleteBytes(loc: int, len: int) returns (ok: bool)
      requires Valid()
      modifies this, bytes
      ensures Valid()
      ensures ok <==> 0 <= loc <= loc + len <= old(length) && len >= 0
      ensures ok ==> Contents() == old(Contents()[..loc] + Contents()[loc + len..])
    {
      ok := ReplaceBytes(loc, len, null, 0, 0);
    }
  }
}
