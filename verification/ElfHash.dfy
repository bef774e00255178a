/** The byte-string hash: four bytes a turn, then a fall-through tail. */
module ElfHash {

  // A byte, widened as the arithmetic widens it.
  type Byte = b: bv32 | b <= 0xFF

  // One byte of the ELF hash, as the System V ABI gives it, in 32 bits: the top nibble g
  // of (h << 4) + b is folded in lower down and then cleared.
  function Step(h: bv32, b: bv32): bv32 {
    var t := (h << 4) + b;
    Mix(t, t & 0xF000_0000)
  }

  function Mix(t: bv32, g: bv32): bv32 {
    if g != 0 then (t ^ (g >> 24)) & !g else t & !g
  }

  // The hash one byte at a time.
  function Hash(bytes: seq<Byte>): bv32 {
    if bytes == [] then 0 else Step(Hash(bytes[..|bytes| - 1]), bytes[|bytes| - 1])
  }

  lemma StepClearsTop(h: bv32, b: bv32)
    ensures Step(h, b) & 0xF000_0000 == 0
  {
  }

  // Folding the top nibble in and clearing it commute with masking: the form in use since
  // the mask was made a constant.
  lemma StepMasked(h: bv32, b: bv32)
    ensures var t := (h << 4) + b; Step(h, b) == (t ^ ((t >> 24) & 0xF0)) & 0x0FFF_FFFF
  {
  }

  lemma {:induction false} TopNibbleIsZero(bytes: seq<Byte>)
    ensures Hash(bytes) & 0xF000_0000 == 0
  {
    if bytes != [] {
      StepClearsTop(Hash(bytes[..|bytes| - 1]), bytes[|bytes| - 1]);
    }
  }

  // The bytes as digits to base 16.
  function Weighted(bytes: seq<Byte>): bv32 {
    if bytes == [] then 0 else 16 * Weighted(bytes[..|bytes| - 1]) + bytes[|bytes| - 1]
  }

  lemma StepSmall(h: bv32, b: Byte)
    requires h <= 0xFF_FFEF
    ensures Step(h, b) == 16 * h + b
  {
  }

  // Up to five bytes nothing reaches the top nibble: the hash is the number that they write
  // to base 16.
  lemma {:induction false} ShortHash(bytes: seq<Byte>)
    requires |bytes| <= 5
    ensures Hash(bytes) == Weighted(bytes)
  {
    hide Step;
    if bytes != [] {
      var init := bytes[..|bytes| - 1];
      ShortHash(init);
      ShortBound(init);
      StepSmall(Hash(init), bytes[|bytes| - 1]);
    }
  }

  lemma {:induction false} ShortBound(bytes: seq<Byte>)
    requires |bytes| <= 4
    ensures Weighted(bytes) <= [0, 0xFF, 0x10EF, 0x1_0FEF, 0x10_FFEF][|bytes|]
  {
    if bytes != [] {
      var init := bytes[..|bytes| - 1];
      ShortBound(init);
      NextBound(Weighted(init), bytes[|bytes| - 1], |init|);
    }
  }

  lemma NextBound(w: bv32, b: Byte, n: nat)
    requires n <= 3 && w <= [0, 0xFF, 0x10EF, 0x1_0FEF][n]
    ensures 16 * w + b <= [0xFF, 0x10EF, 0x1_0FEF, 0x10_FFEF][n]
  {
    if n == 0 {
    } else if n == 1 {
      assert w <= 0xFF;
    } else if n == 2 {
      assert w <= 0x10EF;
    }
  }

  // The value for "printf", where the top nibble is folded in.
  lemma PrintfHash()
    ensures Hash([0x70, 0x72, 0x69, 0x6E, 0x74, 0x66]) == 0x0779_05A6
  {
    var s: seq<Byte> := [0x70, 0x72, 0x69, 0x6E, 0x74, 0x66];
    assert s[..6] == s && s[..0] == [];
    HashSnoc(s, 0);
    HashSnoc(s, 1);
    HashSnoc(s, 2);
    HashSnoc(s, 3);
    HashSnoc(s, 4);
    HashSnoc(s, 5);
  }

  lemma HashSnoc(bytes: seq<Byte>, k: nat)
    requires k < |bytes|
    ensures Hash(bytes[..k + 1]) == Step(Hash(bytes[..k]), bytes[k])
  {
    assert bytes[..k + 1][..k] == bytes[..k];
  }

  // The ELF_STEP macro, statement by statement.
  method ElfStep(h: bv32, b: Byte) returns (r: bv32)
    ensures r == Step(h, b)
  {
    var t1 := (h << 4) + b;
    var t2 := t1 & 0xF000_0000;
    r := ElfMix(t1, t2);
  }

  method ElfMix(t: bv32, t2: bv32) returns (t1: bv32)
    ensures t1 == Mix(t, t2)
  {
    t1 := t;
    if t2 != 0 {
      t1 := t1 ^ (t2 >> 24);
    }
    t1 := t1 & !t2;
  }

  // The length has to fit the 32-bit counter.
  method UnrolledHash(bytes: seq<Byte>) returns (h: bv32)
    requires |bytes| < 0x8000_0000
    ensures h == Hash(bytes) && h & 0xF000_0000 == 0
  {
    hide Step;
    TopNibbleIsZero(bytes);
    h := 0;
    var length := |bytes|;
    var rem := length;
    while 3 < rem
      invariant 0 <= rem <= length && h == Hash(bytes[..length - rem])
    {
      var k := length - rem;
      HashSnoc(bytes, k);
      HashSnoc(bytes, k + 1);
      HashSnoc(bytes, k + 2);
      HashSnoc(bytes, k + 3);
      h := ElfStep(h, bytes[length - rem]);
      h := ElfStep(h, bytes[length - rem + 1]);
      h := ElfStep(h, bytes[length - rem + 2]);
      h := ElfStep(h, bytes[length - rem + 3]);
      rem := rem - 4;
    }
    if rem == 3 {
      HashSnoc(bytes, length - 3);
      h := ElfStep(h, bytes[length - 3]);
    }
    if rem >= 2 {
      HashSnoc(bytes, length - 2);
      h := ElfStep(h, bytes[length - 2]);
    }
    if rem >= 1 {
      HashSnoc(bytes, length - 1);
      h := ElfStep(h, bytes[length - 1]);
    }
    assert bytes[..length] == bytes;
  }
}
