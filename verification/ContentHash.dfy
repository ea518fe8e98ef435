/** The content hash of support/src/SourceManager.cpp: 64-bit FNV-1a. */
module ContentHash {
  import opened Utf8

  const MODULUS := 0x1_0000_0000_0000_0000
  const OFFSET_BASIS := 14695981039346656037
  const PRIME := 1099511628211

  /** PRIME * PRIME_INVERSE is 1 modulo 2^64. */
  const PRIME_INVERSE := 14886173955864302971

  type Word = h: int | 0 <= h < 0x1_0000_0000_0000_0000

  /** Exclusive or of the low bits. */
  function Xor(a: nat, b: nat, bits: nat): nat {
    if bits == 0 then 0 else 2 * Xor(a / 2, b / 2, bits - 1) + (a + b) % 2
  }

  lemma {:induction false} XorBounded(a: nat, b: nat, bits: nat)
    ensures Xor(a, b, bits) < Power2(bits)
    decreases bits
  {
    if bits == 0 {
    } else {
      XorBounded(a / 2, b / 2, bits - 1);
    }
  }

  function Power2(n: nat): nat {
    if n == 0 then 1 else 2 * Power2(n - 1)
  }

  /** Exclusive or undoes itself. */
  lemma {:induction false} XorUndone(a: nat, b: nat, bits: nat)
    requires a < Power2(bits)
    ensures Xor(Xor(a, b, bits), b, bits) == a
    decreases bits
  {
    if bits == 0 {
    } else {
      XorUndone(a / 2, b / 2, bits - 1);
      var high, low := Xor(a / 2, b / 2, bits - 1), (a + b) % 2;
      var x := 2 * high + low;
      assert x == Xor(a, b, bits);
      Halves(high, low);
      Parity(high, a, b);
      assert a == 2 * (a / 2) + a % 2;
    }
  }

  lemma Halves(high: nat, low: nat)
    requires low < 2
    ensures (2 * high + low) / 2 == high
  {
  }

  lemma Parity(high: nat, a: nat, b: nat)
    ensures (2 * high + (a + b) % 2 + b) % 2 == a % 2
  {
  }

  lemma {:induction false} XorCommutes(a: nat, b: nat, bits: nat)
    ensures Xor(a, b, bits) == Xor(b, a, bits)
    decreases bits
  {
    if bits == 0 {
    } else {
      XorCommutes(a / 2, b / 2, bits - 1);
    }
  }

  lemma Power8()
    ensures Power2(8) == 256
  {
    assert Power2(4) == 16;
  }

  lemma LowByteFits(h: Word, x: nat)
    requires x < 256
    ensures h / 256 * 256 + x < 0x1_0000_0000_0000_0000
  {
    assert h / 256 < 0x100_0000_0000_0000;
  }

  /** The byte goes into the low eight bits of the state. */
  function Mix(h: Word, b: Byte): Word {
    XorByte(h % 256, b);
    LowByteFits(h, Xor(h % 256, b, 8));
    h / 256 * 256 + Xor(h % 256, b, 8)
  }

  /** A byte combined with a byte is a byte, and combining again gives it back. */
  lemma XorByte(a: Byte, b: Byte)
    ensures Xor(a, b, 8) < 256 && Xor(Xor(a, b, 8), b, 8) == a
  {
    Power8();
    XorBounded(a, b, 8);
    XorUndone(a, b, 8);
  }

  function Times(h: Word, factor: nat): Word {
    h * factor % MODULUS
  }

  function Step(h: Word, b: Byte): Word {
    Times(Mix(h, b), PRIME)
  }

  function HashFrom(h: Word, t: Text): Word
    decreases |t|
  {
    if t == [] then h else HashFrom(Step(h, t[0]), t[1..])
  }

  function Hash(t: Text): Word {
    HashFrom(OFFSET_BASIS, t)
  }

  method HashContents(t: Text) returns (hash: Word)
    ensures hash == Hash(t)
  {
    hash := OFFSET_BASIS;
    for i := 0 to |t|
      invariant Hash(t) == HashFrom(hash, t[i..])
    {
      assert t[i..][0] == t[i] && t[i..][1..] == t[i + 1..];
      hash := Mix(hash, t[i]);
      hash := Times(hash, PRIME);
    }
  }

  /** Two known hashes of 64-bit FNV-1a: of no bytes, and of "a". */
  lemma KnownHashes()
    ensures Hash([]) == 0xcbf2_9ce4_8422_2325 && Hash([0x61]) == 0xaf63_dc4c_8601_ec8c
  {
    var h: Word := OFFSET_BASIS;
    assert h % 256 == 0x25 && h / 256 == 0xcb_f29c_e484_2223;
    XorOfA();
    assert Mix(h, 0x61) == 0xcbf2_9ce4_8422_2344;
    assert [0x61][1..] == [] && HashFrom(Step(h, 0x61), []) == Step(h, 0x61);
  }

  lemma XorOfA()
    ensures Xor(0x25, 0x61, 8) == 0x44
  {
    assert Xor(0x0, 0x0, 1) == 0x0;
    assert Xor(0x0, 0x1, 2) == 0x1;
    assert Xor(0x1, 0x3, 3) == 0x2;
    assert Xor(0x2, 0x6, 4) == 0x4;
    assert Xor(0x4, 0xc, 5) == 0x8;
    assert Xor(0x9, 0x18, 6) == 0x11;
    assert Xor(0x12, 0x30, 7) == 0x22;
  }

  // ---------------------------------------------------------------------------------------------
  // Each step can be undone.

  lemma MixUndone(h: Word, b: Byte)
    ensures Mix(Mix(h, b), b) == h
  {
    XorByte(h % 256, b);
    MixParts(h, b);
  }

  lemma MixParts(h: Word, b: Byte)
    ensures Mix(h, b) / 256 == h / 256 && Mix(h, b) % 256 == Xor(h % 256, b, 8)
  {
    XorByte(h % 256, b);
    BytesOf(h / 256, Xor(h % 256, b, 8));
  }

  lemma BytesOf(high: nat, low: Byte)
    ensures (high * 256 + low) / 256 == high && (high * 256 + low) % 256 == low
  {
  }

  lemma MixInjectiveInByte(h: Word, a: Byte, b: Byte)
    requires Mix(h, a) == Mix(h, b)
    ensures a == b
  {
    var low := h % 256;
    XorCommutes(low, a, 8);
    XorCommutes(low, b, 8);
    XorByte(a, low);
    XorByte(b, low);
  }

  lemma TimesUndone(h: Word, factor: nat, inverse: nat)
    requires factor * inverse % MODULUS == 1
    ensures Times(Times(h, factor), inverse) == h
  {
    var q := h * factor / MODULUS;
    var k := factor * inverse / MODULUS;
    assert h * factor == q * MODULUS + Times(h, factor);
    assert factor * inverse == k * MODULUS + 1;
    calc {
      Times(h, factor) * inverse;
      (h * factor - q * MODULUS) * inverse;
      h * factor * inverse - q * MODULUS * inverse;
      { Regroup(h, factor, inverse, q, k); }
      (h * k - q * inverse) * MODULUS + h;
    }
    RemainderOf(h * k - q * inverse, h);
  }

  lemma Regroup(h: int, factor: int, inverse: int, q: int, k: int)
    requires factor * inverse == k * MODULUS + 1
    ensures h * factor * inverse - q * MODULUS * inverse == (h * k - q * inverse) * MODULUS + h
  {
    assert h * factor * inverse == h * (factor * inverse);
  }

  lemma RemainderOf(x: int, h: Word)
    ensures (x * MODULUS + h) % MODULUS == h
  {
  }

  /** A step is a bijection of the state for a fixed byte. */
  lemma StepBijective(h: Word, b: Byte)
    ensures Mix(Times(Step(h, b), PRIME_INVERSE), b) == h
    ensures Step(Mix(Times(h, PRIME_INVERSE), b), b) == h
  {
    assert PRIME * PRIME_INVERSE % MODULUS == 1;
    TimesUndone(Mix(h, b), PRIME, PRIME_INVERSE);
    MixUndone(h, b);
    MixUndone(Times(h, PRIME_INVERSE), b);
    TimesUndone(h, PRIME_INVERSE, PRIME);
  }

  lemma StepInjectiveInByte(h: Word, a: Byte, b: Byte)
    requires Step(h, a) == Step(h, b)
    ensures a == b
  {
    assert PRIME * PRIME_INVERSE % MODULUS == 1;
    TimesUndone(Mix(h, a), PRIME, PRIME_INVERSE);
    TimesUndone(Mix(h, b), PRIME, PRIME_INVERSE);
    MixInjectiveInByte(h, a, b);
  }

  lemma {:induction false} HashFromInjective(g: Word, h: Word, t: Text)
    requires HashFrom(g, t) == HashFrom(h, t)
    ensures g == h
    decreases |t|
  {
    if t == [] {
    } else {
      HashFromInjective(Step(g, t[0]), Step(h, t[0]), t[1..]);
      StepBijective(g, t[0]);
      StepBijective(h, t[0]);
    }
  }

  /** Changing exactly one byte always changes the hash. */
  lemma OneByteChangesHash(t: Text, i: nat, b: Byte)
    requires i < |t| && t[i] != b
    ensures Hash(t) != Hash(t[i := b])
  {
    OneByteChangesHashFrom(OFFSET_BASIS, t, i, b);
  }

  lemma {:induction false} OneByteChangesHashFrom(h: Word, t: Text, i: nat, b: Byte)
    requires i < |t| && t[i] != b
    ensures HashFrom(h, t) != HashFrom(h, t[i := b])
    decreases i
  {
    var u := t[i := b];
    if i == 0 {
      assert u[1..] == t[1..];
      if HashFrom(h, t) == HashFrom(h, u) {
        HashFromInjective(Step(h, t[0]), Step(h, b), t[1..]);
        StepInjectiveInByte(h, t[0], b);
      }
    } else {
      assert u[1..] == t[1..][i - 1 := b];
      OneByteChangesHashFrom(Step(h, t[0]), t[1..], i - 1, b);
    }
  }
}
