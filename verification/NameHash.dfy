/** The ROR-13 hash of an API name over 32-bit words: a name changed in one place hashes differently. */
module NameHash {
  import opened Bytes

  type Word = x: int | 0 <= x < 0x1_0000_0000

  /** The word rotated right by thirteen bits: its high part brought down, its low thirteen bits put above it. */
  function Rotated(value: Word): Word {
    value / 0x2000 + (value % 0x2000) * 0x8_0000
  }

  /** A sum of two words, or a difference, cut to 32 bits. */
  function Cut(sum: int): Word
    requires -0x1_0000_0000 <= sum < 0x2_0000_0000
  {
    if sum < 0 then sum + 0x1_0000_0000 else if sum < 0x1_0000_0000 then sum else sum - 0x1_0000_0000
  }

  lemma CutIsRemainder(sum: int)
    requires 0 <= sum < 0x2_0000_0000
    ensures Cut(sum) == sum % 0x1_0000_0000
  {}

  function HashStep(value: Word, byte: Byte): Word { Cut(Rotated(value) + byte) }

  /** The hash of a name from a given state on. */
  function HashFrom(value: Word, name: Bytes): Word {
    if name == [] then value
    else HashStep(HashFrom(value, name[..|name| - 1]), name[|name| - 1])
  }

  method Ror13(name: Bytes) returns (value: Word)
    ensures value == HashFrom(0, name)
  {
    hide Cut, Rotated;
    value := 0;
    for n := 0 to |name|
      invariant value == HashFrom(0, name[..n])
    {
      assert name[..n + 1][..n] == name[..n];
      value := Rotated(value);
      CutIsRemainder(value + name[n]);
      value := (value + name[n]) % 0x1_0000_0000;
    }
    assert name[..|name|] == name;
  }

  function RotatedBack(value: Word): Word {
    (value % 0x8_0000) * 0x2000 + value / 0x8_0000
  }

  /** The state a step came from. */
  function HashStepBack(value: Word, byte: Byte): Word {
    RotatedBack(Cut(value - byte))
  }

  lemma HighAndLow(high: int, low: int)
    requires 0 <= low < 0x2000 && 0 <= high < 0x8_0000
    ensures (high * 0x2000 + low) / 0x2000 == high && (high * 0x2000 + low) % 0x2000 == low
    ensures (low * 0x8_0000 + high) / 0x8_0000 == low && (low * 0x8_0000 + high) % 0x8_0000 == high
  {}

  lemma {:induction false} RotationIsABijection(value: Word)
    ensures RotatedBack(Rotated(value)) == value && Rotated(RotatedBack(value)) == value
  {
    HighAndLow(value / 0x2000, value % 0x2000);
    HighAndLow(value % 0x8_0000, value / 0x8_0000);
  }

  /** The word's high nineteen bits and its low thirteen change places; no other word has them so. */
  lemma {:induction false} RotatedExactly(value: Word, r: Word)
    ensures r == Rotated(value) <==>
      exists high, low | 0 <= high < 0x8_0000 && 0 <= low < 0x2000 :: Halves(value, high, low) && r == low * 0x8_0000 + high
  {
    HighAndLow(value / 0x2000, value % 0x2000);
    assert Halves(value, value / 0x2000, value % 0x2000);
    forall high, low | 0 <= high < 0x8_0000 && 0 <= low < 0x2000 && Halves(value, high, low)
      ensures high == value / 0x2000 && low == value % 0x2000
    {
      HighAndLow(high, low);
    }
  }

  ghost predicate Halves(value: Word, high: int, low: int) { value == high * 0x2000 + low }

  /** The hash of "ab" rotates the first letter by thirteen bits and adds the second. */
  lemma {:induction false} HashOfTwoLetters()
    ensures HashFrom(0, [0x61, 0x62]) == 0x0308_0062
  {
    assert [0x61, 0x62][..1] == [0x61] && [0x61][..0] == [];
    assert HashFrom(0, [0x61]) == 0x61;
  }

  /** Each step is a bijection of the 32-bit states. */
  lemma {:induction false} StepIsABijection(value: Word, byte: Byte)
    ensures HashStepBack(HashStep(value, byte), byte) == value
    ensures HashStep(HashStepBack(value, byte), byte) == value
  {
    hide Rotated, RotatedBack;
    RotationIsABijection(value);
    RotationIsABijection(Cut(value - byte));
    assert Cut(Cut(Rotated(value) + byte) - byte) == Rotated(value);
  }

  lemma {:induction false} HashConcat(value: Word, a: Bytes, b: Bytes)
    ensures HashFrom(value, a + b) == HashFrom(HashFrom(value, a), b)
    decreases |b|
  {
    hide HashStep;
    if b == [] {
      assert a + b == a;
    } else {
      assert (a + b)[..|a + b| - 1] == a + b[..|b| - 1];
      HashConcat(value, a, b[..|b| - 1]);
    }
  }

  /** States that differ stay different under any name. */
  lemma {:induction false} StatesStayApart(v: Word, w: Word, name: Bytes)
    ensures HashFrom(v, name) == HashFrom(w, name) <==> v == w
  {
    if name != [] {
      hide HashStep, HashStepBack;
      var front, last := name[..|name| - 1], name[|name| - 1];
      StatesStayApart(v, w, front);
      StepIsABijection(HashFrom(v, front), last);
      StepIsABijection(HashFrom(w, front), last);
    }
  }

  lemma BytesAreApart(value: Word, b: Byte, c: Byte)
    ensures HashStep(value, b) == HashStep(value, c) <==> b == c
  {}

  /** A name changed in one place hashes differently. */
  lemma {:induction false} OneByteChangesTheHash(name: Bytes, at: nat, byte: Byte)
    requires at < |name|
    ensures HashFrom(0, name[at := byte]) == HashFrom(0, name) <==> byte == name[at]
  {
    hide HashStep;
    var front, rest := name[..at], name[at + 1..];
    assert name == front + [name[at]] + rest && name[at := byte] == front + [byte] + rest;
    HashConcat(0, front + [name[at]], rest);
    HashConcat(0, front + [byte], rest);
    assert (front + [name[at]])[..at] == front && (front + [byte])[..at] == front;
    StatesStayApart(HashFrom(0, front + [name[at]]), HashFrom(0, front + [byte]), rest);
    BytesAreApart(HashFrom(0, front), name[at], byte);
  }
}
