/** The XOR config blob of a calibration case: key length, key, text length and text, read back. */
module ConfigBlob {
  import opened Bytes
  import opened Wrappers

  // ----- XOR, bit by bit ----------------------------------------------------

  function Two(n: nat): (p: nat)
    ensures p > 0
  {
    if n == 0 then 1 else 2 * Two(n - 1)
  }

  /** Without its bit worth `p`, which is its highest. */
  function Below(a: nat, p: nat): nat
    requires p > 0
  {
    if a >= p then a - p else a
  }

  /** The exclusive or of two numbers of `n` bits, the highest bit first. */
  function XorBits(a: nat, b: nat, n: nat): (r: nat)
    requires a < Two(n) && b < Two(n)
    ensures r < Two(n)
  {
    if n == 0 then 0
    else
      var p := Two(n - 1);
      (if a >= p <==> b >= p then 0 else p) + XorBits(Below(a, p), Below(b, p), n - 1)
  }

  function Xor(a: Byte, b: Byte): Byte {
    XorBits(a, b, 8)
  }

  lemma {:induction false} XorBitsTwice(a: nat, b: nat, n: nat)
    requires a < Two(n) && b < Two(n)
    ensures XorBits(XorBits(a, b, n), b, n) == a
  {
    if n > 0 {
      XorBitsTwice(Below(a, Two(n - 1)), Below(b, Two(n - 1)), n - 1);
    }
  }

  /** The same XOR again gives the byte back. */
  lemma {:induction false} XorTwice(a: Byte, b: Byte)
    ensures Xor(Xor(a, b), b) == a
  {
    XorBitsTwice(a, b, 8);
  }

  /** Bit `k` of the number, the lowest being bit 0. */
  function Bit(a: nat, k: nat): nat {
    if k == 0 then a % 2 else Bit(a / 2, k - 1)
  }

  lemma Halving(a: nat, p: nat, q: nat)
    requires p == 2 * q && q > 0
    ensures Below(a, p) / 2 == Below(a / 2, q) && (a >= p <==> a / 2 >= q)
    ensures Below(a, p) % 2 == a % 2 && (a + p) / 2 == a / 2 + q && (a + p) % 2 == a % 2
  {}

  lemma TwoNext(n: nat)
    ensures Two(n + 1) == 2 * Two(n)
  {}

  lemma XorNext(a: nat, b: nat, n: nat)
    requires a < Two(n + 1) && b < Two(n + 1)
    ensures Below(a, Two(n)) < Two(n) && Below(b, Two(n)) < Two(n)
    ensures XorBits(a, b, n + 1) ==
      (if a >= Two(n) <==> b >= Two(n) then 0 else Two(n)) + XorBits(Below(a, Two(n)), Below(b, Two(n)), n)
  {}

  /** Halved, the exclusive or is that of the numbers halved; its lowest bit is that of their sum. */
  lemma {:induction false} XorBitsHalved(a: nat, b: nat, n: nat)
    requires a < Two(n + 1) && b < Two(n + 1)
    ensures a / 2 < Two(n) && b / 2 < Two(n)
    ensures XorBits(a, b, n + 1) / 2 == XorBits(a / 2, b / 2, n)
    ensures XorBits(a, b, n + 1) % 2 == (a + b) % 2
    decreases n
  {
    hide XorBits, Below, Two;
    TwoNext(n);
    XorNext(a, b, n);
    if n > 0 {
      var p, q := Two(n), Two(n - 1);
      TwoNext(n - 1);
      Halving(a, p, q);
      Halving(b, p, q);
      XorBitsHalved(Below(a, p), Below(b, p), n - 1);
      XorNext(a / 2, b / 2, n - 1);
      Halving(XorBits(Below(a, p), Below(b, p), n), p, q);
      SumParity(a, b, Below(a, p), Below(b, p));
    } else {
      XorOfBits(a, b);
    }
  }

  lemma XorOfBits(a: nat, b: nat)
    requires a < Two(1) && b < Two(1)
    ensures Two(0) == 1 && Two(1) == 2 && XorBits(a, b, 1) == (a + b) % 2 && XorBits(0, 0, 0) == 0
  {
    assert XorBits(Below(a, 1), Below(b, 1), 0) == 0;
  }

  lemma SumParity(a: nat, b: nat, c: nat, d: nat)
    requires a % 2 == c % 2 && b % 2 == d % 2
    ensures (a + b) % 2 == (c + d) % 2
  {}

  lemma Parity(a: nat, b: nat)
    ensures (a + b) % 2 == 1 <==> a % 2 != b % 2
  {}

  lemma {:induction false} XorBitsExactly(a: nat, b: nat, n: nat, k: nat)
    requires a < Two(n) && b < Two(n) && k < n
    ensures Bit(XorBits(a, b, n), k) == 1 <==> Bit(a, k) != Bit(b, k)
    ensures Bit(a, k) <= 1 && Bit(b, k) <= 1 && Bit(XorBits(a, b, n), k) <= 1
  {
    hide XorBits, Two;
    XorBitsHalved(a, b, n - 1);
    if k == 0 {
      Parity(a, b);
    } else {
      XorBitsExactly(a / 2, b / 2, n - 1, k - 1);
    }
  }

  /** A bit of the exclusive or is set just where the two bytes' bits differ. */
  lemma {:induction false} XorExactly(a: Byte, b: Byte, k: nat)
    requires k < 8
    ensures Bit(Xor(a, b), k) == 1 <==> Bit(a, k) != Bit(b, k)
    ensures Bit(Xor(a, b), k) <= 1
  {
    XorBitsExactly(a, b, 8, k);
  }

  lemma {:induction false} TopBitOfXor(a: Byte, b: Byte)
    ensures Xor(a, b) >= 0x80 <==> (a >= 0x80) != (b >= 0x80)
  {
    assert XorBits(Below(a, 0x80), Below(b, 0x80), 7) < 0x80;
  }

  function Xor8(text: Bytes, key: Byte): (r: Bytes)
    ensures |r| == |text| && forall i :: 0 <= i < |r| ==> r[i] == Xor(text[i], key)
  {
    seq(|text|, i requires 0 <= i < |text| => Xor(text[i], key))
  }

  function Repeating(text: Bytes, key: Bytes): (r: Bytes)
    requires key != []
    ensures |r| == |text| && forall i :: 0 <= i < |r| ==> r[i] == Xor(text[i], key[i % |key|])
  {
    seq(|text|, i requires 0 <= i < |text| => Xor(text[i], key[i % |key|]))
  }

  /** The same XOR again gives the text back. */
  lemma {:induction false} RepeatingTwice(text: Bytes, key: Bytes)
    requires key != []
    ensures Repeating(Repeating(text, key), key) == text
  {
    forall i | 0 <= i < |text| ensures Xor(Xor(text[i], key[i % |key|]), key[i % |key|]) == text[i] {
      XorTwice(text[i], key[i % |key|]);
    }
  }

  lemma {:induction false} Xor8IsRepeating(text: Bytes, key: Byte)
    ensures Xor8(text, key) == Repeating(text, [key])
  {
    assert forall i :: 0 <= i < |text| ==> i % 1 == 0;
  }

  predicate Ascii(text: Bytes) { forall i :: 0 <= i < |text| ==> text[i] < 0x80 }

  /** A key byte: seven random bits under a set top bit. */
  function KeyByte(random: nat): (k: Byte)
    requires random < 0x80
    ensures k >= 0x80
  {
    0x80 + random
  }

  /** Under keys with their top bits set, no encoded byte is ASCII just when every byte of the text was. */
  lemma {:induction false} EncodedHasNoAscii(text: Bytes, key: Bytes)
    requires key != [] && forall j :: 0 <= j < |key| ==> key[j] >= 0x80
    ensures (forall i :: 0 <= i < |text| ==> Repeating(text, key)[i] >= 0x80) <==> Ascii(text)
  {
    forall i | 0 <= i < |text| ensures Repeating(text, key)[i] >= 0x80 <==> text[i] < 0x80 {
      TopBitOfXor(text[i], key[i % |key|]);
    }
  }

  // ----- The config blob ----------------------------------------------------

  datatype Width = TwoBytes | FourBytes
  {
    function Count(): nat { if TwoBytes? then 2 else 4 }

    function Limit(): nat { if TwoBytes? then 0x1_0000 else 0x1_0000_0000 }
  }

  /** The number's lowest `n` bytes, the lowest first. */
  function Packed(value: nat, n: nat): (bytes: Bytes)
    ensures |bytes| == n
  {
    if n == 0 then [] else [value % 0x100] + Packed(value / 0x100, n - 1)
  }

  function Unpacked(bytes: Bytes): nat {
    if bytes == [] then 0 else bytes[0] + 0x100 * Unpacked(bytes[1..])
  }

  function Power(n: nat): nat {
    if n == 0 then 1 else 0x100 * Power(n - 1)
  }

  lemma {:induction false} UnpackedPacked(value: nat, n: nat)
    requires value < Power(n)
    ensures Unpacked(Packed(value, n)) == value
  {
    if n > 0 {
      UnpackedPacked(value / 0x100, n - 1);
      assert Packed(value, n)[1..] == Packed(value / 0x100, n - 1);
    }
  }

  lemma WidthLimits(width: Width)
    ensures Power(width.Count()) == width.Limit()
  {
    assert Power(1) == 0x100 && Power(2) == 0x1_0000 && Power(3) == 0x100_0000;
  }

  datatype BlobError = KeyTooLong | TextTooLong | NoKey

  /** Key length, key, the text's length in the width chosen, and the text under the repeating key. */
  function Blob(text: Bytes, key: Bytes, width: Width): Result<Bytes, BlobError> {
    if |key| > 255 then Err(KeyTooLong)
    else if |text| >= width.Limit() then Err(TextTooLong)
    else if key == [] && text != [] then Err(NoKey)
    else Ok([|key|] + key + Packed(|text|, width.Count()) + if key == [] then [] else Repeating(text, key))
  }

  /** What a blob's reader takes out of it: the key and the text. */
  function Read(blob: Bytes, width: Width): Option<(Bytes, Bytes)> {
    if blob == [] || |blob| < 1 + blob[0] + width.Count() then None
    else
      var k := blob[0];
      var key, body := blob[1..1 + k], blob[1 + k + width.Count()..];
      var n := Unpacked(blob[1 + k..1 + k + width.Count()]);
      if n > |body| || (k == 0 && n > 0) then None
      else Some((key, if n == 0 then [] else Repeating(body[..n], key)))
  }

  /** The four parts of a blob, the text under its key last. */
  lemma BlobParts(text: Bytes, key: Bytes, width: Width, body: Bytes)
    requires Blob(text, key, width).Ok? && body == if key == [] then [] else Repeating(text, key)
    ensures Blob(text, key, width).value == [|key|] + key + Packed(|text|, width.Count()) + body
    ensures |body| == |text| && |text| < width.Limit()
  {
    hide Packed, Repeating;
  }

  lemma BodyReadsBack(text: Bytes, key: Bytes, body: Bytes)
    requires body == (if key == [] then [] else Repeating(text, key)) && |body| == |text|
    ensures (if text == [] then [] else Repeating(body, key)) == text
  {
    if text != [] {
      RepeatingTwice(text, key);
    }
  }

  /** Whatever follows it, a blob reads back as the key and the text it was made of. */
  lemma {:induction false} BlobReadsBack(text: Bytes, key: Bytes, width: Width, after: Bytes)
    requires Blob(text, key, width).Ok?
    ensures Read(Blob(text, key, width).value + after, width) == Some((key, text))
  {
    var body := if key == [] then [] else Repeating(text, key);
    var length := Packed(|text|, width.Count());
    BlobParts(text, key, width, body);
    BodyReadsBack(text, key, body);
    WidthLimits(width);
    UnpackedPacked(|text|, width.Count());
    assert key == [] ==> text == [];
    hide Packed, Unpacked, Power, Repeating, Read, Blob;
    FourParts(|key|, key, length, body, after);
    ReadParts(Blob(text, key, width).value + after, key, length, body + after, |text|, width);
  }

  lemma ReadParts(blob: Bytes, key: Bytes, length: Bytes, rest: Bytes, n: nat, width: Width)
    requires |length| == width.Count() && |blob| >= 1 + |key| + |length| && blob[0] == |key| && blob[1..1 + |key|] == key
    requires blob[1 + |key|..1 + |key| + |length|] == length && blob[1 + |key| + |length|..] == rest
    requires Unpacked(length) == n <= |rest| && (key == [] ==> n == 0)
    ensures Read(blob, width) == Some((key, if n == 0 then [] else Repeating(rest[..n], key)))
  {
    hide Unpacked, Repeating;
  }

  lemma FourParts(k: Byte, key: Bytes, length: Bytes, body: Bytes, after: Bytes)
    requires |key| == k
    ensures var blob := [k] + key + length + body + after;
      && |blob| >= 1 + k + |length| && blob[0] == k && blob[1..1 + k] == key && blob[1 + k..1 + k + |length|] == length
      && blob[1 + k + |length|..] == body + after && (body + after)[..|body|] == body
  {}

  /** The sizes are those refused, and no others. */
  lemma {:induction false} BlobIsRefusedExactly(text: Bytes, key: Bytes, width: Width)
    ensures Blob(text, key, width).Ok? <==>
      |key| <= 255 && |text| < width.Limit() && (key != [] || text == [])
    ensures Blob(text, key, width).Ok? ==> |Blob(text, key, width).value| == 1 + |key| + width.Count() + |text|
  {}
}
