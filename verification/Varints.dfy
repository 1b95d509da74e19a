/** Unsigned base-128 varints (Protocol Buffers encoding, "Base 128 Varints"): builder and encoder. */
module Varints {
  type Byte = b: int | 0 <= b < 256

  function Pow2(n: nat): (p: nat)
    ensures p >= 1
  {
    if n == 0 then 1 else 2 * Pow2(n - 1)
  }

  /** `x << n`. */
  function ShiftLeft(x: nat, n: nat): nat { x * Pow2(n) }

  lemma Pow2Grows(m: nat, n: nat)
    requires m <= n
    ensures Pow2(m) <= Pow2(n)
  {
    if m < n {
      Pow2Grows(m, n - 1);
    }
  }

  lemma Pow2Seven(n: nat)
    ensures Pow2(n + 7) == 128 * Pow2(n)
  {
    assert Pow2(n + 7) == 2 * Pow2(n + 6) && Pow2(n + 6) == 2 * Pow2(n + 5) && Pow2(n + 5) == 2 * Pow2(n + 4);
    assert Pow2(n + 4) == 2 * Pow2(n + 3) && Pow2(n + 3) == 2 * Pow2(n + 2) && Pow2(n + 2) == 2 * Pow2(n + 1);
  }

  lemma FitsSixtyThreeBits(n: nat)
    requires n <= 63
    ensures Pow2(n) <= 0x8000_0000_0000_0000
  {
    Pow2Seven(0);
    Pow2Seven(7);
    Pow2Seven(14);
    Pow2Seven(21);
    Pow2Seven(28);
    Pow2Seven(35);
    Pow2Seven(42);
    Pow2Seven(49);
    Pow2Seven(56);
    Pow2Grows(n, 63);
  }

  /** `b & 0x7f`. */
  function LowBits(b: Byte): nat { b % 128 }

  /** The number whose base-128 digits are the low bits of `bytes`, lowest first. */
  function Payload(bytes: seq<Byte>): nat {
    if bytes == [] then 0 else LowBits(bytes[0]) + 128 * Payload(bytes[1..])
  }

  predicate AllContinue(bytes: seq<Byte>) { forall i | 0 <= i < |bytes| :: bytes[i] >= 128 }

  /** A whole varint: every byte but the last announces another one. */
  predicate IsVarint(bytes: seq<Byte>) {
    bytes != [] && AllContinue(bytes[..|bytes| - 1]) && bytes[|bytes| - 1] < 128
  }

  /** The shortest varint of a number. */
  function Varint(value: nat): (bytes: seq<Byte>)
    ensures bytes != []
  {
    if value < 128 then [value] else [128 + value % 128] + Varint(value / 128)
  }

  lemma {:induction false} PayloadAppend(bytes: seq<Byte>, b: Byte)
    ensures Payload(bytes + [b]) == Payload(bytes) + ShiftLeft(LowBits(b), 7 * |bytes|)
  {
    if bytes == [] {
      assert [b][1..] == [] && Payload([b]) == LowBits(b) + 128 * Payload([]);
    } else {
      assert (bytes + [b])[1..] == bytes[1..] + [b];
      PayloadAppend(bytes[1..], b);
      Pow2Seven(7 * |bytes[1..]|);
      assert 7 * |bytes| == 7 * |bytes[1..]| + 7;
      Distribute(LowBits(b), Pow2(7 * |bytes[1..]|));
    }
  }

  lemma Distribute(x: nat, p: nat)
    ensures 128 * (x * p) == x * (128 * p)
  {}

  lemma {:induction false} PayloadBound(bytes: seq<Byte>)
    ensures Payload(bytes) < Pow2(7 * |bytes|)
  {
    if bytes != [] {
      PayloadBound(bytes[1..]);
      Pow2Seven(7 * |bytes[1..]|);
      assert 7 * |bytes| == 7 * |bytes[1..]| + 7;
    }
  }

  // ---- Round trip, minimality, prefix-freedom ----

  /** The encoding is a varint of the number it encodes. */
  lemma {:induction false} VarintRoundTrip(value: nat)
    ensures IsVarint(Varint(value)) && Payload(Varint(value)) == value
  {
    var bytes := Varint(value);
    if value < 128 {
      assert bytes[1..] == [];
    } else {
      VarintRoundTrip(value / 128);
      var rest := Varint(value / 128);
      assert bytes[1..] == rest;
      forall i | 0 <= i < |bytes| - 1 ensures bytes[i] >= 128 {
        if i > 0 {
          assert bytes[i] == rest[..|rest| - 1][i - 1];
        }
      }
    }
  }

  /** No varint of the same number is shorter. */
  lemma {:induction false} VarintIsShortest(bytes: seq<Byte>)
    requires IsVarint(bytes)
    ensures |Varint(Payload(bytes))| <= |bytes|
  {
    if |bytes| > 1 {
      var rest := bytes[1..];
      forall i | 0 <= i < |rest| - 1 ensures rest[i] >= 128 {
        assert rest[i] == bytes[..|bytes| - 1][i + 1];
      }
      VarintIsShortest(rest);
      assert Payload(bytes) / 128 == Payload(rest);
    } else {
      assert bytes[1..] == [];
    }
  }

  /** No varint is a proper beginning of another. */
  lemma VarintsArePrefixFree(a: seq<Byte>, b: seq<Byte>)
    requires IsVarint(a) && IsVarint(b) && a <= b
    ensures a == b
  {
    assert forall i | 0 <= i < |b| - 1 :: b[..|b| - 1][i] == b[i];
    assert a[|a| - 1] == b[|a| - 1];
  }

  /** Encodings differ whenever the numbers do, and none begins another. */
  lemma EncodingsArePrefixFree(v: nat, w: nat)
    requires Varint(v) <= Varint(w)
    ensures v == w
  {
    VarintRoundTrip(v);
    VarintRoundTrip(w);
    VarintsArePrefixFree(Varint(v), Varint(w));
  }

  // ---- The encoder ----

  function BitLength(value: nat): nat { if value == 0 then 0 else 1 + BitLength(value / 2) }

  lemma BitLengthSeven(value: nat)
    requires value >= 128
    ensures BitLength(value) == 7 + BitLength(value / 128)
  {
    var halves := value / 2 / 2 / 2 / 2 / 2 / 2;
    assert value / 2 / 2 / 2 / 2 / 2 / 2 / 2 == value / 128;
    assert BitLength(value / 2) == 1 + BitLength(value / 2 / 2);
    assert BitLength(value / 2 / 2) == 1 + BitLength(value / 2 / 2 / 2);
    assert BitLength(value / 2 / 2 / 2) == 1 + BitLength(value / 2 / 2 / 2 / 2);
    assert BitLength(value / 2 / 2 / 2 / 2) == 1 + BitLength(value / 2 / 2 / 2 / 2 / 2);
    assert BitLength(value / 2 / 2 / 2 / 2 / 2) == 1 + BitLength(halves);
    assert BitLength(halves) == 1 + BitLength(halves / 2);
  }

  lemma {:induction false} BitLengthBelowSeven(value: nat)
    requires 0 < value < 128
    ensures 1 <= BitLength(value) <= 7
  {
    Halves(value, 7);
  }

  lemma {:induction false} Halves(value: nat, n: nat)
    requires value < Pow2(n)
    ensures BitLength(value) <= n
  {
    if value > 0 && n > 0 {
      Halves(value / 2, n - 1);
    }
  }

  /** A varint takes one byte per seven bits, rounded up. */
  lemma {:induction false} VarintLength(value: nat)
    requires value > 0
    ensures |Varint(value)| == (BitLength(value) + 6) / 7
  {
    if value < 128 {
      assert Pow2(7) == 128 by {
        Pow2Seven(0);
      }
      BitLengthBelowSeven(value);
    } else {
      BitLengthSeven(value);
      VarintLength(value / 128);
    }
  }

  method CountBits(value: nat) returns (bitLength: nat)
    ensures bitLength == BitLength(value)
  {
    bitLength := 0;
    var v := value;
    while v > 0
      invariant bitLength + BitLength(v) == BitLength(value)
      decreases v
    {
      bitLength := bitLength + 1;
      v := v / 2;
    }
  }

  method EncodeVarint(value: nat) returns (result: array<Byte>)
    requires value < 0x1_0000_0000
    ensures fresh(result) && result[..] == Varint(value)
  {
    assert Varint(0) == [0];
    hide Varint, BitLength;
    if value == 0 {
      result := new Byte[] [0];
      return;
    }
    var bitLength := CountBits(value);
    VarintLength(value);
    result := FillBytes(value, (bitLength + 6) / 7);
  }

  /** Writes the groups of seven bits, lowest first. */
  method FillBytes(value: nat, lengthInBytes: nat) returns (result: array<Byte>)
    requires lengthInBytes == |Varint(value)|
    ensures fresh(result) && result[..] == Varint(value)
  {
    hide Varint;
    result := new Byte[lengthInBytes];
    var rest := value;
    VarintIsNonempty(value);
    for i := 0 to lengthInBytes
      invariant i < lengthInBytes ==> result[..i] + Varint(rest) == Varint(value)
      invariant i == lengthInBytes ==> result[..i] == Varint(value)
    {
      ghost var before, remaining := result[..i], rest;
      VarintStep(before, remaining, Varint(value));
      var b := rest % 128;
      if rest > 127 {
        b := b + 128;
      }
      result[i] := b;
      rest := rest / 128;
      assert result[..i + 1] == before + [b];
    }
    assert result[..lengthInBytes] == result[..];
  }

  lemma VarintIsNonempty(value: nat)
    ensures |Varint(value)| > 0
  {}

  /** The next byte of an encoding that has `before` behind it and `remaining` ahead. */
  lemma VarintStep(before: seq<Byte>, remaining: nat, all: seq<Byte>)
    requires before + Varint(remaining) == all
    ensures if remaining < 128 then before + [remaining] == all
            else before + [128 + remaining % 128] + Varint(remaining / 128) == all && |before| + 1 < |all|
    ensures remaining < 128 ==> |before| + 1 == |all|
  {}

  // ---- The builder ----

  /** What a builder can hold fits an `int` for every limit up to 57 bits. */
  lemma AccumulatorFits(bytes: seq<Byte>, maxLength: nat)
    requires |bytes| <= 1 || 7 * (|bytes| - 1) < maxLength
    ensures 7 * |bytes| <= maxLength ==> Payload(bytes) < Pow2(maxLength)
    ensures maxLength <= 57 ==> Payload(bytes) < 0x8000_0000_0000_0000
  {
    hide Pow2, Payload;
    PayloadBound(bytes);
    if 7 * |bytes| <= maxLength {
      Pow2Grows(7 * |bytes|, maxLength);
    }
    if maxLength <= 57 {
      FitsSixtyThreeBits(7 * |bytes|);
    }
  }

  lemma OneMoreByte(bytes: seq<Byte>, b: Byte)
    requires AllContinue(bytes)
    ensures if b >= 128 then AllContinue(bytes + [b]) else IsVarint(bytes + [b])
    ensures AllContinue([])
  {
    assert (bytes + [b])[..|bytes|] == bytes;
  }

  datatype Progress = More | Value(value: nat) | TooLong | AlreadyDone

  class VarintBuilder {
    const maxLength: nat
    var value: nat
    var bits: nat
    var done: bool
    /** The bytes since the last reset. */
    ghost var consumed: seq<Byte>

    constructor (maxLength: nat)
      ensures this.maxLength == maxLength && Valid() && !done && consumed == []
    {
      this.maxLength, value, bits, done, consumed := maxLength, 0, 0, false, [];
    }

    ghost predicate Valid()
      reads this
    {
      && value == Payload(consumed) && bits == 7 * |consumed|
      && (!done ==> AllContinue(consumed) && (consumed != [] ==> bits < maxLength))
      && (|consumed| <= 1 || 7 * (|consumed| - 1) < maxLength)
    }

    /**
     Takes one more byte. It succeeds exactly when the bytes so far are a varint of
     a number of at most `maxLength` bits, and gives up as soon as more bytes would
     be too many.
     */
    method Add(b: Byte) returns (progress: Progress)
      requires Valid()
      modifies this`value, this`bits, this`done, this`consumed
      ensures Valid()
      ensures old(done) ==> progress == AlreadyDone && done && consumed == old(consumed)
      ensures !old(done) ==> consumed == old(consumed) + [b] && progress != AlreadyDone
      ensures !old(done) ==> (done <==> !progress.More?)
      ensures !old(done) ==> (progress.More? <==> b >= 128 && 7 * |consumed| < maxLength)
      ensures !old(done) ==>
                (progress.Value? <==> b < 128 && Payload(consumed) < Pow2(maxLength))
      ensures progress.Value? ==> IsVarint(consumed) && progress.value == Payload(consumed) < Pow2(maxLength)
      ensures |consumed| <= 1 || 7 * (|consumed| - 1) < maxLength
      ensures !old(done) && maxLength <= 57 ==> value < 0x8000_0000_0000_0000
    {
      hide Pow2, ShiftLeft, LowBits, Payload, IsVarint, AllContinue;
      if done {
        return AlreadyDone;
      }
      PayloadAppend(consumed, b);
      OneMoreByte(consumed, b);
      consumed := consumed + [b];
      value := value + ShiftLeft(LowBits(b), bits);
      bits := bits + 7;
      AccumulatorFits(consumed, maxLength);
      if b > 0x7f {
        if bits >= maxLength {
          done := true;
          return TooLong;
        }
        return More;
      }
      done := true;
      if bits > maxLength && value >= Pow2(maxLength) {
        return TooLong;
      }
      return Value(value);
    }

    method Reset()
      modifies this`value, this`bits, this`done, this`consumed
      ensures Valid() && !done && consumed == []
    {
      value, bits, done, consumed := 0, 0, false, [];
    }
  }
}
