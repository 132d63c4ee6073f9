/** The origin field of a header query: a block hash or a block number, told apart by
    payload size. RLP as in Appendix B of the Ethereum Yellow Paper. */
module OriginCodec {
  import opened Types
  import opened Words

  // ----- Minimal big-endian integers -----

  function ToBytes(n: nat): Bytes {
    if n == 0 then [] else ToBytes(n / 256) + [n % 256]
  }

  lemma {:induction false} BytesDenote(n: nat)
    ensures BigEndian(ToBytes(n)) == n
    ensures n > 0 ==> ToBytes(n) != [] && ToBytes(n)[0] != 0
  {
    if n > 0 {
      BytesDenote(n / 256);
      assert ToBytes(n)[..|ToBytes(n)| - 1] == ToBytes(n / 256);
    }
  }

  lemma {:induction false} MinimalBytes(bs: Bytes)
    requires bs != [] ==> bs[0] != 0
    ensures ToBytes(BigEndian(bs)) == bs
    ensures bs != [] ==> BigEndian(bs) > 0
  {
    if bs != [] {
      var p := bs[..|bs| - 1];
      MinimalBytes(p);
      assert BigEndian(bs) / 256 == BigEndian(p) && BigEndian(bs) % 256 == bs[|bs| - 1];
      assert bs == p + [bs[|bs| - 1]];
    }
  }

  lemma {:induction false} ByteCount(x: nat, n: nat)
    requires x < Range(n)
    ensures |ToBytes(x)| <= n
  {
    if x > 0 {
      ByteCount(x / 256, n - 1);
    }
  }

  /** A uint64 needs at most eight bytes. */
  lemma UintFits(n: Uint64)
    ensures |ToBytes(n)| <= 8
  {
    EightBytes();
    ByteCount(n, 8);
  }

  // ----- Encoding -----

  datatype Value = Value(hash: Hash, number: Uint64)

  datatype Error =
    | EndOfInput | ValueTooLarge | CanonSize | CanonInt | ExpectedString
    | InvalidSize | BothProvided

  function EncodeUint(n: Uint64): Bytes {
    UintFits(n);
    if n == 0 then [0x80]
    else if n < 0x80 then [n]
    else [0x80 + |ToBytes(n)|] + ToBytes(n)
  }

  function EncodeHash(h: Hash): Bytes {
    [0x80 + 32] + h
  }

  function Encode(v: Value): Result<Bytes, Error> {
    if v.hash == ZERO_HASH then Ok(EncodeUint(v.number))
    else if v.number != 0 then Err(BothProvided)
    else Ok(EncodeHash(v.hash))
  }

  // ----- Decoding -----

  datatype Kind = Byte(b: Types.Byte) | String | List

  /** What the stream reports about the next item: its kind, its payload size, and the
      input behind the tag. */
  datatype Tag = Tag(kind: Kind, size: nat, rest: Bytes)

  /** A length stored in n bytes behind the tag byte: no leading zero, at least 56. */
  function LongTag(kind: Kind, input: Bytes, n: nat): Result<Tag, Error>
    requires 1 <= n
  {
    if |input| < n then Err(EndOfInput)
    else if n > 1 && input[0] == 0 then Err(CanonSize)
    else
      var size := BigEndian(input[..n]);
      if size < 56 then Err(CanonSize) else Ok(Tag(kind, size, input[n..]))
  }

  function ReadTag(input: Bytes): Result<Tag, Error> {
    if input == [] then Err(EndOfInput) else TagOf(input[0], input[1..])
  }

  function TagOf(b: Types.Byte, rest: Bytes): Result<Tag, Error> {
    if b < 0x80 then Ok(Tag(Byte(b), 0, rest))
    else if b < 0xB8 then Ok(Tag(String, b - 0x80, rest))
    else if b < 0xC0 then LongTag(String, rest, b - 0xB7)
    else if b < 0xF8 then Ok(Tag(List, b - 0xC0, rest))
    else LongTag(List, rest, b - 0xF7)
  }

  /** The tag, with the size checked against what is left of the input. */
  function ReadKind(input: Bytes): Result<Tag, Error> {
    match ReadTag(input)
    case Err(e) => Err(e)
    case Ok(t) => if t.size > |t.rest| then Err(ValueTooLarge) else Ok(t)
  }

  /** Decoding into a 32-byte array when the size is 32. */
  function DecodeHash(t: Tag): Result<(Hash, Bytes), Error>
    requires t.size == 32 <= |t.rest|
  {
    if t.kind == String then Ok((t.rest[..32], t.rest[32..])) else Err(ExpectedString)
  }

  function Word(bs: Bytes): Uint64
    requires |bs| <= 8
  {
    BytesBelowRange(bs);
    RangeGrows(|bs|, 8);
    EightBytes();
    BigEndian(bs)
  }

  /** Decoding into a uint64 when the size is at most 8. */
  function DecodeUint(t: Tag): Result<(Uint64, Bytes), Error>
    requires t.size <= 8 && t.size <= |t.rest|
  {
    match t.kind
    case Byte(b) => if b == 0 then Err(CanonInt) else Ok((b, t.rest))
    case List => Err(ExpectedString)
    case String => DecodeWord(t.rest[..t.size], t.rest[t.size..])
  }

  /** An integer payload: no leading zero, and no single byte that is its own encoding. */
  function DecodeWord(payload: Bytes, rest: Bytes): Result<(Uint64, Bytes), Error>
    requires |payload| <= 8
  {
    if |payload| >= 2 && payload[0] == 0 then Err(CanonInt)
    else if |payload| > 0 && Word(payload) < 0x80 then Err(CanonSize)
    else Ok((Word(payload), rest))
  }

  function HashDecoded(before: Value, r: Result<(Hash, Bytes), Error>): (Value, Result<Bytes, Error>) {
    if r.Ok? then (Value(r.value.0, 0), Ok(r.value.1)) else (before.(number := 0), Err(r.error))
  }

  function UintDecoded(before: Value, r: Result<(Uint64, Bytes), Error>): (Value, Result<Bytes, Error>) {
    if r.Ok? then (Value(ZERO_HASH, r.value.0), Ok(r.value.1)) else (before.(hash := ZERO_HASH), Err(r.error))
  }

  function DecodeTagged(before: Value, t: Tag): (Value, Result<Bytes, Error>)
    requires t.size <= |t.rest|
  {
    if t.size == 32 then HashDecoded(before, DecodeHash(t))
    else if t.size <= 8 then UintDecoded(before, DecodeUint(t))
    else (before, Err(InvalidSize))
  }

  /** What DecodeRLP leaves in its receiver, and the input behind the item. The field that
      does not apply is cleared before the other one is decoded. */
  function DecodeInto(before: Value, input: Bytes): (Value, Result<Bytes, Error>) {
    var tag := ReadKind(input);
    if tag.Err? then (before, Err(tag.error)) else DecodeTagged(before, tag.value)
  }

  // ----- Heads of items -----

  /** The first byte of the kind's short heads. */
  function Base(kind: Kind): nat
    requires !kind.Byte?
  {
    if kind == String then 0x80 else 0xC0
  }

  /** The bytes in front of a payload, for strings and lists. */
  function Head(kind: Kind, size: Uint64): Bytes
    requires !kind.Byte?
  {
    UintFits(size);
    if size < 56 then [Base(kind) + size] else [Base(kind) + 55 + |ToBytes(size)|] + ToBytes(size)
  }

  /** An item whose payload is complete. */
  ghost predicate StartsItem(input: Bytes, t: Tag) {
    && t.size <= |t.rest|
    && match t.kind
       case Byte(b) => b < 0x80 && t.size == 0 && input == [b] + t.rest
       case _ => t.size < TWO_64 && input == Head(t.kind, t.size) + t.rest
  }

  lemma ReadLong(kind: Kind, size: Uint64, rest: Bytes)
    requires !kind.Byte? && size >= 56
    ensures 1 <= |ToBytes(size)| <= 8
    ensures LongTag(kind, ToBytes(size) + rest, |ToBytes(size)|) == Ok(Tag(kind, size, rest))
  {
    var bytes := ToBytes(size);
    UintFits(size);
    BytesDenote(size);
    assert (bytes + rest)[..|bytes|] == bytes && (bytes + rest)[|bytes|..] == rest;
  }

  lemma ReadHead(kind: Kind, size: Uint64, rest: Bytes)
    requires !kind.Byte?
    ensures ReadTag(Head(kind, size) + rest) == Ok(Tag(kind, size, rest))
  {
    if size < 56 {
      assert Head(kind, size) + rest == [Base(kind) + size] + rest;
      assert ([Base(kind) + size] + rest)[1..] == rest;
    } else {
      ReadLong(kind, size, rest);
      var b, tail := Base(kind) + 55 + |ToBytes(size)|, ToBytes(size) + rest;
      assert Head(kind, size) + rest == [b] + tail;
      assert ([b] + tail)[1..] == tail;
    }
  }

  /** A canonical length does not start with a zero byte. */
  lemma NoLeadingZero(bytes: Bytes)
    requires bytes != [] && BigEndian(bytes) >= 56 && (|bytes| > 1 ==> bytes[0] != 0)
    ensures bytes[0] != 0
  {
    if |bytes| == 1 {
      assert BigEndian(bytes) == BigEndian(bytes[..0]) * 256 + bytes[0];
    }
  }

  lemma LongTagIsHead(kind: Kind, input: Bytes, n: nat)
    requires !kind.Byte? && 1 <= n <= 8 && LongTag(kind, input, n).Ok?
    ensures var t := LongTag(kind, input, n).value;
            t.kind == kind && t.size < TWO_64 && [Base(kind) + 55 + n] + input == Head(kind, t.size) + t.rest
  {
    var bytes := input[..n];
    BytesBelowRange(bytes);
    RangeGrows(n, 8);
    EightBytes();
    NoLeadingZero(bytes);
    MinimalBytes(bytes);
    assert input == bytes + input[n..];
  }

  /** What the stream reports is exactly the item the input starts with. */
  lemma ReadKindIff(input: Bytes, t: Tag)
    ensures ReadKind(input) == Ok(t) <==> StartsItem(input, t)
  {
    if StartsItem(input, t) {
      if t.kind.Byte? {
        assert input[1..] == t.rest;
      } else {
        ReadHead(t.kind, t.size, t.rest);
      }
    }
    if ReadKind(input) == Ok(t) {
      assert input == [input[0]] + input[1..];
      var b, rest := input[0], input[1..];
      if 0xB8 <= b < 0xC0 {
        LongTagIsHead(String, rest, b - 0xB7);
      } else if 0xF8 <= b {
        LongTagIsHead(List, rest, b - 0xF7);
      }
    }
  }

  /** The two rejections of complete items: a payload that is neither a hash nor short enough
      for a number, and a list where a string is due. */
  lemma RejectedIff(before: Value, input: Bytes)
    ensures DecodeInto(before, input).1 == Err(InvalidSize)
            <==> exists t :: StartsItem(input, t) && t.size != 32 && t.size > 8
    ensures DecodeInto(before, input).1 == Err(ExpectedString)
            <==> exists t :: StartsItem(input, t) && t.kind == List && (t.size == 32 || t.size <= 8)
  {
    var r := ReadKind(input);
    if t :| StartsItem(input, t) {
      ReadKindIff(input, t);
    }
    if r.Ok? {
      ReadKindIff(input, r.value);
      assert forall t :: StartsItem(input, t) ==> t == r.value by {
        forall t | StartsItem(input, t) ensures t == r.value {
          ReadKindIff(input, t);
        }
      }
    }
  }

  // ----- Round trips -----

  lemma DecodeEncodedUint(n: Uint64, rest: Bytes, before: Value)
    ensures DecodeInto(before, EncodeUint(n) + rest) == (Value(ZERO_HASH, n), Ok(rest))
  {
    UintFits(n);
    BytesDenote(n);
    var input := EncodeUint(n) + rest;
    if n < 0x80 {
      assert input[1..] == rest;
      assert n == 0 ==> rest[..0] == [] && BigEndian([]) == 0;
    } else {
      TaggedPayload(n, rest);
      assert DecodeTagged(before, Tag(String, |ToBytes(n)|, ToBytes(n) + rest)) == (Value(ZERO_HASH, n), Ok(rest)) by {
        assert (ToBytes(n) + rest)[..|ToBytes(n)|] == ToBytes(n) && (ToBytes(n) + rest)[|ToBytes(n)|..] == rest;
      }
    }
  }

  /** The tag in front of an integer payload announces exactly that payload. */
  lemma TaggedPayload(n: Uint64, rest: Bytes)
    requires n >= 0x80
    ensures |ToBytes(n)| <= 8 && ReadKind(EncodeUint(n) + rest) == Ok(Tag(String, |ToBytes(n)|, ToBytes(n) + rest))
  {
    UintFits(n);
    ReadShortString(|ToBytes(n)|, ToBytes(n) + rest);
    assert EncodeUint(n) + rest == [0x80 + |ToBytes(n)|] + (ToBytes(n) + rest);
  }

  lemma ReadShortString(size: nat, rest: Bytes)
    requires size < 56 && size <= |rest|
    ensures ReadKind([0x80 + size] + rest) == Ok(Tag(String, size, rest))
  {
    assert ([0x80 + size] + rest)[1..] == rest;
  }

  lemma DecodeEncodedHash(h: Hash, rest: Bytes, before: Value)
    ensures DecodeInto(before, EncodeHash(h) + rest) == (Value(h, 0), Ok(rest))
  {
    ReadShortString(32, h + rest);
    assert EncodeHash(h) + rest == [0x80 + 32] + (h + rest);
    assert (h + rest)[..32] == h && (h + rest)[32..] == rest;
  }

  /** A value with at most one field set, and no other, encodes; decoding returns it
      whatever follows in the stream and whatever the receiver held before. */
  lemma RoundTrip(v: Value, rest: Bytes, before: Value)
    ensures Encode(v).Ok? <==> v.hash == ZERO_HASH || v.number == 0
    ensures Encode(v).Ok? ==> DecodeInto(before, Encode(v).value + rest) == (v, Ok(rest))
  {
    if v.hash == ZERO_HASH {
      DecodeEncodedUint(v.number, rest, before);
    } else if v.number == 0 {
      DecodeEncodedHash(v.hash, rest, before);
    }
  }

  lemma EncodingIsInjective(v: Value, w: Value)
    requires Encode(v).Ok? && Encode(v) == Encode(w)
    ensures v == w
  {
    RoundTrip(v, [], v);
    RoundTrip(w, [], v);
  }

  /** A number's payload has at most 8 bytes, so it is never taken for a 32-byte hash. */
  lemma SizesNeverCollide(n: Uint64, h: Hash)
    ensures |EncodeUint(n)| <= 9 && |EncodeHash(h)| == 33
    ensures ReadKind(EncodeUint(n)).Ok? && ReadKind(EncodeUint(n)).value.size <= 8
    ensures ReadKind(EncodeHash(h)).Ok? && ReadKind(EncodeHash(h)).value.size == 32
  {
    UintFits(n);
  }

  /** The one accepted input that does not encode back to itself. */
  predicate StartsWithZeroHash(input: Bytes) {
    |input| >= 33 && input[..33] == [0x80 + 32] + ZERO_HASH
  }

  lemma AcceptedUint(t: Tag, input: Bytes)
    requires ReadKind(input) == Ok(t) && t.size <= 8 && DecodeUint(t).Ok?
    ensures EncodeUint(DecodeUint(t).value.0) + DecodeUint(t).value.1 == input
  {
    ShortTagForSmallSize(t, input);
    assert input == [input[0]] + t.rest;
    if t.kind == String {
      AcceptedWord(t.rest[..t.size], t.rest[t.size..]);
      Rejoin(input[0], t.rest, t.size);
    }
  }

  lemma Rejoin(b: Types.Byte, rest: Bytes, n: nat)
    requires n <= |rest|
    ensures ([b] + rest[..n]) + rest[n..] == [b] + rest
  {
  }

  /** An accepted integer payload is the minimal one, and its tag is the short one. */
  lemma AcceptedWord(payload: Bytes, rest: Bytes)
    requires |payload| <= 8 && DecodeWord(payload, rest).Ok?
    ensures EncodeUint(Word(payload)) == [0x80 + |payload|] + payload
  {
    if |payload| == 1 {
      assert BigEndian(payload[..0]) == 0;
    }
    MinimalBytes(payload);
  }

  lemma ShortTagForSmallSize(t: Tag, input: Bytes)
    requires ReadKind(input) == Ok(t) && t.size < 56
    ensures t.rest == input[1..]
    ensures t.kind == String ==> input[0] == 0x80 + t.size
    ensures t.kind.Byte? ==> input[0] == t.kind.b < 0x80
  {
  }

  /** Every accepted input encodes back to the bytes it was read from, except the 32-zero
      hash, which becomes the number 0. */
  lemma Reencode(before: Value, input: Bytes)
    requires DecodeInto(before, input).1.Ok?
    ensures var (v, r) := DecodeInto(before, input);
            && Encode(v).Ok?
            && (Encode(v).value + r.value == input <==> !StartsWithZeroHash(input))
            && (StartsWithZeroHash(input) ==> v == Value(ZERO_HASH, 0) && Encode(v) == Ok([0x80]))
  {
    var t := ReadKind(input).value;
    ShortTagForSmallSize(t, input);
    if t.size == 32 {
      assert input == [input[0]] + (t.rest[..32] + t.rest[32..]);
      assert input[..33] == [input[0]] + t.rest[..32];
      if t.rest[..32] == ZERO_HASH {
        assert Encode(DecodeInto(before, input).0) == Ok([0x80]);
        assert ([0x80] + t.rest[32..])[0] != input[0];
      } else {
        assert input[..33][1..] == t.rest[..32];
        assert ([0x80 + 32] + ZERO_HASH)[1..] == ZERO_HASH;
      }
    } else {
      AcceptedUint(t, input);
      assert t.size <= 8;
      assert !StartsWithZeroHash(input) by {
        assert input[0] != 0x80 + 32;
        assert |input| >= 33 ==> input[..33][0] == input[0];
      }
    }
  }

  /** The encoded zero hash is accepted, although nothing encodes to it. */
  lemma ZeroHashAccepted(before: Value, input: Bytes)
    requires StartsWithZeroHash(input)
    ensures DecodeInto(before, input) == (Value(ZERO_HASH, 0), Ok(input[33..]))
  {
    DecodeEncodedHash(ZERO_HASH, input[33..], before);
    assert EncodeHash(ZERO_HASH) + input[33..] == input;
  }

  /** Exactly what is accepted: what starts with the encoding of a value that has one, or with
      the encoded zero hash. */
  lemma AcceptedIff(before: Value, input: Bytes)
    ensures DecodeInto(before, input).1.Ok?
            <==> StartsWithZeroHash(input) || exists v, rest :: Encode(v).Ok? && Encode(v).value + rest == input
  {
    if StartsWithZeroHash(input) {
      ZeroHashAccepted(before, input);
    } else if DecodeInto(before, input).1.Ok? {
      Reencode(before, input);
      var (v, r) := DecodeInto(before, input);
      assert Encode(v).Ok? && Encode(v).value + r.value == input;
    } else if v, rest :| Encode(v).Ok? && Encode(v).value + rest == input {
      RoundTrip(v, rest, before);
    }
  }

  // ----- The struct -----

  class HashOrNumber {
    var hash: Hash
    var number: Uint64

    ghost function Fields(): Value
      reads this
    {
      Value(hash, number)
    }

    constructor (hash: Hash, number: Uint64)
      ensures Fields() == Value(hash, number)
    {
      this.hash, this.number := hash, number;
    }

    method EncodeRLP() returns (r: Result<Bytes, Error>)
      ensures r == Encode(Fields())
    {
      if hash == ZERO_HASH {
        return Ok(EncodeUint(number));
      }
      if number != 0 {
        return Err(BothProvided);
      }
      r := Ok(EncodeHash(hash));
    }

    method DecodeRLP(input: Bytes) returns (r: Result<Bytes, Error>)
      modifies this
      ensures (Fields(), r) == DecodeInto(old(Fields()), input)
    {
      var kind := ReadKind(input);
      if kind.Err? {
        return Err(kind.error);
      }
      var t := kind.value;
      if t.size == 32 {
        number := 0;
        var d := DecodeHash(t);
        if d.Err? {
          return Err(d.error);
        }
        hash := d.value.0;
        return Ok(d.value.1);
      } else if t.size <= 8 {
        hash := ZERO_HASH;
        var d := DecodeUint(t);
        if d.Err? {
          return Err(d.error);
        }
        number := d.value.0;
        return Ok(d.value.1);
      }
      r := Err(InvalidSize);
    }
  }
}
