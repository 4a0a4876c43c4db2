/** The header of binary archives: a magic prefix and a schema fingerprint
    (hirpdag/src/base/serialize.rs). How a fingerprint is encoded is a parameter. */
module Header {
  import opened Basics

  type Byte = b: nat | b < 256

  /** 0x89 "HPDG" CR 0x1a LF. */
  const MAGIC: seq<Byte> := [0x89, 0x48, 0x50, 0x44, 0x47, 0x0d, 0x1a, 0x0a]

  datatype Fingerprint = Fingerprint(hash: nat, name: string)

  datatype Payload =
    | Payload(bytes: seq<Byte>)
    | BadMagic
    | SchemaMismatch(expected: Fingerprint, found: Fingerprint)
    | Format

  type Encoder = Fingerprint -> Option<seq<Byte>>
  type Decoder = seq<Byte> -> Option<(Fingerprint, seq<Byte>)>

  /** What is needed of the codec: decoding finds what was encoded and where it ends. */
  ghost predicate PrefixCodec(encode: Encoder, decode: Decoder) {
    forall f, rest :: encode(f).Some? ==> decode(encode(f).value + rest) == Some((f, rest))
  }

  /** Fails exactly if the fingerprint cannot be encoded. */
  method WriteBinaryHeader(f: Fingerprint, encode: Encoder) returns (r: Result<seq<Byte>>)
    ensures r.Ok? <==> encode(f).Some?
    ensures r.Ok? ==> IsHeader(r.value, f, encode)
  {
    var bytes := [];
    bytes := bytes + MAGIC;
    var fp := encode(f);
    if fp.None? {
      return Err;
    }
    bytes := bytes + fp.value;
    r := Ok(bytes);
  }

  /** The magic prefix, then the fingerprint, and nothing else. */
  predicate IsHeader(bytes: seq<Byte>, f: Fingerprint, encode: Encoder) {
    MAGIC <= bytes && encode(f) == Some(bytes[|MAGIC|..])
  }

  function StripMagic(bytes: seq<Byte>): Option<seq<Byte>> {
    if MAGIC <= bytes then Some(bytes[|MAGIC|..]) else None
  }

  /** Only the hash of a fingerprint decides; its name is for the error message. */
  function ReadBinaryHeader(bytes: seq<Byte>, expected: Fingerprint, decode: Decoder): Payload {
    match StripMagic(bytes)
    case None => BadMagic
    case Some(payload) =>
      match decode(payload)
      case None => Format
      case Some((found, rest)) => if found.hash != expected.hash then SchemaMismatch(expected, found) else Payload(rest)
  }

  /** Behind a header written for `f`, a reader that expects `expected` finds exactly the
      payload if the hashes agree, and reports both fingerprints if they do not. */
  lemma HeaderRoundTrip(f: Fingerprint, header: seq<Byte>, payload: seq<Byte>, expected: Fingerprint,
                        encode: Encoder, decode: Decoder)
    requires PrefixCodec(encode, decode) && IsHeader(header, f, encode)
    ensures ReadBinaryHeader(header + payload, expected, decode) ==
      if f.hash == expected.hash then Payload(payload) else SchemaMismatch(expected, f)
  {
    assert (header + payload)[|MAGIC|..] == encode(f).value + payload;
  }

  /** 0x89, the letters HPDG, CR, 0x1a, LF. */
  predicate HasMagic(bytes: seq<Byte>) {
    && |bytes| >= 8
    && bytes[0] == 0x89 && bytes[1] == 0x48 && bytes[2] == 0x50 && bytes[3] == 0x44
    && bytes[4] == 0x47 && bytes[5] == 0x0d && bytes[6] == 0x1a && bytes[7] == 0x0a
  }

  /** What every sequence of bytes is read as: each answer says exactly what is in front. */
  lemma EveryHeader(bytes: seq<Byte>, expected: Fingerprint, decode: Decoder)
    ensures ReadBinaryHeader(bytes, expected, decode).BadMagic? <==> !HasMagic(bytes)
    ensures ReadBinaryHeader(bytes, expected, decode).Format? <==> HasMagic(bytes) && decode(bytes[8..]) == None
    ensures forall found: Fingerprint, rest: seq<Byte> ::
      HasMagic(bytes) && decode(bytes[8..]) == Some((found, rest)) ==>
      ReadBinaryHeader(bytes, expected, decode) ==
        if found.hash == expected.hash then Payload(rest) else SchemaMismatch(expected, found)
  {
    MagicIsPrefix(bytes);
  }

  lemma MagicIsPrefix(bytes: seq<Byte>)
    ensures MAGIC <= bytes <==> HasMagic(bytes)
  {
    if HasMagic(bytes) {
      assert bytes[..8] == MAGIC;
    }
  }
}
