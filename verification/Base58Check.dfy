/** Base58Check text: the Base58 of a payload followed by four bytes of its double SHA-256. */
module Base58Check {
  import opened ByteStrings
  import opened Wrappers
  import Base58

  /** A hash is any function to numbers; the digest is the low 32 bytes, and nothing else is assumed. */
  type Hash256 = Bytes -> nat

  datatype DecodeError = NotBase58 | TooShort | ChecksumMismatch

  function Checksum(sha256d: Hash256, payload: Bytes): (sum: Bytes)
    ensures |sum| == 4
  {
    ToBE(sha256d(payload), 32)[..4]
  }

  function Encode(sha256d: Hash256, payload: Bytes): string {
    Base58.Encode(payload + Checksum(sha256d, payload))
  }

  function Decode(sha256d: Hash256, text: string): Result<Bytes, DecodeError> {
    match Base58.Decode(text)
    case None => Err(NotBase58)
    case Some(buf) =>
      if |buf| < 4 then Err(TooShort)
      else
        var payload := buf[..|buf| - 4];
        if buf[|buf| - 4..] == Checksum(sha256d, payload) then Ok(payload) else Err(ChecksumMismatch)
  }

  lemma DecodeInvertsEncode(sha256d: Hash256, payload: Bytes)
    ensures Decode(sha256d, Encode(sha256d, payload)) == Ok(payload)
  {
    var buf := payload + Checksum(sha256d, payload);
    Base58.DecodeInvertsEncode(buf);
    assert buf[..|buf| - 4] == payload;
  }

  lemma EncodeInvertsDecode(sha256d: Hash256, text: string)
    requires Decode(sha256d, text).Ok?
    ensures Encode(sha256d, Decode(sha256d, text).value) == text
  {
    var buf := Base58.Decode(text).value;
    Base58.EncodeInvertsDecode(text);
    assert buf == buf[..|buf| - 4] + buf[|buf| - 4..];
  }

  /** The text is that of the payload followed by the first four bytes of its 32-byte digest. */
  lemma EncodedBytes(sha256d: Hash256, payload: Bytes)
    ensures Base58.Decode(Encode(sha256d, payload)) == Some(payload + ToBE(sha256d(payload), 32)[..4])
  {
    Base58.DecodeInvertsEncode(payload + Checksum(sha256d, payload));
  }

  /** A text is refused as foreign, too short or wrongly summed, in this order. */
  lemma Refusals(sha256d: Hash256, text: string)
    ensures Decode(sha256d, text) == Err(NotBase58) <==> Base58.Decode(text).None?
    ensures Decode(sha256d, text) == Err(TooShort) <==> Base58.Decode(text).Some? && |Base58.Decode(text).value| < 4
    ensures Decode(sha256d, text) == Err(ChecksumMismatch)
       <==> Base58.Decode(text).Some?
            && var buf := Base58.Decode(text).value;
               |buf| >= 4 && buf[|buf| - 4..] != ToBE(sha256d(buf[..|buf| - 4]), 32)[..4]
  {
    hide Base58.Decode, ToBE;
  }
}
