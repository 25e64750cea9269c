/** The signature hash preimage (BIP 143, section "Specification"): a cursor parser and the layout it reads. */
module Preimages {
  import opened ByteStrings
  import opened Wrappers

  datatype ParseError = RangeError | TypeError

  /** The byte fields in order; `outpoint` spans `prevTxId` and `outputIndex`. */
  datatype Fields = Fields(nVersion: Bytes, hashPrevouts: Bytes, hashSequence: Bytes, outpoint: Bytes,
                           prevTxId: Bytes, outputIndex: Bytes, scriptCode: Bytes, amount: Bytes, nSequence: Bytes,
                           hashOutputs: Bytes, nLockTime: Bytes, sighashType: Bytes)
  {
    predicate HasSizes() {
      && |nVersion| == 4 && |hashPrevouts| == 32 && |hashSequence| == 32 && |prevTxId| == 32 && |outputIndex| == 4
      && outpoint == prevTxId + outputIndex
      && |amount| == 8 && |nSequence| == 4 && |hashOutputs| == 32 && |nLockTime| == 4 && |sighashType| == 4
    }
  }

  datatype Values = Values(nVersion: nat, outputIndex: nat, amount: nat, nSequence: nat, nLockTime: nat,
                           sighashType: nat)

  function ValuesOf(f: Fields): Values {
    Values(FromLE(f.nVersion), FromLE(f.outputIndex), FromLE(f.amount), FromLE(f.nSequence), FromLE(f.nLockTime),
           FromLE(f.sighashType))
  }

  // ---- the layout ----

  /** BIP 143 takes its length prefix from the transaction format: the shortest form that fits. */
  function CompactSize(n: nat): Bytes
    requires n < 0x1_0000_0000_0000_0000
  {
    if n < 0xfd then [n]
    else if n <= 0xffff then [0xfd] + ToLE(n, 2)
    else if n <= 0xffff_ffff then [0xfe] + ToLE(n, 4)
    else [0xff] + ToLE(n, 8)
  }

  function Head(f: Fields): Bytes { f.nVersion + f.hashPrevouts + f.hashSequence + f.outpoint }

  function Foot(f: Fields): Bytes { f.amount + f.nSequence + f.hashOutputs + f.nLockTime + f.sighashType }

  function Write(f: Fields): Bytes
    requires |f.scriptCode| < 0x1_0000_0000_0000_0000
  {
    Head(f) + CompactSize(|f.scriptCode|) + f.scriptCode + Foot(f)
  }

  // ---- the parser, as a function of the buffer ----

  /** `buffer.subarray`: bounds past the end are clamped. */
  function Sub(buf: Bytes, start: nat, end: nat): Bytes
    requires start <= end
  {
    if start >= |buf| then [] else if end >= |buf| then buf[start..] else buf[start..end]
  }

  /** A read of `size` bytes: it throws past the end. */
  function Read(buf: Bytes, offset: nat, size: nat): Result<nat, ParseError> {
    if offset + size > |buf| then Err(RangeError) else Ok(FromLE(buf[offset..offset + size]))
  }

  datatype Length = Small(n: nat) | Big(n: nat)

  /** `readVarInt`; the eight-byte form answers a BigInt. */
  function ReadVarInt(buf: Bytes, offset: nat): Result<Length, ParseError> {
    if offset >= |buf| then Err(RangeError)
    else if buf[offset] < 0xfd then Ok(Small(buf[offset]))
    else
      var size := if buf[offset] == 0xfd then 2 else if buf[offset] == 0xfe then 4 else 8;
      match Read(buf, offset + 1, size)
      case Err(e) => Err(e)
      case Ok(n) => Ok(if size == 8 then Big(n) else Small(n))
  }

  /** `getVarIntLength`: of the value, not of the prefix that was read. */
  function VarIntLength(n: nat): nat {
    if n < 0xfd then 1 else if n <= 0xffff then 3 else if n <= 0xffff_ffff then 5 else 9
  }

  const SCRIPT_LENGTH_AT := 104
  const FOOT_SIZE := 52

  const UNREAD := Fields([], [], [], [], [], [], [], [], [], [], [], [])

  /** The fields before the script length. */
  function WithHead(f: Fields, buf: Bytes): Fields {
    f.(nVersion := Sub(buf, 0, 4), hashPrevouts := Sub(buf, 4, 36), hashSequence := Sub(buf, 36, 68),
       outpoint := Sub(buf, 68, 104), prevTxId := Sub(buf, 68, 100), outputIndex := Sub(buf, 100, 104))
  }

  function WithHeadValues(v: Values, buf: Bytes): Values {
    v.(nVersion := FromLE(Sub(buf, 0, 4)), outputIndex := FromLE(Sub(buf, 100, 104)))
  }

  /** The fields after the script. */
  function WithFoot(f: Fields, buf: Bytes, foot: nat): Fields {
    f.(amount := Sub(buf, foot, foot + 8), nSequence := Sub(buf, foot + 8, foot + 12),
       hashOutputs := Sub(buf, foot + 12, foot + 44), nLockTime := Sub(buf, foot + 44, foot + 48),
       sighashType := Sub(buf, foot + 48, foot + 52))
  }

  function WithFootValues(v: Values, buf: Bytes, foot: nat): Values {
    v.(amount := FromLE(Sub(buf, foot, foot + 8)), nSequence := FromLE(Sub(buf, foot + 8, foot + 12)),
       nLockTime := FromLE(Sub(buf, foot + 44, foot + 48)), sighashType := FromLE(Sub(buf, foot + 48, foot + 52)))
  }

  function FieldsAt(buf: Bytes, script: nat, foot: nat): Fields
    requires script <= foot
  {
    WithFoot(WithHead(UNREAD, buf).(scriptCode := Sub(buf, script, foot)), buf, foot)
  }

  /** The fields, their values and `isValid`; a BigInt length cannot be added to the cursor. */
  function Parse(buf: Bytes): Result<(Fields, Values, bool), ParseError> {
    if |buf| < SCRIPT_LENGTH_AT then Err(RangeError)
    else
      match ReadVarInt(buf, SCRIPT_LENGTH_AT)
      case Err(e) => Err(e)
      case Ok(Big(_)) => Err(TypeError)
      case Ok(Small(n)) =>
        var script := SCRIPT_LENGTH_AT + VarIntLength(n);
        var end := script + n + FOOT_SIZE;
        if |buf| < end then Err(RangeError)
        else
          var f := FieldsAt(buf, script, script + n);
          Ok((f, ValuesOf(f), end == |buf| && |buf| >= 108))
  }

  /** What a read answers is the value of the bytes the cursor stands on. */
  lemma ReadsAreFields(buf: Bytes)
    ensures forall o: nat, size: nat | Read(buf, o, size).Ok? ::
      Read(buf, o, size).value == FromLE(Sub(buf, o, o + size))
  {
    forall o: nat, size: nat | Read(buf, o, size).Ok?
      ensures Read(buf, o, size).value == FromLE(Sub(buf, o, o + size))
    {
      assert Sub(buf, o, o + size) == buf[o..o + size];
    }
  }

  // ---- the object ----

  class CovenantPreimage {
    const buffer: Bytes
    var fields: Fields
    var values: Values
    var isValid: bool

    constructor (buffer: Bytes)
      ensures this.buffer == buffer && !isValid
    {
      this.buffer := buffer;
      fields := UNREAD;
      values := Values(0, 0, 0, 0, 0, 0);
      isValid := false;
    }

    /** The part before the script length. Each value is read as the cursor passes, and a bad read throws. */
    method ParseHead() returns (r: Result<nat, ParseError>)
      modifies this`fields, this`values
      ensures r == if |buffer| < SCRIPT_LENGTH_AT then Err(RangeError) else Ok(SCRIPT_LENGTH_AT)
      ensures r.Ok? ==> fields == WithHead(old(fields), buffer) && values == WithHeadValues(old(values), buffer)
    {
      hide Sub, FromLE;
      ReadsAreFields(buffer);
      var offset := 0;
      fields := fields.(nVersion := Sub(buffer, offset, offset + 4));
      var nVersion := Read(buffer, offset, 4);
      if nVersion.Err? { return Err(nVersion.error); }
      values := values.(nVersion := nVersion.value);
      offset := offset + 4;

      fields := fields.(hashPrevouts := Sub(buffer, offset, offset + 32));
      offset := offset + 32;
      fields := fields.(hashSequence := Sub(buffer, offset, offset + 32));
      offset := offset + 32;

      fields := fields.(outpoint := Sub(buffer, offset, offset + 36), prevTxId := Sub(buffer, offset, offset + 32));
      offset := offset + 32;
      fields := fields.(outputIndex := Sub(buffer, offset, offset + 4));
      var outputIndex := Read(buffer, offset, 4);
      if outputIndex.Err? { return Err(outputIndex.error); }
      values := values.(outputIndex := outputIndex.value);
      offset := offset + 4;
      r := Ok(offset);
    }

    /** The part after the script. */
    method ParseFoot(start: nat) returns (r: Result<nat, ParseError>)
      modifies this`fields, this`values
      ensures r == if |buffer| < start + FOOT_SIZE then Err(RangeError) else Ok(start + FOOT_SIZE)
      ensures r.Ok? ==>
        fields == WithFoot(old(fields), buffer, start) && values == WithFootValues(old(values), buffer, start)
    {
      hide Sub, FromLE;
      ReadsAreFields(buffer);
      var offset := start;
      fields := fields.(amount := Sub(buffer, offset, offset + 8));
      var amount := Read(buffer, offset, 8);
      if amount.Err? { return Err(amount.error); }
      values := values.(amount := amount.value);
      offset := offset + 8;

      fields := fields.(nSequence := Sub(buffer, offset, offset + 4));
      var nSequence := Read(buffer, offset, 4);
      if nSequence.Err? { return Err(nSequence.error); }
      values := values.(nSequence := nSequence.value);
      offset := offset + 4;

      fields := fields.(hashOutputs := Sub(buffer, offset, offset + 32));
      offset := offset + 32;

      fields := fields.(nLockTime := Sub(buffer, offset, offset + 4));
      var nLockTime := Read(buffer, offset, 4);
      if nLockTime.Err? { return Err(nLockTime.error); }
      values := values.(nLockTime := nLockTime.value);
      offset := offset + 4;

      fields := fields.(sighashType := Sub(buffer, offset, offset + 4));
      var sighashType := Read(buffer, offset, 4);
      if sighashType.Err? { return Err(sighashType.error); }
      values := values.(sighashType := sighashType.value);
      offset := offset + 4;
      r := Ok(offset);
    }

    /** The cursor runs over the head, the script and the foot. */
    method ParseFields() returns (r: Result<(), ParseError>)
      modifies this
      ensures match Parse(buffer)
              case Ok((f, v, valid)) => r.Ok? && fields == f && values == v && isValid == valid
              case Err(e) => r == Err(e)
    {
      hide Sub, FromLE, ReadVarInt, VarIntLength;
      var head := ParseHead();
      if head.Err? { return Err(head.error); }
      var offset := head.value;

      var scriptLen := ReadVarInt(buffer, offset);
      if scriptLen.Err? { return Err(scriptLen.error); }
      offset := offset + VarIntLength(scriptLen.value.n);
      if scriptLen.value.Big? { return Err(TypeError); }
      var n := scriptLen.value.n;
      fields := fields.(scriptCode := Sub(buffer, offset, offset + n));
      offset := offset + n;

      var foot := ParseFoot(offset);
      if foot.Err? { return Err(foot.error); }
      offset := foot.value;

      isValid := offset == |buffer| && |buffer| >= 108;
      r := Ok(());
    }
  }

  // ---- outcomes ----

  /** The end of the preimage as the parser will compute it, if it can read a usable length. */
  function EndOf(buf: Bytes): Option<nat> {
    match ReadVarInt(buf, SCRIPT_LENGTH_AT)
    case Ok(Small(n)) => Some(SCRIPT_LENGTH_AT + VarIntLength(n) + n + FOOT_SIZE)
    case _ => None
  }

  /**
   * Every outcome: a preimage is valid when it ends just where its length says, parsed but invalid
   * when bytes are left over, and a RangeError when bytes are missing; an eight-byte length is a
   * TypeError.
   */
  lemma Outcomes(buf: Bytes)
    ensures Parse(buf).Ok? <==> EndOf(buf).Some? && |buf| >= EndOf(buf).value
    ensures Parse(buf).Ok? ==> (Parse(buf).value.2 <==> |buf| == EndOf(buf).value)
    ensures Parse(buf) == Err(TypeError) <==> |buf| >= SCRIPT_LENGTH_AT + 9 && buf[SCRIPT_LENGTH_AT] == 0xff
  {
    hide FieldsAt, ValuesOf, FromLE;
  }

  // ---- writing, then parsing ----

  lemma CompactSizeReads(n: nat, before: Bytes, after: Bytes)
    requires n < 0x1_0000_0000_0000_0000
    ensures ReadVarInt(before + CompactSize(n) + after, |before|)
         == Ok(if n <= 0xffff_ffff then Small(n) else Big(n))
    ensures |CompactSize(n)| == VarIntLength(n)
  {
    var buf := before + CompactSize(n) + after;
    var size := |CompactSize(n)| - 1;
    Powers();
    assert CompactSize(n)[0] == buf[|before|];
    assert n >= 0xfd ==> buf[|before| + 1..|before| + 1 + size] == ToLE(n, size);
    if n >= 0xfd { LittleEndianRoundTrip(n, size); }
  }

  lemma PartsOfHead(f: Fields, rest: Bytes)
    requires f.HasSizes()
    ensures var buf := Head(f) + rest;
      && |Head(f)| == SCRIPT_LENGTH_AT
      && Sub(buf, 0, 4) == f.nVersion && Sub(buf, 4, 36) == f.hashPrevouts && Sub(buf, 36, 68) == f.hashSequence
      && Sub(buf, 68, 104) == f.outpoint && Sub(buf, 68, 100) == f.prevTxId && Sub(buf, 100, 104) == f.outputIndex
  {
    var buf := Head(f) + rest;
    assert buf[0..4] == f.nVersion && buf[4..36] == f.hashPrevouts && buf[36..68] == f.hashSequence;
    assert buf[68..104] == f.outpoint && buf[68..100] == f.prevTxId && buf[100..104] == f.outputIndex;
  }

  lemma SubTail(before: Bytes, tail: Bytes, i: nat, j: nat)
    requires i <= j <= |tail|
    ensures Sub(before + tail, |before| + i, |before| + j) == tail[i..j]
  {}

  lemma PartsOfFoot(f: Fields, before: Bytes)
    requires f.HasSizes()
    ensures var buf, o := before + Foot(f), |before|;
      && |Foot(f)| == FOOT_SIZE
      && Sub(buf, o, o + 8) == f.amount && Sub(buf, o + 8, o + 12) == f.nSequence
      && Sub(buf, o + 12, o + 44) == f.hashOutputs && Sub(buf, o + 44, o + 48) == f.nLockTime
      && Sub(buf, o + 48, o + 52) == f.sighashType
  {
    var t := Foot(f);
    assert t[0..8] == f.amount && t[8..12] == f.nSequence && t[12..44] == f.hashOutputs && t[44..48] == f.nLockTime
      && t[48..52] == f.sighashType;
    hide Sub, Foot;
    SubTail(before, t, 0, 8);
    SubTail(before, t, 8, 12);
    SubTail(before, t, 12, 44);
    SubTail(before, t, 44, 48);
    SubTail(before, t, 48, 52);
  }

  lemma FieldsOfWritten(f: Fields)
    requires f.HasSizes() && |f.scriptCode| < 0x1_0000_0000_0000_0000
    ensures var script := SCRIPT_LENGTH_AT + |CompactSize(|f.scriptCode|)|;
      FieldsAt(Write(f), script, script + |f.scriptCode|) == f
  {
    hide CompactSize, Head, Foot, Sub;
    var prefix := CompactSize(|f.scriptCode|);
    var buf := Write(f);
    assert buf == Head(f) + (prefix + f.scriptCode + Foot(f));
    PartsOfHead(f, prefix + f.scriptCode + Foot(f));
    var upToScript := Head(f) + prefix;
    assert buf == upToScript + (f.scriptCode + Foot(f));
    SubTail(upToScript, f.scriptCode + Foot(f), 0, |f.scriptCode|);
    assert (f.scriptCode + Foot(f))[0..|f.scriptCode|] == f.scriptCode;
    PartsOfFoot(f, upToScript + f.scriptCode);
  }

  lemma WrittenLength(f: Fields)
    requires f.HasSizes() && |f.scriptCode| < 0x1_0000_0000_0000_0000
    ensures var n := |f.scriptCode|;
      && |CompactSize(n)| == VarIntLength(n) && |Write(f)| == SCRIPT_LENGTH_AT + VarIntLength(n) + n + FOOT_SIZE
      && ReadVarInt(Write(f), SCRIPT_LENGTH_AT) == Ok(if n <= 0xffff_ffff then Small(n) else Big(n))
  {
    var n := |f.scriptCode|;
    PartsOfHead(f, []);
    PartsOfFoot(f, []);
    hide CompactSize, Head, Foot, Sub, ReadVarInt, VarIntLength;
    CompactSizeReads(n, Head(f), f.scriptCode + Foot(f));
    assert Write(f) == Head(f) + CompactSize(n) + (f.scriptCode + Foot(f));
  }

  /**
   * Parsing a written preimage gives back every field and sets `isValid`, as long as the script is
   * shorter than 2^32 bytes; from there on the parser throws.
   */
  lemma ParseInvertsWrite(f: Fields)
    requires f.HasSizes() && |f.scriptCode| < 0x1_0000_0000_0000_0000
    ensures Parse(Write(f)) == if |f.scriptCode| < 0x1_0000_0000 then Ok((f, ValuesOf(f), true)) else Err(TypeError)
  {
    hide CompactSize, Head, Foot, Write, Sub, FieldsAt, ValuesOf, ReadVarInt, VarIntLength;
    WrittenLength(f);
    FieldsOfWritten(f);
  }

  /** The numbers of a written preimage, with every number field written in little-endian order, are read back. */
  lemma NumbersAreRead(f: Fields, v: Values)
    requires f.HasSizes() && |f.scriptCode| < 0x1_0000_0000
    requires v.nVersion < 0x1_0000_0000 && v.outputIndex < 0x1_0000_0000 && v.amount < 0x1_0000_0000_0000_0000
    requires v.nSequence < 0x1_0000_0000 && v.nLockTime < 0x1_0000_0000 && v.sighashType < 0x1_0000_0000
    requires f.nVersion == ToLE(v.nVersion, 4) && f.outputIndex == ToLE(v.outputIndex, 4)
    requires f.amount == ToLE(v.amount, 8) && f.nSequence == ToLE(v.nSequence, 4)
    requires f.nLockTime == ToLE(v.nLockTime, 4) && f.sighashType == ToLE(v.sighashType, 4)
    ensures Parse(Write(f)) == Ok((f, v, true))
  {
    hide Parse, Write, FromLE, ToLE;
    ParseInvertsWrite(f);
    Powers();
    LittleEndianRoundTrip(v.nVersion, 4);
    LittleEndianRoundTrip(v.outputIndex, 4);
    LittleEndianRoundTrip(v.amount, 8);
    LittleEndianRoundTrip(v.nSequence, 4);
    LittleEndianRoundTrip(v.nLockTime, 4);
    LittleEndianRoundTrip(v.sighashType, 4);
  }

  // ---- parsing, then writing ----

  /** The length prefix is the shortest that fits, which is what the cursor steps over. */
  predicate MinimalPrefix(buf: Bytes)
    requires EndOf(buf).Some?
  {
    var n := ReadVarInt(buf, SCRIPT_LENGTH_AT).value.n;
    buf[SCRIPT_LENGTH_AT] == if n < 0xfd then n else if n <= 0xffff then 0xfd else 0xfe
  }

  lemma ReadLength(buf: Bytes)
    requires EndOf(buf).Some?
    ensures |buf| > SCRIPT_LENGTH_AT && ReadVarInt(buf, SCRIPT_LENGTH_AT).value.n <= 0xffff_ffff
    ensures var n := ReadVarInt(buf, SCRIPT_LENGTH_AT).value.n;
      && CompactSize(n)[0] == (if n < 0xfd then n else if n <= 0xffff then 0xfd else 0xfe)
      && |CompactSize(n)| == VarIntLength(n) > 0
  {
    Powers();
    hide FromLE, ToLE;
  }

  /** It is minimal exactly when the bytes the cursor steps over are the shortest form of the length. */
  lemma MinimalPrefixIsCompact(buf: Bytes)
    requires EndOf(buf).Some? && EndOf(buf).value <= |buf|
    ensures var n := ReadVarInt(buf, SCRIPT_LENGTH_AT).value.n;
      n <= 0xffff_ffff
      && (MinimalPrefix(buf) <==> buf[SCRIPT_LENGTH_AT..SCRIPT_LENGTH_AT + VarIntLength(n)] == CompactSize(n))
  {
    ReadLength(buf);
    var n := ReadVarInt(buf, SCRIPT_LENGTH_AT).value.n;
    var size := VarIntLength(n) - 1;
    if n >= 0xfd && MinimalPrefix(buf) {
      LittleEndianBytesRoundTrip(buf[SCRIPT_LENGTH_AT + 1..SCRIPT_LENGTH_AT + 1 + size]);
    }
    assert buf[SCRIPT_LENGTH_AT..SCRIPT_LENGTH_AT + 1 + size][0] == buf[SCRIPT_LENGTH_AT];
  }

  lemma SlicesRejoin(buf: Bytes, script: nat, foot: nat)
    requires SCRIPT_LENGTH_AT <= script <= foot && |buf| == foot + FOOT_SIZE
    ensures var f := FieldsAt(buf, script, foot);
      && f.HasSizes() && Head(f) == buf[..SCRIPT_LENGTH_AT]
      && f.scriptCode == buf[script..foot] && Foot(f) == buf[foot..]
  {
    var f := FieldsAt(buf, script, foot);
    assert f.nVersion == buf[0..4] && f.hashPrevouts == buf[4..36] && f.hashSequence == buf[36..68];
    assert f.prevTxId == buf[68..100] && f.outputIndex == buf[100..104] && f.outpoint == buf[68..104];
    assert f.amount == buf[foot..foot + 8] && f.nSequence == buf[foot + 8..foot + 12]
      && f.hashOutputs == buf[foot + 12..foot + 44] && f.nLockTime == buf[foot + 44..foot + 48]
      && f.sighashType == buf[foot + 48..foot + 52];
    hide FieldsAt, Sub;
    assert buf[68..104] == buf[68..100] + buf[100..104];
    assert buf[..104] == buf[0..4] + buf[4..36] + buf[36..68] + buf[68..104];
    assert buf[foot..] == buf[foot..foot + 8] + buf[foot + 8..foot + 12] + buf[foot + 12..foot + 44]
      + buf[foot + 44..foot + 48] + buf[foot + 48..foot + 52];
  }

  /** The fields of a valid preimage are the ones between the cursor positions, and it ends with them. */
  lemma ParsedFields(buf: Bytes)
    requires Parse(buf).Ok? && Parse(buf).value.2
    ensures EndOf(buf).Some?
    ensures var n := ReadVarInt(buf, SCRIPT_LENGTH_AT).value.n;
      var script := SCRIPT_LENGTH_AT + VarIntLength(n);
      Parse(buf).value.0 == FieldsAt(buf, script, script + n) && |buf| == script + n + FOOT_SIZE
  {
    hide FieldsAt, ValuesOf, ReadVarInt, VarIntLength;
  }

  /** A valid preimage has fields of the right sizes, the later ones at fixed distances from its end. */
  lemma FieldsFromTheEnd(buf: Bytes)
    requires Parse(buf).Ok? && Parse(buf).value.2
    ensures var (f, n) := (Parse(buf).value.0, |buf|);
      && n >= 157 && f.HasSizes()
      && f.nVersion == buf[0..4] && f.hashPrevouts == buf[4..36] && f.hashSequence == buf[36..68]
      && f.prevTxId == buf[68..100] && f.outputIndex == buf[100..104] && f.outpoint == buf[68..104]
      && f.amount == buf[n - 52..n - 44] && f.nSequence == buf[n - 44..n - 40] && f.hashOutputs == buf[n - 40..n - 8]
      && f.nLockTime == buf[n - 8..n - 4] && f.sighashType == buf[n - 4..]
  {
    hide Parse, Head, Foot, ReadVarInt;
    ParsedFields(buf);
    var length := ReadVarInt(buf, SCRIPT_LENGTH_AT).value.n;
    var script := SCRIPT_LENGTH_AT + VarIntLength(length);
    SlicesRejoin(buf, script, script + length);
  }

  lemma ParsedParts(buf: Bytes)
    requires Parse(buf).Ok? && Parse(buf).value.2
    ensures EndOf(buf).Some?
    ensures var n := ReadVarInt(buf, SCRIPT_LENGTH_AT).value.n;
      var (script, f) := (SCRIPT_LENGTH_AT + VarIntLength(n), Parse(buf).value.0);
      && |buf| == script + n + FOOT_SIZE && |f.scriptCode| == n
      && Head(f) == buf[..SCRIPT_LENGTH_AT] && f.scriptCode == buf[script..script + n] && Foot(f) == buf[script + n..]
  {
    hide Parse, Head, Foot, FieldsAt, Sub, ReadVarInt, VarIntLength;
    ParsedFields(buf);
    var n := ReadVarInt(buf, SCRIPT_LENGTH_AT).value.n;
    var script := SCRIPT_LENGTH_AT + VarIntLength(n);
    SlicesRejoin(buf, script, script + n);
  }

  lemma WrittenFromParts(buf: Bytes, f: Fields, script: nat, foot: nat)
    requires |f.scriptCode| < 0x1_0000_0000_0000_0000 && SCRIPT_LENGTH_AT < script <= foot <= |buf|
    requires Head(f) == buf[..SCRIPT_LENGTH_AT] && f.scriptCode == buf[script..foot] && Foot(f) == buf[foot..]
    requires |CompactSize(|f.scriptCode|)| == script - SCRIPT_LENGTH_AT
    ensures Write(f) == buf <==> CompactSize(|f.scriptCode|) == buf[SCRIPT_LENGTH_AT..script]
  {
    hide Head, Foot, CompactSize;
    var prefix := CompactSize(|f.scriptCode|);
    assert buf == buf[..SCRIPT_LENGTH_AT] + buf[SCRIPT_LENGTH_AT..script] + buf[script..foot] + buf[foot..];
    assert Write(f)[SCRIPT_LENGTH_AT..script] == prefix;
  }

  /** Writing the fields of a valid preimage gives the buffer back exactly when its length prefix is minimal. */
  lemma WriteInvertsParse(buf: Bytes)
    requires Parse(buf).Ok? && Parse(buf).value.2
    ensures |Parse(buf).value.0.scriptCode| <= 0xffff_ffff && EndOf(buf).Some?
    ensures Write(Parse(buf).value.0) == buf <==> MinimalPrefix(buf)
  {
    hide Head, Foot, Parse, ReadVarInt, CompactSize, VarIntLength, Write, MinimalPrefix, FromLE, ToLE, Sub;
    ParsedParts(buf);
    ReadLength(buf);
    MinimalPrefixIsCompact(buf);
    var n := ReadVarInt(buf, SCRIPT_LENGTH_AT).value.n;
    var script := SCRIPT_LENGTH_AT + VarIntLength(n);
    hide EndOf;
    WrittenFromParts(buf, Parse(buf).value.0, script, script + n);
  }

  /**
   * A prefix that is not minimal: the length 5 written in three bytes. The cursor steps over one, so
   * the buffer is valid if it ends two bytes early, and the script starts with the bytes of the length.
   */
  lemma LongPrefixIsMisread(buf: Bytes)
    requires |buf| == 162 && buf[104..107] == [0xfd, 5, 0]
    ensures Parse(buf).Ok? && Parse(buf).value.2
    ensures Parse(buf).value.0.scriptCode == [5, 0] + buf[107..110]
    ensures EndOf(buf).Some? && !MinimalPrefix(buf) && Write(Parse(buf).value.0) != buf
  {
    LengthFive(buf);
    hide FieldsAt, ValuesOf, FromLE, ToLE, Write, ReadVarInt, CompactSize;
    WriteInvertsParse(buf);
    ScriptAt(buf, 105, 110);
    assert buf[105..110] == buf[104..107][1..] + buf[107..110];
  }

  lemma LengthFive(buf: Bytes)
    requires |buf| == 162 && buf[104..107] == [0xfd, 5, 0]
    ensures ReadVarInt(buf, SCRIPT_LENGTH_AT) == Ok(Small(5)) && buf[SCRIPT_LENGTH_AT] == 0xfd
  {
    assert buf[104] == buf[104..107][0] && buf[105] == buf[104..107][1] && buf[106] == buf[104..107][2];
    assert buf[105..107] == [5, 0];
    assert [5, 0][1..] == [0] && [0][1..] == [];
    assert FromLE([5, 0]) == 5 + 256 * FromLE([0]) && FromLE([0]) == 0;
  }

  lemma ScriptAt(buf: Bytes, script: nat, foot: nat)
    requires script < foot <= |buf|
    ensures FieldsAt(buf, script, foot).scriptCode == buf[script..foot]
  {}
}
