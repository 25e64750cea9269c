/** Base58 text of a byte buffer. Each leading zero byte is written as a leading '1' of its own. */
module Base58 {
  import opened ByteStrings
  import opened Numerals
  import opened Wrappers

  /** The alphabet: the digits from 1, the capitals without I and O, the small letters without l. */
  function Symbol(d: nat): char
    requires d < 58
  {
    if d < 9 then ('1' as int + d) as char
    else if d < 17 then ('A' as int + d - 9) as char
    else if d < 22 then ('J' as int + d - 17) as char
    else if d < 33 then ('P' as int + d - 22) as char
    else if d < 44 then ('a' as int + d - 33) as char
    else ('m' as int + d - 44) as char
  }

  /** The place of a character in the alphabet. */
  function SymbolValue(c: char): (r: Option<nat>)
    ensures r.Some? ==> r.value < 58
  {
    if '1' <= c <= '9' then Some(c as int - '1' as int)
    else if 'A' <= c <= 'H' then Some(c as int - 'A' as int + 9)
    else if 'J' <= c <= 'N' then Some(c as int - 'J' as int + 17)
    else if 'P' <= c <= 'Z' then Some(c as int - 'P' as int + 22)
    else if 'a' <= c <= 'k' then Some(c as int - 'a' as int + 33)
    else if 'm' <= c <= 'z' then Some(c as int - 'm' as int + 44)
    else None
  }

  lemma SymbolThenValue(d: nat)
    requires d < 58
    ensures SymbolValue(Symbol(d)) == Some(d)
  {}

  lemma ValueThenSymbol(c: char)
    requires SymbolValue(c).Some?
    ensures Symbol(SymbolValue(c).value) == c
  {}

  predicate InAlphabet(c: char) {
    ('1' <= c <= '9' || 'A' <= c <= 'Z' || 'a' <= c <= 'z') && c != 'I' && c != 'O' && c != 'l'
  }

  /** The alphabet is the digits and letters without 0, I, O and l, in ascending order. */
  lemma AlphabetIs(d: nat, e: nat, c: char)
    requires d < e < 58
    ensures Symbol(d) < Symbol(e) && InAlphabet(Symbol(d)) && InAlphabet(Symbol(e))
    ensures InAlphabet(c) <==> SymbolValue(c).Some?
    ensures InAlphabet(c) ==> Symbol(SymbolValue(c).value) == c
  {}

  lemma AlphabetIsOneToOne()
    ensures forall d: nat | d < 58 :: SymbolValue(Symbol(d)) == Some(d)
    ensures forall c | SymbolValue(c).Some? :: Symbol(SymbolValue(c).value) == c
  {
    forall d: nat | d < 58 ensures SymbolValue(Symbol(d)) == Some(d) { SymbolThenValue(d); }
    forall c | SymbolValue(c).Some? ensures Symbol(SymbolValue(c).value) == c { ValueThenSymbol(c); }
  }

  predicate AllSymbols(text: string) { forall i | 0 <= i < |text| :: SymbolValue(text[i]).Some? }

  function Symbols(s: Digits): (text: string)
    requires Below(58, s)
    ensures |text| == |s|
  {
    seq(|s|, i requires 0 <= i < |s| => Symbol(s[i]))
  }

  function Values(text: string): (s: Digits)
    requires AllSymbols(text)
    ensures |s| == |text| && Below(58, s)
  {
    seq(|text|, i requires 0 <= i < |text| => SymbolValue(text[i]).value)
  }

  function Encode(buf: Bytes): string {
    if buf == [] then ""
    else RebaseKeeps(256, 58, buf); Symbols(Rebase(256, 58, buf))
  }

  function Decode(text: string): Option<Bytes> {
    if text == "" then Some([])
    else if AllSymbols(text) then RebaseKeeps(58, 256, Values(text)); Some(Rebase(58, 256, Values(text)))
    else None
  }

  /** Every buffer can be read back from its text. */
  lemma DecodeInvertsEncode(buf: Bytes)
    ensures Decode(Encode(buf)) == Some(buf)
  {
    if buf != [] {
      AlphabetIsOneToOne();
      RebaseKeeps(256, 58, buf);
      assert Values(Encode(buf)) == Rebase(256, 58, buf);
      RebaseBack(256, 58, buf);
    }
  }

  /** Every text that can be read is the text of what it is read as. */
  lemma EncodeInvertsDecode(text: string)
    requires Decode(text).Some?
    ensures Encode(Decode(text).value) == text
  {
    if text != "" {
      RebaseKeeps(58, 256, Values(text));
      RebaseBack(58, 256, Values(text));
      AlphabetIsOneToOne();
      assert Symbols(Values(text)) == text;
    }
  }

  // ---- the conversion loops ----

  /** The two inner loops: multiply the digits in place, then let the last carry run out. */
  method Accumulate(start: Digits, base: nat, factor: nat, addend: nat) returns (digits: Digits)
    requires base > 1
    ensures digits == MulAdd(base, factor, start, addend)
  {
    hide MulAdd, Push;
    digits := start;
    var carry: nat := addend;
    for j := 0 to |digits|
      invariant |digits| == |start| && digits[j..] == start[j..]
      invariant digits[..j] + MulAdd(base, factor, start[j..], carry) == MulAdd(base, factor, start, addend)
    {
      var x := digits[j] * factor + carry;
      MulAddNext(base, factor, start, j, carry, x);
      digits, carry := digits[j := x % base], x / base;
    }
    RunOut(base, factor, start[|digits|..]);
    while carry > 0
      invariant digits + Push(base, carry) == MulAdd(base, factor, start, addend)
      decreases carry
    {
      PushNext(base, carry);
      digits, carry := digits + [carry % base], carry / base;
    }
  }

  lemma MulAddNext(base: nat, factor: nat, start: Digits, j: nat, carry: nat, x: nat)
    requires base > 1 && j < |start| && x == start[j] * factor + carry
    ensures MulAdd(base, factor, start[j..], carry) == [x % base] + MulAdd(base, factor, start[j + 1..], x / base)
  {
    assert start[j..][1..] == start[j + 1..];
  }

  lemma RunOut(base: nat, factor: nat, none: Digits)
    requires base > 1 && none == []
    ensures forall carry: nat :: MulAdd(base, factor, none, carry) == Push(base, carry)
    ensures Push(base, 0) == []
  {}

  lemma PushNext(base: nat, carry: nat)
    requires base > 1 && carry > 0
    ensures Push(base, carry) == [carry % base] + Push(base, carry / base)
    ensures carry / base < carry
  {
    Residues.QuotientShrinks(base, carry);
  }

  lemma NextByte(buf: Bytes, i: nat)
    requires i < |buf|
    ensures MulAdd(58, 256, Canon(58, Big(256, buf[..i])), buf[i]) == Canon(58, Big(256, buf[..i + 1]))
  {
    hide Canon, MulAdd;
    assert buf[..i + 1][..i] == buf[..i];
    MulAddCanon(58, 256, Big(256, buf[..i]), buf[i]);
  }

  lemma NextSymbol(text: string, i: nat, value: nat)
    requires i < |text| && AllSymbols(text[..i]) && SymbolValue(text[i]) == Some(value)
    ensures AllSymbols(text[..i + 1])
    ensures MulAdd(256, 58, Canon(256, Big(58, Values(text[..i]))), value) == Canon(256, Big(58, Values(text[..i + 1])))
  {
    hide Canon, MulAdd, SymbolValue;
    assert text[..i + 1][..i] == text[..i];
    assert Values(text[..i + 1])[..i] == Values(text[..i]);
    MulAddCanon(256, 58, Big(58, Values(text[..i])), value);
  }

  /** The zeros the leading-zero loops count, seen from place i on. */
  lemma SkipZero(s: Digits, i: nat)
    requires i < |s|
    ensures i < |s| - 1 && s[i] == 0 ==> LeadingZeros(s[i..]) == 1 + LeadingZeros(s[i + 1..])
    ensures i == |s| - 1 || s[i] != 0 ==> LeadingZeros(s[i..]) == 0
  {
    assert s[i..][1..] == s[i + 1..];
  }

  method EncodeBuffer(buf: Bytes) returns (out: string)
    ensures out == Encode(buf)
  {
    hide MulAdd, LeadingZeros, Canon, Big, Symbol;
    if |buf| == 0 { return ""; }
    var digits: Digits := [0];
    CanonOfNothing();
    for i := 0 to |buf|
      invariant digits == Canon(58, Big(256, buf[..i]))
    {
      NextByte(buf, i);
      digits := Accumulate(digits, 58, 256, buf[i]);
    }
    assert buf[..|buf|] == buf && buf[0..] == buf;
    CanonTop(58, Big(256, buf));
    out := "";
    var i := 0;
    while i < |buf| - 1 && buf[i] == 0
      invariant 0 <= i < |buf| && |out| == i
      invariant forall k | 0 <= k < i :: out[k] == Symbol(0)
      invariant i + LeadingZeros(buf[i..]) == LeadingZeros(buf)
    {
      SkipZero(buf, i);
      out := out + [Symbol(0)];
      i := i + 1;
    }
    SkipZero(buf, i);
    var j := |digits|;
    while j > 0
      invariant 0 <= j <= |digits| && |out| == i + |digits| - j
      invariant forall k | 0 <= k < i :: out[k] == Symbol(0)
      invariant forall k | i <= k < |out| :: out[k] == Symbol(digits[|digits| - 1 - (k - i)])
    {
      j := j - 1;
      out := out + [Symbol(digits[j])];
    }
    RebaseKeeps(256, 58, buf);
    assert out == Symbols(Rebase(256, 58, buf));
  }

  lemma CanonOfNothing()
    ensures Canon(58, Big(256, [])) == [0] && Canon(256, Big(58, [])) == [0]
  {}

  method DecodeText(text: string) returns (r: Option<Bytes>)
    ensures r == Decode(text)
  {
    hide MulAdd, LeadingZeros, Canon, Big, Symbol, SymbolValue;
    if |text| == 0 { return Some([]); }
    var digits: Digits := [0];
    CanonOfNothing();
    assert Values(text[..0]) == [];
    for i := 0 to |text|
      invariant AllSymbols(text[..i])
      invariant digits == Canon(256, Big(58, Values(text[..i])))
    {
      var value := SymbolValue(text[i]);
      if value.None? { return None; }
      NextSymbol(text, i, value.value);
      digits := Accumulate(digits, 256, 58, value.value);
    }
    assert text[..|text|] == text;
    ghost var values := Values(text);
    ghost var canon := digits;
    AlphabetIsOneToOne();
    assert values[0..] == values;
    var i := 0;
    while i < |text| - 1 && text[i] == Symbol(0)
      invariant 0 <= i < |text| && digits == canon + Zeros(i)
      invariant i + LeadingZeros(values[i..]) == LeadingZeros(values)
    {
      SkipZero(values, i);
      digits := digits + [0];
      i := i + 1;
    }
    SkipZero(values, i);
    RebaseKeeps(58, 256, values);
    r := Some(Reverse(digits));
  }
}
