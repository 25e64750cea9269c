/** Byte buffers and the fixed-width integers read from and written to them. */
module ByteStrings {

  type byte = x: int | 0 <= x < 256
  type Bytes = seq<byte>

  function Pow256(n: nat): (r: nat)
    ensures r > 0
  {
    if n == 0 then 1 else 256 * Pow256(n - 1)
  }

  /** The low `size` bytes of `v`, most significant first. */
  function ToBE(v: nat, size: nat): (s: Bytes)
    ensures |s| == size
  {
    if size == 0 then [] else ToBE(v / 256, size - 1) + [v % 256]
  }

  function FromBE(s: Bytes): (v: nat)
    ensures v < Pow256(|s|)
  {
    if s == [] then 0 else FromBE(s[..|s| - 1]) * 256 + s[|s| - 1]
  }

  /** The low `size` bytes of `v`, least significant first. */
  function ToLE(v: nat, size: nat): (s: Bytes)
    ensures |s| == size
  {
    if size == 0 then [] else [v % 256] + ToLE(v / 256, size - 1)
  }

  function FromLE(s: Bytes): (v: nat)
    ensures v < Pow256(|s|)
  {
    if s == [] then 0 else s[0] + 256 * FromLE(s[1..])
  }

  /** The shortest big-endian form, at least one byte: `BN.toBuffer()` without a size. */
  function Unpadded(v: nat): (s: Bytes)
    ensures |s| > 0
  {
    if v < 256 then [v] else Unpadded(v / 256) + [v % 256]
  }

  lemma {:induction false} BigEndianRoundTrip(v: nat, size: nat)
    requires v < Pow256(size)
    ensures FromBE(ToBE(v, size)) == v
  {
    if size == 0 {
    } else {
      BigEndianRoundTrip(v / 256, size - 1);
      assert ToBE(v, size)[..size - 1] == ToBE(v / 256, size - 1);
    }
  }

  lemma {:induction false} BigEndianBytesRoundTrip(s: Bytes)
    ensures ToBE(FromBE(s), |s|) == s
  {
    if s == [] {
    } else {
      BigEndianBytesRoundTrip(s[..|s| - 1]);
      LowByte(s[|s| - 1], FromBE(s[..|s| - 1]));
      assert s == s[..|s| - 1] + [s[|s| - 1]];
    }
  }

  lemma BigEndianInjective(a: Bytes, b: Bytes)
    requires |a| == |b| && FromBE(a) == FromBE(b)
    ensures a == b
  {
    BigEndianBytesRoundTrip(a);
    BigEndianBytesRoundTrip(b);
  }

  lemma {:induction false} LittleEndianRoundTrip(v: nat, size: nat)
    requires v < Pow256(size)
    ensures FromLE(ToLE(v, size)) == v
  {
    if size == 0 {
    } else {
      LittleEndianRoundTrip(v / 256, size - 1);
      assert ToLE(v, size)[1..] == ToLE(v / 256, size - 1);
    }
  }

  lemma LowByte(low: byte, high: nat)
    ensures (low + 256 * high) % 256 == low && (low + 256 * high) / 256 == high
  {}

  lemma {:induction false} LittleEndianBytesRoundTrip(s: Bytes)
    ensures ToLE(FromLE(s), |s|) == s
  {
    if s == [] {
    } else {
      LittleEndianBytesRoundTrip(s[1..]);
      LowByte(s[0], FromLE(s[1..]));
      assert s == [s[0]] + s[1..];
    }
  }

  lemma LastByte(s: Bytes)
    requires s != []
    ensures FromBE(s) == FromBE(s[..|s| - 1]) * 256 + s[|s| - 1]
    ensures Pow256(|s|) == 256 * Pow256(|s| - 1)
  {}

  lemma ShiftOnce(high: nat, power: nat, low: nat, last: byte)
    ensures (high * power + low) * 256 + last == high * (256 * power) + (low * 256 + last)
  {
    assert high * (256 * power) == 256 * (high * power);
  }

  /** Concatenation shifts the number on the left. */
  lemma {:induction false} BigEndianConcat(a: Bytes, b: Bytes)
    ensures FromBE(a + b) == FromBE(a) * Pow256(|b|) + FromBE(b)
  {
    if b == [] {
      assert a + b == a;
    } else {
      var front, last := b[..|b| - 1], b[|b| - 1];
      assert (a + b)[..|a + b| - 1] == a + front;
      LastByte(a + b);
      LastByte(b);
      hide FromBE, Pow256;
      BigEndianConcat(a, front);
      ShiftOnce(FromBE(a), Pow256(|front|), FromBE(front), last);
    }
  }

  lemma LeadingZeroByte(s: Bytes)
    ensures FromBE([0] + s) == FromBE(s)
  {
    BigEndianConcat([0], s);
    assert FromBE([0]) == 0 by { assert [0][..0] == []; }
  }

  lemma {:induction false} UnpaddedValue(v: nat)
    ensures FromBE(Unpadded(v)) == v
  {
    if v >= 256 {
      UnpaddedValue(v / 256);
      assert Unpadded(v)[..|Unpadded(v)| - 1] == Unpadded(v / 256);
    } else {
      assert FromBE([v][..0]) == 0;
    }
  }

  /** The unpadded form is `size` bytes long exactly when the top byte is in use. */
  lemma {:induction false} UnpaddedLength(v: nat, size: nat)
    requires 1 < size && v < Pow256(size)
    ensures |Unpadded(v)| <= size
    ensures |Unpadded(v)| == size <==> v >= Pow256(size - 1)
  {
    if v >= 256 {
      if size > 2 {
        UnpaddedLength(v / 256, size - 1);
      } else {
        assert Pow256(2) == 65536 && Pow256(1) == 256;
        assert v / 256 < 256;
      }
    } else {
      assert Pow256(size - 1) == 256 * Pow256(size - 2);
    }
  }

  lemma {:induction false} ZeroBytes(size: nat)
    ensures forall i | 0 <= i < size :: ToBE(0, size)[i] == 0
  {
    if size == 0 {
    } else {
      ZeroBytes(size - 1);
    }
  }

  lemma {:induction false} ZeroValue(s: Bytes)
    requires forall i | 0 <= i < |s| :: s[i] == 0
    ensures FromBE(s) == 0
  {
    if s == [] {
    } else {
      ZeroValue(s[..|s| - 1]);
    }
  }

  /** The top bytes of a number that is a multiple of a power of 256. */
  lemma {:induction false} TopBytes(v: nat, size: nat, low: nat)
    ensures ToBE(v * Pow256(low), size + low)[..size] == ToBE(v, size)
  {
    if low == 0 {
      assert v * Pow256(0) == v;
    } else {
      var w := v * Pow256(low - 1);
      assert v * Pow256(low) == 256 * w;
      assert ToBE(256 * w, size + low) == ToBE(w, size + low - 1) + [0];
      TopBytes(v, size, low - 1);
    }
  }

  lemma Powers()
    ensures Pow256(1) == 0x100
    ensures Pow256(2) == 0x1_0000
    ensures Pow256(4) == 0x1_0000_0000
    ensures Pow256(8) == 0x1_0000_0000_0000_0000
  {
    assert Pow256(2) == 256 * Pow256(1);
    assert Pow256(3) == 256 * Pow256(2);
    assert Pow256(4) == 256 * Pow256(3);
    assert Pow256(5) == 256 * Pow256(4);
    assert Pow256(6) == 256 * Pow256(5);
    assert Pow256(7) == 256 * Pow256(6);
    assert Pow256(8) == 256 * Pow256(7);
  }
}
