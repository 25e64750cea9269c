/** Positional numerals, least significant digit first, and their conversion from base to base. */
module Numerals {
  import opened Residues

  type Digits = seq<nat>

  predicate Below(b: nat, s: Digits) { forall i | 0 <= i < |s| :: s[i] < b }

  /** No zero in the highest place, except for the single digit 0. */
  predicate Canonical(s: Digits) { |s| > 0 && (|s| == 1 || s[|s| - 1] != 0) }

  function Reverse<T>(s: seq<T>): (r: seq<T>)
    ensures |r| == |s|
    ensures forall i | 0 <= i < |s| :: r[i] == s[|s| - 1 - i]
  {
    seq(|s|, i requires 0 <= i < |s| => s[|s| - 1 - i])
  }

  function Zeros(n: nat): Digits { seq(n, _ => 0) }

  /** The number written by `s`, lowest digit first. */
  function Little(b: nat, s: Digits): nat {
    if s == [] then 0 else s[0] + b * Little(b, s[1..])
  }

  /** The number written by `s`, highest digit first. */
  function Big(b: nat, s: Digits): nat {
    if s == [] then 0 else Big(b, s[..|s| - 1]) * b + s[|s| - 1]
  }

  /** The canonical numeral of `v`, lowest digit first. */
  function Canon(b: nat, v: nat): Digits
    requires b > 1
  {
    if v < b then [v] else QuotientShrinks(b, v); [v % b] + Canon(b, v / b)
  }

  /** Zeros in front of the last digit of a numeral written highest digit first. */
  function LeadingZeros(s: Digits): nat {
    if |s| <= 1 || s[0] != 0 then 0 else 1 + LeadingZeros(s[1..])
  }

  /** `s`, highest digit first in base b, rewritten in base c with the same number of leading zeros. */
  function Rebase(b: nat, c: nat, s: Digits): Digits
    requires c > 1
  {
    Reverse(Canon(c, Big(b, s)) + Zeros(LeadingZeros(s)))
  }

  // ---- multiplying a numeral by a factor and adding a carry, digit by digit ----

  function Push(b: nat, carry: nat): Digits
    requires b > 1
  {
    if carry == 0 then [] else QuotientShrinks(b, carry); [carry % b] + Push(b, carry / b)
  }

  function MulAdd(b: nat, f: nat, s: Digits, carry: nat): Digits
    requires b > 1
  {
    if s == [] then Push(b, carry)
    else
      var x := s[0] * f + carry;
      [x % b] + MulAdd(b, f, s[1..], x / b)
  }

  lemma {:induction false} PushValue(b: nat, carry: nat)
    requires b > 1
    ensures Little(b, Push(b, carry)) == carry
  {
    if carry == 0 {
    } else {
      var q, r := carry / b, carry % b;
      assert carry == r + b * q;
      QuotientShrinks(b, carry);
      PushValue(b, q);
      LittleCons(b, r, Push(b, q));
    }
  }

  lemma {:induction false} PushTop(b: nat, carry: nat)
    requires b > 1
    ensures Below(b, Push(b, carry))
    ensures carry > 0 ==> Push(b, carry) != [] && Push(b, carry)[|Push(b, carry)| - 1] != 0
  {
    if carry == 0 {
    } else {
      var q, r := carry / b, carry % b;
      QuotientShrinks(b, carry);
      PushTop(b, q);
      assert Push(b, carry) == [r] + Push(b, q);
      if q == 0 { assert b * q == 0; }
    }
  }

  lemma LittleOne(b: nat, d: nat)
    ensures Little(b, [d]) == d
  {
    LittleCons(b, d, []);
  }

  lemma LittleCons(b: nat, d: nat, s: Digits)
    ensures Little(b, [d] + s) == d + b * Little(b, s)
  {
    assert ([d] + s)[1..] == s;
  }

  lemma MulAddStep(b: nat, f: nat, d: nat, rest: nat, carry: nat, x: nat)
    requires b > 1 && x == d * f + carry
    ensures x % b + b * (f * rest + x / b) == f * (d + b * rest) + carry
  {
    calc {
      x % b + b * (f * rest + x / b);
      x % b + b * (x / b) + b * (f * rest);
      x + b * (f * rest);
      { assert b * (f * rest) == f * (b * rest); }
      d * f + carry + f * (b * rest);
      f * (d + b * rest) + carry;
    }
  }

  lemma {:induction false} MulAddValue(b: nat, f: nat, s: Digits, carry: nat)
    requires b > 1
    ensures Little(b, MulAdd(b, f, s, carry)) == f * Little(b, s) + carry
    ensures Below(b, MulAdd(b, f, s, carry))
  {
    if s == [] {
      PushValue(b, carry);
      PushTop(b, carry);
    } else {
      var x := s[0] * f + carry;
      MulAddValue(b, f, s[1..], x / b);
      MulAddStep(b, f, s[0], Little(b, s[1..]), carry, x);
      assert MulAdd(b, f, s, carry)[1..] == MulAdd(b, f, s[1..], x / b);
    }
  }

  lemma {:induction false} MulAddCanonical(b: nat, f: nat, s: Digits, carry: nat)
    requires b > 1 && f > 0 && Canonical(s)
    ensures Canonical(MulAdd(b, f, s, carry))
    ensures s[|s| - 1] != 0 ==> MulAdd(b, f, s, carry)[|MulAdd(b, f, s, carry)| - 1] != 0
  {
    var x := s[0] * f + carry;
    var out, rest := MulAdd(b, f, s, carry), MulAdd(b, f, s[1..], x / b);
    if |s| == 1 {
      assert s[1..] == [];
      PushTop(b, x / b);
      if s[0] != 0 { assert s[0] * f >= f; }
      if x / b > 0 { assert out[|out| - 1] == rest[|rest| - 1]; }
    } else {
      MulAddCanonical(b, f, s[1..], x / b);
      assert out[|out| - 1] == rest[|rest| - 1];
    }
  }

  // ---- canonical numerals are unique ----

  lemma {:induction false} CanonValue(b: nat, v: nat)
    requires b > 1
    ensures Little(b, Canon(b, v)) == v
  {
    if v >= b {
      var q, r := v / b, v % b;
      assert v == r + b * q;
      QuotientShrinks(b, v);
      CanonValue(b, q);
      LittleCons(b, r, Canon(b, q));
    } else {
      LittleOne(b, v);
    }
  }

  lemma {:induction false} CanonTop(b: nat, v: nat)
    requires b > 1
    ensures Below(b, Canon(b, v)) && Canonical(Canon(b, v))
    ensures v > 0 ==> Canon(b, v)[|Canon(b, v)| - 1] != 0
  {
    if v >= b {
      QuotientShrinks(b, v);
      CanonTop(b, v / b);
      assert Canon(b, v) == [v % b] + Canon(b, v / b);
    }
  }

  lemma {:induction false} CanonUnique(b: nat, s: Digits)
    requires b > 1 && Below(b, s) && Canonical(s)
    ensures s == Canon(b, Little(b, s))
    ensures s[|s| - 1] != 0 ==> Little(b, s) > 0
  {
    if |s| == 1 {
      assert Little(b, s[1..]) == 0;
    } else {
      CanonUnique(b, s[1..]);
      QuotientOf(b, s[0], Little(b, s[1..]));
    }
  }

  /** One step of the conversion loop: the canonical numeral of v becomes that of f * v + carry. */
  lemma MulAddCanon(b: nat, f: nat, v: nat, carry: nat)
    requires b > 1 && f > 0
    ensures MulAdd(b, f, Canon(b, v), carry) == Canon(b, f * v + carry)
  {
    var s := Canon(b, v);
    CanonValue(b, v);
    CanonTop(b, v);
    MulAddValue(b, f, s, carry);
    MulAddCanonical(b, f, s, carry);
    CanonUnique(b, MulAdd(b, f, s, carry));
  }

  // ---- changing the base and back ----

  lemma {:induction false} BigReverse(b: nat, s: Digits)
    ensures Big(b, Reverse(s)) == Little(b, s)
  {
    if s == [] {
    } else {
      var r := Reverse(s);
      assert r[..|r| - 1] == Reverse(s[1..]);
      BigReverse(b, s[1..]);
      assert b * Little(b, s[1..]) == Little(b, s[1..]) * b;
    }
  }

  lemma {:induction false} HighZerosWorthless(b: nat, s: Digits, n: nat)
    ensures Little(b, s + Zeros(n)) == Little(b, s)
  {
    if s != [] {
      assert (s + Zeros(n))[1..] == s[1..] + Zeros(n);
      HighZerosWorthless(b, s[1..], n);
    } else if n > 0 {
      assert ([] + Zeros(n))[1..] == [] + Zeros(n - 1);
      HighZerosWorthless(b, [], n - 1);
    }
  }

  lemma {:induction false} CountsZeros(s: Digits, n: nat)
    requires Canonical(s)
    ensures LeadingZeros(Reverse(s + Zeros(n))) == n
  {
    if n == 0 {
    } else {
      assert Reverse(s + Zeros(n))[1..] == Reverse(s + Zeros(n - 1));
      CountsZeros(s, n - 1);
    }
  }

  lemma NoLeadingZeros(b: nat, s: Digits)
    requires b > 1 && Below(b, s) && s != [] && LeadingZeros(s) == 0
    ensures Rebase(b, b, s) == s
  {
    var t := Reverse(s);
    assert Reverse(t) == s;
    BigReverse(b, t);
    hide Big, Canon, LeadingZeros;
    assert Canonical(t) by { CanonicalReverse(s); }
    CanonUnique(b, t);
    assert t + Zeros(0) == t;
  }

  lemma CanonicalReverse(s: Digits)
    requires s != [] && LeadingZeros(s) == 0
    ensures Canonical(Reverse(s))
  {}

  /** A non-empty numeral is its leading zeros followed by the canonical numeral of its value. */
  lemma {:induction false} SplitZeros(b: nat, s: Digits)
    requires b > 1 && Below(b, s) && s != []
    ensures Rebase(b, b, s) == s
  {
    if LeadingZeros(s) == 0 {
      NoLeadingZeros(b, s);
    } else {
      assert LeadingZeros(s) == 1 + LeadingZeros(s[1..]) && s[0] == 0;
      SplitZeros(b, s[1..]);
      DropLeadingZero(b, s);
      hide Big, Canon, LeadingZeros;
      var c, n := Canon(b, Big(b, s)), LeadingZeros(s[1..]);
      assert Reverse(c + Zeros(n + 1)) == [0] + Reverse(c + Zeros(n));
      assert s == [0] + s[1..];
    }
  }

  lemma DropLeadingZero(b: nat, s: Digits)
    requires s != [] && s[0] == 0
    ensures Big(b, s[1..]) == Big(b, s)
  {
    var t := Reverse(s[1..]);
    assert t + Zeros(1) == Reverse(s);
    HighZerosWorthless(b, t, 1);
    BigReverse(b, t);
    BigReverse(b, Reverse(s));
    assert Reverse(t) == s[1..];
    assert Reverse(Reverse(s)) == s;
  }

  lemma RebaseKeeps(b: nat, c: nat, s: Digits)
    requires b > 1 && c > 1
    ensures Big(c, Rebase(b, c, s)) == Big(b, s)
    ensures LeadingZeros(Rebase(b, c, s)) == LeadingZeros(s)
    ensures Below(c, Rebase(b, c, s)) && Rebase(b, c, s) != []
  {
    var v, n := Big(b, s), LeadingZeros(s);
    CanonValue(c, v);
    CanonTop(c, v);
    HighZerosWorthless(c, Canon(c, v), n);
    BigReverse(c, Canon(c, v) + Zeros(n));
    CountsZeros(Canon(c, v), n);
  }

  /** Changing the base loses nothing, leading zeros included. */
  lemma RebaseBack(b: nat, c: nat, s: Digits)
    requires b > 1 && c > 1 && Below(b, s) && s != []
    ensures Rebase(c, b, Rebase(b, c, s)) == s
  {
    RebaseKeeps(b, c, s);
    SplitZeros(b, s);
  }
}
