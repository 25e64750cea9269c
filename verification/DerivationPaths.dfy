/** Derivation paths such as m/0/1/40/2'/1000. */
module DerivationPaths {
  import opened Wrappers
  import Decimal

  const HARDENED := 0x8000_0000
  const MAX_INDEX := 2 * HARDENED

  const ROOT_ALIASES := ["m", "M", "m'", "M'"]

  /** What `+step` makes of text that is not a decimal numeral, None standing for NaN; left open. */
  type OtherCast = string -> Option<int>

  /** The cast `+step`. */
  function Cast(other: OtherCast, number: string): Option<int> {
    if number != "" && Decimal.AllDigits(number) then Some(Decimal.Value(number)) else other(number)
  }

  function Split(s: string, sep: char): (parts: seq<string>)
    ensures parts != []
  {
    if s == "" then [""]
    else
      var rest := Split(s[1..], sep);
      if s[0] == sep then [""] + rest else [[s[0]] + rest[0]] + rest[1..]
  }

  function ParseStep(other: OtherCast, step: string): Option<int> {
    var isHardened := step != "" && step[|step| - 1] == '\'';
    var number := if isHardened then step[..|step| - 1] else step;
    if number == "" || number[0] == '-' then None
    else
      match Cast(other, number)
      case None => None
      case Some(index) => Some(if isHardened then index + HARDENED else index)
  }

  /** None when any step is not a number. */
  function ParseSteps(other: OtherCast, steps: seq<string>): Option<seq<int>> {
    if steps == [] then Some([])
    else
      var first := ParseStep(other, steps[0]);
      var rest := ParseSteps(other, steps[1..]);
      if first.Some? && rest.Some? then Some([first.value] + rest.value) else None
  }

  /** `_getDerivationIndexes` */
  function Indexes(other: OtherCast, path: string): Option<seq<int>> {
    var steps := Split(path, '/');
    if path in ROOT_ALIASES then Some([])
    else if steps[0] !in ROOT_ALIASES then None
    else ParseSteps(other, steps[1..])
  }

  predicate AllIn(indexes: seq<int>, bound: nat) { forall i | 0 <= i < |indexes| :: 0 <= indexes[i] < bound }

  /** `HDPrivateKey.isValidPath` on a string; `HDPublicKey.isValidPath` with the bound HARDENED. */
  predicate IsValidPath(other: OtherCast, path: string, bound: nat) {
    var indexes := Indexes(other, path);
    indexes.Some? && AllIn(indexes.value, bound)
  }

  // ---- what is read, and what is not ----

  /** The four roots are the empty path, and no path starts otherwise. */
  lemma Roots(other: OtherCast, path: string)
    ensures path == "m" || path == "M" || path == "m'" || path == "M'" ==> Indexes(other, path) == Some([])
    ensures Indexes(other, path).Some? && path !in ["m", "M", "m'", "M'"] ==>
      var root := Split(path, '/')[0];
      root == "m" || root == "M" || root == "m'" || root == "M'"
  {
    hide ParseSteps, Split;
  }

  /** A path is malformed as soon as one step is: empty, with a sign, a bare quote, or not a number. */
  lemma {:induction false} OneBadStep(other: OtherCast, steps: seq<string>)
    ensures ParseSteps(other, steps).None? <==> exists i :: 0 <= i < |steps| && ParseStep(other, steps[i]).None?
    ensures ParseSteps(other, steps).Some? ==>
      |ParseSteps(other, steps).value| == |steps|
      && forall i | 0 <= i < |steps| :: ParseStep(other, steps[i]) == Some(ParseSteps(other, steps).value[i])
  {
    hide ParseStep;
    if steps == [] {
    } else {
      OneBadStep(other, steps[1..]);
      assert forall i | 1 <= i < |steps| :: steps[i] == steps[1..][i - 1];
      if i :| 0 <= i < |steps| && ParseStep(other, steps[i]).None? {
        if i > 0 { assert ParseStep(other, steps[1..][i - 1]).None?; }
      }
      if i :| 0 <= i < |steps[1..]| && ParseStep(other, steps[1..][i]).None? {
        assert ParseStep(other, steps[i + 1]).None?;
      }
    }
  }

  lemma BadSteps(other: OtherCast, step: string)
    ensures ParseStep(other, "") == None && ParseStep(other, "'") == None
    ensures step != "" && step[0] == '-' ==> ParseStep(other, step) == None
    ensures step != "" && !Decimal.AllDigits(step) && step[|step| - 1] != '\'' && step[0] != '-' ==>
      ParseStep(other, step) == other(step)
  {}

  // ---- the canonical text of a list of indexes ----

  function StepText(index: nat): string
    requires index < MAX_INDEX
  {
    Decimal.Text(index % HARDENED) + (if index >= HARDENED then "'" else "")
  }

  /** Every step behind a slash of its own. */
  function Tail(indexes: seq<int>): string
    requires AllIn(indexes, MAX_INDEX)
  {
    if indexes == [] then "" else "/" + StepText(indexes[0]) + Tail(indexes[1..])
  }

  function PathText(indexes: seq<int>): string
    requires AllIn(indexes, MAX_INDEX)
  {
    "m" + Tail(indexes)
  }

  lemma {:induction false} SplitAtFirst(part: string, rest: string, sep: char)
    requires sep !in part
    ensures Split(part + [sep] + rest, sep) == [part] + Split(rest, sep)
    ensures Split(part, sep) == [part]
  {
    if part == "" {
      assert part + [sep] + rest == [sep] + rest;
    } else {
      assert part[0] in part && sep !in part[1..];
      assert (part + [sep] + rest)[1..] == part[1..] + [sep] + rest;
      SplitAtFirst(part[1..], rest, sep);
      assert [part[0]] + part[1..] == part;
    }
  }

  lemma OnlyDigits(s: string, c: char)
    requires Decimal.AllDigits(s) && !Decimal.IsDigit(c)
    ensures c !in s
  {}

  lemma NumberStep(other: OtherCast, number: string, hardened: bool)
    requires number != "" && Decimal.AllDigits(number)
    ensures ParseStep(other, number + (if hardened then "'" else ""))
         == Some(Decimal.Value(number) + if hardened then HARDENED else 0)
  {
    var step := number + if hardened then "'" else "";
    hide Decimal.Value;
    OnlyDigits(number, '-');
    OnlyDigits(number, '\'');
    assert number[|number| - 1] in number && number[0] in number;
    assert hardened ==> step[..|step| - 1] == number;
    assert !hardened ==> step == number;
  }

  /** Reading the text of a step gives the step. */
  lemma StepRoundTrip(other: OtherCast, index: nat)
    requires index < MAX_INDEX
    ensures ParseStep(other, StepText(index)) == Some(index)
  {
    hide ParseStep;
    var low := index % HARDENED;
    Decimal.TextRoundTrip(low);
    NumberStep(other, Decimal.Text(low), index >= HARDENED);
  }

  lemma StepHasNoSlash(index: nat)
    requires index < MAX_INDEX
    ensures '/' !in StepText(index)
    ensures '\'' in StepText(index) <==> index >= HARDENED
  {
    var number := Decimal.Text(index % HARDENED);
    OnlyDigits(number, '/');
    OnlyDigits(number, '\'');
    assert index >= HARDENED ==> StepText(index)[|number|] == '\'';
  }

  function StepTexts(indexes: seq<int>): seq<string>
    requires AllIn(indexes, MAX_INDEX)
  {
    if indexes == [] then [] else [StepText(indexes[0])] + StepTexts(indexes[1..])
  }

  lemma TailCons(root: string, indexes: seq<int>)
    requires AllIn(indexes, MAX_INDEX) && indexes != []
    ensures root + Tail(indexes) == root + ['/'] + (StepText(indexes[0]) + Tail(indexes[1..]))
  {}

  lemma {:induction false} TailSplits(root: string, indexes: seq<int>)
    requires AllIn(indexes, MAX_INDEX) && '/' !in root
    ensures Split(root + Tail(indexes), '/') == [root] + StepTexts(indexes)
    decreases |indexes|
  {
    if indexes == [] {
      SplitAtFirst(root, "", '/');
      assert root + Tail(indexes) == root;
    } else {
      var step, rest := StepText(indexes[0]), Tail(indexes[1..]);
      var tail, texts := step + rest, StepTexts(indexes[1..]);
      StepHasNoSlash(indexes[0]);
      TailSplits(step, indexes[1..]);
      SplitAtFirst(root, tail, '/');
      TailCons(root, indexes);
      assert StepTexts(indexes) == [step] + texts;
    }
  }

  lemma {:induction false} StepsRoundTrip(other: OtherCast, indexes: seq<int>)
    requires AllIn(indexes, MAX_INDEX)
    ensures ParseSteps(other, StepTexts(indexes)) == Some(indexes)
  {
    hide ParseStep, StepText;
    if indexes == [] {
    } else {
      StepRoundTrip(other, indexes[0]);
      StepsRoundTrip(other, indexes[1..]);
      assert StepTexts(indexes)[1..] == StepTexts(indexes[1..]);
      assert [indexes[0]] + indexes[1..] == indexes;
    }
  }

  /** Reading the canonical text of a list of indexes gives the list, whatever else the cast accepts. */
  lemma PathRoundTrip(other: OtherCast, indexes: seq<int>)
    requires AllIn(indexes, MAX_INDEX)
    ensures Indexes(other, PathText(indexes)) == Some(indexes)
    ensures IsValidPath(other, PathText(indexes), MAX_INDEX)
    ensures IsValidPath(other, PathText(indexes), HARDENED) <==> AllIn(indexes, HARDENED)
    ensures '\'' in PathText(indexes) <==> !AllIn(indexes, HARDENED)
  {
    TailSplits("m", indexes);
    StepsRoundTrip(other, indexes);
    if indexes != [] {
      assert PathText(indexes)[1] == '/';
    }
    HardenedMark(indexes);
  }

  /** The quote appears exactly when some step is hardened. */
  lemma {:induction false} HardenedMark(indexes: seq<int>)
    requires AllIn(indexes, MAX_INDEX)
    ensures '\'' in Tail(indexes) <==> !AllIn(indexes, HARDENED)
  {
    if indexes == [] {
    } else {
      HardenedMark(indexes[1..]);
      StepHasNoSlash(indexes[0]);
      assert indexes == [indexes[0]] + indexes[1..];
      assert '\'' in Tail(indexes) <==> '\'' in StepText(indexes[0]) || '\'' in Tail(indexes[1..]);
    }
  }

  lemma PathTextConcat(p: seq<int>, q: seq<int>)
    requires AllIn(p, MAX_INDEX) && AllIn(q, MAX_INDEX)
    ensures AllIn(p + q, MAX_INDEX) && PathText(p + q) == PathText(p) + Tail(q)
  {
    TailConcat(p, q);
  }

  lemma {:induction false} TailConcat(p: seq<int>, q: seq<int>)
    requires AllIn(p, MAX_INDEX) && AllIn(q, MAX_INDEX)
    ensures Tail(p + q) == Tail(p) + Tail(q)
  {
    if p == [] {
      assert p + q == q;
    } else {
      assert (p + q)[1..] == p[1..] + q;
      TailConcat(p[1..], q);
    }
  }
}
