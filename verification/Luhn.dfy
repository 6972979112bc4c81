/** Card-number checks: the Luhn checksum (ISO/IEC 7812-1, Annex B), the issuer prefix
  table, and digit extraction. */
module Luhn {
  import opened Options

  predicate IsDigit(c: char) {
    '0' <= c <= '9'
  }

  predicate AllDigits(s: string) {
    forall i | 0 <= i < |s| :: IsDigit(s[i])
  }

  function Digit(c: char): nat
    requires IsDigit(c)
  {
    c as int - '0' as int
  }

  /** A digit's contribution; doubled digits above 9 lose 9. */
  function Weight(c: char, double: bool): nat
    requires IsDigit(c)
  {
    if !double then Digit(c) else if 2 * Digit(c) > 9 then 2 * Digit(c) - 9 else 2 * Digit(c)
  }

  /** The checksum from the right; `double` says whether the last digit is doubled. */
  function Sum(s: string, double: bool): nat
    requires AllDigits(s)
  {
    if s == [] then 0 else Weight(s[|s| - 1], double) + Sum(s[..|s| - 1], !double)
  }

  predicate Valid(s: string) {
    13 <= |s| <= 19 && AllDigits(s) && Sum(s, false) % 10 == 0
  }

  /** `LuhnValid`. */
  method LuhnValid(number: string) returns (r: bool)
    ensures r <==> Valid(number)
  {
    var n := |number|;
    if n < 13 || n > 19 { return false; }
    var sum := 0;
    var double := false;
    var i := n;
    assert number[..n] == number;
    while i > 0
      invariant 0 <= i <= n && sum >= 0
      invariant AllDigits(number[i..])
      invariant AllDigits(number[..i]) ==> AllDigits(number) && sum + Sum(number[..i], double) == Sum(number, false)
    {
      i := i - 1;
      var d := number[i];
      if d < '0' || d > '9' {
        assert !IsDigit(number[i]);
        return false;
      }
      assert AllDigits(number[..i]) ==> AllDigits(number[..i + 1]);
      assert number[..i + 1][..i] == number[..i];
      var digit := d as int - '0' as int;
      if double {
        digit := digit * 2;
        if digit > 9 { digit := digit - 9; }
      }
      sum := sum + digit;
      double := !double;
    }
    r := sum % 10 == 0;
  }

  /** From the right, every second digit is doubled, starting with the second one; a doubled
      digit counts the sum of its digits. With the two shortest cases this is the whole
      checksum. */
  lemma RightmostPair(p: string, a: char, b: char)
    requires AllDigits(p) && IsDigit(a) && IsDigit(b)
    ensures AllDigits(p + [a, b])
    ensures Sum(p + [a, b], false) == Sum(p, false) + 2 * Digit(a) / 10 + 2 * Digit(a) % 10 + Digit(b)
    ensures Sum([b], false) == Digit(b) && Sum([], false) == 0
  {
    var s := p + [a, b];
    assert s[..|s| - 1] == p + [a] && (p + [a])[..|p|] == p && [b][..0] == [];
    assert Sum(p + [a], true) == Weight(a, true) + Sum(p, false);
  }

  // ---------- error detection ----------

  /** Replacing digit `i` changes the checksum by the change of its weight; `d` says
      whether the position is doubled. */
  lemma {:induction false} SumUpdate(s: string, i: nat, c: char, double: bool) returns (d: bool)
    requires AllDigits(s) && i < |s| && IsDigit(c)
    ensures AllDigits(s[i := c]) && Sum(s[i := c], double) == Sum(s, double) + Weight(c, d) - Weight(s[i], d)
    decreases |s|
  {
    var n := |s| - 1;
    var t := s[i := c];
    if i == n {
      assert t[..n] == s[..n];
      d := double;
    } else {
      assert t[..n] == s[..n][i := c];
      d := SumUpdate(s[..n], i, c, !double);
    }
  }

  function Swapped(s: string, i: nat): string
    requires i + 1 < |s|
  {
    s[i := s[i + 1]][i + 1 := s[i]]
  }

  lemma {:induction false} SumSwap(s: string, i: nat, double: bool) returns (d: bool)
    requires AllDigits(s) && i + 1 < |s|
    ensures AllDigits(Swapped(s, i))
    ensures Sum(Swapped(s, i), double) ==
      Sum(s, double) + Weight(s[i + 1], d) - Weight(s[i], d) + Weight(s[i], !d) - Weight(s[i + 1], !d)
    decreases |s|
  {
    var n := |s| - 1;
    var t := Swapped(s, i);
    if i + 1 == n {
      assert t[..n][..n - 1] == s[..n][..n - 1] && t[n] == s[i] && t[..n][n - 1] == s[n];
      d := !double;
    } else {
      assert t[..n] == Swapped(s[..n], i);
      d := SumSwap(s[..n], i, !double);
    }
  }

  /** Both weightings permute the ten digits. */
  lemma WeightInjective(a: char, b: char, double: bool)
    requires IsDigit(a) && IsDigit(b) && a != b
    ensures (Weight(a, double) - Weight(b, double)) % 10 != 0
  {}

  lemma ShiftedSum(before: int, after: int, change: int)
    requires after == before + change && before % 10 == 0
    ensures after % 10 == 0 <==> change % 10 == 0
  {}

  /** Changing any one digit of an accepted number is always detected. */
  lemma SingleDigitErrorDetected(s: string, i: nat, c: char)
    requires Valid(s) && i < |s| && c != s[i]
    ensures !Valid(s[i := c])
  {
    if IsDigit(c) {
      var d := SumUpdate(s, i, c, false);
      WeightInjective(c, s[i], d);
      ShiftedSum(Sum(s, false), Sum(s[i := c], false), Weight(c, d) - Weight(s[i], d));
    } else {
      assert s[i := c][i] == c;
    }
  }

  predicate NineAndZero(a: char, b: char) {
    (a == '0' && b == '9') || (a == '9' && b == '0')
  }

  lemma SwapDifference(a: char, b: char, d: bool)
    requires IsDigit(a) && IsDigit(b)
    ensures (Weight(b, d) - Weight(a, d) + Weight(a, !d) - Weight(b, !d)) % 10 == 0 <==> a == b || NineAndZero(a, b)
  {}

  /** Swapping two adjacent digits of an accepted number is detected exactly when they
      differ and are not 0 and 9. */
  lemma AdjacentSwapDetected(s: string, i: nat)
    requires Valid(s) && i + 1 < |s|
    ensures !Valid(Swapped(s, i)) <==> s[i] != s[i + 1] && !NineAndZero(s[i], s[i + 1])
  {
    var a, b := s[i], s[i + 1];
    var d := SumSwap(s, i, false);
    SwapDifference(a, b, d);
    ShiftedSum(Sum(s, false), Sum(Swapped(s, i), false), Weight(b, d) - Weight(a, d) + Weight(a, !d) - Weight(b, !d));
  }

  function DigitChar(d: nat): (c: char)
    requires d < 10
    ensures IsDigit(c) && Digit(c) == d
  {
    ('0' as int + d) as char
  }

  lemma LastDigit(p: string, c: char)
    requires AllDigits(p) && IsDigit(c)
    ensures AllDigits(p + [c]) && Sum(p + [c], false) == Digit(c) + Sum(p, true)
  {
    assert (p + [c])[..|p|] == p;
  }

  lemma Completes(sum: nat, d: nat)
    requires d < 10
    ensures (d + sum) % 10 == 0 <==> d == (10 - sum % 10) % 10
  {}

  /** Every digit prefix of legal length has exactly one check digit. */
  lemma UniqueCheckDigit(p: string)
    requires AllDigits(p) && 12 <= |p| <= 18
    ensures exists c :: Valid(p + [c]) && forall d :: Valid(p + [d]) ==> d == c
  {
    var sum := Sum(p, true);
    var c := DigitChar((10 - sum % 10) % 10);
    LastDigit(p, c);
    Completes(sum, Digit(c));
    assert Valid(p + [c]);
    forall d | Valid(p + [d]) ensures d == c {
      assert (p + [d])[|p|] == d;
      LastDigit(p, d);
      Completes(sum, Digit(d));
    }
  }

  // ---------- issuer prefixes ----------

  /** `digitLen` leading digits compared with a range, or fixed prefixes when there are
      any; and the allowed lengths. */
  datatype Rule = Rule(digitLen: nat, lo: int, hi: int, prefixes: seq<string>, lengths: seq<nat>)

  const RULES: seq<Rule> := [
    Rule(1, 4, 4, [], [13, 16, 19]),
    Rule(2, 51, 55, [], [16]),
    Rule(4, 2221, 2720, [], [16]),
    Rule(0, 0, 0, ["34", "37"], [15]),
    Rule(0, 0, 0, ["6011"], [16, 17, 18, 19]),
    Rule(3, 644, 649, [], [16, 17, 18, 19]),
    Rule(0, 0, 0, ["65"], [16, 17, 18, 19]),
    Rule(4, 3528, 3589, [], [16, 17, 18, 19])
  ]

  function Value(s: string): nat
    requires AllDigits(s)
  {
    if s == [] then 0 else 10 * Value(s[..|s| - 1]) + Digit(s[|s| - 1])
  }

  /** `strconv.Atoi` on a short string: an optional sign, then digits. */
  function Atoi(s: string): Option<int> {
    if |s| > 1 && (s[0] == '+' || s[0] == '-') && AllDigits(s[1..]) then
      Some((if s[0] == '-' then -1 else 1) * (Value(s[1..]) as int))
    else if s != [] && AllDigits(s) then Some(Value(s))
    else None
  }

  predicate Matches(number: string, r: Rule) {
    |number| in r.lengths &&
    if r.prefixes != [] then exists p | p in r.prefixes :: p <= number
    else 0 < r.digitLen <= |number| && Atoi(number[..r.digitLen]).Some? && r.lo <= Atoi(number[..r.digitLen]).value <= r.hi
  }

  /** `matchesIINRule`. */
  method MatchesRule(number: string, rule: Rule) returns (r: bool)
    ensures r <==> Matches(number, rule)
  {
    var known := false;
    for i := 0 to |rule.lengths|
      invariant known <==> |number| in rule.lengths[..i]
    {
      assert rule.lengths[..i + 1] == rule.lengths[..i] + [rule.lengths[i]];
      if rule.lengths[i] == |number| { known := true; }
    }
    assert rule.lengths[..|rule.lengths|] == rule.lengths;
    if !known { return false; }
    if |rule.prefixes| > 0 {
      for i := 0 to |rule.prefixes|
        invariant forall j | 0 <= j < i :: !(rule.prefixes[j] <= number)
      {
        if rule.prefixes[i] <= number {
          assert rule.prefixes[i] in rule.prefixes;
          return true;
        }
      }
      return false;
    }
    if rule.digitLen == 0 || |number| < rule.digitLen { return false; }
    var prefix := Atoi(number[..rule.digitLen]);
    if prefix.None? { return false; }
    r := prefix.value >= rule.lo && prefix.value <= rule.hi;
  }

  predicate MatchesAny(number: string) {
    13 <= |number| <= 19 && exists k | 0 <= k < |RULES| :: Matches(number, RULES[k])
  }

  method MatchesIINPrefix(number: string) returns (r: bool)
    ensures r <==> MatchesAny(number)
  {
    if |number| < 13 || |number| > 19 { return false; }
    for k := 0 to |RULES|
      invariant forall j | 0 <= j < k :: !Matches(number, RULES[j])
    {
      r := MatchesRule(number, RULES[k]);
      if r { return; }
    }
    r := false;
  }

  method IsLikelyPAN(number: string) returns (r: bool)
    ensures r <==> Valid(number) && MatchesAny(number)
  {
    r := LuhnValid(number);
    if r { r := MatchesIINPrefix(number); }
  }

  lemma {:induction false} ValueOfPrefix(s: string)
    requires AllDigits(s) && |s| == 4
    ensures Value(s[..1]) == Digit(s[0])
    ensures Value(s[..2]) == 10 * Digit(s[0]) + Digit(s[1])
    ensures Value(s[..3]) == 100 * Digit(s[0]) + 10 * Digit(s[1]) + Digit(s[2])
    ensures Value(s) == 1000 * Digit(s[0]) + 100 * Digit(s[1]) + 10 * Digit(s[2]) + Digit(s[3])
  {
    assert s[..1][..0] == [] && s[..2][..1] == s[..1] && s[..3][..2] == s[..2] && s[..4] == s && Value([]) == 0;
    assert Value(s[..1]) == 10 * Value(s[..1][..0]) + Digit(s[0]);
    assert Value(s[..2]) == 10 * Value(s[..1]) + Digit(s[1]);
    assert Value(s[..3]) == 10 * Value(s[..2]) + Digit(s[2]);
  }

  /** The brand of a number by its first four digits alone. */
  function Brand(first: nat): nat {
    if 4000 <= first < 5000 then 0
    else if 5100 <= first < 5600 then 1
    else if 2221 <= first <= 2720 then 2
    else if 3400 <= first < 3500 || 3700 <= first < 3800 then 3
    else if first == 6011 then 4
    else if 6440 <= first < 6500 then 5
    else if 6500 <= first < 6600 then 6
    else if 3528 <= first <= 3589 then 7
    else 8
  }

  /** The table never assigns a number to two brands: the rule that matches a digit
      string is determined by its first four digits. */
  lemma RuleIsBrand(number: string, k: nat)
    requires 13 <= |number| <= 19 && AllDigits(number) && k < |RULES| && Matches(number, RULES[k])
    ensures k == Brand(Value(number[..4]))
  {
    if RULES[k].prefixes == [] { RangeIsBrand(number, k, RULES[k].digitLen); } else { FixedPrefixIsBrand(number, k); }
  }

  lemma AtoiOfDigits(number: string, m: nat)
    requires AllDigits(number) && 1 <= m <= 4 <= |number|
    ensures Atoi(number[..m]) == Some(Value(number[..4][..m]))
  {
    var p := number[..m];
    assert p == number[..4][..m] && IsDigit(p[0]) && AllDigits(p);
  }

  lemma RangeIsBrand(number: string, k: nat, m: nat)
    requires 13 <= |number| && AllDigits(number) && k in {0, 1, 2, 5, 7} && m == RULES[k].digitLen && Matches(number, RULES[k])
    ensures k == Brand(Value(number[..4]))
  {
    ValueOfPrefix(number[..4]);
    AtoiOfDigits(number, m);
    assert number[..4][..4] == number[..4];
  }

  lemma FixedPrefixIsBrand(number: string, k: nat)
    requires 13 <= |number| && AllDigits(number) && k in {3, 4, 6} && Matches(number, RULES[k])
    ensures k == Brand(Value(number[..4]))
  {
    var s := number[..4];
    ValueOfPrefix(s);
    assert number[0] == s[0] && number[1] == s[1] && number[2] == s[2] && number[3] == s[3];
  }

  /** And the other way: a digit string of a length its brand allows matches the brand's
      rule. So an issuer rule matches exactly the numbers with a brand and such a length. */
  lemma BrandMatchesExactly(number: string)
    requires 13 <= |number| <= 19 && AllDigits(number)
    ensures MatchesAny(number)
       <==> Brand(Value(number[..4])) < |RULES| && |number| in RULES[Brand(Value(number[..4]))].lengths
  {
    var k := Brand(Value(number[..4]));
    if MatchesAny(number) {
      var j :| 0 <= j < |RULES| && Matches(number, RULES[j]);
      RuleIsBrand(number, j);
    }
    if k < |RULES| && |number| in RULES[k].lengths {
      if RULES[k].prefixes == [] { BrandInRange(number, k, RULES[k].digitLen); } else { BrandHasPrefix(number, k); }
    }
  }

  lemma BrandInRange(number: string, k: nat, m: nat)
    requires 13 <= |number| && AllDigits(number) && k in {0, 1, 2, 5, 7} && m == RULES[k].digitLen
    requires k == Brand(Value(number[..4])) && |number| in RULES[k].lengths
    ensures Matches(number, RULES[k])
  {
    ValueOfPrefix(number[..4]);
    AtoiOfDigits(number, m);
    assert number[..4][..4] == number[..4];
  }

  lemma BrandHasPrefix(number: string, k: nat)
    requires 13 <= |number| && AllDigits(number) && k in {3, 4, 6}
    requires k == Brand(Value(number[..4])) && |number| in RULES[k].lengths
    ensures Matches(number, RULES[k])
  {
    var s := number[..4];
    ValueOfPrefix(s);
    assert number[0] == s[0] && number[1] == s[1] && number[2] == s[2] && number[3] == s[3];
    if k == 3 {
      var p := if s[1] == '4' then "34" else "37";
      assert p <= number && p in RULES[k].prefixes;
    } else if k == 4 {
      assert "6011" <= number && "6011" in RULES[k].prefixes;
    } else {
      assert "65" <= number && "65" in RULES[k].prefixes;
    }
  }

  // ---------- digits of a formatted value ----------

  function DigitsOf(s: string): string {
    if s == [] then [] else DigitsOf(s[..|s| - 1]) + if IsDigit(s[|s| - 1]) then [s[|s| - 1]] else []
  }

  /** `ExtractDigits`. */
  method ExtractDigits(s: string) returns (buf: string)
    ensures buf == DigitsOf(s)
  {
    buf := [];
    for i := 0 to |s|
      invariant buf == DigitsOf(s[..i])
    {
      assert s[..i + 1][..i] == s[..i];
      if s[i] >= '0' && s[i] <= '9' { buf := buf + [s[i]]; }
    }
    assert s[..|s|] == s;
  }

  lemma {:induction false} DigitsOfDigits(s: string)
    ensures AllDigits(DigitsOf(s))
    ensures AllDigits(s) ==> DigitsOf(s) == s
  {
    if s != [] {
      assert AllDigits(s) ==> AllDigits(s[..|s| - 1]);
      DigitsOfDigits(s[..|s| - 1]);
    }
  }

  lemma {:induction false} DigitsOfConcat(a: string, b: string)
    ensures DigitsOf(a + b) == DigitsOf(a) + DigitsOf(b)
    decreases |b|
  {
    if b == [] {
      assert a + b == a;
    } else {
      assert (a + b)[..|a + b| - 1] == a + b[..|b| - 1];
      DigitsOfConcat(a, b[..|b| - 1]);
    }
  }

  /** Separators between digit groups do not change the verdict. */
  lemma {:induction false} SeparatorsAreIgnored(a: string, separator: string, b: string)
    requires AllDigits(a) && AllDigits(b) && forall i | 0 <= i < |separator| :: !IsDigit(separator[i])
    ensures Valid(DigitsOf(a + separator + b)) <==> Valid(a + b)
  {
    DigitsOfConcat(a + separator, b);
    DigitsOfConcat(a, separator);
    NoDigits(separator);
    DigitsOfDigits(a);
    DigitsOfDigits(b);
    assert DigitsOf(a) + [] == a;
  }

  lemma {:induction false} NoDigits(s: string)
    requires forall i | 0 <= i < |s| :: !IsDigit(s[i])
    ensures DigitsOf(s) == []
  {
    if s != [] { NoDigits(s[..|s| - 1]); }
  }
}
