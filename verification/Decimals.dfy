/** Decimal text: the wire and storage form of every fencing token and counter. */
module Decimals {
  import opened Outcomes

  /** Largest token any authority mints, 2^53 - 1. */
  const MAX_MINTED: nat := 9_007_199_254_740_991

  /** Largest token that text may carry, 2^64 - 1. */
  const MAX_TEXT: nat := 18_446_744_073_709_551_615

  predicate IsDigit(c: char) {
    '0' <= c <= '9'
  }

  predicate AllDigits(s: string) {
    forall i | 0 <= i < |s| :: IsDigit(s[i])
  }

  function DigitOf(c: char): (d: nat)
    requires IsDigit(c)
    ensures d < 10
  {
    c as int - '0' as int
  }

  function CharOf(d: nat): (c: char)
    requires d < 10
    ensures IsDigit(c) && DigitOf(c) == d
  {
    (d + '0' as int) as char
  }

  /** The number a digit string denotes; leading zeros are harmless. */
  function Value(s: string): nat
    requires AllDigits(s)
  {
    if s == "" then 0 else Value(s[..|s| - 1]) * 10 + DigitOf(s[|s| - 1])
  }

  function Print(n: nat): (s: string)
    ensures s != "" && AllDigits(s)
  {
    if n < 10 then [CharOf(n)] else Print(n / 10) + [CharOf(n % 10)]
  }

  /** One byte representation per number: `0`, or digits with no leading zero. */
  predicate Canonical(s: string) {
    s != "" && AllDigits(s) && (s[0] == '0' ==> |s| == 1)
  }

  function Pow10(k: nat): (p: nat)
    ensures p > 0
  {
    if k == 0 then 1 else 10 * Pow10(k - 1)
  }

  lemma {:induction false} PrintValue(n: nat)
    ensures Value(Print(n)) == n && Canonical(Print(n)) && (n > 0 ==> Print(n)[0] != '0')
  {
    if n >= 10 {
      PrintValue(n / 10);
      assert Print(n)[..|Print(n)| - 1] == Print(n / 10);
    } else {
      assert Print(n)[..0] == "";
    }
  }

  lemma {:induction false} ValueBounds(s: string)
    requires AllDigits(s)
    ensures Value(s) < Pow10(|s|)
    ensures s != "" && s[0] != '0' ==> Value(s) >= Pow10(|s| - 1)
    ensures s != "" && s[0] == '0' ==> Value(s) < Pow10(|s| - 1)
  {
    if |s| == 1 {
      assert s[..0] == "";
      assert Pow10(1) == 10;
    } else if s != "" {
      ValueBounds(s[..|s| - 1]);
    }
  }

  lemma {:induction false} ValuePrint(s: string)
    requires Canonical(s)
    ensures Print(Value(s)) == s
  {
    var p := s[..|s| - 1];
    if |s| == 1 {
      assert p == "" && s == [s[0]];
    } else {
      ValuePrint(p);
      ValueBounds(p);
      assert s == p + [s[|s| - 1]];
    }
  }

  lemma {:induction false} ValueConcat(a: string, b: string)
    requires AllDigits(a) && AllDigits(b)
    ensures AllDigits(a + b) && Value(a + b) == Value(a) * Pow10(|b|) + Value(b)
  {
    if b == "" {
      assert a + b == a;
    } else {
      var b' := b[..|b| - 1];
      ValueConcat(a, b');
      assert (a + b)[..|a + b| - 1] == a + b';
      ShiftDigit(Value(a), Pow10(|b'|), Value(b'), DigitOf(b[|b| - 1]));
    }
  }

  lemma {:induction false} ShiftDigit(x: nat, p: nat, v: nat, d: nat)
    ensures (x * p + v) * 10 + d == x * (10 * p) + (v * 10 + d)
  {
  }

  lemma {:induction false} ValueCons(c: char, s: string)
    requires IsDigit(c) && AllDigits(s)
    ensures AllDigits([c] + s) && Value([c] + s) == DigitOf(c) * Pow10(|s|) + Value(s)
  {
    ValueConcat([c], s);
    assert [c][..0] == "";
    assert Value([c]) == DigitOf(c);
  }

  // ---- The Redis counter: strip, add one with a carry, compare ----

  /** The script's first step: leading zeros go. */
  function StripZeros(s: string): (t: string)
    requires AllDigits(s)
    ensures AllDigits(t)
  {
    if s != "" && s[0] == '0' then StripZeros(s[1..]) else s
  }

  lemma {:induction false} StripKeepsValue(s: string)
    requires AllDigits(s)
    ensures Value(StripZeros(s)) == Value(s)
    ensures StripZeros(s) == "" || StripZeros(s)[0] != '0'
  {
    if s != "" && s[0] == '0' {
      StripKeepsValue(s[1..]);
      ValueCons('0', s[1..]);
      assert ['0'] + s[1..] == s;
    }
  }

  function Reversed(s: string): (r: string)
    ensures |r| == |s|
    ensures AllDigits(s) ==> AllDigits(r)
  {
    if s == "" then "" else [s[|s| - 1]] + Reversed(s[..|s| - 1])
  }

  /** The digit-by-digit increment of the acquire script, for any digit string however long. */
  method Increment(current: string) returns (next: string)
    requires current != "" && AllDigits(current)
    ensures next == Print(Value(current) + 1)
  {
    var digits := StripZeros(current);
    if digits == "" {
      digits := "0";
    }
    StripKeepsValue(current);
    assert Value("0") == 0 by { PrintValue(0); }
    var reversed := AddOne(digits);
    next := Joined(reversed);
    CanonicalSum(digits, next);
  }

  /** The copy into `next_chars`, most significant digit first. */
  method Joined(reversed: string) returns (next: string)
    ensures next == Reversed(reversed)
  {
    hide AllDigits;
    next := "";
    var i := |reversed|;
    assert reversed[..i] == reversed;
    while i > 0
      invariant 0 <= i <= |reversed|
      invariant next + Reversed(reversed[..i]) == Reversed(reversed)
    {
      i := i - 1;
      assert reversed[..i + 1][..i] == reversed[..i];
      next := next + [reversed[i]];
    }
  }

  /** The carry loop: least significant digit first, one digit longer when the last carry is left over. */
  method AddOne(digits: string) returns (reversed: string)
    requires digits != "" && AllDigits(digits)
    ensures AllDigits(reversed) && Value(Reversed(reversed)) == Value(digits) + 1
    ensures |digits| <= |reversed| <= |digits| + 1
    ensures |reversed| > |digits| ==> reversed[|digits|] == '1'
  {
    var carry, i := 1, |digits|;
    reversed := "";
    assert Summed(digits, i, reversed, carry);
    hide Value, Reversed, Pow10;
    while i > 0
      invariant 0 <= i <= |digits| && 0 <= carry <= 1
      invariant AllDigits(reversed) && |reversed| == |digits| - i
      invariant Summed(digits, i, reversed, carry)
    {
      i := i - 1;
      ghost var carriedIn := carry;
      var digit := DigitOf(digits[i]) + carry;
      if digit >= 10 {
        digit := digit - 10;
        carry := 1;
      } else {
        carry := 0;
      }
      CarryStep(digits, i, reversed, carriedIn, digit, carry);
      reversed := reversed + [CharOf(digit)];
    }
    assert digits[0..] == digits;
    if carry == 1 {
      ValueAppendReversed(reversed, '1');
      reversed := reversed + ['1'];
    }
  }

  /** The digits done so far, with the pending carry, are the sum of the corresponding tail and one. */
  predicate Summed(digits: string, i: nat, reversed: string, carry: nat)
    requires i <= |digits| && AllDigits(digits) && AllDigits(reversed)
  {
    Value(Reversed(reversed)) + carry * Pow10(|reversed|) == Value(digits[i..]) + 1
  }

  lemma {:induction false} CarryStep(digits: string, i: nat, reversed: string, carriedIn: nat, digit: nat, carry: nat)
    requires i < |digits| && AllDigits(digits) && AllDigits(reversed) && |reversed| == |digits| - i - 1
    requires Summed(digits, i + 1, reversed, carriedIn)
    requires digit < 10 && digit + 10 * carry == DigitOf(digits[i]) + carriedIn
    ensures Summed(digits, i, reversed + [CharOf(digit)], carry)
  {
    var p := Pow10(|reversed|);
    ValueCons(digits[i], digits[i + 1..]);
    assert [digits[i]] + digits[i + 1..] == digits[i..];
    ValueAppendReversed(reversed, CharOf(digit));
    assert Pow10(|reversed| + 1) == 10 * p;
    hide Value, Reversed, Pow10;
    CarryArithmetic(p, DigitOf(digits[i]), carriedIn, digit, carry);
  }

  lemma {:induction false} CarryArithmetic(p: nat, d: nat, carriedIn: nat, digit: nat, carry: nat)
    requires digit + 10 * carry == d + carriedIn
    ensures digit * p + carry * (10 * p) == d * p + carriedIn * p
  {
    assert (digit + 10 * carry) * p == (d + carriedIn) * p;
  }

  lemma {:induction false} ValueAppendReversed(s: string, c: char)
    requires AllDigits(s) && IsDigit(c)
    ensures Reversed(s + [c]) == [c] + Reversed(s)
    ensures Value(Reversed(s + [c])) == DigitOf(c) * Pow10(|s|) + Value(Reversed(s))
  {
    assert (s + [c])[..|s|] == s;
    ValueCons(c, Reversed(s));
  }

  lemma {:induction false} CanonicalSum(digits: string, next: string)
    requires digits != "" && AllDigits(digits) && AllDigits(next)
    requires digits == "0" || digits[0] != '0'
    requires Value(next) == Value(digits) + 1
    requires |next| == |digits| || (|next| > 0 && next[0] == '1')
    ensures next == Print(Value(digits) + 1)
  {
    ValueBounds(digits);
    ValueBounds(next);
    ValuePrint(next);
  }

  /** Lua's `>` on byte strings: first difference decides, a proper extension is greater. */
  predicate LexGreater(a: string, b: string) {
    a != "" && (b == "" || a[0] > b[0] || (a[0] == b[0] && LexGreater(a[1..], b[1..])))
  }

  lemma {:induction false} LexIsNumeric(a: string, b: string)
    requires AllDigits(a) && AllDigits(b) && |a| == |b|
    ensures LexGreater(a, b) <==> Value(a) > Value(b)
  {
    if a != "" {
      LexIsNumeric(a[1..], b[1..]);
      ValueCons(a[0], a[1..]);
      ValueCons(b[0], b[1..]);
      assert [a[0]] + a[1..] == a && [b[0]] + b[1..] == b;
      ValueBounds(a[1..]);
      ValueBounds(b[1..]);
      LeadingDigit(DigitOf(a[0]), DigitOf(b[0]), Pow10(|a| - 1), Value(a[1..]), Value(b[1..]));
    }
  }

  lemma {:induction false} LeadingDigit(x: nat, y: nat, p: nat, s: nat, t: nat)
    requires s < p && t < p
    ensures x > y ==> x * p + s > y * p + t
    ensures x < y ==> x * p + s < y * p + t
  {
    if x > y {
      assert x * p >= (y + 1) * p;
    } else if x < y {
      assert y * p >= (x + 1) * p;
    }
  }

  /** The script's length-then-lexicographic exhaustion test. */
  predicate TextExceedsMinted(next: string) {
    |next| > 16 || (|next| == 16 && LexGreater(next, "9007199254740991"))
  }

  lemma {:induction false} FourDigits(s: string)
    requires AllDigits(s) && |s| == 4
    ensures Value(s) == DigitOf(s[0]) * 1000 + DigitOf(s[1]) * 100 + DigitOf(s[2]) * 10 + DigitOf(s[3])
  {
    assert Value(s[..1]) == DigitOf(s[0]) by { assert s[..1][..0] == ""; }
    assert Value(s[..2]) == Value(s[..1]) * 10 + DigitOf(s[1]) by { assert s[..2][..1] == s[..1]; }
    assert Value(s[..3]) == Value(s[..2]) * 10 + DigitOf(s[2]) by { assert s[..3][..2] == s[..2]; }
  }

  lemma {:induction false} MintedText()
    ensures Value("9007199254740991") == MAX_MINTED
  {
    FourDigits("9007");
    FourDigits("1992");
    FourDigits("5474");
    FourDigits("0991");
    assert Pow10(4) == 10_000;
    ValueConcat("9007", "1992");
    ValueConcat("9007" + "1992", "5474");
    ValueConcat("9007" + "1992" + "5474", "0991");
    assert "9007" + "1992" + "5474" + "0991" == "9007199254740991";
  }

  lemma {:induction false} Pow10Monotone(j: nat, k: nat)
    requires j <= k
    ensures Pow10(j) <= Pow10(k)
  {
    if j < k {
      Pow10Monotone(j, k - 1);
    }
  }

  lemma {:induction false} BigPowers()
    ensures Pow10(20) > MAX_TEXT
  {
    assert Pow10(4) == 10_000;
    assert Pow10(8) == 100_000_000;
    assert Pow10(12) == 1_000_000_000_000;
    assert Pow10(16) == 10_000_000_000_000_000;
  }

  lemma {:induction false} ExhaustionTestIsExact(next: string)
    requires Canonical(next)
    ensures TextExceedsMinted(next) <==> Value(next) > MAX_MINTED
  {
    MintedText();
    ValueBounds(next);
    ValueBounds("9007199254740991");
    if |next| == 16 {
      LexIsNumeric(next, "9007199254740991");
    } else if |next| > 16 {
      Pow10Monotone(16, |next| - 1);
    } else {
      Pow10Monotone(|next|, 15);
    }
  }

  // ---- Token text parsers of three runtimes ----

  /** Rust's `str::parse::<u64>`: an optional plus sign, then digits, within range. */
  function RustParseU64(text: string): Option<nat> {
    var digits := if text != "" && text[0] == '+' then text[1..] else text;
    if digits != "" && AllDigits(digits) && Value(digits) <= MAX_TEXT then Some(Value(digits)) else None
  }

  function RustParseToken(text: string): Option<nat> {
    match RustParseU64(text)
    case Some(v) => if Print(v) == text then Some(v) else None
    case None => None
  }

  /** Go's `strconv.ParseUint(text, 10, 64)`: digits only, within range. */
  function GoParseUint(text: string): Option<nat> {
    if text != "" && AllDigits(text) && Value(text) <= MAX_TEXT then Some(Value(text)) else None
  }

  function GoParseToken(text: string): Option<nat> {
    match GoParseUint(text)
    case Some(v) => if Print(v) != text then None else Some(v)
    case None => None
  }

  /** `/^(0|[1-9][0-9]{0,19})$/` */
  predicate TsTokenPattern(text: string) {
    text == "0" || (1 <= |text| <= 20 && AllDigits(text) && text[0] != '0')
  }

  function TsParseToken(text: string): Option<nat> {
    if !TsTokenPattern(text) then None
    else if Value(text) > MAX_TEXT || Print(Value(text)) != text then None
    else Some(Value(text))
  }

  /** The three runtimes admit the same strings, exactly the canonical decimals up to 2^64 - 1. */
  lemma {:induction false} ParsersAgree(text: string)
    ensures RustParseToken(text) == GoParseToken(text) == TsParseToken(text)
    ensures GoParseToken(text) ==
            if Canonical(text) && Value(text) <= MAX_TEXT then Some(Value(text)) else None
  {
    if Canonical(text) {
      ValuePrint(text);
      ValueBounds(text);
      if |text| > 20 {
        Pow10Monotone(20, |text| - 1);
      }
      BigPowers();
    } else if AllDigits(text) && text != "" {
      PrintValue(Value(text));
    }
    var v := RustParseU64(text);
    if v.Some? {
      PrintValue(v.value);
    }
  }

  /** Parsing and printing are inverse in every runtime. */
  lemma {:induction false} ParsePrint(n: nat, text: string)
    requires n <= MAX_TEXT
    ensures GoParseToken(Print(n)) == RustParseToken(Print(n)) == TsParseToken(Print(n)) == Some(n)
    ensures GoParseToken(text).Some? ==> Print(GoParseToken(text).value) == text
  {
    PrintValue(n);
    ParsersAgree(Print(n));
    ParsersAgree(text);
  }
}
