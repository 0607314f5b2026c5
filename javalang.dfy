/**
 The pieces of java.lang that the quiz relies on, restricted to ASCII:
 String.equalsIgnoreCase, Integer.parseInt and the decimal rendering that
 string concatenation applies to an int (Integer.toString).
 */
module JavaLang {

  datatype Option<+T> = None | Some(value: T)

  /** Java's 32-bit signed `int`. */
  newtype Int32 = x: int | -0x8000_0000 <= x <= 0x7fff_ffff

  const MinInt32: int := -0x8000_0000
  const MaxInt32: int := 0x7fff_ffff

  // ---------------------------------------------------------------------
  // Case folding and String.equalsIgnoreCase
  // ---------------------------------------------------------------------

  /** Character.toUpperCase on ASCII letters; every other char is unchanged. */
  function ToUpper(c: char): char {
    if 'a' <= c <= 'z' then (c as int - 32) as char else c
  }

  /** Character.toLowerCase on ASCII letters; every other char is unchanged. */
  function ToLower(c: char): char {
    if 'A' <= c <= 'Z' then (c as int + 32) as char else c
  }

  /** The per-character test of String.equalsIgnoreCase: equal chars, equal
      upper-case forms, or equal lower-case forms of the upper-case forms. */
  predicate CharEqualsIgnoreCase(c1: char, c2: char) {
    c1 == c2 || ToUpper(c1) == ToUpper(c2) || ToLower(ToUpper(c1)) == ToLower(ToUpper(c2))
  }

  /** String.equalsIgnoreCase: same length and every position matches
      ignoring case. */
  predicate EqualsIgnoreCase(a: string, b: string) {
    |a| == |b| && forall i :: 0 <= i < |a| ==> CharEqualsIgnoreCase(a[i], b[i])
  }

  /** The string with every ASCII capital replaced by its small letter. */
  function Lower(s: string): (r: string)
    ensures |r| == |s|
    ensures forall i :: 0 <= i < |s| ==> r[i] == ToLower(s[i])
  {
    seq(|s|, i requires 0 <= i < |s| => ToLower(s[i]))
  }

  /** Java's three-way character test is the same as comparing the two
      characters folded to lower case. */
  lemma CharEqualsIgnoreCaseFolds(c1: char, c2: char)
    ensures CharEqualsIgnoreCase(c1, c2) <==> ToLower(c1) == ToLower(c2)
  {
  }

  /** Reference definition of case-insensitive equality: two strings are
      equal ignoring case exactly when their lower-case forms are equal. */
  lemma EqualsIgnoreCaseIffLowerEqual(a: string, b: string)
    ensures EqualsIgnoreCase(a, b) <==> Lower(a) == Lower(b)
  {
    if EqualsIgnoreCase(a, b) {
      forall i | 0 <= i < |a| ensures Lower(a)[i] == Lower(b)[i] {
        CharEqualsIgnoreCaseFolds(a[i], b[i]);
      }
    }
    if Lower(a) == Lower(b) {
      forall i | 0 <= i < |a| ensures CharEqualsIgnoreCase(a[i], b[i]) {
        assert Lower(a)[i] == Lower(b)[i];
        CharEqualsIgnoreCaseFolds(a[i], b[i]);
      }
    }
  }

  /** equalsIgnoreCase is an equivalence relation. */
  lemma EqualsIgnoreCaseIsEquivalence(a: string, b: string, c: string)
    ensures EqualsIgnoreCase(a, a)
    ensures EqualsIgnoreCase(a, b) ==> EqualsIgnoreCase(b, a)
    ensures EqualsIgnoreCase(a, b) && EqualsIgnoreCase(b, c) ==> EqualsIgnoreCase(a, c)
  {
    EqualsIgnoreCaseIffLowerEqual(a, a);
    EqualsIgnoreCaseIffLowerEqual(a, b);
    EqualsIgnoreCaseIffLowerEqual(b, a);
    EqualsIgnoreCaseIffLowerEqual(b, c);
    EqualsIgnoreCaseIffLowerEqual(a, c);
  }

  // ---------------------------------------------------------------------
  // Decimal digits
  // ---------------------------------------------------------------------

  predicate IsDigit(c: char) {
    '0' <= c <= '9'
  }

  predicate AllDigits(s: string) {
    forall i :: 0 <= i < |s| ==> IsDigit(s[i])
  }

  function DigitValue(c: char): nat
    requires IsDigit(c)
  {
    c as int - '0' as int
  }

  function DigitChar(d: nat): char
    requires d < 10
  {
    ('0' as int + d) as char
  }

  /** The number a string of decimal digits denotes, most significant first. */
  function DigitsValue(s: string): nat
    requires AllDigits(s)
    decreases |s|
  {
    if s == [] then 0 else DigitsValue(s[..|s| - 1]) * 10 + DigitValue(s[|s| - 1])
  }

  /** The shortest decimal rendering of a natural number. */
  function NatToDecimal(n: nat): (s: string)
    ensures |s| > 0 && AllDigits(s)
    ensures s[0] == '0' ==> n == 0
    decreases n
  {
    if n < 10 then [DigitChar(n)] else NatToDecimal(n / 10) + [DigitChar(n % 10)]
  }

  /** Integer.toString: an optional minus sign and the decimal magnitude. */
  function IntToDecimal(n: int): (s: string)
    ensures |s| > 0
  {
    if n < 0 then "-" + NatToDecimal(-n) else NatToDecimal(n)
  }

  /** Reading back the decimal rendering of n gives n. */
  lemma {:induction false} DecimalRoundTrip(n: nat)
    ensures DigitsValue(NatToDecimal(n)) == n
    decreases n
  {
    if n >= 10 {
      var s := NatToDecimal(n / 10);
      DecimalRoundTrip(n / 10);
      assert (s + [DigitChar(n % 10)])[..|s|] == s;
    }
  }

  /** A leading zero does not change the value of a digit string. */
  lemma {:induction false} LeadingZeroValue(s: string)
    requires AllDigits(s)
    ensures AllDigits("0" + s) && DigitsValue("0" + s) == DigitsValue(s)
    decreases |s|
  {
    assert AllDigits("0" + s);
    if s != [] {
      var init := s[..|s| - 1];
      LeadingZeroValue(init);
      assert ("0" + s)[..|s|] == "0" + init;
    }
  }

  // ---------------------------------------------------------------------
  // Integer.parseInt
  // ---------------------------------------------------------------------

  /** Integer.parseInt(s) in radix 10: an optional single '+' or '-', then
      one or more digits, denoting a value in the 32-bit range. Every other
      string, including the empty one and one with surrounding blanks, is
      rejected (NumberFormatException), modelled as None. */
  function ParseInt(s: string): (r: Option<Int32>)
  {
    if |s| == 0 then None
    else
      var digits := if s[0] == '-' || s[0] == '+' then s[1..] else s;
      if |digits| == 0 || !AllDigits(digits) then None
      else
        var magnitude: int := DigitsValue(digits);
        var v := if s[0] == '-' then -magnitude else magnitude;
        if MinInt32 <= v <= MaxInt32 then Some(v as Int32) else None
  }

  /** Every accepted string is an optional sign followed by at least one
      digit, and digits only. */
  lemma ParseIntAcceptsOnlyIntegerSyntax(s: string)
    requires ParseInt(s).Some?
    ensures |s| > 0
    ensures s[0] == '-' || s[0] == '+' || IsDigit(s[0])
    ensures forall i :: 1 <= i < |s| ==> IsDigit(s[i])
    ensures IsDigit(s[|s| - 1])
  {
    var digits := if s[0] == '-' || s[0] == '+' then s[1..] else s;
    assert AllDigits(digits) && |digits| > 0;
    assert s[|s| - 1] == digits[|digits| - 1];
    if s[0] == '-' || s[0] == '+' {
      forall i | 1 <= i < |s| ensures IsDigit(s[i]) {
        assert s[i] == digits[i - 1];
      }
    }
  }

  /** A string holding a blank anywhere (leading, trailing or inside) is
      never a number. */
  lemma ParseIntRejectsBlank(s: string, k: nat)
    requires k < |s| && s[k] == ' '
    ensures ParseInt(s) == None
  {
    if ParseInt(s).Some? {
      ParseIntAcceptsOnlyIntegerSyntax(s);
      assert false;
    }
  }

  /** parseInt inverts Integer.toString on the whole 32-bit range. */
  lemma ParseIntRoundTrip(n: int)
    requires MinInt32 <= n <= MaxInt32
    ensures ParseInt(IntToDecimal(n)) == Some(n as Int32)
  {
    var s := IntToDecimal(n);
    if n < 0 {
      DecimalRoundTrip(-n);
      assert s[1..] == NatToDecimal(-n);
    } else {
      DecimalRoundTrip(n);
    }
  }

  /** A '+' sign and leading zeros are accepted and ignored. */
  lemma ParseIntIgnoresPlusAndLeadingZero(s: string)
    requires |s| > 0 && AllDigits(s)
    ensures ParseInt("+" + s) == ParseInt(s)
    ensures ParseInt("0" + s) == ParseInt(s)
  {
    assert ("+" + s)[1..] == s;
    LeadingZeroValue(s);
  }

  /** Appending a digit shifts the value one decimal place. */
  lemma DigitsValueAppend(s: string, c: char)
    requires AllDigits(s) && IsDigit(c)
    ensures AllDigits(s + [c]) && DigitsValue(s + [c]) == DigitsValue(s) * 10 + DigitValue(c)
  {
    assert (s + [c])[..|s|] == s;
  }

  /** The digits of 2^31, one past the largest int. */
  lemma TwoToThe31Digits()
    ensures AllDigits("2147483648") && DigitsValue("2147483648") == 2147483648
  {
    DigitsValueAppend("", '2');
    assert "" + ['2'] == "2";
    DigitsValueAppend("2", '1');
    assert "2" + ['1'] == "21";
    DigitsValueAppend("21", '4');
    assert "21" + ['4'] == "214";
    DigitsValueAppend("214", '7');
    assert "214" + ['7'] == "2147";
    DigitsValueAppend("2147", '4');
    assert "2147" + ['4'] == "21474";
    DigitsValueAppend("21474", '8');
    assert "21474" + ['8'] == "214748";
    DigitsValueAppend("214748", '3');
    assert "214748" + ['3'] == "2147483";
    DigitsValueAppend("2147483", '6');
    assert "2147483" + ['6'] == "21474836";
    DigitsValueAppend("21474836", '4');
    assert "21474836" + ['4'] == "214748364";
    DigitsValueAppend("214748364", '8');
    assert "214748364" + ['8'] == "2147483648";
  }

  /** Concrete inputs: accepted forms, including the least int. */
  lemma ParseIntAcceptedExamples()
    ensures ParseInt("2") == Some(2)
    ensures ParseInt("+02") == Some(2)
    ensures ParseInt("-2147483648") == Some(MinInt32 as Int32)
  {
    ParseIntRoundTrip(2);
    ParseIntIgnoresPlusAndLeadingZero("2");
    assert "+02" == "+" + "02" && "02" == "0" + "2";
    ParseIntIgnoresPlusAndLeadingZero("02");
    TwoToThe31Digits();
    assert "-2147483648"[1..] == "2147483648";
  }

  /** Concrete inputs: a word, the empty string, a number with a blank
      before or after it, a lone sign, and one past the largest int. */
  lemma ParseIntRejectedExamples()
    ensures ParseInt("Paris") == None
    ensures ParseInt("") == None
    ensures ParseInt(" 2") == None
    ensures ParseInt("2 ") == None
    ensures ParseInt("+") == None && ParseInt("-") == None
    ensures ParseInt("2147483648") == None
  {
    assert !IsDigit("Paris"[0]);
    ParseIntRejectsBlank(" 2", 0);
    ParseIntRejectsBlank("2 ", 1);
    TwoToThe31Digits();
  }
}
