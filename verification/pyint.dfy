/** Python's `int()` applied to text, as the InstanceNumber sort key uses it:
    surrounding whitespace is ignored, one optional sign, then decimal digits
    that may be grouped by single underscores, at most 4300 of them. Anything
    else makes `int()` raise ValueError, modelled as None. */
module PyInt {

  /** The whitespace `int()` skips at either end of its text. Below U+007F only the six
      C-locale spaces count (space, tab, newline, vertical tab, form feed, carriage
      return); from U+007F on, the characters `str.isspace()` accepts. The separators
      U+001C..U+001F satisfy `str.isspace()` but are not skipped by `int()`. */
  predicate IsSpace(c: char) {
    || c == ' '
    || 9 <= c as int <= 13
    || c as int == 0x85 || c as int == 0xA0 || c as int == 0x1680
    || 0x2000 <= c as int <= 0x200A
    || c as int == 0x2028 || c as int == 0x2029 || c as int == 0x202F
    || c as int == 0x205F || c as int == 0x3000
  }

  predicate IsDigit(c: char) {
    '0' <= c <= '9'
  }

  function DigitValue(c: char): nat
    requires IsDigit(c)
  {
    c as int - '0' as int
  }

  function DigitChar(d: nat): (c: char)
    requires d < 10
    ensures IsDigit(c) && DigitValue(c) == d
  {
    ('0' as int + d) as char
  }

  /** Drops leading whitespace. */
  function TrimStart(s: string): string
  {
    if s != [] && IsSpace(s[0]) then TrimStart(s[1..]) else s
  }

  /** Drops trailing whitespace. */
  function TrimEnd(s: string): string
  {
    if s != [] && IsSpace(s[|s| - 1]) then TrimEnd(s[..|s| - 1]) else s
  }

  /** Python's decimal integer grammar `digit (["_"] digit)*`: a non-empty run of
      digits in which an underscore may stand alone between two digits. */
  predicate DigitRun(s: string) {
    && |s| > 0
    && IsDigit(s[|s| - 1])
    && (|s| == 1
        || (if s[|s| - 2] == '_' then |s| >= 3 && DigitRun(s[..|s| - 2]) else DigitRun(s[..|s| - 1])))
  }

  /** The number the digits of `s` spell, underscores ignored. */
  function RunValue(s: string): nat
    requires DigitRun(s)
  {
    if |s| == 1 then DigitValue(s[0])
    else if s[|s| - 2] == '_' then 10 * RunValue(s[..|s| - 2]) + DigitValue(s[|s| - 1])
    else 10 * RunValue(s[..|s| - 1]) + DigitValue(s[|s| - 1])
  }

  /** CPython's default `sys.int_max_str_digits`: `int()` raises ValueError on decimal
      text with more digits than this. */
  const MaxStrDigits: nat := 4300

  /** How many digits `s` holds; underscores and signs do not count, leading zeros do. */
  function DigitCount(s: string): nat
  {
    if s == [] then 0
    else DigitCount(s[..|s| - 1]) + (if IsDigit(s[|s| - 1]) then 1 else 0)
  }

  /** The magnitude text after an optional sign: a digit run within the digit limit. */
  function Unsigned(t: string): Option
  {
    if DigitRun(t) && DigitCount(t) <= MaxStrDigits then Some(RunValue(t)) else None
  }

  datatype Option = None | Some(value: int)

  /** `str.strip()`: the text with whitespace removed from both ends. */
  function Strip(s: string): string {
    TrimEnd(TrimStart(s))
  }

  /** `int(s)` for a text argument: Some(n) on success, None where Python raises ValueError.
      Accepted text holds a digit, and nothing but digits, underscores, signs and whitespace;
      a negative result needs a minus sign. */
  function ParseInt(s: string): (r: Option)
    ensures r.Some? ==> exists i :: 0 <= i < |s| && IsDigit(s[i])
    ensures r.Some? ==> forall i :: 0 <= i < |s| ==> IsSpace(s[i]) || IsDigit(s[i]) || s[i] in "_+-"
    ensures r.Some? && r.value < 0 ==> '-' in s
  {
    ParseIntChars(s);
    ParseStripped(Strip(s))
  }

  /** The character facts of `ParseInt`, proved on the stripped text and carried back. */
  lemma ParseIntChars(s: string)
    ensures var r := ParseStripped(Strip(s));
      && (r.Some? ==> exists i :: 0 <= i < |s| && IsDigit(s[i]))
      && (r.Some? ==> forall i :: 0 <= i < |s| ==> IsSpace(s[i]) || IsDigit(s[i]) || s[i] in "_+-")
      && (r.Some? && r.value < 0 ==> '-' in s)
  {
    var a := TrimStartSlice(s);
    var b := TrimEndSlice(s[a..]);
    assert Strip(s) == s[a..a + b];
    ParseStrippedChars(Strip(s));
    var r := ParseStripped(Strip(s));
    if r.Some? {
      var k :| 0 <= k < |Strip(s)| && IsDigit(Strip(s)[k]);
      assert s[a + k] == Strip(s)[k];
      forall i | 0 <= i < |s|
        ensures IsSpace(s[i]) || IsDigit(s[i]) || s[i] in "_+-"
      {
        if a <= i < a + b {
          assert s[i] == Strip(s)[i - a];
        }
      }
      if r.value < 0 {
        assert s[a] == Strip(s)[0];
      }
    }
  }

  /** `TrimStart` drops a prefix made of whitespace only. */
  lemma {:induction false} TrimStartSlice(s: string) returns (a: nat)
    ensures a <= |s| && TrimStart(s) == s[a..]
    ensures forall i :: 0 <= i < a ==> IsSpace(s[i])
  {
    if s != [] && IsSpace(s[0]) {
      var a' := TrimStartSlice(s[1..]);
      a := a' + 1;
      assert s[1..][a'..] == s[a..];
      forall i | 0 <= i < a
        ensures IsSpace(s[i])
      {
        if i > 0 {
          assert s[i] == s[1..][i - 1];
        }
      }
    } else {
      a := 0;
    }
  }

  /** `TrimEnd` drops a suffix made of whitespace only. */
  lemma {:induction false} TrimEndSlice(s: string) returns (b: nat)
    ensures b <= |s| && TrimEnd(s) == s[..b]
    ensures forall i :: b <= i < |s| ==> IsSpace(s[i])
  {
    if s != [] && IsSpace(s[|s| - 1]) {
      b := TrimEndSlice(s[..|s| - 1]);
      assert s[..|s| - 1][..b] == s[..b];
      forall i | b <= i < |s|
        ensures IsSpace(s[i])
      {
        if i < |s| - 1 {
          assert s[i] == s[..|s| - 1][i];
        }
      }
    } else {
      b := |s|;
    }
  }

  /** A digit run is made of digits and underscores and ends in a digit. */
  lemma {:induction false} DigitRunChars(t: string)
    requires DigitRun(t)
    ensures forall i :: 0 <= i < |t| ==> IsDigit(t[i]) || t[i] == '_'
  {
    if |t| > 1 {
      var p := if t[|t| - 2] == '_' then t[..|t| - 2] else t[..|t| - 1];
      DigitRunChars(p);
      forall i | 0 <= i < |t|
        ensures IsDigit(t[i]) || t[i] == '_'
      {
        if i < |p| {
          assert t[i] == p[i];
        }
      }
    }
  }

  /** What `ParseStripped` accepts: a digit, and only digits, underscores and signs. */
  lemma ParseStrippedChars(t: string)
    ensures ParseStripped(t).Some? ==> exists i :: 0 <= i < |t| && IsDigit(t[i])
    ensures ParseStripped(t).Some? ==> forall i :: 0 <= i < |t| ==> IsDigit(t[i]) || t[i] in "_+-"
    ensures ParseStripped(t).Some? && ParseStripped(t).value < 0 ==> |t| > 0 && t[0] == '-'
  {
    if ParseStripped(t).Some? {
      var u := if t[0] == '-' || t[0] == '+' then t[1..] else t;
      assert DigitRun(u);
      DigitRunChars(u);
      assert t[|t| - 1] == u[|u| - 1];
      forall i | 0 <= i < |t|
        ensures IsDigit(t[i]) || t[i] in "_+-"
      {
        if u == t[1..] && i > 0 {
          assert t[i] == u[i - 1];
        }
      }
    }
  }

  /** `int()` on text that has no surrounding whitespace. */
  function ParseStripped(t: string): Option
  {
    if t == [] then None
    else if t[0] == '-' then
      match Unsigned(t[1..])
      case Some(n) => Some(-n)
      case None => None
    else if t[0] == '+' then Unsigned(t[1..])
    else Unsigned(t)
  }

  /** Plain decimal rendering of a natural number, most significant digit first. */
  function ShowNat(n: nat): (s: string)
    ensures DigitRun(s)
    ensures forall i :: 0 <= i < |s| ==> IsDigit(s[i])
  {
    if n < 10 then [DigitChar(n)]
    else
      var s := ShowNat(n / 10) + [DigitChar(n % 10)];
      assert s[..|s| - 1] == ShowNat(n / 10);
      s
  }

  /** Decimal rendering of an integer, as `str(n)` writes it. */
  function Show(n: int): string {
    if n < 0 then "-" + ShowNat(-n) else ShowNat(n)
  }

  /** The number of decimal digits of `n`, sign left out. */
  function DigitsOf(n: int): nat {
    |ShowNat(if n < 0 then -n else n)|
  }

  function Pow10(d: nat): nat {
    if d == 0 then 1 else 10 * Pow10(d - 1)
  }

  /** A natural number has at most `d` digits exactly when it is below 10^d. */
  lemma {:induction false} ShowNatLength(n: nat, d: nat)
    requires d >= 1
    ensures |ShowNat(n)| <= d <==> n < Pow10(d)
  {
    if d == 1 {
      if n >= 10 {
        assert |ShowNat(n)| == |ShowNat(n / 10)| + 1;
      }
    } else {
      Pow10AtLeastTen(d - 1);
      if n >= 10 {
        ShowNatLength(n / 10, d - 1);
        assert |ShowNat(n)| == |ShowNat(n / 10)| + 1;
        assert n == 10 * (n / 10) + n % 10;
      }
    }
  }

  lemma {:induction false} Pow10AtLeastTen(d: nat)
    requires d >= 1
    ensures Pow10(d) >= 10
  {
    if d > 1 {
      Pow10AtLeastTen(d - 1);
    }
  }

  /** `n` has at most `d` decimal digits exactly when -10^d < n < 10^d. */
  lemma DigitsOfBound(n: int, d: nat)
    requires d >= 1
    ensures DigitsOf(n) <= d <==> -(Pow10(d) as int) < n < Pow10(d)
  {
    ShowNatLength(if n < 0 then -n else n, d);
  }

  /** In text made of digits only, every character counts toward the limit. */
  lemma {:induction false} DigitCountAll(s: string)
    requires forall i :: 0 <= i < |s| ==> IsDigit(s[i])
    ensures DigitCount(s) == |s|
  {
    if s != [] {
      DigitCountAll(s[..|s| - 1]);
    }
  }

  lemma {:induction false} RunValueShowNat(n: nat)
    ensures RunValue(ShowNat(n)) == n
  {
    var s := ShowNat(n);
    if n >= 10 {
      RunValueShowNat(n / 10);
      assert s[..|s| - 1] == ShowNat(n / 10);
      assert IsDigit(s[|s| - 2]);
    }
  }

  /** `int(str(n)) == n`: reading back the decimal rendering gives the number, as long
      as it has no more digits than `int()` accepts. */
  lemma ParseShow(n: int)
    requires DigitsOf(n) <= MaxStrDigits
    ensures ParseInt(Show(n)) == Some(n)
  {
    var s := Show(n);
    var m := if n < 0 then -n else n;
    var digits := ShowNat(m);
    RunValueShowNat(m);
    DigitCountAll(digits);
    StripShow(n);
    if n < 0 {
      assert s[1..] == digits;
    } else {
      assert s[0] != '-' && s[0] != '+';
    }
  }

  /** Beyond the digit limit `int()` refuses even the decimal rendering of a number. */
  lemma TooManyDigits(n: int)
    requires DigitsOf(n) > MaxStrDigits
    ensures ParseInt(Show(n)) == None
  {
    var s := Show(n);
    var digits := ShowNat(if n < 0 then -n else n);
    DigitCountAll(digits);
    StripShow(n);
    if n < 0 {
      assert s[1..] == digits;
    } else {
      assert s[0] != '-' && s[0] != '+';
    }
  }

  lemma StripShow(n: int)
    ensures Strip(Show(n)) == Show(n)
  {
    var s := Show(n);
    var digits := ShowNat(if n < 0 then -n else n);
    var last := digits[|digits| - 1];
    assert IsDigit(last) && !IsSpace(last);
    assert s[|s| - 1] == last;
    assert !IsSpace(s[0]) by {
      if n >= 0 {
        assert s[0] == digits[0] && IsDigit(digits[0]);
      }
    }
    assert TrimStart(s) == s;
  }

  /** Whitespace around the text never changes what `int()` returns. */
  lemma ParseIgnoresSpace(s: string, c: char)
    requires IsSpace(c)
    ensures ParseInt([c] + s) == ParseInt(s)
    ensures ParseInt(s + [c]) == ParseInt(s)
  {
    assert ([c] + s)[1..] == s;
    assert TrimStart([c] + s) == TrimStart(s);
    StripAppend(s, c);
  }

  lemma {:induction false} StripAppend(s: string, c: char)
    requires IsSpace(c)
    ensures Strip(s + [c]) == Strip(s)
  {
    if s != [] && IsSpace(s[0]) {
      assert (s + [c])[1..] == s[1..] + [c];
      StripAppend(s[1..], c);
    } else if s == [] {
      assert s + [c] == [c] && [c][1..] == [];
      assert TrimStart([c]) == [];
    } else {
      assert TrimStart(s + [c]) == s + [c];
      assert (s + [c])[..|s|] == s;
    }
  }

  /** A file separator (U+001C) in front of the digits is not whitespace to `int()`: the
      text is rejected, although a tab or a no-break space in the same place is skipped. */
  lemma SeparatorNotSkipped()
    ensures ParseInt([28 as char, '1']) == None
    ensures ParseInt(['\t', '1']) == Some(1)
    ensures ParseInt([0xA0 as char, '1']) == Some(1)
  {
    assert TrimStart([28 as char, '1']) == [28 as char, '1'];
    assert TrimEnd([28 as char, '1']) == [28 as char, '1'];
    assert [28 as char, '1'][..1] == [28 as char] && !DigitRun([28 as char]);
    assert !DigitRun([28 as char, '1']);
    assert ['\t', '1'][1..] == ['1'] && [0xA0 as char, '1'][1..] == ['1'];
    assert TrimStart(['1']) == ['1'] && TrimEnd(['1']) == ['1'];
  }

  /** Nothing but whitespace. */
  predicate AllSpace(s: string) {
    forall i :: 0 <= i < |s| ==> IsSpace(s[i])
  }

  /** `s` is, piece by piece, what `int()` reads as `n`: leading whitespace, a sign ("",
      "+" or "-"), a digit run of at most `MaxStrDigits` digits spelling the magnitude,
      and trailing whitespace. */
  predicate Reads(s: string, lead: string, sign: string, t: string, trail: string, n: int) {
    && s == lead + sign + t + trail
    && AllSpace(lead) && AllSpace(trail)
    && (sign == "" || sign == "+" || sign == "-")
    && DigitRun(t) && DigitCount(t) <= MaxStrDigits
    && n == (if sign == "-" then -(RunValue(t) as int) else RunValue(t))
  }

  /** `s` is text that `int()` reads as `n`. */
  ghost predicate Denotes(s: string, n: int) {
    exists lead, sign, t, trail :: Reads(s, lead, sign, t, trail, n)
  }

  /** `int()` accepts exactly the texts that denote an integer, and reads that integer. */
  lemma ParseDenotes(s: string, n: int)
    ensures ParseInt(s) == Some(n) <==> Denotes(s, n)
  {
    if ParseInt(s) == Some(n) {
      var lead, sign, t, trail := ParseReads(s);
    }
    if Denotes(s, n) {
      var lead, sign, t, trail :| Reads(s, lead, sign, t, trail, n);
      ReadsParse(s, lead, sign, t, trail, n);
    }
  }

  /** Splits accepted text into the pieces `Reads` names. */
  lemma ParseReads(s: string) returns (lead: string, sign: string, t: string, trail: string)
    requires ParseInt(s).Some?
    ensures Reads(s, lead, sign, t, trail, ParseInt(s).value)
  {
    lead, trail := StripPieces(s);
    sign, t := SplitStripped(Strip(s));
    assert s == lead + sign + t + trail;
  }

  /** The strip removes whitespace only: the text is whitespace, the stripped text,
      whitespace. */
  lemma StripPieces(s: string) returns (lead: string, trail: string)
    ensures s == lead + Strip(s) + trail
    ensures AllSpace(lead) && AllSpace(trail)
  {
    var a := TrimStartSlice(s);
    var b := TrimEndSlice(s[a..]);
    assert Strip(s) == s[a..a + b];
    lead, trail := s[..a], s[a + b..];
    forall i | 0 <= i < |trail|
      ensures IsSpace(trail[i])
    {
      assert trail[i] == s[a..][b + i];
    }
    assert s == lead + s[a..a + b] + trail;
  }

  /** Splits accepted stripped text into its sign and its digit run. */
  lemma SplitStripped(u: string) returns (sign: string, t: string)
    requires ParseStripped(u).Some?
    ensures u == sign + t
    ensures sign == "" || sign == "+" || sign == "-"
    ensures DigitRun(t) && DigitCount(t) <= MaxStrDigits
    ensures ParseStripped(u).value == if sign == "-" then -(RunValue(t) as int) else RunValue(t)
  {
    if u[0] == '-' || u[0] == '+' {
      sign, t := u[..1], u[1..];
    } else {
      sign, t := "", u;
    }
  }

  /** Text made of the pieces `Reads` names is accepted with the value they spell. */
  lemma ReadsParse(s: string, lead: string, sign: string, t: string, trail: string, n: int)
    requires Reads(s, lead, sign, t, trail, n)
    ensures ParseInt(s) == Some(n)
  {
    DigitRunEnds(t);
    var u := sign + t;
    assert u[|u| - 1] == t[|t| - 1];
    assert s == lead + (u + trail);
    assert !IsSpace((u + trail)[0]) by {
      if sign == "" {
        assert (u + trail)[0] == t[0];
      }
    }
    TrimStartSpace(lead, u + trail);
    TrimEndSpace(u, trail);
    assert Strip(s) == u;
    if sign == "-" || sign == "+" {
      assert u[1..] == t;
    } else {
      assert u == t && !(t[0] == '-' || t[0] == '+');
    }
  }

  /** A digit run begins and ends with a digit. */
  lemma {:induction false} DigitRunEnds(t: string)
    requires DigitRun(t)
    ensures IsDigit(t[0]) && IsDigit(t[|t| - 1])
  {
    if |t| > 1 {
      var p := if t[|t| - 2] == '_' then t[..|t| - 2] else t[..|t| - 1];
      DigitRunEnds(p);
      assert t[0] == p[0];
    }
  }

  /** Leading whitespace is all `TrimStart` removes. */
  lemma {:induction false} TrimStartSpace(lead: string, rest: string)
    requires AllSpace(lead)
    requires rest == [] || !IsSpace(rest[0])
    ensures TrimStart(lead + rest) == rest
  {
    if lead == [] {
      assert lead + rest == rest;
    } else {
      assert (lead + rest)[1..] == lead[1..] + rest;
      assert AllSpace(lead[1..]) by {
        forall i | 0 <= i < |lead| - 1
          ensures IsSpace(lead[1..][i])
        {
          assert lead[1..][i] == lead[i + 1];
        }
      }
      TrimStartSpace(lead[1..], rest);
    }
  }

  /** Trailing whitespace is all `TrimEnd` removes. */
  lemma {:induction false} TrimEndSpace(rest: string, trail: string)
    requires AllSpace(trail)
    requires rest == [] || !IsSpace(rest[|rest| - 1])
    ensures TrimEnd(rest + trail) == rest
  {
    if trail == [] {
      assert rest + trail == rest;
    } else {
      var init := trail[..|trail| - 1];
      assert (rest + trail)[..|rest + trail| - 1] == rest + init;
      assert AllSpace(init) by {
        forall i | 0 <= i < |init|
          ensures IsSpace(init[i])
        {
          assert init[i] == trail[i];
        }
      }
      TrimEndSpace(rest, init);
    }
  }

  /** `int()` reads a plus sign and leading zeros. */
  lemma ExampleSignZeros()
    ensures ParseInt("+5") == Some(5)
    ensures ParseInt("007") == Some(7)
  {
    assert "007"[..2] == "00" && "00"[..1] == "0";
  }

  /** `int()` reads single underscores between digits. */
  lemma ExampleUnderscore()
    ensures ParseInt("1_000") == Some(1000)
  {
    assert "1_000"[..4] == "1_00" && "1_00"[..3] == "1_0" && "1_0"[..1] == "1";
    assert "1_0"[..2] == "1_" && "1_"[..1] == "1";
    assert DigitRun("1_000") && RunValue("1_000") == 1000 && DigitCount("1_000") == 4;
    ReadsParse("1_000", "", "", "1_000", "", 1000);
  }

  /** Texts `int()` rejects: a doubled underscore, a trailing sign, a space after the sign. */
  lemma ExampleRejected()
    ensures ParseInt("1__0") == None
    ensures ParseInt("5-") == None
    ensures ParseInt("- 1") == None
  {
  }
}
