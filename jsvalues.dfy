/** The few JavaScript value rules the to-do list relies on: `null`-able values and
    the conversion `Number(string)` that both the priority comparator and the loose
    `==` against a number literal apply to a stored priority string. */
module JsValues {

  /** A value that may be absent (`null` in the source). */
  datatype Option<+T> = None | Some(value: T)

  /** StrWhiteSpaceChar (ECMA-262, section 7.1.4.1.1): the white space and line
      terminator code points that `Number` strips from both ends of a string. */
  predicate IsWhiteSpace(c: char) {
    c == '\t' || c == '\n' || c == '\U{0B}' || c == '\U{0C}' || c == '\r' || c == ' '
    || c == '\U{A0}' || c == '\U{1680}' || ('\U{2000}' <= c <= '\U{200A}')
    || c == '\U{2028}' || c == '\U{2029}' || c == '\U{202F}' || c == '\U{205F}'
    || c == '\U{3000}' || c == '\U{FEFF}'
  }

  predicate IsDigit(c: char) {
    '0' <= c <= '9'
  }

  predicate AllWhiteSpace(s: string) {
    forall i :: 0 <= i < |s| ==> IsWhiteSpace(s[i])
  }

  predicate AllDigits(s: string) {
    forall i :: 0 <= i < |s| ==> IsDigit(s[i])
  }

  /** Removes leading white space. */
  function TrimStart(s: string): string {
    if s != [] && IsWhiteSpace(s[0]) then TrimStart(s[1..]) else s
  }

  /** Removes trailing white space. */
  function TrimEnd(s: string): string {
    if s != [] && IsWhiteSpace(s[|s| - 1]) then TrimEnd(s[..|s| - 1]) else s
  }

  /** TrimStart drops a prefix made only of white space and stops at the first
      other character. */
  lemma {:induction false} TrimStartShape(s: string)
    ensures var r := TrimStart(s);
      && |r| <= |s| && r == s[|s| - |r|..]
      && (forall i :: 0 <= i < |s| - |r| ==> IsWhiteSpace(s[i]))
      && (r != [] ==> !IsWhiteSpace(r[0]))
  {
    if s != [] && IsWhiteSpace(s[0]) {
      TrimStartShape(s[1..]);
      var r := TrimStart(s[1..]);
      assert s[1..][|s| - 1 - |r|..] == s[|s| - |r|..];
      forall i | 0 <= i < |s| - |r| ensures IsWhiteSpace(s[i]) {
        if i > 0 {
          assert s[i] == s[1..][i - 1];
        }
      }
    }
  }

  /** TrimEnd drops a suffix made only of white space and stops at the last other
      character. */
  lemma {:induction false} TrimEndShape(s: string)
    ensures var r := TrimEnd(s);
      && |r| <= |s| && r == s[..|r|]
      && (forall i :: |r| <= i < |s| ==> IsWhiteSpace(s[i]))
      && (r != [] ==> !IsWhiteSpace(r[|r| - 1]))
  {
    if s != [] && IsWhiteSpace(s[|s| - 1]) {
      TrimEndShape(s[..|s| - 1]);
    }
  }

  /** Removes white space at both ends, as `Number` does before reading the text. */
  function Trim(s: string): string {
    TrimEnd(TrimStart(s))
  }

  /** The value of a string of decimal digits, most significant digit first. */
  function DecimalValue(s: string): nat
    requires AllDigits(s)
  {
    if s == [] then 0
    else
      assert IsDigit(s[|s| - 1]);
      DecimalValue(s[..|s| - 1]) * 10 + (s[|s| - 1] as int - '0' as int)
  }

  /** `Number(s)` for a string `s`, with `None` standing for NaN: white space around
      the text is ignored, an empty (or all white space) string is 0, and a string of
      decimal digits is its decimal value. */
  function ToNumber(s: string): (r: Option<int>)
    ensures r.Some? ==> r.value >= 0
    ensures AllWhiteSpace(s) ==> r == Some(0)
    ensures s != [] && AllDigits(s) ==> r == Some(DecimalValue(s))
  {
    TrimStartShape(s);
    TrimEndShape(TrimStart(s));
    var t := Trim(s);
    if t == [] then Some(0)
    else if AllDigits(t) then Some(DecimalValue(t))
    else None
  }

  /** The character of a decimal digit value. */
  function DigitChar(n: int): char
    requires 0 <= n <= 9
  {
    ('0' as int + n) as char
  }

  /** `t` is a run of zeros (possibly none) ending in the digit `d`. */
  predicate ZerosThen(t: string, d: char) {
    |t| > 0 && t[|t| - 1] == d && forall i :: 0 <= i < |t| - 1 ==> t[i] == '0'
  }

  /** A digit string is worth 0 exactly when all its digits are zeros. */
  lemma {:induction false} DecimalZero(s: string)
    requires AllDigits(s)
    ensures DecimalValue(s) == 0 <==> forall i :: 0 <= i < |s| ==> s[i] == '0'
  {
    if s != [] {
      var p := s[..|s| - 1];
      DecimalZero(p);
      if DecimalValue(s) == 0 {
        forall i | 0 <= i < |s| ensures s[i] == '0' {
          if i < |s| - 1 { assert s[i] == p[i]; }
        }
      }
    }
  }

  /** A digit string is worth a non-zero digit value n exactly when it is zeros
      followed by that digit. */
  lemma DecimalDigitValue(s: string, n: int)
    requires AllDigits(s)
    requires 1 <= n <= 9
    ensures DecimalValue(s) == n <==> ZerosThen(s, DigitChar(n))
  {
    if s != [] {
      var p := s[..|s| - 1];
      DecimalZero(p);
      var v := DecimalValue(p);
      if v >= 1 {
        assert DecimalValue(s) >= 10;
        assert !(forall i :: 0 <= i < |p| ==> p[i] == '0');
        var i :| 0 <= i < |p| && p[i] != '0';
        assert s[i] == p[i];
      } else {
        if ZerosThen(s, DigitChar(n)) {
          forall i | 0 <= i < |p| ensures p[i] == '0' {
            assert p[i] == s[i];
          }
        }
      }
    }
  }

  /** In the modelled `Number` (see `ToNumber`: signs, fractions, exponents and
      radix literals are NaN here), over all strings: `Number(s)` is a digit value
      n in 1..9 exactly when the trimmed text is zeros followed by the digit of n. */
  lemma NumberOfZerosThenDigit(s: string, n: int)
    ensures 1 <= n <= 9 ==> (ToNumber(s) == Some(n) <==> ZerosThen(Trim(s), DigitChar(n)))
  {
    if 1 <= n <= 9 {
      var t := Trim(s);
      if t != [] {
        if AllDigits(t) {
          DecimalDigitValue(t, n);
        }
      }
    }
  }

  /** A single digit converts to its own value; this is how the priority codes
      "1", "2" and "3" chosen in the form become numbers. */
  lemma DigitToNumber(d: char)
    requires IsDigit(d)
    ensures ToNumber([d]) == Some(d as int - '0' as int)
  {
    assert [d][..0] == [];
    assert DecimalValue([d]) == d as int - '0' as int;
  }

  /** Leading zeros do not change the value of a digit string. */
  lemma {:induction false} LeadingZeroValue(s: string)
    requires AllDigits(s)
    ensures DecimalValue("0" + s) == DecimalValue(s)
  {
    if s != [] {
      var u := "0" + s;
      assert u[..|u| - 1] == "0" + s[..|s| - 1];
      LeadingZeroValue(s[..|s| - 1]);
    }
  }

  /** White space in front of the text is ignored by `Number`. */
  lemma {:induction false} LeadingWhiteSpaceIgnored(w: string, s: string)
    requires AllWhiteSpace(w)
    ensures ToNumber(w + s) == ToNumber(s)
  {
    TrimStartPadded(w, s);
  }

  lemma {:induction false} TrimStartPadded(w: string, s: string)
    requires AllWhiteSpace(w)
    ensures TrimStart(w + s) == TrimStart(s)
  {
    if w != [] {
      var ws := w + s;
      assert ws[0] == w[0] && IsWhiteSpace(ws[0]);
      assert TrimStart(ws) == TrimStart(ws[1..]);
      assert ws[1..] == w[1..] + s;
      TrimStartPadded(w[1..], s);
    } else {
      assert w + s == s;
    }
  }

  /** A string with a character that is neither white space nor a digit, between
      its first and last non-blank characters, converts to NaN. */
  lemma NonDigitIsNaN(s: string, i: int)
    requires 0 <= i < |s| && !IsDigit(s[i]) && !IsWhiteSpace(s[i])
    ensures ToNumber(s) == None
  {
    var a := TrimStart(s);
    var t := TrimEnd(a);
    TrimStartShape(s);
    TrimEndShape(a);
    assert i >= |s| - |a|;
    assert a[i - (|s| - |a|)] == s[i];
    assert i - (|s| - |a|) < |t|;
    assert t[i - (|s| - |a|)] == s[i];
  }
}
