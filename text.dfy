/**
  The text handling the bot borrows from Python: `str.strip()`, `int(...)` on
  a stripped message, the decimal rendering of a position (`f"{i}"`) and
  `" ".join`. Whitespace is the set of characters Python 3's `str.isspace`
  accepts; numbers are an optional sign followed by ASCII digits.
 */
module Text {
  import opened Wrappers

  /**
    The characters `str.strip()` removes: tab to carriage return, the four
    ASCII separators U+001C to U+001F, space, next line, no-break space, and
    the Unicode space separators and line and paragraph separators.
   */
  predicate IsSpace(c: char) {
    || '\t' <= c <= '\r'
    || '\U{1C}' <= c <= ' '
    || c == '\U{85}' || c == '\U{A0}' || c == '\U{1680}'
    || '\U{2000}' <= c <= '\U{200A}'
    || c == '\U{2028}' || c == '\U{2029}' || c == '\U{202F}' || c == '\U{205F}' || c == '\U{3000}'
  }

  /** Number of whitespace characters at the front of `s`. */
  function LeadingSpaces(s: string): (n: nat)
    ensures n <= |s|
    ensures forall k :: 0 <= k < n ==> IsSpace(s[k])
    ensures n < |s| ==> !IsSpace(s[n])
  {
    if s == [] || !IsSpace(s[0]) then 0 else 1 + LeadingSpaces(s[1..])
  }

  /** Number of whitespace characters at the back of `s`. */
  function TrailingSpaces(s: string): (n: nat)
    ensures n <= |s|
    ensures forall k :: |s| - n <= k < |s| ==> IsSpace(s[k])
    ensures n < |s| ==> !IsSpace(s[|s| - 1 - n])
  {
    if s == [] || !IsSpace(s[|s| - 1]) then 0 else 1 + TrailingSpaces(s[..|s| - 1])
  }

  /** `s.strip()`: `s` without its leading and trailing whitespace. */
  function Strip(s: string): (r: string)
    ensures |r| <= |s|
    ensures r == [] || (!IsSpace(r[0]) && !IsSpace(r[|r| - 1]))
  {
    var t := s[LeadingSpaces(s)..];
    t[..|t| - TrailingSpaces(t)]
  }

  /** A message is blank when stripping leaves nothing (`not text.strip()`). */
  predicate IsBlank(s: string) {
    Strip(s) == []
  }

  /** Stripping keeps exactly one contiguous slice of `s` and drops only whitespace around it. */
  lemma StripIsSlice(s: string)
    ensures exists i, j {:trigger s[i..j]} ::
              && 0 <= i <= j <= |s| && Strip(s) == s[i..j]
              && (forall k :: 0 <= k < i ==> IsSpace(s[k]))
              && (forall k :: j <= k < |s| ==> IsSpace(s[k]))
  {
    var i := LeadingSpaces(s);
    var t := s[i..];
    var j := i + |t| - TrailingSpaces(t);
    assert Strip(s) == s[i..j];
    forall k | j <= k < |s| ensures IsSpace(s[k]) {
      assert s[k] == t[k - i];
    }
  }

  /** A message is blank exactly when every character of it is whitespace. */
  lemma BlankIffAllSpace(s: string)
    ensures IsBlank(s) <==> forall k :: 0 <= k < |s| ==> IsSpace(s[k])
  {
  }

  /** Stripping twice is stripping once. */
  lemma StripIdempotent(s: string)
    ensures Strip(Strip(s)) == Strip(s)
  {
  }

  /** A string without whitespace at either end is its own strip. */
  lemma StripFixed(s: string)
    requires s == [] || (!IsSpace(s[0]) && !IsSpace(s[|s| - 1]))
    ensures Strip(s) == s
  {
  }

  predicate IsDigit(c: char) {
    '0' <= c <= '9'
  }

  predicate AllDigits(s: string) {
    forall k :: 0 <= k < |s| ==> IsDigit(s[k])
  }

  function DigitValue(c: char): (d: nat)
    requires IsDigit(c)
    ensures d < 10
  {
    c as nat - '0' as nat
  }

  function DigitChar(d: nat): (c: char)
    requires d < 10
    ensures IsDigit(c) && DigitValue(c) == d
  {
    ('0' as nat + d) as char
  }

  /** The value of a string of decimal digits, most significant first. */
  function DigitsValue(s: string): nat
    requires AllDigits(s)
  {
    if s == [] then 0 else 10 * DigitsValue(s[..|s| - 1]) + DigitValue(s[|s| - 1])
  }

  /**
    `int(s)` for a stripped `s`: an optional `+` or `-` followed by at least
    one decimal digit; anything else is the `ValueError` path, `None`.
   */
  function ParseInt(s: string): (r: Option<int>)
    ensures r.Some? ==> s != [] && !IsSpace(s[0]) && !IsSpace(s[|s| - 1])
  {
    if |s| >= 2 && (s[0] == '+' || s[0] == '-') && AllDigits(s[1..]) then
      var v: int := DigitsValue(s[1..]);
      Some(if s[0] == '-' then -v else v)
    else if s != [] && AllDigits(s) then
      Some(DigitsValue(s))
    else
      None
  }

  /** `str(n)` for a natural number: its decimal digits without leading zeros. */
  function NatToString(n: nat): (r: string)
    ensures r != [] && AllDigits(r)
  {
    if n < 10 then [DigitChar(n)] else NatToString(n / 10) + [DigitChar(n % 10)]
  }

  /** Reading back a rendered number gives the number. */
  lemma {:induction false} DigitsOfNatToString(n: nat)
    ensures DigitsValue(NatToString(n)) == n
  {
    var r := NatToString(n);
    if n >= 10 {
      DigitsOfNatToString(n / 10);
      assert r[..|r| - 1] == NatToString(n / 10);
    }
  }

  /** A position typed back exactly as the bot rendered it parses to that position. */
  lemma ParseNatToString(n: nat)
    ensures Strip(NatToString(n)) == NatToString(n)
    ensures ParseInt(NatToString(n)) == Some(n)
  {
    var r := NatToString(n);
    assert IsDigit(r[0]) && IsDigit(r[|r| - 1]);
    StripFixed(r);
    DigitsOfNatToString(n);
  }

  /** `sep.join(words)`: the words in order, `sep` between neighbours. */
  function Join(words: seq<string>, sep: string): (r: string)
    ensures words == [] ==> r == []
    ensures |words| == 1 ==> r == words[0]
    ensures words != [] ==> words[0] <= r
    ensures words != [] ==> |words[|words| - 1]| <= |r| && r[|r| - |words[|words| - 1]|..] == words[|words| - 1]
    ensures |words| >= 2 ==> words[0] + sep <= r
  {
    if words == [] then []
    else if |words| == 1 then words[0]
    else words[0] + sep + Join(words[1..], sep)
  }

  /** Joining two non-empty runs of words puts one separator between their joins. */
  lemma {:induction false} JoinAppend(a: seq<string>, b: seq<string>, sep: string)
    requires a != [] && b != []
    ensures Join(a + b, sep) == Join(a, sep) + sep + Join(b, sep)
  {
    var ab := a + b;
    assert ab[0] == a[0] && |ab| >= 2;
    if |a| > 1 {
      assert ab[1..] == a[1..] + b;
      JoinAppend(a[1..], b, sep);
      var x, y := Join(a[1..], sep), Join(b, sep);
      assert Join(ab, sep) == a[0] + sep + (x + sep + y);
      assert Join(a, sep) == a[0] + sep + x;
      ConcatRegroup(a[0], sep, x, y);
    } else {
      assert ab[1..] == b;
      assert Join(ab, sep) == a[0] + sep + Join(b, sep);
    }
  }

  lemma ConcatRegroup(w: string, sep: string, x: string, y: string)
    ensures w + sep + (x + sep + y) == (w + sep + x) + sep + y
  {
  }

  /** A string of digits whose value is zero consists of zeros only. */
  lemma {:induction false} ZeroValueDigits(s: string)
    requires AllDigits(s) && DigitsValue(s) == 0
    ensures forall i :: 0 <= i < |s| ==> s[i] == '0'
  {
    if s != [] {
      var p := s[..|s| - 1];
      assert AllDigits(p);
      ZeroValueDigits(p);
      forall i | 0 <= i < |s| ensures s[i] == '0' {
        if i < |s| - 1 {
          assert s[i] == p[i];
        }
      }
    }
  }

  /** A non-empty string of digits is some leading zeros followed by the rendering of its value. */
  lemma {:induction false} DigitsAreZerosThenRendering(s: string)
    requires s != [] && AllDigits(s)
    ensures var t := NatToString(DigitsValue(s));
      && |t| <= |s| && s[|s| - |t|..] == t
      && forall i :: 0 <= i < |s| - |t| ==> s[i] == '0'
  {
    var p := s[..|s| - 1];
    var c := s[|s| - 1];
    assert AllDigits(p);
    var d := DigitValue(c);
    assert DigitChar(d) == c;
    var m := DigitsValue(p);
    if m == 0 {
      ZeroValueDigits(p);
      assert NatToString(DigitsValue(s)) == [c];
      forall i | 0 <= i < |s| - 1 ensures s[i] == '0' {
        assert s[i] == p[i];
      }
    } else {
      DigitsAreZerosThenRendering(p);
      var n := 10 * m + d;
      assert n / 10 == m && n % 10 == d;
      assert NatToString(n) == NatToString(m) + [c];
      var t := NatToString(n);
      assert s == p + [c];
      assert s[|s| - |t|..] == p[|p| - |NatToString(m)|..] + [c];
      forall i | 0 <= i < |s| - |t| ensures s[i] == '0' {
        assert s[i] == p[i];
      }
    }
  }

  /** The sign `int()` reads: a leading `+` or `-`, or nothing. */
  function SignOf(s: string): string {
    if s != [] && (s[0] == '+' || s[0] == '-') then s[..1] else []
  }

  /**
    Every text `int()` accepts is an optional sign, some zeros, and the
    rendering of the absolute value, with the sign agreeing with the value.
   */
  lemma ParseIntShape(s: string)
    requires ParseInt(s).Some?
    ensures var v := ParseInt(s).value;
      var t := NatToString(if v < 0 then -v else v);
      var sign := SignOf(s);
      && |sign| + |t| <= |s| && s[|s| - |t|..] == t
      && (forall i :: |sign| <= i < |s| - |t| ==> s[i] == '0')
      && (v < 0 ==> sign == "-") && (sign == "-" ==> v <= 0)
  {
    if |s| >= 2 && (s[0] == '+' || s[0] == '-') && AllDigits(s[1..]) {
      var q := s[1..];
      DigitsAreZerosThenRendering(q);
      var t := NatToString(DigitsValue(q));
      assert s[|s| - |t|..] == q[|q| - |t|..];
      forall i | 1 <= i < |s| - |t| ensures s[i] == '0' {
        assert s[i] == q[i - 1];
      }
    } else {
      DigitsAreZerosThenRendering(s);
    }
  }

  /** `z` zero digits. */
  function Zeros(z: nat): (r: string)
    ensures |r| == z && AllDigits(r)
    ensures forall i :: 0 <= i < z ==> r[i] == '0'
  {
    if z == 0 then [] else Zeros(z - 1) + ['0']
  }

  /** A run of zeros has value zero. */
  lemma {:induction false} ZerosValue(z: nat)
    ensures DigitsValue(Zeros(z)) == 0
  {
    if z > 0 {
      ZerosValue(z - 1);
      assert Zeros(z)[..z - 1] == Zeros(z - 1);
    }
  }

  /** Leading zeros do not change the value of a digit string. */
  lemma {:induction false} LeadingZerosValue(z: nat, t: string)
    requires AllDigits(t)
    ensures AllDigits(Zeros(z) + t) && DigitsValue(Zeros(z) + t) == DigitsValue(t)
  {
    var s := Zeros(z) + t;
    assert AllDigits(s) by {
      forall k | 0 <= k < |s| ensures IsDigit(s[k]) {
        if k >= z {
          assert s[k] == t[k - z];
        }
      }
    }
    if t == [] {
      assert s == Zeros(z);
      ZerosValue(z);
    } else {
      var p := t[..|t| - 1];
      LeadingZerosValue(z, p);
      assert s[..|s| - 1] == Zeros(z) + p;
    }
  }

  /** A non-empty digit string is accepted alone or behind either sign. */
  lemma ParseDigits(q: string)
    requires q != [] && AllDigits(q)
    ensures ParseInt(q) == Some(DigitsValue(q))
    ensures ParseInt("+" + q) == Some(DigitsValue(q))
    ensures ParseInt("-" + q) == Some(-(DigitsValue(q) as int))
  {
    assert IsDigit(q[0]);
    assert ("+" + q)[1..] == q;
    assert ("-" + q)[1..] == q;
  }

  /**
    Every optional sign, followed by any number of zeros and the rendering of
    n, is accepted, with the value the sign gives n.
   */
  lemma ParseZerosThenRendering(z: nat, n: nat)
    ensures ParseInt(Zeros(z) + NatToString(n)) == Some(n)
    ensures ParseInt("+" + (Zeros(z) + NatToString(n))) == Some(n)
    ensures ParseInt("-" + (Zeros(z) + NatToString(n))) == Some(-(n as int))
  {
    var q := Zeros(z) + NatToString(n);
    LeadingZerosValue(z, NatToString(n));
    DigitsOfNatToString(n);
    ParseDigits(q);
  }

  /** Examples of `int()` on positions typed with a sign or leading zeros. */
  lemma ParseIntExamples()
    ensures ParseInt("02") == Some(2) && ParseInt("007") == Some(7)
    ensures ParseInt("+2") == Some(2) && ParseInt("-1") == Some(-1)
    ensures ParseInt("") == None && ParseInt("+") == None && ParseInt("1a") == None
  {
    assert "02"[..1] == "0" && "0"[..0] == [];
    assert DigitsValue("02") == 2;
    ParseDigits("02");
    assert "007"[..2] == "00" && "00"[..1] == "0";
    assert DigitsValue("007") == 7;
    ParseDigits("007");
    assert "2"[..0] == [] && "1"[..0] == [];
    ParseDigits("2");
    assert "+" + "2" == "+2";
    ParseDigits("1");
    assert "-" + "1" == "-1";
    assert !IsDigit('a') && "1a"[1] == 'a';
  }

  /** A rendered number behind either sign parses to the signed number. */
  lemma ParseSignedNatToString(n: nat)
    ensures ParseInt("-" + NatToString(n)) == Some(-(n as int))
    ensures ParseInt("+" + NatToString(n)) == Some(n)
  {
    DigitsOfNatToString(n);
    assert ("-" + NatToString(n))[1..] == NatToString(n);
    assert ("+" + NatToString(n))[1..] == NatToString(n);
  }
}
