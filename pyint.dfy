/** Python's `int(s)` for a string in base 10, and the decimal formatting `f"{n:02d}"`
    that the cue sheet uses for track numbers. */
module PyInt {
  import opened Wrappers
  import opened Text

  predicate IsDigit(c: char) {
    '0' <= c <= '9'
  }

  function DigitValue(c: char): nat
    requires IsDigit(c)
  {
    c as int - '0' as int
  }

  function DigitChar(d: nat): (c: char)
    requires d < 10
    ensures IsDigit(c) && DigitValue(c) == d
  {
    ('0' as int + d) as char
  }

  /** Every character is a digit or an underscore. */
  predicate DigitsOrUnderscores(s: string) {
    forall i :: 0 <= i < |s| ==> IsDigit(s[i]) || s[i] == '_'
  }

  /** What `int()` accepts after the sign: digits, with single underscores only
      between two digits. */
  predicate DigitGroups(s: string) {
    && s != []
    && DigitsOrUnderscores(s)
    && IsDigit(s[0]) && IsDigit(s[|s| - 1])
    && (forall i :: 0 <= i < |s| - 1 ==> !(s[i] == '_' && s[i + 1] == '_'))
  }

  /** The number the digits of `s` spell, underscores ignored. */
  function DigitsValue(s: string): nat
    requires DigitsOrUnderscores(s)
  {
    if s == [] then 0
    else
      var c := s[|s| - 1];
      var init := DigitsValue(s[..|s| - 1]);
      if c == '_' then init else init * 10 + DigitValue(c)
  }

  /** The whitespace `int()` strips. The ASCII characters it strips are only tab,
      line feed, vertical tab, form feed, carriage return and space (not U+001C..U+001F,
      which `str.isspace()` also accepts); a non-ASCII character is stripped when
      `str.isspace()` accepts it, since `int()` first turns each such character into a
      space. */
  predicate IntSpace(c: char) {
    ('\t' <= c <= '\r') || c == ' ' || (c > '\U{7F}' && IsSpace(c))
  }

  /** Every character `int()` strips is whitespace to `str.isspace()`, and the four
      information separators U+001C..U+001F are the whitespace it does not strip. */
  lemma IntSpaceIsSpace(c: char)
    ensures IntSpace(c) ==> IsSpace(c)
    ensures IsSpace(c) && !IntSpace(c) <==> '\U{1C}' <= c <= '\U{1F}'
  {
  }

  /** The text `int()` reads its number from: `s` stripped of `IntSpace` characters. */
  function IntStrip(s: string): string {
    StripBy(s, IntSpace)
  }

  /** `int(s)`, with None where Python raises ValueError: surrounding whitespace is
      dropped, one optional sign may follow, and the rest must be digit groups. */
  function ParseInt(s: string): (r: Option<int>)
    ensures r.Some? ==>
      var t := IntStrip(s);
      && t != []
      && IsDigit(t[|t| - 1])
      && (forall i :: 0 < i < |t| ==> IsDigit(t[i]) || t[i] == '_')
  {
    ParseStripped(IntStrip(s))
  }

  /** The number that stripped text `t` spells, if it is one: an optional sign, then
      digit groups. */
  function ParseStripped(t: string): (r: Option<int>)
    ensures r.Some? ==>
      && t != []
      && IsDigit(t[|t| - 1])
      && (forall i :: 0 < i < |t| ==> IsDigit(t[i]) || t[i] == '_')
  {
    if t == [] then None
    else
      var body := if t[0] == '-' || t[0] == '+' then t[1..] else t;
      if !DigitGroups(body) then None
      else if t[0] == '-' then Some(-(DigitsValue(body) as int))
      else Some(DigitsValue(body))
  }

  /** `int()` reads only the stripped text. */
  lemma ParseIntOfStripped(s: string, t: string)
    requires IntStrip(s) == IntStrip(t)
    ensures ParseInt(s) == ParseInt(t)
  {
  }

  /** An information separator before the digits is not stripped, so `int("\x1c01")`
      raises. */
  lemma SeparatorBeforeDigits()
    ensures ParseInt(['\U{1C}', '0', '1']) == None
  {
    var s := ['\U{1C}', '0', '1'];
    assert !IntSpace(s[0]) && !IntSpace(s[2]);
    assert IntStrip(s) == s;
    assert !IsDigit(s[0]);
  }

  /** `str(n)` for a natural number: its decimal digits without leading zeros. */
  function NatDigits(n: nat): (r: string)
    ensures r != [] && forall i :: 0 <= i < |r| ==> IsDigit(r[i])
    ensures n < 10 <==> |r| == 1
  {
    if n < 10 then [DigitChar(n)] else NatDigits(n / 10) + [DigitChar(n % 10)]
  }

  /** `f"{n:02d}"`: at least two digits, zero-padded on the left. */
  function Pad2(n: nat): (r: string)
    ensures |r| >= 2 && forall i :: 0 <= i < |r| ==> IsDigit(r[i])
  {
    if n < 10 then ['0'] + NatDigits(n) else NatDigits(n)
  }

  /** The digits `str(n)` writes spell `n`. */
  lemma {:induction false} NatDigitsValue(n: nat)
    ensures DigitsValue(NatDigits(n)) == n
  {
    if n >= 10 {
      NatDigitsValue(n / 10);
      var r := NatDigits(n);
      assert r[..|r| - 1] == NatDigits(n / 10);
    }
  }

  /** `int()` reads back every number `str(n)` writes. */
  lemma ParseNatDigits(n: nat)
    ensures ParseInt(NatDigits(n)) == Some(n)
  {
    var r := NatDigits(n);
    DigitsKept(r);
    ParseStrippedDigits(r);
    NatDigitsValue(n);
  }

  /** Digits are not whitespace: stripping keeps a string of digits whole. */
  lemma DigitsKept(t: string)
    requires t != [] && forall i :: 0 <= i < |t| ==> IsDigit(t[i])
    ensures IntStrip(t) == t
  {
    assert !IntSpace(t[0]) && !IntSpace(t[|t| - 1]);
  }

  /** Stripped text of digits alone spells the number its digits spell. */
  lemma ParseStrippedDigits(t: string)
    requires t != [] && forall i :: 0 <= i < |t| ==> IsDigit(t[i])
    ensures ParseStripped(t) == Some(DigitsValue(t))
  {
    assert DigitGroups(t);
  }

  /** A zero and one digit spell that digit. */
  lemma PaddedDigitValue(n: nat)
    requires n < 10
    ensures DigitsValue(['0', DigitChar(n)]) == n
  {
    var r := ['0', DigitChar(n)];
    assert r[..1] == ['0'] && ['0'][..0] == [];
    assert DigitsValue(['0']) == 0;
  }

  /** `int()` reads back every track number the cue sheet writes, leading zero included. */
  lemma ParsePad2(n: nat)
    ensures ParseInt(Pad2(n)) == Some(n)
  {
    if n < 10 {
      var r := Pad2(n);
      assert r == ['0', DigitChar(n)];
      DigitsKept(r);
      ParseStrippedDigits(r);
      PaddedDigitValue(n);
    } else {
      ParseNatDigits(n);
    }
  }

  /** `int()` reads back a track number written `:02d` whatever whitespace it strips
      surrounds it: `int(" 01\t")` is 1. */
  lemma ParsePaddedAmidSpace(n: nat, pre: string, post: string)
    requires forall i :: 0 <= i < |pre| ==> IntSpace(pre[i])
    requires forall i :: 0 <= i < |post| ==> IntSpace(post[i])
    ensures ParseInt(pre + Pad2(n) + post) == Some(n)
  {
    var d := Pad2(n);
    assert !IntSpace(d[0]) && !IntSpace(d[|d| - 1]);
    StripBySurrounded(pre, d, post, IntSpace);
    DigitsKept(d);
    ParseIntOfStripped(pre + d + post, d);
    ParsePad2(n);
  }
}
