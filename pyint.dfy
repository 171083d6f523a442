/** Python's `int(text)` in base 10: optional surrounding whitespace, an
    optional sign, and decimal digits in which a single `_` may separate
    two digits; any other text raises `ValueError`, modelled as None. */
module PyInt {
  import opened Wrappers
  import opened PyStr

  predicate IsDigit(c: char) {
    '0' <= c <= '9'
  }

  predicate AllDigits(s: string) {
    forall k :: 0 <= k < |s| ==> IsDigit(s[k])
  }

  /** A character allowed inside the digits of an integer literal. */
  predicate IsLiteralChar(c: char) {
    IsDigit(c) || c == '_'
  }

  function DigitValue(c: char): (v: nat)
    requires IsDigit(c)
    ensures v < 10
  {
    c as int - '0' as int
  }

  function DigitChar(v: nat): (c: char)
    requires v < 10
    ensures IsDigit(c) && DigitValue(c) == v
  {
    ('0' as int + v) as char
  }

  /** The body of a base-10 literal: digits and underscores, a digit first
      and last, and never two underscores side by side. */
  predicate IsDigitRun(b: string) {
    && |b| > 0 && IsDigit(b[0]) && IsDigit(b[|b| - 1])
    && (forall k :: 0 <= k < |b| ==> IsLiteralChar(b[k]))
    && (forall k :: 0 < k < |b| ==> b[k - 1] != '_' || b[k] != '_')
  }

  /** The number the digits of `b` denote, read most significant first;
      underscores are separators and add nothing. */
  function LiteralValue(b: string): nat
    requires forall k :: 0 <= k < |b| ==> IsLiteralChar(b[k])
  {
    if b == [] then 0
    else if b[|b| - 1] == '_' then LiteralValue(b[..|b| - 1])
    else
      assert IsLiteralChar(b[|b| - 1]);
      10 * LiteralValue(b[..|b| - 1]) + DigitValue(b[|b| - 1])
  }

  /** The text `int()` reads once the whitespace it skips is gone. */
  function IntStrip(s: string): string {
    StripBy(s, IntBlanks)
  }

  /** What `int()` accepts once whitespace is gone: an optional sign, then
      a run of digits with single underscores between them. */
  predicate IsIntLiteral(t: string) {
    |t| > 0 && IsDigitRun(if t[0] == '+' || t[0] == '-' then t[1..] else t)
  }

  /** `int(s)`: None where Python raises ValueError. It accepts exactly the
      texts that hold a literal between whitespace, and only a leading minus
      sign makes the result negative. */
  function ParseInt(s: string): (r: Option<int>)
    ensures r.Some? <==> IsIntLiteral(IntStrip(s))
    ensures r.Some? && r.value < 0 ==> |IntStrip(s)| > 0 && IntStrip(s)[0] == '-'
    ensures r.Some? ==> exists k :: 0 <= k < |s| && IsDigit(s[k])
  {
    var t := IntStrip(s);
    var r := ParseLiteral(t);
    if r.Some? then
      var j := if t[0] == '+' || t[0] == '-' then 1 else 0;
      assert IsDigit(t[j]);
      assert s[|s| - |TrimStartBy(s, IntBlanks)| + j] == t[j];
      r
    else r
  }

  /** The value of a literal once whitespace is gone, or None when it is
      not one. */
  function ParseLiteral(t: string): Option<int> {
    if |t| > 0 && (t[0] == '+' || t[0] == '-') then
      var body := t[1..];
      if IsDigitRun(body) then
        assert IsDigit(t[1]);
        var v: int := LiteralValue(body);
        Some(if t[0] == '-' then -v else v)
      else None
    else if IsDigitRun(t) then
      assert IsDigit(t[0]);
      Some(LiteralValue(t))
    else None
  }

  /** `int()` reads only the text between the whitespace it skips. */
  lemma ParseIntStrip(s: string)
    ensures ParseInt(s) == ParseInt(IntStrip(s))
  {
    StripByIdempotent(s, IntBlanks);
  }


  /** Underscores between digits add nothing to a literal's value. */
  lemma {:induction false} LiteralSkipsUnderscores(b: string)
    requires forall k :: 0 <= k < |b| ==> IsLiteralChar(b[k])
    ensures AllDigits(RemoveChar(b, '_'))
    ensures LiteralValue(RemoveChar(b, '_')) == LiteralValue(b)
  {
    if b != [] {
      var n := |b| - 1;
      var front, c := b[..n], b[n];
      assert b == front + [c];
      LiteralSkipsUnderscores(front);
      RemoveCharAppend(front, [c], '_');
      var x := RemoveChar(front, '_');
      if c == '_' {
        assert RemoveChar([c], '_') == [];
        assert RemoveChar(b, '_') == x;
      } else {
        assert RemoveChar([c], '_') == [c];
        assert RemoveChar(b, '_') == x + [c];
        assert (x + [c])[..|x|] == x;
      }
    }
  }

  /** The shortest decimal spelling of `n`: no sign, no leading zero. */
  function Decimal(n: nat): (d: string)
    ensures d != [] && AllDigits(d)
    ensures d[0] != '0' || n == 0
    ensures LiteralValue(d) == n
  {
    if n < 10 then [DigitChar(n)]
    else
      var d := Decimal(n / 10) + [DigitChar(n % 10)];
      assert d[..|d| - 1] == Decimal(n / 10);
      d
  }

  /** `str(n)` for any integer. */
  function Format(n: int): string {
    if n < 0 then "-" + Decimal(-n) else Decimal(n)
  }

  /** A non-empty string of digits parses to the number its digits denote,
      leading zeros included. */
  lemma ParseDigits(d: string)
    requires d != [] && AllDigits(d)
    ensures ParseInt(d) == Some(LiteralValue(d))
  {
    assert IsStrippedBy(d, IntBlanks);
    assert IsDigitRun(d);
  }

  /** `int(str(n)) == n`: every integer survives printing and parsing. */
  lemma ParseFormat(n: int)
    ensures ParseInt(Format(n)) == Some(n)
  {
    if n < 0 {
      var d := Decimal(-n);
      var s := "-" + d;
      assert IsStrippedBy(s, IntBlanks);
      assert s[1..] == d;
      assert IsDigitRun(d);
    } else {
      ParseDigits(Decimal(n));
    }
  }

  /** Whitespace around a printed integer is skipped: `int(" " + str(n) + "\n") == n`. */
  lemma ParsePadded(pre: string, n: int, post: string)
    requires forall k :: 0 <= k < |pre| ==> IsBlank(IntBlanks, pre[k])
    requires forall k :: 0 <= k < |post| ==> IsBlank(IntBlanks, post[k])
    ensures ParseInt(pre + Format(n) + post) == Some(n)
  {
    var f := Format(n);
    assert f[0] == '-' || IsDigit(f[0]);
    assert IsDigit(f[|f| - 1]);
    StripByPadding(pre, f, post, IntBlanks);
    ParseIntStrip(pre + f + post);
    ParseFormat(n);
  }
}
