/** The Python string operations the table parser relies on: `str.strip()`,
    `str.split(sep)[0]` and `str.replace(c, '')`, over strings as sequences
    of characters. */
module PyStr {
  import opened Wrappers

  /** Python's `str.isspace()` for a single character: the ASCII separators
      and every Unicode character Python treats as whitespace. */
  predicate IsSpace(c: char) {
    || ('\t' <= c <= '\r')
    || ('\U{1C}' <= c <= ' ')
    || c == '\U{85}' || c == '\U{A0}' || c == '\U{1680}'
    || ('\U{2000}' <= c <= '\U{200A}')
    || c == '\U{2028}' || c == '\U{2029}' || c == '\U{202F}'
    || c == '\U{205F}' || c == '\U{3000}'
  }

  /** The two whitespace sets Python strips by: `str.isspace()`, which
      `str.strip()` uses, and the set `int()` skips around its literal. */
  datatype Blanks = StrBlanks | IntBlanks

  /** `int()` skips the ASCII blanks (tab, line feed, vertical tab, form
      feed, carriage return, space) and every non-ASCII character
      `str.isspace()` accepts; the ASCII separators U+001C to U+001F are
      whitespace to `str.strip()` but not to `int()`. */
  predicate IsBlank(blanks: Blanks, c: char) {
    IsSpace(c) && (blanks == IntBlanks ==> !('\U{1C}' <= c <= '\U{1F}'))
  }

  /** A string that starts and ends with a character outside `blanks`. */
  predicate IsStrippedBy(s: string, blanks: Blanks) {
    s == [] || (!IsBlank(blanks, s[0]) && !IsBlank(blanks, s[|s| - 1]))
  }

  /** A string with no whitespace at either end. */
  predicate IsStripped(s: string) {
    IsStrippedBy(s, StrBlanks)
  }

  /** Drops the leading `blanks` characters, and nothing else. */
  function TrimStartBy(s: string, blanks: Blanks): (r: string)
    ensures |r| <= |s| && r == s[|s| - |r|..]
    ensures forall k :: 0 <= k < |s| - |r| ==> IsBlank(blanks, s[k])
    ensures r == [] || !IsBlank(blanks, r[0])
  {
    if |s| > 0 && IsBlank(blanks, s[0]) then TrimStartBy(s[1..], blanks) else s
  }

  /** Drops the trailing `blanks` characters, and nothing else. */
  function TrimEndBy(s: string, blanks: Blanks): (r: string)
    ensures |r| <= |s| && r == s[..|r|]
    ensures forall k :: |r| <= k < |s| ==> IsBlank(blanks, s[k])
    ensures r == [] || !IsBlank(blanks, r[|r| - 1])
  {
    if |s| > 0 && IsBlank(blanks, s[|s| - 1]) then TrimEndBy(s[..|s| - 1], blanks) else s
  }

  /** The slice of `s` left once the `blanks` characters are gone
      from both ends: it starts where the leading run of them ends. */
  function StripBy(s: string, blanks: Blanks): (r: string)
    ensures OccursAt(s, r, |s| - |TrimStartBy(s, blanks)|)
  {
    var t := TrimStartBy(s, blanks);
    var r := TrimEndBy(t, blanks);
    assert s[|s| - |t|..][..|r|] == r;
    r
  }

  /** What stripping leaves starts and ends with a character outside
      `blanks`. */
  lemma StripByStripped(s: string, blanks: Blanks)
    ensures IsStrippedBy(StripBy(s, blanks), blanks)
  {
    var t := TrimStartBy(s, blanks);
    var r := TrimEndBy(t, blanks);
    if r != [] {
      assert r[0] == t[0];
    }
  }

  /** A string that already starts and ends with a character outside
      `blanks` is left as it is. */
  lemma StripByKeepsStripped(s: string, blanks: Blanks)
    requires IsStrippedBy(s, blanks)
    ensures StripBy(s, blanks) == s
  {
    assert TrimStartBy(s, blanks) == s;
    assert TrimEndBy(s, blanks) == s;
  }

  /** Stripping cuts only `blanks` characters before what it keeps. */
  lemma StripByCutsLeading(s: string, blanks: Blanks)
    ensures forall k :: 0 <= k < |s| - |TrimStartBy(s, blanks)| ==> IsBlank(blanks, s[k])
  {
  }

  /** Stripping cuts only `blanks` characters after what it keeps. */
  lemma StripByCutsTrailing(s: string, blanks: Blanks)
    ensures forall k :: |s| - |TrimStartBy(s, blanks)| + |StripBy(s, blanks)| <= k < |s| ==>
              IsBlank(blanks, s[k])
  {
    var t := TrimStartBy(s, blanks);
    var r := TrimEndBy(t, blanks);
    var i := |s| - |t|;
    assert StripBy(s, blanks) == r;
    assert t == s[i..];
    forall k | i + |r| <= k < |s| ensures IsBlank(blanks, s[k]) {
      assert IsBlank(blanks, t[k - i]);
    }
  }

  /** `s.strip()`: `s` without the whitespace at either end. */
  function Strip(s: string): string {
    StripBy(s, StrBlanks)
  }

  /** Stripping twice is stripping once. */
  lemma StripByIdempotent(s: string, blanks: Blanks)
    ensures StripBy(StripBy(s, blanks), blanks) == StripBy(s, blanks)
  {
    StripByStripped(s, blanks);
    StripByKeepsStripped(StripBy(s, blanks), blanks);
  }

  /** Padding made of `blanks` characters, around a text that starts
      and ends with other characters, is exactly what stripping removes. */
  lemma StripByPadding(pre: string, t: string, post: string, blanks: Blanks)
    requires t != [] && IsStrippedBy(t, blanks)
    requires forall k :: 0 <= k < |pre| ==> IsBlank(blanks, pre[k])
    requires forall k :: 0 <= k < |post| ==> IsBlank(blanks, post[k])
    ensures StripBy(pre + t + post, blanks) == t
  {
    assert pre + t + post == pre + (t + post);
    TrimStartPadding(pre, t + post, blanks);
    TrimEndPadding(t, post, blanks);
  }

  lemma {:induction false} TrimStartPadding(pre: string, t: string, blanks: Blanks)
    requires t != [] && !IsBlank(blanks, t[0])
    requires forall k :: 0 <= k < |pre| ==> IsBlank(blanks, pre[k])
    ensures TrimStartBy(pre + t, blanks) == t
  {
    if pre != [] {
      assert (pre + t)[1..] == pre[1..] + t;
      TrimStartPadding(pre[1..], t, blanks);
    } else {
      assert pre + t == t;
    }
  }

  lemma {:induction false} TrimEndPadding(t: string, post: string, blanks: Blanks)
    requires t != [] && !IsBlank(blanks, t[|t| - 1])
    requires forall k :: 0 <= k < |post| ==> IsBlank(blanks, post[k])
    ensures TrimEndBy(t + post, blanks) == t
  {
    if post != [] {
      var n := |post| - 1;
      assert (t + post)[..|t + post| - 1] == t + post[..n];
      TrimEndPadding(t, post[..n], blanks);
    } else {
      assert t + post == t;
    }
  }

  /** `p` occurs in `s` starting at index `i`. */
  predicate OccursAt(s: string, p: string, i: nat) {
    i + |p| <= |s| && s[i..i + |p|] == p
  }

  /** Python's `p in s`. */
  predicate Contains(s: string, p: string) {
    exists i: nat :: i <= |s| && OccursAt(s, p, i)
  }

  /** The first index at or after `from` where `p` occurs in `s`
      (Python's `s.find(p, from)`, with None for -1). */
  function FindFrom(s: string, p: string, from: nat): (r: Option<nat>)
    requires from <= |s|
    ensures r.Some? ==> from <= r.value && OccursAt(s, p, r.value)
    ensures r.Some? ==> forall k: nat :: from <= k < r.value ==> !OccursAt(s, p, k)
    ensures r.None? ==> forall k: nat :: from <= k ==> !OccursAt(s, p, k)
    decreases |s| - from
  {
    if OccursAt(s, p, from) then Some(from)
    else if from == |s| then None
    else FindFrom(s, p, from + 1)
  }

  /** An occurrence inside a slice of `s` is an occurrence in `s`. */
  lemma OccursInSlice(s: string, p: string, i: nat, j: nat, k: nat)
    requires i <= j <= |s| && OccursAt(s[i..j], p, k)
    ensures OccursAt(s, p, i + k)
  {
    forall m | 0 <= m < |p| ensures s[i + k + m] == p[m] {
      assert p[m] == s[i..j][k..k + |p|][m] == s[i..j][k + m];
    }
    assert s[i + k..i + k + |p|] == p;
  }

  /** A slice of a string that does not contain `p` does not contain it either. */
  lemma NotInSlice(s: string, p: string, i: nat, j: nat)
    requires i <= j <= |s| && !Contains(s, p)
    ensures !Contains(s[i..j], p)
  {
    forall k: nat | k <= j - i && OccursAt(s[i..j], p, k) ensures false {
      OccursInSlice(s, p, i, j, k);
    }
  }

  /** Stripping a string that does not contain `p` cannot produce `p`. */
  lemma StripKeepsAbsence(s: string, p: string, blanks: Blanks)
    requires !Contains(s, p)
    ensures !Contains(StripBy(s, blanks), p)
  {
    var i := |s| - |TrimStartBy(s, blanks)|;
    NotInSlice(s, p, i, i + |StripBy(s, blanks)|);
  }

  /** `s.split(sep)[0]`: the part of `s` before the first occurrence of
      `sep`, or all of `s` when `sep` does not occur. */
  function SplitHead(s: string, sep: string): (r: string)
    requires sep != []
    ensures |r| <= |s| && r == s[..|r|]
    ensures forall k: nat :: k < |r| ==> !OccursAt(s, sep, k)
    ensures !Contains(r, sep)
    ensures Contains(s, sep) ==> OccursAt(s, sep, |r|)
    ensures !Contains(s, sep) ==> r == s
  {
    match FindFrom(s, sep, 0)
    case None => s
    case Some(i) =>
      var r := s[..i];
      assert !Contains(r, sep) by {
        forall k: nat | OccursAt(r, sep, k) ensures false {
          OccursInSlice(s, sep, 0, i, k);
        }
      }
      r
  }

  /** `s.replace(c, '')`: `s` with every `c` deleted and the other
      characters kept in order (see RemoveCharMembers, RemoveCharAbsent
      and RemoveCharAppend). */
  function RemoveChar(s: string, c: char): (r: string)
    ensures |r| <= |s|
  {
    if s == [] then []
    else
      (if s[0] == c then [] else [s[0]]) + RemoveChar(s[1..], c)
  }

  /** Deleting `c` keeps every other character that occurs and brings in
      no new one. */
  lemma {:induction false} RemoveCharMembers(s: string, c: char)
    ensures forall x :: x in RemoveChar(s, c) <==> x in s && x != c
  {
    if s != [] {
      RemoveCharMembers(s[1..], c);
      assert s == [s[0]] + s[1..];
    }
  }

  /** A string without `c` is left as it is. */
  lemma {:induction false} RemoveCharAbsent(s: string, c: char)
    requires c !in s
    ensures RemoveChar(s, c) == s
  {
    if s != [] {
      assert s == [s[0]] + s[1..];
      RemoveCharAbsent(s[1..], c);
    }
  }

  /** Deleting a character commutes with concatenation. */
  lemma {:induction false} RemoveCharAppend(a: string, b: string, c: char)
    ensures RemoveChar(a + b, c) == RemoveChar(a, c) + RemoveChar(b, c)
  {
    if a == [] {
      assert a + b == b;
    } else {
      assert (a + b)[0] == a[0];
      assert (a + b)[1..] == a[1..] + b;
      RemoveCharAppend(a[1..], b, c);
    }
  }

}
