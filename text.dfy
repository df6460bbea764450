/** The handful of Python `str` operations the script relies on, on `seq<char>`:
    `isspace`, `strip`, `find`, `in`, `split(sep)`, `sep.join`, `lower`, `endswith`
    and deleting every occurrence of one character. */
module Text {
  import opened Wrappers

  /** Python's `str.isspace()` for one character: the ASCII controls 9..13 and 28..31,
      the space, and the Unicode space separators Python treats as whitespace. */
  predicate IsSpace(c: char) {
    || ('\t' <= c <= '\r')
    || ('\U{1C}' <= c <= ' ')
    || c == '\U{85}' || c == '\U{A0}' || c == '\U{1680}'
    || ('\U{2000}' <= c <= '\U{200A}')
    || c == '\U{2028}' || c == '\U{2029}' || c == '\U{202F}' || c == '\U{205F}' || c == '\U{3000}'
  }

  /** No whitespace at either end: what `strip()` leaves. */
  predicate Trimmed(s: string) {
    s == [] || (!IsSpace(s[0]) && !IsSpace(s[|s| - 1]))
  }

  /** Drops the longest prefix of characters `space` accepts (`s.lstrip()` for
      `IsSpace`). */
  function StripStart(s: string, space: char -> bool): (r: string)
    ensures |r| <= |s| && r == s[|s| - |r|..]
    ensures r == [] || !space(r[0])
    ensures forall i :: 0 <= i < |s| - |r| ==> space(s[i])
  {
    if s != [] && space(s[0]) then StripStart(s[1..], space) else s
  }

  /** Drops the longest suffix of characters `space` accepts (`s.rstrip()` for
      `IsSpace`). */
  function StripEnd(s: string, space: char -> bool): (r: string)
    ensures |r| <= |s| && r == s[..|r|]
    ensures r == [] || !space(r[|r| - 1])
    ensures forall i :: |r| <= i < |s| ==> space(s[i])
  {
    if s != [] && space(s[|s| - 1]) then StripEnd(s[..|s| - 1], space) else s
  }

  /** `r` is the slice of `s` from index `k` with only characters `space` accepts
      around it. */
  predicate SliceAmid(s: string, r: string, k: int, space: char -> bool) {
    && 0 <= k <= |s| - |r|
    && r == s[k..k + |r|]
    && (forall i :: 0 <= i < k ==> space(s[i]))
    && (forall i :: k + |r| <= i < |s| ==> space(s[i]))
  }

  /** Strips the characters `space` accepts from both ends: none is left at either
      end, and a string with none at either end is kept. */
  function StripBy(s: string, space: char -> bool): (r: string)
    ensures r == [] || (!space(r[0]) && !space(r[|r| - 1]))
    ensures s == [] || (!space(s[0]) && !space(s[|s| - 1])) ==> r == s
  {
    StripEnd(StripStart(s, space), space)
  }

  /** What stripping leaves is a slice of the string with only stripped characters
      around it. */
  lemma StripBySlice(s: string, space: char -> bool)
    ensures exists k :: SliceAmid(s, StripBy(s, space), k, space)
  {
    var u := StripStart(s, space);
    assert SliceAmid(s, StripBy(s, space), |s| - |u|, space);
  }

  /** Stripping text whose ends are kept and whose surroundings are all stripped
      leaves exactly that text. */
  lemma StripBySurrounded(pre: string, mid: string, post: string, space: char -> bool)
    requires mid != [] && !space(mid[0]) && !space(mid[|mid| - 1])
    requires forall i :: 0 <= i < |pre| ==> space(pre[i])
    requires forall i :: 0 <= i < |post| ==> space(post[i])
    ensures StripBy(pre + mid + post, space) == mid
  {
    assert pre + mid + post == pre + (mid + post);
    StripStartAfter(pre, mid + post, space);
    StripEndBefore(mid, post, space);
  }

  /** A prefix of stripped characters before a kept one is all `StripStart` drops. */
  lemma {:induction false} StripStartAfter(pre: string, rest: string, space: char -> bool)
    requires rest != [] && !space(rest[0])
    requires forall i :: 0 <= i < |pre| ==> space(pre[i])
    ensures StripStart(pre + rest, space) == rest
  {
    if pre == [] {
      assert pre + rest == rest;
    } else {
      assert (pre + rest)[1..] == pre[1..] + rest;
      StripStartAfter(pre[1..], rest, space);
    }
  }

  /** A suffix of stripped characters after a kept one is all `StripEnd` drops. */
  lemma {:induction false} StripEndBefore(body: string, post: string, space: char -> bool)
    requires body != [] && !space(body[|body| - 1])
    requires forall i :: 0 <= i < |post| ==> space(post[i])
    ensures StripEnd(body + post, space) == body
  {
    if post == [] {
      assert body + post == body;
    } else {
      var init := post[..|post| - 1];
      assert (body + post)[..|body + post| - 1] == body + init;
      StripEndBefore(body, init, space);
    }
  }

  /** `s.strip()`: the slice of `s` with whitespace only around it and none at its
      ends. */
  function Strip(s: string): (r: string)
    ensures Trimmed(r)
    ensures exists k :: SliceAmid(s, r, k, IsSpace)
    ensures forall c :: c in r ==> c in s
    ensures Trimmed(s) ==> r == s
  {
    StripBySlice(s, IsSpace);
    StripBy(s, IsSpace)
  }

  /** `sub` occurs in `s` starting at index `i`. */
  predicate OccursAt(s: string, sub: string, i: int) {
    0 <= i && i + |sub| <= |s| && s[i..i + |sub|] == sub
  }

  /** `s.find(sub, k)`, with None for -1. */
  function FindFrom(s: string, sub: string, k: nat): (r: Option<nat>)
    ensures r.Some? ==> k <= r.value && OccursAt(s, sub, r.value)
    ensures r.Some? ==> forall j :: k <= j < r.value ==> !OccursAt(s, sub, j)
    ensures r.None? ==> forall j :: k <= j ==> !OccursAt(s, sub, j)
    decreases |s| - k
  {
    if k + |sub| > |s| then None
    else if s[k..k + |sub|] == sub then Some(k)
    else FindFrom(s, sub, k + 1)
  }

  /** `s.find(sub)`: the first occurrence. */
  function Find(s: string, sub: string): Option<nat> {
    FindFrom(s, sub, 0)
  }

  /** Python's `sub in s`; the empty string is in every string. */
  predicate Contains(s: string, sub: string) {
    Find(s, sub).Some?
  }

  /** `sub in s` holds exactly when `sub` occurs somewhere in `s`. */
  lemma ContainsIff(s: string, sub: string)
    ensures Contains(s, sub) <==> exists i :: OccursAt(s, sub, i)
  {
  }

  /** `s.split(sep)` for a non-empty separator: cut at each occurrence, scanning from the left. */
  function Split(s: string, sep: string): (parts: seq<string>)
    requires sep != []
    ensures |parts| >= 1
    decreases |s|
  {
    match Find(s, sep)
    case None => [s]
    case Some(i) => [s[..i]] + Split(s[i + |sep|..], sep)
  }

  /** `sep.join(parts)`. */
  function Join(parts: seq<string>, sep: string): string {
    if |parts| == 0 then []
    else if |parts| == 1 then parts[0]
    else parts[0] + sep + Join(parts[1..], sep)
  }

  /** Joining two or more pieces puts the separator after the first one. */
  lemma JoinCons(parts: seq<string>, sep: string)
    requires |parts| >= 2
    ensures Join(parts, sep) == parts[0] + sep + Join(parts[1..], sep)
  {
  }

  /** Joining the pieces of a split with the same separator gives the string back. */
  lemma {:induction false} JoinSplit(s: string, sep: string)
    requires sep != []
    ensures Join(Split(s, sep), sep) == s
    decreases |s|
  {
    match Find(s, sep)
    case None =>
    case Some(i) =>
      var rest := s[i + |sep|..];
      var tail := Split(rest, sep);
      JoinSplit(rest, sep);
      assert Split(s, sep) == [s[..i]] + tail;
      assert ([s[..i]] + tail)[1..] == tail;
      assert Join([s[..i]] + tail, sep) == s[..i] + sep + Join(tail, sep);
      assert s == s[..i] + sep + rest;
  }

  /** No piece of a split contains the separator. */
  lemma {:induction false} SplitPartsFree(s: string, sep: string)
    requires sep != []
    ensures forall k :: 0 <= k < |Split(s, sep)| ==> !Contains(Split(s, sep)[k], sep)
    decreases |s|
  {
    match Find(s, sep)
    case None =>
    case Some(i) =>
      var rest := s[i + |sep|..];
      SplitPartsFree(rest, sep);
      forall j | OccursAt(s[..i], sep, j) ensures false {
        assert OccursAt(s, sep, j);
      }
  }

  /** A split yields more than one piece exactly when the separator occurs; then the
      first piece is the text before its first occurrence and the rest split what follows. */
  lemma SplitFirst(s: string, sep: string)
    requires sep != []
    ensures |Split(s, sep)| >= 2 <==> Contains(s, sep)
    ensures Contains(s, sep) ==>
      var i := Find(s, sep).value;
      Split(s, sep)[0] == s[..i] && Split(s, sep)[1..] == Split(s[i + |sep|..], sep)
  {
  }

  /** With three or more pieces, the first two pieces and the join of the rest, put
      together with the separator, give the string back. */
  lemma JoinSplitThree(s: string, sep: string)
    requires sep != [] && |Split(s, sep)| >= 3
    ensures var parts := Split(s, sep);
      parts[0] + sep + parts[1] + sep + Join(parts[2..], sep) == s
  {
    var parts := Split(s, sep);
    JoinSplit(s, sep);
    JoinCons(parts, sep);
    JoinCons(parts[1..], sep);
    assert parts[1..][1..] == parts[2..];
  }

  /** `s.replace(pattern, replacement, 1)`: the first occurrence replaced. */
  function ReplaceFirst(s: string, pattern: string, replacement: string): string {
    match Find(s, pattern)
    case None => s
    case Some(i) => s[..i] + replacement + s[i + |pattern|..]
  }

  /** Replacing the first separator puts the replacement between the first piece of the
      split and the join of the other pieces. */
  lemma ReplaceFirstSplit(s: string, sep: string, replacement: string)
    requires sep != [] && |Split(s, sep)| >= 2
    ensures var parts := Split(s, sep);
      ReplaceFirst(s, sep, replacement) == parts[0] + replacement + Join(parts[1..], sep)
  {
    var parts := Split(s, sep);
    SplitFirst(s, sep);
    var i := Find(s, sep).value;
    var rest := s[i + |sep|..];
    assert parts[0] == s[..i] && parts[1..] == Split(rest, sep);
    calc {
      parts[0] + replacement + Join(parts[1..], sep);
      s[..i] + replacement + Join(Split(rest, sep), sep);
      { JoinSplit(rest, sep); }
      s[..i] + replacement + rest;
    }
  }

  /** `s.endswith(suffix)`. */
  predicate EndsWith(s: string, suffix: string) {
    |suffix| <= |s| && s[|s| - |suffix|..] == suffix
  }

  /** Python's lower-case mapping of one character, exact wherever the result holds an
      ASCII character: A..Z, U+0130 (to "i" and a combining dot) and the Kelvin sign
      U+212A (to "k"). Other characters are kept; their real lower-case forms hold no
      ASCII character, and only ASCII characters are ever inspected after lowering. */
  function LowerChar(c: char): string {
    if 'A' <= c <= 'Z' then [(c as int + 32) as char]
    else if c == '\U{130}' then ['i', '\U{307}']
    else if c == '\U{212A}' then ['k']
    else [c]
  }

  /** `s.lower()`. */
  function Lower(s: string): (r: string)
    ensures forall i :: 0 <= i < |r| ==> !('A' <= r[i] <= 'Z')
  {
    if s == [] then [] else LowerChar(s[0]) + Lower(s[1..])
  }

  /** A string with no character that lowering changes is its own lower case. */
  lemma {:induction false} LowerUnchanged(s: string)
    requires forall i :: 0 <= i < |s| ==> !('A' <= s[i] <= 'Z') && s[i] != '\U{130}' && s[i] != '\U{212A}'
    ensures Lower(s) == s
  {
    if s != [] {
      LowerUnchanged(s[1..]);
    }
  }

  /** `s.replace(c, "")` (and `re.sub("[c]", "", s)`): every occurrence of `c` deleted. */
  function Without(s: string, c: char): (r: string)
    ensures c !in r
    ensures forall i :: 0 <= i < |r| ==> r[i] in s
    ensures c !in s ==> r == s
  {
    if s == [] then []
    else (if s[0] == c then [] else [s[0]]) + Without(s[1..], c)
  }

  /** Lower-casing works piece by piece. */
  lemma {:induction false} LowerAppend(a: string, b: string)
    ensures Lower(a + b) == Lower(a) + Lower(b)
  {
    if a != [] {
      LowerAppend(a[1..], b);
      assert (a + b)[1..] == a[1..] + b;
    } else {
      assert a + b == b;
    }
  }

  /** Python's `<=` on strings: code point by code point, a proper prefix first. */
  predicate StrLe(a: string, b: string) {
    a == [] || (b != [] && (a[0] < b[0] || (a[0] == b[0] && StrLe(a[1..], b[1..]))))
  }

  /** Any two strings compare. */
  lemma {:induction false} StrLeTotal(a: string, b: string)
    ensures StrLe(a, b) || StrLe(b, a)
  {
    if a != [] && b != [] && a[0] == b[0] {
      StrLeTotal(a[1..], b[1..]);
    }
  }

  /** Comparison chains. */
  lemma {:induction false} StrLeTrans(a: string, b: string, c: string)
    requires StrLe(a, b) && StrLe(b, c)
    ensures StrLe(a, c)
  {
    if a != [] && b != [] && c != [] && a[0] == b[0] == c[0] {
      StrLeTrans(a[1..], b[1..], c[1..]);
    }
  }

  /** Strings that compare both ways are equal. */
  lemma {:induction false} StrLeAntisymmetric(a: string, b: string)
    requires StrLe(a, b) && StrLe(b, a)
    ensures a == b
  {
    if a != [] && b != [] {
      StrLeAntisymmetric(a[1..], b[1..]);
      assert a == [a[0]] + a[1..] && b == [b[0]] + b[1..];
    }
  }
}
