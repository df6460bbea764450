/** The parts of `pathlib.PurePosixPath` the script uses on a single file name:
    `suffix`, `stem`, `with_name` and `with_suffix`. */
module Paths {
  import opened Wrappers
  import opened Text

  /** The index of the last '.' in `s`. */
  function LastDot(s: string): (r: Option<nat>)
    ensures r.Some? ==> r.value < |s| && s[r.value] == '.'
    ensures r.Some? ==> forall j :: r.value < j < |s| ==> s[j] != '.'
    ensures r.None? ==> '.' !in s
  {
    if s == [] then None
    else if s[|s| - 1] == '.' then Some(|s| - 1)
    else LastDot(s[..|s| - 1])
  }

  /** `suffix`: the text from the last '.', unless that dot is the first or the
      last character of the name; otherwise empty. */
  function Suffix(name: string): (r: string)
    ensures r != [] <==> LastDot(name).Some? && 0 < LastDot(name).value < |name| - 1
    ensures r != [] ==> r == name[LastDot(name).value..]
  {
    match LastDot(name)
    case Some(i) => if 0 < i < |name| - 1 then name[i..] else []
    case None => []
  }

  /** A suffix is empty or a dot followed by at least one character and no other dot;
      it ends the name and is shorter than it. There is none exactly when the name
      has no dot after its first character or ends in a dot. */
  lemma SuffixShape(name: string)
    ensures var r := Suffix(name);
      && (r == [] || (|r| >= 2 && r[0] == '.' && '.' !in r[1..]))
      && (|r| < |name| || r == [])
      && EndsWith(name, r)
    ensures Suffix(name) == [] <==> name == [] || '.' !in name[1..] || name[|name| - 1] == '.'
  {
  }

  /** `stem`: the name without its suffix. */
  function Stem(name: string): string {
    name[..|name| - |Suffix(name)|]
  }

  /** The stem followed by the suffix is the name, and a non-empty name has a non-empty
      stem. */
  lemma StemSuffix(name: string)
    ensures Stem(name) + Suffix(name) == name
    ensures name != [] ==> Stem(name) != []
  {
    SuffixShape(name);
  }

  /** The names `with_name` accepts on POSIX: not empty, no '/', not ".". */
  predicate ValidName(name: string) {
    name != [] && '/' !in name && name != "."
  }

  /** `with_name(name)`, with None where pathlib raises ValueError. */
  function WithName(name: string): (r: Option<string>)
    ensures r.Some? <==> ValidName(name)
    ensures r.Some? ==> r.value == name
  {
    if ValidName(name) then Some(name) else None
  }

  /** `with_suffix(suffix)` on a path whose name is `name`: the old suffix, if any,
      is replaced; otherwise `suffix` is appended. */
  function WithSuffix(name: string, suffix: string): string
    requires name != []
  {
    Stem(name) + suffix
  }

  /** The last dot of `s + t`, when `t` has none, is the last dot of `s`. */
  lemma {:induction false} LastDotAppend(s: string, t: string)
    requires '.' !in t
    ensures LastDot(s + t) == LastDot(s)
    decreases |t|
  {
    if t != [] {
      var u := t[..|t| - 1];
      assert (s + t)[..|s + t| - 1] == s + u;
      assert u[..] == t[..|t| - 1];
      LastDotAppend(s, u);
    } else {
      assert s + t == s;
    }
  }

  /** Giving a valid name the suffix ".wav" yields a name whose suffix is ".wav" and
      whose stem is the stem of the name given. */
  lemma WithWavSuffix(name: string)
    requires ValidName(name)
    ensures var t := WithSuffix(name, ".wav");
      Suffix(t) == ".wav" && Stem(t) == Stem(name) && EndsWith(t, ".wav")
  {
    var stem := Stem(name);
    var t := WithSuffix(name, ".wav");
    assert t == (stem + ".") + "wav";
    LastDotAppend(stem + ".", "wav");
    assert LastDot(stem + ".") == Some(|stem|);
  }

  /** A last dot strictly inside the name starts the suffix and ends the stem. */
  lemma SplitAtLastDot(name: string, i: nat)
    requires LastDot(name) == Some(i) && 0 < i < |name| - 1
    ensures Suffix(name) == name[i..] && Stem(name) == name[..i]
  {
  }

  /** A dot with no dot after it is the last dot. */
  lemma {:induction false} LastDotAt(s: string, i: nat)
    requires i < |s| && s[i] == '.'
    requires forall j :: i < j < |s| ==> s[j] != '.'
    ensures LastDot(s) == Some(i)
    decreases |s|
  {
    if i < |s| - 1 {
      LastDotAt(s[..|s| - 1], i);
    }
  }

  /** "01 Mr. Brightside" is turned into "01 Mr.wav": the text after the inner dot
      is taken for a suffix and replaced. */
  lemma WithSuffixInnerDot()
    ensures WithSuffix("01 Mr. Brightside", ".wav") == "01 Mr.wav"
  {
    var name := "01 Mr. Brightside";
    LastDotAt(name, 5);
    SplitAtLastDot(name, 5);
    assert name[..5] == "01 Mr";
  }
}
