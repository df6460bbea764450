/** `convert_to_wav`: every regular file of the download folder whose lower-cased
    suffix is a supported audio format is decoded, written next to it as a ".wav"
    file under a sanitised name, and removed; the ".wav" names written are returned
    in the order of the sorted folder listing. */
module Convert {
  import opened Wrappers
  import opened Text
  import opened Paths
  import opened Sorting

  /** The suffixes converted, compared lower-cased; ".wav" is not among them. */
  const SupportedExtensions: set<string> := {".mp3", ".m4a", ".ogg", ".opus", ".flac"}

  // ---------------------------------------------------------------- sanitised names

  predicate IsAscii(c: char) {
    c < '\U{80}'
  }

  predicate AllAscii(s: string) {
    forall i :: 0 <= i < |s| ==> IsAscii(s[i])
  }

  /** `.encode('ascii', 'ignore').decode('ascii')`: every non-ASCII character dropped. */
  function AsciiOnly(s: string): (r: string)
    ensures AllAscii(r)
    ensures forall i :: 0 <= i < |r| ==> r[i] in s
    ensures AllAscii(s) ==> r == s
  {
    if s == [] then []
    else (if IsAscii(s[0]) then [s[0]] else []) + AsciiOnly(s[1..])
  }

  /** What is known of Unicode NFKD normalisation here: it leaves ASCII text as it is. */
  ghost predicate AsciiFixed(nfkd: string -> string) {
    forall s :: AllAscii(s) ==> nfkd(s) == s
  }

  /** `safe_stem`: the stem decomposed by `nfkd`, cut down to ASCII, with every '"'
      deleted and surrounding whitespace stripped. */
  function SafeStem(stem: string, nfkd: string -> string): string {
    Strip(Without(AsciiOnly(nfkd(stem)), '"'))
  }

  /** A safe stem is ASCII, holds no '"' and has no whitespace at either end. */
  lemma SafeStemShape(stem: string, nfkd: string -> string)
    ensures var r := SafeStem(stem, nfkd);
      AllAscii(r) && '"' !in r && Trimmed(r)
  {
    var a := AsciiOnly(nfkd(stem));
    var w := Without(a, '"');
    var r := Strip(w);
    forall i | 0 <= i < |r| ensures IsAscii(r[i]) {
      assert r[i] in w;
      var j :| 0 <= j < |w| && w[j] == r[i];
      assert w[j] in a;
    }
  }

  /** A stem that is already ASCII, free of '"' and stripped is kept as it is. */
  lemma SafeStemClean(stem: string, nfkd: string -> string)
    requires AsciiFixed(nfkd)
    requires AllAscii(stem) && '"' !in stem && Trimmed(stem)
    ensures SafeStem(stem, nfkd) == stem
  {
    assert nfkd(stem) == stem;
  }

  /** Sanitising twice is sanitising once. */
  lemma SafeStemIdempotent(stem: string, nfkd: string -> string)
    requires AsciiFixed(nfkd)
    ensures SafeStem(SafeStem(stem, nfkd), nfkd) == SafeStem(stem, nfkd)
  {
    SafeStemShape(stem, nfkd);
    SafeStemClean(SafeStem(stem, nfkd), nfkd);
  }

  /** `with_name(safe).with_suffix('.wav')` on a file name, with None where `with_name`
      raises ValueError. */
  function WavName(safe: string): Option<string> {
    match WithName(safe)
    case None => None
    case Some(n) => Some(WithSuffix(n, ".wav"))
  }

  /** A ".wav" name exists exactly when `safe` is a valid file name; it is `safe`, less
      whatever pathlib takes for its suffix, followed by ".wav", and its own suffix is
      ".wav". */
  lemma WavNameSpec(safe: string)
    ensures WavName(safe).Some? <==> ValidName(safe)
    ensures WavName(safe).Some? ==>
      && WavName(safe).value == Stem(safe) + ".wav"
      && Suffix(WavName(safe).value) == ".wav"
      && Stem(WavName(safe).value) == Stem(safe)
  {
    if ValidName(safe) {
      WithWavSuffix(safe);
    }
  }

  /** `target_filename` of a file name: the ".wav" name of its safe stem. */
  function Target(name: string, nfkd: string -> string): Option<string> {
    WavName(SafeStem(Stem(name), nfkd))
  }

  /** A stem with nothing left after sanitising makes `with_name` raise: no target. */
  lemma EmptySafeStemFails(name: string, nfkd: string -> string)
    requires SafeStem(Stem(name), nfkd) == []
    ensures Target(name, nfkd) == None
  {
  }

  /** The stem of "01 Mr. Brightside.mp3". */
  lemma ExampleStem()
    ensures Stem("01 Mr. Brightside.mp3") == "01 Mr. Brightside"
  {
    var stem := "01 Mr. Brightside";
    assert "01 Mr. Brightside.mp3" == stem + "." + "mp3";
    LastDotAppend(stem + ".", "mp3");
    assert LastDot(stem + ".") == Some(|stem|);
  }

  /** "01 Mr. Brightside" is clean already. */
  lemma ExampleSafeStem(nfkd: string -> string)
    requires AsciiFixed(nfkd)
    ensures SafeStem("01 Mr. Brightside", nfkd) == "01 Mr. Brightside"
  {
    var stem := "01 Mr. Brightside";
    assert AllAscii(stem);
    assert !IsSpace(stem[0]) && !IsSpace(stem[|stem| - 1]);
    SafeStemClean(stem, nfkd);
  }

  /** The ".wav" name of "01 Mr. Brightside". */
  lemma ExampleWavName()
    ensures WavName("01 Mr. Brightside") == Some("01 Mr.wav")
  {
    WithSuffixInnerDot();
  }

  /** "01 Mr. Brightside.mp3" is converted to "01 Mr.wav": the text after the inner dot
      of the safe stem is taken for a suffix and replaced. */
  lemma InnerDotTarget(nfkd: string -> string)
    requires AsciiFixed(nfkd)
    ensures Target("01 Mr. Brightside.mp3", nfkd) == Some("01 Mr.wav")
  {
    ExampleStem();
    ExampleSafeStem(nfkd);
    ExampleWavName();
  }

  // ---------------------------------------------------------------- the folder

  /** What `iterdir` lists: a regular file, or anything else (a directory, say). */
  datatype Entry = RegularFile | Directory

  predicate IsDirectory(entries: map<string, Entry>, name: string) {
    name in entries && entries[name] == Directory
  }

  /** What decides each turn of the loop: which names have a supported suffix, the
      target of each name, and whether decoding a file and writing its target succeed. */
  datatype Rules = Rules(supported: string -> bool, target: string -> Option<string>, converts: string -> bool)

  /** No target name is itself supported. */
  ghost predicate TargetsUnsupported(rules: Rules) {
    forall n :: rules.target(n).Some? ==> !rules.supported(rules.target(n).value)
  }

  /** `is_file()` holds and the suffix is supported. */
  predicate Eligible(entries: map<string, Entry>, name: string, rules: Rules) {
    name in entries && entries[name] == RegularFile && rules.supported(name)
  }

  /** The file `name` is converted: it is eligible, it has a target, decoding and
      writing succeed, and the target is not a directory. */
  predicate Converts(entries: map<string, Entry>, name: string, rules: Rules) {
    && Eligible(entries, name, rules)
    && rules.target(name).Some?
    && rules.converts(name)
    && !IsDirectory(entries, rules.target(name).value)
  }

  /** The folder and the ".wav" names returned so far. */
  datatype Batch = Batch(entries: map<string, Entry>, wavFiles: seq<string>)

  /** One turn of the loop: a converted file is replaced by its target, which is
      returned; anything else, a failure included, leaves the folder as it is. */
  function ConvertOne(entries: map<string, Entry>, name: string, rules: Rules): Batch {
    if Converts(entries, name, rules) then
      var t := rules.target(name).value;
      Batch(entries[t := RegularFile] - {name}, [t])
    else Batch(entries, [])
  }

  /** The loop over `listing`, turn by turn. */
  function Run(entries: map<string, Entry>, listing: seq<string>, rules: Rules): Batch {
    if listing == [] then Batch(entries, [])
    else
      var r := Run(entries, listing[..|listing| - 1], rules);
      var b := ConvertOne(r.entries, listing[|listing| - 1], rules);
      Batch(b.entries, r.wavFiles + b.wavFiles)
  }

  /** The targets of the files of `listing` that the initial folder lets convert, in
      listing order. */
  function Converted(entries: map<string, Entry>, listing: seq<string>, rules: Rules): seq<string> {
    if listing == [] then []
    else
      var x := listing[|listing| - 1];
      Converted(entries, listing[..|listing| - 1], rules)
        + (if Converts(entries, x, rules) then [rules.target(x).value] else [])
  }

  /** The names of `listing` eligible in the initial folder, in listing order. */
  function EligibleNames(entries: map<string, Entry>, listing: seq<string>, rules: Rules): seq<string> {
    if listing == [] then []
    else
      var x := listing[|listing| - 1];
      EligibleNames(entries, listing[..|listing| - 1], rules) + (if Eligible(entries, x, rules) then [x] else [])
  }

  /** What the loop over `listing` has done, read off the initial folder `entries`. */
  ghost predicate RunFacts(entries: map<string, Entry>, listing: seq<string>, rules: Rules, b: Batch) {
    && b.wavFiles == Converted(entries, listing, rules)
    && (forall n :: n in b.wavFiles ==> !rules.supported(n))
    && (forall n :: IsDirectory(b.entries, n) <==> IsDirectory(entries, n))
    && (forall n :: n in b.wavFiles ==> n in b.entries && b.entries[n] == RegularFile)
    && (forall n :: n in entries && !(n in listing && Converts(entries, n, rules)) ==>
          n in b.entries && b.entries[n] == entries[n])
    && (forall n :: n in b.entries ==> n in b.wavFiles || (n in entries && !(n in listing && Converts(entries, n, rules))))
  }

  /** A name not yet visited meets at its turn the folder as it started: it converts
      then exactly when the initial folder lets it convert. */
  lemma TurnSeesInitialFolder(entries: map<string, Entry>, listing: seq<string>, rules: Rules, r: Batch, x: string)
    requires RunFacts(entries, listing, rules, r)
    requires x !in listing
    ensures Converts(r.entries, x, rules) == Converts(entries, x, rules)
  {
    if rules.supported(x) {
      assert x !in r.wavFiles;
      assert x in r.entries <==> x in entries;
    }
  }

  /** Extending the listing by `x` extends the converted targets by x's target when the
      initial folder lets `x` convert. */
  lemma ConvertedSnoc(entries: map<string, Entry>, init: seq<string>, x: string, rules: Rules)
    ensures Converted(entries, init + [x], rules) ==
      Converted(entries, init, rules) + (if Converts(entries, x, rules) then [rules.target(x).value] else [])
  {
    assert (init + [x])[..|init|] == init;
  }

  /** A turn that converts nothing keeps the facts. */
  lemma RunFactsSkip(entries: map<string, Entry>, init: seq<string>, x: string, rules: Rules, r: Batch)
    requires RunFacts(entries, init, rules, r) && !Converts(entries, x, rules)
    ensures RunFacts(entries, init + [x], rules, r)
  {
    ConvertedSnoc(entries, init, x, rules);
    assert forall n :: n in init + [x] <==> n in init || n == x;
  }

  /** A converted file is replaced by its target; directories are untouched. */
  lemma ConvertDirectories(entries: map<string, Entry>, init: seq<string>, x: string, rules: Rules, r: Batch)
    requires RunFacts(entries, init, rules, r) && Converts(r.entries, x, rules)
    ensures var t := rules.target(x).value;
      forall n :: IsDirectory(r.entries[t := RegularFile] - {x}, n) <==> IsDirectory(entries, n)
  {
  }

  /** What the converting turn leaves of the entries the listing so far has not
      converted. */
  lemma ConvertKeeps(entries: map<string, Entry>, init: seq<string>, x: string, rules: Rules, r: Batch)
    requires RunFacts(entries, init, rules, r)
    requires Converts(entries, x, rules) && Converts(r.entries, x, rules)
    ensures var t := rules.target(x).value;
      var e := r.entries[t := RegularFile] - {x};
      forall n :: n in entries && !(n in init + [x] && Converts(entries, n, rules)) ==> n in e && e[n] == entries[n]
  {
    var t := rules.target(x).value;
    assert forall n :: n in init + [x] <==> n in init || n == x;
    assert t in entries ==> entries[t] == RegularFile by {
      assert !IsDirectory(r.entries, t);
    }
  }

  /** After the converting turn, every entry is a returned name or an entry that was
      there before and has not been converted. */
  lemma ConvertNothingElse(entries: map<string, Entry>, init: seq<string>, x: string, rules: Rules, r: Batch)
    requires RunFacts(entries, init, rules, r)
    requires Converts(r.entries, x, rules)
    ensures var t := rules.target(x).value;
      forall n :: n in r.entries[t := RegularFile] - {x} ==>
        n in r.wavFiles + [t] || (n in entries && !(n in init + [x] && Converts(entries, n, rules)))
  {
    assert forall n :: n in init + [x] <==> n in init || n == x;
  }

  /** After the converting turn every returned name is unsupported and present as a
      regular file. */
  lemma ConvertWavs(entries: map<string, Entry>, init: seq<string>, x: string, rules: Rules, r: Batch)
    requires TargetsUnsupported(rules)
    requires RunFacts(entries, init, rules, r) && Converts(r.entries, x, rules)
    ensures var t := rules.target(x).value;
      var e := r.entries[t := RegularFile] - {x};
      forall n :: n in r.wavFiles + [t] ==> !rules.supported(n) && n in e && e[n] == RegularFile
  {
    var t := rules.target(x).value;
    assert !rules.supported(t);
    assert forall n :: n in r.wavFiles + [t] <==> n in r.wavFiles || n == t;
  }

  /** A turn that converts `x` keeps the facts. */
  lemma RunFactsConvert(entries: map<string, Entry>, init: seq<string>, x: string, rules: Rules, r: Batch)
    requires TargetsUnsupported(rules)
    requires RunFacts(entries, init, rules, r) && x !in init
    requires Converts(entries, x, rules) && Converts(r.entries, x, rules)
    ensures var t := rules.target(x).value;
      RunFacts(entries, init + [x], rules, Batch(r.entries[t := RegularFile] - {x}, r.wavFiles + [t]))
  {
    ConvertedSnoc(entries, init, x, rules);
    ConvertWavs(entries, init, x, rules, r);
    ConvertDirectories(entries, init, x, rules, r);
    ConvertKeeps(entries, init, x, rules, r);
    ConvertNothingElse(entries, init, x, rules, r);
  }

  /** The loop over a listing of distinct names returns, in listing order, the targets of
      the files the initial folder lets convert, and each is then a regular file of the
      folder; the converted files are gone, directories are as they were, every other
      entry is kept as it was, and nothing else appears. */
  lemma {:induction false} RunSpec(entries: map<string, Entry>, listing: seq<string>, rules: Rules)
    requires TargetsUnsupported(rules) && Distinct(listing)
    ensures RunFacts(entries, listing, rules, Run(entries, listing, rules))
  {
    if listing != [] {
      var init, x := listing[..|listing| - 1], listing[|listing| - 1];
      assert listing == init + [x];
      RunSpec(entries, init, rules);
      var r := Run(entries, init, rules);
      TurnSeesInitialFolder(entries, init, rules, r, x);
      if Converts(entries, x, rules) {
        RunFactsConvert(entries, init, x, rules, r);
      } else {
        RunFactsSkip(entries, init, x, rules, r);
        assert r.wavFiles + [] == r.wavFiles;
      }
    }
  }

  /** At most one ".wav" name per eligible file is returned. */
  lemma {:induction false} ConvertedBound(entries: map<string, Entry>, listing: seq<string>, rules: Rules)
    ensures |Converted(entries, listing, rules)| <= |EligibleNames(entries, listing, rules)| <= |listing|
  {
    if listing != [] {
      ConvertedBound(entries, listing[..|listing| - 1], rules);
    }
  }

  /** A listing with no eligible file leaves the folder as it is and returns nothing:
      running the conversion again on a folder it has fully converted does nothing. */
  lemma {:induction false} NothingToConvert(entries: map<string, Entry>, listing: seq<string>, rules: Rules)
    requires forall k :: 0 <= k < |listing| ==> !Eligible(entries, listing[k], rules)
    ensures Run(entries, listing, rules) == Batch(entries, [])
  {
    if listing != [] {
      NothingToConvert(entries, listing[..|listing| - 1], rules);
    }
  }

  // ---------------------------------------------------------------- the script's rules

  /** The lower-cased suffix is one of the supported audio formats. */
  predicate Supported(name: string) {
    Lower(Suffix(name)) in SupportedExtensions
  }

  /** The rules `convert_to_wav` follows, given NFKD and the conversion outcomes. */
  function ScriptRules(nfkd: string -> string, converts: string -> bool): Rules {
    Rules(Supported, n => Target(n, nfkd), converts)
  }

  /** ".wav", lower-cased, is not a supported suffix. */
  lemma WavNotSupported(suffix: string)
    requires suffix == ".wav"
    ensures Lower(suffix) !in SupportedExtensions
  {
    LowerWav();
    WavNotListed();
  }

  lemma LowerWav()
    ensures Lower(".wav") == ".wav"
  {
    LowerUnchanged(".wav");
  }

  lemma WavNotListed()
    ensures ".wav" !in SupportedExtensions
  {
  }

  /** A name whose suffix is ".wav" is not supported. */
  lemma WavSuffixUnsupported(name: string)
    requires Suffix(name) == ".wav"
    ensures !Supported(name)
  {
    WavNotSupported(Suffix(name));
  }

  /** A ".wav" name is never supported. */
  lemma WavNameUnsupported(safe: string)
    requires WavName(safe).Some?
    ensures !Supported(WavName(safe).value)
  {
    WavNameSpec(safe);
    WavSuffixUnsupported(WavName(safe).value);
  }

  /** The script's targets are never converted themselves, nor are files already in
      WAV: the branch for them (it would rename a ".wav" file to its safe stem) is
      never taken. */
  lemma ScriptRulesSpec(nfkd: string -> string, converts: string -> bool)
    ensures TargetsUnsupported(ScriptRules(nfkd, converts))
    ensures forall n :: Supported(n) ==> Lower(Suffix(n)) != ".wav"
  {
    forall n | Target(n, nfkd).Some? ensures !Supported(Target(n, nfkd).value) {
      WavNameUnsupported(SafeStem(Stem(n), nfkd));
    }
  }

  /** One turn under the script's rules, in the terms the loop body computes them. */
  lemma ScriptTurn(entries: map<string, Entry>, name: string, nfkd: string -> string, converts: string -> bool)
    ensures var w := WavName(SafeStem(Stem(name), nfkd));
      ConvertOne(entries, name, ScriptRules(nfkd, converts)) ==
        if name in entries && entries[name] == RegularFile && Supported(name) && w.Some? && converts(name)
           && !(w.value in entries && entries[w.value] == Directory)
        then Batch(entries[w.value := RegularFile] - {name}, [w.value])
        else Batch(entries, [])
  {
  }

  /** A clean base name without a dot, followed by a dot and an extension without a
      dot, is converted to the base name followed by ".wav". */
  lemma PlainTarget(base: string, ext: string, nfkd: string -> string)
    requires AsciiFixed(nfkd)
    requires ValidName(base) && '.' !in base && AllAscii(base) && '"' !in base && Trimmed(base)
    requires ext != [] && '.' !in ext
    ensures Target(base + "." + ext, nfkd) == Some(base + ".wav")
  {
    var name := base + "." + ext;
    LastDotAt(base + ".", |base|);
    LastDotAppend(base + ".", ext);
    SplitAtLastDot(name, |base|);
    assert name[..|base|] == base;
    SafeStemClean(base, nfkd);
    assert LastDot(base) == None;
  }

  /** A base name without a dot, followed by ".mp3", has the suffix ".mp3". */
  lemma Mp3Suffix(base: string)
    requires base != [] && '.' !in base
    ensures Suffix(base + ".mp3") == ".mp3"
  {
    var name := base + ".mp3";
    assert name == base + "." + "mp3";
    LastDotAt(base + ".", |base|);
    LastDotAppend(base + ".", "mp3");
    SplitAtLastDot(name, |base|);
    assert name[|base|..] == ".mp3";
  }

  /** A name with the suffix ".mp3" is converted. */
  lemma Mp3Supported(name: string)
    requires Suffix(name) == ".mp3"
    ensures Supported(name)
  {
    LowerUnchanged(".mp3");
  }

  /** A file converted to the name of a regular file already there overwrites it:
      the folder loses the converted file only, and the overwritten name is returned. */
  lemma TurnOverwrites(entries: map<string, Entry>, name: string, rules: Rules, t: string)
    requires Eligible(entries, name, rules) && rules.target(name) == Some(t) && rules.converts(name)
    requires t in entries && entries[t] == RegularFile && t != name
    ensures ConvertOne(entries, name, rules) == Batch(entries - {name}, [t])
  {
    assert entries[t := RegularFile] == entries;
  }

  /** A file already in WAV can still be overwritten: beside "base.wav", the file
      "base.mp3" is converted to "base.wav", which replaces the file there and is
      returned as the target of "base.mp3". */
  lemma ExistingWavOverwritten(entries: map<string, Entry>, base: string, nfkd: string -> string, converts: string -> bool)
    requires AsciiFixed(nfkd)
    requires ValidName(base) && '.' !in base && AllAscii(base) && '"' !in base && Trimmed(base)
    requires base + ".mp3" in entries && entries[base + ".mp3"] == RegularFile && converts(base + ".mp3")
    requires base + ".wav" in entries && entries[base + ".wav"] == RegularFile
    ensures ConvertOne(entries, base + ".mp3", ScriptRules(nfkd, converts))
      == Batch(entries - {base + ".mp3"}, [base + ".wav"])
  {
    var name, t := base + ".mp3", base + ".wav";
    Mp3Suffix(base);
    Mp3Supported(name);
    assert base + "." + "mp3" == name;
    PlainTarget(base, "mp3", nfkd);
    assert t[|base| + 1] == 'w' && name[|base| + 1] == 'm';
    TurnOverwrites(entries, name, ScriptRules(nfkd, converts), t);
  }

  // ---------------------------------------------------------------- the listing

  /** `sorted(folder.iterdir())`: the names in Python's string order (paths of one folder
      compare as their names). */
  function Listing(osOrder: seq<string>): seq<string> {
    Sort(osOrder, StrLe)
  }

  /** The string order is a total order. */
  lemma StrLeTotalOrder()
    ensures TotalPreorder(StrLe) && Antisymmetric(StrLe)
  {
    forall a, b ensures StrLe(a, b) || StrLe(b, a) {
      StrLeTotal(a, b);
    }
    forall a, b, c | StrLe(a, b) && StrLe(b, c) ensures StrLe(a, c) {
      StrLeTrans(a, b, c);
    }
    forall a, b | StrLe(a, b) && StrLe(b, a) ensures a == b {
      StrLeAntisymmetric(a, b);
    }
  }

  /** The sorted listing holds the folder's names once each, in string order, whatever
      order the operating system lists them in. */
  lemma ListingSpec(osOrder: seq<string>, other: seq<string>)
    requires Distinct(osOrder) && Distinct(other)
    requires forall n :: n in osOrder <==> n in other
    ensures Distinct(Listing(osOrder))
    ensures forall n :: n in Listing(osOrder) <==> n in osOrder
    ensures Sorted(Listing(osOrder), StrLe)
    ensures Listing(osOrder) == Listing(other)
  {
    StrLeTotalOrder();
    SortSorted(osOrder, StrLe);
    SortDistinct(osOrder, other, StrLe);
  }

  /** The folder the conversion works on. */
  class Folder {
    var entries: map<string, Entry>

    constructor (initial: map<string, Entry>)
      ensures entries == initial
    {
      entries := initial;
    }

    /** One pass of the loop body: a regular file with a supported suffix is decoded and
        written under its target name, then removed, and the target is returned; on
        any failure nothing changes. */
    method ConvertEntry(name: string, nfkd: string -> string, converts: string -> bool)
      returns (converted: seq<string>)
      modifies this
      ensures Batch(entries, converted) == ConvertOne(old(entries), name, ScriptRules(nfkd, converts))
    {
      ScriptTurn(entries, name, nfkd, converts);
      converted := [];
      if name in entries && entries[name] == RegularFile && Supported(name) {
        var safe := SafeStem(Stem(name), nfkd);
        match WavName(safe) {
          case None =>
          case Some(target) =>
            if converts(name) && !(target in entries && entries[target] == Directory) {
              entries := entries[target := RegularFile] - {name};
              converted := [target];
            }
        }
      }
    }

    /** `convert_to_wav`: `osOrder` is the order `iterdir` lists the folder in, `nfkd`
        Unicode NFKD normalisation, and `converts(name)` whether decoding the file and
        writing its ".wav" copy succeed. */
    method ConvertToWav(osOrder: seq<string>, nfkd: string -> string, converts: string -> bool)
      returns (wavFiles: seq<string>)
      modifies this
      ensures Batch(entries, wavFiles) == Run(old(entries), Listing(osOrder), ScriptRules(nfkd, converts))
    {
      var listing := Listing(osOrder);
      ghost var initial := entries;
      ghost var rules := ScriptRules(nfkd, converts);
      wavFiles := [];
      for i := 0 to |listing|
        invariant Batch(entries, wavFiles) == Run(initial, listing[..i], rules)
      {
        assert listing[..i + 1][..i] == listing[..i];
        var converted := ConvertEntry(listing[i], nfkd, converts);
        wavFiles := wavFiles + converted;
      }
      assert listing[..|listing|] == listing;
    }
  }

  /** What the conversion leaves, read off the initial folder alone: the ".wav" names
      returned are the targets of the converted files in sorted order, at most one per
      eligible file, each present as a regular file; converted files are gone; every
      other entry, directories and files already in WAV included, is kept. */
  lemma ConvertToWavSpec(entries: map<string, Entry>, osOrder: seq<string>, nfkd: string -> string, converts: string -> bool)
    requires Distinct(osOrder) && forall n :: n in osOrder <==> n in entries
    ensures var rules := ScriptRules(nfkd, converts);
      var b := Run(entries, Listing(osOrder), rules);
      && b.wavFiles == Converted(entries, Listing(osOrder), rules)
      && |b.wavFiles| <= |EligibleNames(entries, Listing(osOrder), rules)|
      && (forall n :: n in b.wavFiles ==> n in b.entries && b.entries[n] == RegularFile)
      && (forall n :: Converts(entries, n, rules) ==> n !in b.entries)
      && (forall n :: n in entries && !Converts(entries, n, rules) ==> n in b.entries && b.entries[n] == entries[n])
  {
    var rules := ScriptRules(nfkd, converts);
    ListingSpec(osOrder, osOrder);
    ScriptRulesSpec(nfkd, converts);
    RunSpec(entries, Listing(osOrder), rules);
    ConvertedBound(entries, Listing(osOrder), rules);
    var b := Run(entries, Listing(osOrder), rules);
    forall n | Converts(entries, n, rules) ensures n !in b.entries {
      assert !rules.supported(rules.target(n).value);
    }
  }
}
