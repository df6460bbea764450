/** `download_playlist` after the playlist's metadata has been fetched: up to three
    downloader runs, a count of the audio files each run leaves, and, once the count is
    reached, a fuzzy name and duration check of every file that only prints warnings.
    The downloader, the folder it fills and the measured durations are oracle inputs. */
module Download {
  import opened Wrappers
  import opened Text
  import opened Paths

  /** The number of downloader runs allowed. */
  const MaxRetries: nat := 3

  /** The suffixes, lower-cased, counted as downloaded audio. */
  const DownloadExtensions: set<string> := {".mp3", ".m4a", ".ogg", ".opus", ".flac", ".wav"}

  /** One entry of the playlist's metadata file. */
  datatype TrackMeta = TrackMeta(artist: string, name: string, duration: real)

  /** A folder entry after a run: its name and its measured duration, None when the
      audio cannot be decoded. */
  datatype AudioFile = AudioFile(name: string, duration: Option<real>)

  /** A printed duration mismatch: the file, the expected and the measured duration. */
  datatype Warning = Warning(file: string, expected: real, actual: real)

  /** How one downloader run ends: the process fails (CalledProcessError), something
      else raises, or it completes and leaves the folder holding `entries`. */
  datatype Attempt = ProcessFailed | Crashed | Completed(entries: seq<AudioFile>)

  // ---------------------------------------------------------------- fuzzy matching

  predicate IsAlnumLower(c: char) {
    'a' <= c <= 'z' || '0' <= c <= '9'
  }

  /** `re.sub(r'[^a-z0-9]', '', s)`: the characters of `s` in a..z or 0..9, in order. */
  function KeepAlnumLower(s: string): (r: string)
    ensures forall i :: 0 <= i < |r| ==> IsAlnumLower(r[i])
    ensures |r| <= |s|
  {
    if s == [] then []
    else (if IsAlnumLower(s[0]) then [s[0]] else []) + KeepAlnumLower(s[1..])
  }

  /** A string made only of a..z and 0..9 is kept whole. */
  lemma {:induction false} KeepAlnumLowerAll(s: string)
    requires forall i :: 0 <= i < |s| ==> IsAlnumLower(s[i])
    ensures KeepAlnumLower(s) == s
  {
    if s != [] {
      KeepAlnumLowerAll(s[1..]);
      assert s == [s[0]] + s[1..];
    }
  }

  /** The normal form names are compared in: lower-cased, then only a..z and 0..9 kept. */
  function Normalise(s: string): (r: string)
    ensures forall i :: 0 <= i < |r| ==> IsAlnumLower(r[i])
  {
    KeepAlnumLower(Lower(s))
  }

  /** Normalising twice is normalising once. */
  lemma NormaliseIdempotent(s: string)
    ensures Normalise(Normalise(s)) == Normalise(s)
  {
    var r := Normalise(s);
    LowerUnchanged(r);
    KeepAlnumLowerAll(r);
  }

  /** A track's name matches a file when its normalised artist and its normalised name
      both occur in the file's normalised stem. */
  predicate NameMatches(fClean: string, t: TrackMeta) {
    Contains(fClean, Normalise(t.artist)) && Contains(fClean, Normalise(t.name))
  }

  function Abs(x: real): real {
    if x < 0.0 then -x else x
  }

  /** The tolerance: strictly less than ten seconds apart. */
  predicate Fits(actual: real, expected: real) {
    Abs(actual - expected) < 10.0
  }

  /** `NameMatches` for one file, as a test on tracks. */
  function Matcher(fClean: string): TrackMeta -> bool {
    t => NameMatches(fClean, t)
  }

  /** The duration of the last track `matches` accepts, 0 when it accepts none. */
  function LastCandidate(matches: TrackMeta -> bool, tracks: seq<TrackMeta>): real {
    if tracks == [] then 0.0
    else if matches(tracks[|tracks| - 1]) then tracks[|tracks| - 1].duration
    else LastCandidate(matches, tracks[..|tracks| - 1])
  }

  /** Extending the tracks by one: the new track's duration if it is accepted, the old
      candidate otherwise. */
  lemma LastCandidateStep(matches: TrackMeta -> bool, tracks: seq<TrackMeta>, i: nat)
    requires i < |tracks|
    ensures LastCandidate(matches, tracks[..i + 1]) ==
      if matches(tracks[i]) then tracks[i].duration else LastCandidate(matches, tracks[..i])
  {
    assert tracks[..i + 1][..i] == tracks[..i];
  }

  /** With no accepted track the last candidate is 0. */
  lemma {:induction false} LastCandidateNone(matches: TrackMeta -> bool, tracks: seq<TrackMeta>)
    requires forall k :: 0 <= k < |tracks| ==> !matches(tracks[k])
    ensures LastCandidate(matches, tracks) == 0.0
  {
    if tracks != [] {
      LastCandidateNone(matches, tracks[..|tracks| - 1]);
    }
  }

  /** The last candidate is the duration of the accepted track after which none is
      accepted. */
  lemma {:induction false} LastCandidateAt(matches: TrackMeta -> bool, tracks: seq<TrackMeta>, k: nat)
    requires k < |tracks| && matches(tracks[k])
    requires forall j :: k < j < |tracks| ==> !matches(tracks[j])
    ensures LastCandidate(matches, tracks) == tracks[k].duration
  {
    if k < |tracks| - 1 {
      var init := tracks[..|tracks| - 1];
      assert init[k] == tracks[k];
      LastCandidateAt(matches, init, k);
    }
  }

  /** An accepted track has a last accepted track at or after it. */
  lemma {:induction false} LastAccepted(matches: TrackMeta -> bool, tracks: seq<TrackMeta>, k0: nat) returns (k: nat)
    requires k0 < |tracks| && matches(tracks[k0])
    ensures k0 <= k < |tracks| && matches(tracks[k])
    ensures forall j :: k < j < |tracks| ==> !matches(tracks[j])
    decreases |tracks| - k0
  {
    if forall j :: k0 < j < |tracks| ==> !matches(tracks[j]) {
      k := k0;
    } else {
      var j :| k0 < j < |tracks| && matches(tracks[j]);
      k := LastAccepted(matches, tracks, j);
    }
  }

  /** The duration a warning reports, None when the file passes: a track that `matches`
      accepts and whose duration fits accepts the file; otherwise the last accepted
      track's duration is reported when it is positive. */
  function WarningFor(matches: TrackMeta -> bool, actual: real, tracks: seq<TrackMeta>): Option<real> {
    if exists k :: 0 <= k < |tracks| && matches(tracks[k]) && Fits(actual, tracks[k].duration) then None
    else
      var c := LastCandidate(matches, tracks);
      if c > 0.0 then Some(c) else None
  }

  /** The warning for a file whose normalised stem is `fClean`, tracks matched by name. */
  function DurationWarning(fClean: string, actual: real, tracks: seq<TrackMeta>): Option<real> {
    WarningFor(Matcher(fClean), actual, tracks)
  }

  /** A warning reports a positive duration that belongs to the last name-matching track,
      and no name-matching track's duration fits. */
  lemma WarningIsLastMismatch(fClean: string, actual: real, tracks: seq<TrackMeta>)
    requires DurationWarning(fClean, actual, tracks).Some?
    ensures var d := DurationWarning(fClean, actual, tracks).value;
      && d > 0.0
      && (forall k :: 0 <= k < |tracks| && NameMatches(fClean, tracks[k]) ==> !Fits(actual, tracks[k].duration))
      && (exists k :: 0 <= k < |tracks| && NameMatches(fClean, tracks[k])
           && tracks[k].duration == d && !Fits(actual, d)
           && forall j :: k < j < |tracks| ==> !NameMatches(fClean, tracks[j]))
  {
    var m := Matcher(fClean);
    if forall k :: 0 <= k < |tracks| ==> !m(tracks[k]) {
      LastCandidateNone(m, tracks);
    } else {
      var k0 :| 0 <= k0 < |tracks| && m(tracks[k0]);
      var k := LastAccepted(m, tracks, k0);
      LastCandidateAt(m, tracks, k);
    }
  }

  /** A file no track's name matches is never warned about. */
  lemma NoNameMatchNoWarning(fClean: string, actual: real, tracks: seq<TrackMeta>)
    requires forall k :: 0 <= k < |tracks| ==> !NameMatches(fClean, tracks[k])
    ensures DurationWarning(fClean, actual, tracks) == None
  {
    LastCandidateNone(Matcher(fClean), tracks);
  }

  /** When track k is the last whose name matches, the file is warned about exactly when
      no name-matching track fits and track k's duration is positive; the warning then
      reports track k's duration. */
  lemma WarningIff(fClean: string, actual: real, tracks: seq<TrackMeta>, k: nat)
    requires k < |tracks| && NameMatches(fClean, tracks[k])
    requires forall j :: k < j < |tracks| ==> !NameMatches(fClean, tracks[j])
    ensures DurationWarning(fClean, actual, tracks).Some? <==>
      (forall j :: 0 <= j < |tracks| && NameMatches(fClean, tracks[j]) ==> !Fits(actual, tracks[j].duration))
      && tracks[k].duration > 0.0
    ensures DurationWarning(fClean, actual, tracks).Some? ==>
      DurationWarning(fClean, actual, tracks).value == tracks[k].duration
  {
    LastCandidateAt(Matcher(fClean), tracks, k);
  }

  /** A file "01 A - B.wav" checked against one track by "A" named "B" lasting 200
      seconds: a measured 205 seconds passes, a measured 215 seconds is warned about
      with 200 seconds expected. */
  lemma ToleranceExample(tracks: seq<TrackMeta>)
    requires tracks == [TrackMeta("A", "B", 200.0)]
    ensures DurationWarning("01ab", 205.0, tracks) == None
    ensures DurationWarning("01ab", 215.0, tracks) == Some(200.0)
  {
    ExampleNameMatches(tracks[0]);
    assert Fits(205.0, tracks[0].duration);
    WarningIff("01ab", 215.0, tracks, 0);
  }

  /** The same check on the file "01 A - B.wav" itself: measured at 215 seconds it gets
      exactly one warning, expecting 200 seconds; measured at 205 seconds, none. */
  lemma FileToleranceExample(tracks: seq<TrackMeta>)
    requires tracks == [TrackMeta("A", "B", 200.0)]
    ensures FileWarnings(AudioFile("01 A - B.wav", Some(215.0)), tracks) == [Warning("01 A - B.wav", 200.0, 215.0)]
    ensures FileWarnings(AudioFile("01 A - B.wav", Some(205.0)), tracks) == []
  {
    ExampleFileStem();
    ExampleFileNormalised();
    ToleranceExample(tracks);
  }

  /** The stem of "01 A - B.wav". */
  lemma ExampleFileStem()
    ensures Stem("01 A - B.wav") == "01 A - B"
  {
    var name := "01 A - B.wav";
    assert LastDot(name) == Some(8) by {
      assert name == "01 A - B." + "wav";
      LastDotAppend("01 A - B.", "wav");
      assert LastDot("01 A - B.") == Some(8);
    }
    SplitAtLastDot(name, 8);
    assert name[..8] == "01 A - B";
  }

  /** "01 A - B" normalises to "01ab". */
  lemma ExampleFileNormalised()
    ensures Normalise("01 A - B") == "01ab"
  {
    ExampleLower();
    ExampleKeep();
  }

  /** Lower-casing "01 A - B", half by half. */
  lemma ExampleLower()
    ensures Lower("01 A - B") == "01 a - b"
  {
    ExampleLowerHead();
    ExampleLowerTail();
    assert "01 A - B" == "01 A" + " - B";
    LowerAppend("01 A", " - B");
    assert "01 a" + " - b" == "01 a - b";
  }

  lemma ExampleLowerHead()
    ensures Lower("01 A") == "01 a"
  {
    assert "01 A"[1..] == "1 A" && "1 A"[1..] == " A" && " A"[1..] == "A" && "A"[1..] == [];
  }

  lemma ExampleLowerTail()
    ensures Lower(" - B") == " - b"
  {
    assert " - B"[1..] == "- B" && "- B"[1..] == " B" && " B"[1..] == "B" && "B"[1..] == [];
  }

  /** Keeping a..z and 0..9 of "01 a - b", half by half. */
  lemma ExampleKeep()
    ensures KeepAlnumLower("01 a - b") == "01ab"
  {
    ExampleKeepHead();
    ExampleKeepTail();
    assert "01 a - b" == "01 a" + " - b";
    KeepAlnumLowerAppend("01 a", " - b");
    assert "01a" + "b" == "01ab";
  }

  lemma ExampleKeepHead()
    ensures KeepAlnumLower("01 a") == "01a"
  {
    assert "01 a"[1..] == "1 a" && "1 a"[1..] == " a" && " a"[1..] == "a" && "a"[1..] == [];
  }

  lemma ExampleKeepTail()
    ensures KeepAlnumLower(" - b") == "b"
  {
    assert " - b"[1..] == "- b" && "- b"[1..] == " b" && " b"[1..] == "b" && "b"[1..] == [];
  }

  /** Keeping a..z and 0..9 works piece by piece. */
  lemma {:induction false} KeepAlnumLowerAppend(a: string, b: string)
    ensures KeepAlnumLower(a + b) == KeepAlnumLower(a) + KeepAlnumLower(b)
  {
    if a != [] {
      KeepAlnumLowerAppend(a[1..], b);
      assert (a + b)[1..] == a[1..] + b;
    } else {
      assert a + b == b;
    }
  }

  /** "01ab", the normal form of "01 A - B", matches a track by "A" named "B". */
  lemma ExampleNameMatches(t: TrackMeta)
    requires t.artist == "A" && t.name == "B"
    ensures NameMatches("01ab", t)
  {
    NormaliseLetter('A', 'a');
    NormaliseLetter('B', 'b');
    ExampleContains();
  }

  lemma ExampleContains()
    ensures Contains("01ab", "a") && Contains("01ab", "b")
  {
    assert OccursAt("01ab", "a", 2) && OccursAt("01ab", "b", 3);
    ContainsIff("01ab", "a");
    ContainsIff("01ab", "b");
  }

  /** A capital letter normalises to its lower-case letter. */
  lemma NormaliseLetter(upper: char, lower: char)
    requires 'A' <= upper <= 'Z' && lower as int == upper as int + 32
    ensures Normalise([upper]) == [lower]
  {
    assert Lower([upper]) == [lower];
    assert [lower][1..] == [];
  }

  /** The inner loop over the metadata for one file: `match_found` and
      `candidate_duration`, leaving the loop at the first track that `matches` accepts
      and whose duration fits. */
  method ScanTracks(matches: TrackMeta -> bool, actual: real, tracks: seq<TrackMeta>)
    returns (warning: Option<real>)
    ensures warning == WarningFor(matches, actual, tracks)
  {
    var matchFound := false;
    var candidate := 0.0;
    var i := 0;
    while i < |tracks|
      invariant 0 <= i <= |tracks|
      invariant forall k :: 0 <= k < i ==> !(matches(tracks[k]) && Fits(actual, tracks[k].duration))
      invariant candidate == LastCandidate(matches, tracks[..i])
    {
      var t := tracks[i];
      LastCandidateStep(matches, tracks, i);
      if matches(t) {
        if Fits(actual, t.duration) {
          matchFound := true;
          break;
        }
        candidate := t.duration;
      }
      i := i + 1;
    }
    if !matchFound && candidate > 0.0 {
      assert tracks[..i] == tracks;
      warning := Some(candidate);
    } else {
      assert !matchFound ==> tracks[..i] == tracks;
      warning := None;
    }
  }

  /** The check of one file against the metadata, names compared in normal form. */
  method CheckFile(fClean: string, actual: real, tracks: seq<TrackMeta>) returns (warning: Option<real>)
    ensures warning == DurationWarning(fClean, actual, tracks)
  {
    warning := ScanTracks(Matcher(fClean), actual, tracks);
  }

  /** A decoded file whose check warns. */
  predicate Flagged(f: AudioFile, tracks: seq<TrackMeta>) {
    f.duration.Some? && DurationWarning(Normalise(Stem(f.name)), f.duration.value, tracks).Some?
  }

  /** The warning printed for a flagged file: its name, the expected duration the check
      reports and its measured duration. */
  function WarningOf(f: AudioFile, tracks: seq<TrackMeta>): Warning
    requires Flagged(f, tracks)
  {
    Warning(f.name, DurationWarning(Normalise(Stem(f.name)), f.duration.value, tracks).value, f.duration.value)
  }

  /** The warning one file yields, if any: none when its audio cannot be decoded. */
  function FileWarnings(f: AudioFile, tracks: seq<TrackMeta>): (r: seq<Warning>)
    ensures |r| <= 1
  {
    match f.duration
    case None => []
    case Some(actual) =>
      match DurationWarning(Normalise(Stem(f.name)), actual, tracks)
      case None => []
      case Some(expected) => [Warning(f.name, expected, actual)]
  }

  /** A file yields a warning exactly when it is flagged, and then the one warning is
      its warning. */
  lemma FileWarningsSpec(f: AudioFile, tracks: seq<TrackMeta>)
    ensures FileWarnings(f, tracks) != [] <==> Flagged(f, tracks)
    ensures Flagged(f, tracks) ==> FileWarnings(f, tracks) == [WarningOf(f, tracks)]
  {
  }

  /** The warnings of a list of files, in file order. */
  function Warnings(files: seq<AudioFile>, tracks: seq<TrackMeta>): seq<Warning> {
    if files == [] then []
    else Warnings(files[..|files| - 1], tracks) + FileWarnings(files[|files| - 1], tracks)
  }

  /** Each warning names a decoded file of the list, reports its measured duration, and
      carries the duration `DurationWarning` gives for it; there are no more warnings
      than files. */
  lemma {:induction false} WarningsSpec(files: seq<AudioFile>, tracks: seq<TrackMeta>)
    ensures |Warnings(files, tracks)| <= |files|
    ensures forall w :: w in Warnings(files, tracks) ==>
      (exists f :: f in files && f.name == w.file && f.duration == Some(w.actual)
         && DurationWarning(Normalise(Stem(f.name)), w.actual, tracks) == Some(w.expected))
  {
    if files != [] {
      var init := files[..|files| - 1];
      WarningsSpec(init, tracks);
      forall w | w in Warnings(files, tracks)
        ensures (exists f :: (f in files && f.name == w.file && f.duration == Some(w.actual)
           && DurationWarning(Normalise(Stem(f.name)), w.actual, tracks) == Some(w.expected)))
      {
        if w in Warnings(init, tracks) {
          var f :| f in init && f.name == w.file && f.duration == Some(w.actual)
            && DurationWarning(Normalise(Stem(f.name)), w.actual, tracks) == Some(w.expected);
          assert f in files;
        } else {
          assert files[|files| - 1] in files;
        }
      }
    }
  }

  /** Every flagged file of the list has its warning among the warnings. */
  lemma {:induction false} WarningsComplete(files: seq<AudioFile>, tracks: seq<TrackMeta>)
    ensures forall i :: 0 <= i < |files| && Flagged(files[i], tracks) ==> WarningOf(files[i], tracks) in Warnings(files, tracks)
  {
    forall i | 0 <= i < |files| && Flagged(files[i], tracks)
      ensures WarningOf(files[i], tracks) in Warnings(files, tracks)
    {
      WarningOfIn(files, tracks, i);
    }
  }

  /** File i's warning, when it is flagged, is among the warnings of the list. */
  lemma WarningOfIn(files: seq<AudioFile>, tracks: seq<TrackMeta>, i: nat)
    requires i < |files| && Flagged(files[i], tracks)
    ensures WarningOf(files[i], tracks) in Warnings(files, tracks)
  {
    var before, own := Warnings(files[..i], tracks), FileWarnings(files[i], tracks);
    WarningsPrefix(files, tracks, i);
    FileWarningsSpec(files[i], tracks);
    WarningsPrefixOf(files, tracks, i + 1);
    assert (before + own)[|before|] == own[0];
    assert Warnings(files, tracks)[|before|] == own[0];
  }

  /** The warnings of the first n files begin the warnings of the list. */
  lemma {:induction false} WarningsPrefixOf(files: seq<AudioFile>, tracks: seq<TrackMeta>, n: nat)
    requires n <= |files|
    ensures Warnings(files[..n], tracks) <= Warnings(files, tracks)
    decreases |files| - n
  {
    if n < |files| {
      WarningsPrefixOf(files, tracks, n + 1);
      WarningsPrefix(files, tracks, n);
    } else {
      assert files[..n] == files;
    }
  }

  /** The warnings of the first i + 1 files are those of the first i and then those of
      file i. */
  lemma WarningsPrefix(files: seq<AudioFile>, tracks: seq<TrackMeta>, i: nat)
    requires i < |files|
    ensures Warnings(files[..i + 1], tracks) == Warnings(files[..i], tracks) + FileWarnings(files[i], tracks)
  {
    assert files[..i + 1][..i] == files[..i];
  }

  /** The loop over the counted files, each measured and checked in turn. */
  method VerifyDurations(files: seq<AudioFile>, tracks: seq<TrackMeta>) returns (warnings: seq<Warning>)
    ensures warnings == Warnings(files, tracks)
  {
    warnings := [];
    for i := 0 to |files|
      invariant warnings == Warnings(files[..i], tracks)
    {
      var f := files[i];
      var found: seq<Warning> := [];
      match f.duration {
        case None =>
        case Some(actual) =>
          var w := CheckFile(Normalise(Stem(f.name)), actual, tracks);
          if w.Some? {
            found := [Warning(f.name, w.value, actual)];
          }
      }
      assert found == FileWarnings(f, tracks);
      WarningsPrefix(files, tracks, i);
      warnings := warnings + found;
    }
    assert files[..|files|] == files;
  }

  // ---------------------------------------------------------------- the retry loop

  /** The folder entries counted after a run: those whose lower-cased suffix is one of
      the download extensions, in folder order. */
  function Downloaded(entries: seq<AudioFile>): (files: seq<AudioFile>)
    ensures forall f :: f in files <==> f in entries && Lower(Suffix(f.name)) in DownloadExtensions
    ensures |files| <= |entries|
  {
    if entries == [] then []
    else
      (if Lower(Suffix(entries[0].name)) in DownloadExtensions then [entries[0]] else [])
      + Downloaded(entries[1..])
  }

  /** What a run leads to: another run, or the end of the download with its verdict and
      the files whose durations are then checked. */
  datatype Step = Retry | Stop(ok: bool, checked: seq<AudioFile>)

  /** A failed process retries, any other exception gives up, and a completed run
      succeeds when there is no metadata to count against or enough files arrived;
      too few files retry. */
  function AttemptStep(tracks: seq<TrackMeta>, a: Attempt): Step {
    match a
    case ProcessFailed => Retry
    case Crashed => Stop(false, [])
    case Completed(entries) =>
      if |tracks| == 0 then Stop(true, [])
      else if |Downloaded(entries)| >= |tracks| then Stop(true, Downloaded(entries))
      else Retry
  }

  /** The result of `download_playlist`, the number of runs made and the files checked. */
  datatype Outcome = Outcome(ok: bool, runs: nat, checked: seq<AudioFile>)

  /** What each run does to the download: `Steps(tracks, attempt)(k)` is run k's step. */
  function Steps(tracks: seq<TrackMeta>, attempt: nat -> Attempt): nat -> Step {
    (k: nat) => AttemptStep(tracks, attempt(k))
  }

  /** The runs from number `k` on, given each run's step. */
  function RunFrom(step: nat -> Step, k: nat): Outcome
    requires 1 <= k <= MaxRetries
    decreases MaxRetries - k
  {
    match step(k)
    case Stop(ok, checked) => Outcome(ok, k, checked)
    case Retry => if k == MaxRetries then Outcome(false, k, []) else RunFrom(step, k + 1)
  }

  /** The download as a whole, from the first run. */
  function Download(tracks: seq<TrackMeta>, attempt: nat -> Attempt): Outcome {
    RunFrom(Steps(tracks, attempt), 1)
  }

  /** The runs from `k` on stop at a run in k..3; every run before it retried; that run
      either stopped the download with this verdict or was the third and retried too,
      which fails the download. */
  lemma {:induction false} RunFromSpec(step: nat -> Step, k: nat)
    requires 1 <= k <= MaxRetries
    ensures var o := RunFrom(step, k);
      && k <= o.runs <= MaxRetries
      && (forall j :: k <= j < o.runs ==> step(j) == Retry)
      && (step(o.runs) == Stop(o.ok, o.checked)
          || (o.runs == MaxRetries && step(o.runs) == Retry && !o.ok && o.checked == []))
    decreases MaxRetries - k
  {
    if step(k) == Retry && k < MaxRetries {
      RunFromSpec(step, k + 1);
    }
  }

  /** The runs from `k` on succeed exactly when some run from `k` on stops with success
      after every run before it, from `k`, retried. */
  lemma {:induction false} RunFromOkIff(step: nat -> Step, k: nat)
    requires 1 <= k <= MaxRetries
    ensures RunFrom(step, k).ok <==>
      exists j :: k <= j <= MaxRetries && step(j).Stop? && step(j).ok
        && forall i :: k <= i < j ==> step(i) == Retry
    decreases MaxRetries - k
  {
    if step(k) == Retry && k < MaxRetries {
      RunFromOkIff(step, k + 1);
      if RunFrom(step, k).ok {
        var j :| k + 1 <= j <= MaxRetries && step(j).Stop? && step(j).ok
          && forall i :: k + 1 <= i < j ==> step(i) == Retry;
        assert forall i :: k <= i < j ==> step(i) == Retry;
      }
    }
  }

  /** Two step functions that retry at the same runs and stop with the same verdicts
      make the same number of runs with the same verdict. */
  lemma {:induction false} RunFromAgree(s1: nat -> Step, s2: nat -> Step, k: nat)
    requires 1 <= k <= MaxRetries
    requires forall j :: k <= j <= MaxRetries ==> s1(j).Retry? == s2(j).Retry?
    requires forall j :: k <= j <= MaxRetries && s1(j).Stop? ==> s1(j).ok == s2(j).ok
    ensures RunFrom(s1, k).ok == RunFrom(s2, k).ok && RunFrom(s1, k).runs == RunFrom(s2, k).runs
    decreases MaxRetries - k
  {
    if s1(k).Retry? && k < MaxRetries {
      RunFromAgree(s1, s2, k + 1);
    }
  }

  /** The downloader runs at least once and at most three times; the download succeeds
      exactly when some run stops it with success after every earlier run retried. */
  lemma DownloadOkIff(tracks: seq<TrackMeta>, attempt: nat -> Attempt)
    ensures 1 <= Download(tracks, attempt).runs <= MaxRetries
    ensures Download(tracks, attempt).ok <==>
      exists k :: 1 <= k <= MaxRetries && AttemptStep(tracks, attempt(k)).Stop? && AttemptStep(tracks, attempt(k)).ok
        && forall j :: 1 <= j < k ==> AttemptStep(tracks, attempt(j)) == Retry
  {
    var step := Steps(tracks, attempt);
    RunFromSpec(step, 1);
    RunFromOkIff(step, 1);
    assert forall j: nat :: step(j) == AttemptStep(tracks, attempt(j));
  }

  /** A failed download either ran three times or met an exception other than a failed
      process, which ends it at once. */
  lemma DownloadFailure(tracks: seq<TrackMeta>, attempt: nat -> Attempt)
    requires !Download(tracks, attempt).ok
    ensures var o := Download(tracks, attempt);
      attempt(o.runs) == Crashed || (o.runs == MaxRetries && AttemptStep(tracks, attempt(o.runs)) == Retry)
  {
    RunFromSpec(Steps(tracks, attempt), 1);
  }

  /** Three failed processes end the download with failure after three runs. */
  lemma ThreeProcessFailures(tracks: seq<TrackMeta>, attempt: nat -> Attempt)
    requires attempt(1) == ProcessFailed && attempt(2) == ProcessFailed && attempt(3) == ProcessFailed
    ensures Download(tracks, attempt) == Outcome(false, 3, [])
  {
  }

  /** A run erased of its measured durations. */
  function Undurated(a: Attempt): Attempt {
    match a
    case Completed(entries) =>
      Completed(seq(|entries|, i requires 0 <= i < |entries| => AudioFile(entries[i].name, None)))
    case _ => a
  }

  /** Only names count towards the number of downloaded files. */
  lemma {:induction false} DownloadedByName(e1: seq<AudioFile>, e2: seq<AudioFile>)
    requires |e1| == |e2| && forall i :: 0 <= i < |e1| ==> e1[i].name == e2[i].name
    ensures |Downloaded(e1)| == |Downloaded(e2)|
  {
    if e1 != [] {
      DownloadedByName(e1[1..], e2[1..]);
    }
  }

  /** Duration warnings never change the result: two downloads whose runs differ only in
      the measured durations succeed or fail alike after the same number of runs. */
  lemma DurationsDoNotDecide(tracks: seq<TrackMeta>, a1: nat -> Attempt, a2: nat -> Attempt)
    requires forall k :: Undurated(a1(k)) == Undurated(a2(k))
    ensures Download(tracks, a1).ok == Download(tracks, a2).ok
    ensures Download(tracks, a1).runs == Download(tracks, a2).runs
  {
    forall k | 1 <= k <= MaxRetries
      ensures AttemptStep(tracks, a1(k)).Retry? == AttemptStep(tracks, a2(k)).Retry?
      ensures AttemptStep(tracks, a1(k)).Stop? ==> AttemptStep(tracks, a1(k)).ok == AttemptStep(tracks, a2(k)).ok
    {
      assert Undurated(a1(k)) == Undurated(a2(k));
      if a1(k).Completed? {
        var e1, e2 := a1(k).entries, a2(k).entries;
        assert |e1| == |Undurated(a1(k)).entries| == |e2|;
        forall i | 0 <= i < |e1| ensures e1[i].name == e2[i].name {
          assert Undurated(a1(k)).entries[i] == Undurated(a2(k)).entries[i];
        }
        DownloadedByName(e1, e2);
      }
    }
    RunFromAgree(Steps(tracks, a1), Steps(tracks, a2), 1);
  }

  /** Run k of the download, unfolded: its step either ends the download or passes on
      to run k + 1, the third run ending it in failure. */
  lemma RunAt(tracks: seq<TrackMeta>, attempt: nat -> Attempt, k: nat)
    requires 1 <= k <= MaxRetries
    ensures RunFrom(Steps(tracks, attempt), k) ==
      match AttemptStep(tracks, attempt(k))
      case Stop(ok, checked) => Outcome(ok, k, checked)
      case Retry => if k == MaxRetries then Outcome(false, k, []) else RunFrom(Steps(tracks, attempt), k + 1)
  {
    assert Steps(tracks, attempt)(k) == AttemptStep(tracks, attempt(k));
  }

  /** `download_playlist` from its retry loop on: `tracks` is the fetched metadata
      (empty when the fetch failed), `attempt(k)` what the k-th downloader run does. */
  method DownloadPlaylist(tracks: seq<TrackMeta>, attempt: nat -> Attempt)
    returns (ok: bool, runs: nat, warnings: seq<Warning>)
    ensures ok == Download(tracks, attempt).ok
    ensures runs == Download(tracks, attempt).runs
    ensures warnings == Warnings(Download(tracks, attempt).checked, tracks)
  {
    var expectedCount := |tracks|;
    ok, runs, warnings := false, 0, [];
    var k := 1;
    while k <= MaxRetries
      invariant 1 <= k <= MaxRetries + 1
      invariant warnings == [] && !ok && runs == k - 1
      invariant k <= MaxRetries ==> Download(tracks, attempt) == RunFrom(Steps(tracks, attempt), k)
      invariant k > MaxRetries ==> Download(tracks, attempt) == Outcome(false, MaxRetries, [])
    {
      runs := k;
      RunAt(tracks, attempt, k);
      match attempt(k) {
        case ProcessFailed =>
        case Crashed =>
          return;
        case Completed(entries) =>
          if expectedCount > 0 {
            var files := Downloaded(entries);
            if |files| >= expectedCount {
              warnings := VerifyDurations(files, tracks);
              ok := true;
              return;
            }
          } else {
            ok := true;
            return;
          }
      }
      k := k + 1;
    }
  }
}
