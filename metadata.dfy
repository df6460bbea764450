/** The two text files written for a disc, as the sequences of lines they hold:
    `burn_plan.cue` (`generate_cue_sheet`) and `tracklist.txt` (`generate_tracklist`).
    Each line is written followed by a newline. */
module Metadata {
  import opened Wrappers
  import opened Text
  import opened PyInt
  import opened Paths
  import opened TrackOrder

  /** The performer and title read off a file's stem. */
  datatype StemFields = StemFields(performer: string, title: string)

  /** Split the stem on " - ": with three or more pieces the second is the performer
      and the rest, joined again, the title; otherwise the performer is "Unknown" and
      the title the whole stem. */
  function ParseStem(stem: string): StemFields {
    var parts := Split(stem, Separator);
    if |parts| >= 3 then StemFields(parts[1], Join(parts[2..], Separator))
    else StemFields("Unknown", stem)
  }

  /** With three or more pieces, the first piece, the performer and the title, joined by
      " - ", give the stem back. */
  lemma ParseStemRoundTrip(stem: string)
    requires |Split(stem, Separator)| >= 3
    ensures var f := ParseStem(stem);
      Split(stem, Separator)[0] + Separator + f.performer + Separator + f.title == stem
  {
    JoinSplitThree(stem, Separator);
  }

  /** The performer never holds " - ", and a stem of fewer than three pieces is all
      title, with performer "Unknown". */
  lemma ParseStemFields(stem: string)
    ensures var f := ParseStem(stem);
      && (|Split(stem, Separator)| >= 3 ==> !Contains(f.performer, Separator))
      && (|Split(stem, Separator)| < 3 ==> f.performer == "Unknown" && f.title == stem)
  {
    SplitPartsFree(stem, Separator);
  }

  /** The album lines at the top of the cue sheet. */
  function CueHeader(cdName: string): seq<string> {
    ["TITLE \"" + cdName + "\"", "PERFORMER \"\""]
  }

  /** The five lines of one track: the file, its track number as written, its title,
      its performer and its single index at the start of the file. */
  function BlockOf(name: string, track: string, f: StemFields): (lines: seq<string>)
    ensures |lines| == 5
  {
    [ "FILE \"" + name + "\" WAVE",
      "  TRACK " + track + " AUDIO",
      "    TITLE \"" + f.title + "\"",
      "    PERFORMER \"" + f.performer + "\"",
      "    INDEX 01 00:00:00" ]
  }

  /** The block of a file: its track number as `:02d`, and the title and performer read
      off its stem. */
  function CueBlock(number: nat, name: string): (lines: seq<string>)
    ensures |lines| == 5
  {
    BlockOf(name, Pad2(number), ParseStem(Stem(name)))
  }

  /** The lines of `blocks`, one block after another. */
  function Concat(blocks: seq<seq<string>>): seq<string> {
    if blocks == [] then [] else blocks[0] + Concat(blocks[1..])
  }

  /** When every block has five lines, block i occupies lines 5i to 5i + 4. */
  lemma {:induction false} ConcatFives(blocks: seq<seq<string>>)
    requires forall i :: 0 <= i < |blocks| ==> |blocks[i]| == 5
    ensures |Concat(blocks)| == 5 * |blocks|
    ensures forall i :: 0 <= i < |blocks| ==> Concat(blocks)[5 * i..5 * i + 5] == blocks[i]
  {
    if blocks != [] {
      ConcatFives(blocks[1..]);
      var c := Concat(blocks);
      var rest := Concat(blocks[1..]);
      assert forall i :: 1 <= i < |blocks| ==> c[5 * i..5 * i + 5] == rest[5 * (i - 1)..5 * (i - 1) + 5];
      assert forall i :: 1 <= i < |blocks| ==> blocks[1..][i - 1] == blocks[i];
    }
  }

  /** Two header lines followed by five-line blocks: the header comes first and
      block i occupies lines 2 + 5i to 2 + 5i + 4. */
  lemma HeaderThenFives(header: seq<string>, blocks: seq<seq<string>>)
    requires |header| == 2
    requires forall i :: 0 <= i < |blocks| ==> |blocks[i]| == 5
    ensures var lines := header + Concat(blocks);
      && |lines| == 2 + 5 * |blocks|
      && lines[..2] == header
      && forall i :: 0 <= i < |blocks| ==> lines[2 + 5 * i..2 + 5 * i + 5] == blocks[i]
  {
    ConcatFives(blocks);
    var body := Concat(blocks);
    var lines := header + body;
    assert lines[..2] == header;
    assert forall i :: 0 <= i < |blocks| ==> lines[2 + 5 * i..2 + 5 * i + 5] == body[5 * i..5 * i + 5];
  }

  /** The cue sheet of an ordered file list: the album lines, then one block per file,
      numbered from 1 in list order. */
  function CueLines(files: seq<string>, cdName: string): (lines: seq<string>)
    ensures |lines| == 2 + 5 * |files|
    ensures lines[..2] == CueHeader(cdName)
    ensures forall i :: 0 <= i < |files| ==> lines[2 + 5 * i..2 + 5 * i + 5] == CueBlock(i + 1, files[i])
  {
    var blocks := seq(|files|, i requires 0 <= i < |files| => CueBlock(i + 1, files[i]));
    assert forall i :: 0 <= i < |blocks| ==> blocks[i] == CueBlock(i + 1, files[i]);
    HeaderThenFives(CueHeader(cdName), blocks);
    CueHeader(cdName) + Concat(blocks)
  }

  /** `generate_cue_sheet`: the cue sheet of the folder's ".wav" files in burn order. */
  function CueSheet(listing: seq<string>, cdName: string): seq<string> {
    CueLines(Ordered(listing), cdName)
  }

  /** The five lines of the i-th block, written out: the i-th file, track number i + 1,
      and the title and performer read off that file's stem. */
  lemma CueBlockAt(files: seq<string>, cdName: string, i: nat)
    requires i < |files|
    ensures CueLines(files, cdName)[2 + 5 * i] == "FILE \"" + files[i] + "\" WAVE"
    ensures CueLines(files, cdName)[2 + 5 * i + 1] == "  TRACK " + Pad2(i + 1) + " AUDIO"
    ensures CueLines(files, cdName)[2 + 5 * i + 2] == "    TITLE \"" + ParseStem(Stem(files[i])).title + "\""
    ensures CueLines(files, cdName)[2 + 5 * i + 3] == "    PERFORMER \"" + ParseStem(Stem(files[i])).performer + "\""
    ensures CueLines(files, cdName)[2 + 5 * i + 4] == "    INDEX 01 00:00:00"
  {
    var lines, k := CueLines(files, cdName), 2 + 5 * i;
    assert lines[k..k + 5] == CueBlock(i + 1, files[i]);
    LinesOfBlock(lines, k, files[i], Pad2(i + 1), ParseStem(Stem(files[i])));
  }

  /** Lines holding a block at index k hold its five lines, one by one. */
  lemma LinesOfBlock(lines: seq<string>, k: nat, name: string, track: string, f: StemFields)
    requires k + 5 <= |lines| && lines[k..k + 5] == BlockOf(name, track, f)
    ensures lines[k] == "FILE \"" + name + "\" WAVE"
    ensures lines[k + 1] == "  TRACK " + track + " AUDIO"
    ensures lines[k + 2] == "    TITLE \"" + f.title + "\""
    ensures lines[k + 3] == "    PERFORMER \"" + f.performer + "\""
    ensures lines[k + 4] == "    INDEX 01 00:00:00"
  {
    var block := BlockOf(name, track, f);
    forall j | 0 <= j < 5
      ensures lines[k + j] == block[j]
    {
      assert lines[k..k + 5][j] == lines[k + j];
    }
  }

  /** Track numbers run 1..N in burn order whatever numbers the file names carry: the
      TRACK line of the i-th block carries i + 1 in at least two digits, which reads back
      as i + 1. */
  lemma CueTrackNumbers(files: seq<string>, cdName: string, i: nat)
    requires i < |files|
    ensures var lines := CueLines(files, cdName);
      && lines[2 + 5 * i + 1] == "  TRACK " + Pad2(i + 1) + " AUDIO"
      && |Pad2(i + 1)| >= 2
      && ParseInt(Pad2(i + 1)) == Some(i + 1)
  {
    CueBlockAt(files, cdName, i);
    assert ParseInt(Pad2(i + 1)) == Some(i + 1) by { ParsePad2(i + 1); }
  }

  /** A folder with no ".wav" file yields a cue sheet with the album lines only. */
  lemma EmptyCueSheet(listing: seq<string>, cdName: string)
    requires forall k :: 0 <= k < |listing| ==> !EndsWith(listing[k], ".wav")
    ensures CueSheet(listing, cdName) == CueHeader(cdName)
  {
    NoWavGlobbed(listing);
    assert Ordered(listing) == [];
    var lines := CueSheet(listing, cdName);
    assert lines == lines[..2];
  }

  /** The rule under the tracklist's title: forty dashes. */
  const Rule: string := seq(40, _ => '-')

  /** The tracklist line of a stem: with three or more pieces, the first piece, ". ",
      the performer, " - " and the title; otherwise the bare stem. */
  function TracklistEntry(stem: string): string {
    var parts := Split(stem, Separator);
    if |parts| >= 3 then parts[0] + ". " + parts[1] + Separator + Join(parts[2..], Separator)
    else stem
  }

  /** The tracklist of an ordered file list: the title line, the rule, then one line per
      file in list order. */
  function TracklistLines(files: seq<string>, cdName: string): (lines: seq<string>)
    ensures |lines| == 2 + |files|
    ensures lines[0] == "Mix for " + cdName
    ensures |lines[1]| == 40 && forall k :: 0 <= k < 40 ==> lines[1][k] == '-'
    ensures forall i :: 0 <= i < |files| ==> lines[2 + i] == TracklistEntry(Stem(files[i]))
  {
    ["Mix for " + cdName, Rule] + seq(|files|, i requires 0 <= i < |files| => TracklistEntry(Stem(files[i])))
  }

  /** `generate_tracklist`: the tracklist of the folder's ".wav" files in burn order. */
  function Tracklist(listing: seq<string>, cdName: string): seq<string> {
    TracklistLines(Ordered(listing), cdName)
  }

  /** A tracklist line is the stem with its first " - " turned into ". " when the stem
      has three or more pieces, and the bare stem otherwise. */
  lemma TracklistEntrySpec(stem: string)
    ensures TracklistEntry(stem) ==
      if |Split(stem, Separator)| >= 3 then ReplaceFirst(stem, Separator, ". ") else stem
  {
    var parts := Split(stem, Separator);
    if |parts| >= 3 {
      ReplaceFirstSplit(stem, Separator, ". ");
      JoinFromSecond(parts);
    }
  }

  /** Joining the pieces after the first puts " - " between the second and the rest. */
  lemma JoinFromSecond(parts: seq<string>)
    requires |parts| >= 3
    ensures Join(parts[1..], Separator) == parts[1] + Separator + Join(parts[2..], Separator)
  {
    JoinCons(parts[1..], Separator);
    assert parts[1..][1..] == parts[2..];
  }

  /** The cue sheet and the tracklist walk the same files in the same order and read the
      same performer and title off each: the i-th cue block and the i-th tracklist line
      describe the i-th file alike. */
  lemma CueAndTracklistAgree(files: seq<string>, cdName: string, i: nat)
    requires i < |files|
    ensures var stem := Stem(files[i]);
      var parts := Split(stem, Separator);
      var f := ParseStem(stem);
      var cue := CueLines(files, cdName);
      var list := TracklistLines(files, cdName);
      && cue[2 + 5 * i] == "FILE \"" + files[i] + "\" WAVE"
      && cue[2 + 5 * i + 2] == "    TITLE \"" + f.title + "\""
      && cue[2 + 5 * i + 3] == "    PERFORMER \"" + f.performer + "\""
      && (|parts| >= 3 ==> list[2 + i] == parts[0] + ". " + f.performer + Separator + f.title)
      && (|parts| < 3 ==> list[2 + i] == f.title)
  {
    CueBlockAt(files, cdName, i);
  }

  /** Both files describe the folder's ".wav" files in burn order. The script globs
      the folder twice, once for each file; when the two listings glob to the same
      names in the same order, the i-th file of the order is a ".wav" name of both
      listings, the i-th cue block is its block with track number i + 1, and the i-th
      tracklist line is its entry. */
  lemma BurnOrderOutputs(cueListing: seq<string>, listListing: seq<string>, cdName: string, i: nat)
    requires Globbed(cueListing) == Globbed(listListing)
    requires i < |Ordered(cueListing)|
    ensures var name := Ordered(cueListing)[i];
      && name in cueListing && name in listListing && EndsWith(name, ".wav")
      && Ordered(listListing) == Ordered(cueListing)
      && |CueSheet(cueListing, cdName)| == 2 + 5 * |Ordered(cueListing)|
      && CueSheet(cueListing, cdName)[2 + 5 * i..2 + 5 * i + 5] == CueBlock(i + 1, name)
      && |Tracklist(listListing, cdName)| == 2 + |Ordered(cueListing)|
      && Tracklist(listListing, cdName)[2 + i] == TracklistEntry(Stem(name))
  {
    var name := Ordered(cueListing)[i];
    OrderedSpec(cueListing);
    assert name in multiset(Ordered(cueListing));
    assert name in Globbed(cueListing);
  }

  /** The cue sheet is written between the two globs. Its name does not end in ".wav",
      so a listing that also shows "burn_plan.cue", wherever it appears, yields the
      same burn order, and the tracklist agrees with the cue sheet. */
  lemma CueFileIgnored(pre: seq<string>, post: seq<string>, cdName: string)
    ensures Ordered(pre + ["burn_plan.cue"] + post) == Ordered(pre + post)
    ensures Tracklist(pre + ["burn_plan.cue"] + post, cdName) == Tracklist(pre + post, cdName)
  {
    NonWavIgnored(pre, "burn_plan.cue", post);
  }
}
