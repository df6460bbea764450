/** The burn order shared by the cue sheet and the tracklist (spotify2cd.py,
    `get_track_number` and the `sorted(..., key=get_track_number)` that follows it). */
module TrackOrder {
  import opened Wrappers
  import opened Text
  import opened PyInt
  import opened Sorting

  /** The separator between the fields of a track's file name. */
  const Separator: string := " - "

  /** A sort key: the parsed track number, or `float('inf')` when parsing fails. */
  datatype Key = Number(n: int) | Infinity

  /** Python's `<=` between keys: numbers by value, every number below infinity. */
  predicate KeyLe(a: Key, b: Key) {
    match (a, b)
    case (Number(x), Number(y)) => x <= y
    case (_, Infinity) => true
    case (Infinity, Number(_)) => false
  }

  /** `get_track_number`: `int()` of the text before the first " - " of the whole file
      name, extension included; `split` always yields a first piece, so the IndexError
      arm never fires and only a failed `int()` gives infinity. */
  function TrackKey(name: string): Key {
    match ParseInt(Split(name, Separator)[0])
    case Some(n) => Number(n)
    case None => Infinity
  }

  /** The relation `sorted` uses: compare the two names' keys. */
  predicate TrackLe(a: string, b: string) {
    KeyLe(TrackKey(a), TrackKey(b))
  }

  /** `folder.glob("*.wav")`: the listed names that end in ".wav", in listing order. */
  function Globbed(listing: seq<string>): (r: seq<string>)
    ensures forall n :: n in r <==> n in listing && EndsWith(n, ".wav")
    ensures |r| <= |listing|
  {
    if listing == [] then []
    else (if EndsWith(listing[0], ".wav") then [listing[0]] else []) + Globbed(listing[1..])
  }

  /** The ordered file list both metadata writers iterate over. */
  function Ordered(listing: seq<string>): seq<string> {
    Sort(Globbed(listing), TrackLe)
  }

  /** Comparing keys is a total preorder, as `sorted` requires. */
  lemma TrackLeTotalPreorder()
    ensures TotalPreorder(TrackLe)
  {
  }

  /** Two names are tied under the sort exactly when their keys are equal. */
  lemma TiedIffSameKey(a: string, b: string)
    ensures Equiv(TrackLe, a, b) <==> TrackKey(a) == TrackKey(b)
  {
  }

  /** The ordered list is a permutation of the globbed names, its keys never decrease
      (so every numbered name precedes every unnumbered one), and names with equal keys,
      the unnumbered ones included, keep their listing order. */
  lemma OrderedSpec(listing: seq<string>)
    ensures multiset(Ordered(listing)) == multiset(Globbed(listing))
    ensures forall i, j :: 0 <= i < j < |Ordered(listing)| ==>
      KeyLe(TrackKey(Ordered(listing)[i]), TrackKey(Ordered(listing)[j]))
    ensures forall i, j :: 0 <= i < j < |Ordered(listing)| && TrackKey(Ordered(listing)[i]) == Infinity ==>
      TrackKey(Ordered(listing)[j]) == Infinity
    ensures forall c :: Class(Ordered(listing), TrackLe, c) == Class(Globbed(listing), TrackLe, c)
  {
    TrackLeTotalPreorder();
    SortSorted(Globbed(listing), TrackLe);
    forall c ensures Class(Ordered(listing), TrackLe, c) == Class(Globbed(listing), TrackLe, c) {
      SortStable(Globbed(listing), TrackLe, c);
    }
  }

  /** A file name without " - " that ends in ".wav" never parses: its key is infinity. */
  lemma UnseparatedIsInfinite(name: string)
    requires EndsWith(name, ".wav") && !Contains(name, Separator)
    ensures TrackKey(name) == Infinity
  {
    SplitFirst(name, Separator);
    assert Split(name, Separator)[0] == name;
    var u := StripStart(name, IntSpace);
    assert name[|name| - 1] == 'v';
    assert u != [] && u[|u| - 1] == 'v';
    assert IntStrip(name) == u;
  }

  /** A name without a space has no " - " in it. */
  lemma NoSpaceNoSeparator(name: string)
    requires ' ' !in name
    ensures !Contains(name, Separator)
  {
    forall j | 0 <= j ensures !OccursAt(name, Separator, j) {
      if j + |Separator| <= |name| {
        assert name[j] != ' ' && name[j..j + |Separator|][0] == name[j];
      }
    }
  }

  /** A name in the format the sort was written for, "NN - Artist - Title.wav",
      gets its number NN. */
  lemma NumberedNameKey(n: nat, rest: string)
    ensures TrackKey(Pad2(n) + Separator + rest) == Number(n)
  {
    var p := Pad2(n);
    var name := p + Separator + rest;
    assert OccursAt(name, Separator, |p|);
    forall j | 0 <= j < |p| ensures !OccursAt(name, Separator, j) {
      assert name[j] == p[j];
    }
    assert Find(name, Separator) == Some(|p|);
    assert name[..|p|] == p;
    ParsePad2(n);
  }

  /** Where " - " occurs, the string holds a space, a dash and a space. */
  lemma SeparatorChars(s: string, j: int)
    requires OccursAt(s, Separator, j)
    ensures s[j] == ' ' && s[j + 1] == '-' && s[j + 2] == ' '
  {
    assert s[j..j + 3] == Separator;
    assert s[j..j + 3][0] == s[j] && s[j..j + 3][1] == s[j + 1] && s[j..j + 3][2] == s[j + 2];
  }

  /** Text with a space inside, after a first character and before a last one that
      `int()` does not strip, is no integer. */
  lemma SpacedNotInt(seg: string, p: nat)
    requires 0 < p && p + 1 < |seg| && seg[p] == ' '
    requires !IntSpace(seg[0]) && !IntSpace(seg[p + 1])
    ensures ParseInt(seg) == None
  {
    var t := IntStrip(seg);
    assert StripStart(seg, IntSpace) == seg;
    assert t == StripEnd(seg, IntSpace);
    assert |t| > p + 1;
    assert t[p] == ' ';
  }

  /** A name whose text before its first " - " has a space inside, after a first
      character and before a next one that `int()` does not strip, is unnumbered. */
  lemma SpaceBeforeSeparator(name: string, p: nat)
    requires 0 < p && p + 1 < |name| && name[p] == ' '
    requires !IntSpace(name[0]) && !IntSpace(name[p + 1])
    requires Contains(name, Separator)
    requires forall j :: 0 <= j <= p + 1 ==> !OccursAt(name, Separator, j)
    ensures TrackKey(name) == Infinity
  {
    var i := Find(name, Separator).value;
    assert OccursAt(name, Separator, i);
    SplitFirst(name, Separator);
    var seg := name[..i];
    assert seg[0] == name[0] && seg[p] == name[p] && seg[p + 1] == name[p + 1];
    SpacedNotInt(seg, p);
  }

  /** A name the downloader's template "{list-position} {artist} - {title}" produces has
      "NN Artist" before its first " - ", which `int()` rejects: its key is infinity
      (unless the artist is empty or begins with a dash or with whitespace `int()` strips). */
  lemma TemplateNameIsInfinite(position: string, artist: string, rest: string)
    requires position != [] && forall i :: 0 <= i < |position| ==> IsDigit(position[i])
    requires artist != [] && !IntSpace(artist[0]) && artist[0] != '-'
    ensures TrackKey(position + " " + artist + Separator + rest) == Infinity
  {
    var p := |position|;
    var name := position + " " + artist + Separator + rest;
    assert name[0] == position[0] && name[p] == ' ' && name[p + 1] == artist[0];
    assert forall j :: 0 <= j < p ==> name[j] == position[j];
    assert OccursAt(name, Separator, p + 1 + |artist|);
    forall j | 0 <= j <= p + 1 ensures !OccursAt(name, Separator, j) {
      if OccursAt(name, Separator, j) {
        SeparatorChars(name, j);
      }
    }
    SpaceBeforeSeparator(name, p);
  }

  /** When every globbed name is unnumbered, the order is the listing order. */
  lemma AllUnnumberedKeepListingOrder(listing: seq<string>)
    requires forall n :: n in Globbed(listing) ==> TrackKey(n) == Infinity
    ensures Ordered(listing) == Globbed(listing)
  {
    TrackLeTotalPreorder();
    SortAllEquivalent(Globbed(listing), TrackLe);
  }

  /** Globbing keeps a listing whose names all end in ".wav" as it is. */
  lemma {:induction false} AllWavGlobbed(listing: seq<string>)
    requires forall k :: 0 <= k < |listing| ==> EndsWith(listing[k], ".wav")
    ensures Globbed(listing) == listing
  {
    if listing != [] {
      AllWavGlobbed(listing[1..]);
    }
  }

  /** A listing with no ".wav" name globs to nothing. */
  lemma {:induction false} NoWavGlobbed(listing: seq<string>)
    requires forall k :: 0 <= k < |listing| ==> !EndsWith(listing[k], ".wav")
    ensures Globbed(listing) == []
  {
    if listing != [] {
      NoWavGlobbed(listing[1..]);
    }
  }

  /** Globbing a listing made of two parts globs each part in turn. */
  lemma {:induction false} GlobbedAppend(a: seq<string>, b: seq<string>)
    ensures Globbed(a + b) == Globbed(a) + Globbed(b)
    decreases |a|
  {
    if a != [] {
      assert (a + b)[1..] == a[1..] + b;
      GlobbedAppend(a[1..], b);
    } else {
      assert a + b == b;
    }
  }

  /** A name that does not end in ".wav" changes neither the glob nor the burn order,
      wherever it appears in the listing. */
  lemma NonWavIgnored(pre: seq<string>, name: string, post: seq<string>)
    requires !EndsWith(name, ".wav")
    ensures Globbed(pre + [name] + post) == Globbed(pre + post)
    ensures Ordered(pre + [name] + post) == Ordered(pre + post)
  {
    assert pre + [name] + post == pre + ([name] + post);
    GlobbedAppend(pre, [name] + post);
    GlobbedAppend(pre, post);
    assert ([name] + post)[1..] == post;
  }

  /** "\x1c01 - A.wav" is unnumbered: `int()` does not strip the information
      separator U+001C in front of "01". */
  lemma SeparatorPrefixKey()
    ensures TrackKey(['\U{1C}', '0', '1'] + Separator + "A.wav") == Infinity
  {
    var seg := ['\U{1C}', '0', '1'];
    var name := seg + Separator + "A.wav";
    assert OccursAt(name, Separator, 3);
    forall j | 0 <= j < 3 ensures !OccursAt(name, Separator, j) {
      assert name[j] == seg[j];
      SeparatorCharsFail(name, j);
    }
    assert Find(name, Separator) == Some(3);
    assert name[..3] == seg;
    SeparatorBeforeDigits();
  }

  /** A " - " cannot start where the string holds no space. */
  lemma SeparatorCharsFail(s: string, j: int)
    requires 0 <= j < |s| && s[j] != ' '
    ensures !OccursAt(s, Separator, j)
  {
    if OccursAt(s, Separator, j) {
      SeparatorChars(s, j);
    }
  }

  /** "02 B - Song.wav" has "02 B" before its first " - ": unnumbered. */
  lemma SongKey()
    ensures TrackKey("02 B - Song.wav") == Infinity
  {
    assert "02 B - Song.wav" == "02" + " " + "B" + Separator + "Song.wav";
    TemplateNameIsInfinite("02", "B", "Song.wav");
  }

  /** "01 A - Other.wav" has "01 A" before its first " - ": unnumbered. */
  lemma OtherKey()
    ensures TrackKey("01 A - Other.wav") == Infinity
  {
    assert "01 A - Other.wav" == "01" + " " + "A" + Separator + "Other.wav";
    TemplateNameIsInfinite("01", "A", "Other.wav");
  }

  /** "weird.wav" has no " - ": unnumbered. */
  lemma WeirdKey()
    ensures TrackKey("weird.wav") == Infinity
  {
    NoSpaceNoSeparator("weird.wav");
    UnseparatedIsInfinite("weird.wav");
  }

  /** The three names all end in ".wav". */
  lemma TemplateListingGlobbed(listing: seq<string>)
    requires listing == ["02 B - Song.wav", "01 A - Other.wav", "weird.wav"]
    ensures Globbed(listing) == listing
  {
    AllWavGlobbed(listing);
  }

  /** Three files named as the downloader names them stay in listing order: neither
      "02 B - Song.wav" nor "01 A - Other.wav" has a number before its first " - ". */
  lemma TemplateNamesKeepListingOrder(listing: seq<string>)
    requires listing == ["02 B - Song.wav", "01 A - Other.wav", "weird.wav"]
    ensures Ordered(listing) == listing
  {
    TemplateListingGlobbed(listing);
    SongKey();
    OtherKey();
    WeirdKey();
    AllUnnumberedKeepListingOrder(listing);
  }
}
