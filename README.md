# spotify2cd, modelled in Dafny

spotify2cd is a single Python script. It downloads a Spotify playlist with spotdl,
converts the audio to WAV, writes a CUE sheet and a tracklist, and burns an audio CD.
This project models the script's own logic around those external tools and proves
properties of it:

- **Burn order** (`track_order.dfy`). The sort key `get_track_number` is `int()` of the
  text before the first `" - "` of the file name, or infinity when `int()` fails. The
  `.wav` names are then ordered by a stable `sorted`. Python's `int()`, `split`, `strip`
  and `sorted` are modelled in `pyint.dfy`, `text.dfy` and `sorting.dfy`.
- **CUE sheet and tracklist** (`metadata.dfy`). `generate_cue_sheet` and
  `generate_tracklist` are modelled as the sequences of lines they write.
- **Download check and retries** (`download.dfy`). The fuzzy name match of each
  downloaded file against the playlist metadata, with its 10-second tolerance, is a
  method with the script's loop and `break`. The three-attempt retry loop of
  `download_playlist` is a method too. Each is proved against a specification function.
- **WAV conversion** (`convert.dfy`). `convert_to_wav` is a method of a `Folder` class
  whose entries map it updates in place. Pathlib's `suffix`, `stem`, `with_name` and
  `with_suffix` are in `paths.dfy`. The ASCII sanitising of names is in `convert.dfy`.
- **Small helpers** (`limits.dfy`). These are the 80-minute capacity warning and the
  cdrdao speed arguments.

The external world is passed in as parameters:
- the downloader's behaviour on each attempt (`attempt: nat -> Attempt`);
- the files it leaves and their measured durations;
- the order in which the operating system lists a folder;
- Unicode NFKD (`nfkd: string -> string`, assumed only to leave ASCII text unchanged);
- whether decoding and exporting a file succeeds (`converts: string -> bool`).

Three behaviours of the script that a reader might not expect:

- **Names made by the download template are not ordered by their number.** The
  template `{list-position} {artist} - {title}` (spotify2cd.py line 113) puts "NN Artist" before the
  first `" - "`, and `int()` rejects that text. A template name whose position is
  digits and whose artist is non-empty and starts with neither '-' nor whitespace
  that `int()` strips therefore gets the key infinity (`TrackOrder.TemplateNameIsInfinite`). Names that
  all get the key infinity are burnt in listing order
  (`TrackOrder.AllUnnumberedKeepListingOrder`); `"02 B - Song.wav"`,
  `"01 A - Other.wav"` and `"weird.wav"` stay in that order
  (`TrackOrder.TemplateNamesKeepListingOrder`).
- **A file whose name no track matches is never warned about.** Its candidate
  duration stays 0, and the warning needs a positive one
  (`Download.NoNameMatchNoWarning`).
- **Files already in WAV are never converted or renamed, but one can be overwritten.**
  `.wav` is not among the suffixes `convert_to_wav` accepts, so its rename branch is
  never taken (`Convert.ScriptRulesSpec`). A ".wav" file whose name is another file's
  target is overwritten by that file's export, and its name is returned as that
  file's target: beside "a.wav", "a.mp3" becomes "a.wav"
  (`Convert.ExistingWavOverwritten`).
- **`int()` strips less whitespace than `strip()`.** The information separators
  U+001C..U+001F count as whitespace for `str.strip()` but `int()` keeps them, so
  "\x1c01 - A.wav" gets the key infinity (`TrackOrder.SeparatorPrefixKey`).

## Model

| member | source | states |
|---|---|---|
| Text.Strip | spotify2cd.py:219 | `strip()` gives a slice of the string with no whitespace at either end and only whitespace around it, and keeps an already trimmed string as it is |
| Text.StripBy | spotify2cd.py:219 | stripping by a whitespace predicate leaves no such character at either end and keeps a string without one at either end as it is |
| Text.StripBySlice | spotify2cd.py:219 | the stripped text is a slice of the string with only stripped characters before and after it |
| Text.StripBySurrounded | spotify2cd.py:219 | text with non-whitespace ends, surrounded by whitespace, strips to itself |
| Text.FindFrom | spotify2cd.py:147 | `find` returns the first occurrence at or after the start index, and None only when there is no occurrence |
| Text.ContainsIff | spotify2cd.py:147 | Python's `sub in s` holds exactly when `sub` occurs at some index of `s` |
| Text.JoinSplit | spotify2cd.py:262-268 | joining the pieces of `split(sep)` with `sep` gives the string back |
| Text.SplitPartsFree | spotify2cd.py:262 | no piece of `split(sep)` contains the separator |
| Text.SplitFirst | spotify2cd.py:245 | `split` yields two or more pieces exactly when the separator occurs; the first piece is the text before its first occurrence |
| Text.JoinSplitThree | spotify2cd.py:266-268 | with three or more pieces, piece 0, piece 1 and the join of the rest, separated by `sep`, give the string back |
| Text.ReplaceFirstSplit | spotify2cd.py:308 | replacing the first separator puts the replacement between the first piece and the join of the rest |
| Text.Lower | spotify2cd.py:140 | `lower()` leaves no ASCII capital letter |
| Text.LowerUnchanged | spotify2cd.py:140 | a string with no character that lowering changes is its own lower case |
| Text.Without | spotify2cd.py:197 | deleting a character leaves no occurrence of it, adds no character, and keeps a string without it unchanged |
| Text.StrLeTotal | spotify2cd.py:191 | any two names compare under Python's string order |
| Text.StrLeTrans | spotify2cd.py:191 | Python's string order is transitive |
| Text.StrLeAntisymmetric | spotify2cd.py:191 | names that compare both ways are equal |
| PyInt.ParseInt | spotify2cd.py:245 | `int()` accepts only text that, once stripped of the whitespace `int()` strips (tab to carriage return, space and non-ASCII whitespace, but not U+001C..U+001F), is non-empty, ends in a digit and holds only digits and underscores after its first character |
| PyInt.ParseStripped | spotify2cd.py:245 | `int()` on text already stripped: accepted only when non-empty, ending in a digit and holding only digits and underscores after its first character |
| PyInt.IntSpaceIsSpace | spotify2cd.py:245 | the whitespace `int()` strips is whitespace for `strip()`; the two differ exactly on U+001C..U+001F |
| PyInt.ParseIntOfStripped | spotify2cd.py:245 | texts that strip alike parse alike |
| PyInt.SeparatorBeforeDigits | spotify2cd.py:245 | `int("\x1c01")` raises |
| PyInt.ParsePaddedAmidSpace | spotify2cd.py:245 | `int()` reads a `:02d` number back even with whitespace it strips around it |
| PyInt.NatDigits | spotify2cd.py:272 | `str(n)` is a non-empty string of digits, one digit long exactly when n < 10 |
| PyInt.Pad2 | spotify2cd.py:272 | `:02d` writes at least two digits |
| PyInt.NatDigitsValue | spotify2cd.py:272 | the digits `str(n)` writes spell n |
| PyInt.ParseNatDigits | spotify2cd.py:245 | `int(str(n)) == n` |
| PyInt.ParsePad2 | spotify2cd.py:272 | `int()` reads back every `:02d` track number, leading zero included |
| Sorting.Insert | spotify2cd.py:249 | an insertion step adds exactly the inserted element (multiset) |
| Sorting.Sort | spotify2cd.py:249 | the sort returns a permutation of its input (multiset) |
| Sorting.InsertSorted | spotify2cd.py:249 | inserting into a sorted sequence keeps it sorted |
| Sorting.SortSorted | spotify2cd.py:249 | under a total preorder the result is sorted |
| Sorting.SortStable | spotify2cd.py:249 | every class of equivalent elements keeps its input order (stability) |
| Sorting.SortedClassesDetermine | spotify2cd.py:249 | two sorted sequences with the same classes, each in the same order, are equal |
| Sorting.SortUnique | spotify2cd.py:249 | any sorted arrangement that keeps every class in input order is this sort's result, so it is what Python's stable `sorted` returns |
| Sorting.SortAllEquivalent | spotify2cd.py:249 | when all elements are tied, sorting keeps the input order |
| Sorting.SortDistinct | spotify2cd.py:191 | sorting distinct names under a total order gives distinct names, the same ones, and the same result for any input order |
| Paths.LastDot | spotify2cd.py:192 | the index found holds the last '.' of the name; None when there is no '.' |
| Paths.Suffix | spotify2cd.py:192 | the suffix is non-empty exactly when the last '.' is neither the first nor the last character, and then it is the text from that dot |
| Paths.SuffixShape | spotify2cd.py:192 | a suffix is empty or a '.' followed by at least one non-dot character; it ends the name and is shorter than it; it is empty exactly when there is no '.' after the first character or the name ends in '.' |
| Paths.SplitAtLastDot | spotify2cd.py:192-221 | a last dot strictly inside the name starts the suffix and ends the stem |
| Paths.LastDotAppend | spotify2cd.py:192 | appending text without a dot keeps the last dot |
| Paths.LastDotAt | spotify2cd.py:192 | a dot with no dot after it is the last dot |
| Paths.StemSuffix | spotify2cd.py:217 | the stem followed by the suffix is the name; a non-empty name has a non-empty stem |
| Paths.WithName | spotify2cd.py:221 | `with_name` succeeds exactly for a non-empty name without '/' that is not ".", and then gives that name |
| Paths.WithWavSuffix | spotify2cd.py:221 | `with_suffix('.wav')` on a valid name gives a name with suffix ".wav" and the same stem |
| Paths.WithSuffixInnerDot | spotify2cd.py:221 | `with_suffix('.wav')` turns "01 Mr. Brightside" into "01 Mr.wav" |
| TrackOrder.TrackKey | spotify2cd.py:243-247 | the key of a name: `int()` of the text before its first " - ", infinity when there is no " - " or `int()` fails; pinned down by TrackOrder.NumberedNameKey, TrackOrder.UnseparatedIsInfinite and TrackOrder.TemplateNameIsInfinite |
| TrackOrder.Ordered | spotify2cd.py:249 | `sorted(glob("*.wav"), key=get_track_number)`; pinned down by TrackOrder.OrderedSpec and Sorting.SortUnique |
| TrackOrder.Globbed | spotify2cd.py:249 | `glob("*.wav")` keeps exactly the listed names ending in ".wav" |
| TrackOrder.TrackLeTotalPreorder | spotify2cd.py:243-249 | comparing keys, numbers below infinity, is a total preorder |
| TrackOrder.TiedIffSameKey | spotify2cd.py:243-249 | two names tie under the sort exactly when their keys are equal |
| TrackOrder.OrderedSpec | spotify2cd.py:243-249 | the burn order is a permutation of the globbed names, keys never decrease, every unnumbered name follows every numbered one, and tied names keep listing order |
| TrackOrder.UnseparatedIsInfinite | spotify2cd.py:243-247 | a ".wav" name without " - " never parses: key infinity |
| TrackOrder.NumberedNameKey | spotify2cd.py:243-247 | a name "NN - rest" with NN written `:02d` gets key NN |
| TrackOrder.TemplateNameIsInfinite | spotify2cd.py:243-247 | a template name "digits artist - rest" whose artist is non-empty and starts with neither '-' nor whitespace that `int()` strips gets key infinity |
| TrackOrder.SeparatorPrefixKey | spotify2cd.py:243-247 | "\x1c01 - A.wav" gets key infinity: `int()` does not strip U+001C |
| TrackOrder.GlobbedAppend | spotify2cd.py:249 | globbing two parts of a listing globs each in turn |
| TrackOrder.NonWavIgnored | spotify2cd.py:249 | a name not ending in ".wav", wherever it is listed, changes neither the glob nor the burn order |
| TrackOrder.AllUnnumberedKeepListingOrder | spotify2cd.py:249 | when no globbed name is numbered, the burn order is the listing order |
| TrackOrder.AllWavGlobbed | spotify2cd.py:249 | globbing keeps a listing of ".wav" names whole |
| TrackOrder.NoWavGlobbed | spotify2cd.py:249 | a listing with no ".wav" name globs to nothing |
| TrackOrder.TemplateNamesKeepListingOrder | spotify2cd.py:243-249 | "02 B - Song.wav", "01 A - Other.wav", "weird.wav" stay in that order |
| Metadata.ParseStem | spotify2cd.py:261-268 | the performer and title read off a stem; pinned down by Metadata.ParseStemRoundTrip and Metadata.ParseStemFields |
| Metadata.ParseStemRoundTrip | spotify2cd.py:261-268 | with three or more pieces, first piece, performer and title joined by " - " give the stem back |
| Metadata.ParseStemFields | spotify2cd.py:261-268 | the performer never contains " - "; with fewer than three pieces the performer is "Unknown" and the title is the whole stem |
| Metadata.BlockOf | spotify2cd.py:271-275 | a track block is five lines: FILE, TRACK, TITLE, PERFORMER, INDEX |
| Metadata.CueBlock | spotify2cd.py:271-275 | each track block has five lines |
| Metadata.LinesOfBlock | spotify2cd.py:271-275 | a block placed at line k gives, line by line, the FILE, TRACK, TITLE, PERFORMER and INDEX 01 00:00:00 lines |
| Metadata.ConcatFives | spotify2cd.py:257-275 | writing five-line blocks one after another puts block i at lines 5i to 5i+4 |
| Metadata.HeaderThenFives | spotify2cd.py:254-275 | after the two album lines, block i occupies lines 2+5i to 2+5i+4 and the header stays first |
| Metadata.CueLines | spotify2cd.py:254-275 | the cue sheet is the two album lines followed by block i+1 for the i-th file, 2 + 5N lines in all |
| Metadata.CueBlockAt | spotify2cd.py:257-275 | the i-th block names the i-th file, track i+1 as `:02d`, its title and performer, and INDEX 01 00:00:00 |
| Metadata.CueTrackNumbers | spotify2cd.py:257-272 | track numbers run 1..N in burn order whatever the names say, each at least two digits and reading back as i+1 |
| Metadata.EmptyCueSheet | spotify2cd.py:249-255 | a folder with no ".wav" file gets the album lines only |
| Metadata.CueSheet | spotify2cd.py:234-277 | `generate_cue_sheet`: the cue sheet of the folder's ".wav" files in burn order; pinned down by Metadata.BurnOrderOutputs, Metadata.CueLines and Metadata.CueBlockAt |
| Metadata.TracklistLines | spotify2cd.py:295-312 | the tracklist is "Mix for <name>", a rule of exactly 40 dashes, then one line per file in burn order |
| Metadata.Tracklist | spotify2cd.py:279-314 | `generate_tracklist`: the tracklist of the folder's ".wav" files in burn order; pinned down by Metadata.BurnOrderOutputs and Metadata.TracklistLines |
| Metadata.TracklistEntry | spotify2cd.py:299-310 | the tracklist line of one stem; pinned down by Metadata.TracklistEntrySpec |
| Metadata.TracklistEntrySpec | spotify2cd.py:299-310 | a line is the stem with its first " - " replaced by ". " when it has three or more pieces, otherwise the bare stem |
| Metadata.CueAndTracklistAgree | spotify2cd.py:257-312 | over the same burn order, the i-th cue block and the i-th tracklist line describe the same file with the same performer and title |
| Metadata.BurnOrderOutputs | spotify2cd.py:234-314 | for the two listings the script globs, when they glob alike: the i-th file of the burn order is a ".wav" name of both; both give the same burn order; the cue sheet has 2 + 5N lines and its i-th block is that file's block numbered i + 1; the tracklist has 2 + N lines and its i-th entry line is that file's entry |
| Metadata.CueFileIgnored | spotify2cd.py:250-292 | "burn_plan.cue", written between the two globs, changes neither the burn order nor the tracklist, wherever it is listed |
| Download.KeepAlnumLower | spotify2cd.py:140 | `re.sub(r'[^a-z0-9]', '', s)` leaves only a..z and 0..9 and never lengthens |
| Download.KeepAlnumLowerAll | spotify2cd.py:140 | text of only a..z and 0..9 is kept whole |
| Download.Normalise | spotify2cd.py:140-144 | a normalised name holds only a..z and 0..9 |
| Download.NormaliseIdempotent | spotify2cd.py:140-144 | normalising twice is normalising once |
| Download.WarningFor | spotify2cd.py:138-156 | the duration a warning reports for a file, None when it passes; pinned down by Download.WarningIff and Download.WarningIsLastMismatch |
| Download.DurationWarning | spotify2cd.py:138-156 | the check of one normalised name against the metadata; pinned down by Download.WarningIff, Download.NoNameMatchNoWarning and Download.ScanTracks |
| Download.LastCandidateNone | spotify2cd.py:139 | with no name-matching track the candidate duration stays 0 |
| Download.LastCandidateAt | spotify2cd.py:147-152 | the candidate duration is that of the last name-matching track |
| Download.LastAccepted | spotify2cd.py:147-152 | a name-matching track has a last name-matching track at or after it |
| Download.WarningIsLastMismatch | spotify2cd.py:138-156 | a warning reports a positive duration of the last name-matching track, and no name-matching track fits the tolerance |
| Download.NoNameMatchNoWarning | spotify2cd.py:154 | a file no track's name matches is never warned about |
| Download.WarningIff | spotify2cd.py:138-156 | a file is warned about iff no name-matching track is within 10 s and the last name-matching track's duration is positive; the warning reports that duration |
| Download.ToleranceExample | spotify2cd.py:147-156 | the normalised name "01ab" against a 200 s track by A named B: 205 s passes, 215 s warns with 200 s expected |
| Download.FileToleranceExample | spotify2cd.py:138-158 | the file "01 A - B.wav" against a 200 s track by A named B: measured at 215 s it yields the warning (name, 200 s, 215 s); at 205 s none |
| Download.ExampleNameMatches | spotify2cd.py:140-147 | "01ab" matches a track by "A" named "B" |
| Download.ScanTracks | spotify2cd.py:138-156 | the inner loop with its `break` computes the specified warning |
| Download.CheckFile | spotify2cd.py:140-156 | checking one file computes its specified warning |
| Download.FileWarnings | spotify2cd.py:133-158 | one file yields at most one warning |
| Download.FileWarningsSpec | spotify2cd.py:133-158 | a file yields a warning exactly when it decodes and its check warns, and then that warning holds its name, the expected and the measured duration |
| Download.Warnings | spotify2cd.py:133-158 | the warnings of the counted files in file order; pinned down by Download.WarningsSpec, Download.WarningsComplete and Download.VerifyDurations |
| Download.WarningsSpec | spotify2cd.py:133-158 | no more warnings than files; each warning names a decoded file of the list, reports its measured duration and the expected duration the check gives for it |
| Download.WarningsComplete | spotify2cd.py:133-158 | every file that decodes and whose check warns has its warning among the warnings |
| Download.WarningOfIn | spotify2cd.py:133-158 | the warning of file i, when it warns, is among the warnings of the list |
| Download.WarningsPrefixOf | spotify2cd.py:133 | the warnings of the first n files begin the warnings of the list |
| Download.VerifyDurations | spotify2cd.py:133-158 | the loop over the counted files returns every file's warnings in file order |
| Download.Downloaded | spotify2cd.py:127 | a file is counted exactly when its lower-cased suffix is an audio suffix, ".wav" included |
| Download.AttemptStep | spotify2cd.py:119-175 | what one run leads to: a failed process retries, another exception fails, a completed run succeeds with no metadata or enough files and otherwise retries; pinned down by Download.DownloadOkIff and Download.DownloadFailure |
| Download.RunFrom | spotify2cd.py:119-178 | the runs from number k on; pinned down by Download.RunFromSpec, Download.RunFromOkIff and Download.RunFromAgree |
| Download.Download | spotify2cd.py:119-178 | the whole retry loop from the first run; pinned down by Download.DownloadOkIff and Download.DownloadFailure |
| Download.RunFromSpec | spotify2cd.py:119-178 | the attempts stop at a run within 3; every earlier run retried; that run decided, or it was the third and retried, which fails |
| Download.RunFromOkIff | spotify2cd.py:119-178 | the attempts succeed iff some run stops with success after every earlier run retried |
| Download.RunFromAgree | spotify2cd.py:119-178 | attempts that retry at the same runs and stop with the same verdicts end alike |
| Download.DownloadOkIff | spotify2cd.py:119-178 | the downloader runs one to three times; the download succeeds iff some run succeeds (no metadata, or enough files) after every earlier run failed or undercounted |
| Download.DownloadFailure | spotify2cd.py:168-178 | a failed download met another exception, which ends it at once, or ran three times |
| Download.ThreeProcessFailures | spotify2cd.py:168-178 | three failed processes fail the download after three runs |
| Download.DownloadedByName | spotify2cd.py:127-128 | only names count towards the number of downloaded files |
| Download.DurationsDoNotDecide | spotify2cd.py:130-159 | measured durations never change the verdict or the number of runs |
| Download.DownloadPlaylist | spotify2cd.py:116-178 | the retry loop returns the specified verdict and number of runs, and the warnings of the files checked |
| Convert.SafeStem | spotify2cd.py:217-219 | NFKD, ASCII with 'ignore', quotes removed, stripped; pinned down by Convert.SafeStemShape, Convert.SafeStemClean and Convert.SafeStemIdempotent |
| Convert.AsciiOnly | spotify2cd.py:218 | encoding to ASCII with 'ignore' leaves only ASCII, adds no character, and keeps ASCII text as it is |
| Convert.SafeStemShape | spotify2cd.py:217-219 | a safe stem is ASCII, holds no '"' and has no surrounding whitespace |
| Convert.SafeStemClean | spotify2cd.py:217-219 | a stem that is already ASCII, quote-free and stripped is kept |
| Convert.SafeStemIdempotent | spotify2cd.py:217-219 | sanitising twice is sanitising once |
| Convert.WavName | spotify2cd.py:221 | `with_name(safe).with_suffix(".wav")`, None where it raises; pinned down by Convert.WavNameSpec |
| Convert.Target | spotify2cd.py:217-221 | the ".wav" name a file is converted to; pinned down by Convert.WavNameSpec, Convert.EmptySafeStemFails and Convert.InnerDotTarget |
| Convert.WavNameSpec | spotify2cd.py:221 | a target exists exactly when the safe stem is a valid name; it is the safe stem less its suffix followed by ".wav" |
| Convert.EmptySafeStemFails | spotify2cd.py:221 | a stem that sanitises to nothing makes `with_name` raise: no target |
| Convert.ExampleStem | spotify2cd.py:217 | the stem of "01 Mr. Brightside.mp3" is "01 Mr. Brightside" |
| Convert.ExampleSafeStem | spotify2cd.py:218-219 | "01 Mr. Brightside" is already safe |
| Convert.ExampleWavName | spotify2cd.py:221 | the ".wav" name of "01 Mr. Brightside" is "01 Mr.wav" |
| Convert.InnerDotTarget | spotify2cd.py:217-221 | "01 Mr. Brightside.mp3" is converted to "01 Mr.wav" |
| Convert.ConvertOne | spotify2cd.py:192-230 | one loop turn on the folder; pinned down by Convert.RunFactsSkip, Convert.RunFactsConvert and Convert.Folder.ConvertEntry |
| Convert.Run | spotify2cd.py:191-230 | the loop over the sorted listing; pinned down by Convert.RunSpec, Convert.ConvertedBound and Convert.NothingToConvert |
| Convert.TurnSeesInitialFolder | spotify2cd.py:191-226 | a name not yet visited converts exactly when the initial folder lets it |
| Convert.RunFactsSkip | spotify2cd.py:229-230 | a turn that converts nothing keeps every loop fact |
| Convert.RunFactsConvert | spotify2cd.py:221-226 | a converting turn keeps every loop fact |
| Convert.RunSpec | spotify2cd.py:191-230 | over distinct names the loop returns the targets of the converted files in order; they are then regular files; converted files are gone; directories and all else are kept; nothing else appears |
| Convert.ConvertedBound | spotify2cd.py:191-226 | at most one ".wav" name per eligible file, and no more than the names listed |
| Convert.NothingToConvert | spotify2cd.py:191-192 | a folder with no eligible file is left as it is, and nothing is returned |
| Convert.WavNotSupported | spotify2cd.py:188 | ".wav", lower-cased, is not a supported suffix |
| Convert.WavSuffixUnsupported | spotify2cd.py:192 | a name with suffix ".wav" is never converted |
| Convert.WavNameUnsupported | spotify2cd.py:192-221 | no target name is itself convertible |
| Convert.PlainTarget | spotify2cd.py:217-221 | a clean dot-free base name with a dot and an extension is converted to the base name followed by ".wav" |
| Convert.Mp3Suffix | spotify2cd.py:192 | a dot-free base name followed by ".mp3" has the suffix ".mp3" |
| Convert.Mp3Supported | spotify2cd.py:188-192 | a name with suffix ".mp3" is converted |
| Convert.TurnOverwrites | spotify2cd.py:221-226 | a file converted to the name of a regular file already there overwrites it: only the converted file leaves the folder, and that name is returned |
| Convert.ExistingWavOverwritten | spotify2cd.py:188-226 | beside "base.wav", "base.mp3" is converted to "base.wav", which it overwrites and returns |
| Convert.ScriptRulesSpec | spotify2cd.py:188-193 | no target is convertible, and no supported name has suffix ".wav", so the rename branch is dead |
| Convert.Listing | spotify2cd.py:191 | `sorted(Path(folder).iterdir())`; pinned down by Convert.ListingSpec |
| Convert.StrLeTotalOrder | spotify2cd.py:191 | Python's string order is a total order |
| Convert.ListingSpec | spotify2cd.py:191 | `sorted(iterdir())` holds each name once, in string order, whatever order the system lists them in |
| Convert.Folder.constructor | spotify2cd.py:187 | a folder starts with the given entries |
| Convert.Folder.ConvertEntry | spotify2cd.py:192-230 | one loop turn changes the folder and returns names as the specified turn does |
| Convert.Folder.ConvertToWav | spotify2cd.py:187-232 | the method leaves the folder and returns the names the specified loop gives on the sorted listing |
| Convert.ConvertToWavSpec | spotify2cd.py:187-232 | the returned names are the converted files' targets, in sorted order, at most one per eligible file, each present; converted files are gone; every other entry is kept |
| Limits.TotalSeconds | spotify2cd.py:51 | `sum(track.get("duration", 0) for track in data)`; pinned down by Limits.TotalSecondsAppend and Limits.TotalSecondsNonNegative |
| Limits.PlaylistSeconds | spotify2cd.py:27-55 | the total of the fetched metadata, None when the fetch failed; pinned down by Limits.PlaylistWarning |
| Limits.TotalSecondsAppend | spotify2cd.py:51 | the total of two lists of tracks is the sum of their totals |
| Limits.TotalSecondsNonNegative | spotify2cd.py:51 | with no negative duration the total is never negative |
| Limits.ExceedsCapacity | spotify2cd.py:70-73 | the capacity warning on a total; pinned down by Limits.ExceedsCapacityIff |
| Limits.ExceedsCapacityIff | spotify2cd.py:70-73 | the warning is given exactly when a total is known and exceeds 4800 s; a zero total only skips the test |
| Limits.PlaylistWarning | spotify2cd.py:27-73 | a playlist is warned about exactly when its metadata was fetched and its durations, a missing one counting 0, add up to more than 4800 s |
| Limits.SpeedArgs | spotify2cd.py:333-334 | `["--speed", speed]` unless the speed text equals "max"; pinned down by Limits.SpeedArgsNeverEmpty, Limits.DefaultSpeed and Limits.MaxSpeed |
| Limits.SpeedArgsNeverEmpty | spotify2cd.py:333-334 | the speed arguments are always `--speed` and the speed text |
| Limits.DefaultSpeed | spotify2cd.py:21 | the configured "8x" gives `--speed 8` |
| Limits.MaxSpeed | spotify2cd.py:333-334 | "MAX" gives `--speed ma` |
| Limits.IntendedSpeedArgs | spotify2cd.py:333-334 | the speed arguments with "max" compared before the x is deleted; pinned down by Limits.IntendedSpeedArgsSpec and Limits.IntendedMaxSpeed |
| Limits.IntendedSpeedArgsSpec | spotify2cd.py:333-334 | the intended arguments are empty exactly for "max", in any case, and otherwise equal the script's |
| Limits.IntendedMaxSpeed | spotify2cd.py:333-334 | with the intended rule, "MAX" gets no speed argument |

## Findings

| source | as written | input that shows it | evidently intended | confidence | as-written member | corrected member |
|---|---|---|---|---|---|---|
| spotify2cd.py:333-334 | `BURN_SPEED.lower().replace("x", "")` deletes the x of "max" before the comparison with "max", so the comparison never holds | `BURN_SPEED = "MAX"` (offered by the comment at line 19) gives `--speed ma` | "MAX" burns at full speed with no `--speed` argument | high; derived from the code, not executed | Limits.MaxSpeed | Limits.IntendedMaxSpeed |

## Left out

- All external processes are outside the model: spotdl (`save` and download), cdrdao and ImgBurn. Their command lines are not modelled either. A download attempt's outcome is the oracle `attempt(k)`.
- pydub decoding, resampling, `duration_seconds` and `export` are outside the model. Durations are given `real` values; a file whose decoding raises has none. Whether a conversion succeeds is the oracle `converts(name)`.
- Convert.Folder.ConvertToWav: a failure after `export` has written the target, such as `os.remove` raising, is not modelled. The model treats each turn as all or nothing.
- Unicode NFKD is not modelled. It is a parameter, assumed only to leave ASCII text unchanged.
- Text.Lower: exact for ASCII, U+0130 and U+212A, the characters whose lower-case form holds ASCII. Other characters are kept, which changes no ASCII character the script later inspects.
- PyInt.ParseInt: accepts ASCII digits only. The other Unicode decimal digits that `int()` also accepts are left out.
- Download.TrackMeta: `str()` of a non-string artist, such as a list, is not modelled. Artists and names are strings, and a missing duration is 0.
- JSON loading of the metadata file is not modelled. Neither are the temporary files, `mkdir`, the `time.sleep(2)` back-off, `print` output, prompts (`get_jobs`, `main`), date-based folder names and platform detection.
- The order of `iterdir` and `glob` listings is not modelled. It is an input: `osOrder` for the conversion, `cueListing` and `listListing` for the two metadata writers.
- Metadata.BurnOrderOutputs: the script globs the folder twice, at line 249 for the cue sheet and again at line 292 in `generate_tracklist`, after `burn_plan.cue` is written. The agreement of the two files is proved only when the two listings glob to the same names in the same order; another process changing the folder in between, or the system listing it in another order, is not modelled. The cue file itself is harmless (`Metadata.CueFileIgnored`).
- TrackOrder.Globbed: a directory whose name ends in ".wav" is treated like a file. The metadata writers only read names.
- Writing `burn_plan.cue` and `tracklist.txt` is not modelled. The model gives the lines each would hold, each written followed by a newline.
- Limits.TotalSeconds: durations are summed as exact reals, not as floating-point numbers.
- Path handling follows POSIX rules. On Windows, where the script burns with ImgBurn, `glob` and `sorted` on paths compare names case-insensitively and `with_name` also rejects `\`; that platform is not modelled.
