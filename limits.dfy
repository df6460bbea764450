/** Two small decisions around the workflow: whether a playlist is too long for a CD
    (`check_playlist_duration` and the test in `get_jobs`) and the speed arguments
    passed to cdrdao (`burn_disc` on macOS). */
module Limits {
  import opened Wrappers
  import opened Text

  /** The playing time of a standard CD, in minutes. */
  const CdMinutes: real := 80.0

  /** The total of the tracks' durations in seconds, a track without one counting 0. */
  function TotalSeconds(durations: seq<Option<real>>): real {
    if durations == [] then 0.0
    else TotalSeconds(durations[..|durations| - 1]) + Seconds(durations[|durations| - 1])
  }

  /** `track.get('duration', 0)`. */
  function Seconds(duration: Option<real>): real {
    match duration
    case Some(d) => d
    case None => 0.0
  }

  /** The total of a list of tracks is the totals of its parts added up. */
  lemma {:induction false} TotalSecondsAppend(a: seq<Option<real>>, b: seq<Option<real>>)
    ensures TotalSeconds(a + b) == TotalSeconds(a) + TotalSeconds(b)
    decreases |b|
  {
    if b != [] {
      TotalSecondsAppend(a, b[..|b| - 1]);
      assert (a + b)[..|a + b| - 1] == a + b[..|b| - 1];
    } else {
      assert a + b == a;
    }
  }

  /** With no negative duration the total is never negative. */
  lemma {:induction false} TotalSecondsNonNegative(durations: seq<Option<real>>)
    requires forall i :: 0 <= i < |durations| && durations[i].Some? ==> durations[i].value >= 0.0
    ensures TotalSeconds(durations) >= 0.0
  {
    if durations != [] {
      TotalSecondsNonNegative(durations[..|durations| - 1]);
    }
  }

  /** `check_playlist_duration`: the total, or None when fetching the metadata failed. */
  function PlaylistSeconds(fetched: Option<seq<Option<real>>>): Option<real> {
    match fetched
    case None => None
    case Some(durations) => Some(TotalSeconds(durations))
  }

  /** The capacity warning: a missing or zero total skips the test; otherwise the total,
      in minutes, must exceed the capacity of a CD. */
  predicate ExceedsCapacity(total: Option<real>) {
    total.Some? && total.value != 0.0 && total.value / 60.0 > CdMinutes
  }

  /** The warning is given exactly when the total is known and above 4800 seconds; the
      test of a zero total changes nothing. */
  lemma ExceedsCapacityIff(total: Option<real>)
    ensures ExceedsCapacity(total) <==> total.Some? && total.value > 4800.0
  {
  }

  /** The playlist warning: given exactly when the metadata was fetched and its
      durations, a missing one counting 0, add up to more than 4800 seconds. */
  lemma PlaylistWarning(fetched: Option<seq<Option<real>>>)
    ensures ExceedsCapacity(PlaylistSeconds(fetched)) <==>
      fetched.Some? && TotalSeconds(fetched.value) > 4800.0
  {
    ExceedsCapacityIff(PlaylistSeconds(fetched));
  }

  /** The speed text cdrdao is given: the configured speed lower-cased with every 'x'
      deleted. */
  function Speed(burnSpeed: string): string {
    Without(Lower(burnSpeed), 'x')
  }

  /** The speed arguments: none for "max", otherwise `--speed` and the speed text. */
  function SpeedArgs(burnSpeed: string): seq<string> {
    var speed := Speed(burnSpeed);
    if speed == "max" then [] else ["--speed", speed]
  }

  /** "max" holds an 'x', which `Speed` always deletes: the speed arguments are never
      empty, "MAX" included, for which cdrdao is given the speed "ma". */
  lemma SpeedArgsNeverEmpty(burnSpeed: string)
    ensures SpeedArgs(burnSpeed) == ["--speed", Speed(burnSpeed)]
  {
    assert "max"[2] == 'x';
    assert Speed(burnSpeed) != "max";
  }

  /** The configured "8x" gives the speed "8". */
  lemma DefaultSpeed()
    ensures SpeedArgs("8x") == ["--speed", "8"]
  {
    assert Lower("8x") == "8x" by {
      LowerUnchanged("8x");
    }
    assert "8x"[1..] == "x" && "x"[1..] == [];
    assert Without("8x", 'x') == "8";
    SpeedArgsNeverEmpty("8x");
  }

  lemma LowerMax()
    ensures Lower("MAX") == "max"
  {
    assert "MAX"[1..] == "AX" && "AX"[1..] == "X" && "X"[1..] == [];
  }

  lemma WithoutX()
    ensures Without("max", 'x') == "ma"
  {
    assert "max"[1..] == "ax" && "ax"[1..] == "x" && "x"[1..] == [];
  }

  /** "MAX" gives the speed "ma". */
  lemma MaxSpeed()
    ensures SpeedArgs("MAX") == ["--speed", "ma"]
  {
    LowerMax();
    WithoutX();
    SpeedArgsNeverEmpty("MAX");
  }

  /** The speed arguments as the comment beside the speed setting describes them: "MAX"
      (in any case) burns at the drive's maximum, with no `--speed`; any other setting
      passes its number. */
  function IntendedSpeedArgs(burnSpeed: string): seq<string> {
    if Lower(burnSpeed) == "max" then [] else ["--speed", Speed(burnSpeed)]
  }

  /** The intended arguments are empty exactly for "max" in any case, and otherwise are
      those the script passes. */
  lemma IntendedSpeedArgsSpec(burnSpeed: string)
    ensures IntendedSpeedArgs(burnSpeed) == [] <==> Lower(burnSpeed) == "max"
    ensures Lower(burnSpeed) != "max" ==> IntendedSpeedArgs(burnSpeed) == SpeedArgs(burnSpeed)
  {
    SpeedArgsNeverEmpty(burnSpeed);
  }

  /** "MAX" is given no speed argument. */
  lemma IntendedMaxSpeed()
    ensures IntendedSpeedArgs("MAX") == []
  {
    LowerMax();
  }
}
