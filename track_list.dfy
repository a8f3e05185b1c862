/** The album view of the web frontend: the total running time shown in the header, the song
    count, and the numbered rows with the playing mark. */
module TrackList {
  import opened Wrappers
  import opened Seqs
  import opened Text
  import Server

  /** A part `parseInt` (without a radix) reads as a non-negative decimal count: it yields a
      number, not `NaN`, the number is not negative, and no `0x` prefix switches to hexadecimal.
      Text after the leading digits is ignored, as `parseInt` ignores it. */
  predicate ReadsAsCount(part: string)
  {
    ParseInt(part).Some? && ParseInt(part).value >= 0 && !HexPrefixed(part)
  }

  /** A `duration` string the view can read: at least one colon, and both the part before the
      first colon and the part after it read as counts (anything after a second colon is
      ignored, as the destructuring does). */
  predicate WellFormedDuration(d: string)
  {
    var parts := Split(d, ':');
    |parts| >= 2 && ReadsAsCount(parts[0]) && ReadsAsCount(parts[1])
  }

  /** `parseInt` ignores what follows the digits: `3:07x` reads as 3 minutes 7 seconds. */
  lemma {:induction false} TrailingTextIgnored(m: string, sec: string, tail: string)
    requires m != [] && IsDigits(m) && |sec| >= 2 && IsDigits(sec)
    requires ':' !in tail && (tail == [] || !IsDigit(tail[0]))
    ensures WellFormedDuration(m + ":" + (sec + tail))
    ensures DurationSeconds(m + ":" + (sec + tail)) == ParseNat(m) * 60 + ParseNat(sec)
  {
    var t := sec + tail;
    DigitsHaveNo(m, ':');
    DigitsHaveNo(sec, ':');
    SplitTwo(m, ':', t);
    ParseIntDigits(m);
    DigitsNotHex(m);
    ParseIntDigitsThen(sec, tail);
    DigitsThenNotHex(sec, tail);
    assert ReadsAsCount(m) && ReadsAsCount(t);
  }

  predicate AllWellFormed(durations: seq<string>)
  {
    forall i :: 0 <= i < |durations| ==> WellFormedDuration(durations[i])
  }

  /** `parseInt(minutes) * 60 + parseInt(seconds)` for one track (0 for a string outside
      `WellFormedDuration`, which the callers below exclude). */
  function DurationSeconds(d: string): nat
  {
    var parts := Split(d, ':');
    if WellFormedDuration(d) then ParseInt(parts[0]).value * 60 + ParseInt(parts[1]).value else 0
  }

  /** The `reduce` over the tracks' durations. */
  function TotalSeconds(durations: seq<string>): nat
  {
    Reduce(0, durations, DurationSeconds)
  }

  /** The total does not depend on the order of the tracks. */
  lemma TotalOrderIndependent(a: seq<string>, b: seq<string>)
    requires multiset(a) == multiset(b)
    ensures TotalSeconds(a) == TotalSeconds(b)
  {
    ReduceIsSum(0, a, DurationSeconds);
    ReduceIsSum(0, b, DurationSeconds);
    SumOfPermutation(a, b, DurationSeconds);
  }

  /** Adding a track adds its duration. */
  lemma TotalOfAppend(a: seq<string>, b: seq<string>)
    ensures TotalSeconds(a + b) == TotalSeconds(a) + TotalSeconds(b)
  {
    ReduceIsSum(0, a, DurationSeconds);
    ReduceIsSum(0, b, DurationSeconds);
    ReduceIsSum(0, a + b, DurationSeconds);
    SumOfAppend(a, b, DurationSeconds);
  }

  /** `Math.floor(total / 3600)`, `Math.floor((total % 3600) / 60)` and `total % 60`. */
  function Breakdown(total: nat): (r: (nat, nat, nat))
    ensures r.0 * 3600 + r.1 * 60 + r.2 == total
    ensures r.1 < 60 && r.2 < 60
  {
    (total / 3600, (total % 3600) / 60, total % 60)
  }

  /** The template `${first} ${unit1} ${second} ${unit2}` both branches fill. */
  function Phrase(first: nat, unit1: string, second: nat, unit2: string): string
  {
    NatToString(first) + " " + unit1 + " " + NatToString(second) + " " + unit2
  }

  /** The header text for a total number of seconds. */
  function FormatTotal(total: nat): string
  {
    var (hours, minutes, seconds) := Breakdown(total);
    if hours > 0 then Phrase(hours, "hr", minutes, "min")
    else Phrase(minutes, "min", seconds, "sec")
  }

  /** `calculateTotalDuration(tracks)`, given the tracks' `duration` strings in list order. */
  function CalculateTotalDuration(durations: seq<string>): string
    requires AllWellFormed(durations)
  {
    FormatTotal(TotalSeconds(durations))
  }

  lemma Rebracket(a: string, u1: string, b: string, u2: string)
    ensures a + " " + u1 + " " + b + " " + u2 == a + [' '] + (u1 + [' '] + (b + [' '] + u2))
  {
  }

  /** Four words with single spaces between them split back into those words. */
  lemma FourWords(a: string, u1: string, b: string, u2: string)
    requires ' ' !in a && ' ' !in u1 && ' ' !in b && ' ' !in u2
    ensures Split(a + [' '] + (u1 + [' '] + (b + [' '] + u2)), ' ') == [a, u1, b, u2]
  {
    var r3 := b + [' '] + u2;
    var r2 := u1 + [' '] + r3;
    SplitTwo(b, ' ', u2);
    SplitCons(u1, ' ', r3);
    PrependTwo(u1, b, u2);
    SplitCons(a, ' ', r2);
    PrependThree(a, u1, b, u2);
  }

  /** A filled template splits back into its two numbers and two units, and the numbers
      parse back to the values. */
  lemma PhraseReadsBack(first: nat, unit1: string, second: nat, unit2: string)
    requires ' ' !in unit1 && ' ' !in unit2
    ensures var words := Split(Phrase(first, unit1, second, unit2), ' ');
      && words == [NatToString(first), unit1, NatToString(second), unit2]
      && IsDigits(words[0]) && IsDigits(words[2])
      && ParseNat(words[0]) == first && ParseNat(words[2]) == second
  {
    var a, b := NatToString(first), NatToString(second);
    DigitsHaveNo(a, ' ');
    DigitsHaveNo(b, ' ');
    Rebracket(a, unit1, b, unit2);
    FourWords(a, unit1, b, unit2);
    ParseNatToString(first);
    ParseNatToString(second);
  }

  /** Under an hour the header reads `M min S sec` and gives the total back exactly. */
  lemma ShortTotalReadsBack(total: nat)
    requires total < 3600
    ensures var words := Split(FormatTotal(total), ' ');
      && |words| == 4 && words[1] == "min" && words[3] == "sec"
      && IsDigits(words[0]) && IsDigits(words[2])
      && ParseNat(words[0]) * 60 + ParseNat(words[2]) == total
  {
    var (hours, minutes, seconds) := Breakdown(total);
    assert hours == 0;
    assert FormatTotal(total) == Phrase(minutes, "min", seconds, "sec");
    PhraseReadsBack(minutes, "min", seconds, "sec");
  }

  /** From an hour on the header reads `H hr M min`: the seconds are dropped, so it gives the
      total rounded down to the minute. */
  lemma LongTotalReadsBack(total: nat)
    requires total >= 3600
    ensures var words := Split(FormatTotal(total), ' ');
      && |words| == 4 && words[1] == "hr" && words[3] == "min"
      && IsDigits(words[0]) && IsDigits(words[2])
      && ParseNat(words[0]) >= 1
      && var shown := ParseNat(words[0]) * 3600 + ParseNat(words[2]) * 60;
         shown <= total < shown + 60
  {
    var (hours, minutes, seconds) := Breakdown(total);
    assert hours >= 1;
    assert FormatTotal(total) == Phrase(hours, "hr", minutes, "min");
    PhraseReadsBack(hours, "hr", minutes, "min");
  }

  lemma EmptyListTotal()
    ensures CalculateTotalDuration([]) == "0 min 0 sec"
  {
    assert NatToString(0) == "0";
  }

  /** Every `m:ss` string the server produces is one the view can read, and reads back as the
      whole seconds it came from. */
  lemma FormattedDurationReadsBack(seconds: nat)
    ensures WellFormedDuration(Server.FormatDuration(seconds))
    ensures DurationSeconds(Server.FormatDuration(seconds)) == seconds
  {
    var parts := Split(Server.FormatDuration(seconds), ':');
    ParseIntDigits(parts[0]);
    ParseIntDigits(parts[1]);
    DigitsNotHex(parts[0]);
    DigitsNotHex(parts[1]);
  }

  /** The view's total over the server's `m:ss` strings is the sum of the floored durations. */
  lemma {:induction false} TotalOverServerDurations(seconds: seq<nat>)
    ensures var durations := seq(|seconds|, i requires 0 <= i < |seconds| => Server.FormatDuration(seconds[i]));
      AllWellFormed(durations) && TotalSeconds(durations) == SumOf(seconds, n => n)
  {
    var durations := seq(|seconds|, i requires 0 <= i < |seconds| => Server.FormatDuration(seconds[i]));
    forall i | 0 <= i < |seconds| ensures WellFormedDuration(durations[i]) {
      FormattedDurationReadsBack(seconds[i]);
    }
    ReduceIsSum(0, durations, DurationSeconds);
    SumOfFormatted(seconds);
  }

  lemma SumOfFormatted(seconds: seq<nat>)
    ensures var durations := seq(|seconds|, i requires 0 <= i < |seconds| => Server.FormatDuration(seconds[i]));
      SumOf(durations, DurationSeconds) == SumOf(seconds, n => n)
  {
    var durations := seq(|seconds|, i requires 0 <= i < |seconds| => Server.FormatDuration(seconds[i]));
    forall i | 0 <= i < |seconds|
      ensures DurationSeconds(durations[i]) == (n => n)(seconds[i])
    {
      FormattedDurationReadsBack(seconds[i]);
    }
    SumOfPointwise(durations, DurationSeconds, seconds, n => n);
  }

  /** The `N songs` label. */
  function SongCount(tracks: seq<Server.TrackRecord>): (r: string)
    ensures |r| > 6 && IsDigits(r[..|r| - 6]) && r[|r| - 6..] == " songs"
    ensures ParseNat(r[..|r| - 6]) == |tracks|
  {
    var count := NatToString(|tracks|);
    ParseNatToString(|tracks|);
    assert (count + " songs")[..|count|] == count;
    count + " songs"
  }

  /** One rendered row: its shown number, the track, and whether it carries the pause icon
      and the `playing` class. */
  datatype Row = Row(number: nat, track: Server.TrackRecord, playing: bool)

  /** The rows, one per track in list order; `currentId` is the id of `currentTrack`, absent
      when no track is current. */
  function Rows(tracks: seq<Server.TrackRecord>, currentId: Option<string>): (r: seq<Row>)
    ensures |r| == |tracks|
    ensures forall i :: 0 <= i < |r| ==> r[i].track == tracks[i] && r[i].number == i + 1
    ensures forall i :: 0 <= i < |r| ==> (r[i].playing <==> currentId == Some(tracks[i].id))
  {
    seq(|tracks|, i requires 0 <= i < |tracks| => Row(i + 1, tracks[i], currentId == Some(tracks[i].id)))
  }

  /** With distinct ids (the server uses the filename as id), at most one row is playing, and
      it is the row of the current track. */
  lemma OnePlayingRow(tracks: seq<Server.TrackRecord>, currentId: Option<string>, i: nat, j: nat)
    requires forall p, q :: 0 <= p < q < |tracks| ==> tracks[p].id != tracks[q].id
    requires i < |tracks| && j < |tracks|
    requires Rows(tracks, currentId)[i].playing && Rows(tracks, currentId)[j].playing
    ensures i == j && currentId == Some(tracks[i].id)
  {
  }
}
