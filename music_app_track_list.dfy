/** The older album view of the separate music app, which carries its own copy of the
    total-duration computation. */
module MusicAppTrackList {
  import opened Seqs
  import opened Text
  import TrackList

  /** `calculateTotalDuration(tracks)` as the music app writes it: one `reduce` over the
      `m:ss` strings, then hours, minutes and seconds of the total. */
  function CalculateTotalDuration(durations: seq<string>): (r: string)
    requires TrackList.AllWellFormed(durations)
  {
    var totalSeconds := Reduce(0, durations, TrackList.DurationSeconds);
    var hours := totalSeconds / 3600;
    var minutes := (totalSeconds % 3600) / 60;
    var seconds := totalSeconds % 60;
    if hours > 0 then TrackList.Phrase(hours, "hr", minutes, "min")
    else TrackList.Phrase(minutes, "min", seconds, "sec")
  }

  /** The copy agrees with the frontend's on every input, so every property proved there
      holds here too. */
  lemma SameAsFrontend(durations: seq<string>)
    requires TrackList.AllWellFormed(durations)
    ensures CalculateTotalDuration(durations) == TrackList.CalculateTotalDuration(durations)
  {
  }

  /** Its text under an hour reads back as the exact sum of the track durations, whatever the
      order of the tracks. */
  lemma ShortTotalIsSum(durations: seq<string>)
    requires TrackList.AllWellFormed(durations)
    requires SumOf(durations, TrackList.DurationSeconds) < 3600
    ensures var words := Split(CalculateTotalDuration(durations), ' ');
      && |words| == 4 && words[1] == "min" && words[3] == "sec"
      && IsDigits(words[0]) && IsDigits(words[2])
      && ParseNat(words[0]) * 60 + ParseNat(words[2]) == SumOf(durations, TrackList.DurationSeconds)
  {
    var total := SumOf(durations, TrackList.DurationSeconds);
    SameAsFrontend(durations);
    assert TrackList.TotalSeconds(durations) == total by {
      ReduceIsSum(0, durations, TrackList.DurationSeconds);
    }
    TrackList.ShortTotalReadsBack(total);
  }

  lemma EmptyListTotal()
    ensures CalculateTotalDuration([]) == "0 min 0 sec"
  {
    SameAsFrontend([]);
    TrackList.EmptyListTotal();
  }
}
