/** The track picker of the stem mixer page: which tracks are offered for mixing, and the
    stem count shown on each button. */
module StemMixerView {
  import opened Wrappers
  import opened Seqs
  import opened TrackTree

  /** `subtrack?.filename`: a non-null subtrack with a filename is a stem. */
  predicate IsStem(e: Option<Track>)
  {
    e.Some? && HasFilename(e.value)
  }

  /** `track.subtracks.filter(s => s?.filename).length`. */
  function StemCount(t: Track): nat
  {
    |Filter(Children(t), IsStem)|
  }

  /** `track?.subtracks?.some(subtrack => subtrack?.filename)`. */
  predicate HasStems(e: Option<Track>)
  {
    e.Some? && e.value.subtracks.Present? && exists i :: 0 <= i < |Children(e.value)| && IsStem(Children(e.value)[i])
  }

  /** Offering a track and showing at least one stem on its button are the same: the `some`
      test agrees with the count. */
  lemma HasStemsIffCount(t: Track)
    ensures HasStems(Some(t)) <==> StemCount(t) >= 1
  {
    var subs := Children(t);
    if HasStems(Some(t)) {
      var i :| 0 <= i < |subs| && IsStem(subs[i]);
      assert subs[i] in subs;
      FilterMember(subs, IsStem, subs[i]);
    }
    if StemCount(t) >= 1 {
      var f := Filter(subs, IsStem);
      assert f[0] in f;
      FilterMember(subs, IsStem, f[0]);
      var i :| 0 <= i < |subs| && subs[i] == f[0];
    }
  }

  /** `{ ...track, section }`. */
  datatype TrackWithSection = TrackWithSection(track: Track, section: string)

  /** The tracks of one section that get a button, in list order. */
  function SectionStems(section: string, tracks: seq<Option<Track>>): seq<TrackWithSection>
  {
    if tracks == [] then []
    else
      var e := tracks[|tracks| - 1];
      SectionStems(section, tracks[..|tracks| - 1])
        + (if HasStems(e) then [TrackWithSection(e.value, section)] else [])
  }

  /** The buttons of every section in `Object.entries` order. */
  function AllStems(entries: seq<(string, seq<Option<Track>>)>): seq<TrackWithSection>
  {
    if entries == [] then []
    else
      var (section, tracks) := entries[|entries| - 1];
      AllStems(entries[..|entries| - 1]) + SectionStems(section, tracks)
  }

  /** `getTracksWithStems()`: `entries` is `Object.entries(trackList)`, absent while the
      track list has not loaded. */
  method GetTracksWithStems(entries: Option<seq<(string, seq<Option<Track>>)>>) returns (tracksWithStems: seq<TrackWithSection>)
    ensures entries.None? ==> tracksWithStems == []
    ensures entries.Some? ==> tracksWithStems == AllStems(entries.value)
  {
    if entries.None? {
      return [];
    }
    var es := entries.value;
    tracksWithStems := [];
    for k := 0 to |es|
      invariant tracksWithStems == AllStems(es[..k])
    {
      var (section, tracks) := es[k];
      ghost var before := tracksWithStems;
      for j := 0 to |tracks|
        invariant tracksWithStems == before + SectionStems(section, tracks[..j])
      {
        var track := tracks[j];
        if HasStems(track) {
          tracksWithStems := tracksWithStems + [TrackWithSection(track.value, section)];
        }
        assert tracks[..j + 1][..j] == tracks[..j];
      }
      assert tracks[..|tracks|] == tracks;
      assert es[..k + 1][..k] == es[..k];
    }
    assert es[..|es|] == es;
  }

  /** A button of a section is exactly a top-level track of that section with a stem,
      carrying the section name. */
  lemma {:induction false} SectionStemsMember(section: string, tracks: seq<Option<Track>>, x: TrackWithSection)
    ensures x in SectionStems(section, tracks) <==>
      x.section == section && Some(x.track) in tracks && HasStems(Some(x.track))
  {
    if tracks != [] {
      var n := |tracks|;
      SectionStemsMember(section, tracks[..n - 1], x);
      assert tracks == tracks[..n - 1] + [tracks[n - 1]];
    }
  }

  /** Over all sections: a listed track comes from the top level of some section and has a
      stem, and every such track is listed. */
  lemma {:induction false} AllStemsMember(entries: seq<(string, seq<Option<Track>>)>, x: TrackWithSection)
    ensures x in AllStems(entries) <==>
      exists k :: 0 <= k < |entries| && x.section == entries[k].0 && Some(x.track) in entries[k].1 && HasStems(Some(x.track))
  {
    if entries != [] {
      var n := |entries|;
      AllStemsMember(entries[..n - 1], x);
      SectionStemsMember(entries[n - 1].0, entries[n - 1].1, x);
      if x in AllStems(entries[..n - 1]) {
        var k :| 0 <= k < n - 1 && x.section == entries[..n - 1][k].0 && Some(x.track) in entries[..n - 1][k].1 && HasStems(Some(x.track));
        assert entries[k] == entries[..n - 1][k];
      }
      if exists k :: 0 <= k < n && x.section == entries[k].0 && Some(x.track) in entries[k].1 && HasStems(Some(x.track)) {
        var k :| 0 <= k < n && x.section == entries[k].0 && Some(x.track) in entries[k].1 && HasStems(Some(x.track));
        if k < n - 1 {
          assert entries[..n - 1][k] == entries[k];
        }
      }
    }
  }

  /** Every offered track shows at least one stem. */
  lemma ListedTracksHaveStems(entries: seq<(string, seq<Option<Track>>)>, x: TrackWithSection)
    requires x in AllStems(entries)
    ensures StemCount(x.track) >= 1
  {
    AllStemsMember(entries, x);
    HasStemsIffCount(x.track);
  }

  /** Sections keep their order: the buttons of earlier sections come first. */
  lemma {:induction false} AllStemsAppend(a: seq<(string, seq<Option<Track>>)>, b: seq<(string, seq<Option<Track>>)>)
    ensures AllStems(a + b) == AllStems(a) + AllStems(b)
    decreases |b|
  {
    if b == [] {
      assert a + b == a;
    } else {
      var front, last := b[..|b| - 1], b[|b| - 1];
      var ab := a + b;
      assert ab[..|ab| - 1] == a + front;
      assert ab[|ab| - 1] == last;
      assert AllStems(ab) == AllStems(a + front) + SectionStems(last.0, last.1);
      assert AllStems(b) == AllStems(front) + SectionStems(last.0, last.1);
      AllStemsAppend(a, front);
    }
  }
}
