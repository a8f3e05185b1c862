/** The top-level player of the web frontend: the list of playable tracks and the
    play / next / previous / track-end handlers over `playlist`, `currentTrack` and
    `isPlaying`. */
module App {
  import opened Wrappers
  import opened Seqs
  import opened TrackTree

  predicate NoNullEntries(entries: seq<Option<Track>>)
  {
    forall i :: 0 <= i < |entries| ==> entries[i].Some?
  }

  /** The tracks of a list without null entries. */
  function Values(entries: seq<Option<Track>>): (r: seq<Track>)
    requires NoNullEntries(entries)
    ensures |r| == |entries|
    ensures forall i :: 0 <= i < |r| ==> entries[i] == Some(r[i])
  {
    seq(|entries|, i requires 0 <= i < |entries| => entries[i].value)
  }

  lemma ValuesAppend(a: seq<Option<Track>>, b: seq<Option<Track>>)
    requires NoNullEntries(a) && NoNullEntries(b)
    ensures NoNullEntries(a + b)
    ensures Values(a + b) == Values(a) + Values(b)
  {
    assert forall i :: 0 <= i < |a + b| ==> (a + b)[i] == if i < |a| then a[i] else b[i - |a|];
  }

  lemma NoNullParts(a: seq<Option<Track>>, b: seq<Option<Track>>)
    requires NoNullEntries(a + b)
    ensures NoNullEntries(a) && NoNullEntries(b)
  {
    assert forall i :: 0 <= i < |a| ==> a[i] == (a + b)[i];
    assert forall i :: 0 <= i < |b| ==> b[i] == (a + b)[|a| + i];
  }

  /** `[...(score || []), ...(gnomeMusic || []), ...(outsideScope || [])]`. */
  function PlayableSections(doc: Document): seq<Option<Track>>
  {
    SectionOrEmpty(doc, Score) + SectionOrEmpty(doc, GnomeMusic) + SectionOrEmpty(doc, OutsideScope)
  }

  /** The filter reads `track.filename` on every top-level entry, so a null entry in those
      sections would throw; the model asks for lists without one. */
  predicate PlayableReadable(trackList: Option<Document>)
  {
    trackList.Some? ==> NoNullEntries(PlayableSections(trackList.value))
  }

  /** `getAllPlayableTracks()`: the top-level tracks with a filename, empty while the track
      list is not loaded. */
  function GetAllPlayableTracks(trackList: Option<Document>): (r: seq<Track>)
    requires PlayableReadable(trackList)
    ensures trackList.None? ==> r == []
    ensures forall t :: t in r ==> HasFilename(t)
  {
    if trackList.None? then [] else Filter(Values(PlayableSections(trackList.value)), HasFilename)
  }

  /** A track is playable exactly when it has a filename and is a top-level entry of score,
      gnomeMusic or outsideScope; bonusUnassigned and subtracks never are. */
  lemma PlayableMember(doc: Document, t: Track)
    requires PlayableReadable(Some(doc))
    ensures t in GetAllPlayableTracks(Some(doc)) <==>
      HasFilename(t) && (Some(t) in SectionOrEmpty(doc, Score) || Some(t) in SectionOrEmpty(doc, GnomeMusic)
        || Some(t) in SectionOrEmpty(doc, OutsideScope))
  {
    var vs := Values(PlayableSections(doc));
    FilterMember(vs, HasFilename, t);
    assert t in vs <==> Some(t) in PlayableSections(doc) by {
      if t in vs {
        var i :| 0 <= i < |vs| && vs[i] == t;
        assert PlayableSections(doc)[i] == Some(t);
      }
      if Some(t) in PlayableSections(doc) {
        var i :| 0 <= i < |PlayableSections(doc)| && PlayableSections(doc)[i] == Some(t);
        assert vs[i] == t;
      }
    }
  }

  /** The playable tracks come section by section, score first, then gnomeMusic, then
      outsideScope, each in list order. */
  lemma PlayableOrder(doc: Document)
    requires PlayableReadable(Some(doc))
    ensures NoNullEntries(SectionOrEmpty(doc, Score)) && NoNullEntries(SectionOrEmpty(doc, GnomeMusic))
      && NoNullEntries(SectionOrEmpty(doc, OutsideScope))
    ensures GetAllPlayableTracks(Some(doc)) ==
      Filter(Values(SectionOrEmpty(doc, Score)), HasFilename)
      + Filter(Values(SectionOrEmpty(doc, GnomeMusic)), HasFilename)
      + Filter(Values(SectionOrEmpty(doc, OutsideScope)), HasFilename)
  {
    var a, b, c := SectionOrEmpty(doc, Score), SectionOrEmpty(doc, GnomeMusic), SectionOrEmpty(doc, OutsideScope);
    assert PlayableSections(doc) == a + b + c;
    NoNullParts(a + b, c);
    NoNullParts(a, b);
    ValuesAppend(a, b);
    ValuesAppend(a + b, c);
    FilterAppend(Values(a) + Values(b), Values(c), HasFilename);
    FilterAppend(Values(a), Values(b), HasFilename);
  }

  /** The bonusUnassigned section, and every key other than the three, does not affect
      the playable list. */
  lemma OtherSectionsNotPlayable(doc: Document, key: string, value: seq<Option<Track>>)
    requires key != Score && key != GnomeMusic && key != OutsideScope
    requires PlayableReadable(Some(doc))
    ensures PlayableReadable(Some(doc[key := value]))
    ensures GetAllPlayableTracks(Some(doc[key := value])) == GetAllPlayableTracks(Some(doc))
  {
    assert PlayableSections(doc[key := value]) == PlayableSections(doc);
  }

  /** The three state fields as one value. */
  datatype PlayerState = PlayerState(playlist: seq<Track>, currentTrack: Option<Track>, isPlaying: bool)

  /** `playlist.findIndex(t => t.id === currentTrack.id)`. */
  function CurrentIndex(playlist: seq<Track>, current: Track): int
  {
    FindIndex(playlist, (t: Track) => t.id == current.id)
  }

  /** Next, previous and track end read `currentTrack.id` whenever the playlist is not
      empty, which throws while no track is current. */
  predicate CanNavigate(s: PlayerState)
  {
    s.playlist != [] ==> s.currentTrack.Some?
  }

  /** `handlePlayTrack(track)` with the playable tracks `all`: the playlist is replaced in any
      case; the first playable track with the same id becomes current and playing. */
  function PlayTrackStep(s: PlayerState, all: seq<Track>, trackId: string): PlayerState
  {
    var index := FindIndex(all, (t: Track) => t.id == trackId);
    if index != -1 then PlayerState(all, Some(all[index]), true)
    else s.(playlist := all)
  }

  /** `handleTrackEnd()`. */
  function TrackEndStep(s: PlayerState): PlayerState
    requires CanNavigate(s)
  {
    if |s.playlist| > 0 then
      var index := CurrentIndex(s.playlist, s.currentTrack.value);
      if index < |s.playlist| - 1 then s.(currentTrack := Some(s.playlist[index + 1]), isPlaying := true)
      else s.(isPlaying := false)
    else s
  }

  /** `handleNextTrack()`. */
  function NextStep(s: PlayerState): PlayerState
    requires CanNavigate(s)
  {
    if |s.playlist| > 0 then
      var index := CurrentIndex(s.playlist, s.currentTrack.value);
      if index < |s.playlist| - 1 then s.(currentTrack := Some(s.playlist[index + 1]), isPlaying := true)
      else s
    else s
  }

  /** `handlePreviousTrack()`. */
  function PreviousStep(s: PlayerState): PlayerState
    requires CanNavigate(s)
  {
    if |s.playlist| > 0 then
      var index := CurrentIndex(s.playlist, s.currentTrack.value);
      if index > 0 then s.(currentTrack := Some(s.playlist[index - 1]), isPlaying := true)
      else s
    else s
  }

  /** What the handlers keep: something is current while playing, and every track in the
      playlist, and the current one, has a filename. */
  predicate ValidState(s: PlayerState)
  {
    && (s.isPlaying ==> s.currentTrack.Some?)
    && (s.currentTrack.Some? ==> HasFilename(s.currentTrack.value))
    && (forall i :: 0 <= i < |s.playlist| ==> HasFilename(s.playlist[i]))
  }

  /** Every handler keeps `ValidState`, and after a successful play every navigation step
      can run. */
  lemma StepsPreserveValid(s: PlayerState, all: seq<Track>, trackId: string)
    requires ValidState(s) && CanNavigate(s)
    requires forall i :: 0 <= i < |all| ==> HasFilename(all[i])
    ensures ValidState(PlayTrackStep(s, all, trackId))
    ensures ValidState(TrackEndStep(s)) && CanNavigate(TrackEndStep(s))
    ensures ValidState(NextStep(s)) && CanNavigate(NextStep(s))
    ensures ValidState(PreviousStep(s)) && CanNavigate(PreviousStep(s))
    ensures PlayTrackStep(s, all, trackId).currentTrack != s.currentTrack ==> CanNavigate(PlayTrackStep(s, all, trackId))
  {
  }

  /** Playing a track that is not playable replaces the playlist and nothing else. */
  lemma PlayUnknownTrack(s: PlayerState, all: seq<Track>, trackId: string)
    requires forall i :: 0 <= i < |all| ==> all[i].id != trackId
    ensures PlayTrackStep(s, all, trackId) == PlayerState(all, s.currentTrack, s.isPlaying)
  {
  }

  /** Playing a playable track makes its first occurrence current and playing. */
  lemma PlayKnownTrack(s: PlayerState, all: seq<Track>, trackId: string, i: nat)
    requires i < |all| && all[i].id == trackId
    ensures var r := PlayTrackStep(s, all, trackId);
      && r.playlist == all && r.isPlaying && r.currentTrack.Some? && r.currentTrack.value.id == trackId
      && exists j :: 0 <= j <= i && r.currentTrack.value == all[j] && forall k :: 0 <= k < j ==> all[k].id != trackId
  {
    var index := FindIndex(all, (t: Track) => t.id == trackId);
    assert index != -1 by {
      assert ((t: Track) => t.id == trackId)(all[i]);
    }
  }

  /** With an empty playlist the three navigation handlers change nothing. */
  lemma EmptyPlaylistNoOps(s: PlayerState)
    requires s.playlist == []
    ensures TrackEndStep(s) == s && NextStep(s) == s && PreviousStep(s) == s
  {
  }

  /** Next at the last index changes nothing; elsewhere it plays the following track. */
  lemma NextMoves(s: PlayerState)
    requires s.playlist != [] && s.currentTrack.Some?
    ensures var i := CurrentIndex(s.playlist, s.currentTrack.value);
      && (i == |s.playlist| - 1 ==> NextStep(s) == s)
      && (i < |s.playlist| - 1 ==>
            NextStep(s) == PlayerState(s.playlist, Some(s.playlist[i + 1]), true))
  {
  }

  /** Previous at index 0 changes nothing; further on it plays the preceding track. */
  lemma PreviousMoves(s: PlayerState)
    requires s.playlist != [] && s.currentTrack.Some?
    ensures var i := CurrentIndex(s.playlist, s.currentTrack.value);
      && (i == 0 ==> PreviousStep(s) == s)
      && (i > 0 ==> PreviousStep(s) == PlayerState(s.playlist, Some(s.playlist[i - 1]), true))
  {
  }

  /** Track end at the last index stops playback on the same track; elsewhere it acts as next. */
  lemma TrackEndMoves(s: PlayerState)
    requires s.playlist != [] && s.currentTrack.Some?
    ensures var i := CurrentIndex(s.playlist, s.currentTrack.value);
      && (i == |s.playlist| - 1 ==> TrackEndStep(s) == s.(isPlaying := false))
      && (i < |s.playlist| - 1 ==> TrackEndStep(s) == NextStep(s))
  {
  }

  /** A current track missing from the playlist (index -1): next starts at the first track
      and previous does nothing. */
  lemma CurrentNotInPlaylist(s: PlayerState)
    requires s.playlist != [] && s.currentTrack.Some?
    requires forall i :: 0 <= i < |s.playlist| ==> s.playlist[i].id != s.currentTrack.value.id
    ensures NextStep(s) == PlayerState(s.playlist, Some(s.playlist[0]), true)
    ensures PreviousStep(s) == s
  {
    assert CurrentIndex(s.playlist, s.currentTrack.value) == -1;
  }

  predicate DistinctIds(playlist: seq<Track>)
  {
    forall i, j :: 0 <= i < j < |playlist| ==> playlist[i].id != playlist[j].id
  }

  lemma IndexOfMember(playlist: seq<Track>, i: nat)
    requires DistinctIds(playlist) && i < |playlist|
    ensures CurrentIndex(playlist, playlist[i]) == i
  {
    var k := CurrentIndex(playlist, playlist[i]);
    assert ((t: Track) => t.id == playlist[i].id)(playlist[i]);
    assert playlist[k].id == playlist[i].id;
  }

  /** From an interior track of a playlist with distinct ids, next then previous comes back
      to the playlist's entry for the current track, still playing, and the playlist is
      untouched. */
  lemma NextThenPrevious(s: PlayerState)
    requires DistinctIds(s.playlist) && s.currentTrack.Some?
    requires var i := CurrentIndex(s.playlist, s.currentTrack.value); 0 <= i < |s.playlist| - 1
    ensures CanNavigate(NextStep(s))
    ensures var i := CurrentIndex(s.playlist, s.currentTrack.value);
      && PreviousStep(NextStep(s)) == PlayerState(s.playlist, Some(s.playlist[i]), true)
      && s.playlist[i].id == s.currentTrack.value.id
  {
    var i := CurrentIndex(s.playlist, s.currentTrack.value);
    IndexOfMember(s.playlist, i + 1);
  }

  /** The component's state. `trackList` is the document fetched from the server on mount. */
  class Player {
    var playlist: seq<Track>
    var currentTrack: Option<Track>
    var isPlaying: bool
    var trackList: Option<Document>

    function State(): PlayerState
      reads this
    {
      PlayerState(playlist, currentTrack, isPlaying)
    }

    predicate Valid()
      reads this
    {
      ValidState(State()) && PlayableReadable(trackList)
    }

    /** The initial state: nothing loaded, nothing playing. */
    constructor ()
      ensures Valid() && State() == PlayerState([], None, false) && trackList == None
    {
      playlist := [];
      currentTrack := None;
      isPlaying := false;
      trackList := None;
    }

    /** `setTrackList(response.data)` once the track list arrives. */
    method LoadTrackList(doc: Document)
      requires Valid() && PlayableReadable(Some(doc))
      modifies this
      ensures Valid() && trackList == Some(doc) && State() == old(State())
    {
      trackList := Some(doc);
    }

    method HandlePlayTrack(trackId: string)
      requires Valid()
      modifies this
      ensures Valid() && trackList == old(trackList)
      ensures State() == PlayTrackStep(old(State()), GetAllPlayableTracks(trackList), trackId)
    {
      var allTracks := GetAllPlayableTracks(trackList);
      playlist := allTracks;
      var trackIndex := FindIndex(allTracks, (t: Track) => t.id == trackId);
      if trackIndex != -1 {
        assert allTracks[trackIndex] in allTracks;
        currentTrack := Some(allTracks[trackIndex]);
        isPlaying := true;
      }
      assert forall i :: 0 <= i < |playlist| ==> playlist[i] in allTracks;
    }

    method HandleTrackEnd()
      requires Valid() && CanNavigate(State())
      modifies this
      ensures Valid() && CanNavigate(State()) && trackList == old(trackList)
      ensures State() == TrackEndStep(old(State()))
    {
      if |playlist| > 0 {
        var currentIndex := CurrentIndex(playlist, currentTrack.value);
        if currentIndex < |playlist| - 1 {
          currentTrack := Some(playlist[currentIndex + 1]);
          isPlaying := true;
        } else {
          isPlaying := false;
        }
      }
    }

    method HandleNextTrack()
      requires Valid() && CanNavigate(State())
      modifies this
      ensures Valid() && CanNavigate(State()) && trackList == old(trackList)
      ensures State() == NextStep(old(State()))
    {
      if |playlist| > 0 {
        var currentIndex := CurrentIndex(playlist, currentTrack.value);
        if currentIndex < |playlist| - 1 {
          currentTrack := Some(playlist[currentIndex + 1]);
          isPlaying := true;
        }
      }
    }

    method HandlePreviousTrack()
      requires Valid() && CanNavigate(State())
      modifies this
      ensures Valid() && CanNavigate(State()) && trackList == old(trackList)
      ensures State() == PreviousStep(old(State()))
    {
      if |playlist| > 0 {
        var currentIndex := CurrentIndex(playlist, currentTrack.value);
        if currentIndex > 0 {
          currentTrack := Some(playlist[currentIndex - 1]);
          isPlaying := true;
        }
      }
    }
  }
}
