/** The stem mixer for one selected track: the stems it loads, their volume table, the audio
    element per stem, and the toggle and volume controls. Fades are not modelled: each
    control is taken at the moment its fade completes. */
module StemMixer {
  import opened Wrappers
  import opened TrackTree
  import StemMixerView
  import MigrateTrackIds

  /** The state of one `Audio` element that matters to the mixer. */
  datatype Audio = Audio(src: string, loop: bool, volume: real)

  /** The volume a stem starts at: the main track is audible, every other stem muted. */
  function InitialVolume(stemId: string, mainId: string): real
  {
    if stemId == mainId then 1.0 else 0.0
  }

  /** The element created for a stem (the base URL of the API is left out). */
  function AudioFor(stem: Track, mainId: string): Audio
  {
    Audio("/tracks/" + (if stem.filename.Some? then stem.filename.value else ""), true, InitialVolume(stem.id, mainId))
  }

  /** `initialStems` after the main track and the first `|subs|` subtracks: a later stem
      with an id already present replaces the earlier one. */
  function InitialStems(main: Track, subs: seq<Option<Track>>): map<string, Track>
  {
    if subs == [] then map[main.id := main]
    else
      var e := subs[|subs| - 1];
      var rest := InitialStems(main, subs[..|subs| - 1]);
      if StemMixerView.IsStem(e) then rest[e.value.id := e.value] else rest
  }

  /** `initialVolumes` likewise: 1 for the main track, 0 for each stem. */
  function InitialVolumes(main: Track, subs: seq<Option<Track>>): map<string, real>
  {
    if subs == [] then map[main.id := 1.0]
    else
      var e := subs[|subs| - 1];
      var rest := InitialVolumes(main, subs[..|subs| - 1]);
      if StemMixerView.IsStem(e) then rest[e.value.id := 0.0] else rest
  }

  /** Whether one of the stems reuses the main track's id. */
  predicate StemSharesMainId(main: Track, subs: seq<Option<Track>>)
  {
    exists i :: 0 <= i < |subs| && StemMixerView.IsStem(subs[i]) && subs[i].value.id == main.id
  }

  /** The volume table holds the main id and the id of every stem, nothing else, the same
      keys as the stem table. */
  lemma {:induction false} InitialVolumesKeys(main: Track, subs: seq<Option<Track>>)
    ensures InitialVolumes(main, subs).Keys == InitialStems(main, subs).Keys
    ensures forall id :: id in InitialVolumes(main, subs) <==>
      (id == main.id || exists i :: 0 <= i < |subs| && StemMixerView.IsStem(subs[i]) && subs[i].value.id == id)
  {
    if subs != [] {
      var n := |subs|;
      var front := subs[..n - 1];
      InitialVolumesKeys(main, front);
      assert forall i :: 0 <= i < n - 1 ==> front[i] == subs[i];
    }
  }

  /** Every entry of the volume table is 0 or 1, so within what an audio element takes. */
  lemma {:induction false} InitialVolumesInRange(main: Track, subs: seq<Option<Track>>)
    ensures forall id :: id in InitialVolumes(main, subs) ==>
      (InitialVolumes(main, subs)[id] == 0.0 || InitialVolumes(main, subs)[id] == 1.0)
  {
    if subs != [] {
      InitialVolumesInRange(main, subs[..|subs| - 1]);
    }
  }

  /** The id of each stem maps to 0: stems start muted. */
  lemma {:induction false} StemsStartMuted(main: Track, subs: seq<Option<Track>>, i: nat)
    requires i < |subs| && StemMixerView.IsStem(subs[i])
    ensures subs[i].value.id in InitialVolumes(main, subs)
    ensures InitialVolumes(main, subs)[subs[i].value.id] == 0.0
  {
    var n := |subs|;
    if i < n - 1 {
      var front := subs[..n - 1];
      assert front[i] == subs[i];
      StemsStartMuted(main, front, i);
    }
  }

  /** Unless a stem reuses the main track's id, every id gets the volume its audio element
      starts at: 1 for the main track and 0 for the stems. */
  lemma {:induction false} VolumesMatchAudio(main: Track, subs: seq<Option<Track>>)
    requires !StemSharesMainId(main, subs)
    ensures main.id in InitialVolumes(main, subs) && InitialVolumes(main, subs)[main.id] == 1.0
    ensures forall id :: id in InitialVolumes(main, subs) ==> InitialVolumes(main, subs)[id] == InitialVolume(id, main.id)
  {
    if subs != [] {
      var n := |subs|;
      var front := subs[..n - 1];
      assert !StemSharesMainId(main, front) by {
        forall i | 0 <= i < n - 1 && StemMixerView.IsStem(front[i])
          ensures front[i].value.id != main.id
        {
          assert front[i] == subs[i];
        }
      }
      VolumesMatchAudio(main, front);
    }
  }

  /** Every loaded stem is the main track or one of its stems, under its own id, and has
      a filename. */
  lemma {:induction false} InitialStemsFacts(main: Track, subs: seq<Option<Track>>)
    requires HasFilename(main)
    ensures forall id :: id in InitialStems(main, subs) ==>
      && InitialStems(main, subs)[id].id == id
      && HasFilename(InitialStems(main, subs)[id])
      && (InitialStems(main, subs)[id] == main || Some(InitialStems(main, subs)[id]) in subs)
  {
    if subs != [] {
      var n := |subs|;
      InitialStemsFacts(main, subs[..n - 1]);
      assert forall e :: e in subs[..n - 1] ==> e in subs;
    }
  }

  /** The audio element of every stem of a migrated track starts at the volume the table
      gives it, provided the track's new id is not empty: migration then makes every subtrack
      id longer than its parent's, so no stem reuses the main id. */
  lemma MigratedTrackVolumesAgree(t: Track, parentId: string)
    requires MigrateTrackIds.UpdateTrack(t, parentId).id != ""
    ensures var m := MigrateTrackIds.UpdateTrack(t, parentId);
      !StemSharesMainId(m, Children(m))
      && forall id :: id in InitialVolumes(m, Children(m)) ==> InitialVolumes(m, Children(m))[id] == InitialVolume(id, m.id)
  {
    var m := MigrateTrackIds.UpdateTrack(t, parentId);
    var subs := Children(m);
    MigrateTrackIds.UpdateTrackChildren(t, parentId);
    forall i | 0 <= i < |subs| && StemMixerView.IsStem(subs[i])
      ensures subs[i].value.id != m.id
    {
      MigrateTrackIds.SubtrackIdsNest(t, parentId, i);
      assert |subs[i].value.id| > |m.id|;
    }
    VolumesMatchAudio(m, subs);
  }

  /** The volume a toggle leaves a stem at: a sounding stem is muted; a muted one (or one
      with no entry, `|| 0`) is raised to 1 if it is the main track and to 0.7 otherwise. */
  function ToggledVolume(volumes: map<string, real>, stemId: string, mainId: string): (r: real)
  {
    var currentVolume := if stemId in volumes then volumes[stemId] else 0.0;
    if currentVolume > 0.0 then 0.0
    else if stemId == mainId then 1.0
    else 0.7
  }

  /** Toggling always lands on 0, 0.7 or 1, mutes exactly the sounding stems, and toggling a
      muted stem twice mutes it again. */
  lemma ToggleFacts(volumes: map<string, real>, stemId: string, mainId: string)
    ensures var r := ToggledVolume(volumes, stemId, mainId);
      && (r == 0.0 || r == 0.7 || r == 1.0)
      && (r == 0.0 <==> stemId in volumes && volumes[stemId] > 0.0)
    ensures (stemId !in volumes || volumes[stemId] <= 0.0) ==>
      var once := volumes[stemId := ToggledVolume(volumes, stemId, mainId)];
      ToggledVolume(once, stemId, mainId) == 0.0
  {
  }

  predicate InUnitRange(v: real) { 0.0 <= v <= 1.0 }

  /** The mixer's state. `track` is the selected track, absent before one is chosen. */
  class Mixer {
    var track: Option<Track>
    var activeStems: map<string, Track>
    var stemVolumes: map<string, real>
    var audioRefs: map<string, Audio>

    /** Volumes, in the table and on the elements, stay within what an audio element takes. */
    predicate Valid()
      reads this
    {
      && (forall id :: id in stemVolumes ==> InUnitRange(stemVolumes[id]))
      && (forall id :: id in audioRefs ==> InUnitRange(audioRefs[id].volume))
    }

    constructor ()
      ensures Valid() && track == None && activeStems == map[] && stemVolumes == map[] && audioRefs == map[]
    {
      track := None;
      activeStems := map[];
      stemVolumes := map[];
      audioRefs := map[];
    }

    /** The effect that runs when `track` changes: the previous elements are cleaned up, and
        for a track with a filename the stem and volume tables and one element per stem are
        set up. For a track without a filename only the cleanup happens. */
    method SelectTrack(t: Option<Track>)
      requires Valid()
      modifies this
      ensures Valid() && track == t
      ensures t.Some? && HasFilename(t.value) ==>
        && activeStems == InitialStems(t.value, Children(t.value))
        && stemVolumes == InitialVolumes(t.value, Children(t.value))
        && audioRefs.Keys == activeStems.Keys
        && forall id :: id in audioRefs ==> audioRefs[id] == AudioFor(activeStems[id], t.value.id)
      ensures !(t.Some? && HasFilename(t.value)) ==>
        activeStems == old(activeStems) && stemVolumes == old(stemVolumes) && audioRefs == map[]
    {
      track := t;
      audioRefs := map[];
      if t.Some? && HasFilename(t.value) {
        var main := t.value;
        var subs := Children(main);
        var initialStems := map[main.id := main];
        var initialVolumes := map[main.id := 1.0];
        for k := 0 to |subs|
          invariant initialStems == InitialStems(main, subs[..k])
          invariant initialVolumes == InitialVolumes(main, subs[..k])
        {
          var subtrack := subs[k];
          if StemMixerView.IsStem(subtrack) {
            initialStems := initialStems[subtrack.value.id := subtrack.value];
            initialVolumes := initialVolumes[subtrack.value.id := 0.0];
          }
          assert subs[..k + 1][..k] == subs[..k];
        }
        assert subs[..|subs|] == subs;
        InitialVolumesKeys(main, subs);
        InitialVolumesInRange(main, subs);
        activeStems := initialStems;
        stemVolumes := initialVolumes;
        var refs: map<string, Audio> := map[];
        var pending := initialStems.Keys;
        while pending != {}
          invariant pending <= initialStems.Keys
          invariant refs.Keys == initialStems.Keys - pending
          invariant forall id :: id in refs ==> refs[id] == AudioFor(initialStems[id], main.id)
          decreases pending
        {
          var id :| id in pending;
          refs := refs[id := AudioFor(initialStems[id], main.id)];
          pending := pending - {id};
        }
        audioRefs := refs;
      }
    }

    /** `toggleStem(stemTrack)`. Without an element for the stem the fade throws inside its
        animation frame and the promise never settles, so nothing changes. */
    method ToggleStem(stemId: string)
      requires Valid() && track.Some?
      modifies this
      ensures Valid() && track == old(track) && activeStems == old(activeStems)
      ensures stemId !in old(audioRefs) ==> stemVolumes == old(stemVolumes) && audioRefs == old(audioRefs)
      ensures stemId in old(audioRefs) ==>
        var v := ToggledVolume(old(stemVolumes), stemId, track.value.id);
        && stemVolumes == old(stemVolumes)[stemId := v]
        && audioRefs == old(audioRefs)[stemId := old(audioRefs)[stemId].(volume := v)]
    {
      if stemId in audioRefs {
        var v := ToggledVolume(stemVolumes, stemId, track.value.id);
        ToggleFacts(stemVolumes, stemId, track.value.id);
        audioRefs := audioRefs[stemId := audioRefs[stemId].(volume := v)];
        stemVolumes := stemVolumes[stemId := v];
      }
    }

    /** `adjustVolume(trackId, volume)` with a slider value in [0, 1]. */
    method AdjustVolume(trackId: string, volume: real)
      requires Valid() && InUnitRange(volume)
      modifies this
      ensures Valid() && track == old(track) && activeStems == old(activeStems)
      ensures trackId !in old(audioRefs) ==> stemVolumes == old(stemVolumes) && audioRefs == old(audioRefs)
      ensures trackId in old(audioRefs) ==>
        && stemVolumes == old(stemVolumes)[trackId := volume]
        && audioRefs == old(audioRefs)[trackId := old(audioRefs)[trackId].(volume := volume)]
    {
      if trackId in audioRefs {
        audioRefs := audioRefs[trackId := audioRefs[trackId].(volume := volume)];
        stemVolumes := stemVolumes[trackId := volume];
      }
    }
  }
}
