/** The production-to-local sync script: walks the fetched track list for ids (to fetch stem
    mixes) and filenames (to download media), and decides what to save and what to skip. */
module SyncProduction {
  import opened Wrappers
  import opened Seqs
  import opened TrackTree

  /** The truthy ids of a sequence of tracks, in order, duplicates kept. */
  function IdsOf(ws: seq<Track>): seq<string>
  {
    if ws == [] then [] else (if HasId(ws[0]) then [ws[0].id] else []) + IdsOf(ws[1..])
  }

  /** The truthy filenames of a sequence of tracks, in order, duplicates kept. */
  function FilenamesOf(ws: seq<Track>): seq<string>
  {
    if ws == [] then [] else (if HasFilename(ws[0]) then [ws[0].filename.value] else []) + FilenamesOf(ws[1..])
  }

  lemma {:induction false} IdsOfAppend(a: seq<Track>, b: seq<Track>)
    ensures IdsOf(a + b) == IdsOf(a) + IdsOf(b)
  {
    if a == [] {
      assert a + b == b;
    } else {
      assert (a + b)[1..] == a[1..] + b;
      IdsOfAppend(a[1..], b);
    }
  }

  lemma {:induction false} FilenamesOfAppend(a: seq<Track>, b: seq<Track>)
    ensures FilenamesOf(a + b) == FilenamesOf(a) + FilenamesOf(b)
  {
    if a == [] {
      assert a + b == b;
    } else {
      assert (a + b)[1..] == a[1..] + b;
      FilenamesOfAppend(a[1..], b);
    }
  }

  /** The ids collected are exactly those of the tracks with a truthy id, one per track and in
      walk order: nothing is deduplicated. */
  lemma {:induction false} IdsOfCountsTracks(ws: seq<Track>)
    ensures |IdsOf(ws)| == |Filter(ws, HasId)|
    ensures forall i :: 0 <= i < |IdsOf(ws)| ==> IdsOf(ws)[i] == Filter(ws, HasId)[i].id
  {
    if ws != [] {
      IdsOfCountsTracks(ws[1..]);
    }
  }

  /** One more entry of the walk adds that track's own id, then the ids of its subtracks. */
  lemma IdsStep(tracks: seq<Option<Track>>, k: nat)
    requires k < |tracks| && tracks[k].Some?
    ensures var t := tracks[k].value;
      IdsOf(WalkList(tracks[..k + 1]))
        == IdsOf(WalkList(tracks[..k])) + (if HasId(t) then [t.id] else []) + IdsOf(WalkList(Children(t)))
  {
    var t := tracks[k].value;
    WalkListPrefix(tracks, k);
    WalkTrackUnfold(t);
    IdsOfAppend(WalkList(tracks[..k]), WalkTrack(t));
    IdsOfAppend([t], WalkList(Children(t)));
  }

  /** The same step for filenames. */
  lemma FilenamesStep(tracks: seq<Option<Track>>, k: nat)
    requires k < |tracks| && tracks[k].Some?
    ensures var t := tracks[k].value;
      FilenamesOf(WalkList(tracks[..k + 1]))
        == FilenamesOf(WalkList(tracks[..k])) + (if HasFilename(t) then [t.filename.value] else [])
           + FilenamesOf(WalkList(Children(t)))
  {
    var t := tracks[k].value;
    WalkListPrefix(tracks, k);
    WalkTrackUnfold(t);
    FilenamesOfAppend(WalkList(tracks[..k]), WalkTrack(t));
    FilenamesOfAppend([t], WalkList(Children(t)));
  }

  /** `extractTrackIds(tracks)`: a loop that pushes each track's truthy id and then concatenates
      the ids of its subtracks. It dereferences every entry, so no list may hold a null. */
  method ExtractTrackIds(tracks: seq<Option<Track>>) returns (ids: seq<string>)
    requires NoNullsList(tracks)
    ensures ids == IdsOf(WalkList(tracks))
    decreases |WalkList(tracks)|
  {
    ids := [];
    for k := 0 to |tracks|
      invariant ids == IdsOf(WalkList(tracks[..k]))
    {
      var track := tracks[k].value;
      if track.id != "" {
        ids := ids + [track.id];
      }
      if track.subtracks.Present? {
        WalkChildrenSmaller(tracks, k);
        NoNullsChildren(track);
        var sub := ExtractTrackIds(track.subtracks.entries);
        ids := ids + sub;
      }
      IdsStep(tracks, k);
    }
    assert tracks[..|tracks|] == tracks;
  }

  /** `extractFilenames(tracks)`: the same walk, collecting truthy filenames. */
  method ExtractFilenames(tracks: seq<Option<Track>>) returns (filenames: seq<string>)
    requires NoNullsList(tracks)
    ensures filenames == FilenamesOf(WalkList(tracks))
    decreases |WalkList(tracks)|
  {
    filenames := [];
    for k := 0 to |tracks|
      invariant filenames == FilenamesOf(WalkList(tracks[..k]))
    {
      var track := tracks[k].value;
      if track.filename.Some? && track.filename.value != "" {
        filenames := filenames + [track.filename.value];
      }
      if track.subtracks.Present? {
        WalkChildrenSmaller(tracks, k);
        NoNullsChildren(track);
        var sub := ExtractFilenames(track.subtracks.entries);
        filenames := filenames + sub;
      }
      FilenamesStep(tracks, k);
    }
    assert tracks[..|tracks|] == tracks;
  }

  /** The walk is pre-order: a track's id comes before its subtracks' ids, which come before
      the ids of its later siblings; a track without an id still has its subtracks visited. */
  lemma IdsPreOrder(t: Track, rest: seq<Option<Track>>)
    ensures IdsOf(WalkList([Some(t)] + rest))
         == (if HasId(t) then [t.id] else []) + IdsOf(WalkList(Children(t))) + IdsOf(WalkList(rest))
  {
    WalkListCons([Some(t)] + rest);
    assert ([Some(t)] + rest)[1..] == rest;
    WalkTrackUnfold(t);
    IdsOfAppend(WalkTrack(t), WalkList(rest));
    IdsOfAppend([t], WalkList(Children(t)));
  }

  /** The four fixed sections, in order, a missing one counting as empty. */
  function SyncSections(doc: Document): seq<Option<Track>>
  {
    SectionOrEmpty(doc, Score) + SectionOrEmpty(doc, GnomeMusic)
      + SectionOrEmpty(doc, OutsideScope) + SectionOrEmpty(doc, BonusUnassigned)
  }

  predicate SyncSectionsHaveNoNulls(doc: Document)
  {
    forall name :: name in FixedSections && name in doc ==> NoNullsList(doc[name])
  }

  /** Keys other than the four fixed sections do not affect what is synced. */
  lemma OtherSectionsIgnored(doc: Document, key: string, value: seq<Option<Track>>)
    requires key !in FixedSections
    ensures SyncSections(doc[key := value]) == SyncSections(doc)
  {
    assert key != Score && key != GnomeMusic && key != OutsideScope && key != BonusUnassigned;
  }

  /** The spread of the four `extractTrackIds` calls: the ids of the concatenated sections. */
  method CollectTrackIds(doc: Document) returns (trackIds: seq<string>)
    requires SyncSectionsHaveNoNulls(doc)
    ensures trackIds == IdsOf(WalkList(SyncSections(doc)))
  {
    var a := SectionOrEmpty(doc, Score);
    var b := SectionOrEmpty(doc, GnomeMusic);
    var c := SectionOrEmpty(doc, OutsideScope);
    var d := SectionOrEmpty(doc, BonusUnassigned);
    var ia := ExtractTrackIds(a);
    var ib := ExtractTrackIds(b);
    var ic := ExtractTrackIds(c);
    var id := ExtractTrackIds(d);
    trackIds := ia + ib + ic + id;
    WalkListAppend(a + b + c, d);
    WalkListAppend(a + b, c);
    WalkListAppend(a, b);
    IdsOfAppend(WalkList(a + b + c), WalkList(d));
    IdsOfAppend(WalkList(a + b), WalkList(c));
    IdsOfAppend(WalkList(a), WalkList(b));
  }

  /** The spread of the four `extractFilenames` calls. */
  method CollectFilenames(doc: Document) returns (filenames: seq<string>)
    requires SyncSectionsHaveNoNulls(doc)
    ensures filenames == FilenamesOf(WalkList(SyncSections(doc)))
  {
    var a := SectionOrEmpty(doc, Score);
    var b := SectionOrEmpty(doc, GnomeMusic);
    var c := SectionOrEmpty(doc, OutsideScope);
    var d := SectionOrEmpty(doc, BonusUnassigned);
    var fa := ExtractFilenames(a);
    var fb := ExtractFilenames(b);
    var fc := ExtractFilenames(c);
    var fd := ExtractFilenames(d);
    filenames := fa + fb + fc + fd;
    WalkListAppend(a + b + c, d);
    WalkListAppend(a + b, c);
    WalkListAppend(a, b);
    FilenamesOfAppend(WalkList(a + b + c), WalkList(d));
    FilenamesOfAppend(WalkList(a + b), WalkList(c));
    FilenamesOfAppend(WalkList(a), WalkList(b));
  }

  /** What the stem-mixes fetch for one track id gave back. */
  datatype MixesResponse = NotOk | Failed | Mixes(keyCount: nat)

  predicate SavesMixes(r: MixesResponse)
  {
    r.Mixes? && r.keyCount > 0
  }

  /** The track ids whose mixes file is written, in order. */
  function MixesWritten(trackIds: seq<string>, fetch: string -> MixesResponse): seq<string>
  {
    if trackIds == [] then []
    else
      var last := trackIds[|trackIds| - 1];
      MixesWritten(trackIds[..|trackIds| - 1], fetch) + (if SavesMixes(fetch(last)) then [last] else [])
  }

  /** A mixes file is written for a listed id exactly when its fetch succeeded with an object
      that has at least one key. */
  lemma {:induction false} MixesWrittenMember(trackIds: seq<string>, fetch: string -> MixesResponse, x: string)
    ensures x in MixesWritten(trackIds, fetch) <==> x in trackIds && SavesMixes(fetch(x))
  {
    if trackIds != [] {
      var init := trackIds[..|trackIds| - 1];
      MixesWrittenMember(init, fetch, x);
      assert trackIds == init + [trackIds[|trackIds| - 1]];
    }
  }

  /** The loop over the track ids that fetches mixes and writes `${trackId}-mixes.json`. */
  method SaveMixes(trackIds: seq<string>, fetch: string -> MixesResponse) returns (written: seq<string>)
    ensures written == MixesWritten(trackIds, fetch)
  {
    written := [];
    for k := 0 to |trackIds|
      invariant written == MixesWritten(trackIds[..k], fetch)
    {
      var trackId := trackIds[k];
      var response := fetch(trackId);
      if response.Mixes? && response.keyCount > 0 {
        written := written + [trackId];
      }
      assert trackIds[..k + 1][..k] == trackIds[..k];
    }
    assert trackIds[..|trackIds|] == trackIds;
  }

  /** The downloads the loop performs, given the files present locally before it starts. A file
      it downloads exists from then on, so a repeated filename is downloaded once. */
  function DownloadPlan(filenames: seq<string>, local: set<string>): seq<string>
  {
    if filenames == [] then []
    else if filenames[0] == "" || filenames[0] in local then DownloadPlan(filenames[1..], local)
    else [filenames[0]] + DownloadPlan(filenames[1..], local + {filenames[0]})
  }

  /** Downloaded are exactly the non-empty filenames not already present, each once. */
  lemma {:induction false} DownloadPlanFacts(filenames: seq<string>, local: set<string>)
    ensures forall x :: x in DownloadPlan(filenames, local) <==> x in filenames && x != "" && x !in local
    ensures forall i, j :: 0 <= i < j < |DownloadPlan(filenames, local)| ==>
      DownloadPlan(filenames, local)[i] != DownloadPlan(filenames, local)[j]
  {
    if filenames != [] {
      var f := filenames[0];
      if f == "" || f in local {
        DownloadPlanFacts(filenames[1..], local);
      } else {
        DownloadPlanFacts(filenames[1..], local + {f});
        var rest := DownloadPlan(filenames[1..], local + {f});
        assert f !in rest;
        forall x
          ensures x in DownloadPlan(filenames, local) <==> x in filenames && x != "" && x !in local
        {
          if x != f && x in filenames {
            assert x in filenames[1..];
          }
        }
      }
    }
  }

  /** The download loop: skips empty names and names already present. */
  method Downloads(filenames: seq<string>, local: set<string>) returns (downloaded: seq<string>)
    ensures downloaded == DownloadPlan(filenames, local)
  {
    downloaded := [];
    var present := local;
    for k := 0 to |filenames|
      invariant downloaded + DownloadPlan(filenames[k..], present) == DownloadPlan(filenames, local)
    {
      var filename := filenames[k];
      assert filenames[k..][1..] == filenames[k + 1..];
      if filename == "" {
        continue;
      }
      if filename in present {
        continue;
      }
      downloaded := downloaded + [filename];
      present := present + {filename};
    }
  }
}
