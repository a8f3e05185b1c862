/** The one-off id migration: every track's id is recomputed from its title, prefixed by its
    parent's new id, in the four fixed sections; a backup of the original text is written
    before the rewritten document. */
module MigrateTrackIds {
  import opened Wrappers
  import opened Seqs
  import opened Text
  import opened TrackTree

  /** `parentId ? `${parentId}-${baseId}` : baseId`; the empty string is a falsy parent id. */
  function NewId(parentId: string, title: string): (r: string)
    ensures parentId == "" ==> r == Slug(title)
    ensures parentId != "" ==>
      |r| > |parentId| && r[..|parentId|] == parentId && r[|parentId|] == '-' && r[|parentId| + 1..] == Slug(title)
  {
    if parentId != "" then parentId + "-" + Slug(title) else Slug(title)
  }

  /** `updateTrackIds` on one list entry: a null stays null. */
  function UpdateEntry(e: Option<Track>, parentId: string): Option<Track>
    decreases e
  {
    match e
    case None => None
    case Some(t) => Some(UpdateTrack(t, parentId))
  }

  /** `{...track, id: newId}`, with the subtracks (when the key is present) rewritten under `newId`. */
  function UpdateTrack(t: Track, parentId: string): Track
    decreases t
  {
    var newId := NewId(parentId, t.title);
    match t.subtracks
    case Absent => t.(id := newId)
    case Present(s) =>
      t.(id := newId, subtracks := Present(seq(|s|, i requires 0 <= i < |s| => UpdateEntry(s[i], newId))))
  }

  /** `updateTrackIds(tracks, parentId)`: a `map` over the list. */
  function UpdateTrackIds(tracks: seq<Option<Track>>, parentId: string): (r: seq<Option<Track>>)
    ensures |r| == |tracks|
    ensures forall i :: 0 <= i < |tracks| ==> (r[i].None? <==> tracks[i].None?)
  {
    seq(|tracks|, i requires 0 <= i < |tracks| => UpdateEntry(tracks[i], parentId))
  }

  lemma UpdateTrackChildren(t: Track, parentId: string)
    ensures Children(UpdateTrack(t, parentId)) == UpdateTrackIds(Children(t), NewId(parentId, t.title))
  {
  }

  /** Two tracks agree on everything the migration must not touch. */
  predicate SameButId(a: Track, b: Track)
  {
    && a.title == b.title && a.filename == b.filename && a.status == b.status && a.kind == b.kind
    && (a.subtracks.Absent? <==> b.subtracks.Absent?)
  }

  predicate Corresponding(a: seq<Track>, b: seq<Track>)
  {
    |a| == |b| && forall i :: 0 <= i < |a| ==> SameButId(a[i], b[i])
  }

  lemma CorrespondingAppend(a1: seq<Track>, b1: seq<Track>, a2: seq<Track>, b2: seq<Track>)
    requires Corresponding(a1, b1) && Corresponding(a2, b2)
    ensures Corresponding(a1 + a2, b1 + b2)
  {
    forall i | 0 <= i < |a1 + a2|
      ensures SameButId((a1 + a2)[i], (b1 + b2)[i])
    {
      if i >= |a1| {
        assert (a1 + a2)[i] == a2[i - |a1|] && (b1 + b2)[i] == b2[i - |b1|];
      }
    }
  }

  lemma {:induction false} FlattenCorresponding(xs: seq<seq<Track>>, ys: seq<seq<Track>>)
    requires |xs| == |ys|
    requires forall i :: 0 <= i < |xs| ==> Corresponding(xs[i], ys[i])
    ensures Corresponding(Flatten(xs), Flatten(ys))
  {
    if xs != [] {
      FlattenCorresponding(xs[1..], ys[1..]);
      CorrespondingAppend(xs[0], ys[0], Flatten(xs[1..]), Flatten(ys[1..]));
    }
  }

  lemma {:induction false} EntryKeepsShape(e: Option<Track>, parentId: string)
    ensures Corresponding(WalkEntry(UpdateEntry(e, parentId)), WalkEntry(e))
    decreases e
  {
    match e
    case None =>
    case Some(t) => TrackKeepsShape(t, parentId);
  }

  lemma {:induction false} TrackKeepsShape(t: Track, parentId: string)
    ensures Corresponding(WalkTrack(UpdateTrack(t, parentId)), WalkTrack(t))
    decreases t
  {
    var u := UpdateTrack(t, parentId);
    match t.subtracks
    case Absent =>
    case Present(s) =>
      var newId := NewId(parentId, t.title);
      var s' := seq(|s|, i requires 0 <= i < |s| => UpdateEntry(s[i], newId));
      var xs := seq(|s'|, i requires 0 <= i < |s'| => WalkEntry(s'[i]));
      var ys := seq(|s|, i requires 0 <= i < |s| => WalkEntry(s[i]));
      forall i | 0 <= i < |s|
        ensures Corresponding(xs[i], ys[i])
      {
        EntryKeepsShape(s[i], newId);
      }
      FlattenCorresponding(xs, ys);
      CorrespondingAppend([u], [t], Flatten(xs), Flatten(ys));
  }

  /** The rewrite keeps the tree's shape and every field but `id`: the pre-order walks of the
      input and the output have the same length, and the tracks at each position agree on title,
      filename, status, type and whether `subtracks` is present. A null entry stays null. */
  lemma MigrationKeepsShape(tracks: seq<Option<Track>>, parentId: string)
    ensures Corresponding(WalkList(UpdateTrackIds(tracks, parentId)), WalkList(tracks))
  {
    var r := UpdateTrackIds(tracks, parentId);
    var xs := seq(|r|, i requires 0 <= i < |r| => WalkEntry(r[i]));
    var ys := seq(|tracks|, i requires 0 <= i < |tracks| => WalkEntry(tracks[i]));
    forall i | 0 <= i < |tracks|
      ensures Corresponding(xs[i], ys[i])
    {
      EntryKeepsShape(tracks[i], parentId);
    }
    FlattenCorresponding(xs, ys);
  }

  /** A rewritten track's id is built from its own title and the id its parent received, so every
      subtrack's id extends its parent's new id: `parent-slug(title)`. */
  lemma SubtrackIdsNest(t: Track, parentId: string, i: nat)
    requires i < |Children(t)| && Children(t)[i].Some?
    ensures UpdateTrack(t, parentId).id == NewId(parentId, t.title)
    ensures var u := UpdateTrack(t, parentId);
      && Children(u)[i].Some?
      && Children(u)[i].value.id == NewId(u.id, Children(t)[i].value.title)
      && (u.id != "" ==> Children(u)[i].value.id == u.id + "-" + Slug(Children(t)[i].value.title))
  {
    var u := UpdateTrack(t, parentId);
    UpdateTrackChildren(t, parentId);
    var c := Children(t)[i].value;
    assert Children(u)[i] == UpdateEntry(Children(t)[i], u.id) == Some(UpdateTrack(c, u.id));
  }

  lemma {:induction false} EntryIdempotent(e: Option<Track>, parentId: string)
    ensures UpdateEntry(UpdateEntry(e, parentId), parentId) == UpdateEntry(e, parentId)
    decreases e
  {
    match e
    case None =>
    case Some(t) => TrackIdempotent(t, parentId);
  }

  lemma {:induction false} TrackIdempotent(t: Track, parentId: string)
    ensures UpdateTrack(UpdateTrack(t, parentId), parentId) == UpdateTrack(t, parentId)
    decreases t
  {
    var u := UpdateTrack(t, parentId);
    match t.subtracks
    case Absent =>
    case Present(s) =>
      var newId := NewId(parentId, t.title);
      var s' := seq(|s|, i requires 0 <= i < |s| => UpdateEntry(s[i], newId));
      assert u.subtracks == Present(s');
      var s'' := seq(|s'|, i requires 0 <= i < |s'| => UpdateEntry(s'[i], newId));
      forall i | 0 <= i < |s|
        ensures s''[i] == s'[i]
      {
        EntryIdempotent(s[i], newId);
      }
      assert s'' == s';
  }

  /** Running the migration twice gives the same tree as running it once: ids depend only on
      titles and the parent chain, and titles are not changed. */
  lemma MigrationIdempotent(tracks: seq<Option<Track>>, parentId: string)
    ensures UpdateTrackIds(UpdateTrackIds(tracks, parentId), parentId) == UpdateTrackIds(tracks, parentId)
  {
    var r := UpdateTrackIds(tracks, parentId);
    forall i | 0 <= i < |tracks|
      ensures UpdateTrackIds(r, parentId)[i] == r[i]
    {
      EntryIdempotent(tracks[i], parentId);
    }
  }

  /** The document after the driver loop: the fixed sections that are present are rewritten
      from the top (no parent), every other key keeps its value, and no key is added. */
  function MigratedDocument(doc: Document): Document
  {
    map key | key in doc :: if key in FixedSections then UpdateTrackIds(doc[key], "") else doc[key]
  }

  lemma MigratedDocumentIdempotent(doc: Document)
    ensures MigratedDocument(MigratedDocument(doc)) == MigratedDocument(doc)
  {
    var once := MigratedDocument(doc);
    forall key | key in doc
      ensures MigratedDocument(once)[key] == once[key]
    {
      if key in FixedSections {
        MigrationIdempotent(doc[key], "");
      }
    }
  }

  /** The `forEach` over the four section names, reassigning `trackList[section]` when set. */
  method MigrateSections(trackList: Document) returns (updated: Document)
    ensures updated.Keys == trackList.Keys
    ensures forall key :: key in trackList && key !in FixedSections ==> updated[key] == trackList[key]
    ensures forall key :: key in trackList && key in FixedSections ==> updated[key] == UpdateTrackIds(trackList[key], "")
    ensures updated == MigratedDocument(trackList)
  {
    updated := trackList;
    for k := 0 to |FixedSections|
      invariant updated.Keys == trackList.Keys
      invariant forall key :: key in trackList ==>
        updated[key] == if key in FixedSections[..k] then UpdateTrackIds(trackList[key], "") else trackList[key]
    {
      var section := FixedSections[k];
      if section in updated {
        updated := updated[section := UpdateTrackIds(updated[section], "")];
      }
      assert FixedSections[..k + 1] == FixedSections[..k] + [section];
    }
    assert FixedSections[..|FixedSections|] == FixedSections;
  }

  /** A file write the script performs, in order. */
  datatype FileWrite = BackupWrite(text: string) | TrackListWrite(document: Document)

  /** `migrateTrackIds` given the text of `trackList.json` and its parse (None when `JSON.parse`
      throws): a text that does not parse is left alone and nothing is written; otherwise the
      backup holds the text exactly as read, and it is written before the rewritten document. */
  method Migrate(data: string, parsed: Option<Document>) returns (writes: seq<FileWrite>)
    ensures parsed.None? ==> writes == []
    ensures parsed.Some? ==> |writes| == 2
    ensures parsed.Some? ==> writes[0] == BackupWrite(data)
    ensures parsed.Some? ==> writes[1] == TrackListWrite(MigratedDocument(parsed.value))
  {
    writes := [];
    if parsed.None? {
      return;
    }
    writes := writes + [BackupWrite(data)];
    var updated := MigrateSections(parsed.value);
    writes := writes + [TrackListWrite(updated)];
  }
}
