/** The track editor form's submit handler: the record it builds and the request it chooses. */
module TrackEditor {
  import opened Wrappers
  import opened TrackTree
  import opened MigrateTrackIds

  /** `generateUniqueId(baseTitle, parentTrack)`: any given parent object prefixes its id and a
      `-`, even an empty id; without a parent the id is the bare slug. */
  function GenerateUniqueId(baseTitle: string, parentTrack: Option<Track>): (r: string)
    ensures parentTrack.None? ==> r == Slug(baseTitle)
    ensures parentTrack.Some? ==>
      var p := parentTrack.value.id;
      |r| > |p| && r[..|p|] == p && r[|p|] == '-' && r[|p| + 1..] == Slug(baseTitle)
  {
    var baseId := Slug(baseTitle);
    if parentTrack.Some? then parentTrack.value.id + "-" + baseId else baseId
  }

  /** The `trackData` literal: the existing track's id when truthy, else a generated one;
      `filename` null, `status` planned, `type` only when a non-empty type is chosen. */
  function TrackData(track: Option<Track>, title: string, kind: string, parentTrack: Option<Track>): (r: Track)
    ensures r.id == if track.Some? && track.value.id != "" then track.value.id else GenerateUniqueId(title, parentTrack)
    ensures r.title == title
    ensures r.filename == None && r.status == "planned"
    ensures r.kind.Some? <==> kind != ""
    ensures r.kind.Some? ==> r.kind.value == kind
    ensures r.subtracks == Absent
  {
    Track(
      if track.Some? && track.value.id != "" then track.value.id else GenerateUniqueId(title, parentTrack),
      title,
      None,
      "planned",
      if kind != "" then Some(kind) else None,
      Absent)
  }

  /** The request `handleSubmit` sends. */
  datatype Request =
    | AddRequest(section: string, parentTrackId: Option<string>, newTrack: Track)
    | UpdateRequest(section: string, trackId: string, title: string, kind: string)

  /** `handleSubmit`: with a parent, always an add under it (even when editing); without a parent,
      an add for a new track and an update of only title and type for an existing one. */
  function HandleSubmit(track: Option<Track>, section: string, parentTrack: Option<Track>, title: string, kind: string): (r: Request)
    ensures parentTrack.Some? ==> r == AddRequest(section, Some(parentTrack.value.id), TrackData(track, title, kind, parentTrack))
    ensures parentTrack.None? && track.None? ==> r == AddRequest(section, None, TrackData(track, title, kind, parentTrack))
    ensures parentTrack.None? && track.Some? ==> r == UpdateRequest(section, track.value.id, title, kind)
  {
    var trackData := TrackData(track, title, kind, parentTrack);
    if parentTrack.Some? then AddRequest(section, Some(parentTrack.value.id), trackData)
    else if track.None? then AddRequest(section, None, trackData)
    else UpdateRequest(section, track.value.id, title, kind)
  }

  /** The editor and the migration agree: a new top-level track gets the migration's id, and so
      does a new subtrack under a parent whose id is non-empty. */
  lemma EditorAgreesWithMigration(title: string, parentTrack: Option<Track>)
    requires parentTrack.Some? ==> parentTrack.value.id != ""
    ensures GenerateUniqueId(title, parentTrack) == NewId(if parentTrack.Some? then parentTrack.value.id else "", title)
  {
  }

  /** For a subtrack of an already-migrated parent with a non-empty id, what the migration assigns
      to that subtrack is what the editor would have generated for it. */
  lemma MigratedSubtrackMatchesEditor(t: Track, parentId: string, i: nat)
    requires i < |Children(t)| && Children(t)[i].Some?
    requires UpdateTrack(t, parentId).id != ""
    ensures var u := UpdateTrack(t, parentId);
      Children(u)[i].Some? && Children(u)[i].value.id == GenerateUniqueId(Children(t)[i].value.title, Some(u))
  {
    SubtrackIdsNest(t, parentId, i);
  }

  /** Where they differ: under a parent whose id is empty, the editor still adds the separator
      while the migration treats the empty id as no parent. */
  lemma EditorDiffersUnderEmptyParentId(title: string, parent: Track)
    requires parent.id == ""
    ensures GenerateUniqueId(title, Some(parent)) == "-" + NewId(parent.id, title)
  {
  }
}
