/** The track-list document: a map from section name to a list of tracks, where each
    track may carry a list of subtracks of the same shape, and list entries may be null. */
module TrackTree {
  import opened Wrappers
  import opened Seqs
  import opened Text

  /** A track's `subtracks` key: absent, or an array whose entries may be null. */
  datatype Subtracks = Absent | Present(entries: seq<Option<Track>>)

  /** One track record. `kind` is the JSON key `type`; `filename` None is null or a missing key. */
  datatype Track = Track(
    id: string,
    title: string,
    filename: Option<string>,
    status: string,
    kind: Option<string>,
    subtracks: Subtracks)

  /** The parsed `trackList.json`. */
  type Document = map<string, seq<Option<Track>>>

  const Score := "score"
  const GnomeMusic := "gnomeMusic"
  const OutsideScope := "outsideScope"
  const BonusUnassigned := "bonusUnassigned"

  /** The four sections the scripts walk, in the order they walk them. */
  const FixedSections: seq<string> := [Score, GnomeMusic, OutsideScope, BonusUnassigned]

  /** `trackList[name] || []`. */
  function SectionOrEmpty(doc: Document, name: string): seq<Option<Track>>
  {
    if name in doc then doc[name] else []
  }

  /** JavaScript truthiness of `track.filename`. */
  predicate HasFilename(t: Track)
  {
    t.filename.Some? && t.filename.value != ""
  }

  /** JavaScript truthiness of `track.id`. */
  predicate HasId(t: Track)
  {
    t.id != ""
  }

  /** `title.toLowerCase().replace(/\s+/g, '-')`: the id rule shared by the editor and
      the id migration. The result has no whitespace and no upper-case ASCII letter. */
  function Slug(title: string): (r: string)
    ensures NoWhitespace(r)
    ensures forall i :: 0 <= i < |r| ==> !IsUpper(r[i])
  {
    var lower := Lower(title);
    ReplaceWhitespaceRunsClean(lower, "-");
    var r := ReplaceWhitespaceRuns(lower, "-");
    assert forall i :: 0 <= i < |r| ==> !IsUpper(r[i]) by {
      forall i | 0 <= i < |r|
        ensures !IsUpper(r[i])
      {
        ReplaceWhitespaceRunsCharacters(lower, "-", r[i]);
      }
    }
    r
  }

  /** Every track in pre-order (a track, then its subtracks' trees, then its later siblings);
      null entries contribute nothing. */
  function WalkEntry(e: Option<Track>): seq<Track>
    decreases e
  {
    match e
    case None => []
    case Some(t) => WalkTrack(t)
  }

  function WalkTrack(t: Track): (r: seq<Track>)
    ensures r != [] && r[0] == t
    decreases t
  {
    [t] + match t.subtracks
      case Absent => []
      case Present(s) => Flatten(seq(|s|, i requires 0 <= i < |s| => WalkEntry(s[i])))
  }

  function WalkList(ts: seq<Option<Track>>): seq<Track>
  {
    Flatten(seq(|ts|, i requires 0 <= i < |ts| => WalkEntry(ts[i])))
  }

  /** The subtrack list of `t`, empty when the key is absent. */
  function Children(t: Track): seq<Option<Track>>
  {
    match t.subtracks
    case Absent => []
    case Present(s) => s
  }

  lemma WalkTrackUnfold(t: Track)
    ensures WalkTrack(t) == [t] + WalkList(Children(t))
  {
    match t.subtracks
    case Absent =>
      assert Children(t) == [];
    case Present(s) =>
      assert Children(t) == s;
  }

  lemma WalkListAppend(a: seq<Option<Track>>, b: seq<Option<Track>>)
    ensures WalkList(a + b) == WalkList(a) + WalkList(b)
  {
    var f := seq(|a + b|, i requires 0 <= i < |a + b| => WalkEntry((a + b)[i]));
    var fa := seq(|a|, i requires 0 <= i < |a| => WalkEntry(a[i]));
    var fb := seq(|b|, i requires 0 <= i < |b| => WalkEntry(b[i]));
    assert f == fa + fb;
    FlattenAppend(fa, fb);
  }

  lemma WalkListSingle(e: Option<Track>)
    ensures WalkList([e]) == WalkEntry(e)
  {
    var f := seq(1, i requires 0 <= i < 1 => WalkEntry([e][i]));
    assert f == [WalkEntry(e)];
    assert Flatten(f) == WalkEntry(e) + Flatten(f[1..]);
  }

  /** The pre-order walk of a list: the first entry's tree, then the rest. */
  lemma WalkListCons(ts: seq<Option<Track>>)
    requires ts != []
    ensures WalkList(ts) == WalkEntry(ts[0]) + WalkList(ts[1..])
  {
    assert ts == [ts[0]] + ts[1..];
    WalkListAppend([ts[0]], ts[1..]);
    WalkListSingle(ts[0]);
  }

  lemma WalkListPrefix(ts: seq<Option<Track>>, k: nat)
    requires k < |ts|
    ensures WalkList(ts[..k + 1]) == WalkList(ts[..k]) + WalkEntry(ts[k])
  {
    assert ts[..k + 1] == ts[..k] + [ts[k]];
    WalkListAppend(ts[..k], [ts[k]]);
    WalkListSingle(ts[k]);
  }

  /** The subtracks of a listed track hold strictly fewer tracks than the list:
      the measure that makes the recursive scripts terminate. */
  lemma WalkChildrenSmaller(ts: seq<Option<Track>>, k: nat)
    requires k < |ts| && ts[k].Some?
    ensures |WalkList(Children(ts[k].value))| < |WalkList(ts)|
  {
    var f := seq(|ts|, i requires 0 <= i < |ts| => WalkEntry(ts[i]));
    FlattenElementBound(f, k);
    WalkTrackUnfold(ts[k].value);
  }

  /** No list anywhere in the tree holds a null entry. */
  predicate NoNullsEntry(e: Option<Track>)
    decreases e
  {
    match e
    case None => false
    case Some(t) => NoNullsTrack(t)
  }

  predicate NoNullsTrack(t: Track)
    decreases t
  {
    match t.subtracks
    case Absent => true
    case Present(s) => forall i :: 0 <= i < |s| ==> NoNullsEntry(s[i])
  }

  predicate NoNullsList(ts: seq<Option<Track>>)
  {
    forall i :: 0 <= i < |ts| ==> NoNullsEntry(ts[i])
  }

  lemma NoNullsChildren(t: Track)
    requires NoNullsTrack(t)
    ensures NoNullsList(Children(t))
  {
  }
}
