# Gnome soundtrack player — Dafny model

This project models the rules at the centre of the Gnome soundtrack player and proves
properties about them. The player is a web app for a game soundtrack. Its tracks are kept in one
JSON document, `trackList.json`. The document maps section names (`score`, `gnomeMusic`,
`outsideScope`, `bonusUnassigned`, …) to lists of tracks. A track has an `id`, a `title`, an
optional `filename`, a `status`, an optional `type`, and an optional list of `subtracks` (its
stems) of the same shape. Any list entry may be `null`.

What is modelled, one module per source file:

- `TrackTree` (shared): the document, the id slug, and the pre-order walk of the track tree.
- `MigrateTrackIds` (`backend/migrate-track-ids.js`): the recursive id rewrite, plus the driver
  that rewrites the four fixed sections and writes the backup before the result.
- `SyncProduction` (`sync-production.js`): pre-order collection of ids and filenames; which
  mixes files are saved; which media files are downloaded.
- `TrackEditor` (`frontend/src/components/TrackEditor.js`): id generation, the `trackData`
  record, and the add/update choice. Lemmas compare its ids with the migration's.
- `SectionManager` (`frontend/src/components/SectionManager.js`): the section-id slug, the
  empty-name guards, the visibility flag, and the adjacent swap of a move. The swap is done in
  place on an array copy.
- `Server` (`backend/server.js`): `formatDuration`, the `/tracks` records, the byte-range
  arithmetic and headers of the streaming route, and the album cover.
- `TrackList` and `MusicAppTrackList` (the two `TrackList.js` copies): the total-duration
  header, the song count, and the numbered rows with the playing mark.
- `App` (`frontend/src/App.js`): the playable-track list, and a `Player` class whose methods
  update `playlist`, `currentTrack` and `isPlaying` as the play, next, previous and track-end
  handlers do.
- `StemMixerView` and `StemMixer`: which tracks are offered for mixing, the stem count, the
  initial stem and volume tables, the audio elements, and the toggle and volume controls. The
  mixer's state is a `Mixer` class.
- `UploadMedia` (`upload-media.js`): the split of local media files into new files and files
  the server already has, and the multipart form that is posted.

`Seqs`, `Text` and `Wrappers` hold the JavaScript array and string operations the modules use:
`filter`, `findIndex`, `reduce`, `split`, `padStart`, `replace`, `trim`, `toLowerCase`, and
number printing and parsing.

Notable behaviour of the code as written, each proved in the model:

- The migration treats an empty parent id as no parent. The editor prefixes any parent object's
  id, so under a parent whose id is `""` the two disagree (`EditorDiffersUnderEmptyParentId`).
- A section name made only of punctuation, such as `!`, passes the empty-name guard and gets the
  empty section id (`BlankIdAccepted`).
- The 206 headers for a closed byte range `bytes=a-b` carry exactly `a` and `b`
  (`ClosedRangeUsedAsIs`), even past the end of the file or with `b` below `a`. The streaming
  route does no clamping.
- A header with several ranges is answered with its first range only (`MultipleRangesServeFirst`),
  because `parseInt` stops at the first non-digit.
- The header total drops the seconds from one hour on (`LongTotalReadsBack`).

## Model

| member | source | states |
|---|---|---|
| Text.ParseInt | backend/server.js:1054 | `parseInt(s, 10)`: a string that starts with a digit reads as the number its leading digits spell, whatever follows; an empty string, or one starting with anything but whitespace, a sign or a digit, is NaN (`None`); without a `-` the number is never negative |
| TrackTree.Slug | backend/migrate-track-ids.js:36 | the id slug of a title has no whitespace and no upper-case letter |
| TrackTree.WalkTrack | sync-production.js:66-77 | the pre-order walk of a track starts with the track itself |
| MigrateTrackIds.NewId | backend/migrate-track-ids.js:36-37 | with an empty parent id the new id is the title's slug; otherwise it is the parent id, `-`, then the slug |
| MigrateTrackIds.UpdateEntry | backend/migrate-track-ids.js:33-34 | a null entry stays null and a track is rewritten; with `UpdateTrack`, these are what `EntryKeepsShape` and `EntryIdempotent` are proved about |
| MigrateTrackIds.UpdateTrack | backend/migrate-track-ids.js:36-58 | the copy with the new id, and the subtracks rewritten under that id when the key is present; characterised by `UpdateTrackChildren`, `SubtrackIdsNest`, `MigrationKeepsShape` and `MigrationIdempotent` |
| MigrateTrackIds.UpdateTrackIds | backend/migrate-track-ids.js:32-34 | the rewritten list has the input's length, and an entry is null exactly when the input entry is |
| MigrateTrackIds.UpdateTrackChildren | backend/migrate-track-ids.js:54-56 | a rewritten track's subtracks are its old subtracks rewritten with the track's new id as parent id |
| MigrateTrackIds.MigrationKeepsShape | backend/migrate-track-ids.js:43-46 | the tree walks before and after migration match track by track in every field except `id`, including whether `subtracks` is present |
| MigrateTrackIds.SubtrackIdsNest | backend/migrate-track-ids.js:36-56 | a track's new id is its slug, prefixed by a non-empty parent id; each subtrack's id is the parent's new id, `-`, and the subtrack's slug |
| MigrateTrackIds.MigrationIdempotent | backend/migrate-track-ids.js:36-56 | migrating a migrated list changes nothing |
| MigrateTrackIds.MigratedDocumentIdempotent | backend/migrate-track-ids.js:63-69 | migrating a migrated document changes nothing |
| MigrateTrackIds.MigrateSections | backend/migrate-track-ids.js:63-69 | the document keeps its keys and absent sections are not created; the four fixed sections are rewritten with no parent id; every other key is untouched |
| MigrateTrackIds.Migrate | backend/migrate-track-ids.js:24-81 | when the text does not parse, nothing is written; otherwise exactly two writes: first the original text as backup, then the migrated document |
| SyncProduction.SyncSections | sync-production.js:80-85 | the entries of score, gnomeMusic, outsideScope and bonusUnassigned, in that order, a missing section counting as empty; `OtherSectionsIgnored` shows nothing else contributes |
| SyncProduction.IdsOfCountsTracks | sync-production.js:66-77 | the collected ids are the ids of the walked tracks with a truthy id, in walk order, one per such track; duplicates are kept |
| SyncProduction.IdsPreOrder | sync-production.js:68-75 | a track's id comes before its subtracks' ids, which come before its later siblings' ids; a track without an id still has its subtracks visited |
| SyncProduction.ExtractTrackIds | sync-production.js:66-77 | the loop with its recursive calls returns the ids of the pre-order walk |
| SyncProduction.ExtractFilenames | sync-production.js:110-121 | the loop with its recursive calls returns the truthy filenames of the pre-order walk |
| SyncProduction.CollectTrackIds | sync-production.js:80-85 | the ids of score, gnomeMusic, outsideScope and bonusUnassigned, section after section |
| SyncProduction.CollectFilenames | sync-production.js:124-129 | the filenames of the same four sections, in the same order |
| SyncProduction.OtherSectionsIgnored | sync-production.js:80-85 | changing any key other than the four sections does not change what is collected |
| SyncProduction.MixesWrittenMember | sync-production.js:90-107 | a mixes file is written for a listed id exactly when its fetch is ok and returns an object with at least one key |
| SyncProduction.MixesWritten | sync-production.js:90-107 | the ids whose mixes are saved, in id order; characterised by `MixesWrittenMember` |
| SyncProduction.SaveMixes | sync-production.js:90-107 | the fetch loop writes the files `MixesWritten` lists, in id order |
| SyncProduction.DownloadPlan | sync-production.js:134-141 | the filenames the loop downloads, in order; characterised by `DownloadPlanFacts` |
| SyncProduction.DownloadPlanFacts | sync-production.js:134-141 | the downloaded files are exactly the non-empty filenames not already present, and none is downloaded twice |
| SyncProduction.Downloads | sync-production.js:134-153 | the download loop performs the downloads `DownloadPlan` lists |
| TrackEditor.GenerateUniqueId | frontend/src/components/TrackEditor.js:17-21 | without a parent the id is the title's slug; with a parent object it is the parent's id (even an empty one), `-`, then the slug |
| TrackEditor.TrackData | frontend/src/components/TrackEditor.js:23-29 | keeps the track's id when it is truthy and generates one otherwise: for a new track, and for an existing track whose id is empty. `filename` is null, `status` planned and there are no subtracks; `type` is present exactly when a non-empty type is chosen |
| TrackEditor.HandleSubmit | frontend/src/components/TrackEditor.js:31-54 | with a parent: an add under the parent's id; a new top-level track: an add without a parent; an existing track: an update of title and type only |
| TrackEditor.EditorAgreesWithMigration | frontend/src/components/TrackEditor.js:17-21 | with no parent, or a parent with a non-empty id, the generated id is the migration's id |
| TrackEditor.MigratedSubtrackMatchesEditor | frontend/src/components/TrackEditor.js:17-21 | under a migrated parent with a non-empty id, a subtrack's migrated id is what the editor generates for it |
| TrackEditor.EditorDiffersUnderEmptyParentId | frontend/src/components/TrackEditor.js:20 | under a parent with id `""` the editor's id is `-` followed by the migration's id |
| SectionManager.KeepIdChars | frontend/src/components/SectionManager.js:23 | only `a`-`z` and `0`-`9` remain |
| SectionManager.SectionId | frontend/src/components/SectionManager.js:20-23 | the section id consists of lower-case letters and digits only |
| SectionManager.SectionIdIdempotent | frontend/src/components/SectionManager.js:19-23 | a section id, trimmed or not, maps to itself |
| SectionManager.HandleAddSection | frontend/src/components/SectionManager.js:12-28 | refused exactly when the trimmed name is empty; otherwise adds the trimmed name under its slug |
| SectionManager.HandleRenameSection | frontend/src/components/SectionManager.js:58-72 | refused exactly when the trimmed name is empty; otherwise renames to the slug of the trimmed name |
| SectionManager.AddAndRenameAgree | frontend/src/components/SectionManager.js:65-68 | adding and renaming derive the same id from the same name |
| SectionManager.BlankIdAccepted | frontend/src/components/SectionManager.js:13-23 | the name `!` passes the guard and is added with the empty id |
| SectionManager.HandleToggleVisibility | frontend/src/components/SectionManager.js:86-98 | the request flips the section's hidden flag |
| SectionManager.SectionIds | frontend/src/components/SectionManager.js:135 | the id order has one id per section, in order |
| SectionManager.MovedOrder | frontend/src/components/SectionManager.js:120-130 | a move that goes ahead is a permutation of the same length |
| SectionManager.MoveSwapsNeighbours | frontend/src/components/SectionManager.js:124-130 | a move exchanges the section with its neighbour above (`up`) or below (any other direction) and leaves every other position alone |
| SectionManager.MoveRefused | frontend/src/components/SectionManager.js:121-127 | an unknown id, `up` from the top, or down from the bottom sends nothing |
| SectionManager.UpThenDownRestores | frontend/src/components/SectionManager.js:125-130 | with distinct ids, moving a section up and then down restores the order |
| SectionManager.HandleMoveSection | frontend/src/components/SectionManager.js:120-136 | the in-place swap on the array copy sends the ids of `MovedOrder`, or nothing when it refuses |
| Server.FormatDuration | backend/server.js:262-310 | `m:ss`: splits at the colon into a digit string and exactly two digits, which read back as minutes and seconds below 60 adding up to the input |
| Server.IsMp3 | backend/server.js:422 | the `.mp3` suffix test of the listing filter; `EveryMp3Listed` and `ListedRecords` show it selects exactly the listed files |
| Server.TrackRecordFor | backend/server.js:502-654 | the record for one file: id and filename, name and description and image with their fallbacks, and the formatted duration; characterised by `ListedRecords` and `DefaultNameStripsSuffix` |
| Server.ListTracks | backend/server.js:406-654 | one record per `.mp3` file in directory order, built from its metadata entry and duration |
| Server.TracksResponse | backend/server.js:390-766 | the route answers 500 (`None`) exactly when the directory cannot be listed, or some `.mp3` is listed while `metadata.json` cannot be read or parsed or that file's duration cannot be read; with no `.mp3` an unreadable `metadata.json` gives the empty list; otherwise the records of `ListTracks` |
| Server.ListedRecords | backend/server.js:502-654 | each record's id is its filename, an `.mp3` from the directory; with no metadata entry for the file the name is the filename less `.mp3`, the description empty and the image `default.jpg`; the duration reads back as the file's whole seconds |
| Server.EveryMp3Listed | backend/server.js:406-422 | every `.mp3` file in the directory is listed |
| Server.DefaultNameStripsSuffix | backend/server.js:606 | for a base name without a dot, the fallback name is the base name |
| Server.RangeBounds | backend/server.js:1038-1070 | start and end as `parseInt` reads them from the parts around the first `-`, the end defaulting to `fileSize - 1`; characterised by `ClosedRangeUsedAsIs`, `MultipleRangesServeFirst` and `OpenRangeRunsToEnd` |
| Server.ContentRangeValue | backend/server.js:1118 | the `Content-Range` value `bytes start-end/size`; `ContentRangeRoundTrip` reads it back |
| Server.StatusCode | backend/server.js:926-1246 | 404 for not found, 206 for a range, 200 for the whole file; `Stream` states which one each request gets |
| Server.Stream | backend/server.js:910-1262 | status 404 exactly when the file is missing; 200 with the file size and `audio/mpeg` when there is no range; otherwise 206 headers with the parsed start and end, `Content-Length` `end - start + 1`, the `Content-Range` value, `Accept-Ranges: bytes` and `Content-Type: audio/mpeg` |
| Server.ClosedRangeUsedAsIs | backend/server.js:1038-1070 | the headers for `bytes=a-b` carry `a` and `b`, whatever the file size; non-digit text after `b` without a `-` is ignored |
| Server.MultipleRangesServeFirst | backend/server.js:1038-1070 | for `bytes=a-b,c-d` the headers carry the first range `a` to `b` |
| Server.OpenRangeRunsToEnd | backend/server.js:1038-1070 | `bytes=a-` is served from `a` to `fileSize - 1` |
| Server.ContentRangeRoundTrip | backend/server.js:1118 | reading a `Content-Range` value back gives its start, end and size |
| Server.IsImageName | backend/server.js:1452 | the case-insensitive `.jpg`/`.jpeg`/`.png`/`.gif` suffix test; `FirstImage` and `AlbumCover` are stated with it |
| Server.AlbumCover | backend/server.js:1450-1462 | null exactly when no file is an image; otherwise `/images/` and the first image name in directory order |
| Server.FirstImage | backend/server.js:1450-1456 | the first filtered image is the earliest image in the directory |
| TrackList.DurationSeconds | frontend/src/components/TrackList.js:173-174 | `parseInt(minutes) * 60 + parseInt(seconds)` of a readable duration; characterised by `FormattedDurationReadsBack` and `TrailingTextIgnored` |
| TrackList.TrailingTextIgnored | frontend/src/components/TrackList.js:173-174 | `M:SS` followed by text that does not start with a digit and has no colon reads as `M*60 + SS` |
| TrackList.TotalSeconds | frontend/src/components/TrackList.js:172-175 | the `reduce` of the durations from 0; characterised by `TotalOrderIndependent`, `TotalOfAppend` and `TotalOverServerDurations` |
| TrackList.FormatTotal | frontend/src/components/TrackList.js:177-184 | the header text for a total; characterised by `ShortTotalReadsBack` and `LongTotalReadsBack` |
| TrackList.CalculateTotalDuration | frontend/src/components/TrackList.js:171-185 | `FormatTotal` of `TotalSeconds`; `EmptyListTotal` and `MusicAppTrackList.SameAsFrontend` are stated about it |
| TrackList.TotalOrderIndependent | frontend/src/components/TrackList.js:172-175 | the total seconds do not depend on the order of the tracks |
| TrackList.TotalOfAppend | frontend/src/components/TrackList.js:172-175 | the total over two lists is the sum of their totals |
| TrackList.Breakdown | frontend/src/components/TrackList.js:177-179 | `hours*3600 + minutes*60 + seconds` is the total, with minutes and seconds below 60 |
| TrackList.PhraseReadsBack | frontend/src/components/TrackList.js:182-184 | the header text splits into two numbers and two units, and the numbers read back |
| TrackList.ShortTotalReadsBack | frontend/src/components/TrackList.js:181-184 | under an hour the header is `M min S sec` and reads back as the exact total |
| TrackList.LongTotalReadsBack | frontend/src/components/TrackList.js:181-183 | from an hour on the header is `H hr M min`, drops the seconds and reads back within a minute below the total |
| TrackList.EmptyListTotal | frontend/src/components/TrackList.js:172-184 | no tracks gives `0 min 0 sec` |
| TrackList.FormattedDurationReadsBack | frontend/src/components/TrackList.js:173-174 | every duration the server formats is readable and reads back as its whole seconds |
| TrackList.TotalOverServerDurations | frontend/src/components/TrackList.js:172-175 | the total over the server's formatted durations is the sum of the floored durations |
| TrackList.SongCount | frontend/src/components/TrackList.js:245 | the label is the number of tracks followed by ` songs` |
| TrackList.Rows | frontend/src/components/TrackList.js:258-269 | one row per track in order, numbered `index + 1`, marked playing exactly when its id is the current track's id |
| TrackList.OnePlayingRow | frontend/src/components/TrackList.js:261-265 | with distinct ids at most one row is playing, and it is the current track's row |
| MusicAppTrackList.CalculateTotalDuration | music-app-frontend/src/components/TrackList.js:33-47 | the second copy of the header total; `SameAsFrontend` proves it equal to the frontend's |
| MusicAppTrackList.SameAsFrontend | music-app-frontend/src/components/TrackList.js:33-47 | the music app's copy gives the frontend's text for every input |
| MusicAppTrackList.ShortTotalIsSum | music-app-frontend/src/components/TrackList.js:34-46 | under an hour its text reads back as the sum of the track durations |
| MusicAppTrackList.EmptyListTotal | music-app-frontend/src/components/TrackList.js:34-46 | no tracks gives `0 min 0 sec` |
| App.GetAllPlayableTracks | frontend/src/App.js:2009-2016 | empty while no track list is loaded; every playable track has a filename |
| App.PlayableMember | frontend/src/App.js:2011-2015 | a track is playable exactly when it has a filename and is a top-level entry of score, gnomeMusic or outsideScope |
| App.PlayableOrder | frontend/src/App.js:2011-2015 | the playable tracks come section by section (score, gnomeMusic, outsideScope), each in list order |
| App.OtherSectionsNotPlayable | frontend/src/App.js:2011-2014 | bonusUnassigned and every other key do not affect the playable list |
| App.PlayTrackStep | frontend/src/App.js:2018-2029 | the state after `handlePlayTrack`; characterised by `PlayUnknownTrack` and `PlayKnownTrack` |
| App.TrackEndStep | frontend/src/App.js:2031-2043 | the state after `handleTrackEnd`; characterised by `TrackEndMoves` and `EmptyPlaylistNoOps` |
| App.NextStep | frontend/src/App.js:2045-2053 | the state after `handleNextTrack`; characterised by `NextMoves`, `CurrentNotInPlaylist` and `NextThenPrevious` |
| App.PreviousStep | frontend/src/App.js:2055-2063 | the state after `handlePreviousTrack`; characterised by `PreviousMoves`, `CurrentNotInPlaylist` and `NextThenPrevious` |
| App.StepsPreserveValid | frontend/src/App.js:2018-2063 | every handler keeps: something is current while playing, and the playlist and current track have filenames |
| App.PlayUnknownTrack | frontend/src/App.js:2020-2028 | playing a track that is not playable replaces the playlist and leaves the current track and the playing flag alone |
| App.PlayKnownTrack | frontend/src/App.js:2024-2027 | playing a playable track makes its first occurrence current and sets playing |
| App.EmptyPlaylistNoOps | frontend/src/App.js:2031-2063 | with an empty playlist, track end, next and previous change nothing |
| App.NextMoves | frontend/src/App.js:2045-2053 | next at the last index changes nothing; otherwise it plays the following track |
| App.PreviousMoves | frontend/src/App.js:2055-2063 | previous at index 0 changes nothing; otherwise it plays the preceding track |
| App.TrackEndMoves | frontend/src/App.js:2031-2043 | track end at the last index stops playing on the same track; otherwise it acts as next |
| App.CurrentNotInPlaylist | frontend/src/App.js:2047-2059 | with the current track missing from the playlist, next plays the first track and previous does nothing |
| App.NextThenPrevious | frontend/src/App.js:2045-2063 | from an interior track, with distinct ids, next then previous returns to the current track's playlist entry, playing |
| App.Player.constructor | frontend/src/App.js:1991-1995 | the initial state: empty playlist, no current track, not playing, no track list |
| App.Player.LoadTrackList | frontend/src/App.js:1997-2006 | storing the fetched document changes no playback state |
| App.Player.HandlePlayTrack | frontend/src/App.js:2018-2029 | the new state is `PlayTrackStep` over the playable tracks |
| App.Player.HandleTrackEnd | frontend/src/App.js:2031-2043 | the new state is `TrackEndStep` of the old |
| App.Player.HandleNextTrack | frontend/src/App.js:2045-2053 | the new state is `NextStep` of the old |
| App.Player.HandlePreviousTrack | frontend/src/App.js:2055-2063 | the new state is `PreviousStep` of the old |
| StemMixerView.HasStemsIffCount | frontend/src/components/StemMixerView.js:28-54 | a track is offered exactly when its shown stem count is at least 1 |
| StemMixerView.SectionStems | frontend/src/components/StemMixerView.js:27-33 | one section's tracks with stems, tagged with the section; characterised by `SectionStemsMember` |
| StemMixerView.AllStems | frontend/src/components/StemMixerView.js:26-35 | every section's `SectionStems`, in entry order; characterised by `AllStemsMember` and `AllStemsAppend` |
| StemMixerView.GetTracksWithStems | frontend/src/components/StemMixerView.js:22-38 | empty while no track list is loaded; otherwise the nested loops produce `AllStems` of the entries |
| StemMixerView.SectionStemsMember | frontend/src/components/StemMixerView.js:27-33 | within a section: exactly the top-level tracks with a stem, each tagged with the section; the parent's own filename is not checked |
| StemMixerView.AllStemsMember | frontend/src/components/StemMixerView.js:26-35 | overall: exactly the top-level tracks with a stem of some section, tagged with that section |
| StemMixerView.ListedTracksHaveStems | frontend/src/components/StemMixerView.js:28-54 | every offered track shows at least one stem |
| StemMixerView.AllStemsAppend | frontend/src/components/StemMixerView.js:26-35 | sections keep their order in the result |
| StemMixer.InitialStems | frontend/src/components/StemMixer.js:20-26 | the stem table the effect builds; characterised by `InitialVolumesKeys` and `InitialStemsFacts` |
| StemMixer.InitialVolumes | frontend/src/components/StemMixer.js:21-27 | the volume table the effect builds; characterised by `InitialVolumesKeys`, `InitialVolumesInRange`, `StemsStartMuted` and `VolumesMatchAudio` |
| StemMixer.AudioFor | frontend/src/components/StemMixer.js:35-39 | the audio element for one stem: source under `/tracks/`, looping, volume 1 for the main track and 0 otherwise; `VolumesMatchAudio` compares it with the table |
| StemMixer.ToggledVolume | frontend/src/components/StemMixer.js:81-91 | the volume a toggle lands on; characterised by `ToggleFacts` |
| StemMixer.InitialVolumesKeys | frontend/src/components/StemMixer.js:16-29 | the stem and volume tables have the same keys: the main id and the id of every subtrack with a filename |
| StemMixer.InitialVolumesInRange | frontend/src/components/StemMixer.js:20-27 | every initial volume is 0 or 1 |
| StemMixer.StemsStartMuted | frontend/src/components/StemMixer.js:24-28 | every stem starts at volume 0 |
| StemMixer.VolumesMatchAudio | frontend/src/components/StemMixer.js:20-39 | unless a stem reuses the main id, the main track starts at 1 and every id's volume is its audio element's starting volume |
| StemMixer.InitialStemsFacts | frontend/src/components/StemMixer.js:20-26 | each loaded stem is filed under its own id, has a filename, and is the main track or one of its subtracks |
| StemMixer.MigratedTrackVolumesAgree | frontend/src/components/StemMixer.js:35-39 | for a migrated track with a non-empty id no stem reuses the main id, so the table and the audio elements agree |
| StemMixer.ToggleFacts | frontend/src/components/StemMixer.js:81-91 | a toggle lands on 0, 0.7 or 1, gives 0 exactly for a sounding stem, and toggling a muted stem twice mutes it again |
| StemMixer.Mixer.constructor | frontend/src/components/StemMixer.js:6-8 | the tables start empty |
| StemMixer.Mixer.SelectTrack | frontend/src/components/StemMixer.js:14-55 | old audio elements are dropped; for a track with a filename the tables become `InitialStems`/`InitialVolumes` with one element per stem; otherwise the tables are kept |
| StemMixer.Mixer.ToggleStem | frontend/src/components/StemMixer.js:78-95 | only that stem's table entry and element volume change, to `ToggledVolume`; nothing changes without an element |
| StemMixer.Mixer.AdjustVolume | frontend/src/components/StemMixer.js:97-103 | only that stem's entry and element take the new volume; nothing changes without an element |
| UploadMedia.NewFiles | upload-media.js:21 | the local files the server lacks; characterised by `Partition` and `NewFilesKeepOrder` |
| UploadMedia.DuplicateFiles | upload-media.js:22 | the local files the server has; characterised by `Partition` |
| UploadMedia.Partition | upload-media.js:21-22 | a local file is new exactly when the server lacks it and a duplicate exactly when it has it; never both; together the two lists are the local listing |
| UploadMedia.NewFilesKeepOrder | upload-media.js:21 | the new files keep the local order |
| UploadMedia.FormFor | upload-media.js:36-45 | one part per new file in order, then `metadata.json` |
| UploadMedia.UploadFiles | upload-media.js:21-45 | nothing is posted exactly when no file is new; otherwise the posted form is `FormFor` of the new files |
| UploadMedia.FormContents | upload-media.js:36-45 | the form's file parts are exactly the local files the server lacks, and `metadata.json` is last |

## Left out

- HTTP, filesystem and network I/O: Express routing, `fs`, axios, `fetch` and `https.get`. Directory listings, file existence, file sizes, fetched documents and responses become parameters, and results are returned as values (records, headers, write lists, forms).
- Server.TracksResponse: `metadata.json` is read and parsed once per `.mp3` file, concurrently. The model reads it once, so every read is taken to see the same content (the file changing mid-request is not modelled). `Server.ListTracks` is the success path only; the 500 outcome is in `TracksResponse`.
- Audio playback: fades, `performance.now`/`requestAnimationFrame`, `togglePlayback`, the time-sync interval and the `Audio` element beyond its source, loop flag and volume. Every control is taken as the moment its fade completes.
- `getAudioDurationInSeconds` is a foreign library that returns a float. The model takes the whole, floored number of seconds.
- Lower-casing is ASCII only. `\s` is a fixed set of whitespace characters.
- Server.Stream: requires `parseInt` to yield a number for the first part and for a non-empty second part. Headers where it gives NaN are not modelled. These include suffix ranges such as `bytes=-500` and parts with no leading digits such as `bytes=x-`. What happens next with NaN is left out: the headers carry `NaN` and the read stream then throws.
- Server.Stream: the model gives the 206 headers only. When `start > end`, or `end < 0` (an open range on an empty file), `fs.createReadStream` throws after the headers are written, so no body follows. When `end` is past the last byte, the stream stops at the end of the file, and the `Content-Length` is larger than the body sent. Neither is modelled.
- Server.Stream: there is no clamping, no 416 response and no handling of multiple ranges in the code, so none in the model; a multi-range header gets its first range.
- TrackList.CalculateTotalDuration: requires every duration to have a colon, with `parseInt` of both parts giving a non-negative decimal number. Strings that give NaN are not modelled. Neither are negative parts (`-3:07`, where `Math.floor` and `%` of a negative total apply) or a part with a `0x` prefix (which `parseInt` without a radix reads as hexadecimal).
- MigrateTrackIds.Migrate: titles are always strings in the model. In the code, a track whose `title` is missing or not a string throws in `updateTrackIds` after the backup is written. The script then exits with only the backup written; the model does not capture that outcome.
- SyncProduction.ExtractTrackIds, SyncProduction.ExtractFilenames, SyncProduction.CollectTrackIds and SyncProduction.CollectFilenames: require trees without null entries, since the code reads `track.id` of every entry and throws on null.
- App.GetAllPlayableTracks: requires no null top-level entry in the three sections, since the filter reads `track.filename` and would throw.
- App.NextStep, App.PreviousStep and App.TrackEndStep: require a current track whenever the playlist is non-empty, since the handlers read `currentTrack.id`. The player controls only render while a track is current.
- SyncProduction.Downloads: every planned download is taken to leave a file of that name, and the model does not track file contents. The code has three failure cases:
  - A 401 response rejects without removing the file the write stream already created, so an empty file stays behind. That matches the model: a later copy of the name is skipped.
  - Any other error status (404, 500) writes the response body to the file and counts as downloaded.
  - Only a network error removes the file. A later copy of the same name would then be tried again, which the model does not capture.
- StemMixer.VolumesMatchAudio: proved only when no stem reuses the main track's id. If one does, its table entry is 0 while its element starts at 1.
- StemMixer.Mixer.ToggleStem: for a stem without an audio element the fade throws inside its animation frame and the promise never settles. This is modelled as no change.
- StemMixer.Mixer.AdjustVolume: requires a volume in [0, 1], the range an audio element accepts and the slider produces.
- JSON `null` and a missing key are not told apart: `filename` None stands for both, and `Subtracks.Absent` for a missing or null `subtracks`.
- In `Object.entries(trackList)`, the order of keys is an input sequence. Directory order is likewise an input.
- JavaScript numbers are doubles: file sizes, byte offsets, durations and their sums are exact only below 2^53. The model uses unbounded integers.
- Logging, the backup file's timestamped path, directory creation, the `npm install` step, the album-information constants and all rendering are left out.
- The selected-track highlight of the stem-mixer page and the album-cover URL prefix are presentation only and are left out.
- The mutation endpoints a fuller server offers (assign, add, delete, move, reorder, backup pruning, the stem-mix store) are not in `backend/server.js`, so they are not modelled.
