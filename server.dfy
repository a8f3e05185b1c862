/** The early Express server: the `m:ss` duration format, the `/tracks` listing, the byte-range
    arithmetic of the streaming route, and the album-cover choice. */
module Server {
  import opened Wrappers
  import opened Seqs
  import opened Text

  /** `formatDuration(seconds)` for a whole, non-negative number of seconds: the minutes (not
      wrapped into hours), a colon, and the remaining seconds padded to two digits. */
  function FormatDuration(seconds: nat): (r: string)
    ensures var parts := Split(r, ':');
      && |parts| == 2
      && parts[0] != [] && IsDigits(parts[0])
      && |parts[1]| == 2 && IsDigits(parts[1])
      && ParseNat(parts[0]) == seconds / 60
      && ParseNat(parts[1]) == seconds % 60 < 60
      && ParseNat(parts[0]) * 60 + ParseNat(parts[1]) == seconds
  {
    var minutes := NatToString(seconds / 60);
    var remaining := PadStart(NatToString(seconds % 60), 2, '0');
    FormatDurationParts(seconds);
    minutes + ":" + remaining
  }

  lemma FormatDurationParts(seconds: nat)
    ensures var minutes := NatToString(seconds / 60);
      var remaining := PadStart(NatToString(seconds % 60), 2, '0');
      && Split(minutes + ":" + remaining, ':') == [minutes, remaining]
      && |remaining| == 2 && IsDigits(remaining)
      && ParseNat(minutes) == seconds / 60
      && ParseNat(remaining) == seconds % 60
  {
    var minutes := NatToString(seconds / 60);
    var digits := NatToString(seconds % 60);
    var remaining := PadStart(digits, 2, '0');
    ParseNatToString(seconds / 60);
    ParseNatToString(seconds % 60);
    if |digits| < 2 {
      assert remaining == "0" + digits;
      ParseNatLeadingZero(digits);
    } else {
      var x := seconds % 60;
      assert NatToString(x) == NatToString(x / 10) + [DigitChar(x % 10)];
      assert |NatToString(x / 10)| == 1;
    }
    DigitsHaveNo(minutes, ':');
    DigitsHaveNo(remaining, ':');
    SplitTwo(minutes, ':', remaining);
  }

  /** The entry of `metadata.json` for one file; a missing entry reads as `{}`. */
  datatype TrackInfo = TrackInfo(name: Option<string>, description: Option<string>, image: Option<string>)

  /** One record of the `/tracks` response. */
  datatype TrackRecord = TrackRecord(
    id: string, filename: string, name: string, description: string, image: string, duration: string)

  /** `value || fallback` for an optional string. */
  function OrDefault(value: Option<string>, fallback: string): string
  {
    if value.Some? && value.value != "" then value.value else fallback
  }

  predicate IsMp3(file: string) { EndsWith(file, ".mp3") }

  /** The record built for one listed file, given its whole-second duration. */
  function TrackRecordFor(filename: string, metadata: map<string, TrackInfo>, seconds: nat): TrackRecord
  {
    var info := if filename in metadata then metadata[filename] else TrackInfo(None, None, None);
    TrackRecord(
      filename,
      filename,
      OrDefault(info.name, ReplaceFirst(filename, ".mp3", "")),
      OrDefault(info.description, ""),
      OrDefault(info.image, "default.jpg"),
      FormatDuration(seconds))
  }

  /** `GET /tracks`: the directory's `.mp3` names, in directory order, each turned into a record;
      `durationOf` gives the floored duration the audio library reports. */
  function ListTracks(files: seq<string>, metadata: map<string, TrackInfo>, durationOf: string -> nat): (r: seq<TrackRecord>)
    ensures |r| == |Filter(files, IsMp3)|
    ensures forall i :: 0 <= i < |r| ==>
      var file := Filter(files, IsMp3)[i];
      r[i] == TrackRecordFor(file, metadata, durationOf(file))
  {
    var mp3s := Filter(files, IsMp3);
    seq(|mp3s|, i requires 0 <= i < |mp3s| => TrackRecordFor(mp3s[i], metadata, durationOf(mp3s[i])))
  }

  /** Membership in the `.mp3` filter, for every name at once. */
  lemma Mp3sOf(files: seq<string>)
    ensures forall f :: f in Filter(files, IsMp3) <==> f in files && IsMp3(f)
  {
    forall f {
      FilterMember(files, IsMp3, f);
    }
  }

  /** The metadata read for the listing, `{}` standing in when there is no file to read it for. */
  function MetadataOrEmpty(metadata: Option<map<string, TrackInfo>>): map<string, TrackInfo>
  {
    if metadata.Some? then metadata.value else map[]
  }

  /** The durations the audio library reports, 0 standing in for files it is never asked about. */
  function KnownSeconds(durationOf: string -> Option<nat>): string -> nat
  {
    f => if durationOf(f).Some? then durationOf(f).value else 0
  }

  /** The `/tracks` route with its failures: `None` is the catch's 500 `Failed to read tracks`.
      `files` is `None` when `fs.readdirSync` throws, `metadata` is `None` when `metadata.json`
      cannot be read or parsed (it is read once per `.mp3`, so only a listing with an `.mp3`
      notices), and `durationOf` is `None` for a file whose duration cannot be read. One failure
      rejects the whole `Promise.all`, so nothing is listed. */
  function TracksResponse(files: Option<seq<string>>, metadata: Option<map<string, TrackInfo>>,
                          durationOf: string -> Option<nat>): (r: Option<seq<TrackRecord>>)
    ensures r.None? <==>
      files.None? || exists f :: f in files.value && IsMp3(f) && (metadata.None? || durationOf(f).None?)
    ensures files.Some? && metadata.None? && (forall f :: f in files.value ==> !IsMp3(f)) ==> r == Some([])
    ensures r.Some? ==> r.value == ListTracks(files.value, MetadataOrEmpty(metadata), KnownSeconds(durationOf))
  {
    if files.None? then None
    else
      var mp3s := Filter(files.value, IsMp3);
      Mp3sOf(files.value);
      if mp3s != [] && metadata.None? then assert mp3s[0] in mp3s; None
      else if exists f :: f in mp3s && durationOf(f).None? then None
      else Some(ListTracks(files.value, MetadataOrEmpty(metadata), KnownSeconds(durationOf)))
  }

  /** What each listed record promises: only `.mp3` files, id equal to the filename, the defaults
      for missing metadata, and a duration that parses back to the file's whole seconds. */
  lemma ListedRecords(files: seq<string>, metadata: map<string, TrackInfo>, durationOf: string -> nat, i: nat)
    requires i < |ListTracks(files, metadata, durationOf)|
    ensures var rec := ListTracks(files, metadata, durationOf)[i];
      && rec.id == rec.filename && rec.filename in files && IsMp3(rec.filename)
      && (rec.filename !in metadata ==>
            rec.name == ReplaceFirst(rec.filename, ".mp3", "") && rec.description == "" && rec.image == "default.jpg")
      && var parts := Split(rec.duration, ':');
         |parts| == 2 && ParseNat(parts[0]) * 60 + ParseNat(parts[1]) == durationOf(rec.filename)
  {
    var mp3s := Filter(files, IsMp3);
    assert mp3s[i] in mp3s;
  }

  /** Every `.mp3` file in the directory is listed. */
  lemma EveryMp3Listed(files: seq<string>, metadata: map<string, TrackInfo>, durationOf: string -> nat, file: string)
    requires file in files && IsMp3(file)
    ensures exists i :: 0 <= i < |ListTracks(files, metadata, durationOf)| && ListTracks(files, metadata, durationOf)[i].id == file
  {
    FilterMember(files, IsMp3, file);
    var mp3s := Filter(files, IsMp3);
    var i :| 0 <= i < |mp3s| && mp3s[i] == file;
    assert ListTracks(files, metadata, durationOf)[i].id == file;
  }

  /** The name fallback strips the first `.mp3`: for a base name without a dot, that gives
      the base name back. */
  lemma {:induction false} DefaultNameStripsSuffix(base: string)
    requires '.' !in base
    ensures ReplaceFirst(base + ".mp3", ".mp3", "") == base
  {
    if base == [] {
      ReplaceFirstAtStart(".mp3", "");
      assert [] + ".mp3" == ".mp3" + [];
    } else {
      var s := base + ".mp3";
      assert s[..4][0] == base[0] != '.';
      assert s[1..] == base[1..] + ".mp3";
      DefaultNameStripsSuffix(base[1..]);
      assert [base[0]] + base[1..] == base;
    }
  }

  /** The `Range` header, when the code gets numbers out of it: after removing the first `bytes=`
      and splitting at every `-`, `parseInt` of the first part is a number, and so is `parseInt`
      of the second part when that part is present and non-empty. Text after the leading digits
      of a part is ignored, so `bytes=0-99,200-299` and `bytes=5-7x` qualify. */
  predicate WellFormedRange(range: string)
  {
    var parts := Split(ReplaceFirst(range, "bytes=", ""), '-');
    ParseInt(parts[0]).Some? && (|parts| > 1 && parts[1] != [] ==> ParseInt(parts[1]).Some?)
  }

  /** `start` and `end` as the handler computes them: an absent or empty second part gives
      `fileSize - 1`; anything else is taken as read, with no clamping against the size. The
      start is never negative, since the first part holds no `-`. */
  function RangeBounds(range: string, fileSize: nat): (r: (nat, int))
    requires WellFormedRange(range)
  {
    var parts := Split(ReplaceFirst(range, "bytes=", ""), '-');
    var start := ParseInt(parts[0]).value;
    var end := if |parts| > 1 && parts[1] != [] then ParseInt(parts[1]).value else fileSize - 1;
    (start, end)
  }

  /** The header value `bytes ${start}-${end}/${fileSize}`. */
  function ContentRangeValue(start: nat, end: int, fileSize: nat): string
  {
    "bytes " + NatToString(start) + "-" + IntToString(end) + "/" + NatToString(fileSize)
  }

  /** The response of `GET /tracks/:filename`, status and headers; the body is the byte stream
      of the file (from `start` to `end` inclusive for a range). */
  datatype StreamResponse =
    | NotFound
    | Partial(contentRange: string, acceptRanges: string, contentLength: int, contentType: string, start: nat, end: int)
    | Full(fileLength: nat, mimeType: string)

  /** The status `res.writeHead` or `res.status` sets for a response. */
  function StatusCode(r: StreamResponse): nat
  {
    match r
    case NotFound => 404
    case Partial(_, _, _, _, _, _) => 206
    case Full(_, _) => 200
  }

  /** The streaming handler given whether the file exists, its size, and the `Range` header. */
  function Stream(exists_: bool, fileSize: nat, range: Option<string>): (r: StreamResponse)
    requires range.Some? && range.value != "" ==> WellFormedRange(range.value)
    ensures !exists_ <==> r == NotFound
    ensures StatusCode(r) == if !exists_ then 404 else if range.None? || range.value == "" then 200 else 206
    ensures exists_ && (range.None? || range.value == "") ==> r == Full(fileSize, "audio/mpeg")
    ensures exists_ && range.Some? && range.value != "" ==>
      var (start, end) := RangeBounds(range.value, fileSize);
      && r.Partial? && r.start == start && r.end == end
      && r.contentLength == end - start + 1
      && r.contentRange == ContentRangeValue(start, end, fileSize)
      && r.acceptRanges == "bytes" && r.contentType == "audio/mpeg"
  {
    if !exists_ then NotFound
    else if range.Some? && range.value != "" then
      var (start, end) := RangeBounds(range.value, fileSize);
      Partial(ContentRangeValue(start, end, fileSize), "bytes", end - start + 1, "audio/mpeg", start, end)
    else Full(fileSize, "audio/mpeg")
  }

  /** `bytes=x-y` splits into `x` and `y` when neither holds a `-`. */
  lemma RangeParts(x: string, y: string)
    requires '-' !in x && '-' !in y
    ensures Split(ReplaceFirst("bytes=" + x + "-" + y, "bytes=", ""), '-') == [x, y]
  {
    var rest := x + "-" + y;
    assert "bytes=" + x + "-" + y == "bytes=" + rest;
    ReplaceFirstAtStart("bytes=", rest);
    SplitTwo(x, '-', y);
  }

  /** `bytes=x-y-z` splits into three parts when none holds a `-`. */
  lemma ThreeRangeParts(x: string, y: string, z: string)
    requires '-' !in x && '-' !in y && '-' !in z
    ensures Split(ReplaceFirst("bytes=" + (x + "-" + y + "-" + z), "bytes=", ""), '-') == [x, y, z]
  {
    ReplaceFirstAtStart("bytes=", x + "-" + y + "-" + z);
    SplitThree(x, '-', y, z);
  }

  /** The bounds read from a header whose first two parts start with the digits of `a` and `b`. */
  lemma BoundsFromParts(h: string, a: nat, b: nat, fileSize: nat)
    requires var parts := Split(ReplaceFirst(h, "bytes=", ""), '-');
      |parts| >= 2 && parts[1] != [] && ParseInt(parts[0]) == Some(a as int) && ParseInt(parts[1]) == Some(b as int)
    ensures WellFormedRange(h) && RangeBounds(h, fileSize) == (a, b)
  {
  }

  /** `parseInt(String(n) + tail)` is `n` when `tail` does not start with a digit. */
  lemma ParseIntOfNat(n: nat, tail: string)
    requires tail == [] || !IsDigit(tail[0])
    ensures ParseInt(NatToString(n) + tail) == Some(n as int)
  {
    ParseIntDigitsThen(NatToString(n), tail);
    ParseNatToString(n);
  }

  /** The headers for `bytes=a-b` carry exactly `a` and `b`, even when `b` is past the end of the
      file or below `a`; text after the digits of `b` that holds no `-` (`bytes=5-7x`) is ignored. */
  lemma ClosedRangeUsedAsIs(a: nat, b: nat, tail: string, fileSize: nat)
    requires '-' !in tail && (tail == [] || !IsDigit(tail[0]))
    ensures WellFormedRange("bytes=" + NatToString(a) + "-" + NatToString(b) + tail)
    ensures RangeBounds("bytes=" + NatToString(a) + "-" + NatToString(b) + tail, fileSize) == (a, b)
  {
    var x, y := NatToString(a), NatToString(b) + tail;
    DigitsHaveNo(x, '-');
    DigitsHaveNo(NatToString(b), '-');
    RangeParts(x, y);
    assert "bytes=" + NatToString(a) + "-" + NatToString(b) + tail == "bytes=" + x + "-" + y;
    ParseIntOfNat(a, []);
    assert x + [] == x;
    ParseIntOfNat(b, tail);
    BoundsFromParts("bytes=" + x + "-" + y, a, b, fileSize);
  }

  lemma ThreePartBounds(x: string, y: string, z: string, a: nat, b: nat, fileSize: nat)
    requires '-' !in x && '-' !in y && '-' !in z && y != []
    requires ParseInt(x) == Some(a as int) && ParseInt(y) == Some(b as int)
    ensures WellFormedRange("bytes=" + (x + "-" + y + "-" + z))
    ensures RangeBounds("bytes=" + (x + "-" + y + "-" + z), fileSize) == (a, b)
  {
    ThreeRangeParts(x, y, z);
    BoundsFromParts("bytes=" + (x + "-" + y + "-" + z), a, b, fileSize);
  }

  /** A header with several ranges, `bytes=a-b,c-d` (`later` is `,c`), is answered with the first
      range only: whatever follows the digits of `b` up to the next `-` is ignored. */
  lemma {:induction false} MultipleRangesServeFirst(a: string, b: string, later: string, d: string, fileSize: nat)
    requires a != [] && b != [] && IsDigits(a) && IsDigits(b)
    requires later != [] && !IsDigit(later[0]) && '-' !in later && '-' !in d
    ensures WellFormedRange("bytes=" + (a + "-" + (b + later) + "-" + d))
    ensures RangeBounds("bytes=" + (a + "-" + (b + later) + "-" + d), fileSize) == (ParseNat(a), ParseNat(b))
  {
    DigitsHaveNo(a, '-');
    DigitsHaveNo(b, '-');
    ParseIntDigits(a);
    ParseIntDigitsThen(b, later);
    ThreePartBounds(a, b + later, d, ParseNat(a), ParseNat(b), fileSize);
  }

  /** An open range `bytes=a-` runs to the last byte, `fileSize - 1`. */
  lemma OpenRangeRunsToEnd(a: nat, fileSize: nat)
    ensures WellFormedRange("bytes=" + NatToString(a) + "-")
    ensures RangeBounds("bytes=" + NatToString(a) + "-", fileSize) == (a, fileSize - 1)
  {
    var x := NatToString(a);
    DigitsHaveNo(x, '-');
    RangeParts(x, "");
    assert "bytes=" + x + "-" == "bytes=" + x + "-" + "";
    ParseIntOfNat(a, []);
    assert x + [] == x;
  }

  /** Reading a `Content-Range` value back: the three numbers after `bytes `. */
  function ParseContentRange(value: string): Option<(nat, nat, nat)>
  {
    if |value| < 6 || value[..6] != "bytes " then None
    else
      var halves := Split(value[6..], '/');
      if |halves| != 2 || !IsDigits(halves[1]) then None
      else
        var bounds := Split(halves[0], '-');
        if |bounds| != 2 || !IsDigits(bounds[0]) || !IsDigits(bounds[1]) then None
        else Some((ParseNat(bounds[0]), ParseNat(bounds[1]), ParseNat(halves[1])))
  }

  /** `bytes a-b/z` written with digit strings reads back as those three numbers. */
  lemma ParseDigitsRange(a: string, b: string, z: string)
    requires IsDigits(a) && IsDigits(b) && IsDigits(z)
    ensures ParseContentRange("bytes " + ((a + "-" + b) + "/" + z)) == Some((ParseNat(a), ParseNat(b), ParseNat(z)))
  {
    var v := "bytes " + ((a + "-" + b) + "/" + z);
    assert v[..6] == "bytes ";
    assert v[6..] == (a + "-" + b) + "/" + z;
    DigitsHaveNo(z, '/');
    DigitsHaveNo(a, '/');
    DigitsHaveNo(b, '/');
    assert '/' !in a + "-" + b;
    SplitTwo(a + "-" + b, '/', z);
    DigitsHaveNo(a, '-');
    DigitsHaveNo(b, '-');
    SplitTwo(a, '-', b);
  }

  /** A client reading the header of a 206 response recovers start, end and size exactly. */
  lemma ContentRangeRoundTrip(start: nat, end: nat, fileSize: nat)
    ensures ParseContentRange(ContentRangeValue(start, end, fileSize)) == Some((start, end, fileSize))
  {
    var a, b, z := NatToString(start), NatToString(end), NatToString(fileSize);
    assert IntToString(end) == b;
    assert ContentRangeValue(start, end, fileSize) == "bytes " + ((a + "-" + b) + "/" + z);
    ParseDigitsRange(a, b, z);
    ParseNatToString(start);
    ParseNatToString(end);
    ParseNatToString(fileSize);
  }

  /** `/\.(jpg|jpeg|png|gif)$/i`. */
  predicate IsImageName(file: string)
  {
    var lower := Lower(file);
    EndsWith(lower, ".jpg") || EndsWith(lower, ".jpeg") || EndsWith(lower, ".png") || EndsWith(lower, ".gif")
  }

  /** `GET /album-info`: the first image name in directory order, as `/images/<name>`, or null. */
  function AlbumCover(files: seq<string>): (r: Option<string>)
    ensures r.None? <==> forall i :: 0 <= i < |files| ==> !IsImageName(files[i])
    ensures r.Some? ==> exists i :: (0 <= i < |files| && IsImageName(files[i])
      && r.value == "/images/" + files[i]
      && forall j :: 0 <= j < i ==> !IsImageName(files[j]))
  {
    var images := Filter(files, IsImageName);
    FirstImage(files);
    if |images| > 0 then Some("/images/" + images[0]) else None
  }

  lemma {:induction false} FirstImage(files: seq<string>)
    ensures var images := Filter(files, IsImageName);
      && (images == [] <==> forall i :: 0 <= i < |files| ==> !IsImageName(files[i]))
      && (images != [] ==> exists i :: (0 <= i < |files| && images[0] == files[i] && IsImageName(files[i])
            && forall j :: 0 <= j < i ==> !IsImageName(files[j])))
  {
    if files != [] {
      FirstImage(files[1..]);
      if !IsImageName(files[0]) {
        var images := Filter(files, IsImageName);
        if images != [] {
          var i :| 0 <= i < |files[1..]| && images[0] == files[1..][i] && IsImageName(files[1..][i])
            && forall j :: 0 <= j < i ==> !IsImageName(files[1..][j]);
          assert images[0] == files[i + 1];
          assert forall j :: 0 <= j < i + 1 ==> !IsImageName(files[j]) by {
            forall j | 0 <= j < i + 1 ensures !IsImageName(files[j]) {
              if j > 0 { assert files[j] == files[1..][j - 1]; }
            }
          }
        }
      }
    }
  }
}
