/** Download bookkeeping (utils/downloader.py): the metadata cache of
    `VideoInfoExtractor`, the aggregations over thumbnails and encodings, the
    option record and final file name of `VideoDownloader.download`, its
    cancellation flag and progress hook, and playlist URL collection. Every
    call into yt-dlp is a parameter holding what that call returned. */
module Downloader {
  import opened Common
  import opened Text
  import opened FormatHandler
  import FileUtils

  // ------------------------------------------------------------- thumbnails

  /** One element of `thumbnails`: `None` for a null or non-dict element. */
  datatype Thumb = Thumb(url: Option<string>, width: Option<int>, height: Option<int>)

  /** `t and isinstance(t, dict) and t.get('url')`. */
  predicate ValidThumb(t: Option<Thumb>)
  {
    t.Some? && Truthy(t.value.url)
  }

  /** The sort key: width times height, missing numbers read as 0. */
  function Area(t: Thumb): int
  {
    t.width.GetOr(0) * t.height.GetOr(0)
  }

  /** The index of the first element of greatest area: the head of a stable
      descending sort. */
  function FirstLargest(s: seq<Thumb>): (i: nat)
    requires s != []
    ensures i < |s|
    ensures forall j :: 0 <= j < |s| ==> Area(s[j]) <= Area(s[i])
    ensures forall j :: 0 <= j < i ==> Area(s[j]) < Area(s[i])
  {
    if |s| == 1 then 0
    else
      var k := FirstLargest(s[1..]) + 1;
      assert forall j :: 1 <= j < |s| ==> s[j] == s[1..][j - 1];
      if Area(s[0]) >= Area(s[k]) then 0 else k
  }

  /** The valid thumbnails, unwrapped, in order. */
  function ValidThumbs(thumbnails: seq<Option<Thumb>>): (r: seq<Thumb>)
    ensures forall i :: 0 <= i < |r| ==> Truthy(r[i].url)
    ensures forall i :: 0 <= i < |thumbnails| && ValidThumb(thumbnails[i]) ==> thumbnails[i].value in r
    ensures forall t :: t in r ==> Some(t) in thumbnails
    decreases |thumbnails|
  {
    if thumbnails == [] then []
    else
      var rest := ValidThumbs(thumbnails[1..]);
      assert forall i :: 1 <= i < |thumbnails| ==> thumbnails[i] == thumbnails[1..][i - 1];
      (if ValidThumb(thumbnails[0]) then [thumbnails[0].value] else []) + rest
  }

  /** The valid elements keep their input order: unwrapping the filtered input. */
  lemma {:induction false} ValidThumbsInOrder(thumbnails: seq<Option<Thumb>>)
    ensures var kept := Filter(thumbnails, ValidThumb);
      |ValidThumbs(thumbnails)| == |kept|
      && forall i :: 0 <= i < |kept| ==> Some(ValidThumbs(thumbnails)[i]) == kept[i]
    decreases |thumbnails|
  {
    if thumbnails != [] {
      var tail := thumbnails[1..];
      ValidThumbsInOrder(tail);
      var kept, rest := Filter(thumbnails, ValidThumb), Filter(tail, ValidThumb);
      var valid, validRest := ValidThumbs(thumbnails), ValidThumbs(tail);
      if ValidThumb(thumbnails[0]) {
        assert kept == [thumbnails[0]] + rest;
        assert valid == [thumbnails[0].value] + validRest;
        assert kept[1..] == rest && valid[1..] == validRest;
        forall i | 1 <= i < |kept|
          ensures Some(valid[i]) == kept[i]
        {
          assert kept[1..][i - 1] == rest[i - 1];
          assert valid[1..][i - 1] == validRest[i - 1];
        }
      } else {
        assert kept == rest;
        assert valid == validRest;
      }
    }
  }

  /** `get_best_thumbnail`: "" when no element is valid, else the url of the
      earliest valid element of greatest area. */
  function BestThumbnail(thumbnails: seq<Option<Thumb>>): (r: string)
    ensures r == "" <==> forall i :: 0 <= i < |thumbnails| ==> !ValidThumb(thumbnails[i])
    ensures r != "" ==> exists t :: Some(t) in thumbnails && Truthy(t.url) && t.url.value == r
  {
    var valid := ValidThumbs(thumbnails);
    if valid == [] then ""
    else
      var best := valid[FirstLargest(valid)];
      assert best in valid;
      best.url.value
  }

  /** The chosen thumbnail is at least as large as every valid one. */
  lemma BestThumbnailIsLargest(thumbnails: seq<Option<Thumb>>)
    requires ValidThumbs(thumbnails) != []
    ensures var valid := ValidThumbs(thumbnails);
      var best := valid[FirstLargest(valid)];
      BestThumbnail(thumbnails) == best.url.value
      && forall i :: 0 <= i < |thumbnails| && ValidThumb(thumbnails[i]) ==> Area(thumbnails[i].value) <= Area(best)
  {
    var valid := ValidThumbs(thumbnails);
    var k := FirstLargest(valid);
    forall i | 0 <= i < |thumbnails| && ValidThumb(thumbnails[i])
      ensures Area(thumbnails[i].value) <= Area(valid[k])
    {
      var w :| 0 <= w < |valid| && valid[w] == thumbnails[i].value;
    }
  }

  /** The reference pick, over the input itself: the first valid element, unless
      the pick among the later ones is strictly larger. */
  function BestIndex(thumbnails: seq<Option<Thumb>>): (i: nat)
    requires ValidThumbs(thumbnails) != []
    ensures i < |thumbnails| && ValidThumb(thumbnails[i])
    decreases |thumbnails|
  {
    var tail := thumbnails[1..];
    if ValidThumbs(tail) == [] then
      assert ValidThumb(thumbnails[0]);
      0
    else
      var k := BestIndex(tail) + 1;
      assert thumbnails[k] == tail[k - 1];
      if ValidThumb(thumbnails[0]) && Area(thumbnails[0].value) >= Area(thumbnails[k].value) then 0 else k
  }

  /** `BestIndex` is the least index of a valid element whose area no valid
      element exceeds. */
  lemma {:induction false} BestIndexIsEarliestLargest(thumbnails: seq<Option<Thumb>>)
    requires ValidThumbs(thumbnails) != []
    ensures var i := BestIndex(thumbnails);
      (forall j :: 0 <= j < |thumbnails| && ValidThumb(thumbnails[j]) ==>
         Area(thumbnails[j].value) <= Area(thumbnails[i].value))
      && (forall j :: 0 <= j < i && ValidThumb(thumbnails[j]) ==>
         Area(thumbnails[j].value) < Area(thumbnails[i].value))
    decreases |thumbnails|
  {
    var i := BestIndex(thumbnails);
    var tail := thumbnails[1..];
    if ValidThumbs(tail) == [] {
      forall j | 1 <= j < |thumbnails|
        ensures !ValidThumb(thumbnails[j])
      {
        assert thumbnails[j] == tail[j - 1];
      }
    } else {
      BestIndexIsEarliestLargest(tail);
      var k := BestIndex(tail) + 1;
      var best := Area(thumbnails[k].value);
      assert thumbnails[k] == tail[k - 1];
      forall j | 1 <= j < |thumbnails| && ValidThumb(thumbnails[j])
        ensures Area(thumbnails[j].value) <= best
      {
        assert thumbnails[j] == tail[j - 1];
      }
      forall j | 1 <= j < k && ValidThumb(thumbnails[j])
        ensures Area(thumbnails[j].value) < best
      {
        assert thumbnails[j] == tail[j - 1];
      }
    }
  }

  /** The element `FirstLargest` picks among the valid ones is the one at `BestIndex`. */
  lemma {:induction false} FirstLargestIsBestIndex(thumbnails: seq<Option<Thumb>>)
    requires ValidThumbs(thumbnails) != []
    ensures ValidThumbs(thumbnails)[FirstLargest(ValidThumbs(thumbnails))] == thumbnails[BestIndex(thumbnails)].value
    decreases |thumbnails|
  {
    var valid := ValidThumbs(thumbnails);
    var tail := thumbnails[1..];
    var rest := ValidThumbs(tail);
    var head: seq<Thumb> := if ValidThumb(thumbnails[0]) then [thumbnails[0].value] else [];
    assert valid == head + rest;
    if rest == [] {
      assert BestIndex(thumbnails) == 0;
      assert valid == [thumbnails[0].value];
      assert FirstLargest(valid) == 0;
    } else {
      FirstLargestIsBestIndex(tail);
      var k := BestIndex(tail) + 1;
      var fr := FirstLargest(rest);
      assert rest[fr] == thumbnails[k].value by {
        assert thumbnails[k] == tail[k - 1];
      }
      if ValidThumb(thumbnails[0]) {
        assert valid[1..] == rest;
        assert valid[fr + 1] == thumbnails[k].value;
        assert FirstLargest(valid) == if Area(valid[0]) >= Area(valid[fr + 1]) then 0 else fr + 1;
        assert BestIndex(thumbnails) == if Area(thumbnails[0].value) >= Area(thumbnails[k].value) then 0 else k;
      } else {
        assert valid == rest;
        assert BestIndex(thumbnails) == k;
      }
    }
  }

  /** `get_best_thumbnail` answers with the url of the earliest valid element of
      greatest area in the input, as the head of a stable descending sort is. */
  lemma BestThumbnailIsEarliestLargest(thumbnails: seq<Option<Thumb>>)
    requires ValidThumbs(thumbnails) != []
    ensures var i := BestIndex(thumbnails);
      BestThumbnail(thumbnails) == thumbnails[i].value.url.value
      && (forall j :: 0 <= j < |thumbnails| && ValidThumb(thumbnails[j]) ==>
         Area(thumbnails[j].value) <= Area(thumbnails[i].value))
      && (forall j :: 0 <= j < i && ValidThumb(thumbnails[j]) ==>
         Area(thumbnails[j].value) < Area(thumbnails[i].value))
  {
    FirstLargestIsBestIndex(thumbnails);
    BestIndexIsEarliestLargest(thumbnails);
  }

  // ------------------------------------------------------ size and resolution

  /** `estimate_size`: filesize, else filesize_approx, else 0. */
  function EstimateSize(f: Encoding): (r: int)
    ensures OrZero(f.filesize) != 0 ==> r == f.filesize.value
    ensures OrZero(f.filesize) == 0 ==> r == OrZero(f.filesizeApprox)
  {
    IntOr(OrZero(f.filesize), OrZero(f.filesizeApprox))
  }

  /** The running maximum of `_get_max_resolution`: 0, raised by every truthy height. */
  function MaxHeight(formats: seq<Encoding>): (m: int)
    ensures m >= 0
    ensures forall i :: 0 <= i < |formats| ==> OrZero(formats[i].height) <= m
    ensures m == 0 || exists i :: 0 <= i < |formats| && OrZero(formats[i].height) == m
    decreases |formats|
  {
    if formats == [] then 0
    else
      var last := formats[|formats| - 1];
      var m := MaxHeight(formats[..|formats| - 1]);
      assert forall i :: 0 <= i < |formats| - 1 ==> formats[..|formats| - 1][i] == formats[i];
      if OrZero(last.height) != 0 then Max(m, OrZero(last.height)) else m
  }

  /** "{max}p", or "Unknown" when no height is positive. */
  function ResolutionText(m: int): (r: string)
    ensures r == "Unknown" <==> m <= 0
    ensures m > 0 ==> EndsWith(r, "p") && r[..|r| - 1] == IntToString(m)
  {
    if m > 0 then
      var r := IntToString(m) + "p";
      assert r[|r| - 1] == 'p' && "Unknown"[6] == 'n';
      r
    else "Unknown"
  }

  /** `_get_max_resolution`. */
  method MaxResolution(formats: seq<Encoding>) returns (r: string)
    ensures r == ResolutionText(MaxHeight(formats))
  {
    var maxHeight := 0;
    for i := 0 to |formats|
      invariant maxHeight == MaxHeight(formats[..i])
    {
      assert formats[..i + 1][..i] == formats[..i];
      var height := OrZero(formats[i].height);
      if height != 0 {
        maxHeight := Max(maxHeight, height);
      }
    }
    assert formats[..|formats|] == formats;
    r := if maxHeight > 0 then IntToString(maxHeight) + "p" else "Unknown";
  }

  /** The running maximum of `_estimate_total_size`: 0, raised by every non-zero estimate. */
  function MaxEstimate(formats: seq<Encoding>): (m: int)
    ensures m >= 0
    ensures forall i :: 0 <= i < |formats| ==> EstimateSize(formats[i]) <= m
    ensures m == 0 || exists i :: 0 <= i < |formats| && EstimateSize(formats[i]) == m
    decreases |formats|
  {
    if formats == [] then 0
    else
      var last := formats[|formats| - 1];
      var m := MaxEstimate(formats[..|formats| - 1]);
      assert forall i :: 0 <= i < |formats| - 1 ==> formats[..|formats| - 1][i] == formats[i];
      if EstimateSize(last) != 0 then Max(m, EstimateSize(last)) else m
  }

  /** `_estimate_total_size`: the largest estimate, rendered by `format_size`. */
  method EstimateTotalSize(formats: seq<Encoding>) returns (r: string)
    ensures r == FileUtils.SizeText(MaxEstimate(formats))
  {
    var maxSize := 0;
    for i := 0 to |formats|
      invariant maxSize == MaxEstimate(formats[..i])
    {
      assert formats[..i + 1][..i] == formats[..i];
      var size := EstimateSize(formats[i]);
      if size != 0 {
        maxSize := Max(maxSize, size);
      }
    }
    assert formats[..|formats|] == formats;
    r := FileUtils.FormatSize(maxSize);
  }

  // ------------------------------------------------------------ duration

  /** `_format_duration`: only 0 reads as unknown; a negative number is
      rendered through Python's floor division and modulo. */
  function DurationText(seconds: int): (r: string)
    ensures seconds == 0 <==> r == "Unknown"
  {
    if seconds == 0 then "Unknown"
    else
      var hours := seconds / 3600;
      var minutes := (seconds % 3600) / 60;
      var secs := seconds % 60;
      if hours > 0 then
        var r := NatToString(hours) + ":" + Pad2(minutes) + ":" + Pad2(secs);
        assert r[0] != 'U';
        r
      else
        var r := NatToString(minutes) + ":" + Pad2(secs);
        assert r[0] != 'U';
        r
  }

  /** The two duration renderings agree on every positive number and differ
      on negatives, which only `format_duration` calls unknown. */
  lemma DurationRenderingsAgree(seconds: int)
    ensures seconds > 0 ==> DurationText(seconds) == FileUtils.FormatDuration(seconds)
    ensures seconds < 0 ==> DurationText(seconds) != FileUtils.FormatDuration(seconds)
  {
  }

  // ---------------------------------------------------------- info and cache

  /** What the extractor reports about one video, with the keys `extract_info` reads. */
  datatype RawInfo = RawInfo(
    id: Option<string>,
    title: Option<string>,
    uploader: Option<string>,
    duration: Option<int>,
    viewCount: Option<int>,
    likeCount: Option<int>,
    uploadDate: Option<string>,
    description: Option<string>,
    thumbnails: Option<seq<Option<Thumb>>>,
    formats: Option<seq<Encoding>>,
    webpageUrl: Option<string>)

  /** The dictionary `extract_info` builds and caches. */
  datatype VideoInfo = VideoInfo(
    id: string,
    title: string,
    uploader: string,
    duration: int,
    durationFormatted: string,
    viewCount: int,
    likeCount: Option<int>,
    uploadDate: Option<string>,
    description: string,
    thumbnail: string,
    formats: seq<Encoding>,
    resolution: string,
    estimatedSize: string,
    webpageUrl: string)

  /** The processed record for `url`. */
  function Process(url: string, info: RawInfo): (v: VideoInfo)
    ensures v.title == info.title.GetOr("Unknown Title")
    ensures v.webpageUrl == info.webpageUrl.GetOr(url)
    ensures v.durationFormatted == DurationText(info.duration.GetOr(0))
    ensures v.resolution == ResolutionText(MaxHeight(info.formats.GetOr([])))
    ensures v.estimatedSize == FileUtils.SizeText(MaxEstimate(info.formats.GetOr([])))
  {
    var formats := info.formats.GetOr([]);
    VideoInfo(
      info.id.GetOr(""), info.title.GetOr("Unknown Title"), info.uploader.GetOr("Unknown"),
      info.duration.GetOr(0), DurationText(info.duration.GetOr(0)), info.viewCount.GetOr(0),
      info.likeCount, info.uploadDate, info.description.GetOr(""),
      BestThumbnail(info.thumbnails.GetOr([])), formats,
      ResolutionText(MaxHeight(formats)), FileUtils.SizeText(MaxEstimate(formats)),
      info.webpageUrl.GetOr(url))
  }

  /** `VideoInfoExtractor`: the cache of processed records, keyed by url. */
  class VideoInfoExtractor {
    var cache: map<string, VideoInfo>

    constructor()
      ensures cache == map[]
    {
      cache := map[];
    }

    /** `extract_info`. `fetched` is what the extractor would return for `url`
        (`None` for an exception or a falsy answer); it is consulted only on a miss. */
    method ExtractInfo(url: string, useCache: bool, fetched: Option<RawInfo>) returns (r: Option<VideoInfo>)
      modifies this
      ensures useCache && url in old(cache) ==> r == Some(old(cache)[url]) && cache == old(cache)
      ensures !(useCache && url in old(cache)) && fetched.None? ==> r == None && cache == old(cache)
      ensures !(useCache && url in old(cache)) && fetched.Some? ==>
        r == Some(Process(url, fetched.value)) && cache == old(cache)[url := r.value]
    {
      if useCache && url in cache {
        return Some(cache[url]);
      }
      if fetched.None? {
        return None;
      }
      var processed := Process(url, fetched.value);
      cache := cache[url := processed];
      return Some(processed);
    }
  }

  /** A second lookup of the same url with the cache on returns the first answer
      without consulting the extractor again. */
  method CachedTwice(extractor: VideoInfoExtractor, url: string, first: Option<RawInfo>, second: Option<RawInfo>)
    returns (a: Option<VideoInfo>, b: Option<VideoInfo>)
    modifies extractor
    ensures a.Some? ==> b == a
  {
    a := extractor.ExtractInfo(url, true, first);
    b := extractor.ExtractInfo(url, true, second);
  }

  // ---------------------------------------------------------- download options

  /** The options dictionary of `download`; a flag is the truthiness of its key. */
  datatype DownloadOptions = DownloadOptions(
    mergeOutputFormat: Option<string>,
    mergeWith: Option<string>,
    extractAudio: bool,
    audioFormat: Option<string>,
    audioQuality: Option<string>,
    embedThumbnail: bool,
    embedMetadata: bool,
    downloadSubtitles: bool,
    subtitleLanguages: Option<seq<string>>,
    subtitleFormat: Option<string>)

  datatype PostProcessor = ExtractAudio(codec: string, quality: string) | EmbedThumbnail | Metadata

  datatype SubtitleOptions = SubtitleOptions(languages: seq<string>, format: string)

  /** The part of `ydl_opts` that depends on the arguments (the fixed quiet and
      FFmpeg argument keys are left out). */
  datatype YdlOptions = YdlOptions(
    format: string,
    outtmpl: string,
    mergeOutputFormat: string,
    postprocessors: Option<seq<PostProcessor>>,
    subtitles: Option<SubtitleOptions>)

  /** Where a post-processor must sit: audio extraction, then the thumbnail, then metadata. */
  function Stage(p: PostProcessor): nat
  {
    match p
    case ExtractAudio(_, _) => 0
    case EmbedThumbnail => 1
    case Metadata => 2
  }

  /** The post-processors the options ask for, in the order `download` appends them. */
  function PostProcessorList(extractAudio: bool, embedThumbnail: bool, embedMetadata: bool, audio: PostProcessor)
    : seq<PostProcessor>
  {
    (if extractAudio then [audio] else []) + (if embedThumbnail then [EmbedThumbnail] else [])
    + (if embedMetadata then [Metadata] else [])
  }

  /** The list keeps the stages in order, holds exactly the requested steps, and
      its only audio step is the requested one. */
  lemma PostProcessorListShape(extractAudio: bool, embedThumbnail: bool, embedMetadata: bool, audio: PostProcessor)
    requires audio.ExtractAudio?
    ensures var pp := PostProcessorList(extractAudio, embedThumbnail, embedMetadata, audio);
      (forall i, j :: 0 <= i < j < |pp| ==> Stage(pp[i]) < Stage(pp[j]))
      && (extractAudio <==> audio in pp)
      && (embedThumbnail <==> EmbedThumbnail in pp)
      && (embedMetadata <==> Metadata in pp)
      && (forall i :: 0 <= i < |pp| && pp[i].ExtractAudio? ==> pp[i] == audio)
      && (pp == [] <==> !extractAudio && !embedThumbnail && !embedMetadata)
  {
    var a: seq<PostProcessor> := if extractAudio then [audio] else [];
    var t: seq<PostProcessor> := if embedThumbnail then [EmbedThumbnail] else [];
    var m: seq<PostProcessor> := if embedMetadata then [Metadata] else [];
    var pp := a + t + m;
    assert forall i :: 0 <= i < |a| ==> pp[i] == audio;
    assert forall i :: |a| <= i < |a| + |t| ==> pp[i] == EmbedThumbnail;
    assert forall i :: |a| + |t| <= i < |pp| ==> pp[i] == Metadata;
  }

  // ------------------------------------------------------------ progress hook

  /** The dictionary yt-dlp passes to a progress hook. */
  datatype HookEvent = HookEvent(
    status: Option<string>,
    downloadedBytes: Option<int>,
    totalBytes: Option<int>,
    totalBytesEstimate: Option<int>,
    speed: Option<int>,
    eta: Option<int>,
    filename: Option<string>)

  /** What the callback receives. */
  datatype Progress =
    | Downloading(downloadedBytes: int, totalBytes: int, speed: int, eta: int, percent: real)
    | Finished(filename: string)

  /** The outcome of one hook call: the cancellation exception, nothing, or a report. */
  datatype HookOutcome = Cancelled | Silent | Report(progress: Progress)

  /** The result dictionary of `download`. */
  datatype DownloadResult =
    | Success(filepath: string, title: string, filesize: int)
    | Failure(error: string)

  /** What the yt-dlp session did: raised an exception with this message, or
      downloaded and reported the prepared file name and title; `filesize` is
      the size found on disk, 0 when the file is not there. */
  datatype SessionOutcome =
    | Raised(message: string)
    | Downloaded(prepared: string, title: Option<string>, filesize: int)

  /** The reported path: the prepared name with its extension replaced by the
      audio format when extracting audio, else by a truthy merge format. */
  function FinalFilename(prepared: string, options: DownloadOptions): (r: string)
    ensures options.extractAudio ==>
      r == FileUtils.SplitExt(prepared).0 + "." + options.audioFormat.GetOr("mp3")
    ensures !options.extractAudio && Truthy(options.mergeOutputFormat) ==>
      r == FileUtils.SplitExt(prepared).0 + "." + options.mergeOutputFormat.value
    ensures !options.extractAudio && !Truthy(options.mergeOutputFormat) ==> r == prepared
  {
    var stem := FileUtils.SplitExt(prepared).0;
    if options.extractAudio then stem + "." + options.audioFormat.GetOr("mp3")
    else if options.mergeOutputFormat.GetOr("") != "" then stem + "." + options.mergeOutputFormat.value
    else prepared
  }

  /** Rewriting keeps the directory and stem and replaces only the extension. */
  lemma FinalFilenameKeepsStem(prepared: string, options: DownloadOptions)
    ensures StartsWith(FinalFilename(prepared, options), FileUtils.SplitExt(prepared).0)
    ensures options.extractAudio ==> EndsWith(FinalFilename(prepared, options), "." + options.audioFormat.GetOr("mp3"))
  {
    var stem := FileUtils.SplitExt(prepared).0;
    var r := FinalFilename(prepared, options);
    assert prepared == stem + FileUtils.SplitExt(prepared).1;
    assert r[..|stem|] == stem;
    if options.extractAudio {
      var ext := "." + options.audioFormat.GetOr("mp3");
      assert r == stem + ext;
      assert r[|r| - |ext|..] == ext;
    }
  }

  /** `VideoDownloader`: the output directory, whether a callback was given,
      and the cancellation flag. */
  class VideoDownloader {
    const outputPath: string
    const hasCallback: bool
    var isCancelled: bool

    constructor(outputPath: string, hasCallback: bool)
      ensures this.outputPath == outputPath && this.hasCallback == hasCallback
      ensures !isCancelled
    {
      this.outputPath := outputPath;
      this.hasCallback := hasCallback;
      isCancelled := false;
    }

    /** `cancel`. */
    method Cancel()
      modifies this
      ensures isCancelled
    {
      isCancelled := true;
    }

    /** `_progress_hook`: raises once cancelled, reports to the callback
        otherwise, and stays silent without one or for another status. */
    method ProgressHook(d: HookEvent) returns (r: HookOutcome)
      ensures isCancelled <==> r == Cancelled
      ensures !isCancelled && !hasCallback ==> r == Silent
      ensures r.Report? ==> hasCallback && d.status.Some?
      ensures r.Report? && d.status.value == "downloading" ==>
        r.progress.Downloading?
        && r.progress.downloadedBytes == d.downloadedBytes.GetOr(0)
        && r.progress.totalBytes == IntOr(OrZero(d.totalBytes), OrZero(d.totalBytesEstimate))
        && r.progress.speed == d.speed.GetOr(0) && r.progress.eta == d.eta.GetOr(0)
        && r.progress.percent
           == (d.downloadedBytes.GetOr(0) as real) / (Max(d.totalBytes.GetOr(1), 1) as real) * 100.0
      ensures r.Report? && d.status.value == "finished" ==> r.progress == Finished(d.filename.GetOr(""))
      ensures !isCancelled && hasCallback ==>
        (r.Report? <==> d.status == Some("downloading") || d.status == Some("finished"))
    {
      if isCancelled {
        return Cancelled;
      }
      r := Silent;
      if hasCallback {
        var status := d.status;
        if status == Some("downloading") {
          var downloaded := d.downloadedBytes.GetOr(0);
          var divisor := Max(d.totalBytes.GetOr(1), 1);
          r := Report(Downloading(
            downloaded,
            IntOr(OrZero(d.totalBytes), OrZero(d.totalBytesEstimate)),
            d.speed.GetOr(0),
            d.eta.GetOr(0),
            (downloaded as real) / (divisor as real) * 100.0));
        } else if status == Some("finished") {
          r := Report(Finished(d.filename.GetOr("")));
        }
      }
    }

    /** The option record `download` builds, key by key as the source does. */
    method BuildOptions(formatId: string, options: DownloadOptions) returns (opts: YdlOptions)
      ensures opts.format == if Truthy(options.mergeWith) then formatId + "+" + options.mergeWith.value else formatId
      ensures opts.outtmpl == FileUtils.JoinPath(outputPath, "%(title)s.%(ext)s")
      ensures opts.mergeOutputFormat == if Truthy(options.mergeOutputFormat) then options.mergeOutputFormat.value else "mp4"
      ensures opts.postprocessors ==
        var pp := PostProcessorList(options.extractAudio, options.embedThumbnail, options.embedMetadata,
                                    ExtractAudio(options.audioFormat.GetOr("mp3"), options.audioQuality.GetOr("192")));
        if pp == [] then None else Some(pp)
      ensures opts.subtitles.Some? <==> options.downloadSubtitles
      ensures opts.subtitles.Some? ==>
        opts.subtitles.value == SubtitleOptions(options.subtitleLanguages.GetOr(["en"]), options.subtitleFormat.GetOr("srt"))
    {
      var format := formatId;
      var mergeOutputFormat := "mp4";
      if options.mergeOutputFormat.GetOr("") != "" {
        mergeOutputFormat := options.mergeOutputFormat.value;
      }
      if options.mergeWith.GetOr("") != "" {
        format := formatId + "+" + options.mergeWith.value;
      }
      var postprocessors: Option<seq<PostProcessor>> := None;
      var audio := ExtractAudio(options.audioFormat.GetOr("mp3"), options.audioQuality.GetOr("192"));
      if options.extractAudio {
        postprocessors := Some([audio]);
      }
      assert postprocessors.GetOr([]) == PostProcessorList(options.extractAudio, false, false, audio);
      if options.embedThumbnail {
        postprocessors := Some(postprocessors.GetOr([]) + [EmbedThumbnail]);
      }
      assert postprocessors.GetOr([]) == PostProcessorList(options.extractAudio, options.embedThumbnail, false, audio);
      if options.embedMetadata {
        postprocessors := Some(postprocessors.GetOr([]) + [Metadata]);
      }
      var pp := PostProcessorList(options.extractAudio, options.embedThumbnail, options.embedMetadata, audio);
      assert postprocessors.GetOr([]) == pp;
      assert postprocessors.None? <==> pp == [];
      var subtitles: Option<SubtitleOptions> := None;
      if options.downloadSubtitles {
        subtitles := Some(SubtitleOptions(options.subtitleLanguages.GetOr(["en"]), options.subtitleFormat.GetOr("srt")));
      }
      opts := YdlOptions(format, FileUtils.JoinPath(outputPath, "%(title)s.%(ext)s"), mergeOutputFormat,
                         postprocessors, subtitles);
    }

    /** `download`: builds the options, then reports what the session did. */
    method Download(url: string, formatId: string, options: DownloadOptions, session: SessionOutcome)
      returns (opts: YdlOptions, result: DownloadResult)
      ensures session.Raised? ==> result == Failure(session.message)
      ensures session.Downloaded? ==>
        result == Success(FinalFilename(session.prepared, options), session.title.GetOr("Unknown"), session.filesize)
      ensures opts.format == if Truthy(options.mergeWith) then formatId + "+" + options.mergeWith.value else formatId
    {
      opts := BuildOptions(formatId, options);
      match session
      case Raised(message) =>
        result := Failure(message);
      case Downloaded(prepared, title, filesize) =>
        var filename := prepared;
        if options.extractAudio {
          filename := FileUtils.SplitExt(filename).0 + "." + options.audioFormat.GetOr("mp3");
        } else if options.mergeOutputFormat.GetOr("") != "" {
          filename := FileUtils.SplitExt(filename).0 + "." + options.mergeOutputFormat.value;
        }
        result := Success(filename, title.GetOr("Unknown"), filesize);
    }
  }

  /** Once `cancel` has run, the next progress report is the cancellation. */
  method CancelThenHook(downloader: VideoDownloader, d: HookEvent) returns (r: HookOutcome)
    modifies downloader
    ensures r == Cancelled
  {
    downloader.Cancel();
    r := downloader.ProgressHook(d);
  }

  // ----------------------------------------------------------------- playlist

  /** One element of a flat playlist's `entries`; in `entries`, `None` stands for any
      falsy element (null or an empty dictionary). */
  datatype PlaylistEntry = PlaylistEntry(id: Option<string>, url: Option<string>, webpageUrl: Option<string>)

  /** What the extractor returned for the playlist: `None` for an exception,
      a falsy answer or one without 'entries'. */
  datatype PlaylistInfo = PlaylistInfo(
    entries: seq<Option<PlaylistEntry>>,
    title: Option<string>,
    uploader: Option<string>,
    description: Option<string>)

  datatype PlaylistSummary = PlaylistSummary(title: string, uploader: string, videoCount: int, description: string)

  /** The url collected for one entry: url, else webpage_url, else one built
      from a truthy id, else none. */
  function EntryUrl(e: Option<PlaylistEntry>): (r: Option<string>)
    ensures r.Some? ==> r.value != ""
    ensures e.None? ==> r.None?
    ensures e.Some? && Truthy(e.value.url) ==> r == e.value.url
    ensures e.Some? && !Truthy(e.value.url) && Truthy(e.value.webpageUrl) ==> r == e.value.webpageUrl
    ensures e.Some? && !Truthy(e.value.url) && !Truthy(e.value.webpageUrl) ==>
      r == if Truthy(e.value.id) then Some("https://youtube.com/watch?v=" + e.value.id.value) else None
  {
    match e
    case None => None
    case Some(entry) =>
      var url := if Truthy(entry.url) then entry.url.value else entry.webpageUrl.GetOr("");
      var url := if url == "" && Truthy(entry.id) then "https://youtube.com/watch?v=" + entry.id.value else url;
      if url != "" then Some(url) else None
  }

  /** The urls collected from `entries`, in entry order. */
  function CollectedUrls(entries: seq<Option<PlaylistEntry>>): (urls: seq<string>)
    ensures |urls| <= |entries|
    ensures forall i :: 0 <= i < |urls| ==> urls[i] != ""
    decreases |entries|
  {
    if entries == [] then []
    else
      var prefix := CollectedUrls(entries[..|entries| - 1]);
      match EntryUrl(entries[|entries| - 1])
      case Some(u) => prefix + [u]
      case None => prefix
  }

  /** Collection keeps the entries that yield a url, in entry order, and
      contributes each one's url. */
  lemma {:induction false} CollectedUrlsInOrder(entries: seq<Option<PlaylistEntry>>)
    ensures var kept := Filter(entries, (e: Option<PlaylistEntry>) => EntryUrl(e).Some?);
      |CollectedUrls(entries)| == |kept|
      && forall i :: 0 <= i < |kept| ==> CollectedUrls(entries)[i] == EntryUrl(kept[i]).value
    decreases |entries|
  {
    if entries != [] {
      var p := (e: Option<PlaylistEntry>) => EntryUrl(e).Some?;
      var init, last := entries[..|entries| - 1], entries[|entries| - 1];
      CollectedUrlsInOrder(init);
      assert entries == init + [last];
      FilterAppend(init, last, p);
      var keptInit := Filter(init, p);
      var urls := CollectedUrls(entries);
      assert |urls| == |Filter(entries, p)|;
      forall i | 0 <= i < |Filter(entries, p)|
        ensures urls[i] == EntryUrl(Filter(entries, p)[i]).value
      {
        if i < |keptInit| {
          assert urls[i] == CollectedUrls(init)[i];
          assert Filter(entries, p)[i] == keptInit[i];
        }
      }
    }
  }

  /** `extract_playlist_urls`: the urls and the summary, or ([], no summary). */
  method ExtractPlaylistUrls(fetched: Option<PlaylistInfo>) returns (urls: seq<string>, summary: Option<PlaylistSummary>)
    ensures fetched.None? ==> urls == [] && summary.None?
    ensures fetched.Some? ==> urls == CollectedUrls(fetched.value.entries)
    ensures fetched.Some? ==> summary.Some? && summary.value.videoCount == |urls|
    ensures fetched.Some? ==> summary.value.title == fetched.value.title.GetOr("Unknown Playlist")
  {
    if fetched.None? {
      return [], None;
    }
    var info := fetched.value;
    urls := [];
    for i := 0 to |info.entries|
      invariant urls == CollectedUrls(info.entries[..i])
    {
      assert info.entries[..i + 1][..i] == info.entries[..i];
      var entry := info.entries[i];
      if entry.Some? {
        var videoId := entry.value.id;
        var url := if entry.value.url.GetOr("") != "" then entry.value.url.value else entry.value.webpageUrl.GetOr("");
        if url == "" && videoId.GetOr("") != "" {
          url := "https://youtube.com/watch?v=" + videoId.value;
        }
        if url != "" {
          urls := urls + [url];
        }
      }
    }
    assert info.entries[..|info.entries|] == info.entries;
    summary := Some(PlaylistSummary(info.title.GetOr("Unknown Playlist"), info.uploader.GetOr("Unknown"),
                                    |urls|, info.description.GetOr("")));
  }
}
