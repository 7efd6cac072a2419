/** Classification, ranking, filtering and labelling of the encodings that the
    extractor reports for one video (utils/format_handler.py, `FormatProcessor`). */
module FormatHandler {
  import opened Common
  import opened Text

  /** One entry of the extractor's `formats` list. A key the entry lacks is
      `None`; `formatId` is read with `[...]` and so always present. */
  datatype Encoding = Encoding(
    formatId: string,
    vcodec: Option<string>,
    acodec: Option<string>,
    height: Option<int>,
    fps: Option<int>,
    tbr: Option<int>,
    vbr: Option<int>,
    abr: Option<int>,
    asr: Option<int>,
    filesize: Option<int>,
    filesizeApprox: Option<int>,
    ext: Option<string>)

  // ------------------------------------------------------------ categorize

  datatype Category = Progressive | VideoOnly | AudioOnly

  /** The bucket an encoding belongs to, `None` when it has neither codec;
      a missing codec field reads as "none". */
  function Classify(f: Encoding): (r: Option<Category>)
    ensures r.Some? && r.value != AudioOnly <==> f.vcodec.GetOr("none") != "none"
    ensures r.Some? && r.value != VideoOnly <==> f.acodec.GetOr("none") != "none"
  {
    var vcodec := f.vcodec.GetOr("none");
    var acodec := f.acodec.GetOr("none");
    if vcodec != "none" && acodec != "none" then Some(Progressive)
    else if vcodec != "none" && acodec == "none" then Some(VideoOnly)
    else if vcodec == "none" && acodec != "none" then Some(AudioOnly)
    else None
  }

  /** The encodings of `formats` whose classification is `c`, in input order. */
  function Bucket(formats: seq<Encoding>, c: Option<Category>): seq<Encoding>
  {
    Filter(formats, f => Classify(f) == c)
  }

  datatype Categorized = Categorized(videoOnly: seq<Encoding>, audioOnly: seq<Encoding>, progressive: seq<Encoding>)

  /** `categorize_formats`: one pass appending each encoding to its bucket. */
  method CategorizeFormats(formats: seq<Encoding>) returns (r: Categorized)
    ensures r.progressive == Bucket(formats, Some(Progressive))
    ensures r.videoOnly == Bucket(formats, Some(VideoOnly))
    ensures r.audioOnly == Bucket(formats, Some(AudioOnly))
  {
    var videoOnly: seq<Encoding> := [];
    var audioOnly: seq<Encoding> := [];
    var progressive: seq<Encoding> := [];
    for i := 0 to |formats|
      invariant progressive == Bucket(formats[..i], Some(Progressive))
      invariant videoOnly == Bucket(formats[..i], Some(VideoOnly))
      invariant audioOnly == Bucket(formats[..i], Some(AudioOnly))
    {
      var fmt := formats[i];
      assert formats[..i + 1] == formats[..i] + [fmt];
      FilterAppend(formats[..i], fmt, f => Classify(f) == Some(Progressive));
      FilterAppend(formats[..i], fmt, f => Classify(f) == Some(VideoOnly));
      FilterAppend(formats[..i], fmt, f => Classify(f) == Some(AudioOnly));
      var vcodec := fmt.vcodec.GetOr("none");
      var acodec := fmt.acodec.GetOr("none");
      if vcodec != "none" && acodec != "none" {
        assert Classify(fmt) == Some(Progressive);
        progressive := progressive + [fmt];
      } else if vcodec != "none" && acodec == "none" {
        assert Classify(fmt) == Some(VideoOnly);
        videoOnly := videoOnly + [fmt];
      } else if vcodec == "none" && acodec != "none" {
        assert Classify(fmt) == Some(AudioOnly);
        audioOnly := audioOnly + [fmt];
      } else {
        assert Classify(fmt) == None;
      }
    }
    assert formats[..|formats|] == formats;
    r := Categorized(videoOnly, audioOnly, progressive);
  }

  /** An encoding is dropped exactly when both codecs are "none" (or missing). */
  lemma DroppedIffNoCodec(f: Encoding)
    ensures Classify(f) == None <==> f.vcodec.GetOr("none") == "none" && f.acodec.GetOr("none") == "none"
  {
  }

  /** Each bucket holds exactly the input encodings of its category, in input order. */
  lemma BucketMembers(formats: seq<Encoding>, c: Category, f: Encoding)
    ensures f in Bucket(formats, Some(c)) <==> f in formats && Classify(f) == Some(c)
    ensures IsSubseq(Bucket(formats, Some(c)), formats)
  {
    FilterIsSubseq(formats, g => Classify(g) == Some(c));
    if f in formats && Classify(f) == Some(c) {
      var i :| 0 <= i < |formats| && formats[i] == f;
    }
  }

  /** The three bucket sizes and the number of dropped encodings add up to the input size. */
  lemma {:induction false} BucketSizes(formats: seq<Encoding>)
    ensures |Bucket(formats, Some(Progressive))| + |Bucket(formats, Some(VideoOnly))|
          + |Bucket(formats, Some(AudioOnly))| == |formats| - |Bucket(formats, None)|
    decreases |formats|
  {
    if formats != [] {
      BucketSizes(formats[1..]);
    }
  }

  // ---------------------------------------------------------------- ranking

  /** A sort key, compared lexicographically. */
  datatype Key = Key(primary: int, secondary: int, tertiary: int)

  predicate KeyLess(a: Key, b: Key)
  {
    a.primary < b.primary
    || (a.primary == b.primary && a.secondary < b.secondary)
    || (a.primary == b.primary && a.secondary == b.secondary && a.tertiary < b.tertiary)
  }

  /** The key of `sort_by_quality`: (height, fps, tbr or vbr) for "video",
      (abr or tbr, asr) for any other format type; missing numbers are 0. */
  function QualityKey(f: Encoding, formatType: string): Key
  {
    if formatType == "video" then
      Key(OrZero(f.height), OrZero(f.fps), IntOr(OrZero(f.tbr), OrZero(f.vbr)))
    else
      Key(IntOr(OrZero(f.abr), OrZero(f.tbr)), OrZero(f.asr), 0)
  }

  /** Keys never increase along `s`. */
  predicate Ranked(s: seq<Encoding>, formatType: string)
  {
    forall i, j :: 0 <= i < j < |s| ==> !KeyLess(QualityKey(s[i], formatType), QualityKey(s[j], formatType))
  }

  /** "Not less" on keys is transitive (the keys are totally ordered). */
  lemma KeyAtLeastTrans(a: Key, b: Key, c: Key)
    requires !KeyLess(a, b) && !KeyLess(b, c)
    ensures !KeyLess(a, c)
  {
  }

  /** The head of a ranked list is ranked at least as high as each of its elements. */
  lemma RankedHeadDominates(s: seq<Encoding>, formatType: string)
    requires Ranked(s, formatType) && s != []
    ensures forall z :: z in s ==> !KeyLess(QualityKey(s[0], formatType), QualityKey(z, formatType))
  {
    forall z | z in s
      ensures !KeyLess(QualityKey(s[0], formatType), QualityKey(z, formatType))
    {
      var i :| 0 <= i < |s| && s[i] == z;
    }
  }

  /** Putting an element that no element outranks in front keeps a list ranked. */
  lemma RankedPrepend(y: Encoding, r: seq<Encoding>, formatType: string)
    requires Ranked(r, formatType)
    requires forall z :: z in r ==> !KeyLess(QualityKey(y, formatType), QualityKey(z, formatType))
    ensures Ranked([y] + r, formatType)
  {
    var t := [y] + r;
    forall i, j | 0 <= i < j < |t|
      ensures !KeyLess(QualityKey(t[i], formatType), QualityKey(t[j], formatType))
    {
      assert t[j] == r[j - 1];
      if i == 0 {
        assert t[j] in r;
      } else {
        assert t[i] == r[i - 1];
      }
    }
  }

  /** Puts `x` in front of the first element whose key is not greater than its own. */
  function InsertByQuality(x: Encoding, s: seq<Encoding>, formatType: string): (r: seq<Encoding>)
    requires Ranked(s, formatType)
    ensures Ranked(r, formatType)
    ensures multiset(r) == multiset(s) + multiset{x}
    decreases |s|
  {
    if s == [] || !KeyLess(QualityKey(x, formatType), QualityKey(s[0], formatType)) then
      assert Ranked([x] + s, formatType) by {
        if s != [] {
          RankedHeadDominates(s, formatType);
          forall z | z in s
            ensures !KeyLess(QualityKey(x, formatType), QualityKey(z, formatType))
          {
            KeyAtLeastTrans(QualityKey(x, formatType), QualityKey(s[0], formatType), QualityKey(z, formatType));
          }
        }
        RankedPrepend(x, s, formatType);
      }
      [x] + s
    else
      var rest := InsertByQuality(x, s[1..], formatType);
      assert s == [s[0]] + s[1..];
      assert Ranked([s[0]] + rest, formatType) by {
        RankedHeadDominates(s, formatType);
        forall z | z in rest
          ensures !KeyLess(QualityKey(s[0], formatType), QualityKey(z, formatType))
        {
          assert z in multiset(rest);
          if z != x {
            assert z in multiset(s[1..]);
            assert z in s;
          }
        }
        RankedPrepend(s[0], rest, formatType);
      }
      [s[0]] + rest
  }

  /** `sort_by_quality`: Python's stable `sorted(..., reverse=True)` on `QualityKey`. */
  function SortByQuality(formats: seq<Encoding>, formatType: string): (r: seq<Encoding>)
    ensures Ranked(r, formatType)
    ensures multiset(r) == multiset(formats)
    decreases |formats|
  {
    if formats == [] then []
    else
      assert formats == [formats[0]] + formats[1..];
      InsertByQuality(formats[0], SortByQuality(formats[1..], formatType), formatType)
  }

  /** The encodings of `s` whose key is `k`, in order. */
  function WithKey(s: seq<Encoding>, k: Key, formatType: string): seq<Encoding>
  {
    Filter(s, f => QualityKey(f, formatType) == k)
  }

  /** The part of `[y]` that `WithKey` keeps. */
  function TieHead(y: Encoding, k: Key, formatType: string): seq<Encoding>
  {
    if QualityKey(y, formatType) == k then [y] else []
  }

  lemma WithKeyCons(y: Encoding, s: seq<Encoding>, k: Key, formatType: string)
    ensures WithKey([y] + s, k, formatType) == TieHead(y, k, formatType) + WithKey(s, k, formatType)
  {
    assert ([y] + s)[1..] == s;
  }

  /** Two encodings with different keys never both have key `k`. */
  lemma TieHeadsCommute(x: Encoding, y: Encoding, tail: seq<Encoding>, k: Key, formatType: string)
    requires KeyLess(QualityKey(x, formatType), QualityKey(y, formatType))
    ensures TieHead(y, k, formatType) + (TieHead(x, k, formatType) + tail)
         == TieHead(x, k, formatType) + (TieHead(y, k, formatType) + tail)
  {
    if QualityKey(x, formatType) == k {
      assert TieHead(y, k, formatType) == [];
    } else {
      assert TieHead(x, k, formatType) == [];
    }
  }

  /** The recursive case of `InsertByQuality`. */
  lemma InsertPasses(x: Encoding, s: seq<Encoding>, formatType: string)
    requires Ranked(s, formatType)
    requires s != [] && KeyLess(QualityKey(x, formatType), QualityKey(s[0], formatType))
    ensures Ranked(s[1..], formatType)
    ensures InsertByQuality(x, s, formatType) == [s[0]] + InsertByQuality(x, s[1..], formatType)
  {
  }

  lemma {:induction false} InsertKeepsTies(x: Encoding, s: seq<Encoding>, formatType: string, k: Key)
    requires Ranked(s, formatType)
    ensures WithKey(InsertByQuality(x, s, formatType), k, formatType) == WithKey([x] + s, k, formatType)
    decreases |s|
  {
    if s != [] && KeyLess(QualityKey(x, formatType), QualityKey(s[0], formatType)) {
      InsertPasses(x, s, formatType);
      var rest := InsertByQuality(x, s[1..], formatType);
      var tail := WithKey(s[1..], k, formatType);
      var head, mid := TieHead(s[0], k, formatType), TieHead(x, k, formatType);
      calc {
        WithKey(InsertByQuality(x, s, formatType), k, formatType);
        WithKey([s[0]] + rest, k, formatType);
        { WithKeyCons(s[0], rest, k, formatType); }
        head + WithKey(rest, k, formatType);
        { InsertKeepsTies(x, s[1..], formatType, k); WithKeyCons(x, s[1..], k, formatType); }
        head + (mid + tail);
        { TieHeadsCommute(x, s[0], tail, k, formatType); }
        mid + (head + tail);
        { WithKeyCons(s[0], s[1..], k, formatType); assert s == [s[0]] + s[1..]; }
        mid + WithKey(s, k, formatType);
        { WithKeyCons(x, s, k, formatType); }
        WithKey([x] + s, k, formatType);
      }
    } else {
      assert InsertByQuality(x, s, formatType) == [x] + s;
    }
  }

  /** Stability: among encodings with equal keys, the input order survives. */
  lemma {:induction false} SortKeepsTies(formats: seq<Encoding>, formatType: string, k: Key)
    ensures WithKey(SortByQuality(formats, formatType), k, formatType) == WithKey(formats, k, formatType)
    decreases |formats|
  {
    if formats != [] {
      var rest := SortByQuality(formats[1..], formatType);
      SortKeepsTies(formats[1..], formatType, k);
      InsertKeepsTies(formats[0], rest, formatType, k);
      WithKeyCons(formats[0], rest, k, formatType);
      WithKeyCons(formats[0], formats[1..], k, formatType);
      assert formats == [formats[0]] + formats[1..];
    }
  }

  /** Ranking is idempotent: an already ranked sequence comes back unchanged. */
  lemma {:induction false} SortRankedIsIdentity(formats: seq<Encoding>, formatType: string)
    requires Ranked(formats, formatType)
    ensures SortByQuality(formats, formatType) == formats
    decreases |formats|
  {
    if formats != [] {
      SortRankedIsIdentity(formats[1..], formatType);
      assert formats == [formats[0]] + formats[1..];
    }
  }

  lemma SortTwiceIsSortOnce(formats: seq<Encoding>, formatType: string)
    ensures SortByQuality(SortByQuality(formats, formatType), formatType) == SortByQuality(formats, formatType)
  {
    SortRankedIsIdentity(SortByQuality(formats, formatType), formatType);
  }

  // ------------------------------------------------------- best format id

  /** The index `get_best_format_id` takes for a quality tier in a list of `n`. */
  function TierIndex(quality: string, n: nat): (i: nat)
    requires n > 0
    ensures i < n
  {
    if quality == "best" then 0
    else if quality == "high" then Min(n / 4, n - 1)
    else if quality == "medium" then Min(n / 2, n - 1)
    else if quality == "low" then Min(3 * n / 4, n - 1)
    else 0
  }

  /** Tiers never move up the ranking as they get lower. */
  lemma TierOrder(n: nat)
    requires n > 0
    ensures TierIndex("best", n) <= TierIndex("high", n) <= TierIndex("medium", n) <= TierIndex("low", n)
  {
  }

  /** The ranked pool a tier is picked from: video-only, else progressive. */
  function CandidatePool(formats: seq<Encoding>): seq<Encoding>
  {
    var videoOnly := Bucket(formats, Some(VideoOnly));
    if videoOnly != [] then videoOnly else Bucket(formats, Some(Progressive))
  }

  /** `get_best_format_id`. */
  function BestFormatId(formats: seq<Encoding>, quality: string): (r: Option<string>)
    ensures formats == [] ==> r == None
  {
    if formats == [] then None
    else
      var videoFormats := SortByQuality(Bucket(formats, Some(VideoOnly)), "video");
      var videoFormats := if videoFormats == [] then SortByQuality(Bucket(formats, Some(Progressive)), "video") else videoFormats;
      if videoFormats == [] then None
      else Some(videoFormats[TierIndex(quality, |videoFormats|)].formatId)
  }

  /** Ranking neither adds nor loses encodings. */
  lemma SortKeepsMembers(formats: seq<Encoding>, formatType: string)
    ensures |SortByQuality(formats, formatType)| == |formats|
    ensures forall f :: f in SortByQuality(formats, formatType) <==> f in formats
  {
    var r := SortByQuality(formats, formatType);
    assert |multiset(r)| == |multiset(formats)|;
    forall f
      ensures f in r <==> f in formats
    {
      assert f in r <==> f in multiset(r);
      assert f in formats <==> f in multiset(formats);
    }
  }

  /** `get_best_format_id` ranks the candidate pool and indexes it by tier. */
  lemma BestFormatIdFromPool(formats: seq<Encoding>, quality: string)
    ensures |SortByQuality(CandidatePool(formats), "video")| == |CandidatePool(formats)|
    ensures BestFormatId(formats, quality)
         == if CandidatePool(formats) == [] then None
            else Some(SortByQuality(CandidatePool(formats), "video")
                        [TierIndex(quality, |CandidatePool(formats)|)].formatId)
  {
    SortKeepsMembers(Bucket(formats, Some(VideoOnly)), "video");
    SortKeepsMembers(Bucket(formats, Some(Progressive)), "video");
    if formats == [] {
      assert Bucket(formats, Some(VideoOnly)) == [] && Bucket(formats, Some(Progressive)) == [];
    }
  }

  /** No id exactly when there is neither a video-only nor a progressive encoding;
      otherwise the id belongs to an encoding of the pool (progressive only when
      there is no video-only encoding). */
  lemma BestFormatIdSource(formats: seq<Encoding>, quality: string)
    ensures BestFormatId(formats, quality) == None <==> CandidatePool(formats) == []
    ensures BestFormatId(formats, quality).Some? ==>
      exists f :: f in CandidatePool(formats) && BestFormatId(formats, quality).value == f.formatId
  {
    var pool := CandidatePool(formats);
    BestFormatIdFromPool(formats, quality);
    if pool != [] {
      var ranked := SortByQuality(pool, "video");
      SortKeepsMembers(pool, "video");
      assert ranked[TierIndex(quality, |pool|)] in pool;
    }
  }

  /** "best" picks an encoding of the pool whose key no other one exceeds. */
  lemma BestIsTopRanked(formats: seq<Encoding>)
    requires CandidatePool(formats) != []
    ensures exists f :: (f in CandidatePool(formats) && BestFormatId(formats, "best") == Some(f.formatId)
      && forall g :: g in CandidatePool(formats) ==> !KeyLess(QualityKey(f, "video"), QualityKey(g, "video")))
  {
    var pool := CandidatePool(formats);
    var ranked := SortByQuality(pool, "video");
    BestFormatIdSource(formats, "best");
    assert |ranked| == |pool| by {
      assert |multiset(ranked)| == |multiset(pool)|;
    }
    var f := ranked[0];
    assert f in multiset(pool);
    forall g | g in pool
      ensures !KeyLess(QualityKey(f, "video"), QualityKey(g, "video"))
    {
      assert g in multiset(ranked);
      var j :| 0 <= j < |ranked| && ranked[j] == g;
      if j > 0 {
        assert !KeyLess(QualityKey(ranked[0], "video"), QualityKey(ranked[j], "video"));
      }
    }
  }

  // -------------------------------------------------------------- filtering

  /** The keyword arguments of `filter_formats`. A criterion equal to 0 or []
      is absent or falsy; the source skips it either way. */
  datatype Criteria = Criteria(
    minHeight: int,
    maxHeight: int,
    minBitrate: int,
    maxBitrate: int,
    codecs: seq<string>,
    extensions: seq<string>)

  /** `tbr or vbr or abr`, missing numbers read as 0. */
  function Bitrate(f: Encoding): int
  {
    IntOr(OrZero(f.tbr), IntOr(OrZero(f.vbr), OrZero(f.abr)))
  }

  predicate MeetsMinHeight(f: Encoding, m: int) { OrZero(f.height) >= m }
  predicate MeetsMaxHeight(f: Encoding, m: int) { f.height.GetOr(9999) <= m }
  predicate MeetsMinBitrate(f: Encoding, m: int) { Bitrate(f) >= m }
  predicate MeetsMaxBitrate(f: Encoding, m: int) { Bitrate(f) <= m }

  /** Some wanted codec occurs, case-insensitively, in vcodec + acodec (missing = ""). */
  predicate MatchesCodec(f: Encoding, codecs: seq<string>)
  {
    exists i :: 0 <= i < |codecs| && Contains(Lower(f.vcodec.GetOr("") + f.acodec.GetOr("")), Lower(codecs[i]))
  }

  /** `f.get('ext') in extensions`: a missing extension never matches. */
  predicate HasExtension(f: Encoding, extensions: seq<string>)
  {
    f.ext.Some? && f.ext.value in extensions
  }

  /** The six keyword arguments, in the order `filter_formats` applies them. */
  datatype Criterion = MinHeight | MaxHeight | MinBitrate | MaxBitrate | Codecs | Extensions

  /** The criterion is truthy, so the source applies its comprehension. */
  predicate Given(c: Criteria, k: Criterion)
  {
    match k
    case MinHeight => c.minHeight != 0
    case MaxHeight => c.maxHeight != 0
    case MinBitrate => c.minBitrate != 0
    case MaxBitrate => c.maxBitrate != 0
    case Codecs => c.codecs != []
    case Extensions => c.extensions != []
  }

  /** The condition of the comprehension for one criterion. */
  predicate Passes(f: Encoding, c: Criteria, k: Criterion)
  {
    match k
    case MinHeight => MeetsMinHeight(f, c.minHeight)
    case MaxHeight => MeetsMaxHeight(f, c.maxHeight)
    case MinBitrate => MeetsMinBitrate(f, c.minBitrate)
    case MaxBitrate => MeetsMaxBitrate(f, c.maxBitrate)
    case Codecs => MatchesCodec(f, c.codecs)
    case Extensions => HasExtension(f, c.extensions)
  }

  /** One `if criterion: formats = [f for f in formats if ...]` step. */
  function Narrow(s: seq<Encoding>, c: Criteria, k: Criterion): seq<Encoding>
  {
    if Given(c, k) then Filter(s, f => Passes(f, c, k)) else s
  }

  /** `filter_formats`: the six steps in the source's order. */
  function FilterFormats(formats: seq<Encoding>, c: Criteria): (r: seq<Encoding>)
    ensures |r| <= |formats|
    ensures forall f :: f in r ==> f in formats
  {
    Narrow(Narrow(Narrow(Narrow(Narrow(Narrow(formats, c, MinHeight), c, MaxHeight),
      c, MinBitrate), c, MaxBitrate), c, Codecs), c, Extensions)
  }

  /** An encoding satisfies every criterion that is given. */
  predicate Admits(f: Encoding, c: Criteria)
  {
    && (c.minHeight != 0 ==> MeetsMinHeight(f, c.minHeight))
    && (c.maxHeight != 0 ==> MeetsMaxHeight(f, c.maxHeight))
    && (c.minBitrate != 0 ==> MeetsMinBitrate(f, c.minBitrate))
    && (c.maxBitrate != 0 ==> MeetsMaxBitrate(f, c.maxBitrate))
    && (c.codecs != [] ==> MatchesCodec(f, c.codecs))
    && (c.extensions != [] ==> HasExtension(f, c.extensions))
  }

  /** The reference: a single pass keeping the encodings every given criterion admits. */
  function Admitted(formats: seq<Encoding>, c: Criteria): seq<Encoding>
  {
    Filter(formats, f => Admits(f, c))
  }

  lemma NarrowConcat(a: seq<Encoding>, b: seq<Encoding>, c: Criteria, k: Criterion)
    ensures Narrow(a + b, c, k) == Narrow(a, c, k) + Narrow(b, c, k)
  {
    FilterConcat(a, b, f => Passes(f, c, k));
  }

  lemma FilterFormatsConcat(a: seq<Encoding>, b: seq<Encoding>, c: Criteria)
    ensures FilterFormats(a + b, c) == FilterFormats(a, c) + FilterFormats(b, c)
  {
    var a1, b1 := Narrow(a, c, MinHeight), Narrow(b, c, MinHeight);
    NarrowConcat(a, b, c, MinHeight);
    var a2, b2 := Narrow(a1, c, MaxHeight), Narrow(b1, c, MaxHeight);
    NarrowConcat(a1, b1, c, MaxHeight);
    var a3, b3 := Narrow(a2, c, MinBitrate), Narrow(b2, c, MinBitrate);
    NarrowConcat(a2, b2, c, MinBitrate);
    var a4, b4 := Narrow(a3, c, MaxBitrate), Narrow(b3, c, MaxBitrate);
    NarrowConcat(a3, b3, c, MaxBitrate);
    var a5, b5 := Narrow(a4, c, Codecs), Narrow(b4, c, Codecs);
    NarrowConcat(a4, b4, c, Codecs);
    NarrowConcat(a5, b5, c, Extensions);
  }

  lemma NarrowSingle(s: seq<Encoding>, c: Criteria, k: Criterion)
    requires |s| <= 1
    ensures Narrow(s, c, k) == if s != [] && (Given(c, k) ==> Passes(s[0], c, k)) then s else []
  {
    if s != [] && Given(c, k) {
      assert s == [s[0]];
      assert Filter(s[1..], f => Passes(f, c, k)) == [];
    }
  }

  lemma FilterFormatsSingle(f: Encoding, c: Criteria)
    ensures FilterFormats([f], c) == if Admits(f, c) then [f] else []
  {
    var s1 := Narrow([f], c, MinHeight);
    NarrowSingle([f], c, MinHeight);
    var s2 := Narrow(s1, c, MaxHeight);
    NarrowSingle(s1, c, MaxHeight);
    var s3 := Narrow(s2, c, MinBitrate);
    NarrowSingle(s2, c, MinBitrate);
    var s4 := Narrow(s3, c, MaxBitrate);
    NarrowSingle(s3, c, MaxBitrate);
    var s5 := Narrow(s4, c, Codecs);
    NarrowSingle(s4, c, Codecs);
    NarrowSingle(s5, c, Extensions);
  }

  /** The chain of comprehensions keeps exactly the encodings that the single
      conjunction admits, in the same order. */
  lemma {:induction false} FilterFormatsIsAdmitted(formats: seq<Encoding>, c: Criteria)
    ensures FilterFormats(formats, c) == Admitted(formats, c)
    decreases |formats|
  {
    if formats != [] {
      FilterFormatsIsAdmitted(formats[1..], c);
      assert formats == [formats[0]] + formats[1..];
      FilterFormatsConcat([formats[0]], formats[1..], c);
      FilterFormatsSingle(formats[0], c);
    }
  }

  /** What `filter_formats` promises: a subsequence of its input whose members
      meet every given criterion, missing none that do; with no criteria, the input. */
  lemma FilterFormatsSpec(formats: seq<Encoding>, c: Criteria)
    ensures IsSubseq(FilterFormats(formats, c), formats)
    ensures forall f :: f in FilterFormats(formats, c) <==> f in formats && Admits(f, c)
    ensures c == Criteria(0, 0, 0, 0, [], []) ==> FilterFormats(formats, c) == formats
  {
    FilterFormatsIsAdmitted(formats, c);
    FilterIsSubseq(formats, f => Admits(f, c));
    forall f | f in formats && Admits(f, c)
      ensures f in Admitted(formats, c)
    {
      var i :| 0 <= i < |formats| && formats[i] == f;
    }
  }

  // ------------------------------------------------------------------ label

  /** `_format_bytes`: "?" when not positive, else the value scaled to
      B/KB/MB/GB/TB printed with no decimals and no space. */
  function FormatBytes(size: int): (r: string)
    ensures size <= 0 <==> r == "?"
  {
    if size <= 0 then "?"
    else
      var k := UnitIndex(size, 4);
      var text := Fixed0(size, Pow(1024, k)) + ["B", "KB", "MB", "GB", "TB"][k];
      assert text[0] != '?';
      text
  }

  /** A codec tag as shown: the text before its first '.', upper-cased, at most 10 characters. */
  function CodecName(codec: string): (r: string)
    ensures |r| <= 10
  {
    Take(Upper(Split(codec, '.')[0]), 10)
  }

  function ResolutionPart(f: Encoding): seq<string>
  {
    if f.height.Some? && f.height.value != 0 then
      var fps := f.fps.GetOr(30);
      [IntToString(f.height.value) + "p" + (if fps > 30 then IntToString(fps) else "")]
    else []
  }

  function VideoCodecPart(f: Encoding): seq<string>
  {
    if Truthy(f.vcodec) && f.vcodec.value != "none" then [CodecName(f.vcodec.value)] else []
  }

  function AudioCodecPart(f: Encoding): seq<string>
  {
    if Truthy(f.acodec) && f.acodec.value != "none" && !Truthy(f.vcodec) then [CodecName(f.acodec.value)] else []
  }

  function SizePart(f: Encoding): seq<string>
  {
    var size := IntOr(OrZero(f.filesize), OrZero(f.filesizeApprox));
    if size != 0 then [FormatBytes(size)] else []
  }

  function BitratePart(f: Encoding): seq<string>
  {
    if f.abr.Some? && f.abr.value != 0 then [IntToString(f.abr.value) + "kbps"] else []
  }

  /** The parts of a label: resolution, codec, size, audio bitrate, each when known. */
  function LabelParts(f: Encoding): seq<string>
  {
    ResolutionPart(f) + VideoCodecPart(f) + AudioCodecPart(f) + SizePart(f) + BitratePart(f)
  }

  /** `get_format_label`: accumulates the parts in order and joins them with " • ". */
  method FormatLabel(f: Encoding) returns (text: string)
    ensures text == Join(LabelParts(f), " \U{2022} ")
  {
    var parts: seq<string> := [];
    if f.height.Some? && f.height.value != 0 {
      var resolution := IntToString(f.height.value) + "p";
      var fps := f.fps.GetOr(30);
      if fps > 30 {
        resolution := resolution + IntToString(fps);
      } else {
        assert resolution + "" == resolution;
      }
      parts := parts + [resolution];
    }
    assert parts == ResolutionPart(f);
    if f.vcodec.Some? && f.vcodec.value != "" {
      if f.vcodec.value != "none" {
        var codec := Upper(Split(f.vcodec.value, '.')[0]);
        parts := parts + [Take(codec, 10)];
      }
    }
    assert parts == ResolutionPart(f) + VideoCodecPart(f);
    if f.acodec.Some? && f.acodec.value != "" {
      if f.acodec.value != "none" && !(f.vcodec.Some? && f.vcodec.value != "") {
        var codec := Upper(Split(f.acodec.value, '.')[0]);
        parts := parts + [Take(codec, 10)];
      }
    }
    assert parts == ResolutionPart(f) + VideoCodecPart(f) + AudioCodecPart(f);
    var filesize := IntOr(OrZero(f.filesize), OrZero(f.filesizeApprox));
    if filesize != 0 {
      parts := parts + [FormatBytes(filesize)];
    }
    assert parts == ResolutionPart(f) + VideoCodecPart(f) + AudioCodecPart(f) + SizePart(f);
    if f.abr.Some? && f.abr.value != 0 {
      parts := parts + [IntToString(f.abr.value) + "kbps"];
    }
    assert parts == LabelParts(f);
    text := Join(parts, " \U{2022} ");
  }

  /** The audio codec is shown only for an encoding without a truthy video
      codec, so a label has at most one codec part, each at most 10 characters,
      and at most four parts in all. */
  lemma LabelCodecParts(f: Encoding)
    ensures Truthy(f.vcodec) ==> AudioCodecPart(f) == []
    ensures |VideoCodecPart(f) + AudioCodecPart(f)| <= 1
    ensures forall p :: p in VideoCodecPart(f) + AudioCodecPart(f) ==> |p| <= 10
    ensures |LabelParts(f)| <= 4
  {
  }
}
