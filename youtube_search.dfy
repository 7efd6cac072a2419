/** Classification of what the user typed, and the parts of search that do not
    depend on yt-dlp (utils/youtube_search.py, `YouTubeSearcher`). The search
    backend is a parameter: a function from the "ytsearchN:..." query to what
    the extractor returned. */
module YouTubeSearch {
  import opened Common
  import opened Text

  const WatchPrefix: string := "https://www.youtube.com/watch?v="

  /** The input starts with a web scheme. */
  predicate IsHttp(s: string)
  {
    StartsWith(s, "http://") || StartsWith(s, "https://")
  }

  /** `any(domain in s.lower() for domain in youtube_domains)`. */
  predicate MentionsYouTube(s: string)
  {
    Contains(Lower(s), "youtube.com") || Contains(Lower(s), "youtu.be") || Contains(Lower(s), "m.youtube.com")
  }

  /** Eleven characters that are ASCII letters and digits once '-' and '_' are removed. */
  predicate LooksLikeVideoId(s: string)
  {
    |s| == 11 && IsAlnum(RemoveChar(RemoveChar(s, '-'), '_'))
  }

  /** The dictionary `parse_input` returns, one constructor per 'type'. */
  datatype Parsed =
    | Empty
    | Url(value: string)
    | InvalidUrl(value: string)
    | VideoId(value: string, url: string)
    | SearchQuery(value: string)

  /** `parse_input`. */
  function ParseInput(userInput: string): (p: Parsed)
    ensures p.Empty? <==> Strip(userInput) == ""
    ensures !p.Empty? ==> p.value == Strip(userInput)
    ensures p.Url? <==> IsHttp(Strip(userInput)) && MentionsYouTube(Strip(userInput))
    ensures p.InvalidUrl? <==> IsHttp(Strip(userInput)) && !MentionsYouTube(Strip(userInput))
    ensures p.VideoId? <==> !IsHttp(Strip(userInput)) && LooksLikeVideoId(Strip(userInput))
    ensures p.VideoId? ==> p.url == WatchPrefix + p.value
  {
    var s := Strip(userInput);
    if s == "" then Empty
    else if IsHttp(s) then
      if MentionsYouTube(s) then Url(s) else InvalidUrl(s)
    else if LooksLikeVideoId(s) then VideoId(s, WatchPrefix + s)
    else SearchQuery(s)
  }

  /** Everything else is a search query. */
  lemma SearchQueryIsTheRest(userInput: string)
    ensures ParseInput(userInput).SearchQuery?
        <==> Strip(userInput) != "" && !IsHttp(Strip(userInput)) && !LooksLikeVideoId(Strip(userInput))
  {
  }

  /** The 'm.youtube.com' entry never decides anything: it contains 'youtube.com'. */
  lemma MobileDomainSubsumed(s: string)
    ensures MentionsYouTube(s) <==> Contains(Lower(s), "youtube.com") || Contains(Lower(s), "youtu.be")
  {
    if Contains(Lower(s), "m.youtube.com") {
      assert "m." + "youtube.com" == "m.youtube.com";
      ContainsParts(Lower(s), "m.", "youtube.com");
    }
  }

  /** Parsing is a function of the stripped input: re-parsing a value gives the same answer. */
  lemma ParseStripped(userInput: string)
    ensures ParseInput(Strip(userInput)) == ParseInput(userInput)
  {
    StripIdempotent(userInput);
  }

  // ------------------------------------------------------------------ search

  /** One element of an entry's `thumbnails` list. */
  datatype Thumbnail = Thumbnail(url: Option<string>)

  /** One element of the extractor's `entries`, with the keys `search` reads. */
  datatype Entry = Entry(
    id: Option<string>,
    title: Option<string>,
    url: Option<string>,
    duration: Option<int>,
    uploader: Option<string>,
    viewCount: Option<int>,
    thumbnail: Option<string>,
    thumbnails: Option<seq<Thumbnail>>)

  /** What the extractor gave back for the search query: nothing usable (an
      exception, a falsy result or no 'entries' key) or the entries. `None`
      stands for any falsy entry (null or an empty dictionary); `Some` holds a
      non-empty one. */
  datatype Fetched = Failed | Entries(entries: seq<Option<Entry>>)

  /** The dictionaries `search` returns. */
  datatype Result =
    | DirectUrl(url: string)
    | FromVideoId(url: string)
    | Hit(id: string, title: string, url: string, duration: int, uploader: string,
          viewCount: int, thumbnailUrl: string)

  /** `f"ytsearch{max_results}:{query}"`. */
  function SearchQueryString(query: string, maxResults: int): string
  {
    "ytsearch" + IntToString(maxResults) + ":" + query
  }

  /** The thumbnail a hit gets: the entry's own, else the url of the last
      element of `thumbnails`, else one built from the id, else "". */
  function ThumbnailFor(e: Entry): (r: string)
    ensures e.thumbnail.GetOr("") != "" ==> r == e.thumbnail.value
    ensures Truthy(e.id) ==> r != ""
  {
    var own := e.thumbnail.GetOr("");
    var listed := if own == "" && e.thumbnails.Some? && e.thumbnails.value != [] then
      e.thumbnails.value[|e.thumbnails.value| - 1].url.GetOr("") else own;
    if listed == "" && Truthy(e.id) then "https://i.ytimg.com/vi/" + e.id.value + "/hqdefault.jpg"
    else listed
  }

  /** The candidate thumbnails in order of preference ("" where there is none). */
  function ThumbnailCandidates(e: Entry): seq<string>
  {
    [ e.thumbnail.GetOr(""),
      if e.thumbnails.Some? && e.thumbnails.value != [] then e.thumbnails.value[|e.thumbnails.value| - 1].url.GetOr("") else "",
      if Truthy(e.id) then "https://i.ytimg.com/vi/" + e.id.value + "/hqdefault.jpg" else "" ]
  }

  /** The first non-empty string of `s`, or "". */
  function FirstNonEmpty(s: seq<string>): (r: string)
    ensures r == "" <==> forall i :: 0 <= i < |s| ==> s[i] == ""
    ensures r != "" ==> exists i :: 0 <= i < |s| && s[i] == r && forall j :: 0 <= j < i ==> s[j] == ""
  {
    if s == [] then ""
    else if s[0] != "" then s[0]
    else
      var r := FirstNonEmpty(s[1..]);
      assert r != "" ==> exists i :: 1 <= i < |s| && s[i] == r && forall j :: 0 <= j < i ==> s[j] == "" by {
        if r != "" {
          var i :| 0 <= i < |s[1..]| && s[1..][i] == r && forall j :: 0 <= j < i ==> s[1..][j] == "";
          assert s[i + 1] == r;
          assert forall j :: 1 <= j < i + 1 ==> s[j] == s[1..][j - 1];
        }
      }
      r
  }

  /** The fallback chain picks the first candidate that is there. */
  lemma ThumbnailIsFirstCandidate(e: Entry)
    ensures ThumbnailFor(e) == FirstNonEmpty(ThumbnailCandidates(e))
  {
    var c := ThumbnailCandidates(e);
    assert c[1..][1..] == [c[2]];
    assert c[1..][1..][1..] == [];
  }

  /** The dictionary built for one non-empty entry. */
  function EntryToHit(e: Entry): (r: Result)
    ensures r.Hit?
    ensures r.title == e.title.GetOr("Unknown Title")
    ensures r.url == if Truthy(e.url) then e.url.value else WatchPrefix + e.id.GetOr("")
    ensures r.thumbnailUrl == FirstNonEmpty(ThumbnailCandidates(e))
  {
    ThumbnailIsFirstCandidate(e);
    Hit(e.id.GetOr(""), e.title.GetOr("Unknown Title"),
        if e.url.GetOr("") != "" then e.url.GetOr("") else WatchPrefix + e.id.GetOr(""),
        e.duration.GetOr(0), e.uploader.GetOr("Unknown"), e.viewCount.GetOr(0), ThumbnailFor(e))
  }

  /** The loop over `result['entries']`: skip falsy entries (`None`: null or an
      empty dictionary), convert the rest in order. */
  function EntriesToHits(entries: seq<Option<Entry>>): (r: seq<Result>)
    ensures |r| <= |entries|
    ensures forall i :: 0 <= i < |r| ==> r[i].Hit?
    decreases |entries|
  {
    if entries == [] then []
    else (if entries[0].Some? then [EntryToHit(entries[0].value)] else []) + EntriesToHits(entries[1..])
  }

  /** Only falsy entries are skipped, and the order of the others is kept. */
  lemma {:induction false} EntriesToHitsPresent(entries: seq<Option<Entry>>)
    ensures EntriesToHits(entries) == EntriesToHits(Filter(entries, (o: Option<Entry>) => o.Some?))
    ensures |EntriesToHits(entries)| == |Filter(entries, (o: Option<Entry>) => o.Some?)|
    decreases |entries|
  {
    if entries != [] {
      EntriesToHitsPresent(entries[1..]);
      var present := Filter(entries, (o: Option<Entry>) => o.Some?);
      if entries[0].Some? {
        assert present == [entries[0]] + Filter(entries[1..], (o: Option<Entry>) => o.Some?);
        assert present[1..] == Filter(entries[1..], (o: Option<Entry>) => o.Some?);
      } else {
        assert present == Filter(entries[1..], (o: Option<Entry>) => o.Some?);
      }
    }
  }

  /** `search`: the short-circuits, then one extractor call through `fetch`. */
  function Search(query: string, maxResults: int, fetch: string -> Fetched): (r: seq<Result>)
    ensures Strip(query) == "" ==> r == []
    ensures r != [] && !r[0].Hit? ==> |r| == 1
    ensures |r| > 1 ==> forall i :: 0 <= i < |r| ==> r[i].Hit?
  {
    var q := Strip(query);
    if q == "" then []
    else if IsHttp(q) then [DirectUrl(q)]
    else if LooksLikeVideoId(q) then [FromVideoId(WatchPrefix + q)]
    else
      var answer := fetch(SearchQueryString(q, maxResults));
      match answer
      case Failed => []
      case Entries(entries) => EntriesToHits(entries)
  }

  /** Empty input, any http(s) input (with no domain check) and an ID never reach
      the extractor: the answer is the same whatever it would return. */
  lemma SearchShortCircuits(query: string, maxResults: int, fetch: string -> Fetched, other: string -> Fetched)
    requires ParseInput(query).Empty? || IsHttp(Strip(query)) || ParseInput(query).VideoId?
    ensures Search(query, maxResults, fetch) == Search(query, maxResults, other)
    ensures ParseInput(query).Empty? ==> Search(query, maxResults, fetch) == []
    ensures IsHttp(Strip(query)) ==> Search(query, maxResults, fetch) == [DirectUrl(Strip(query))]
    ensures ParseInput(query).VideoId? ==> Search(query, maxResults, fetch) == [FromVideoId(ParseInput(query).url)]
  {
  }

  /** A search query goes to the extractor, stripped, and its entries come back in order. */
  lemma SearchQueryFetches(query: string, maxResults: int, fetch: string -> Fetched)
    requires ParseInput(query).SearchQuery?
    ensures Search(query, maxResults, fetch)
         == match fetch(SearchQueryString(ParseInput(query).value, maxResults))
            case Failed => []
            case Entries(entries) => EntriesToHits(entries)
  {
  }

  /** A result's title when it has a truthy one (only hits carry a title). */
  predicate Titled(r: Result)
  {
    r.Hit? && r.title != ""
  }

  /** `[video['title'] for video in results if video.get('title')]`. */
  function Titles(results: seq<Result>): (r: seq<string>)
    ensures |r| == |Filter(results, Titled)|
    ensures forall i :: 0 <= i < |r| ==> r[i] == Filter(results, Titled)[i].title && r[i] != ""
  {
    var kept := Filter(results, Titled);
    seq(|kept|, i requires 0 <= i < |kept| => kept[i].title)
  }

  /** `get_video_suggestions`: the titles of a five-result search. */
  function VideoSuggestions(query: string, fetch: string -> Fetched): (r: seq<string>)
    ensures |r| <= |Search(query, 5, fetch)|
    ensures forall i :: 0 <= i < |r| ==> r[i] != ""
  {
    Titles(Search(query, 5, fetch))
  }

  /** A URL or an ID gives no suggestion: those results carry no title. */
  lemma NoSuggestionsWithoutSearch(query: string, fetch: string -> Fetched)
    requires Strip(query) == "" || IsHttp(Strip(query)) || LooksLikeVideoId(Strip(query))
    ensures VideoSuggestions(query, fetch) == []
  {
    var results := Search(query, 5, fetch);
    assert results == [] || (|results| == 1 && !Titled(results[0]));
    if results != [] {
      assert results == [results[0]];
      assert Filter(results, Titled) == [];
    }
  }

  /** `quick_lookup`. */
  function QuickLookup(userInput: string, fetch: string -> Fetched): (r: Option<string>)
    ensures ParseInput(userInput).Url? ==> r == Some(ParseInput(userInput).value)
    ensures ParseInput(userInput).VideoId? ==> r == Some(WatchPrefix + Strip(userInput))
    ensures ParseInput(userInput).Empty? || ParseInput(userInput).InvalidUrl? ==> r == None
  {
    var parsed := ParseInput(userInput);
    match parsed
    case Url(value) => Some(value)
    case VideoId(_, url) => Some(url)
    case SearchQuery(value) =>
      var results := Search(value, 1, fetch);
      if results != [] then Some(results[0].url) else None
    case _ => None
  }

  /** For a search query, the answer is the url of the first truthy entry the
      extractor returns for "ytsearch1:<query>", if any. */
  lemma QuickLookupSearches(userInput: string, fetch: string -> Fetched)
    requires ParseInput(userInput).SearchQuery?
    ensures var answer := fetch(SearchQueryString(Strip(userInput), 1));
      QuickLookup(userInput, fetch)
        == if answer.Entries? && EntriesToHits(answer.entries) != []
           then Some(EntriesToHits(answer.entries)[0].url) else None
  {
    var q := Strip(userInput);
    assert ParseInput(userInput) == SearchQuery(q);
    var results := Search(q, 1, fetch);
    assert QuickLookup(userInput, fetch) == if results != [] then Some(results[0].url) else None;
    StripIdempotent(userInput);
    assert results == match fetch(SearchQueryString(q, 1))
            case Failed => []
            case Entries(entries) => EntriesToHits(entries);
  }

}
