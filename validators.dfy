/** Input validation, video-id extraction and filename sanitising
    (utils/validators.py, `URLValidator` and `FileValidator`). */
module Validators {
  import opened Common
  import opened Text
  import YouTubeSearch

  // ------------------------------------------------------------- is_valid_url

  /** `any(domain in url.lower() for domain in youtube_domains)` with the four domains of `is_valid_url`. */
  predicate NamesYouTube(url: string)
  {
    var l := Lower(url);
    Contains(l, "youtube.com") || Contains(l, "youtu.be") || Contains(l, "m.youtube.com") || Contains(l, "www.youtube.com")
  }

  /** `is_valid_url`: (valid, error message). */
  function IsValidUrl(url: string): (r: (bool, string))
    ensures r == (false, "Input cannot be empty") <==> Strip(url) == ""
    ensures r == (false, "Only YouTube URLs are supported")
        <==> YouTubeSearch.IsHttp(Strip(url)) && !NamesYouTube(Strip(url))
    ensures r.0 <==> r.1 == ""
  {
    var s := Strip(url);
    if s == "" then (false, "Input cannot be empty")
    else if YouTubeSearch.IsHttp(s) then
      if NamesYouTube(s) then (true, "") else (false, "Only YouTube URLs are supported")
    else if |s| == 11 && IsAlnum(s) then (true, "")
    else (true, "")
  }

  /** The extra 'www.youtube.com' changes nothing: it contains 'youtube.com'. */
  lemma NamesIffMentions(s: string)
    ensures NamesYouTube(s) <==> YouTubeSearch.MentionsYouTube(s)
  {
    var l := Lower(s);
    if Contains(l, "www.youtube.com") {
      assert "www." + "youtube.com" == "www.youtube.com";
      ContainsParts(l, "www.", "youtube.com");
    }
  }

  /** The validator and the classifier agree: an input is refused exactly when
      `parse_input` calls it 'empty' or 'invalid_url'. */
  lemma ValidUnlessEmptyOrInvalid(url: string)
    ensures !IsValidUrl(url).0
        <==> YouTubeSearch.ParseInput(url).Empty? || YouTubeSearch.ParseInput(url).InvalidUrl?
  {
    var s := Strip(url);
    NamesIffMentions(s);
    assert !IsValidUrl(url).0 <==> s == "" || (YouTubeSearch.IsHttp(s) && !NamesYouTube(s));
    var p := YouTubeSearch.ParseInput(url);
    assert p.Empty? <==> s == "";
    assert p.InvalidUrl? <==> YouTubeSearch.IsHttp(s) && !YouTubeSearch.MentionsYouTube(s);
  }

  // --------------------------------------------------------- extract_video_id

  /** A character of `[0-9A-Za-z_-]`. */
  predicate IsIdChar(c: char)
  {
    IsAsciiAlnum(c) || c == '_' || c == '-'
  }

  /** Eleven id characters start at index `j` of `s`. */
  predicate IdAt(s: string, j: int)
  {
    0 <= j && j + 11 <= |s| && forall k :: j <= k < j + 11 ==> IsIdChar(s[k])
  }

  /** Eleven id characters. */
  predicate IsId(g: string)
  {
    |g| == 11 && forall k :: 0 <= k < 11 ==> IsIdChar(g[k])
  }

  /** `g` is a run of eleven id characters somewhere in `s`. */
  ghost predicate IdIn(s: string, g: string)
  {
    exists j :: IdAt(s, j) && s[j..j + 11] == g
  }

  /** The capture of `(?:a1|a2|...)([0-9A-Za-z_-]{11})` tried at index `j`:
      the first alternative that occurs at `j` and is followed by an id. */
  function MatchAt(s: string, alts: seq<string>, j: int): (g: Option<string>)
    ensures g.Some? ==> IsId(g.value) && IdIn(s, g.value)
    ensures g.Some? <==> exists k :: 0 <= k < |alts| && OccursAt(s, alts[k], j) && IdAt(s, j + |alts[k]|)
  {
    if alts == [] then None
    else if OccursAt(s, alts[0], j) && IdAt(s, j + |alts[0]|) then
      var i := j + |alts[0]|;
      assert IdAt(s, i) && s[i..i + 11] == s[i..i + 11];
      Some(s[i..i + 11])
    else
      var g := MatchAt(s, alts[1..], j);
      assert forall k :: 1 <= k < |alts| ==> alts[k] == alts[1..][k - 1];
      g
  }

  /** `re.search` for that pattern from index `j` on: the leftmost match wins. */
  function SearchFrom(s: string, alts: seq<string>, j: nat): (g: Option<string>)
    ensures g.Some? ==> IsId(g.value) && IdIn(s, g.value)
    ensures g.Some? ==> exists i :: j <= i <= |s| && MatchAt(s, alts, i) == g
                            && forall k :: j <= k < i ==> MatchAt(s, alts, k).None?
    ensures g.None? ==> forall k :: j <= k <= |s| ==> MatchAt(s, alts, k).None?
    decreases |s| - j
  {
    if j > |s| then None
    else if MatchAt(s, alts, j).Some? then MatchAt(s, alts, j)
    else SearchFrom(s, alts, j + 1)
  }

  function RegexSearch(s: string, alts: seq<string>): (g: Option<string>)
    ensures g.Some? ==> IsId(g.value) && IdIn(s, g.value)
  {
    SearchFrom(s, alts, 0)
  }

  const Pattern1: seq<string> := ["v=", "/"]
  const Pattern2: seq<string> := ["embed/"]
  const Pattern3: seq<string> := ["watch?v="]

  /** `extract_video_id`: the three patterns in turn, "" when none matches or
      the platform is not 'youtube'. */
  function ExtractVideoId(url: string, platform: string): (r: string)
    ensures platform != "youtube" ==> r == ""
    ensures r == "" || IsId(r)
    ensures r != "" ==> IdIn(url, r)
  {
    if platform == "youtube" then
      if RegexSearch(url, Pattern1).Some? then RegexSearch(url, Pattern1).value
      else if RegexSearch(url, Pattern2).Some? then RegexSearch(url, Pattern2).value
      else if RegexSearch(url, Pattern3).Some? then RegexSearch(url, Pattern3).value
      else ""
    else ""
  }

  /** "embed/" followed by an id at `j` puts "/" followed by that id at `j + 5`. */
  lemma EmbedIsSlash(s: string, j: int)
    requires MatchAt(s, Pattern2, j).Some?
    ensures MatchAt(s, Pattern1, j + 5).Some?
  {
    assert OccursAt(s, "embed/", j) && IdAt(s, j + 6);
    assert s[j + 5..j + 6] == "embed/"[5..6];
    assert OccursAt(s, Pattern1[1], j + 5);
  }

  /** "watch?v=" followed by an id at `j` puts "v=" followed by that id at `j + 6`. */
  lemma WatchIsV(s: string, j: int)
    requires MatchAt(s, Pattern3, j).Some?
    ensures MatchAt(s, Pattern1, j + 6).Some?
  {
    assert OccursAt(s, "watch?v=", j) && IdAt(s, j + 8);
    assert s[j + 6..j + 8] == "watch?v="[6..8];
    assert OccursAt(s, Pattern1[0], j + 6);
  }

  /** Hence the second and third patterns never decide the result: when the
      first finds nothing, neither do they. */
  lemma FirstPatternDecides(url: string)
    ensures RegexSearch(url, Pattern1).None? ==> RegexSearch(url, Pattern2).None? && RegexSearch(url, Pattern3).None?
    ensures ExtractVideoId(url, "youtube") == RegexSearch(url, Pattern1).GetOr("")
  {
    if RegexSearch(url, Pattern1).None? {
      if RegexSearch(url, Pattern2).Some? {
        var i :| 0 <= i <= |url| && MatchAt(url, Pattern2, i) == RegexSearch(url, Pattern2);
        EmbedIsSlash(url, i);
        assert false;
      }
      if RegexSearch(url, Pattern3).Some? {
        var i :| 0 <= i <= |url| && MatchAt(url, Pattern3, i) == RegexSearch(url, Pattern3);
        WatchIsV(url, i);
        assert false;
      }
    }
  }

  // ------------------------------------------------------ playlist and channel

  /** Some string of `subs` occurs in `s`. */
  predicate ContainsAny(s: string, subs: seq<string>)
  {
    exists i :: 0 <= i < |subs| && Contains(s, subs[i])
  }

  const PlaylistIndicators: seq<string> := ["playlist", "list=", "/sets/", "/album/"]
  const ChannelIndicators: seq<string> := ["/channel/", "/user/", "/c/", "/@"]

  /** `is_playlist_url`. */
  predicate IsPlaylistUrl(url: string)
    ensures IsPlaylistUrl(url) <==> (Contains(Lower(url), "playlist") || Contains(Lower(url), "list=")
      || Contains(Lower(url), "/sets/") || Contains(Lower(url), "/album/"))
  {
    var p := PlaylistIndicators;
    assert p[0] == "playlist" && p[1] == "list=" && p[2] == "/sets/" && p[3] == "/album/";
    ContainsAny(Lower(url), p)
  }

  /** `is_channel_url`. */
  predicate IsChannelUrl(url: string)
    ensures IsChannelUrl(url) <==> (Contains(Lower(url), "/channel/") || Contains(Lower(url), "/user/")
      || Contains(Lower(url), "/c/") || Contains(Lower(url), "/@"))
  {
    var c := ChannelIndicators;
    assert c[0] == "/channel/" && c[1] == "/user/" && c[2] == "/c/" && c[3] == "/@";
    ContainsAny(Lower(url), c)
  }

  /** Both tests ignore case. */
  lemma IndicatorsIgnoreCase(url: string)
    ensures IsPlaylistUrl(Lower(url)) == IsPlaylistUrl(url)
    ensures IsChannelUrl(Lower(url)) == IsChannelUrl(url)
  {
    LowerIdempotent(url);
  }

  /** Any URL with "playlist" in it (such as "/playlist?list=...") is a playlist URL. */
  lemma PlaylistWordSuffices(a: string, b: string)
    ensures IsPlaylistUrl(a + "playlist" + b)
  {
    var s := a + "playlist" + b;
    assert Lower(s) == Lower(a) + "playlist" + Lower(b);
    assert OccursAt(Lower(s), "playlist", |a|);
    assert Contains(Lower(s), PlaylistIndicators[0]);
  }

  // -------------------------------------------------------- sanitize_filename

  const InvalidChars: set<char> := {'<', '>', ':', '"', '/', '\\', '|', '?', '*'}

  /** No character of `s` is one `sanitize_filename` replaces. */
  predicate NoInvalidChars(s: string)
  {
    forall i :: 0 <= i < |s| ==> s[i] !in InvalidChars
  }

  /** `re.sub(INVALID_CHARS, '_', filename)`. */
  function ReplaceInvalid(s: string): (r: string)
    ensures |r| == |s| && NoInvalidChars(r)
    ensures forall i :: 0 <= i < |s| ==> r[i] == if s[i] in InvalidChars then '_' else s[i]
  {
    seq(|s|, i requires 0 <= i < |s| => if s[i] in InvalidChars then '_' else s[i])
  }

  lemma NoInvalidSlice(s: string, i: int, j: int)
    requires NoInvalidChars(s) && 0 <= i <= j <= |s|
    ensures NoInvalidChars(s[i..j])
  {
    assert forall k :: 0 <= k < j - i ==> s[i..j][k] == s[i + k];
  }

  lemma NoInvalidConcat(a: string, b: string)
    requires NoInvalidChars(a) && NoInvalidChars(b)
    ensures NoInvalidChars(a + b)
  {
    assert forall k :: |a| <= k < |a + b| ==> (a + b)[k] == b[k - |a|];
  }

  /** `filename.strip('. ')` removes a prefix and a suffix: a slice. */
  lemma StripIsSlice(s: string, chars: set<char>)
    ensures exists i, j :: 0 <= i <= j <= |s| && StripChars(s, chars) == s[i..j]
  {
    var l := LStrip(s, chars);
    var r := RStrip(l, chars);
    assert l == s[|s| - |l|..];
    assert r == l[..|r|] == s[|s| - |l|..|s| - |l| + |r|];
  }

  /** The name after replacement and stripping. */
  function Cleaned(filename: string): (r: string)
    ensures NoInvalidChars(r)
    ensures r != [] ==> r[0] !in {'.', ' '} && r[|r| - 1] !in {'.', ' '}
  {
    var replaced := ReplaceInvalid(filename);
    StripIsSlice(replaced, {'.', ' '});
    var i, j :| 0 <= i <= j <= |replaced| && StripChars(replaced, {'.', ' '}) == replaced[i..j];
    NoInvalidSlice(replaced, i, j);
    StripChars(replaced, {'.', ' '})
  }

  /** `name, ext = filename.rsplit('.', 1) if '.' in filename else (filename, '')`. */
  function RSplitDot(s: string): (r: (string, string))
    ensures '.' in s ==> r.0 + "." + r.1 == s && '.' !in r.1
    ensures '.' !in s ==> r == (s, "")
    ensures r.0 == s[..|r.0|] && r.1 == s[|s| - |r.1|..]
  {
    var i := RFind(s, '.');
    if i >= 0 then
      assert s[..i] + "." + s[i + 1..] == s;
      (s[..i], s[i + 1..])
    else (s, "")
  }

  /** The truncation step for a cleaned name longer than `maxLength`. */
  function Truncate(cleaned: string, maxLength: int): (r: string)
    ensures |r| <= |cleaned|
    ensures '.' !in cleaned ==> r == cleaned[..|r|]
  {
    var (name, ext) := RSplitDot(cleaned);
    PyPrefix(name, maxLength - |ext| - 1) + (if ext != "" then "." + ext else "")
  }

  lemma TruncateNoInvalid(cleaned: string, maxLength: int)
    requires NoInvalidChars(cleaned)
    ensures NoInvalidChars(Truncate(cleaned, maxLength))
  {
    var (name, ext) := RSplitDot(cleaned);
    var kept := PyPrefix(name, maxLength - |ext| - 1);
    NoInvalidSlice(cleaned, 0, |name|);
    NoInvalidSlice(name, 0, |kept|);
    NoInvalidSlice(cleaned, |cleaned| - |ext|, |cleaned|);
    NoInvalidConcat(".", ext);
    NoInvalidConcat(kept, if ext != "" then "." + ext else "");
  }

  /** `sanitize_filename`. */
  function SanitizeFilename(filename: string, maxLength: int): (r: string)
    ensures NoInvalidChars(r)
  {
    var cleaned := Cleaned(filename);
    if |cleaned| > maxLength then
      TruncateNoInvalid(cleaned, maxLength);
      Truncate(cleaned, maxLength)
    else cleaned
  }

  /** A name that fits comes back as replaced and stripped, with no '.' or ' ' at either end. */
  lemma SanitizeShort(filename: string, maxLength: int)
    requires |Cleaned(filename)| <= maxLength
    ensures SanitizeFilename(filename, maxLength) == Cleaned(filename)
    ensures var r := SanitizeFilename(filename, maxLength);
      r != [] ==> r[0] !in {'.', ' '} && r[|r| - 1] !in {'.', ' '}
  {
  }

  /** An over-long name without a dot keeps its first `maxLength - 1` characters
      (one fewer than allowed: the length left for the missing extension's dot). */
  lemma SanitizeLongNoDot(filename: string, maxLength: int)
    requires |Cleaned(filename)| > maxLength && '.' !in Cleaned(filename)
    ensures SanitizeFilename(filename, maxLength) == PyPrefix(Cleaned(filename), maxLength - 1)
    ensures maxLength >= 1 ==> |SanitizeFilename(filename, maxLength)| == maxLength - 1
  {
  }

  /** A name that does not end in '.' but has one splits into a non-empty extension. */
  lemma ExtensionNonEmpty(c: string)
    requires '.' in c && c[|c| - 1] != '.'
    ensures RSplitDot(c).1 != "" && '.' !in RSplitDot(c).1
  {
    var parts := RSplitDot(c);
    assert c == parts.0 + "." + parts.1;
  }

  /** Truncation keeps "." + extension at the end; the result fits when the
      extension is shorter than `maxLength`. */
  lemma TruncateKeepsExtension(c: string, maxLength: int)
    requires RSplitDot(c).1 != ""
    ensures EndsWith(Truncate(c, maxLength), "." + RSplitDot(c).1)
    ensures |RSplitDot(c).1| < maxLength ==> |Truncate(c, maxLength)| <= maxLength
  {
    var ext := RSplitDot(c).1;
    var kept := PyPrefix(RSplitDot(c).0, maxLength - |ext| - 1);
    var r := Truncate(c, maxLength);
    assert r == kept + ("." + ext);
    assert r[|r| - |"." + ext|..] == "." + ext;
  }

  /** An over-long name with a dot keeps the text after its last dot as the
      extension; the result fits when that extension is shorter than `maxLength`. */
  lemma SanitizeLongWithDot(filename: string, maxLength: int)
    requires |Cleaned(filename)| > maxLength && '.' in Cleaned(filename)
    ensures RSplitDot(Cleaned(filename)).1 != "" && '.' !in RSplitDot(Cleaned(filename)).1
    ensures EndsWith(SanitizeFilename(filename, maxLength), "." + RSplitDot(Cleaned(filename)).1)
    ensures |RSplitDot(Cleaned(filename)).1| < maxLength ==> |SanitizeFilename(filename, maxLength)| <= maxLength
  {
    var c := Cleaned(filename);
    assert c != [] && c[|c| - 1] != '.';
    ExtensionNonEmpty(c);
    TruncateKeepsExtension(c, maxLength);
    assert SanitizeFilename(filename, maxLength) == Truncate(c, maxLength);
  }
}
