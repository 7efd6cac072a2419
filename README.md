# Converso Downloader: a verified model of its decision logic

Converso Downloader is a Streamlit front end over yt-dlp, FFmpeg, `requests`
and `packaging`. Beneath the user interface it makes a set of deterministic
decisions. This project models those decisions in Dafny and proves what they
guarantee:

- which bucket an encoding (a yt-dlp "format") falls in, how encodings are
  ranked, which one a quality tier picks, which survive a filter, and how
  one is labelled (`utils/format_handler.py`);
- how user input is classified as empty, URL, invalid URL, video ID or search
  query, and what `search`, `quick_lookup` and `get_video_suggestions` do with
  it (`utils/youtube_search.py`);
- URL validation, video-ID extraction, playlist and channel detection, and
  file-name sanitising (`utils/validators.py`);
- choosing a free file name, duration and size rendering, and the
  configuration defaults (`utils/file_utils.py`);
- the metadata cache, aggregation over thumbnails and encodings, the yt-dlp
  option record, the final file name, cancellation and the progress hook, and
  playlist URL collection (`utils/downloader.py`);
- the settings store, with its merge-over-defaults load and save/load
  round trip (`config/settings.py`);
- the update check: repository URL split, update decision, platform
  download choice and notification text (`utils/update_checker.py`).

Each external call is a parameter that holds what the call returned:
- the yt-dlp metadata record, playlist or search answer;
- the outcome of a download session;
- the decoded release JSON;
- the set of existing paths;
- the stored settings or configuration object.

The version order of `packaging.version` is a function parameter that
returns "none" for an unparsable version.

Layout: one module per source file, plus two helper modules.
- `common.dfy` (`Common`): `Option`, a JSON value, Python's `or` and
  `.get(k, 0)`, and list filtering.
- `text.dfy` (`Text`): strip, ASCII case mapping, substring search,
  split/join and decimal rendering.

Where a dictionary is read with `.get(key, default)`, the field is an
`Option`. Where a class updates its fields in place, it is a Dafny `class`.
Six loops of the source are methods with loop invariants, each proved
against a specification function:
- `categorize_formats` (FormatHandler.CategorizeFormats);
- `get_unique_filename` and `format_size` (FileUtils.GetUniqueFilename, FileUtils.FormatSize);
- `_get_max_resolution` and `_estimate_total_size` (Downloader.MaxResolution, Downloader.EstimateTotalSize);
- the entry loop of `extract_playlist_urls` (Downloader.ExtractPlaylistUrls).

Other loops only build a value, and they are recursive functions: the entry
loop of `search` (YouTubeSearch.EntriesToHits), the pattern search of
`extract_video_id` (Validators.SearchFrom, Validators.RegexSearch) and the
asset scan of `get_download_url` (UpdateCheck.FirstMatch).

In a list of dictionaries, `None` stands for any falsy element (null or an
empty dictionary), which the source's `if entry:` tests skip.

## Model

| member | source | states |
|---|---|---|
| FormatHandler.Classify | utils/format_handler.py:25-37 | the encoding carries video (video-only or progressive) iff its vcodec is not 'none', and audio (audio-only or progressive) iff its acodec is not 'none'; partners DroppedIffNoCodec and BucketMembers |
| FormatHandler.CategorizeFormats | utils/format_handler.py:10-39 | each of the three lists is exactly the input's encodings of that category, in input order |
| FormatHandler.DroppedIffNoCodec | utils/format_handler.py:25-37 | an encoding lands in no bucket iff both codecs are 'none', a missing codec counting as 'none' |
| FormatHandler.BucketMembers | utils/format_handler.py:25-37 | an encoding is in a bucket iff it is in the input and has that category; each bucket is a subsequence of the input |
| FormatHandler.BucketSizes | utils/format_handler.py:25-37 | the three bucket sizes add up to the number of encodings that are not codec-less |
| FormatHandler.InsertByQuality | utils/format_handler.py:47-67 | inserting into a ranked list gives a ranked list with the same elements plus the new one |
| FormatHandler.SortByQuality | utils/format_handler.py:42-67 | the result is a permutation of the input, non-increasing in the video key (height, fps, tbr or vbr) or the audio key (abr or tbr, asr) |
| FormatHandler.KeyAtLeastTrans | utils/format_handler.py:47-67 | "not ranked below" is transitive on the lexicographic keys |
| FormatHandler.InsertKeepsTies | utils/format_handler.py:47-67 | insertion keeps the relative order of encodings with equal keys |
| FormatHandler.SortKeepsTies | utils/format_handler.py:47-67 | the sort is stable: for every key, the encodings with that key appear in input order |
| FormatHandler.SortRankedIsIdentity | utils/format_handler.py:47-67 | a list that is already ranked is returned unchanged |
| FormatHandler.SortTwiceIsSortOnce | utils/format_handler.py:47-67 | sorting is idempotent |
| FormatHandler.SortKeepsMembers | utils/format_handler.py:47-67 | sorting keeps the length and the members |
| FormatHandler.TierIndex | utils/format_handler.py:172-180 | the tier index of a non-empty list is always in range |
| FormatHandler.TierOrder | utils/format_handler.py:172-180 | best <= high <= medium <= low |
| FormatHandler.BestFormatId | utils/format_handler.py:154-180 | none for an empty list; partners BestFormatIdFromPool, BestFormatIdSource and BestIsTopRanked say which id is picked |
| FormatHandler.BestFormatIdFromPool | utils/format_handler.py:154-180 | the answer is none for an empty pool, else the id at the tier's index of the ranked pool (video-only, else progressive) |
| FormatHandler.BestFormatIdSource | utils/format_handler.py:159-170 | none iff there are neither video-only nor progressive encodings; otherwise an id of a pool member |
| FormatHandler.BestIsTopRanked | utils/format_handler.py:154-180 | the "best" tier picks an encoding that no pool member outranks |
| FormatHandler.NarrowConcat | utils/format_handler.py:115-137 | each criterion's list comprehension distributes over concatenation |
| FormatHandler.FilterFormatsConcat | utils/format_handler.py:107-139 | filtering distributes over concatenation |
| FormatHandler.FilterFormatsSingle | utils/format_handler.py:107-139 | a single encoding is kept iff it meets every given criterion |
| FormatHandler.FilterFormatsIsAdmitted | utils/format_handler.py:107-139 | the chain of criterion filters equals one filter by the conjunction of the given criteria |
| FormatHandler.FilterFormats | utils/format_handler.py:107-139 | never longer than the input and only input encodings; FilterFormatsSpec states exactly which |
| FormatHandler.FilterFormatsSpec | utils/format_handler.py:107-139 | the result is a subsequence of the input, holding exactly the encodings that meet every given criterion; with no criteria it is the input |
| FormatHandler.FormatBytes | utils/format_handler.py:142-151 | "?" exactly for non-positive sizes |
| FormatHandler.CodecName | utils/format_handler.py:86-93 | a codec part is at most 10 characters |
| FormatHandler.FormatLabel | utils/format_handler.py:70-104 | the label is the parts (resolution, codec, size, bitrate) joined by " • " |
| FormatHandler.LabelCodecParts | utils/format_handler.py:85-93 | the audio codec appears only without a truthy vcodec; at most one codec part, each at most 10 characters; at most four parts |
| YouTubeSearch.ParseInput | utils/youtube_search.py:87-114 | empty iff blank; otherwise carries the stripped input; url / invalid_url iff http(s) with / without a YouTube domain; video_id iff not http(s) and an 11-character id, with its watch URL |
| YouTubeSearch.SearchQueryIsTheRest | utils/youtube_search.py:106-114 | search_query is exactly the remaining case, so the tags are exclusive |
| YouTubeSearch.MobileDomainSubsumed | utils/youtube_search.py:99-100 | the 'm.youtube.com' test adds nothing to the 'youtube.com' substring test |
| YouTubeSearch.ParseStripped | utils/youtube_search.py:92-114 | classification depends only on the stripped input |
| YouTubeSearch.ThumbnailFor | utils/youtube_search.py:50-59 | the entry's own thumbnail when non-empty; never empty when the id is truthy; ThumbnailIsFirstCandidate gives the full order |
| YouTubeSearch.FirstNonEmpty | utils/youtube_search.py:50-59 | the first non-empty candidate, or "" when all are empty |
| YouTubeSearch.ThumbnailIsFirstCandidate | utils/youtube_search.py:50-59 | the thumbnail is the first non-empty of: entry thumbnail, last list element's url, the hqdefault URL of the id |
| YouTubeSearch.EntryToHit | utils/youtube_search.py:61-70 | title defaults to 'Unknown Title', url falls back to the watch URL of the id, thumbnail by the fallback order |
| YouTubeSearch.EntriesToHits | utils/youtube_search.py:46-73 | one result per entry at most, each a video hit |
| YouTubeSearch.EntriesToHitsPresent | utils/youtube_search.py:46-73 | falsy entries (null or an empty dictionary) are skipped and every other entry yields one result, in order |
| YouTubeSearch.Search | utils/youtube_search.py:18-77 | [] for blank input; a direct URL or video-id result is the only result; SearchShortCircuits and SearchQueryFetches give each case |
| YouTubeSearch.SearchShortCircuits | utils/youtube_search.py:18-34 | empty, http(s) and video-id inputs are answered without consulting the search backend |
| YouTubeSearch.SearchQueryFetches | utils/youtube_search.py:36-77 | other inputs return the hits of the backend's answer, or [] when it fails |
| YouTubeSearch.Titles | utils/youtube_search.py:84-85 | the truthy titles of the results, in result order |
| YouTubeSearch.VideoSuggestions | utils/youtube_search.py:79-85 | no more suggestions than search results, each a non-empty title |
| YouTubeSearch.NoSuggestionsWithoutSearch | utils/youtube_search.py:79-85 | blank, URL and id inputs give no suggestions |
| YouTubeSearch.QuickLookup | utils/youtube_search.py:116-135 | the value for a url, the watch URL for an id, none for empty or invalid input |
| YouTubeSearch.QuickLookupSearches | utils/youtube_search.py:129-135 | a search query returns the first hit's url of a one-result search, or none |
| Validators.IsValidUrl | utils/validators.py:11-34 | the "empty" error iff the input is blank; the "only YouTube" error iff http(s) without a YouTube domain; valid iff no message |
| Validators.NamesIffMentions | utils/validators.py:22-27 | the validator's domain list accepts the same inputs as the classifier's |
| Validators.ValidUnlessEmptyOrInvalid | utils/validators.py:16-34 | invalid iff the classifier tags the input empty or invalid_url |
| Validators.MatchAt | utils/validators.py:40-48 | a match at a position is a prefix alternative followed by an 11-character id |
| Validators.SearchFrom | utils/validators.py:45-48 | the leftmost match from a position, or none when there is none |
| Validators.RegexSearch | utils/validators.py:45-48 | a found group is an 11-character id occurring in the URL |
| Validators.ExtractVideoId | utils/validators.py:37-50 | "" for a non-YouTube platform; otherwise "" or an 11-character id over [0-9A-Za-z_-] occurring in the URL |
| Validators.EmbedIsSlash | utils/validators.py:40-44 | every embed/ match is also a match of the first pattern |
| Validators.WatchIsV | utils/validators.py:40-44 | every watch?v= match is also a match of the first pattern |
| Validators.FirstPatternDecides | utils/validators.py:40-50 | the later patterns never match when the first does not, so the first decides |
| Validators.IsPlaylistUrl | utils/validators.py:53-56 | true iff the lowered URL contains "playlist", "list=", "/sets/" or "/album/" |
| Validators.IsChannelUrl | utils/validators.py:59-62 | true iff the lowered URL contains "/channel/", "/user/", "/c/" or "/@" |
| Validators.IndicatorsIgnoreCase | utils/validators.py:53-62 | playlist and channel detection ignore case |
| Validators.PlaylistWordSuffices | utils/validators.py:55-56 | any URL containing "playlist" is a playlist URL |
| Validators.ReplaceInvalid | utils/validators.py:68-76 | each of < > : " / \ \| ? * becomes '_', other characters stay |
| Validators.Cleaned | utils/validators.py:76-79 | the replaced, stripped name has no invalid character and no leading or trailing '.' or ' ' |
| Validators.RSplitDot | utils/validators.py:83 | the split at the last '.' |
| Validators.SanitizeFilename | utils/validators.py:71-87 | the result contains no invalid character |
| Validators.SanitizeShort | utils/validators.py:79-82 | a name within the limit is returned cleaned and otherwise unchanged |
| Validators.SanitizeLongNoDot | utils/validators.py:82-85 | an over-long name without '.' is cut to its first max_length - 1 characters |
| Validators.Truncate | utils/validators.py:82-85 | never longer than the cleaned name; without a '.' a prefix of it |
| Validators.TruncateKeepsExtension | utils/validators.py:82-85 | truncation keeps "." + extension at the end; the length stays within the limit when the extension is shorter than it |
| Validators.SanitizeLongWithDot | utils/validators.py:82-85 | an over-long name with '.' keeps its extension and fits the limit when the extension is shorter than it |
| FileUtils.Basename | utils/file_utils.py:32 | the last path component: a suffix without '/' |
| FileUtils.SplitExt | utils/file_utils.py:33 | stem + extension is the path; the extension is "" or a '.' followed by neither '.' nor '/' |
| FileUtils.CandidateShape | utils/file_utils.py:31-38 | the counter-th candidate is dir / "name (counter)ext" |
| FileUtils.CandidateInjective | utils/file_utils.py:31-41 | different counters give different candidates |
| FileUtils.GetUniqueFilename | utils/file_utils.py:23-41 | never an existing path; the argument when it is free; otherwise the candidate with the least counter >= 1 that is free |
| FileUtils.FirstCandidateExample | utils/file_utils.py:26 | video.mp4 gives "video (1).mp4", then "video (2).mp4" |
| FileUtils.SizeText | utils/file_utils.py:64-73 | "Unknown" exactly for non-positive sizes |
| FileUtils.FormatSize | utils/file_utils.py:64-73 | the loop's result is the size text |
| FileUtils.SizeUnitChoice | utils/file_utils.py:68-73 | the unit is the k-th of B, KB, MB, GB, TB, PB when 1024^k <= size < 1024^(k+1) |
| FileUtils.SizeUnitPetabytes | utils/file_utils.py:68-73 | from 1024^5 bytes on, the unit is PB |
| FileUtils.SizeTextKilobytes | utils/file_utils.py:64-73 | 1536 bytes read "1.5 KB" |
| FileUtils.SizeTextGigabyte | utils/file_utils.py:64-73 | 2^30 bytes read "1.0 GB" |
| FileUtils.FormatDuration | utils/file_utils.py:76-87 | "Unknown" exactly for non-positive seconds |
| FileUtils.DurationRoundTrip | utils/file_utils.py:81-87 | the text reads back as the same number of seconds, with two-digit minutes and seconds, and hours exactly from 3600 on |
| FileUtils.DurationExampleShort | utils/file_utils.py:76-87 | 125 seconds read "2:05" |
| FileUtils.DurationExampleLong | utils/file_utils.py:76-87 | 3725 seconds read "1:02:05" |
| FileUtils.DefaultConfig | utils/file_utils.py:124-142 | exactly the fifteen default keys |
| FileUtils.DefaultConfigValues | utils/file_utils.py:138-141 | subtitles off, ['en'] subtitle languages, 3 retries and a 30 s timeout |
| FileUtils.LoadConfig | utils/file_utils.py:102-111 | the stored object as it is when readable, else the defaults |
| FileUtils.LoadConfigDoesNotMerge | utils/file_utils.py:104-111 | a stored object lacking a default key still lacks it after loading |
| Downloader.FirstLargest | utils/downloader.py:87-94 | the first element of greatest area: what a stable descending sort puts first |
| Downloader.ValidThumbs | utils/downloader.py:82 | exactly the present entries with a truthy url |
| Downloader.ValidThumbsInOrder | utils/downloader.py:82 | the valid entries, unwrapped, in input order: the order-preserving filter of the input |
| Downloader.BestThumbnail | utils/downloader.py:76-94 | "" iff no entry is valid; otherwise the url of a valid entry |
| Downloader.BestIndex | utils/downloader.py:87-94 | an index of a valid entry of the input |
| Downloader.BestIndexIsEarliestLargest | utils/downloader.py:87-94 | that index holds the greatest width·height among valid entries, and every earlier valid entry is strictly smaller |
| Downloader.FirstLargestIsBestIndex | utils/downloader.py:82-94 | the head of the stable sort of the valid entries is the input entry at that index |
| Downloader.BestThumbnailIsEarliestLargest | utils/downloader.py:76-94 | the answer is the url of the earliest valid input entry of greatest width·height, as a stable descending sort puts first |
| Downloader.BestThumbnailIsLargest | utils/downloader.py:87-94 | the chosen entry has the greatest width·height among the valid ones (missing numbers read as 0) |
| Downloader.EstimateSize | utils/downloader.py:96-98 | filesize when truthy, else filesize_approx, else 0 |
| Downloader.MaxHeight | utils/downloader.py:128-131 | at least every height, and 0 or one of them |
| Downloader.MaxResolution | utils/downloader.py:126-133 | "{max}p" of the greatest height, or "Unknown" |
| Downloader.MaxEstimate | utils/downloader.py:139-142 | at least every size estimate, and 0 or one of them |
| Downloader.EstimateTotalSize | utils/downloader.py:135-144 | the largest estimate rendered by the size formatter |
| Downloader.ResolutionText | utils/downloader.py:133 | "Unknown" iff the height is not positive; otherwise the height followed by "p" |
| Downloader.DurationText | utils/downloader.py:100-111 | "Unknown" exactly for 0 |
| Downloader.DurationRenderingsAgree | utils/downloader.py:100-111 | agrees with the file helper's rendering on positive numbers and differs on negatives |
| Downloader.Process | utils/downloader.py:46-65 | the record's title, page URL, duration text, resolution and size fields from the metadata with the source's defaults |
| Downloader.VideoInfoExtractor.constructor | utils/downloader.py:13-14 | the cache starts empty |
| Downloader.VideoInfoExtractor.ExtractInfo | utils/downloader.py:29-74 | a cache hit is returned unchanged; a failure returns none and leaves the cache alone; a success is stored under its url |
| Downloader.CachedTwice | utils/downloader.py:35-36 | a second lookup of a fetched url returns the first answer |
| Downloader.FinalFilename | utils/downloader.py:220-227 | stem + audio format when extracting audio, else stem + a truthy merge format, else the prepared name |
| Downloader.FinalFilenameKeepsStem | utils/downloader.py:223-227 | the reported name starts with the stem and, for audio, ends with the audio extension |
| Downloader.VideoDownloader.constructor | utils/downloader.py:150-154 | not cancelled |
| Downloader.VideoDownloader.Cancel | utils/downloader.py:267-269 | sets the cancellation flag |
| Downloader.VideoDownloader.ProgressHook | utils/downloader.py:242-265 | raises iff cancelled; without a callback silent; reports 'downloading' with the downloaded bytes, total_bytes or the estimate, speed and eta defaulting to 0, and a percent over a divisor of at least 1; 'finished' with the filename, nothing else |
| Downloader.VideoDownloader.BuildOptions | utils/downloader.py:164-213 | the format with "+merge_with" when given; merge format 'mp4' unless overridden; post-processors absent when none is requested, else the requested list with codec 'mp3' and quality '192' by default; subtitles iff requested, with ['en'] and 'srt' by default |
| Downloader.PostProcessorListShape | utils/downloader.py:191-207 | the post-processor list is in the order audio, thumbnail, metadata; holds each step iff it was requested; its only audio step is the requested one; is empty iff nothing was requested |
| Downloader.VideoDownloader.Download | utils/downloader.py:156-240 | an exception gives the failure with its message; a download reports the final file name, the title (default 'Unknown') and size |
| Downloader.CancelThenHook | utils/downloader.py:244-245 | after cancel, the next progress report is the cancellation |
| Downloader.EntryUrl | utils/downloader.py:297-303 | a truthy url; else a truthy webpage_url; else the watch URL of a truthy id; else nothing; never ""; falsy entries yield nothing |
| Downloader.CollectedUrls | utils/downloader.py:295-304 | at most one non-empty url per entry |
| Downloader.CollectedUrlsInOrder | utils/downloader.py:295-304 | the collected urls are, in entry order, the url of each entry that yields one |
| Downloader.ExtractPlaylistUrls | utils/downloader.py:276-317 | the collected urls (in entry order, by CollectedUrlsInOrder) and video_count equal to their number, the title defaulting to 'Unknown Playlist'; ([], nothing) on failure |
| Settings.DownloadDefaultsKeys | config/settings.py:62-85 | the download options of the defaults are exactly eleven keys |
| Settings.GeneralDefaultsKeys | config/settings.py:62-85 | the remaining defaults are exactly eleven keys |
| Settings.DownloadDefaultsValues | config/settings.py:63-76 | 3 concurrent downloads, ['en'] subtitles, ~/Downloads/Converso |
| Settings.GeneralDefaultsValues | config/settings.py:78-79 | 3 retries and a 30 s timeout |
| Settings.DefaultSettings | config/settings.py:60-85 | the download location is ~/Downloads/Converso below the given home; DefaultSettingsKeys and DefaultSettingsValues give the rest |
| Settings.DefaultSettingsKeys | config/settings.py:62-85 | the defaults hold exactly the twenty-two keys |
| Settings.DefaultSettingsValues | config/settings.py:62-85 | 3 concurrent downloads, 3 retries, 30 s timeout, ['en'] subtitles, ~/Downloads/Converso |
| Settings.Loaded | config/settings.py:21-34 | the defaults without a readable file; otherwise every default key and every file key, file values winning |
| Settings.SaveLoadRoundTrip | config/settings.py:24-30 | a saved map holding every default key loads back unchanged |
| Settings.ConfigPath | config/settings.py:12-16 | the given path, else ~/.converso/settings.json |
| Settings.DefaultConfigPath | config/settings.py:16 | joining ".converso" and then "settings.json" below home gives home's join prefix followed by ".converso/settings.json" |
| Settings.SettingsManager.constructor | config/settings.py:11-19 | settings loaded from the file, every default key present |
| Settings.SettingsManager.LoadSettings | config/settings.py:21-34 | the load result for the current file, with every default key |
| Settings.SettingsManager.SaveSettings | config/settings.py:36-44 | writes the map when writable and reports whether it did |
| Settings.SettingsManager.Get | config/settings.py:46-48 | the stored value, or the default when the key is absent |
| Settings.SettingsManager.Set | config/settings.py:50-52 | only that key changes; every default key stays present |
| Settings.SettingsManager.ResetToDefaults | config/settings.py:54-57 | the settings become the defaults, which are then saved |
| Settings.SetThenGet | config/settings.py:46-52 | after set(k, v), get(k) is v and other keys read as before |
| Settings.SaveThenReload | config/settings.py:19-40 | saving then loading gives back the same settings |
| UpdateCheck.RepoParts | utils/update_checker.py:31-33 | the last two '/'-separated segments after removing trailing slashes |
| UpdateCheck.RStripSlashes | utils/update_checker.py:31 | removing trailing slashes undoes appending them |
| UpdateCheck.RepoPartsOfPage | utils/update_checker.py:29-33 | a .../owner/repo URL, with or without trailing slashes, gives (owner, repo) |
| UpdateCheck.UpdateChecker.constructor | utils/update_checker.py:18-35 | owner and repo from the URL, and the releases/latest API URL |
| UpdateCheck.LatestVersion | utils/update_checker.py:52 | the tag without its leading 'v's |
| UpdateCheck.CheckForUpdates | utils/update_checker.py:37-77 | (true, info) iff the answer arrived, the stripped tag is non-empty and newer than the running version; info carries the stripped and the raw tag, the release name, notes, page url, publication date and assets, each defaulting as the source's `.get` does; (false, none) otherwise |
| UpdateCheck.SameVersionIsNoUpdate | utils/update_checker.py:52-70 | under an irreflexive order, a tag naming the running version is no update |
| UpdateCheck.PlatformPatterns | utils/update_checker.py:93-99 | windows, win, .exe and .zip for Windows; linux and ubuntu for Linux; macos, mac and darwin for macOS, whatever the case of the platform name; none for an unknown platform |
| UpdateCheck.FirstMatch | utils/update_checker.py:102-105 | the first asset whose lowered name contains a pattern, or the end |
| UpdateCheck.GetDownloadUrl | utils/update_checker.py:79-108 | the first matching asset's download url, else the release page |
| UpdateCheck.UnknownPlatformFallsBack | utils/update_checker.py:99-108 | an unknown platform always falls back to the release page |
| UpdateCheck.PlatformCaseInsensitive | utils/update_checker.py:99 | the platform name is matched case-insensitively |
| UpdateCheck.ShownNotes | utils/update_checker.py:131-135 | notes up to 500 characters unchanged; longer ones cut to 500 followed by "..." |
| UpdateCheck.MessageText | utils/update_checker.py:110-142 | without a name, notes or link the message is just the header and the two version lines; it is never shorter than the header and the current-version line; the bold release name follows the header exactly when the name is non-empty; the message ends with the download link exactly when the url is non-empty |
| UpdateCheck.MessageMarkers | utils/update_checker.py:123-140 | in the message layout, the name block follows the header iff the name is non-empty, and the link ends the message iff the url is non-empty |
| UpdateCheck.UpdateChecker.FormatUpdateMessage | utils/update_checker.py:110-142 | the header, name block, version lines, notes block and link block in order |
| UpdateCheck.MessageStartsWithHeader | utils/update_checker.py:123 | the message starts with the "New Version Available" header |
| UpdateCheck.MessageMentionsVersions | utils/update_checker.py:128-129 | the message contains the current-version and latest-version lines |
| UpdateCheck.MessageEndsWithLink | utils/update_checker.py:138-140 | a non-empty download url ends the message as a link |
| UpdateCheck.ShortNotesShown | utils/update_checker.py:130-136 | non-empty notes of at most 500 characters appear in full under "What's New" |
| UpdateCheck.LongNotesAreCut | utils/update_checker.py:131-136 | notes over 500 characters appear as their first 500 followed by "..." |

## Left out

- yt-dlp, `requests` and `packaging`: every call is a parameter holding its answer, and an exception is an answer of its own (`None`, `Failed`, `Raised`).
- A dictionary value that is present but null (`None`): an `Option` field cannot tell it from an absent key, so it takes the default. In several places the source would raise or pass `None` on instead.
- Downloader.Process: `upload_date` is kept raw, because `_format_date` (strptime/strftime calendar formatting) is not modelled. The pass-through keys `subtitles`, `automatic_captions`, `categories` and `tags` are not part of the record.
- Downloader.VideoDownloader.BuildOptions: the fixed keys (`quiet`, `no_warnings`, `progress_hooks`, the FFmpeg `postprocessor_args`) are constants and are not part of the record.
- Downloader.VideoDownloader.ProgressHook: the percent is an exact real, not a float.
- FormatHandler.QualityKey: fps, tbr, vbr, abr and asr are integers, while yt-dlp gives floats, so the order between two fractional bitrates that share an integer part is not modelled.
- FormatHandler.FormatLabel, FormatHandler.ResolutionPart, FormatHandler.BitratePart: with integer fields, the label does not show the truncation of `int(abr)` for a fractional bitrate, the float rendering of a fractional fps (59.94), or that an abr strictly between 0 and 1 is truthy yet prints as "0kbps".
- Downloader.HookEvent: the reported speed is an integer, not a float.
- FileUtils.FormatDuration: seconds is an integer. The source takes a float and truncates it with `int()`, so 0.5 gives "0:00" and 125.5 gives "2:05"; fractional seconds are not modelled.
- Settings.ConfigPath: a given path is returned as it is. The source wraps it in `Path(...)`, which collapses "a//b" and drops a trailing "/"; that normalisation is not modelled.
- UpdateCheck.UpdateChecker.constructor: a repository URL with fewer than two '/'-separated segments (after trailing slashes are stripped) is excluded by its precondition. The source raises IndexError there; the only caller passes a full GitHub URL.
- Downloader.VideoDownloader.BuildOptions: the output template joins with `JoinPath` and does not model the normalisation of `str(Path(output_path) / ...)`, which for example drops a leading "./" and collapses "a//b".
- FormatHandler.CodecName: upper-casing maps ASCII letters only. Python's `str.upper` also maps other letters, some to more than one character ('ß' becomes "SS"); that is not modelled. The same ASCII-only mapping applies to every lower-casing in the model.
- `VideoInfoExtractor.validate_url` only delegates to `is_valid_url`, which Validators.IsValidUrl models.
- Floating point: the `.1f`/`.0f` renderings of sizes are computed exactly with integer round-half-even. This matches the float for sizes below 2^53 bytes and is not modelled above that.
- Directory creation (`mkdir`), `os.path.exists`/`getsize`, `ensure_directory`, `get_file_size`, `delete_file`, `save_config` and `is_valid_path`: filesystem effects. Existing paths are a set parameter, and the settings file is a field.
- JSON encoding and decoding of the settings file: the file holds the decoded object, so the round trip is stated at the level of maps.
- `ConfigManager` is modelled as functions: its only field is the path, which the defaults and the load decision do not depend on.
- Logging and `print` calls.
- `app.py`, `ui_components.py`, `launcher.py`, `test_production_build.py`, `version.py` and `utils/__init__.py`: user interface, process launch, packaging checks and constants. These are not part of this model.
