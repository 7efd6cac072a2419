/** The release check (utils/update_checker.py): splitting the repository URL,
    deciding from the latest release whether an update exists, choosing a
    platform download and composing the notification. The HTTP request is a
    parameter holding the decoded answer, and the version order is a
    parameter standing for `packaging.version`. */
module UpdateCheck {
  import opened Common
  import opened Text

  // ------------------------------------------------------------- repository

  /** The owner and repository names: the last two '/'-separated segments
      of the URL once trailing slashes are removed. */
  function RepoParts(repoUrl: string): (r: (string, string))
    requires |Split(RStrip(repoUrl, {'/'}), '/')| >= 2
    ensures '/' !in r.0 && '/' !in r.1
  {
    var parts := Split(RStrip(repoUrl, {'/'}), '/');
    (parts[|parts| - 2], parts[|parts| - 1])
  }

  /** The releases endpoint of `owner/repo`. */
  function ApiUrl(owner: string, repo: string): string
  {
    "https://api.github.com/repos/" + owner + "/" + repo + "/releases/latest"
  }

  /** Removing trailing slashes undoes appending them to a text that does not end in one. */
  lemma RStripSlashes(x: string, trail: string)
    requires x != [] && x[|x| - 1] != '/'
    requires forall i :: 0 <= i < |trail| ==> trail[i] == '/'
    ensures RStrip(x + trail, {'/'}) == x
  {
    var s := x + trail;
    var r := RStrip(s, {'/'});
    assert s[|x| - 1] == x[|x| - 1];
  }

  /** The URL of a repository page, with or without trailing slashes, yields
      its owner and repository names. */
  lemma {:induction false} RepoPartsOfPage(prefix: string, owner: string, repo: string, trail: string)
    requires '/' !in owner && '/' !in repo && repo != []
    requires forall i :: 0 <= i < |trail| ==> trail[i] == '/'
    ensures var url := prefix + "/" + owner + "/" + repo + trail;
      |Split(RStrip(url, {'/'}), '/')| >= 2 && RepoParts(url) == (owner, repo)
  {
    var base := prefix + "/" + owner + "/" + repo;
    assert base[|base| - 1] == repo[|repo| - 1];
    assert prefix + "/" + owner + "/" + repo + trail == base + trail;
    RStripSlashes(base, trail);
    assert base == (prefix + "/" + owner) + ['/'] + repo;
    SplitAppend(prefix + "/" + owner, '/', repo);
    assert prefix + "/" + owner == prefix + ['/'] + owner;
    SplitAppend(prefix, '/', owner);
  }

  // --------------------------------------------------------------- releases

  /** One asset of a release. */
  datatype Asset = Asset(name: Option<string>, browserDownloadUrl: Option<string>)

  /** The decoded answer of the latest-release endpoint, with the keys read. */
  datatype Release = Release(
    tagName: Option<string>,
    name: Option<string>,
    body: Option<string>,
    htmlUrl: Option<string>,
    publishedAt: Option<string>,
    assets: Option<seq<Asset>>)

  /** The release dictionary handed to the caller. */
  datatype ReleaseInfo = ReleaseInfo(
    version: Option<string>,
    tagName: Option<string>,
    releaseName: Option<string>,
    releaseNotes: Option<string>,
    downloadUrl: Option<string>,
    publishedAt: Option<string>,
    assets: Option<seq<Asset>>)

  /** The version named by a tag: the tag without its leading 'v's. */
  function LatestVersion(tag: string): (v: string)
    ensures v == [] || v[0] != 'v'
    ensures EndsWith(tag, v)
    ensures forall i :: 0 <= i < |tag| - |v| ==> tag[i] == 'v'
  {
    LStrip(tag, {'v'})
  }

  /** `check_for_updates`. `response` is the decoded answer, `None` when the
      request or decoding failed; `newer(a, b)` is the version comparison
      `a > b`, `None` when either is not a valid version. */
  function CheckForUpdates(currentVersion: string, response: Option<Release>,
                           newer: (string, string) -> Option<bool>): (r: (bool, Option<ReleaseInfo>))
    ensures r.0 <==> r.1.Some?
    ensures r.0 <==> response.Some?
                     && var latest := LatestVersion(response.value.tagName.GetOr(""));
                        latest != [] && newer(latest, currentVersion) == Some(true)
    ensures r.0 ==> r.1.value.version == Some(LatestVersion(response.value.tagName.GetOr("")))
                    && r.1.value.tagName == Some(response.value.tagName.GetOr(""))
                    && r.1.value.downloadUrl == Some(response.value.htmlUrl.GetOr(""))
                    && r.1.value.releaseName == Some(response.value.name.GetOr(""))
                    && r.1.value.releaseNotes == Some(response.value.body.GetOr(""))
                    && r.1.value.publishedAt == Some(response.value.publishedAt.GetOr(""))
                    && r.1.value.assets == Some(response.value.assets.GetOr([]))
  {
    match response
    case None => (false, None)
    case Some(release) =>
      var latest := LatestVersion(release.tagName.GetOr(""));
      if latest == [] then (false, None)
      else if newer(latest, currentVersion) == Some(true) then
        (true, Some(ReleaseInfo(
          Some(latest), Some(release.tagName.GetOr("")), Some(release.name.GetOr("")),
          Some(release.body.GetOr("")), Some(release.htmlUrl.GetOr("")),
          Some(release.publishedAt.GetOr("")), Some(release.assets.GetOr([])))))
      else (false, None)
  }

  /** Under an irreflexive order, a release tagged with the running version,
      with or without a 'v' prefix, is never an update. */
  lemma SameVersionIsNoUpdate(currentVersion: string, release: Release, newer: (string, string) -> Option<bool>)
    requires forall v :: newer(v, v) != Some(true)
    requires currentVersion == [] || currentVersion[0] != 'v'
    requires release.tagName == Some(currentVersion) || release.tagName == Some("v" + currentVersion)
    ensures CheckForUpdates(currentVersion, Some(release), newer) == (false, None)
  {
    var tag := release.tagName.value;
    var latest := LatestVersion(tag);
    assert latest == currentVersion by {
      if tag == "v" + currentVersion {
        assert tag[1..] == currentVersion;
        assert LStrip(tag, {'v'}) == LStrip(tag[1..], {'v'});
      }
      LStripNone(currentVersion, {'v'});
    }
  }

  /** A text that does not start with a stripped character is left alone. */
  lemma LStripNone(s: string, chars: set<char>)
    requires s == [] || s[0] !in chars
    ensures LStrip(s, chars) == s
  {
  }

  // ---------------------------------------------------------------- download

  /** The name fragments identifying each platform's asset. */
  function PlatformPatterns(platform: string): (p: seq<string>)
    ensures Lower(platform) == "windows" ==> p == ["windows", "win", ".exe", ".zip"]
    ensures Lower(platform) == "linux" ==> p == ["linux", "ubuntu"]
    ensures Lower(platform) == "macos" ==> p == ["macos", "mac", "darwin"]
    ensures Lower(platform) !in {"windows", "linux", "macos"} ==> p == []
  {
    var key := Lower(platform);
    if key == "windows" then ["windows", "win", ".exe", ".zip"]
    else if key == "linux" then ["linux", "ubuntu"]
    else if key == "macos" then ["macos", "mac", "darwin"]
    else []
  }

  /** The asset's lower-cased name contains one of the patterns. */
  predicate AssetMatches(a: Asset, patterns: seq<string>)
  {
    exists i :: 0 <= i < |patterns| && Contains(Lower(a.name.GetOr("")), patterns[i])
  }

  /** The index of the first matching asset, or |assets| when none matches. */
  function FirstMatch(assets: seq<Asset>, patterns: seq<string>): (i: nat)
    ensures i <= |assets|
    ensures i < |assets| ==> AssetMatches(assets[i], patterns)
    ensures forall j :: 0 <= j < i ==> !AssetMatches(assets[j], patterns)
    decreases |assets|
  {
    if assets == [] then 0
    else if AssetMatches(assets[0], patterns) then 0
    else
      var k := FirstMatch(assets[1..], patterns);
      assert forall j :: 1 <= j < |assets| ==> assets[j] == assets[1..][j - 1];
      k + 1
  }

  /** `get_download_url`: the first matching asset's download url, else the
      release page. */
  function GetDownloadUrl(info: ReleaseInfo, platform: string): (r: Option<string>)
    ensures var assets := info.assets.GetOr([]);
      var i := FirstMatch(assets, PlatformPatterns(platform));
      (i < |assets| ==> r == assets[i].browserDownloadUrl) && (i == |assets| ==> r == info.downloadUrl)
  {
    var assets := info.assets.GetOr([]);
    var i := FirstMatch(assets, PlatformPatterns(platform));
    if i < |assets| then assets[i].browserDownloadUrl else info.downloadUrl
  }

  /** An unknown platform always falls back to the release page. */
  lemma UnknownPlatformFallsBack(info: ReleaseInfo, platform: string)
    requires Lower(platform) !in {"windows", "linux", "macos"}
    ensures GetDownloadUrl(info, platform) == info.downloadUrl
  {
  }

  /** The platform name is matched without regard to case. */
  lemma PlatformCaseInsensitive(info: ReleaseInfo, platform: string)
    ensures GetDownloadUrl(info, platform) == GetDownloadUrl(info, Lower(platform))
  {
    LowerIdempotent(platform);
  }

  // ---------------------------------------------------------------- message

  /** Release notes as shown: at most 500 characters, then "..." when cut. */
  function ShownNotes(notes: string): (r: string)
    ensures |notes| <= 500 ==> r == notes
    ensures |notes| > 500 ==> |r| == 503 && r[..500] == notes[..500] && r[500..] == "..."
  {
    if |notes| > 500 then notes[..500] + "..." else notes
  }

  function Header(version: string): string
  {
    "\U{1F389} **New Version Available: v" + version + "**\n\n"
  }

  function CurrentLine(currentVersion: string): string
  {
    "Current version: v" + currentVersion + "\n"
  }

  function LatestLine(version: string): string
  {
    "Latest version: v" + version + "\n\n"
  }

  function NameBlock(name: string): string
  {
    if name != "" then "**" + name + "**\n\n" else ""
  }

  function NotesBlock(notes: string): string
  {
    if notes != "" then "**What's New:**\n" + ShownNotes(notes) + "\n\n" else ""
  }

  function LinkBlock(url: string): string
  {
    if url != "" then "[Download Latest Version](" + url + ")" else ""
  }

  /** Once `x` is at least as long as `p`, text appended to `x` cannot change
      whether `p` is a prefix. */
  lemma StartsWithExtend(x: string, p: string, b: string)
    requires |p| <= |x|
    ensures StartsWith(x + b, p) <==> StartsWith(x, p)
  {
    assert (x + b)[..|p|] == x[..|p|];
  }

  /** The name block follows the header exactly when the name is non-empty:
      otherwise the "Current version" line does. */
  lemma NameMarker(h: string, name: string, cv: string)
    ensures var x := h + NameBlock(name) + CurrentLine(cv);
      |h + ("**" + name + "**\n\n")| <= |x|
      && (StartsWith(x, h + ("**" + name + "**\n\n")) <==> name != "")
  {
    var p := h + ("**" + name + "**\n\n");
    var c := CurrentLine(cv);
    if name != "" {
      ConcatEnds(p, c);
    } else {
      assert (h + c)[|h|] == c[0] == 'C';
      assert p[|h|] == '*';
    }
  }

  /** A message body ending in a newline ends with the download link exactly
      when there is a url. */
  lemma LinkMarker(body: string, url: string)
    requires body != [] && body[|body| - 1] == '\n'
    ensures EndsWith(body + LinkBlock(url), "[Download Latest Version](" + url + ")") <==> url != ""
  {
    var link := "[Download Latest Version](" + url + ")";
    if url != "" {
      ConcatEnds(body, link);
    } else {
      assert link[|link| - 1] == ')';
    }
  }

  /** Everything before the link block ends in a newline. */
  lemma BodyEndsInNewline(front: string, version: string, notes: string)
    ensures var body := front + LatestLine(version) + NotesBlock(notes);
      body != [] && body[|body| - 1] == '\n'
  {
    var l := LatestLine(version);
    var nb := NotesBlock(notes);
    if notes != "" {
      assert (front + l + nb)[|front + l + nb| - 1] == nb[|nb| - 1] == '\n';
    } else {
      assert front + l + nb == front + l;
      assert (front + l)[|front + l| - 1] == l[|l| - 1] == '\n';
    }
  }

  /** In a message laid out as header, name block, two version lines, notes
      block and link block, the name block follows the header exactly when the
      name is non-empty, and the link closes it exactly when the url is. */
  lemma MessageMarkers(h: string, name: string, cv: string, version: string, notes: string, url: string)
    ensures var r := h + NameBlock(name) + CurrentLine(cv) + LatestLine(version) + NotesBlock(notes) + LinkBlock(url);
      (StartsWith(r, h + ("**" + name + "**\n\n")) <==> name != "")
      && (EndsWith(r, "[Download Latest Version](" + url + ")") <==> url != "")
  {
    var p := h + ("**" + name + "**\n\n");
    var x := h + NameBlock(name) + CurrentLine(cv);
    NameMarker(h, name, cv);
    StartsWithExtend(x, p, LatestLine(version));
    StartsWithExtend(x + LatestLine(version), p, NotesBlock(notes));
    StartsWithExtend(x + LatestLine(version) + NotesBlock(notes), p, LinkBlock(url));
    BodyEndsInNewline(x, version, notes);
    LinkMarker(x + LatestLine(version) + NotesBlock(notes), url);
  }

  /** The notification for `info` as seen by a checker running `currentVersion`. */
  function MessageText(currentVersion: string, info: ReleaseInfo): (r: string)
    ensures var version := info.version.GetOr("Unknown");
      info.releaseName.GetOr("") == "" && info.releaseNotes.GetOr("") == "" && info.downloadUrl.GetOr("") == ""
      ==> r == Header(version) + CurrentLine(currentVersion) + LatestLine(version)
    ensures |r| >= |Header(info.version.GetOr("Unknown"))| + |CurrentLine(currentVersion)|
    ensures var name := info.releaseName.GetOr("");
      StartsWith(r, Header(info.version.GetOr("Unknown")) + ("**" + name + "**\n\n")) <==> name != ""
    ensures var url := info.downloadUrl.GetOr("");
      EndsWith(r, "[Download Latest Version](" + url + ")") <==> url != ""
  {
    var version := info.version.GetOr("Unknown");
    MessageMarkers(Header(version), info.releaseName.GetOr(""), currentVersion, version,
      info.releaseNotes.GetOr(""), info.downloadUrl.GetOr(""));
    Header(version) + NameBlock(info.releaseName.GetOr("")) + CurrentLine(currentVersion) + LatestLine(version)
    + NotesBlock(info.releaseNotes.GetOr("")) + LinkBlock(info.downloadUrl.GetOr(""))
  }

  /** `UpdateChecker`: the running version and the repository it checks. */
  class UpdateChecker {
    const currentVersion: string
    const repoUrl: string
    const owner: string
    const repo: string
    const apiUrl: string

    /** `__init__`; the URL must have at least two segments, or the source's
        indexing raises. */
    constructor(currentVersion: string, repoUrl: string)
      requires |Split(RStrip(repoUrl, {'/'}), '/')| >= 2
      ensures this.currentVersion == currentVersion && this.repoUrl == repoUrl
      ensures (owner, repo) == RepoParts(repoUrl)
      ensures apiUrl == ApiUrl(owner, repo)
    {
      this.currentVersion := currentVersion;
      this.repoUrl := repoUrl;
      var parts := Split(RStrip(repoUrl, {'/'}), '/');
      var owner := parts[|parts| - 2];
      var repo := parts[|parts| - 1];
      this.owner := owner;
      this.repo := repo;
      apiUrl := "https://api.github.com/repos/" + owner + "/" + repo + "/releases/latest";
    }

    /** `format_update_message`, built piece by piece. */
    method FormatUpdateMessage(info: ReleaseInfo) returns (message: string)
      ensures message == MessageText(currentVersion, info)
    {
      var version := info.version.GetOr("Unknown");
      var releaseName := info.releaseName.GetOr("");
      message := "\U{1F389} **New Version Available: v" + version + "**\n\n";
      if releaseName != "" {
        message := message + ("**" + releaseName + "**\n\n");
      }
      assert message == Header(version) + NameBlock(releaseName);
      message := message + ("Current version: v" + currentVersion + "\n");
      message := message + ("Latest version: v" + version + "\n\n");
      assert message == Header(version) + NameBlock(releaseName) + CurrentLine(currentVersion) + LatestLine(version);
      var front := message;
      var releaseNotes := info.releaseNotes.GetOr("");
      if releaseNotes != "" {
        if |releaseNotes| > 500 {
          releaseNotes := releaseNotes[..500] + "...";
        }
        assert releaseNotes == ShownNotes(info.releaseNotes.GetOr(""));
        message := message + ("**What's New:**\n" + releaseNotes + "\n\n");
      }
      assert message == front + NotesBlock(info.releaseNotes.GetOr(""));
      var downloadUrl := info.downloadUrl.GetOr("");
      if downloadUrl != "" {
        message := message + ("[Download Latest Version](" + downloadUrl + ")");
      }
      assert message == front + NotesBlock(info.releaseNotes.GetOr("")) + LinkBlock(downloadUrl);
    }
  }

  /** The notification opens with the version header. */
  lemma MessageStartsWithHeader(currentVersion: string, info: ReleaseInfo)
    ensures StartsWith(MessageText(currentVersion, info), Header(info.version.GetOr("Unknown")))
  {
    var h := Header(info.version.GetOr("Unknown"));
    var m := MessageText(currentVersion, info);
    assert m == h + m[|h|..];
    assert m[..|h|] == h;
  }

  /** The notification states the running version and the offered one. */
  lemma MessageMentionsVersions(currentVersion: string, info: ReleaseInfo)
    ensures Contains(MessageText(currentVersion, info), CurrentLine(currentVersion))
    ensures Contains(MessageText(currentVersion, info), LatestLine(info.version.GetOr("Unknown")))
  {
    var version := info.version.GetOr("Unknown");
    var front := Header(version) + NameBlock(info.releaseName.GetOr(""));
    var current := CurrentLine(currentVersion);
    var latest := LatestLine(version);
    var notes := NotesBlock(info.releaseNotes.GetOr(""));
    var link := LinkBlock(info.downloadUrl.GetOr(""));
    ContainsSuffix(front, current);
    ContainsAppend(front + current, current, latest);
    ContainsAppend(front + current + latest, current, notes);
    ContainsAppend(front + current + latest + notes, current, link);
    ContainsSuffix(front + current, latest);
    ContainsAppend(front + current + latest, latest, notes);
    ContainsAppend(front + current + latest + notes, latest, link);
  }

  /** A non-empty download url ends the notification as a link. */
  lemma MessageEndsWithLink(currentVersion: string, info: ReleaseInfo)
    requires info.downloadUrl.GetOr("") != ""
    ensures EndsWith(MessageText(currentVersion, info), "[Download Latest Version](" + info.downloadUrl.value + ")")
  {
    var link := "[Download Latest Version](" + info.downloadUrl.value + ")";
    var m := MessageText(currentVersion, info);
    var version := info.version.GetOr("Unknown");
    var body := Header(version) + NameBlock(info.releaseName.GetOr("")) + CurrentLine(currentVersion)
                + LatestLine(version) + NotesBlock(info.releaseNotes.GetOr(""));
    assert m == body + link;
    assert m[|m| - |link|..] == link;
  }

  /** Non-empty release notes of at most 500 characters are shown in full. */
  lemma ShortNotesShown(currentVersion: string, info: ReleaseInfo)
    requires var notes := info.releaseNotes.GetOr(""); notes != "" && |notes| <= 500
    ensures Contains(MessageText(currentVersion, info), "**What's New:**\n" + info.releaseNotes.GetOr("") + "\n\n")
  {
    var notes := info.releaseNotes.GetOr("");
    var version := info.version.GetOr("Unknown");
    var front := Header(version) + NameBlock(info.releaseName.GetOr("")) + CurrentLine(currentVersion) + LatestLine(version);
    var block := "**What's New:**\n" + notes + "\n\n";
    assert NotesBlock(notes) == block;
    ContainsSuffix(front, block);
    ContainsAppend(front + block, block, LinkBlock(info.downloadUrl.GetOr("")));
  }

  /** Long release notes are shown cut to 500 characters followed by "...". */
  lemma LongNotesAreCut(currentVersion: string, info: ReleaseInfo)
    requires |info.releaseNotes.GetOr("")| > 500
    ensures var notes := info.releaseNotes.GetOr("");
      Contains(MessageText(currentVersion, info), "**What's New:**\n" + notes[..500] + "...\n\n")
  {
    var notes := info.releaseNotes.GetOr("");
    var version := info.version.GetOr("Unknown");
    var front := Header(version) + NameBlock(info.releaseName.GetOr("")) + CurrentLine(currentVersion) + LatestLine(version);
    var block := "**What's New:**\n" + notes[..500] + "...\n\n";
    assert NotesBlock(notes) == block;
    ContainsSuffix(front, block);
    ContainsAppend(front + block, block, LinkBlock(info.downloadUrl.GetOr("")));
  }
}
