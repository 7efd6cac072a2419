/** File helpers (utils/file_utils.py): choosing a free file name against the
    set of paths that exist, duration and size rendering, and the
    configuration defaults of `ConfigManager`. */
module FileUtils {
  import opened Common
  import opened Text

  // ------------------------------------------------------------ POSIX paths

  /** `os.path.basename`: the text after the last '/'. */
  function Basename(p: string): (r: string)
    ensures '/' !in r
    ensures EndsWith(p, r)
  {
    var i := RFind(p, '/') + 1;
    assert forall k :: 0 <= k < |p[i..]| ==> p[i..][k] == p[i + k];
    p[i..]
  }

  /** `os.path.dirname`: the text up to the last '/', with trailing slashes
      removed unless it consists of slashes only. */
  function Dirname(p: string): string
  {
    var head := p[..RFind(p, '/') + 1];
    if head != "" && exists k :: 0 <= k < |head| && head[k] != '/' then RStrip(head, {'/'}) else head
  }

  /** `os.path.splitext`: the extension starts at the last '.' of the last
      component, provided some character of that component before it is not a '.'. */
  function SplitExt(p: string): (r: (string, string))
    ensures r.0 + r.1 == p
    ensures r.1 == "" || (r.1[0] == '.' && '.' !in r.1[1..] && '/' !in r.1)
  {
    var sep := RFind(p, '/');
    var dot := RFind(p, '.');
    if dot > sep && exists k :: sep < k < dot && p[k] != '.' then
      assert p[..dot] + p[dot..] == p;
      assert forall k :: 0 <= k < |p[dot..]| ==> p[dot..][k] == p[dot + k];
      (p[..dot], p[dot..])
    else (p, "")
  }

  /** `os.path.join(a, b)` for two components. */
  function JoinPath(a: string, b: string): string
  {
    if StartsWith(b, "/") then b
    else if a == "" || EndsWith(a, "/") then a + b
    else a + "/" + b
  }

  /** The text `os.path.join` puts in front of a component that does not start with '/'. */
  function JoinPrefix(a: string): string
  {
    if a == "" || EndsWith(a, "/") then a else a + "/"
  }

  // ------------------------------------------------------ get_unique_filename

  /** The file name `get_unique_filename` tries for a counter: "name (counter)ext". */
  function NumberedName(name: string, ext: string, counter: nat): string
  {
    name + " (" + NatToString(counter) + ")" + ext
  }

  /** The `counter`-th path `get_unique_filename` tries, beside the original. */
  function Candidate(filepath: string, counter: nat): string
  {
    var parts := SplitExt(Basename(filepath));
    JoinPath(Dirname(filepath), NumberedName(parts.0, parts.1, counter))
  }

  /** Joining a component that does not start with '/' puts a fixed prefix before it. */
  lemma JoinRelative(a: string, b: string)
    requires b == [] || b[0] != '/'
    ensures JoinPath(a, b) == JoinPrefix(a) + b
  {
  }

  /** A numbered name never starts with '/', so it is joined below the directory. */
  lemma CandidateShape(filepath: string, counter: nat)
    ensures var parts := SplitExt(Basename(filepath));
      Candidate(filepath, counter) == JoinPrefix(Dirname(filepath)) + NumberedName(parts.0, parts.1, counter)
  {
    var base := Basename(filepath);
    var parts := SplitExt(base);
    var b := NumberedName(parts.0, parts.1, counter);
    if parts.0 == "" {
      assert b[0] == ' ';
    } else {
      assert base == parts.0 + parts.1;
      assert b[0] == parts.0[0] == base[0];
      assert base[0] in base;
    }
    JoinRelative(Dirname(filepath), b);
  }

  lemma NumberedNameInjective(name: string, ext: string, m: nat, n: nat)
    requires NumberedName(name, ext, m) == NumberedName(name, ext, n)
    ensures m == n
  {
    var x := name + " (";
    var dm, dn := NatToString(m), NatToString(n);
    var a, b := x + dm + ")" + ext, x + dn + ")" + ext;
    assert a == NumberedName(name, ext, m) && b == NumberedName(name, ext, n);
    assert |a| == |x| + |dm| + 1 + |ext| && |b| == |x| + |dn| + 1 + |ext|;
    assert (x + dm + ")" + ext)[|x|..|x| + |dm|] == dm;
    assert (x + dn + ")" + ext)[|x|..|x| + |dn|] == dn;
    NatToStringInjective(m, n);
  }

  /** Different counters give different paths, so the loop never tries a path twice. */
  lemma CandidateInjective(filepath: string, m: nat, n: nat)
    requires Candidate(filepath, m) == Candidate(filepath, n)
    ensures m == n
  {
    CandidateShape(filepath, m);
    CandidateShape(filepath, n);
    var parts := SplitExt(Basename(filepath));
    var pre := JoinPrefix(Dirname(filepath));
    var bm, bn := NumberedName(parts.0, parts.1, m), NumberedName(parts.0, parts.1, n);
    assert (pre + bm)[|pre|..] == bm;
    assert (pre + bn)[|pre|..] == bn;
    NumberedNameInjective(parts.0, parts.1, m, n);
  }

  /** `get_unique_filename`, with the file system's paths as `existing`. */
  method GetUniqueFilename(filepath: string, existing: set<string>) returns (r: string)
    ensures r !in existing
    ensures filepath !in existing ==> r == filepath
    ensures filepath in existing ==>
      exists n: nat :: n >= 1 && r == Candidate(filepath, n)
        && forall m: nat :: 1 <= m < n ==> Candidate(filepath, m) in existing
  {
    if filepath !in existing {
      return filepath;
    }
    var directory := Dirname(filepath);
    var filename := Basename(filepath);
    var parts := SplitExt(filename);
    var name, ext := parts.0, parts.1;
    var counter: nat := 1;
    var newFilepath := JoinPath(directory, NumberedName(name, ext, counter));
    ghost var tried: set<string> := {};
    while newFilepath in existing
      invariant counter >= 1
      invariant newFilepath == Candidate(filepath, counter)
      invariant tried <= existing
      invariant forall m: nat :: 1 <= m < counter ==> Candidate(filepath, m) in existing
      invariant forall m: nat :: counter <= m ==> Candidate(filepath, m) !in tried
      decreases |existing - tried|
    {
      forall m: nat | counter + 1 <= m
        ensures Candidate(filepath, m) != newFilepath
      {
        if Candidate(filepath, m) == newFilepath {
          CandidateInjective(filepath, m, counter);
        }
      }
      assert existing - (tried + {newFilepath}) < existing - tried;
      tried := tried + {newFilepath};
      counter := counter + 1;
      newFilepath := JoinPath(directory, NumberedName(name, ext, counter));
    }
    r := newFilepath;
  }

  /** "video.mp4" has no directory part, and its extension is ".mp4". */
  lemma VideoMp4Parts()
    ensures Dirname("video.mp4") == ""
    ensures SplitExt(Basename("video.mp4")) == ("video", ".mp4")
  {
    var p := "video.mp4";
    assert RFind(p, '/') == -1 by {
      assert forall j :: 0 <= j < 9 ==> p[j] != '/';
    }
    assert p[..0] == "";
    assert Dirname(p) == "";
    assert p[0..] == p;
    assert Basename(p) == p;
    assert RFind(p, '.') == 5 by {
      assert p[5] == '.';
      assert forall j :: 5 < j < 9 ==> p[j] != '.';
    }
    assert -1 < 0 < 5 && p[0] != '.';
    assert p[..5] == "video" && p[5..] == ".mp4";
    assert SplitExt(p) == (p[..5], p[5..]);
  }

  /** The example of the doc-comment: the names tried for "video.mp4". */
  lemma FirstCandidateExample()
    ensures Candidate("video.mp4", 1) == "video (1).mp4"
    ensures Candidate("video.mp4", 2) == "video (2).mp4"
  {
    VideoMp4Parts();
    assert NatToString(1) == "1" && NatToString(2) == "2";
    assert NumberedName("video", ".mp4", 1) == "video (1).mp4";
    assert NumberedName("video", ".mp4", 2) == "video (2).mp4";
  }

  // ------------------------------------------------------------ format_size

  const SizeUnits: seq<string> := ["B", "KB", "MB", "GB", "TB", "PB"]

  /** What `format_size` prints: "Unknown" when not positive, else the size
      scaled to its unit with one decimal, a space and the unit. */
  function SizeText(bytesSize: int): (r: string)
    ensures bytesSize <= 0 <==> r == "Unknown"
  {
    if bytesSize <= 0 then "Unknown"
    else
      var k := UnitIndex(bytesSize, 5);
      var r := Fixed1(bytesSize, Pow(1024, k)) + " " + SizeUnits[k];
      assert r[|r| - |SizeUnits[k]|..] == SizeUnits[k];
      r
  }

  /** `format_size`: the loop divides by 1024 until the value is below 1024
      or the units run out. The value after `k` divisions is kept exact as
      `bytesSize / 1024^k`. */
  method FormatSize(bytesSize: int) returns (r: string)
    ensures r == SizeText(bytesSize)
  {
    if bytesSize <= 0 {
      return "Unknown";
    }
    var units := ["B", "KB", "MB", "GB", "TB"];
    var divisor: nat := 1;
    for k := 0 to 5
      invariant divisor == Pow(1024, k)
      invariant forall j :: 1 <= j <= k ==> bytesSize >= Pow(1024, j)
    {
      if bytesSize < 1024 * divisor {
        UnitIndexUnique(bytesSize, 5, k);
        return Fixed1(bytesSize, divisor) + " " + units[k];
      }
      divisor := divisor * 1024;
    }
    UnitIndexUnique(bytesSize, 5, 5);
    return Fixed1(bytesSize, divisor) + " PB";
  }

  /** The unit is the first of B, KB, MB, GB, TB whose next power of 1024 the
      size stays below, and PB beyond. */
  lemma SizeUnitChoice(bytesSize: int, k: nat)
    requires bytesSize > 0 && k < 5
    requires forall j :: 1 <= j <= k ==> bytesSize >= Pow(1024, j)
    requires bytesSize < Pow(1024, k + 1)
    ensures EndsWith(SizeText(bytesSize), " " + SizeUnits[k])
  {
    UnitIndexUnique(bytesSize, 5, k);
    var r := SizeText(bytesSize);
    assert r == Fixed1(bytesSize, Pow(1024, k)) + (" " + SizeUnits[k]);
  }

  /** From 1024^5 bytes on, the loop has run out of units and prints PB. */
  lemma SizeUnitPetabytes(bytesSize: int)
    requires bytesSize >= Pow(1024, 5)
    ensures EndsWith(SizeText(bytesSize), " PB")
  {
    assert Pow(1024, 1) == 1024 && Pow(1024, 2) == 1048576 && Pow(1024, 3) == 1073741824;
    assert Pow(1024, 4) == 1099511627776 && Pow(1024, 5) == 1125899906842624;
    UnitIndexUnique(bytesSize, 5, 5);
    var r := SizeText(bytesSize);
    assert r == Fixed1(bytesSize, Pow(1024, 5)) + (" " + SizeUnits[5]);
  }

  /** 1536 bytes are one and a half kilobytes. */
  lemma SizeTextKilobytes()
    ensures SizeText(1536) == "1.5 KB"
  {
    assert Pow(1024, 1) == 1024 && Pow(1024, 2) == 1048576;
    UnitIndexUnique(1536, 5, 1);
    assert RoundHalfEven(15360, 1024) == 15;
    assert NatToString(1) == "1" && DigitChar(5) == '5';
  }

  /** 2^30 bytes are one gigabyte. */
  lemma SizeTextGigabyte()
    ensures SizeText(1073741824) == "1.0 GB"
  {
    assert Pow(1024, 1) == 1024 && Pow(1024, 2) == 1048576;
    assert Pow(1024, 3) == 1073741824 && Pow(1024, 4) == 1099511627776;
    UnitIndexUnique(1073741824, 5, 3);
    assert RoundHalfEven(10737418240, 1073741824) == 10;
    assert NatToString(1) == "1" && DigitChar(0) == '0';
  }

  // -------------------------------------------------------- format_duration

  /** `format_duration` for whole seconds: "Unknown" when not positive, else
      "H:MM:SS" from one hour on and "M:SS" below. */
  function FormatDuration(seconds: int): (r: string)
    ensures seconds <= 0 <==> r == "Unknown"
  {
    if seconds <= 0 then "Unknown"
    else
      var hours := seconds / 3600;
      var minutes := (seconds % 3600) / 60;
      var secs := seconds % 60;
      if hours > 0 then
        var r := NatToString(hours) + ":" + Pad2(minutes) + ":" + Pad2(secs);
        assert r[0] != 'U';
        r
      else
        var r := NatToString(minutes) + ":" + Pad2(secs);
        assert r[0] != 'U';
        r
  }

  /** Reads "H:MM:SS" or "M:SS" back as a number of seconds. */
  function ParseClock(s: string): Option<int>
  {
    var parts := Split(s, ':');
    if |parts| == 3 && forall i :: 0 <= i < 3 ==> AllDigits(parts[i]) then
      Some(3600 * DecimalValue(parts[0]) + 60 * DecimalValue(parts[1]) + DecimalValue(parts[2]))
    else if |parts| == 2 && forall i :: 0 <= i < 2 ==> AllDigits(parts[i]) then
      Some(60 * DecimalValue(parts[0]) + DecimalValue(parts[1]))
    else None
  }

  lemma DigitsHaveNoColon(s: string)
    requires AllDigits(s)
    ensures ':' !in s
  {
  }

  lemma SplitClock2(a: string, b: string)
    requires AllDigits(a) && AllDigits(b)
    ensures Split(a + ":" + b, ':') == [a, b]
  {
    DigitsHaveNoColon(a);
    DigitsHaveNoColon(b);
    SplitNoSep(a, ':');
    SplitAppend(a, ':', b);
  }

  lemma SplitClock3(a: string, b: string, c: string)
    requires AllDigits(a) && AllDigits(b) && AllDigits(c)
    ensures Split(a + ":" + b + ":" + c, ':') == [a, b, c]
  {
    SplitClock2(a, b);
    DigitsHaveNoColon(c);
    SplitAppend(a + ":" + b, ':', c);
  }

  /** Whole seconds split into hours, minutes below 60 and seconds below 60. */
  lemma ClockArithmetic(seconds: nat)
    ensures seconds == 3600 * (seconds / 3600) + 60 * ((seconds % 3600) / 60) + seconds % 60
    ensures (seconds % 3600) / 60 < 60 && seconds % 60 < 60
    ensures seconds >= 3600 <==> seconds / 3600 > 0
  {
    var h, m := seconds / 3600, seconds % 3600;
    assert seconds == 3600 * h + m && 0 <= m < 3600;
    var mm, ss := m / 60, m % 60;
    assert m == 60 * mm + ss && 0 <= ss < 60;
    var q, r := seconds / 60, seconds % 60;
    assert seconds == 60 * q + r && 0 <= r < 60;
    assert 60 * (q - 60 * h - mm) == ss - r;
  }

  /** The long form "H:MM:SS" reads back as its number of seconds. */
  lemma ParseLongClock(hours: nat, minutes: nat, secs: nat)
    requires hours > 0 && minutes < 60 && secs < 60
    ensures var text := NatToString(hours) + ":" + Pad2(minutes) + ":" + Pad2(secs);
      Split(text, ':') == [NatToString(hours), Pad2(minutes), Pad2(secs)]
      && ParseClock(text) == Some(3600 * hours + 60 * minutes + secs)
  {
    DecimalRoundTrip(hours);
    SplitClock3(NatToString(hours), Pad2(minutes), Pad2(secs));
  }

  /** The short form "M:SS" reads back as its number of seconds. */
  lemma ParseShortClock(minutes: nat, secs: nat)
    requires minutes < 60 && secs < 60
    ensures var text := NatToString(minutes) + ":" + Pad2(secs);
      Split(text, ':') == [NatToString(minutes), Pad2(secs)]
      && ParseClock(text) == Some(60 * minutes + secs)
  {
    DecimalRoundTrip(minutes);
    SplitClock2(NatToString(minutes), Pad2(secs));
  }

  /** The rendering loses nothing: reading it back gives the number of seconds,
      with minutes and seconds fields below 60. */
  lemma DurationRoundTrip(seconds: int)
    requires seconds > 0
    ensures ParseClock(FormatDuration(seconds)) == Some(seconds)
    ensures var parts := Split(FormatDuration(seconds), ':');
      (seconds >= 3600 ==> |parts| == 3 && |parts[1]| == 2 && |parts[2]| == 2)
      && (seconds < 3600 ==> |parts| == 2 && |parts[1]| == 2)
  {
    var hours := seconds / 3600;
    var minutes := (seconds % 3600) / 60;
    var secs := seconds % 60;
    ClockArithmetic(seconds);
    if hours > 0 {
      ParseLongClock(hours, minutes, secs);
      assert FormatDuration(seconds) == NatToString(hours) + ":" + Pad2(minutes) + ":" + Pad2(secs);
    } else {
      ParseShortClock(minutes, secs);
      assert FormatDuration(seconds) == NatToString(minutes) + ":" + Pad2(secs);
    }
  }

  /** Two minutes and five seconds. */
  lemma DurationExampleShort()
    ensures FormatDuration(125) == "2:05"
  {
    assert 125 / 3600 == 0 && (125 % 3600) / 60 == 2 && 125 % 60 == 5;
    assert FormatDuration(125) == NatToString(2) + ":" + Pad2(5);
    assert NatToString(2) == "2" && Pad2(5) == "05";
  }

  /** One hour, two minutes and five seconds. */
  lemma DurationExampleLong()
    ensures FormatDuration(3725) == "1:02:05"
  {
    assert 3725 / 3600 == 1 && (3725 % 3600) / 60 == 2 && 3725 % 60 == 5;
    assert FormatDuration(3725) == NatToString(1) + ":" + Pad2(2) + ":" + Pad2(5);
    assert NatToString(1) == "1" && Pad2(2) == "02" && Pad2(5) == "05";
  }

  // --------------------------------------------------------- ConfigManager

  /** The fifteen keys of the default configuration. */
  const ConfigKeys: set<string> := {"download_location", "quality_preference", "output_format",
    "concurrent_downloads", "embed_thumbnail", "embed_metadata", "theme",
    "notifications_enabled", "keep_history_days", "filename_template", "audio_bitrate",
    "download_subtitles", "subtitle_languages", "retry_attempts", "timeout"}

  /** `get_default_config`, with the user's home directory as a parameter. */
  function DefaultConfig(home: string): (c: map<string, Json>)
    ensures c.Keys == ConfigKeys
  {
    var c := map[
      "download_location" := JStr(JoinPath(JoinPath(home, "Downloads"), "Converso")),
      "quality_preference" := JStr("best"),
      "output_format" := JStr("mp4"),
      "concurrent_downloads" := JInt(3),
      "embed_thumbnail" := JBool(true),
      "embed_metadata" := JBool(true),
      "theme" := JStr("dark"),
      "notifications_enabled" := JBool(true),
      "keep_history_days" := JInt(30),
      "filename_template" := JStr("{title}_{resolution}"),
      "audio_bitrate" := JStr("192k"),
      "download_subtitles" := JBool(false),
      "subtitle_languages" := JArr([JStr("en")]),
      "retry_attempts" := JInt(3),
      "timeout" := JInt(30)];
    c
  }

  /** Some of the fixed default values. */
  lemma DefaultConfigValues(home: string)
    ensures DefaultConfig(home)["download_subtitles"] == JBool(false)
    ensures DefaultConfig(home)["subtitle_languages"] == JArr([JStr("en")])
    ensures DefaultConfig(home)["retry_attempts"] == JInt(3)
    ensures DefaultConfig(home)["timeout"] == JInt(30)
  {
  }

  /** `load_config`: the stored object when the file exists and parses
      (`None` otherwise), else the defaults. */
  function LoadConfig(home: string, stored: Option<map<string, Json>>): (c: map<string, Json>)
    ensures stored.None? ==> c == DefaultConfig(home)
    ensures stored.Some? ==> c == stored.value
  {
    match stored
    case Some(m) => m
    case None => DefaultConfig(home)
  }

  /** Unlike the settings store, nothing is merged: a stored object that lacks a
      default key still lacks it once loaded. */
  lemma LoadConfigDoesNotMerge(home: string)
    ensures "theme" !in LoadConfig(home, Some(map["timeout" := JInt(5)]))
    ensures "theme" in LoadConfig(home, None)
  {
  }
}
