/** The persistent settings store (config/settings.py). The JSON file is the
    field `file`: `None` when it is missing or cannot be read as an object,
    else the object it holds. The user's home directory is a constant of the
    store. The source builds the defaults as one dictionary literal; here it is
    the union of two halves of eleven keys each, only so that the keys and
    values of each half are proved on their own, which keeps each proof small. */
module Settings {
  import opened Common
  import FileUtils
  import Text

  /** The keys of the download options among the default settings. */
  const DownloadKeys: set<string> := {"download_location", "quality_preference", "output_format",
    "concurrent_downloads", "embed_thumbnail", "embed_metadata", "embed_chapters",
    "audio_bitrate", "download_subtitles", "subtitle_languages", "subtitle_format"}

  /** The keys of the remaining default settings. */
  const GeneralKeys: set<string> := {"theme", "notifications_enabled", "keep_history_days",
    "filename_template", "retry_attempts", "timeout", "speed_limit", "auto_convert",
    "extract_audio_copy", "normalize_audio", "add_to_library"}

  /** The twenty-two keys of the default settings. */
  const SettingsKeys: set<string> := DownloadKeys + GeneralKeys

  /** The download half of `get_default_settings`. */
  function DownloadDefaults(home: string): map<string, Json>
  {
    map[
      "download_location" := JStr(FileUtils.JoinPath(FileUtils.JoinPath(home, "Downloads"), "Converso")),
      "quality_preference" := JStr("best"),
      "output_format" := JStr("mp4"),
      "concurrent_downloads" := JInt(3),
      "embed_thumbnail" := JBool(true),
      "embed_metadata" := JBool(true),
      "embed_chapters" := JBool(false),
      "audio_bitrate" := JStr("192k"),
      "download_subtitles" := JBool(false),
      "subtitle_languages" := JArr([JStr("en")]),
      "subtitle_format" := JStr("srt")]
  }

  /** The general half of `get_default_settings`. */
  function GeneralDefaults(): map<string, Json>
  {
    map[
      "theme" := JStr("dark"),
      "notifications_enabled" := JBool(true),
      "keep_history_days" := JInt(30),
      "filename_template" := JStr("{title}_{resolution}"),
      "retry_attempts" := JInt(3),
      "timeout" := JInt(30),
      "speed_limit" := JStr("unlimited"),
      "auto_convert" := JBool(false),
      "extract_audio_copy" := JBool(false),
      "normalize_audio" := JBool(false),
      "add_to_library" := JBool(false)]
  }

  /** `get_default_settings`, with the user's home directory as a parameter. */
  function DefaultSettings(home: string): (d: map<string, Json>)
    ensures "download_location" in d
      && d["download_location"] == JStr(FileUtils.JoinPath(FileUtils.JoinPath(home, "Downloads"), "Converso"))
  {
    var general := GeneralDefaults();
    assert "download_location" !in general;
    DownloadDefaults(home) + general
  }

  /** The defaults hold exactly the twenty-two keys. */
  lemma DefaultSettingsKeys(home: string)
    ensures DefaultSettings(home).Keys == SettingsKeys
  {
    DownloadDefaultsKeys(home);
    GeneralDefaultsKeys();
  }

  /** The download half holds exactly its eleven keys. */
  lemma DownloadDefaultsKeys(home: string)
    ensures DownloadDefaults(home).Keys == DownloadKeys
  {
  }

  /** The general half holds exactly its eleven keys. */
  lemma GeneralDefaultsKeys()
    ensures GeneralDefaults().Keys == GeneralKeys
  {
  }

  /** Some of the fixed default values. */
  lemma DefaultSettingsValues(home: string)
    ensures DefaultSettings(home)["concurrent_downloads"] == JInt(3)
    ensures DefaultSettings(home)["retry_attempts"] == JInt(3)
    ensures DefaultSettings(home)["timeout"] == JInt(30)
    ensures DefaultSettings(home)["subtitle_languages"] == JArr([JStr("en")])
    ensures DefaultSettings(home)["download_location"]
      == JStr(FileUtils.JoinPath(FileUtils.JoinPath(home, "Downloads"), "Converso"))
  {
    DownloadDefaultsValues(home);
    GeneralDefaultsValues();
    GeneralDefaultsKeys();
    assert "concurrent_downloads" !in GeneralKeys;
    assert "subtitle_languages" !in GeneralKeys;
    assert "download_location" !in GeneralKeys;
  }

  /** The fixed values of the download half. */
  lemma DownloadDefaultsValues(home: string)
    ensures DownloadDefaults(home)["concurrent_downloads"] == JInt(3)
    ensures DownloadDefaults(home)["subtitle_languages"] == JArr([JStr("en")])
    ensures DownloadDefaults(home)["download_location"]
      == JStr(FileUtils.JoinPath(FileUtils.JoinPath(home, "Downloads"), "Converso"))
  {
  }

  /** The fixed values of the general half. */
  lemma GeneralDefaultsValues()
    ensures "retry_attempts" in GeneralDefaults() && GeneralDefaults()["retry_attempts"] == JInt(3)
    ensures "timeout" in GeneralDefaults() && GeneralDefaults()["timeout"] == JInt(30)
  {
  }

  /** `load_settings`: the defaults updated by the file's object, or the
      defaults alone when there is no readable file. */
  function Loaded(home: string, file: Option<map<string, Json>>): (m: map<string, Json>)
    ensures file.None? ==> m == DefaultSettings(home)
    ensures file.Some? ==> m.Keys == DefaultSettings(home).Keys + file.value.Keys
    ensures file.Some? ==> forall k :: k in file.value ==> m[k] == file.value[k]
    ensures forall k :: k in DefaultSettings(home) && (file.None? || k !in file.value) ==> m[k] == DefaultSettings(home)[k]
  {
    match file
    case None => DefaultSettings(home)
    case Some(stored) => DefaultSettings(home) + stored
  }

  /** A file written from a map holding every default key loads back as that map. */
  lemma SaveLoadRoundTrip(home: string, s: map<string, Json>)
    requires DefaultSettings(home).Keys <= s.Keys
    ensures Loaded(home, Some(s)) == s
  {
    MergeAbsorbed(DefaultSettings(home), s);
  }

  /** Updating a map by one that holds all its keys leaves only the latter. */
  lemma MergeAbsorbed<K, V>(d: map<K, V>, s: map<K, V>)
    requires d.Keys <= s.Keys
    ensures d + s == s
  {
  }

  /** `config_path`: the given path when non-empty, else `~/.converso/settings.json`. */
  function ConfigPath(home: string, configPath: Option<string>): (p: string)
    ensures Truthy(configPath) ==> p == configPath.value
    ensures !Truthy(configPath) ==> p == FileUtils.JoinPrefix(home) + ".converso/settings.json"
  {
    if configPath.GetOr("") != "" then configPath.value
    else
      DefaultConfigPath(home);
      FileUtils.JoinPath(FileUtils.JoinPath(home, ".converso"), "settings.json")
  }

  /** The default location is the file "settings.json" in the directory ".converso" below home. */
  lemma DefaultConfigPath(home: string)
    ensures FileUtils.JoinPath(FileUtils.JoinPath(home, ".converso"), "settings.json")
      == FileUtils.JoinPrefix(home) + ".converso/settings.json"
  {
    var dir := FileUtils.JoinPath(home, ".converso");
    FileUtils.JoinRelative(home, ".converso");
    assert dir == FileUtils.JoinPrefix(home) + ".converso";
    assert dir[|dir| - 1] == 'o';
    assert !Text.EndsWith(dir, "/");
    assert FileUtils.JoinPath(dir, "settings.json") == dir + "/" + "settings.json";
    var prefix, tail := FileUtils.JoinPrefix(home), ".converso" + "/" + "settings.json";
    assert tail == ".converso/settings.json";
    assert dir + "/" + "settings.json" == prefix + tail;
  }

  /** `SettingsManager`: the settings map and the file it persists to. */
  class SettingsManager {
    const home: string
    const configPath: string
    var settings: map<string, Json>
    var file: Option<map<string, Json>>

    /** Every default key is present: established by loading and kept by
        every operation. */
    ghost predicate Valid()
      reads this
    {
      DefaultSettings(home).Keys <= settings.Keys
    }

    constructor(home: string, configPath: Option<string>, file: Option<map<string, Json>>)
      ensures this.home == home && this.configPath == ConfigPath(home, configPath)
      ensures this.file == file
      ensures settings == Loaded(home, file)
      ensures Valid()
    {
      this.home := home;
      this.configPath := ConfigPath(home, configPath);
      this.file := file;
      settings := Loaded(home, file);
    }

    /** `load_settings`, reading the current file. */
    method LoadSettings() returns (m: map<string, Json>)
      ensures m == Loaded(home, file)
      ensures DefaultSettings(home).Keys <= m.Keys
    {
      m := DefaultSettings(home);
      if file.Some? {
        m := m + file.value;
      }
    }

    /** `save_settings`: writes the map when the file is writable and reports it. */
    method SaveSettings(writable: bool) returns (ok: bool)
      modifies this
      ensures ok == writable
      ensures settings == old(settings)
      ensures file == if writable then Some(settings) else old(file)
    {
      if writable {
        file := Some(settings);
      }
      ok := writable;
    }

    /** `get`. */
    function Get(key: string, default: Json): (r: Json)
      reads this
      ensures key in settings ==> r == settings[key]
      ensures key !in settings ==> r == default
    {
      if key in settings then settings[key] else default
    }

    /** `set`: only the named key changes. */
    method Set(key: string, value: Json)
      modifies this
      ensures settings == old(settings)[key := value]
      ensures file == old(file)
      ensures old(Valid()) ==> Valid()
    {
      settings := settings[key := value];
    }

    /** `reset_to_defaults`: the defaults, then saved. */
    method ResetToDefaults(writable: bool)
      modifies this
      ensures settings == DefaultSettings(home)
      ensures file == if writable then Some(DefaultSettings(home)) else old(file)
      ensures Valid()
    {
      settings := DefaultSettings(home);
      var _ := SaveSettings(writable);
    }
  }

  /** After `set(k, v)`, `get(k)` is v and every other key reads as before. */
  method SetThenGet(store: SettingsManager, key: string, value: Json, other: string, default: Json)
    returns (r: Json, rest: Json)
    modifies store
    requires other != key
    ensures r == value
    ensures rest == old(store.Get(other, default))
  {
    store.Set(key, value);
    r := store.Get(key, default);
    rest := store.Get(other, default);
  }

  /** Saving a valid store and loading again gives back the same settings. */
  method SaveThenReload(store: SettingsManager) returns (reloaded: map<string, Json>)
    modifies store
    requires store.Valid()
    ensures reloaded == old(store.settings)
  {
    var _ := store.SaveSettings(true);
    reloaded := store.LoadSettings();
    SaveLoadRoundTrip(store.home, store.settings);
  }
}
