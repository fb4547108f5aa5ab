/**
 * The configuration manager: global settings, the table of firewall configurations
 * (a dictionary keyed by firewall name, iterated in insertion order), loading from a
 * YAML document or from environment variables, and validation.
 *
 * The environment is a map from variable name to value; the YAML file is the already
 * parsed document (`ConfigFile`).
 */
module Config {
  import opened Wrappers
  import opened Text

  datatype FirewallConfig = FirewallConfig(
    name: string,
    host: string,
    username: string,
    password: string,
    verifySsl: bool,
    enabled: bool,
    pollInterval: int,
    dpAggregation: string)

  /** A YAML scalar, or the value a setting holds: a string, a boolean or an integer. */
  datatype Scalar = SStr(s: string) | SBool(b: bool) | SInt(i: int)

  /**
   * `GlobalConfig`. The dataclass does not check types, so each attribute holds whatever
   * was last assigned to it: the defaults and the environment give the declared type, a
   * YAML global may give another.
   */
  datatype GlobalConfig = GlobalConfig(
    outputDir: Scalar,
    outputType: Scalar,
    visualization: Scalar,
    webDashboard: Scalar,
    webPort: Scalar,
    saveRawXml: Scalar,
    xmlRetentionHours: Scalar,
    databasePath: Scalar,
    logLevel: Scalar)

  /** The dataclass defaults of the global settings. */
  const DefaultGlobal := GlobalConfig(SStr("./output"), SStr("CSV"), SBool(true), SBool(true), SInt(8080),
    SBool(false), SInt(24), SStr("./data/metrics.db"), SStr("INFO"))

  /** Every attribute holds a value of its declared type. */
  predicate Typed(g: GlobalConfig) {
    g.outputDir.SStr? && g.outputType.SStr? && g.visualization.SBool? && g.webDashboard.SBool?
    && g.webPort.SInt? && g.saveRawXml.SBool? && g.xmlRetentionHours.SInt? && g.databasePath.SStr?
    && g.logLevel.SStr?
  }

  /** A firewall configuration with the dataclass defaults for everything but the credentials. */
  function NewFirewall(name: string, host: string, username: string, password: string): (c: FirewallConfig)
    ensures c.name == name && c.host == host && c.username == username && c.password == password
    ensures c.verifySsl && c.enabled && c.pollInterval == 60 && c.dpAggregation == "mean"
  {
    FirewallConfig(name, host, username, password, true, true, 60, "mean")
  }

  // ---------------------------------------------------------------------------
  // Environment variables
  // ---------------------------------------------------------------------------

  type Env = map<string, string>

  /** The strings that read as true. */
  const TrueWords: set<string> := {"1", "true", "yes", "y"}

  /**
   * `_env_bool` (and the identical `env_bool` of the live monitor): an unset variable
   * gives the default, a set one is true exactly when its stripped, lower-cased value
   * is one of `TrueWords`.
   */
  function EnvBool(env: Env, key: string, default: bool): (b: bool)
    ensures key !in env ==> b == default
  {
    if key !in env then default else Lower(Strip(env[key])) in TrueWords
  }

  /** For a set variable the default plays no part, and case and surrounding spaces do not matter. */
  lemma EnvBoolIgnoresDefault(env: Env, key: string)
    requires key in env
    ensures EnvBool(env, key, true) == EnvBool(env, key, false)
  {
  }

  /** A value with no surrounding spaces and no capitals is compared as it stands. */
  lemma EnvBoolPlain(env: Env, key: string)
    requires key in env && |env[key]| > 0
    requires !IsSpace(env[key][0]) && !IsSpace(env[key][|env[key]| - 1])
    requires forall i :: 0 <= i < |env[key]| ==> !('A' <= env[key][i] <= 'Z')
    ensures EnvBool(env, key, false) <==> env[key] in TrueWords
  {
    StripUnchanged(env[key]);
    LowerUnchanged(env[key]);
  }

  /** Case and surrounding spaces do not matter: " Yes " reads as true. */
  lemma EnvBoolSpacedYes()
    ensures EnvBool(map["V" := " Yes "], "V", false)
  {
    StripPadded("Yes");
    assert " " + "Yes" + " " == " Yes ";
    var low := Lower("Yes");
    assert low[0] == 'y' && low[1] == 'e' && low[2] == 's';
    assert low == "yes";
  }

  /** An empty value is false even when the default is true. */
  lemma EnvBoolEmpty()
    ensures !EnvBool(map["V" := ""], "V", true)
  {
  }

  /** `os.getenv(key, default)`. */
  function EnvGet(env: Env, key: string, default: string): (v: string)
    ensures key in env ==> v == env[key]
    ensures key !in env ==> v == default
  {
    if key in env then env[key] else default
  }

  /**
   * `int(os.getenv(key, str(default)))`: the default itself when unset, None when the
   * set value is not an integer literal (Python raises ValueError).
   */
  function EnvInt(env: Env, key: string, default: int): (r: Option<int>)
    ensures key !in env ==> r == Some(default)
    ensures key in env ==> r == ParseInt(env[key])
  {
    if key in env then ParseInt(env[key]) else Some(default)
  }

  /** `os.getenv(key, current)` for a text setting: the variable's text when set, else the setting as it is. */
  function EnvText(env: Env, key: string, current: Scalar): (v: Scalar)
    ensures key in env ==> v == SStr(env[key])
    ensures key !in env ==> v == current
  {
    if key in env then SStr(env[key]) else current
  }

  /** `_env_bool(key, current)` for a flag setting: the setting as it is when the variable is unset. */
  function EnvFlag(env: Env, key: string, current: Scalar): (v: Scalar)
    ensures key in env ==> v == SBool(EnvBool(env, key, false))
    ensures key !in env ==> v == current
  {
    if key in env then SBool(EnvBool(env, key, false)) else current
  }

  /**
   * `int(str(v))`: an integer is itself, a string is read as an integer literal, and a
   * boolean fails, since `str(True)` is "True".
   */
  function IntOfScalar(v: Scalar): Option<int> {
    match v
    case SInt(i) => Some(i)
    case SStr(t) => ParseInt(t)
    case SBool(_) => None
  }

  /**
   * `int(os.getenv(key, str(current)))` for an integer setting: the variable's `int()`
   * when set, else the `int()` of the setting's own text; None where Python raises.
   */
  function EnvIntSetting(env: Env, key: string, current: Scalar): (r: Option<int>)
    ensures key in env ==> r == ParseInt(env[key])
    ensures key !in env && current.SInt? ==> r == Some(current.i)
    ensures key !in env && current.SBool? ==> r == None
  {
    if key in env then ParseInt(env[key]) else IntOfScalar(current)
  }

  /** For a setting that holds an integer, the conversion is `EnvInt` with that integer as default. */
  lemma EnvIntSettingOfInt(env: Env, key: string, i: int)
    ensures EnvIntSetting(env, key, SInt(i)) == EnvInt(env, key, i)
  {
  }

  /** A variable is truthy when it is set to a non-empty string. */
  predicate EnvTruthy(env: Env, key: string) {
    key in env && env[key] != ""
  }

  /** The legacy single-firewall variables are all present and non-empty. */
  predicate HasLegacyCredentials(env: Env) {
    EnvTruthy(env, "PAN_HOST") && EnvTruthy(env, "PAN_USERNAME") && EnvTruthy(env, "PAN_PASSWORD")
  }

  const LegacyName := "legacy_firewall"

  // ---------------------------------------------------------------------------
  // The firewall table: a dictionary in insertion order
  // ---------------------------------------------------------------------------

  /** Every element of `s` other than `x`, in order. */
  function Without(s: seq<string>, x: string): (r: seq<string>)
    ensures |r| <= |s|
  {
    if s == [] then []
    else if s[|s| - 1] == x then Without(s[..|s| - 1], x)
    else Without(s[..|s| - 1], x) + [s[|s| - 1]]
  }

  lemma {:induction false} WithoutMembers(s: seq<string>, x: string)
    ensures forall y :: y in Without(s, x) <==> y in s && y != x
  {
    if s != [] {
      WithoutMembers(s[..|s| - 1], x);
      assert s == s[..|s| - 1] + [s[|s| - 1]];
    }
  }

  predicate Distinct(s: seq<string>) {
    forall i, j :: 0 <= i < j < |s| ==> s[i] != s[j]
  }

  lemma {:induction false} WithoutDistinct(s: seq<string>, x: string)
    requires Distinct(s)
    ensures Distinct(Without(s, x))
  {
    if s != [] {
      var init := s[..|s| - 1];
      assert Distinct(init);
      WithoutDistinct(init, x);
      WithoutMembers(init, x);
      assert s[|s| - 1] !in init;
    }
  }

  datatype Table = Table(entries: map<string, FirewallConfig>, order: seq<string>) {
    /** The order lists every key exactly once, and each entry is stored under its own name. */
    ghost predicate Valid() {
      Distinct(order) && (forall n :: n in entries <==> n in order)
      && (forall n :: n in entries ==> entries[n].name == n)
    }

    /** `self.firewalls[n] = c`: a new key goes last, an existing key keeps its place. */
    function Put(c: FirewallConfig): (t: Table)
      ensures t.entries == entries[c.name := c]
      ensures c.name in entries ==> t.order == order
      ensures c.name !in entries ==> t.order == order + [c.name]
    {
      Table(entries[c.name := c], if c.name in entries then order else order + [c.name])
    }

    /** `del self.firewalls[n]`. */
    function Delete(n: string): (t: Table)
      ensures t.entries == entries - {n}
      ensures t.order == Without(order, n)
    {
      Table(entries - {n}, Without(order, n))
    }
  }

  const EmptyTable := Table(map[], [])

  lemma PutValid(t: Table, c: FirewallConfig)
    ensures t.Valid() ==> t.Put(c).Valid()
  {
  }

  lemma DeleteValid(t: Table, n: string)
    requires t.Valid()
    ensures t.Delete(n).Valid()
  {
    WithoutMembers(t.order, n);
    WithoutDistinct(t.order, n);
  }

  // ---------------------------------------------------------------------------
  // YAML
  // ---------------------------------------------------------------------------

  /** The attribute names of `GlobalConfig`. */
  const GlobalKeys: set<string> := {
    "output_dir", "output_type", "visualization", "web_dashboard", "web_port",
    "save_raw_xml", "xml_retention_hours", "database_path", "log_level" }

  /** `getattr(global_config, key)`; None for a name that is not an attribute. */
  function GetGlobal(g: GlobalConfig, key: string): (r: Option<Scalar>)
    ensures r.Some? <==> key in GlobalKeys
  {
    match key
    case "output_dir" => Some(g.outputDir)
    case "output_type" => Some(g.outputType)
    case "visualization" => Some(g.visualization)
    case "web_dashboard" => Some(g.webDashboard)
    case "web_port" => Some(g.webPort)
    case "save_raw_xml" => Some(g.saveRawXml)
    case "xml_retention_hours" => Some(g.xmlRetentionHours)
    case "database_path" => Some(g.databasePath)
    case "log_level" => Some(g.logLevel)
    case _ => None
  }

  /** `if hasattr(g, key): setattr(g, key, v)`: the value is stored as it is, whatever its type. */
  function SetGlobal(g: GlobalConfig, key: string, v: Scalar): (r: GlobalConfig)
    ensures key !in GlobalKeys ==> r == g
    ensures key in GlobalKeys ==> GetGlobal(r, key) == Some(v)
  {
    match key
    case "output_dir" => g.(outputDir := v)
    case "output_type" => g.(outputType := v)
    case "visualization" => g.(visualization := v)
    case "web_dashboard" => g.(webDashboard := v)
    case "web_port" => g.(webPort := v)
    case "save_raw_xml" => g.(saveRawXml := v)
    case "xml_retention_hours" => g.(xmlRetentionHours := v)
    case "database_path" => g.(databasePath := v)
    case "log_level" => g.(logLevel := v)
    case _ => g
  }

  /**
   * Setting a known attribute makes it read back as the value and leaves every other
   * attribute as it was; an unknown key changes nothing.
   */
  lemma SetGlobalGet(g: GlobalConfig, key: string, v: Scalar, other: string)
    ensures key !in GlobalKeys ==> SetGlobal(g, key, v) == g
    ensures key in GlobalKeys ==> GetGlobal(SetGlobal(g, key, v), key) == Some(v)
    ensures other != key ==> GetGlobal(SetGlobal(g, key, v), other) == GetGlobal(g, other)
  {
    if key !in GlobalKeys {
      assert SetGlobal(g, key, v) == g;
    } else if other != key {
      SetGlobalOther(g, key, v, other);
    }
  }

  /** Setting a known attribute leaves every other attribute as it was. */
  lemma SetGlobalOther(g: GlobalConfig, key: string, v: Scalar, other: string)
    requires key in GlobalKeys && other != key
    ensures GetGlobal(SetGlobal(g, key, v), other) == GetGlobal(g, other)
  {
    if other !in GlobalKeys {
      assert GetGlobal(g, other) == None;
    // One case per attribute set keeps each proof obligation small.
    } else if key == "output_dir" {
    } else if key == "output_type" {
    } else if key == "visualization" {
    } else if key == "web_dashboard" {
    } else if key == "web_port" {
    } else if key == "save_raw_xml" {
    } else if key == "xml_retention_hours" {
    } else if key == "database_path" {
    }
  }

  /** The global settings after applying `items` in order. */
  function SetGlobals(g: GlobalConfig, items: seq<(string, Scalar)>): (r: GlobalConfig)
    ensures items != [] && items[|items| - 1].0 in GlobalKeys
      ==> GetGlobal(r, items[|items| - 1].0) == Some(items[|items| - 1].1)
  {
    if items == [] then g
    else
      var last := items[|items| - 1];
      SetGlobal(SetGlobals(g, items[..|items| - 1]), last.0, last.1)
  }

  /** A section whose keys are all unknown leaves the settings untouched. */
  lemma {:induction false} SetGlobalsIgnoresUnknown(g: GlobalConfig, items: seq<(string, Scalar)>)
    requires forall i :: 0 <= i < |items| ==> items[i].0 !in GlobalKeys
    ensures SetGlobals(g, items) == g
  {
    if items != [] {
      SetGlobalsIgnoresUnknown(g, items[..|items| - 1]);
    }
  }

  /** An attribute the section does not mention keeps its value. */
  lemma {:induction false} SetGlobalsUntouched(g: GlobalConfig, items: seq<(string, Scalar)>, key: string)
    requires forall i :: 0 <= i < |items| ==> items[i].0 != key
    ensures GetGlobal(SetGlobals(g, items), key) == GetGlobal(g, key)
  {
    if items != [] {
      var last := items[|items| - 1];
      SetGlobalsUntouched(g, items[..|items| - 1], key);
      SetGlobalGet(SetGlobals(g, items[..|items| - 1]), last.0, last.1, key);
    }
  }

  /** A known key takes the value of its last occurrence in the section. */
  lemma {:induction false} SetGlobalsLastWins(g: GlobalConfig, items: seq<(string, Scalar)>, i: int)
    requires 0 <= i < |items| && items[i].0 in GlobalKeys
    requires forall j :: i < j < |items| ==> items[j].0 != items[i].0
    ensures GetGlobal(SetGlobals(g, items), items[i].0) == Some(items[i].1)
  {
    var n := |items|;
    if i < n - 1 {
      var front, last := items[..n - 1], items[n - 1];
      assert front[i] == items[i];
      SetGlobalsLastWins(g, front, i);
      SetGlobalGet(SetGlobals(g, front), last.0, last.1, items[i].0);
    }
  }

  /**
   * One entry of the `firewalls` section: the keyword arguments given to
   * `FirewallConfig(name=name, **fw_data)`. `unexpectedKey` records a key that is not a
   * parameter of the dataclass (or is `name` itself).
   */
  datatype FirewallEntry = FirewallEntry(
    host: Option<string>,
    username: Option<string>,
    password: Option<string>,
    verifySsl: Option<bool>,
    enabled: Option<bool>,
    pollInterval: Option<int>,
    dpAggregation: Option<string>,
    unexpectedKey: bool)

  /** The dataclass call: None where Python raises TypeError (a missing required field, an unexpected key). */
  function BuildFirewall(name: string, e: FirewallEntry): (r: Option<FirewallConfig>)
    ensures r.Some? <==> !e.unexpectedKey && e.host.Some? && e.username.Some? && e.password.Some?
    ensures r.Some? ==> (r.value.name == name && r.value.host == e.host.value
      && r.value.username == e.username.value && r.value.password == e.password.value)
    ensures r.Some? ==> (r.value.verifySsl == e.verifySsl.GetOr(true) && r.value.enabled == e.enabled.GetOr(true)
      && r.value.pollInterval == e.pollInterval.GetOr(60) && r.value.dpAggregation == e.dpAggregation.GetOr("mean"))
  {
    if e.unexpectedKey || e.host.None? || e.username.None? || e.password.None? then None
    else Some(FirewallConfig(name, e.host.value, e.username.value, e.password.value,
      e.verifySsl.GetOr(true), e.enabled.GetOr(true), e.pollInterval.GetOr(60), e.dpAggregation.GetOr("mean")))
  }

  /**
   * The firewall loop of `_load_from_yaml` on a table: entries are stored one by one until
   * the dataclass rejects one; the flag says whether every entry was accepted.
   */
  function LoadEntries(t: Table, entries: seq<(string, FirewallEntry)>): (r: (Table, bool))
    ensures forall n :: n in r.0.entries && n !in t.entries ==> NamedIn(entries, n)
    decreases |entries|
  {
    if entries == [] then (t, true)
    else
      var c := BuildFirewall(entries[0].0, entries[0].1);
      if c.None? then (t, false)
      else
        var r := LoadEntries(t.Put(c.value), entries[1..]);
        NamedInTail(entries, r.0.entries.Keys - t.entries.Keys);
        r
  }

  /** Some entry of the section carries the name `n`. */
  predicate NamedIn(entries: seq<(string, FirewallEntry)>, n: string) {
    exists i :: 0 <= i < |entries| && entries[i].0 == n
  }

  /** A name carried by the first entry or by a later one is carried by the section. */
  lemma NamedInTail(entries: seq<(string, FirewallEntry)>, names: set<string>)
    requires entries != []
    ensures forall n :: n in names && (n == entries[0].0 || NamedIn(entries[1..], n)) ==> NamedIn(entries, n)
  {
    forall n | n in names && (n == entries[0].0 || NamedIn(entries[1..], n))
      ensures NamedIn(entries, n)
    {
      if n != entries[0].0 {
        var i :| 0 <= i < |entries[1..]| && entries[1..][i].0 == n;
        assert entries[i + 1].0 == n;
      }
    }
  }

  /** Loading keeps the table well formed. */
  lemma {:induction false} LoadEntriesValid(t: Table, entries: seq<(string, FirewallEntry)>)
    requires t.Valid()
    ensures LoadEntries(t, entries).0.Valid()
    decreases |entries|
  {
    if entries != [] {
      var c := BuildFirewall(entries[0].0, entries[0].1);
      if c.Some? {
        PutValid(t, c.value);
        LoadEntriesValid(t.Put(c.value), entries[1..]);
      }
    }
  }

  /** Loading never loses a name already in the table. */
  lemma {:induction false} LoadEntriesKeeps(t: Table, entries: seq<(string, FirewallEntry)>)
    ensures forall n :: n in t.entries ==> n in LoadEntries(t, entries).0.entries
    decreases |entries|
  {
    if entries != [] {
      var c := BuildFirewall(entries[0].0, entries[0].1);
      if c.Some? {
        LoadEntriesKeeps(t.Put(c.value), entries[1..]);
      }
    }
  }

  /** Loading succeeds exactly when every entry is accepted, and then every entry's name is in the table. */
  lemma {:induction false} LoadEntriesAccepts(t: Table, entries: seq<(string, FirewallEntry)>)
    ensures LoadEntries(t, entries).1 <==>
      forall i :: 0 <= i < |entries| ==> BuildFirewall(entries[i].0, entries[i].1).Some?
    ensures LoadEntries(t, entries).1 ==> forall i :: 0 <= i < |entries| ==> entries[i].0 in LoadEntries(t, entries).0.entries
    decreases |entries|
  {
    if entries != [] {
      var c := BuildFirewall(entries[0].0, entries[0].1);
      if c.Some? {
        var rest := entries[1..];
        var t' := t.Put(c.value);
        LoadEntriesAccepts(t', rest);
        LoadEntriesKeeps(t', rest);
        assert forall i :: 1 <= i < |entries| ==> entries[i] == rest[i - 1];
      }
    }
  }

  /** The YAML configuration file as the loader sees it. */
  datatype ConfigFile =
    | Missing
      /**
       * The file exists but cannot be read or parsed, or the document or its `global`
       * section is not a mapping: the loader raises before changing anything.
       */
    | Unreadable
      /**
       * The two sections in document order. A `firewalls` section that is not a mapping
       * raises after the globals are set, as a first entry the dataclass rejects does.
       */
    | Document(globals: seq<(string, Scalar)>, firewalls: seq<(string, FirewallEntry)>)

  /** The example firewall written into a freshly created configuration. */
  const ExampleFirewall := FirewallConfig("example_fw", "https://192.168.1.1", "admin", "password", true, false, 60, "mean")

  /** The firewall table after `_create_default_config`: the disabled example when it was empty. */
  function DefaultTable(t: Table): (r: Table)
    ensures t.entries == map[] ==> r.entries == map["example_fw" := ExampleFirewall]
    ensures t.entries != map[] ==> r == t
    ensures r.entries != map[]
    ensures t.Valid() ==> r.Valid()
  {
    if t.entries == map[] then
      assert "example_fw" in t.Put(ExampleFirewall).entries;
      t.Put(ExampleFirewall)
    else t
  }

  /** The `legacy_firewall` the environment describes, with its polling interval. */
  function LegacyFirewall(env: Env, interval: int): FirewallConfig
    requires HasLegacyCredentials(env)
  {
    FirewallConfig(LegacyName, env["PAN_HOST"], env["PAN_USERNAME"], env["PAN_PASSWORD"],
      EnvBool(env, "VERIFY_SSL", true), true, interval, EnvGet(env, "DP_AGGREGATION", "mean"))
  }

  /**
   * What `_load_from_env` makes of the settings `g` and the table `t`: each setting from
   * its variable or from its own value, and the legacy firewall when its credentials are
   * set; None when an integer conversion raises ValueError.
   */
  function FromEnv(g: GlobalConfig, t: Table, env: Env): (r: Option<(GlobalConfig, Table)>)
    ensures r.Some? <==>
      (EnvIntSetting(env, "WEB_PORT", g.webPort).Some?
       && EnvIntSetting(env, "XML_RETENTION_HOURS", g.xmlRetentionHours).Some?
       && (HasLegacyCredentials(env) ==> EnvInt(env, "POLL_INTERVAL", 60).Some?))
    ensures r.Some? && !HasLegacyCredentials(env) ==> r.value.1 == t
    ensures r.Some? && HasLegacyCredentials(env) ==>
      r.value.1.entries == t.entries[LegacyName := LegacyFirewall(env, EnvInt(env, "POLL_INTERVAL", 60).value)]
    ensures r.Some? && t.Valid() ==> r.value.1.Valid()
    ensures r.Some? && Typed(g) ==> Typed(r.value.0)
  {
    var port := EnvIntSetting(env, "WEB_PORT", g.webPort);
    var hours := EnvIntSetting(env, "XML_RETENTION_HOURS", g.xmlRetentionHours);
    var interval := EnvInt(env, "POLL_INTERVAL", 60);
    if port.None? || hours.None? || (HasLegacyCredentials(env) && interval.None?) then None
    else
      var g' := GlobalConfig(
        EnvText(env, "OUTPUT_DIR", g.outputDir),
        EnvText(env, "OUTPUT_TYPE", g.outputType),
        EnvFlag(env, "VISUALIZATION", g.visualization),
        EnvFlag(env, "WEB_DASHBOARD", g.webDashboard),
        SInt(port.value),
        EnvFlag(env, "SAVE_RAW_XML", g.saveRawXml),
        SInt(hours.value),
        EnvText(env, "DATABASE_PATH", g.databasePath),
        EnvText(env, "LOG_LEVEL", g.logLevel));
      if HasLegacyCredentials(env) then
        var fw := LegacyFirewall(env, interval.value);
        PutValid(t, fw);
        Some((g', t.Put(fw)))
      else Some((g', t))
  }

  /** Without any of its variables set, the environment leaves well-typed settings and the table as they are. */
  lemma FromEnvUnset(g: GlobalConfig, t: Table)
    requires Typed(g)
    ensures FromEnv(g, t, map[]) == Some((g, t))
  {
  }

  /**
   * A YAML `web_port: "8080"` is stored as a string: the environment fallback still reads
   * it as 8080, but validation raises TypeError.
   */
  lemma StringPortFromYaml(t: Table)
    requires t.Valid()
    ensures var g := SetGlobal(DefaultGlobal, "web_port", SStr("8080"));
      && g.webPort == SStr("8080")
      && ValidationErrors(g, t).None?
      && EnvIntSetting(map[], "WEB_PORT", g.webPort) == Some(8080)
  {
    var g := SetGlobal(DefaultGlobal, "web_port", SStr("8080"));
    assert g.webPort == SStr("8080");
    ValidationBound(g, t);
    ParseInt8080();
  }

  /** `int("8080")` is 8080. */
  lemma ParseInt8080()
    ensures ParseInt("8080") == Some(8080)
  {
    assert "8080"[..3] == "808" && "808"[..2] == "80" && "80"[..1] == "8" && "8"[..0] == "";
    assert DigitsValue("8") == 8;
    assert DigitsValue("80") == 80;
    assert DigitsValue("808") == 808;
    assert DigitsValue("8080") == 8080;
    ParseIntDigits("8080");
  }

  // ---------------------------------------------------------------------------
  // Validation
  // ---------------------------------------------------------------------------

  /**
   * `web_port` as Python compares it with integers: an integer as it is, a boolean as 0
   * or 1; None for a string, where `web_port < 1` raises TypeError.
   */
  function PortValue(v: Scalar): (r: Option<int>)
    ensures r.None? <==> v.SStr?
  {
    match v
    case SInt(i) => Some(i)
    case SBool(b) => Some(if b then 1 else 0)
    case SStr(_) => None
  }

  predicate ValidPort(g: GlobalConfig) {
    PortValue(g.webPort).Some? && 1 <= PortValue(g.webPort).value <= 65535
  }

  /** Only the three strings pass; a value of another type is never equal to any of them. */
  predicate ValidOutputType(g: GlobalConfig) {
    g.outputType.SStr? && g.outputType.s in ["CSV", "XLSX", "TXT"]
  }

  predicate FirewallValid(fw: FirewallConfig) {
    fw.host != "" && fw.username != "" && fw.password != ""
    && fw.pollInterval >= 1 && fw.dpAggregation in ["mean", "max", "p95"]
  }

  /** The global checks of `validate_config`: None when the port comparison raises TypeError. */
  function GlobalErrors(g: GlobalConfig): (errs: Option<seq<string>>)
    ensures errs.None? <==> g.webPort.SStr?
    ensures errs.Some? ==> |errs.value| <= 2
    ensures errs.Some? ==> (errs.value == [] <==> ValidPort(g) && ValidOutputType(g))
  {
    if g.webPort.SStr? then None
    else
      Some((if !ValidPort(g) then ["Invalid web_port: must be between 1-65535"] else [])
        + (if !ValidOutputType(g) then ["Invalid output_type: must be CSV, XLSX, or TXT"] else []))
  }

  const HostRequired := "host is required"
  const CredentialsRequired := "username and password are required"
  const IntervalTooSmall := "poll_interval must be >= 1"
  const UnknownAggregation := "dp_aggregation must be mean, max, or p95"

  /** A per-firewall message: `f"Firewall {name}: {text}"`. */
  function Message(name: string, text: string): (m: string)
    ensures FirewallMessage(m)
  {
    "Firewall " + name + ": " + text
  }

  /** A message that begins with "Firewall ", as every per-firewall message does. */
  predicate FirewallMessage(m: string) {
    |m| >= 9 && m[..9] == "Firewall "
  }

  /** The errors for one firewall: one message per rule it breaks, in rule order. */
  function FirewallErrors(name: string, fw: FirewallConfig): (errs: seq<string>)
    ensures |errs| <= 4
    ensures errs == [] <==> FirewallValid(fw)
    ensures forall i :: 0 <= i < |errs| ==> FirewallMessage(errs[i])
  {
    (if fw.host == "" then [Message(name, HostRequired)] else [])
    + (if fw.username == "" || fw.password == "" then [Message(name, CredentialsRequired)] else [])
    + (if fw.pollInterval < 1 then [Message(name, IntervalTooSmall)] else [])
    + (if fw.dpAggregation !in ["mean", "max", "p95"] then [Message(name, UnknownAggregation)] else [])
  }

  /** The firewall errors of the names in `order`, in that order. */
  function TableErrors(entries: map<string, FirewallConfig>, order: seq<string>): (r: seq<string>)
    requires forall i :: 0 <= i < |order| ==> order[i] in entries
    ensures forall i :: 0 <= i < |r| ==> FirewallMessage(r[i])
  {
    if order == [] then []
    else
      var n := order[|order| - 1];
      TableErrors(entries, order[..|order| - 1]) + FirewallErrors(n, entries[n])
  }

  /** One more name in the scanned prefix appends that firewall's errors. */
  lemma TableErrorsStep(entries: map<string, FirewallConfig>, order: seq<string>, i: int)
    requires forall j :: 0 <= j < |order| ==> order[j] in entries
    requires 0 <= i < |order|
    ensures TableErrors(entries, order[..i + 1])
         == TableErrors(entries, order[..i]) + FirewallErrors(order[i], entries[order[i]])
  {
    assert order[..i + 1][..i] == order[..i];
  }

  /** Everything `validate_config` reports, in the order it reports it; None where it raises. */
  function ValidationErrors(g: GlobalConfig, t: Table): (r: Option<seq<string>>)
    requires t.Valid()
    ensures r.None? <==> g.webPort.SStr?
    ensures r.Some? ==> GlobalErrors(g).value <= r.value
    ensures r.Some? ==> forall i :: |GlobalErrors(g).value| <= i < |r.value| ==> FirewallMessage(r.value[i])
    ensures r.Some? ==> |r.value| <= 2 + 4 * |t.order|
  {
    TableErrorsBound(t.entries, t.order);
    var global := GlobalErrors(g);
    if global.None? then None else Some(global.value + TableErrors(t.entries, t.order))
  }

  lemma {:induction false} TableErrorsEmpty(entries: map<string, FirewallConfig>, order: seq<string>)
    requires forall i :: 0 <= i < |order| ==> order[i] in entries
    ensures TableErrors(entries, order) == [] <==> forall i :: 0 <= i < |order| ==> FirewallValid(entries[order[i]])
  {
    if order != [] {
      TableErrorsEmpty(entries, order[..|order| - 1]);
    }
  }

  lemma {:induction false} TableErrorsBound(entries: map<string, FirewallConfig>, order: seq<string>)
    requires forall i :: 0 <= i < |order| ==> order[i] in entries
    ensures |TableErrors(entries, order)| <= 4 * |order|
  {
    if order != [] {
      TableErrorsBound(entries, order[..|order| - 1]);
    }
  }

  /**
   * The configuration is reported valid exactly when the port and the output type are
   * valid and every firewall in the table passes every rule.
   */
  lemma ValidationEmptyIff(g: GlobalConfig, t: Table)
    requires t.Valid()
    ensures ValidationErrors(g, t) == Some([]) <==>
      ValidPort(g) && ValidOutputType(g) && forall n :: n in t.entries ==> FirewallValid(t.entries[n])
  {
    TableErrorsEmpty(t.entries, t.order);
    if forall i :: 0 <= i < |t.order| ==> FirewallValid(t.entries[t.order[i]]) {
      forall n | n in t.entries
        ensures FirewallValid(t.entries[n])
      {
        var i :| 0 <= i < |t.order| && t.order[i] == n;
      }
    }
  }

  /**
   * Validation raises exactly when the port holds a string; otherwise it reports at most
   * two global errors and at most four per firewall.
   */
  lemma ValidationBound(g: GlobalConfig, t: Table)
    requires t.Valid()
    ensures ValidationErrors(g, t).None? <==> g.webPort.SStr?
    ensures ValidationErrors(g, t).Some? ==> |ValidationErrors(g, t).value| <= 2 + 4 * |t.order|
  {
    TableErrorsBound(t.entries, t.order);
  }

  /**
   * Each rule has its own message, naming the firewall, and the message appears exactly
   * when the rule is broken.
   */
  lemma FirewallErrorsMessages(name: string, fw: FirewallConfig)
    ensures Message(name, HostRequired) in FirewallErrors(name, fw) <==> fw.host == ""
    ensures Message(name, CredentialsRequired) in FirewallErrors(name, fw) <==> (fw.username == "" || fw.password == "")
    ensures Message(name, IntervalTooSmall) in FirewallErrors(name, fw) <==> fw.pollInterval < 1
    ensures Message(name, UnknownAggregation) in FirewallErrors(name, fw) <==> fw.dpAggregation !in ["mean", "max", "p95"]
  {
    var m1, m2, m3, m4 := Message(name, HostRequired), Message(name, CredentialsRequired),
      Message(name, IntervalTooSmall), Message(name, UnknownAggregation);
    var k := |"Firewall " + name + ": "|;
    assert |m1| == k + 16 && |m2| == k + 34 && |m3| == k + 26 && |m4| == k + 40;
  }

  // ---------------------------------------------------------------------------
  // The manager
  // ---------------------------------------------------------------------------

  class ConfigManager {
    var globalConfig: GlobalConfig
    var firewalls: Table

    ghost predicate Valid()
      reads this
    {
      firewalls.Valid()
    }

    /** The state before loading: default globals and no firewalls. */
    constructor()
      ensures Valid()
      ensures globalConfig == DefaultGlobal && firewalls == EmptyTable
    {
      globalConfig := DefaultGlobal;
      firewalls := EmptyTable;
    }

    /**
     * `_load_config`: a present file is loaded as YAML, falling back to the environment
     * when that raises; a missing file means the environment, then the default example
     * firewall. `ok` is false when the environment fallback raises ValueError, which
     * propagates out of the constructor.
     */
    method Load(file: ConfigFile, env: Env) returns (ok: bool)
      requires Valid()
      modifies this
      ensures ok ==> Valid()
      ensures file.Missing? ==> (ok <==> FromEnv(old(globalConfig), old(firewalls), env).Some?)
      ensures file.Missing? && ok ==>
        var (g, t) := FromEnv(old(globalConfig), old(firewalls), env).value;
        globalConfig == g && firewalls == DefaultTable(t)
      ensures file.Unreadable? ==> (ok <==> FromEnv(old(globalConfig), old(firewalls), env).Some?)
      ensures file.Unreadable? && ok ==> (globalConfig, firewalls) == FromEnv(old(globalConfig), old(firewalls), env).value
      ensures file.Document? ==>
        var g := SetGlobals(old(globalConfig), file.globals);
        var (t, loaded) := LoadEntries(old(firewalls), file.firewalls);
        && (loaded ==> ok && globalConfig == g && firewalls == t)
        && (!loaded ==> (ok <==> FromEnv(g, t, env).Some?))
        && (!loaded && ok ==> (globalConfig, firewalls) == FromEnv(g, t, env).value)
    {
      match file
      case Missing =>
        ok := LoadFromEnv(env);
        if ok {
          CreateDefault();
        }
      case Unreadable =>
        ok := LoadFromEnv(env);
      case Document(globals, entries) =>
        ApplyYamlGlobals(globals);
        var loaded := LoadFirewalls(entries);
        ok := true;
        if !loaded {
          ok := LoadFromEnv(env);
        }
    }

    /**
     * The global-section loop of `_load_from_yaml`: known keys are set in order, whatever
     * the type of their value, and other keys are ignored.
     */
    method ApplyYamlGlobals(items: seq<(string, Scalar)>)
      modifies this
      ensures globalConfig == SetGlobals(old(globalConfig), items)
      ensures firewalls == old(firewalls)
    {
      var i := 0;
      while i < |items|
        invariant 0 <= i <= |items|
        invariant globalConfig == SetGlobals(old(globalConfig), items[..i])
        invariant firewalls == old(firewalls)
      {
        assert items[..i + 1][..i] == items[..i];
        globalConfig := SetGlobal(globalConfig, items[i].0, items[i].1);
        i := i + 1;
      }
      assert items[..i] == items;
    }

    /**
     * The firewall-section loop of `_load_from_yaml`: each entry becomes a configuration
     * under its name, until an entry the dataclass rejects; `ok` says whether all were
     * accepted (the entries before a rejected one stay in the table).
     */
    method LoadFirewalls(entries: seq<(string, FirewallEntry)>) returns (ok: bool)
      requires Valid()
      modifies this
      ensures Valid()
      ensures (firewalls, ok) == LoadEntries(old(firewalls), entries)
      ensures globalConfig == old(globalConfig)
    {
      LoadEntriesValid(firewalls, entries);
      var i := 0;
      while i < |entries|
        invariant 0 <= i <= |entries|
        invariant LoadEntries(firewalls, entries[i..]) == LoadEntries(old(firewalls), entries)
        invariant globalConfig == old(globalConfig)
      {
        var c := BuildFirewall(entries[i].0, entries[i].1);
        if c.None? {
          return false;
        }
        assert entries[i..][1..] == entries[i + 1..];
        firewalls := firewalls.Put(c.value);
        i := i + 1;
      }
      return true;
    }

    /**
     * `_load_from_env`: each global setting comes from its variable when set, and a
     * `legacy_firewall` is added only when host, username and password are all set and
     * non-empty. `ok` is false when an integer variable does not convert (Python raises).
     */
    method LoadFromEnv(env: Env) returns (ok: bool)
      requires Valid()
      modifies this
      ensures Valid()
      ensures ok <==> FromEnv(old(globalConfig), old(firewalls), env).Some?
      ensures ok ==> (globalConfig, firewalls) == FromEnv(old(globalConfig), old(firewalls), env).value
      ensures ok ==> globalConfig == GlobalConfig(
        EnvText(env, "OUTPUT_DIR", old(globalConfig.outputDir)),
        EnvText(env, "OUTPUT_TYPE", old(globalConfig.outputType)),
        EnvFlag(env, "VISUALIZATION", old(globalConfig.visualization)),
        EnvFlag(env, "WEB_DASHBOARD", old(globalConfig.webDashboard)),
        SInt(EnvIntSetting(env, "WEB_PORT", old(globalConfig.webPort)).value),
        EnvFlag(env, "SAVE_RAW_XML", old(globalConfig.saveRawXml)),
        SInt(EnvIntSetting(env, "XML_RETENTION_HOURS", old(globalConfig.xmlRetentionHours)).value),
        EnvText(env, "DATABASE_PATH", old(globalConfig.databasePath)),
        EnvText(env, "LOG_LEVEL", old(globalConfig.logLevel)))
      ensures ok && !HasLegacyCredentials(env) ==> firewalls == old(firewalls)
      ensures ok && HasLegacyCredentials(env) ==>
        firewalls == old(firewalls).Put(LegacyFirewall(env, EnvInt(env, "POLL_INTERVAL", 60).value))
    {
      globalConfig := globalConfig.(
        outputDir := EnvText(env, "OUTPUT_DIR", globalConfig.outputDir),
        outputType := EnvText(env, "OUTPUT_TYPE", globalConfig.outputType),
        visualization := EnvFlag(env, "VISUALIZATION", globalConfig.visualization),
        webDashboard := EnvFlag(env, "WEB_DASHBOARD", globalConfig.webDashboard));
      var port := EnvIntSetting(env, "WEB_PORT", globalConfig.webPort);
      if port.None? {
        return false;
      }
      globalConfig := globalConfig.(webPort := SInt(port.value),
        saveRawXml := EnvFlag(env, "SAVE_RAW_XML", globalConfig.saveRawXml));
      var hours := EnvIntSetting(env, "XML_RETENTION_HOURS", globalConfig.xmlRetentionHours);
      if hours.None? {
        return false;
      }
      globalConfig := globalConfig.(xmlRetentionHours := SInt(hours.value),
        databasePath := EnvText(env, "DATABASE_PATH", globalConfig.databasePath),
        logLevel := EnvText(env, "LOG_LEVEL", globalConfig.logLevel));
      if HasLegacyCredentials(env) {
        var interval := EnvInt(env, "POLL_INTERVAL", 60);
        if interval.None? {
          return false;
        }
        var fw := LegacyFirewall(env, interval.value);
        PutValid(firewalls, fw);
        firewalls := firewalls.Put(fw);
      }
      return true;
    }

    /** `_create_default_config`: an empty table gets the disabled example firewall. */
    method CreateDefault()
      requires Valid()
      modifies this
      ensures Valid()
      ensures globalConfig == old(globalConfig)
      ensures firewalls == DefaultTable(old(firewalls))
    {
      if firewalls.entries == map[] {
        PutValid(firewalls, ExampleFirewall);
        firewalls := firewalls.Put(ExampleFirewall);
      }
    }

    /**
     * `add_firewall`: stores the configuration under its name, replacing any previous one;
     * a new name goes last in the order, a replaced one keeps its place.
     */
    method AddFirewall(config: FirewallConfig) returns (r: bool)
      requires Valid()
      modifies this
      ensures Valid() && r
      ensures firewalls.entries == old(firewalls.entries)[config.name := config]
      ensures config.name in old(firewalls.entries) ==> firewalls.order == old(firewalls.order)
      ensures config.name !in old(firewalls.entries) ==> firewalls.order == old(firewalls.order) + [config.name]
      ensures globalConfig == old(globalConfig)
    {
      PutValid(firewalls, config);
      firewalls := firewalls.Put(config);
      r := true;
    }

    /** `remove_firewall`: true exactly when the name was present; afterwards it is absent. */
    method RemoveFirewall(name: string) returns (r: bool)
      requires Valid()
      modifies this
      ensures Valid()
      ensures r <==> name in old(firewalls.entries)
      ensures firewalls == if r then old(firewalls).Delete(name) else old(firewalls)
      ensures firewalls.entries == old(firewalls.entries) - {name}
      ensures globalConfig == old(globalConfig)
    {
      if name in firewalls.entries {
        DeleteValid(firewalls, name);
        firewalls := firewalls.Delete(name);
        return true;
      }
      return false;
    }

    /** `get_enabled_firewalls`: exactly the enabled entries, unchanged. */
    function EnabledFirewalls(): (r: map<string, FirewallConfig>)
      reads this
      ensures forall n :: n in r <==> n in firewalls.entries && firewalls.entries[n].enabled
      ensures forall n :: n in r ==> r[n] == firewalls.entries[n]
    {
      map n | n in firewalls.entries && firewalls.entries[n].enabled :: firewalls.entries[n]
    }

    /** `get_firewall`. */
    function GetFirewall(name: string): (r: Option<FirewallConfig>)
      reads this
      ensures r.Some? <==> name in firewalls.entries
      ensures r.Some? ==> r.value == firewalls.entries[name]
    {
      if name in firewalls.entries then Some(firewalls.entries[name]) else None
    }

    /** `list_firewalls`: every name once, in insertion order. */
    function ListFirewalls(): (r: seq<string>)
      requires Valid()
      reads this
      ensures Distinct(r) && forall n :: n in r <==> n in firewalls.entries
    {
      firewalls.order
    }

    /** `validate_config`: global checks, then each firewall in table order; None where it raises. */
    method ValidateConfig() returns (errors: Option<seq<string>>)
      requires Valid()
      ensures errors == ValidationErrors(globalConfig, firewalls)
    {
      var global, entries, order := GlobalErrors(globalConfig), firewalls.entries, firewalls.order;
      if global.None? {
        return None;
      }
      assert forall j :: 0 <= j < |order| ==> order[j] in entries;
      var errs := global.value;
      var i := 0;
      while i < |order|
        invariant 0 <= i <= |order|
        invariant errs == global.value + TableErrors(entries, order[..i])
      {
        var name := order[i];
        TableErrorsStep(entries, order, i);
        AppendAssoc(global.value, TableErrors(entries, order[..i]), FirewallErrors(name, entries[name]));
        errs := errs + FirewallErrors(name, entries[name]);
        i := i + 1;
      }
      assert order[..i] == order;
      return Some(errs);
    }
  }
}
