/**
 * Construction of the backend (`AcmeSHBackend.__init__`): an ordered list
 * of checks over the `[acmesh]` section of config.ini, with defaults for
 * the optional settings. The first failing check raises; no backend exists
 * unless all pass.
 *
 * Settings are strings, as configparser yields them, and a setting missing
 * from `[acmesh]` is looked up in `[DEFAULT]`, as configparser's section
 * `get` does. The two filesystem checks (`os.access(path, os.X_OK)` and
 * `os.path.exists(path)`) are parameters.
 */
module Configuration {
  import opened Wrappers
  import opened Text

  /** The settings of one config.ini section. */
  type Section = map<string, string>

  /** All sections of config.ini, by name. */
  type ConfigFile = map<string, Section>

  const SectionName := "acmesh"
  /** configparser's default section, whose settings every section inherits. */
  const DefaultSectionName := "DEFAULT"
  const DefaultBinaryPath := "/root/.acme.sh/acme.sh"
  const DefaultHomePath := "/root/.acme.sh"
  /** The source's default is the integer 300; arguments are strings here. */
  const DefaultDnsSleepTime := "300"

  /** A constructed backend: every field validated or defaulted. */
  datatype Backend = Backend(
    binaryPath: string,
    homePath: string,
    dnsPlugin: string,
    dnsPluginConfig: string,
    dnsSleepTime: string,
    debugMode: bool)

  /** The exceptions `__init__` raises, one per check. */
  datatype ConfigError =
    | SectionMissing
    | NotExecutable(path: string)
    | HomeMissing(path: string)
    | DnsPluginMissing
    | DnsPluginConfigMissing

  /** The exception text of each error. */
  function Message(e: ConfigError): (m: string)
    ensures e.NotExecutable? ==> Contains(m, e.path)
    ensures e.HomeMissing? ==> Contains(m, e.path)
  {
    match e
    case SectionMissing => "acmesh section missing from config.ini"
    case NotExecutable(p) =>
      ContainsMiddle("ACME.sh '", p, "' not executable");
      "ACME.sh '" + (p + "' not executable")
    case HomeMissing(p) =>
      ContainsMiddle("ACME.sh home path '", p, "' does not exist.");
      "ACME.sh home path '" + (p + "' does not exist.")
    case DnsPluginMissing => "Please specify a dns_plugin in acmesh section of config.ini"
    case DnsPluginConfigMissing => "Please specify a dns_plugin_config in acmesh section of config.ini"
  }

  /** The settings `config["acmesh"]` offers: its own, and for every other
      key the one in `[DEFAULT]`. */
  function Settings(config: ConfigFile): (s: Section)
    requires SectionName in config
    ensures forall k :: k in s <==>
      k in config[SectionName] || (DefaultSectionName in config && k in config[DefaultSectionName])
    ensures forall k :: k in config[SectionName] ==> s[k] == config[SectionName][k]
    ensures DefaultSectionName in config ==> forall k ::
      k !in config[SectionName] && k in config[DefaultSectionName] ==> s[k] == config[DefaultSectionName][k]
  {
    var own := config[SectionName];
    if DefaultSectionName in config then config[DefaultSectionName] + own else own
  }

  /** `section.get(key, default)` */
  function GetOr(s: Section, key: string, default: string): (v: string)
    ensures key in s ==> v == s[key]
    ensures key !in s ==> v == default
  {
    if key in s then s[key] else default
  }

  /** Python truthiness of `section.get(key, None)`: present and non-empty. */
  predicate IsSet(s: Section, key: string) {
    key in s && s[key] != ""
  }

  function BinaryPath(s: Section): string {
    GetOr(s, "acmesh_binary_path", DefaultBinaryPath)
  }

  function HomePath(s: Section): string {
    GetOr(s, "acmesh_home_path", DefaultHomePath)
  }

  /** What a usable backend guarantees about its fields. */
  predicate Usable(b: Backend, isExecutable: string -> bool, pathExists: string -> bool) {
    isExecutable(b.binaryPath) && pathExists(b.homePath) && b.dnsPlugin != "" && b.dnsPluginConfig != ""
  }

  /** `AcmeSHBackend.__init__`: succeeds exactly when every check passes;
      otherwise the error names the FIRST check that fails, in the order
      section, binary, home, dns_plugin, dns_plugin_config. */
  function Construct(config: ConfigFile, isExecutable: string -> bool, pathExists: string -> bool)
    : (r: Result<Backend, ConfigError>)
    ensures r == Err(SectionMissing) <==> SectionName !in config
    ensures r.Err? && r.error.NotExecutable? <==>
      SectionName in config && !isExecutable(BinaryPath(Settings(config)))
    ensures r.Err? && r.error.HomeMissing? <==>
      SectionName in config && isExecutable(BinaryPath(Settings(config)))
      && !pathExists(HomePath(Settings(config)))
    ensures r == Err(DnsPluginMissing) <==>
      SectionName in config && isExecutable(BinaryPath(Settings(config)))
      && pathExists(HomePath(Settings(config))) && !IsSet(Settings(config), "dns_plugin")
    ensures r == Err(DnsPluginConfigMissing) <==>
      SectionName in config && isExecutable(BinaryPath(Settings(config)))
      && pathExists(HomePath(Settings(config))) && IsSet(Settings(config), "dns_plugin")
      && !IsSet(Settings(config), "dns_plugin_config")
    ensures r.Err? && r.error.NotExecutable? ==> r.error.path == BinaryPath(Settings(config))
    ensures r.Err? && r.error.HomeMissing? ==> r.error.path == HomePath(Settings(config))
    ensures r.Ok? ==> Usable(r.value, isExecutable, pathExists)
  {
    if SectionName !in config then
      Err(SectionMissing)
    else
      var s := Settings(config);
      var binary := BinaryPath(s);
      if !isExecutable(binary) then
        Err(NotExecutable(binary))
      else
        var home := HomePath(s);
        if !pathExists(home) then
          Err(HomeMissing(home))
        else if !IsSet(s, "dns_plugin") then
          Err(DnsPluginMissing)
        else if !IsSet(s, "dns_plugin_config") then
          Err(DnsPluginConfigMissing)
        else
          Ok(Backend(
            binary,
            home,
            s["dns_plugin"],
            s["dns_plugin_config"],
            GetOr(s, "dns_sleep_time", DefaultDnsSleepTime),
            IsSet(s, "debug_mode")))
  }

  /** Construction succeeds exactly when the section is present, the
      binary is executable, the home path exists, and both DNS plugin
      settings are non-empty. */
  lemma ConstructSucceedsIff(config: ConfigFile, isExecutable: string -> bool, pathExists: string -> bool)
    ensures Construct(config, isExecutable, pathExists).Ok? <==>
      SectionName in config
      && isExecutable(BinaryPath(Settings(config)))
      && pathExists(HomePath(Settings(config)))
      && IsSet(Settings(config), "dns_plugin")
      && IsSet(Settings(config), "dns_plugin_config")
  {
  }

  /** The fields of a constructed backend are the settings found for
      `[acmesh]`, or the defaults `/root/.acme.sh/acme.sh`, `/root/.acme.sh`,
      300 and false for the ones left out. Debug mode follows Python
      truthiness of the raw string, so any non-empty value (even "false")
      turns it on. */
  lemma ConstructDefaults(config: ConfigFile, isExecutable: string -> bool, pathExists: string -> bool)
    requires Construct(config, isExecutable, pathExists).Ok?
    ensures var b := Construct(config, isExecutable, pathExists).value;
      var s := Settings(config);
      && ("acmesh_binary_path" in s ==> b.binaryPath == s["acmesh_binary_path"])
      && ("acmesh_binary_path" !in s ==> b.binaryPath == DefaultBinaryPath)
      && ("acmesh_home_path" in s ==> b.homePath == s["acmesh_home_path"])
      && ("acmesh_home_path" !in s ==> b.homePath == DefaultHomePath)
      && ("dns_sleep_time" in s ==> b.dnsSleepTime == s["dns_sleep_time"])
      && ("dns_sleep_time" !in s ==> b.dnsSleepTime == DefaultDnsSleepTime)
      && (b.debugMode <==> "debug_mode" in s && s["debug_mode"] != "")
      && b.dnsPlugin == s["dns_plugin"]
      && b.dnsPluginConfig == s["dns_plugin_config"]
  {
  }

  /** A setting that `[acmesh]` leaves out is taken from `[DEFAULT]`: a
      non-empty `debug_mode` there turns debug mode on, and a `dns_plugin`
      there passes the plugin check. */
  lemma DefaultSectionInherited(config: ConfigFile, isExecutable: string -> bool, pathExists: string -> bool)
    requires SectionName in config && DefaultSectionName in config
    ensures var r := Construct(config, isExecutable, pathExists);
      var own := config[SectionName];
      var inherited := config[DefaultSectionName];
      && ("debug_mode" !in own && "debug_mode" in inherited && inherited["debug_mode"] != "" && r.Ok? ==> r.value.debugMode)
      && ("dns_plugin" !in own && "dns_plugin" in inherited && inherited["dns_plugin"] != "" ==> r != Err(DnsPluginMissing))
  {
  }

  /** Only `[acmesh]` and `[DEFAULT]` matter: other sections never change
      the outcome. */
  lemma ConstructReadsOnlyItsSection(c1: ConfigFile, c2: ConfigFile, isExecutable: string -> bool, pathExists: string -> bool)
    requires SectionName in c1 <==> SectionName in c2
    requires SectionName in c1 ==> c1[SectionName] == c2[SectionName]
    requires DefaultSectionName in c1 <==> DefaultSectionName in c2
    requires DefaultSectionName in c1 ==> c1[DefaultSectionName] == c2[DefaultSectionName]
    ensures Construct(c1, isExecutable, pathExists) == Construct(c2, isExecutable, pathExists)
  {
  }
}
