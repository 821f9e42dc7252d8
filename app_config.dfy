/** The application configuration loader of src/config.cpp: compiled-in
    defaults, overlaid section by section with the values of a config.json
    read through the ad-hoc extractors.  Files are an explicit input: a map
    from path to content, a path that is absent being one that does not
    open. */
module AppConfigLoader {
  import opened Text
  import opened JsonExtract

  datatype ServerConfig = ServerConfig(port: int, host: string)
  datatype AuthConfig = AuthConfig(username: string, password: string)
  datatype DeviceConfigPaths = DeviceConfigPaths(configFile: string, fallbackConfigFile: string)
  datatype LoggingConfig = LoggingConfig(level: string)
  datatype AppConfig = AppConfig(
    server: ServerConfig,
    authentication: AuthConfig,
    device: DeviceConfigPaths,
    logging: LoggingConfig)

  type Files = map<string, string>

  const IntMin: int := -0x8000_0000
  const IntMax: int := 0x7FFF_FFFF

  const LocalConfigPath: string := "./config.json"
  const SystemConfigPath: string := "/etc/metrics_monitor_system/config.json"

  /** get_default_config */
  function DefaultConfig(): AppConfig {
    AppConfig(
      ServerConfig(8080, "0.0.0.0"),
      AuthConfig("cvedix", "cvedix"),
      DeviceConfigPaths("/etc/device_registered.json", "./device_registered.json"),
      LoggingConfig("info"))
  }

  // ---------------------------------------------------------------------
  // std::stoi

  /** The characters isspace accepts in the C locale. */
  predicate IsCSpace(c: char) {
    c == ' ' || c == '\t' || c == '\n' || c == 11 as char || c == 12 as char || c == '\r'
  }

  predicate IsDigit(c: char) {
    '0' <= c <= '9'
  }

  function SkipCSpace(s: string, i: nat): (j: nat)
    requires i <= |s|
    decreases |s| - i
    ensures i <= j <= |s| && (j == |s| || !IsCSpace(s[j]))
    ensures forall k :: i <= k < j ==> IsCSpace(s[k])
  {
    if i < |s| && IsCSpace(s[i]) then SkipCSpace(s, i + 1) else i
  }

  function DigitEnd(s: string, i: nat): (j: nat)
    requires i <= |s|
    decreases |s| - i
    ensures i <= j <= |s| && (j == |s| || !IsDigit(s[j]))
    ensures forall k :: i <= k < j ==> IsDigit(s[k])
  {
    if i < |s| && IsDigit(s[i]) then DigitEnd(s, i + 1) else i
  }

  function DigitValue(c: char): nat
    requires IsDigit(c)
  {
    c as int - '0' as int
  }

  /** The decimal value of a run of digits. */
  function DigitsValue(d: string): nat
    requires forall k :: 0 <= k < |d| ==> IsDigit(d[k])
    decreases |d|
  {
    if d == [] then 0 else DigitsValue(d[..|d| - 1]) * 10 + DigitValue(d[|d| - 1])
  }

  /** std::stoi: leading white space, an optional sign, at least one digit,
      the rest ignored; None where it throws (no digits: invalid_argument;
      outside the range of a 32-bit int: out_of_range). */
  function Stoi(s: string): Option<int> {
    var i := SkipCSpace(s, 0);
    var neg := i < |s| && s[i] == '-';
    var j := if i < |s| && (s[i] == '-' || s[i] == '+') then i + 1 else i;
    var e := DigitEnd(s, j);
    if e == j then None
    else
      var v: int := DigitsValue(s[j..e]);
      var n := if neg then -v else v;
      if IntMin <= n <= IntMax then Some(n) else None
  }

  lemma {:induction false} DigitEndAt(s: string, i: nat, n: nat)
    requires i + n <= |s|
    requires forall k :: i <= k < i + n ==> IsDigit(s[k])
    requires i + n == |s| || !IsDigit(s[i + n])
    decreases n
    ensures DigitEnd(s, i) == i + n
  {
    if n > 0 {
      DigitEndAt(s, i + 1, n - 1);
    }
  }

  /** stoi reads the leading integer: an optionally signed run of digits
      whose value fits an int, followed by anything that is not a digit. */
  lemma StoiLeading(sign: string, d: string, rest: string)
    requires sign == "" || sign == "-" || sign == "+"
    requires d != [] && forall k :: 0 <= k < |d| ==> IsDigit(d[k])
    requires rest == [] || !IsDigit(rest[0])
    requires IntMin <= Signed(sign, DigitsValue(d)) <= IntMax
    ensures Stoi(sign + d + rest) == Some(Signed(sign, DigitsValue(d)))
  {
    var s := sign + d + rest;
    var j := |sign|;
    assert s[0] == if sign == "" then d[0] else sign[0];
    assert SkipCSpace(s, 0) == 0;
    assert (0 < |s| && s[0] == '-') <==> sign == "-";
    DigitRun(sign, d, rest);
    DigitEndAt(s, j, |d|);
    assert s[j..j + |d|] == d;
    StoiOf(s, 0, sign == "-", j, j + |d|, DigitsValue(d), Signed(sign, DigitsValue(d)));
  }

  /** Stoi once its scan positions are known. */
  lemma StoiOf(s: string, i: nat, neg: bool, j: nat, e: nat, v: nat, n: int)
    requires i <= |s| && i == SkipCSpace(s, 0)
    requires neg == (i < |s| && s[i] == '-')
    requires j == (if i < |s| && (s[i] == '-' || s[i] == '+') then i + 1 else i)
    requires j < e <= |s| && e == DigitEnd(s, j)
    requires v == DigitsValue(s[j..e]) && n == (if neg then -(v as int) else v)
    requires IntMin <= n <= IntMax
    ensures Stoi(s) == Some(n)
  {
  }

  /** The digits sit in the middle of `sign + d + rest`, and the run of
      digits ends with them. */
  lemma DigitRun(sign: string, d: string, rest: string)
    requires forall k :: 0 <= k < |d| ==> IsDigit(d[k])
    requires rest == [] || !IsDigit(rest[0])
    ensures var s, j := sign + d + rest, |sign|;
            && s[j..j + |d|] == d
            && (forall k :: j <= k < j + |d| ==> IsDigit(s[k]))
            && (j + |d| == |s| || !IsDigit(s[j + |d|]))
  {
    var s, j := sign + d + rest, |sign|;
    forall k | j <= k < j + |d|
      ensures s[k] == d[k - j]
    {
    }
    if j + |d| < |s| {
      assert s[j + |d|] == rest[0];
    }
  }

  function Signed(sign: string, v: nat): int {
    if sign == "-" then -(v as int) else v
  }

  /** stoi throws when no digit follows the white space and sign. */
  lemma StoiNoDigits(s: string)
    requires var i := SkipCSpace(s, 0);
             var j := if i < |s| && (s[i] == '-' || s[i] == '+') then i + 1 else i;
             j == |s| || !IsDigit(s[j])
    ensures Stoi(s) == None
  {
  }

  // ---------------------------------------------------------------------
  // extract_json_int and extract_json_object

  /** extract_json_int: the default when the string value is empty or
      stoi throws, the leading integer otherwise. */
  function JsonInt(json: string, key: string, default: int): (r: int)
    ensures r == default || Stoi(JsonString(json, key)) == Some(r)
    ensures JsonString(json, key) != "" && Stoi(JsonString(json, key)).Some? ==>
              r == Stoi(JsonString(json, key)).value
  {
    var value := JsonString(json, key);
    if value == [] then default
    else
      match Stoi(value)
      case None => default
      case Some(n) => n
  }

  /** The value extract_json_object returns. */
  function JsonObject(json: string, key: string): string {
    match Find(json, SearchKey(key), 0)
    case None => ""
    case Some(k) =>
      match Find(json, "{", k)
      case None => ""
      case Some(b) =>
        assert json[b..b + 1] == "{";
        match MatchBrace(json, b)
        case None => ""
        case Some(e) => json[b..e]
  }

  /** extract_json_object (src/config.cpp). */
  method ExtractJsonObject(json: string, key: string) returns (r: string)
    ensures r == JsonObject(json, key)
  {
    var found := Find(json, SearchKey(key), 0);
    if found.None? {
      return "";
    }
    var open := Find(json, "{", found.value);
    if open.None? {
      return "";
    }
    var start := open.value;
    assert json[start..start + 1] == "{";
    var close := MatchingBrace(json, start);
    if close.None? {
      return "";
    }
    return json[start..close.value];
  }

  /** The object is read from the first '{' after the key: it is "" exactly
      when no '}' brings the brace count back to zero, and otherwise it is
      the shortest brace-balanced text from that '{', ending in '}', each
      proper non-empty prefix of which has more '{' than '}'. */
  lemma ObjectShape(json: string, key: string, k: nat, b: nat)
    requires Find(json, SearchKey(key), 0) == Some(k)
    requires k <= b < |json| && json[b] == '{'
    requires forall m :: k <= m < b ==> json[m] != '{'
    ensures JsonObject(json, key) == "" <==> MatchBrace(json, b).None?
    ensures var r := JsonObject(json, key);
            r != "" ==>
              && b + |r| <= |json| && r == json[b..b + |r|]
              && r[0] == '{' && r[|r| - 1] == '}' && Depth(r) == 0
              && forall m :: 0 < m < |r| ==> Depth(r[..m]) > 0
  {
    FindChar(json, '{', k, b);
    var r := JsonObject(json, key);
    if r != "" {
      var e := MatchBrace(json, b).value;
      assert r == json[b..e];
      forall m | 0 < m < |r|
        ensures Depth(r[..m]) > 0
      {
        assert r[..m] == json[b..b + m];
      }
    }
  }

  // ---------------------------------------------------------------------
  // load_config

  /** The first of the three candidate paths that opens, if any. */
  function OpenConfig(configPath: string, files: Files): Option<string> {
    if configPath in files then Some(files[configPath])
    else if LocalConfigPath in files then Some(files[LocalConfigPath])
    else if SystemConfigPath in files then Some(files[SystemConfigPath])
    else None
  }

  function ServerFrom(s: ServerConfig, content: string): ServerConfig {
    var section := JsonObject(content, "server");
    if section == "" then s
    else
      var port := JsonInt(section, "port", s.port);
      ServerConfig(if 0 < port < 65536 then port else s.port,
                   NonEmptyOr(JsonString(section, "host"), s.host))
  }

  function AuthFrom(a: AuthConfig, content: string): AuthConfig {
    var section := JsonObject(content, "authentication");
    if section == "" then a
    else AuthConfig(NonEmptyOr(JsonString(section, "username"), a.username),
                    NonEmptyOr(JsonString(section, "password"), a.password))
  }

  function PathsFrom(d: DeviceConfigPaths, content: string): DeviceConfigPaths {
    var section := JsonObject(content, "device");
    if section == "" then d
    else DeviceConfigPaths(NonEmptyOr(JsonString(section, "config_file"), d.configFile),
                           NonEmptyOr(JsonString(section, "fallback_config_file"), d.fallbackConfigFile))
  }

  function LoggingFrom(l: LoggingConfig, content: string): LoggingConfig {
    var section := JsonObject(content, "logging");
    if section == "" then l
    else LoggingConfig(NonEmptyOr(JsonString(section, "level"), l.level))
  }

  /** The configuration load_config returns for a file's content. */
  function ConfigFromText(content: string): AppConfig {
    var d := DefaultConfig();
    AppConfig(ServerFrom(d.server, content), AuthFrom(d.authentication, content),
              PathsFrom(d.device, content), LoggingFrom(d.logging, content))
  }

  /** The configuration load_config returns. */
  function LoadedConfig(configPath: string, files: Files): AppConfig {
    match OpenConfig(configPath, files)
    case None => DefaultConfig()
    case Some(content) => ConfigFromText(content)
  }

  /** The server block of load_config: the port only when it is a valid
      port number, the host only when non-empty. */
  method LoadServer(content: string, s: ServerConfig) returns (r: ServerConfig)
    ensures r == ServerFrom(s, content)
  {
    r := s;
    var serverJson := ExtractJsonObject(content, "server");
    if serverJson != "" {
      var port := JsonInt(serverJson, "port", r.port);
      var host := ExtractJsonString(serverJson, "host");
      if port > 0 && port < 65536 {
        r := r.(port := port);
      }
      if host != "" {
        r := r.(host := host);
      }
    }
  }

  method LoadAuth(content: string, a: AuthConfig) returns (r: AuthConfig)
    ensures r == AuthFrom(a, content)
  {
    r := a;
    var authJson := ExtractJsonObject(content, "authentication");
    if authJson != "" {
      var username := ExtractJsonString(authJson, "username");
      var password := ExtractJsonString(authJson, "password");
      if username != "" {
        r := r.(username := username);
      }
      if password != "" {
        r := r.(password := password);
      }
    }
  }

  method LoadPaths(content: string, d: DeviceConfigPaths) returns (r: DeviceConfigPaths)
    ensures r == PathsFrom(d, content)
  {
    r := d;
    var deviceJson := ExtractJsonObject(content, "device");
    if deviceJson != "" {
      var configFile := ExtractJsonString(deviceJson, "config_file");
      var fallbackFile := ExtractJsonString(deviceJson, "fallback_config_file");
      if configFile != "" {
        r := r.(configFile := configFile);
      }
      if fallbackFile != "" {
        r := r.(fallbackConfigFile := fallbackFile);
      }
    }
  }

  method LoadLogging(content: string, l: LoggingConfig) returns (r: LoggingConfig)
    ensures r == LoggingFrom(l, content)
  {
    r := l;
    var loggingJson := ExtractJsonObject(content, "logging");
    if loggingJson != "" {
      var level := ExtractJsonString(loggingJson, "level");
      if level != "" {
        r := r.(level := level);
      }
    }
  }

  /** load_config */
  method LoadConfig(configPath: string, files: Files) returns (config: AppConfig)
    ensures config == LoadedConfig(configPath, files)
  {
    config := DefaultConfig();
    var file := OpenConfig(configPath, files);
    if file.None? {
      return;
    }
    var content := file.value;
    var server := LoadServer(content, config.server);
    var auth := LoadAuth(content, config.authentication);
    var paths := LoadPaths(content, config.device);
    var logging := LoadLogging(content, config.logging);
    config := AppConfig(server, auth, paths, logging);
  }

  /** When none of the three paths opens, the defaults are returned; the
      paths are tried in order: the given one, ./config.json, then
      /etc/metrics_monitor_system/config.json. */
  lemma NoFileDefaults(configPath: string, files: Files)
    requires configPath !in files && LocalConfigPath !in files && SystemConfigPath !in files
    ensures LoadedConfig(configPath, files) == DefaultConfig()
    ensures DefaultConfig().server.port == 8080 && DefaultConfig().logging.level == "info"
  {
  }

  lemma OpenOrder(configPath: string, files: Files)
    ensures configPath in files ==> LoadedConfig(configPath, files) == ConfigFromText(files[configPath])
    ensures configPath !in files && LocalConfigPath in files ==>
              LoadedConfig(configPath, files) == ConfigFromText(files[LocalConfigPath])
    ensures configPath !in files && LocalConfigPath !in files && SystemConfigPath in files ==>
              LoadedConfig(configPath, files) == ConfigFromText(files[SystemConfigPath])
  {
  }

  /** The server port is the default 8080 or a valid port number; an
      in-range file value is taken and an out-of-range one ignored. */
  lemma PortInRange(configPath: string, files: Files)
    ensures var port := LoadedConfig(configPath, files).server.port;
            port == 8080 || 0 < port < 65536
  {
  }

  lemma PortFromFile(content: string)
    requires JsonObject(content, "server") != ""
    ensures var section := JsonObject(content, "server");
            var v := JsonString(section, "port");
            v != "" && Stoi(v).Some? && 0 < Stoi(v).value < 65536 ==>
              ConfigFromText(content).server.port == Stoi(v).value
    ensures var section := JsonObject(content, "server");
            var v := JsonString(section, "port");
            v != "" && Stoi(v).Some? && !(0 < Stoi(v).value < 65536) ==>
              ConfigFromText(content).server.port == 8080
  {
  }

  /** A string setting differs from its default only when its section
      exists and holds a non-empty value for it, which it then is. */
  lemma StringSettings(content: string)
    ensures var c := ConfigFromText(content);
            var s := JsonObject(content, "server");
            c.server.host == (if s != "" && JsonString(s, "host") != "" then JsonString(s, "host") else "0.0.0.0")
    ensures var c := ConfigFromText(content);
            var a := JsonObject(content, "authentication");
            && c.authentication.username ==
                 (if a != "" && JsonString(a, "username") != "" then JsonString(a, "username") else "cvedix")
            && c.authentication.password ==
                 (if a != "" && JsonString(a, "password") != "" then JsonString(a, "password") else "cvedix")
    ensures var c := ConfigFromText(content);
            var d := JsonObject(content, "device");
            && c.device.configFile ==
                 (if d != "" && JsonString(d, "config_file") != "" then JsonString(d, "config_file")
                  else "/etc/device_registered.json")
            && c.device.fallbackConfigFile ==
                 (if d != "" && JsonString(d, "fallback_config_file") != "" then JsonString(d, "fallback_config_file")
                  else "./device_registered.json")
    ensures var c := ConfigFromText(content);
            var l := JsonObject(content, "logging");
            c.logging.level == (if l != "" && JsonString(l, "level") != "" then JsonString(l, "level") else "info")
    ensures ConfigFromText(content).server.host != "" && ConfigFromText(content).logging.level != ""
  {
  }

  /** A file in which none of the four section keys occurs changes nothing. */
  lemma NoSectionsDefaults(content: string)
    requires forall j :: !OccursAt(content, SearchKey("server"), j)
    requires forall j :: !OccursAt(content, SearchKey("authentication"), j)
    requires forall j :: !OccursAt(content, SearchKey("device"), j)
    requires forall j :: !OccursAt(content, SearchKey("logging"), j)
    ensures ConfigFromText(content) == DefaultConfig()
  {
  }
}
