/**
 * The database configuration record shared by every script: building it from a
 * mapping, the environment overrides, the SQLAlchemy URL, and the defaulting
 * applied to the `database` section of `config.yaml`.
 */
module DbConfig {
  import opened Common
  import opened Text

  /** A YAML scalar as `yaml.safe_load` returns it. */
  datatype Scalar = Str(s: string) | Int(i: int) | Null

  /** A value at the root of the configuration: a scalar or a mapping of scalars. */
  datatype Node = Leaf(scalar: Scalar) | Section(entries: map<string, Scalar>)

  /** `DatabaseConfig`. */
  datatype DatabaseConfig = DatabaseConfig(host: string, port: int, user: string, password: string, database: string)

  /**
   * `ConfigError` with the keys it lists, the missing `database` section, and the
   * `ValueError`/`TypeError` that `int()` raises on a port it cannot read.
   */
  datatype ConfigError = MissingKeys(keys: seq<string>) | NoDatabaseSection | InvalidPort

  /** `ENV_DEFAULTS`: `MYSQL_HOST`, `MYSQL_PORT`, `MYSQL_USER`, `MYSQL_PASSWORD`, `MYSQL_DATABASE`. */
  datatype Env = Env(host: Option<string>, port: Option<string>, user: Option<string>,
                     password: Option<string>, database: Option<string>)

  /** An environment with none of the variables set. */
  const NoEnv := Env(None, None, None, None, None)

  // ---------------------------------------------------------------------------
  // Python conversions
  // ---------------------------------------------------------------------------

  /** `str(v)`. */
  function ToStr(v: Scalar): string {
    match v
    case Str(s) => s
    case Int(i) => IntToDecimal(i)
    case Null => "None"
  }

  /** `int(v)`; `None` where Python raises. */
  function ToInt(v: Scalar): Option<int> {
    match v
    case Str(s) => ParseInt(s)
    case Int(i) => Some(i)
    case Null => None
  }

  /** Python truthiness of a scalar. */
  predicate Truthy(v: Scalar) {
    match v
    case Str(s) => s != ""
    case Int(i) => i != 0
    case Null => false
  }

  // ---------------------------------------------------------------------------
  // DatabaseConfig.from_mapping
  // ---------------------------------------------------------------------------

  /** The keys `from_mapping` requires, in the order it reports them. */
  const RequiredKeys: seq<string> := ["host", "port", "user", "password", "database"]

  /** `[key]` when `key` is absent from `data`. */
  function IfMissing(data: map<string, Scalar>, key: string): seq<string> {
    if key in data then [] else [key]
  }

  /** The required keys absent from `data`, in the order host, port, user, password, database. */
  function Missing(data: map<string, Scalar>): (r: seq<string>)
    ensures forall k :: k in r <==> k in RequiredKeys && k !in data
  {
    IfMissing(data, "host") + IfMissing(data, "port") + IfMissing(data, "user")
    + IfMissing(data, "password") + IfMissing(data, "database")
  }

  /** No key is reported when all of them are present. */
  lemma NoneMissing(data: map<string, Scalar>)
    requires forall k :: k in RequiredKeys ==> k in data
    ensures Missing(data) == []
  {
  }

  /**
   * `DatabaseConfig.from_mapping`: the missing keys are reported all at once;
   * otherwise every field is `str` of its value and the port `int` of its value.
   */
  function FromMapping(data: map<string, Scalar>): (r: Result<DatabaseConfig, ConfigError>)
    ensures r.Err? && r.error.MissingKeys? <==> exists k :: k in RequiredKeys && k !in data
    ensures r.Err? && r.error.MissingKeys? ==> r.error.keys == Missing(data)
    ensures r == Err(InvalidPort) <==> Missing(data) == [] && ToInt(data["port"]).None?
    ensures r.Ok? ==> Missing(data) == [] && Some(r.value.port) == ToInt(data["port"])
    ensures r.Ok? ==>
      r.value.host == ToStr(data["host"]) && r.value.user == ToStr(data["user"]) &&
      r.value.password == ToStr(data["password"]) && r.value.database == ToStr(data["database"])
  {
    var missing := Missing(data);
    if missing != [] then
      assert missing[0] in missing;
      Err(MissingKeys(missing))
    else
      assert RequiredKeys[0] in RequiredKeys && RequiredKeys[1] in RequiredKeys && RequiredKeys[2] in RequiredKeys;
      assert RequiredKeys[3] in RequiredKeys && RequiredKeys[4] in RequiredKeys;
      match ToInt(data["port"])
      case None => Err(InvalidPort)
      case Some(port) =>
        Ok(DatabaseConfig(ToStr(data["host"]), port, ToStr(data["user"]), ToStr(data["password"]),
                          ToStr(data["database"])))
  }

  /** A record written out as a mapping reads back as itself. */
  lemma FromMappingRoundTrip(c: DatabaseConfig)
    ensures FromMapping(map["host" := Str(c.host), "port" := Int(c.port), "user" := Str(c.user),
                            "password" := Str(c.password), "database" := Str(c.database)]) == Ok(c)
  {
    var data := map["host" := Str(c.host), "port" := Int(c.port), "user" := Str(c.user),
                     "password" := Str(c.password), "database" := Str(c.database)];
    assert forall k :: k in RequiredKeys ==> k in data;
    NoneMissing(data);
  }

  // ---------------------------------------------------------------------------
  // with_env_defaults and sqlalchemy_url
  // ---------------------------------------------------------------------------

  /** `env or field`: a set, non-empty variable wins. */
  function Override(env: Option<string>, field: string): string {
    if env.Some? && env.value != "" then env.value else field
  }

  /**
   * `with_env_defaults`: each field comes from its variable when that is set and
   * non-empty; a port from the environment goes through `int()`.
   */
  function WithEnvDefaults(c: DatabaseConfig, env: Env): (r: Result<DatabaseConfig, ConfigError>)
    ensures r.Err? <==> env.port.Some? && env.port.value != "" && ParseInt(env.port.value).None?
    ensures r.Ok? ==> r.value.port == (if env.port.Some? && env.port.value != "" then ParseInt(env.port.value).value else c.port)
    ensures r.Ok? ==> r.value.host == Override(env.host, c.host) && r.value.user == Override(env.user, c.user)
    ensures r.Ok? ==> r.value.password == Override(env.password, c.password)
    ensures r.Ok? ==> r.value.database == Override(env.database, c.database)
  {
    var port := if env.port.Some? && env.port.value != "" then ParseInt(env.port.value) else Some(c.port);
    match port
    case None => Err(InvalidPort)
    case Some(p) =>
      Ok(DatabaseConfig(Override(env.host, c.host), p, Override(env.user, c.user),
                        Override(env.password, c.password), Override(env.database, c.database)))
  }

  /** Without environment variables the record is unchanged. */
  lemma NoEnvKeepsConfig(c: DatabaseConfig)
    ensures WithEnvDefaults(c, NoEnv) == Ok(c)
  {
  }

  /** Applying the overrides a second time changes nothing. */
  lemma WithEnvDefaultsIdempotent(c: DatabaseConfig, env: Env)
    requires WithEnvDefaults(c, env).Ok?
    ensures WithEnvDefaults(WithEnvDefaults(c, env).value, env) == WithEnvDefaults(c, env)
  {
  }

  const UrlScheme := "mysql+pymysql://"

  /** `sqlalchemy_url`. */
  function SqlalchemyUrl(c: DatabaseConfig): (u: string)
    ensures StartsWith(u, UrlScheme)
  {
    UrlScheme + c.user + ":" + c.password + "@" + c.host + ":" + IntToDecimal(c.port) + "/" + c.database
  }

  /** Splits `s` at the first `c`. */
  function SplitAt(s: string, c: char): Option<(string, string)> {
    match IndexOf(s, c)
    case None => None
    case Some(k) => Some((s[..k], s[k + 1..]))
  }

  /** Reads a URL of the form `sqlalchemy_url` writes back into its fields. */
  function ParseUrl(u: string): Option<DatabaseConfig> {
    if !StartsWith(u, UrlScheme) then None
    else
      match SplitAt(u[|UrlScheme|..], ':')
      case None => None
      case Some((user, afterUser)) =>
        match SplitAt(afterUser, '@')
        case None => None
        case Some((password, afterPassword)) =>
          match SplitAt(afterPassword, ':')
          case None => None
          case Some((host, afterHost)) =>
            match SplitAt(afterHost, '/')
            case None => None
            case Some((portText, database)) =>
              match ParseInt(portText)
              case None => None
              case Some(port) => Some(DatabaseConfig(host, port, user, password, database))
  }

  lemma SplitAtAfter(a: string, c: char, b: string)
    requires c !in a
    ensures SplitAt(a + [c] + b, c) == Some((a, b))
  {
    IndexOfAfter(a, c, b);
    var s := a + [c] + b;
    assert s[..|a|] == a && s[|a| + 1..] == b;
  }

  /** `str(n)` holds no `/`. */
  lemma NoSlashInDecimal(n: int)
    ensures '/' !in IntToDecimal(n)
  {
    var d := NatToDecimal(if n < 0 then -n else n);
    assert forall i :: 0 <= i < |d| ==> IsDigit(d[i]);
    if n < 0 {
      assert IntToDecimal(n) == ['-'] + d;
    }
  }

  /**
   * The URL determines the record: when the user holds no `:`, the password no `@`
   * and the host no `:`, every field reads back from it.
   */
  lemma UrlRoundTrip(c: DatabaseConfig)
    requires ':' !in c.user && '@' !in c.password && ':' !in c.host
    ensures ParseUrl(SqlalchemyUrl(c)) == Some(c)
  {
    var port := IntToDecimal(c.port);
    var u := SqlalchemyUrl(c);
    var afterHost := port + "/" + c.database;
    var afterPassword := c.host + ":" + afterHost;
    var afterUser := c.password + "@" + afterPassword;
    assert u[|UrlScheme|..] == c.user + [':'] + afterUser;
    SplitAtAfter(c.user, ':', afterUser);
    assert afterUser == c.password + ['@'] + afterPassword;
    SplitAtAfter(c.password, '@', afterPassword);
    assert afterPassword == c.host + [':'] + afterHost;
    SplitAtAfter(c.host, ':', afterHost);
    NoSlashInDecimal(c.port);
    assert afterHost == port + ['/'] + c.database;
    SplitAtAfter(port, '/', c.database);
    IntRoundTrip(c.port);
  }

  // ---------------------------------------------------------------------------
  // load_database_config
  // ---------------------------------------------------------------------------

  /** `section.get(key, default)`. */
  function Get(section: map<string, Scalar>, key: string, default: Scalar): Scalar {
    if key in section then section[key] else default
  }

  /** `section.get("database") or section.get("name") or "nasdaq"`. */
  function DatabaseName(section: map<string, Scalar>): (v: Scalar)
    ensures "database" in section && Truthy(section["database"]) ==> v == section["database"]
    ensures !("database" in section && Truthy(section["database"])) && "name" in section && Truthy(section["name"]) ==> v == section["name"]
    ensures !("database" in section && Truthy(section["database"])) && !("name" in section && Truthy(section["name"])) ==> v == Str("nasdaq")
  {
    var database := Get(section, "database", Null);
    var name := Get(section, "name", Null);
    if Truthy(database) then database else if Truthy(name) then name else Str("nasdaq")
  }

  /** The `defaults` mapping built from the section, its port already read with `int()`. */
  function Defaults(section: map<string, Scalar>, port: int): map<string, Scalar> {
    map["host" := Get(section, "host", Str("127.0.0.1")),
        "port" := Int(port),
        "user" := Get(section, "user", Str("nasdaq_user")),
        "password" := Get(section, "password", Str("nasdaq_pass")),
        "database" := DatabaseName(section)]
  }

  /**
   * `load_database_config` from the parsed root mapping: the `database` entry must
   * be a mapping; missing entries take their defaults; the environment overrides
   * last.
   */
  function LoadDatabaseConfig(root: map<string, Node>, env: Env): (r: Result<DatabaseConfig, ConfigError>)
    ensures r == Err(NoDatabaseSection) <==> "database" !in root || !root["database"].Section?
    ensures !r.Err? || !r.error.MissingKeys?
  {
    if "database" !in root || !root["database"].Section? then Err(NoDatabaseSection)
    else
      var section := root["database"].entries;
      match ToInt(Get(section, "port", Int(3306)))
      case None => Err(InvalidPort)
      case Some(port) =>
        var defaults := Defaults(section, port);
        assert forall k :: k in RequiredKeys ==> k in defaults;
        NoneMissing(defaults);
        match FromMapping(defaults)
        case Err(e) => Err(e)
        case Ok(c) => WithEnvDefaults(c, env)
  }

  /** Without a file setting or an environment variable, every field takes its default. */
  lemma EmptySectionDefaults(root: map<string, Node>)
    requires "database" in root && root["database"] == Section(map[])
    ensures LoadDatabaseConfig(root, NoEnv) == Ok(DatabaseConfig("127.0.0.1", 3306, "nasdaq_user", "nasdaq_pass", "nasdaq"))
  {
    var c := DatabaseConfig("127.0.0.1", 3306, "nasdaq_user", "nasdaq_pass", "nasdaq");
    assert Defaults(map[], 3306) == map["host" := Str(c.host), "port" := Int(c.port), "user" := Str(c.user),
                                        "password" := Str(c.password), "database" := Str(c.database)];
    FromMappingRoundTrip(c);
    NoEnvKeepsConfig(c);
  }

  /**
   * Without environment variables, a loaded record carries the section's settings
   * (`str` of each, `int` of the port) and the defaults for the absent ones.
   */
  lemma LoadedFieldsFromSection(root: map<string, Node>)
    requires "database" in root && root["database"].Section?
    requires LoadDatabaseConfig(root, NoEnv).Ok?
    ensures var c := LoadDatabaseConfig(root, NoEnv).value; var section := root["database"].entries;
      && c.host == ToStr(Get(section, "host", Str("127.0.0.1")))
      && Some(c.port) == ToInt(Get(section, "port", Int(3306)))
      && c.user == ToStr(Get(section, "user", Str("nasdaq_user")))
      && c.password == ToStr(Get(section, "password", Str("nasdaq_pass")))
      && c.database == ToStr(DatabaseName(section))
  {
  }
}
