/** Application configuration: the defaults registered for every setting, the resolution of a
    setting (a value from the environment or the config file wins over the default), the
    environment overrides applied after that, and the database connection string. What the
    environment and the config file hold is the input `Source`. */
module Config {
  import opened Errors
  import opened Models

  const MINUTE: Duration := 60 * 1_000_000_000
  const HOUR: Duration := 60 * MINUTE

  datatype AppConfig = AppConfig(name: string, env: string, port: string)

  datatype DatabaseConfig = DatabaseConfig(
    host: string,
    port: string,
    user: string,
    password: string,
    name: string,
    sslMode: string,
    maxOpenConns: int,
    maxIdleConns: int,
    connMaxLifetime: Duration)

  datatype JwtConfig = JwtConfig(secret: string, expiration: Duration)

  datatype LogConfig = LogConfig(level: string, encoding: string)

  datatype Config = Config(app: AppConfig, database: DatabaseConfig, jwt: JwtConfig, log: LogConfig)

  /** The string-valued settings Load reads: the configuration keys, then the seven
      environment variables that override them. */
  datatype StringKey =
    | AppName | AppEnv | AppPort
    | DatabaseHost | DatabasePort | DatabaseUser | DatabasePassword | DatabaseName | DatabaseSslMode
    | JwtSecret | LogLevel | LogEncoding
    | EnvAppPort | EnvDbHost | EnvDbPort | EnvDbUser | EnvDbPassword | EnvDbName | EnvJwtSecret

  datatype IntKey = MaxOpenConns | MaxIdleConns

  datatype DurationKey = ConnMaxLifetime | JwtExpiration

  /** The name each setting is looked up by. */
  function StringKeyName(k: StringKey): string {
    match k
    case AppName => "app.name"
    case AppEnv => "app.env"
    case AppPort => "app.port"
    case DatabaseHost => "database.host"
    case DatabasePort => "database.port"
    case DatabaseUser => "database.user"
    case DatabasePassword => "database.password"
    case DatabaseName => "database.name"
    case DatabaseSslMode => "database.sslmode"
    case JwtSecret => "jwt.secret"
    case LogLevel => "log.level"
    case LogEncoding => "log.encoding"
    case EnvAppPort => "APP_PORT"
    case EnvDbHost => "DB_HOST"
    case EnvDbPort => "DB_PORT"
    case EnvDbUser => "DB_USER"
    case EnvDbPassword => "DB_PASSWORD"
    case EnvDbName => "DB_NAME"
    case EnvJwtSecret => "JWT_SECRET"
  }

  function IntKeyName(k: IntKey): string {
    match k
    case MaxOpenConns => "database.max_open_conns"
    case MaxIdleConns => "database.max_idle_conns"
  }

  function DurationKeyName(k: DurationKey): string {
    match k
    case ConnMaxLifetime => "database.conn_max_lifetime"
    case JwtExpiration => "jwt.expiration"
  }

  /** The values the environment and the config file supply, by setting, already converted
      to the type the setting is read as. A setting with no value is absent. */
  datatype Source = Source(
    strings: map<StringKey, string>,
    ints: map<IntKey, int>,
    durations: map<DurationKey, Duration>)

  /** setDefaults. */
  const DEFAULT_APP_NAME: string := "go-clean-boiler"
  const DEFAULT_APP_ENV: string := "development"
  const DEFAULT_APP_PORT: string := "8080"
  const DEFAULT_DB_HOST: string := "localhost"
  const DEFAULT_DB_PORT: string := "5432"
  const DEFAULT_DB_USER: string := "postgres"
  const DEFAULT_DB_PASSWORD: string := "postgres"
  const DEFAULT_DB_NAME: string := "go_clean_boiler"
  const DEFAULT_DB_SSLMODE: string := "disable"
  const DEFAULT_JWT_SECRET: string := "your-secret-key-change-this-in-production"
  const DEFAULT_LOG_LEVEL: string := "debug"
  const DEFAULT_LOG_ENCODING: string := "console"
  const DEFAULT_MAX_OPEN_CONNS: int := 25
  const DEFAULT_MAX_IDLE_CONNS: int := 25
  const DEFAULT_CONN_MAX_LIFETIME: Duration := 5 * MINUTE
  const DEFAULT_JWT_EXPIRATION: Duration := 24 * HOUR

  /** setDefaults: the configuration keys have defaults; the override variables do not. */
  function StringDefault(k: StringKey): Option<string> {
    match k
    case AppName => Some(DEFAULT_APP_NAME)
    case AppEnv => Some(DEFAULT_APP_ENV)
    case AppPort => Some(DEFAULT_APP_PORT)
    case DatabaseHost => Some(DEFAULT_DB_HOST)
    case DatabasePort => Some(DEFAULT_DB_PORT)
    case DatabaseUser => Some(DEFAULT_DB_USER)
    case DatabasePassword => Some(DEFAULT_DB_PASSWORD)
    case DatabaseName => Some(DEFAULT_DB_NAME)
    case DatabaseSslMode => Some(DEFAULT_DB_SSLMODE)
    case JwtSecret => Some(DEFAULT_JWT_SECRET)
    case LogLevel => Some(DEFAULT_LOG_LEVEL)
    case LogEncoding => Some(DEFAULT_LOG_ENCODING)
    case _ => None
  }

  function IntDefault(k: IntKey): int {
    match k
    case MaxOpenConns => DEFAULT_MAX_OPEN_CONNS
    case MaxIdleConns => DEFAULT_MAX_IDLE_CONNS
  }

  function DurationDefault(k: DurationKey): Duration {
    match k
    case ConnMaxLifetime => DEFAULT_CONN_MAX_LIFETIME
    case JwtExpiration => DEFAULT_JWT_EXPIRATION
  }

  /** GetString: the supplied value, else the default, else "". */
  function GetString(src: Source, k: StringKey): (s: string)
    ensures k in src.strings ==> s == src.strings[k]
    ensures k !in src.strings && StringDefault(k).Some? ==> s == StringDefault(k).value
    ensures k !in src.strings && StringDefault(k).None? ==> s == ""
  {
    if k in src.strings then src.strings[k]
    else if StringDefault(k).Some? then StringDefault(k).value
    else ""
  }

  /** GetInt: the supplied value, else the default. */
  function GetInt(src: Source, k: IntKey): (n: int)
    ensures k in src.ints ==> n == src.ints[k]
    ensures k !in src.ints ==> n == IntDefault(k)
  {
    if k in src.ints then src.ints[k] else IntDefault(k)
  }

  /** GetDuration: the supplied value, else the default. */
  function GetDuration(src: Source, k: DurationKey): (d: Duration)
    ensures k in src.durations ==> d == src.durations[k]
    ensures k !in src.durations ==> d == DurationDefault(k)
  {
    if k in src.durations then src.durations[k] else DurationDefault(k)
  }

  /** A non-empty override replaces the configured value; an empty or unset one leaves it. */
  function Overridden(src: Source, env: StringKey, configured: string): (s: string)
    ensures GetString(src, env) != "" ==> s == GetString(src, env)
    ensures GetString(src, env) == "" ==> s == configured
  {
    if GetString(src, env) != "" then GetString(src, env) else configured
  }

  /** Load: every field from its setting, then the seven environment overrides. It never
      reports an error. */
  method Load(src: Source) returns (config: Config, err: Option<string>)
    ensures err == None
    ensures config.app == AppConfig(GetString(src, AppName), GetString(src, AppEnv),
                                    Overridden(src, EnvAppPort, GetString(src, AppPort)))
    ensures config.database == DatabaseConfig(
      Overridden(src, EnvDbHost, GetString(src, DatabaseHost)),
      Overridden(src, EnvDbPort, GetString(src, DatabasePort)),
      Overridden(src, EnvDbUser, GetString(src, DatabaseUser)),
      Overridden(src, EnvDbPassword, GetString(src, DatabasePassword)),
      Overridden(src, EnvDbName, GetString(src, DatabaseName)),
      GetString(src, DatabaseSslMode),
      GetInt(src, MaxOpenConns),
      GetInt(src, MaxIdleConns),
      GetDuration(src, ConnMaxLifetime))
    ensures config.jwt == JwtConfig(Overridden(src, EnvJwtSecret, GetString(src, JwtSecret)),
                                    GetDuration(src, JwtExpiration))
    ensures config.log == LogConfig(GetString(src, LogLevel), GetString(src, LogEncoding))
  {
    config := Config(
      AppConfig(GetString(src, AppName), GetString(src, AppEnv), GetString(src, AppPort)),
      DatabaseConfig(
        GetString(src, DatabaseHost),
        GetString(src, DatabasePort),
        GetString(src, DatabaseUser),
        GetString(src, DatabasePassword),
        GetString(src, DatabaseName),
        GetString(src, DatabaseSslMode),
        GetInt(src, MaxOpenConns),
        GetInt(src, MaxIdleConns),
        GetDuration(src, ConnMaxLifetime)),
      JwtConfig(GetString(src, JwtSecret), GetDuration(src, JwtExpiration)),
      LogConfig(GetString(src, LogLevel), GetString(src, LogEncoding)));

    var appPort := GetString(src, EnvAppPort);
    if appPort != "" {
      config := config.(app := config.app.(port := appPort));
    }

    var dbHost := GetString(src, EnvDbHost);
    if dbHost != "" {
      config := config.(database := config.database.(host := dbHost));
    }

    var dbPort := GetString(src, EnvDbPort);
    if dbPort != "" {
      config := config.(database := config.database.(port := dbPort));
    }

    var dbUser := GetString(src, EnvDbUser);
    if dbUser != "" {
      config := config.(database := config.database.(user := dbUser));
    }

    var dbPassword := GetString(src, EnvDbPassword);
    if dbPassword != "" {
      config := config.(database := config.database.(password := dbPassword));
    }

    var dbName := GetString(src, EnvDbName);
    if dbName != "" {
      config := config.(database := config.database.(name := dbName));
    }

    var jwtSecret := GetString(src, EnvJwtSecret);
    if jwtSecret != "" {
      config := config.(jwt := config.jwt.(secret := jwtSecret));
    }
    err := None;
  }

  /** With nothing supplied, every setting reads as its default and no override is set
      (so every Overridden field keeps its default too). */
  lemma NothingSetMeansDefaults(src: Source)
    requires src == Source(map[], map[], map[])
    ensures GetString(src, AppName) == DEFAULT_APP_NAME && GetString(src, AppEnv) == DEFAULT_APP_ENV
    ensures GetString(src, AppPort) == DEFAULT_APP_PORT
    ensures GetString(src, DatabaseHost) == DEFAULT_DB_HOST && GetString(src, DatabasePort) == DEFAULT_DB_PORT
    ensures GetString(src, DatabaseUser) == DEFAULT_DB_USER && GetString(src, DatabasePassword) == DEFAULT_DB_PASSWORD
    ensures GetString(src, DatabaseName) == DEFAULT_DB_NAME && GetString(src, DatabaseSslMode) == DEFAULT_DB_SSLMODE
    ensures GetInt(src, MaxOpenConns) == 25 && GetInt(src, MaxIdleConns) == 25
    ensures GetDuration(src, ConnMaxLifetime) == 5 * MINUTE && GetDuration(src, JwtExpiration) == 24 * HOUR
    ensures GetString(src, JwtSecret) == DEFAULT_JWT_SECRET
    ensures GetString(src, LogLevel) == DEFAULT_LOG_LEVEL && GetString(src, LogEncoding) == DEFAULT_LOG_ENCODING
    ensures forall k | StringDefault(k).None? :: GetString(src, k) == ""
  {
  }

  /** Words joined by single spaces. */
  function Join(words: seq<string>): string
  {
    if words == [] then ""
    else if |words| == 1 then words[0]
    else words[0] + " " + Join(words[1..])
  }

  /** GetDSN: the libpq key=value connection string, in the order host, port, user, password,
      dbname, sslmode. */
  function GetDSN(c: Config): string
  {
    Join(["host=" + c.database.host, "port=" + c.database.port, "user=" + c.database.user,
          "password=" + c.database.password, "dbname=" + c.database.name,
          "sslmode=" + c.database.sslMode])
  }

  /** strings.Split(s, " "). */
  function Words(s: string): (w: seq<string>)
    ensures |w| >= 1
  {
    if s == [] then [[]]
    else
      var rest := Words(s[1..]);
      if s[0] == ' ' then [[]] + rest else [[s[0]] + rest[0]] + rest[1..]
  }

  lemma NoSpaceInTail(a: string)
    requires a != [] && ' ' !in a
    ensures a[0] != ' ' && ' ' !in a[1..]
  {
    assert a[0] in a;
    forall i | 0 <= i < |a[1..]| ensures a[1..][i] != ' ' {
      assert a[1..][i] == a[i + 1];
    }
  }

  /** A text without a space is one word. */
  lemma {:induction false} OneWord(a: string)
    requires ' ' !in a
    ensures Words(a) == [a]
  {
    if a != [] {
      NoSpaceInTail(a);
      OneWord(a[1..]);
      assert [a[0]] + a[1..] == a;
    }
  }

  /** Splitting at a space that ends the first word. */
  lemma {:induction false} WordThenRest(a: string, b: string)
    requires ' ' !in a
    ensures Words(a + " " + b) == [a] + Words(b)
  {
    var s := a + " " + b;
    if a == [] {
      assert s[0] == ' ' && s[1..] == b;
    } else {
      NoSpaceInTail(a);
      assert s[0] == a[0] && s[1..] == a[1..] + " " + b;
      WordThenRest(a[1..], b);
      assert [a[0]] + a[1..] == a;
    }
  }

  /** Splitting a space-joined list of space-free words gives the words back. */
  lemma {:induction false} WordsOfJoin(words: seq<string>)
    requires |words| >= 1
    requires forall i | 0 <= i < |words| :: ' ' !in words[i]
    ensures Words(Join(words)) == words
  {
    if |words| == 1 {
      OneWord(words[0]);
    } else {
      WordThenRest(words[0], Join(words[1..]));
      WordsOfJoin(words[1..]);
    }
  }

  lemma NoSpaceJoin(k: string, v: string)
    requires ' ' !in k && ' ' !in v
    ensures ' ' !in k + v
  {
    forall i | 0 <= i < |k + v| ensures (k + v)[i] != ' ' {
      if i < |k| {
        assert (k + v)[i] == k[i];
      } else {
        assert (k + v)[i] == v[i - |k|];
      }
    }
  }

  /** When no field holds a space, the DSN splits into the six key=value pairs, in order. */
  lemma DsnPairs(c: Config)
    requires ' ' !in c.database.host && ' ' !in c.database.port && ' ' !in c.database.user
    requires ' ' !in c.database.password && ' ' !in c.database.name && ' ' !in c.database.sslMode
    ensures Words(GetDSN(c)) == [
      "host=" + c.database.host,
      "port=" + c.database.port,
      "user=" + c.database.user,
      "password=" + c.database.password,
      "dbname=" + c.database.name,
      "sslmode=" + c.database.sslMode]
  {
    var d := c.database;
    NoSpaceJoin("host=", d.host);
    NoSpaceJoin("port=", d.port);
    NoSpaceJoin("user=", d.user);
    NoSpaceJoin("password=", d.password);
    NoSpaceJoin("dbname=", d.name);
    NoSpaceJoin("sslmode=", d.sslMode);
    WordsOfJoin(["host=" + d.host, "port=" + d.port, "user=" + d.user,
                 "password=" + d.password, "dbname=" + d.name, "sslmode=" + d.sslMode]);
  }
}
