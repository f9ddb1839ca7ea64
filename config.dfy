/** The connection settings of a client: their defaults, the check on the
    connection string, and the one-field builder steps
    (src/config/mod.rs). */
module Config {
  import opened Wrappers

  type u32 = x: int | 0 <= x < 0x1_0000_0000

  /** A `std::time::Duration`, in nanoseconds. */
  type Duration = nat

  /** `Duration::from_secs`. */
  function FromSecs(secs: nat): Duration {
    secs * 1_000_000_000
  }

  datatype ConfigError = InvalidConnectionString(message: string)

  const InvalidSchemeMessage: string := "Connection string must start with 'mongodb://' or 'mongodb+srv://'"
  const PlainScheme: string := "mongodb://"
  const SrvScheme: string := "mongodb+srv://"

  datatype ConnectionConfig = ConnectionConfig(
    connectionString: string,
    appName: Option<string>,
    maxPoolSize: Option<u32>,
    minPoolSize: Option<u32>,
    serverSelectionTimeout: Duration,
    connectTimeout: Duration,
    socketTimeout: Option<Duration>,
    maxIdleTime: Option<Duration>,
    retryWrites: bool,
    retryReads: bool,
    directConnection: bool,
    tlsEnabled: bool)
  {
    /** `with_app_name`: sets the application name and nothing else. */
    function WithAppName(name: string): (c: ConnectionConfig)
      ensures c.appName == Some(name) && c.(appName := appName) == this
    {
      this.(appName := Some(name))
    }

    /** `with_max_pool_size`. */
    function WithMaxPoolSize(size: u32): (c: ConnectionConfig)
      ensures c.maxPoolSize == Some(size) && c.(maxPoolSize := maxPoolSize) == this
    {
      this.(maxPoolSize := Some(size))
    }

    /** `with_min_pool_size`. */
    function WithMinPoolSize(size: u32): (c: ConnectionConfig)
      ensures c.minPoolSize == Some(size) && c.(minPoolSize := minPoolSize) == this
    {
      this.(minPoolSize := Some(size))
    }

    /** `with_server_selection_timeout`. */
    function WithServerSelectionTimeout(timeout: Duration): (c: ConnectionConfig)
      ensures c.serverSelectionTimeout == timeout && c.(serverSelectionTimeout := serverSelectionTimeout) == this
    {
      this.(serverSelectionTimeout := timeout)
    }

    /** `with_connect_timeout`. */
    function WithConnectTimeout(timeout: Duration): (c: ConnectionConfig)
      ensures c.connectTimeout == timeout && c.(connectTimeout := connectTimeout) == this
    {
      this.(connectTimeout := timeout)
    }

    /** `with_tls`. */
    function WithTls(enabled: bool): (c: ConnectionConfig)
      ensures c.tlsEnabled == enabled && c.(tlsEnabled := tlsEnabled) == this
    {
      this.(tlsEnabled := enabled)
    }

    /** `with_retry_writes`. */
    function WithRetryWrites(enabled: bool): (c: ConnectionConfig)
      ensures c.retryWrites == enabled && c.(retryWrites := retryWrites) == this
    {
      this.(retryWrites := enabled)
    }

    /** `with_retry_reads`. */
    function WithRetryReads(enabled: bool): (c: ConnectionConfig)
      ensures c.retryReads == enabled && c.(retryReads := retryReads) == this
    {
      this.(retryReads := enabled)
    }
  }

  /** `ConnectionConfig::default`. */
  function Default(): (c: ConnectionConfig)
    ensures c.connectionString == ""
    ensures c.appName == Some("gmsv_mongo_v2")
    ensures c.maxPoolSize == Some(100) && c.minPoolSize == Some(10)
    ensures c.serverSelectionTimeout == FromSecs(30) && c.connectTimeout == FromSecs(10)
    ensures c.socketTimeout == None && c.maxIdleTime == Some(FromSecs(600))
    ensures c.retryWrites && c.retryReads
    ensures !c.directConnection && !c.tlsEnabled
  {
    ConnectionConfig("", Some("gmsv_mongo_v2"), Some(100), Some(10), FromSecs(30), FromSecs(10),
                     None, Some(FromSecs(600)), true, true, false, false)
  }

  predicate StartsWith(s: string, prefix: string) {
    |prefix| <= |s| && s[..|prefix|] == prefix
  }

  predicate HasMongoScheme(s: string) {
    StartsWith(s, PlainScheme) || StartsWith(s, SrvScheme)
  }

  /** `ConnectionConfig::new`: a string with either MongoDB scheme is stored
      as given beside the defaults; any other is refused. */
  function New(s: string): (r: Result<ConnectionConfig, ConfigError>)
    ensures r.Success? <==> HasMongoScheme(s)
    ensures r.Success? ==> r.value.connectionString == s && r.value.(connectionString := "") == Default()
    ensures r.Failure? ==> r.error == InvalidConnectionString(InvalidSchemeMessage)
  {
    if !StartsWith(s, PlainScheme) && !StartsWith(s, SrvScheme) then
      Failure(InvalidConnectionString(InvalidSchemeMessage))
    else
      Success(Default().(connectionString := s))
  }

  /** The default configuration's own (empty) connection string is refused. */
  lemma DefaultStringRefused()
    ensures New(Default().connectionString).Failure?
  {
  }

  /** The two unit tests of `new`. */
  lemma NewExamples()
    ensures New("mongodb://localhost:27017").Success?
    ensures New("mongodb+srv://cluster.example.net").Success?
    ensures New("invalid://localhost:27017") == Failure(InvalidConnectionString(InvalidSchemeMessage))
  {
    assert StartsWith("mongodb://localhost:27017", PlainScheme) by {
      assert "mongodb://localhost:27017"[..|PlainScheme|] == PlainScheme;
    }
    assert StartsWith("mongodb+srv://cluster.example.net", SrvScheme) by {
      assert "mongodb+srv://cluster.example.net"[..|SrvScheme|] == SrvScheme;
    }
    assert !StartsWith("invalid://localhost:27017", PlainScheme) && !StartsWith("invalid://localhost:27017", SrvScheme) by {
      assert "invalid://localhost:27017"[0] != PlainScheme[0] && PlainScheme[0] == SrvScheme[0];
    }
  }

  /** The builder test: each value set by a chained step is the one read
      back, and the fields no step touched keep their defaults. */
  lemma BuilderPattern()
    ensures New("mongodb://localhost:27017").Success?
    ensures var c := New("mongodb://localhost:27017").value
                       .WithAppName("test_app").WithMaxPoolSize(50).WithRetryWrites(false);
      c.appName == Some("test_app") && c.maxPoolSize == Some(50) && !c.retryWrites &&
      c.connectionString == "mongodb://localhost:27017" &&
      c.minPoolSize == Some(10) && c.retryReads && c.maxIdleTime == Some(FromSecs(600))
  {
    NewExamples();
  }

  /** One builder step: which `with_*` method, and its argument. */
  datatype Step =
    | AppName(name: string)
    | MaxPoolSize(size: u32)
    | MinPoolSize(size: u32)
    | ServerSelectionTimeout(timeout: Duration)
    | ConnectTimeout(timeout: Duration)
    | Tls(enabled: bool)
    | RetryWrites(enabled: bool)
    | RetryReads(enabled: bool)
  {
    /** The field the step sets. */
    function Field(): nat {
      match this
      case AppName(_) => 0
      case MaxPoolSize(_) => 1
      case MinPoolSize(_) => 2
      case ServerSelectionTimeout(_) => 3
      case ConnectTimeout(_) => 4
      case Tls(_) => 5
      case RetryWrites(_) => 6
      case RetryReads(_) => 7
    }
  }

  /** Taking the step s on c. */
  function Apply(c: ConnectionConfig, s: Step): ConnectionConfig {
    match s
    case AppName(name) => c.WithAppName(name)
    case MaxPoolSize(size) => c.WithMaxPoolSize(size)
    case MinPoolSize(size) => c.WithMinPoolSize(size)
    case ServerSelectionTimeout(timeout) => c.WithServerSelectionTimeout(timeout)
    case ConnectTimeout(timeout) => c.WithConnectTimeout(timeout)
    case Tls(enabled) => c.WithTls(enabled)
    case RetryWrites(enabled) => c.WithRetryWrites(enabled)
    case RetryReads(enabled) => c.WithRetryReads(enabled)
  }

  /** Steps on two different fields may be taken in either order. */
  lemma SettersCommute(c: ConnectionConfig, s: Step, t: Step)
    requires s.Field() != t.Field()
    ensures Apply(Apply(c, s), t) == Apply(Apply(c, t), s)
  {
  }

  /** Setting a field twice keeps the later value. */
  lemma LastStepWins(c: ConnectionConfig, s: Step, t: Step)
    requires s.Field() == t.Field()
    ensures Apply(Apply(c, s), t) == Apply(c, t)
  {
  }
}
