/**
 `Configuration`: the connection attributes. A setting that was never set prints nothing; printing
 walks the attributes in the order of their names.
 */
module Configurations {
  import opened Options
  import opened Decimals
  import opened AppBuffers
  import opened ConfigText

  datatype Key =
    | Auth | Driver | Dsn | Endpoint | LogLevelKey | LogPath | MaxRetryCount | MaxRowPerPage
    | ProfileName | Pwd | ReqTimeout | Uid

  datatype AuthType = Password | OAuth2 | Kerberos | Certificate | Jwt | Header

  /** UNKNOWN is no level a configuration can hold. */
  datatype LogLevel = Off | ErrorLevel | WarningLevel | InfoLevel | DebugLevel

  datatype Setting = Text(text: string) | Number(number: int) | AuthIs(auth: AuthType) | LevelIs(level: LogLevel)

  /** The attributes that are set. */
  type Settings = map<Key, Setting>

  /** All attributes, in the order of their names. */
  const KEYS: seq<Key> := [
    Auth, Driver, Dsn, Endpoint, LogLevelKey, LogPath, MaxRetryCount, MaxRowPerPage, ProfileName, Pwd, ReqTimeout, Uid]

  function KeyName(k: Key): string {
    match k
    case Auth => "auth"
    case Driver => "driver"
    case Dsn => "dsn"
    case Endpoint => "endpointoverride"
    case LogLevelKey => "loglevel"
    case LogPath => "logoutput"
    case MaxRetryCount => "maxretrycountclient"
    case MaxRowPerPage => "maxrowperpage"
    case ProfileName => "profilename"
    case Pwd => "pwd"
    case ReqTimeout => "requesttimeout"
    case Uid => "uid"
  }

  predicate IsNumberKey(k: Key) {
    k.MaxRetryCount? || k.MaxRowPerPage? || k.ReqTimeout?
  }

  predicate IsTextKey(k: Key) {
    !IsNumberKey(k) && !k.Auth? && !k.LogLevelKey?
  }

  /** The type of an attribute; numbers are 32-bit. */
  predicate Typed(k: Key, v: Setting) {
    match v
    case Text(_) => IsTextKey(k)
    case Number(n) => IsNumberKey(k) && -0x8000_0000 <= n < 0x8000_0000
    case AuthIs(_) => k.Auth?
    case LevelIs(_) => k.LogLevelKey?
  }

  predicate AllTyped(s: Settings) {
    forall k | k in s :: Typed(k, s[k])
  }

  function AuthName(a: AuthType): string {
    match a
    case Password => "password"
    case OAuth2 => "oauth2"
    case Kerberos => "kerberos"
    case Certificate => "certificate"
    case Jwt => "jwt"
    case Header => "header"
  }

  function LevelName(l: LogLevel): string {
    match l
    case Off => "0"
    case ErrorLevel => "1"
    case WarningLevel => "2"
    case InfoLevel => "3"
    case DebugLevel => "4"
  }

  /** The text of a setting in the argument map. */
  function Show(v: Setting): string {
    match v
    case Text(text) => text
    case Number(n) => Print(n)
    case AuthIs(a) => AuthName(a)
    case LevelIs(l) => LevelName(l)
  }

  // ---- The connection string. ----

  /** A value with a space in it gets braces. */
  function Quote(value: string): string {
    if ' ' in value then "{" + value + "}" else value
  }

  function Entry(k: Key, value: string): string {
    if value == "" then "" else KeyName(k) + "=" + Quote(value) + ";"
  }

  function Entries(arguments: map<Key, string>, keys: seq<Key>): string {
    if keys == [] then ""
    else (if keys[0] in arguments then Entry(keys[0], arguments[keys[0]]) else "") + Entries(arguments, keys[1..])
  }

  function Arguments(s: Settings): map<Key, string> {
    map k | k in s :: Show(s[k])
  }

  /** `ToConnectString` */
  function ConnectString(s: Settings): string {
    Entries(Arguments(s), KEYS)
  }

  lemma {:induction false} EntriesPlus(arguments: map<Key, string>, keys: seq<Key>, k: Key)
    ensures Entries(arguments, keys + [k]) ==
      Entries(arguments, keys) + (if k in arguments then Entry(k, arguments[k]) else "")
    decreases keys
  {
    hide Entry;
    if keys == [] {
      assert keys + [k] == [k];
      assert Entries(arguments, [k][1..]) == "";
    } else {
      assert (keys + [k])[1..] == keys[1..] + [k];
      EntriesPlus(arguments, keys[1..], k);
    }
  }

  // ---- The object. ----

  /** `SettableValue` */
  datatype Settable<T> = Settable(val: T, isSet: bool)

  function Given<T>(v: T): Settable<T> {
    Settable(v, true)
  }

  class Configuration {
    var dsn: Settable<string>
    var driver: Settable<string>
    var uid: Settable<string>
    var pwd: Settable<string>
    var profileName: Settable<string>
    var endpoint: Settable<string>
    var logPath: Settable<string>
    var reqTimeout: Settable<int>
    var maxRetryCountClient: Settable<int>
    var maxRowPerPage: Settable<int>
    var authType: Settable<AuthType>
    var logLevel: Settable<LogLevel>

    constructor ()
      ensures AllSettings() == map[]
      ensures reqTimeout.val == 3000 && maxRetryCountClient.val == 0 && maxRowPerPage.val == -1
      ensures authType.val == Password && logLevel.val == WarningLevel
    {
      dsn, driver := Settable("Trino DSN", false), Settable("Trino ODBC Driver", false);
      uid, pwd, profileName := Settable("", false), Settable("", false), Settable("", false);
      endpoint, logPath := Settable("", false), Settable("", false);
      reqTimeout, maxRetryCountClient := Settable(3000, false), Settable(0, false);
      maxRowPerPage := Settable(-1, false);
      authType, logLevel := Settable(Password, false), Settable(WarningLevel, false);
    }

    function IfSet<T>(v: Settable<T>, make: T -> Setting): Option<Setting> {
      if v.isSet then Some(make(v.val)) else None
    }

    function Get(k: Key): Option<Setting>
      reads this
    {
      match k
      case Auth => IfSet(authType, v => AuthIs(v))
      case Driver => IfSet(driver, v => Text(v))
      case Dsn => IfSet(dsn, v => Text(v))
      case Endpoint => IfSet(endpoint, v => Text(v))
      case LogLevelKey => IfSet(logLevel, v => LevelIs(v))
      case LogPath => IfSet(logPath, v => Text(v))
      case MaxRetryCount => IfSet(maxRetryCountClient, v => Number(v))
      case MaxRowPerPage => IfSet(maxRowPerPage, v => Number(v))
      case ProfileName => IfSet(profileName, v => Text(v))
      case Pwd => IfSet(pwd, v => Text(v))
      case ReqTimeout => IfSet(reqTimeout, v => Number(v))
      case Uid => IfSet(uid, v => Text(v))
    }

    /** The attributes that are set. */
    ghost function AllSettings(): Settings
      reads this
    {
      map k: Key | Get(k).Some? :: Get(k).value
    }

    /** `SetDsn`, `SetDriver`, ...: one setter for each text attribute but the log path. */
    method SetText(k: Key, text: string)
      requires IsTextKey(k) && !k.LogPath?
      modifies this
      ensures AllSettings() == old(AllSettings())[k := Text(text)]
    {
      match k
      case Driver => driver := Given(text);
      case Dsn => dsn := Given(text);
      case Endpoint => endpoint := Given(text);
      case ProfileName => profileName := Given(text);
      case Pwd => pwd := Given(text);
      case Uid => uid := Given(text);
    }

    /** `SetLogPath`: what is not a directory is refused. */
    method SetLogPath(path: string, isDirectory: string -> bool)
      modifies this
      ensures AllSettings() ==
        if path != "" && isDirectory(path) then old(AllSettings())[LogPath := Text(path)] else old(AllSettings())
    {
      if path != "" && isDirectory(path) {
        logPath := Given(path);
      }
    }

    /** `SetReqTimeout`, `SetMaxRetryCountClient`, `SetMaxRowPerPage` */
    method SetNumber(k: Key, number: int)
      requires IsNumberKey(k)
      modifies this
      ensures AllSettings() == old(AllSettings())[k := Number(number)]
    {
      match k
      case MaxRetryCount => maxRetryCountClient := Given(number);
      case MaxRowPerPage => maxRowPerPage := Given(number);
      case ReqTimeout => reqTimeout := Given(number);
    }

    method SetAuthType(auth: AuthType)
      modifies this
      ensures AllSettings() == old(AllSettings())[Auth := AuthIs(auth)]
    {
      authType := Given(auth);
    }

    /** `SetLogLevel`; UNKNOWN is no level here. */
    method SetLogLevel(level: LogLevel)
      modifies this
      ensures AllSettings() == old(AllSettings())[LogLevelKey := LevelIs(level)]
    {
      logLevel := Given(level);
    }

    /** `AddToMap` for one attribute. */
    method AddToMap(res: map<Key, string>, k: Key) returns (r: map<Key, string>)
      ensures r == if Get(k).Some? then res[k := Show(Get(k).value)] else res
    {
      r := res;
      if Get(k).Some? {
        r := r[k := Show(Get(k).value)];
      }
    }

    /** `ToMap` */
    method ToMap() returns (res: map<Key, string>)
      ensures res == Arguments(AllSettings())
    {
      hide Get, Show;
      res := map[];
      for i := 0 to |KEYS|
        invariant res == map k | k in KEYS[..i] && Get(k).Some? :: Show(Get(k).value)
      {
        res := AddToMap(res, KEYS[i]);
      }
      EveryKey();
      assert KEYS[..|KEYS|] == KEYS;
      assert forall k :: k in res <==> k in KEYS && Get(k).Some?;
      assert forall k :: k in AllSettings() <==> k in KEYS && Get(k).Some?;
    }

    /** `ToConnectString` */
    method ToConnectString() returns (s: string)
      ensures s == ConnectString(AllSettings())
    {
      hide Get, Entry;
      var arguments := ToMap();
      s := "";
      for i := 0 to |KEYS|
        invariant s == Entries(arguments, KEYS[..i])
      {
        EntriesPlus(arguments, KEYS[..i], KEYS[i]);
        assert KEYS[..i + 1] == KEYS[..i] + [KEYS[i]];
        if KEYS[i] in arguments {
          s := s + Entry(KEYS[i], arguments[KEYS[i]]);
        }
      }
      assert KEYS[..|KEYS|] == KEYS;
    }
  }

  function Rank(k: Key): (i: nat)
    ensures i < |KEYS| && KEYS[i] == k
  {
    match k
    case Auth => 0
    case Driver => 1
    case Dsn => 2
    case Endpoint => 3
    case LogLevelKey => 4
    case LogPath => 5
    case MaxRetryCount => 6
    case MaxRowPerPage => 7
    case ProfileName => 8
    case Pwd => 9
    case ReqTimeout => 10
    case Uid => 11
  }

  /** Every attribute is listed, and once. */
  lemma EveryKey()
    ensures forall k: Key :: k in KEYS
    ensures forall i, j | 0 <= i < |KEYS| && 0 <= j < |KEYS| && KEYS[i] == KEYS[j] :: i == j
  {
    forall k: Key ensures k in KEYS {
      assert KEYS[Rank(k)] == k;
    }
    forall i | 0 <= i < |KEYS| ensures Rank(KEYS[i]) == i {
    }
  }

  /** Lexicographic order, the order of the argument map. */
  predicate Before(s: string, t: string)
    decreases s
  {
    t != "" && (s == "" || s[0] < t[0] || (s[0] == t[0] && Before(s[1..], t[1..])))
  }

  /** The attributes are listed in the order in which the argument map yields them. */
  lemma NamesInOrder(i: nat)
    requires i + 1 < |KEYS|
    ensures Before(KeyName(KEYS[i]), KeyName(KEYS[i + 1]))
  {
    if i < 6 { FirstNames(i); } else { LastNames(i); }
  }

  lemma FirstNames(i: nat)
    requires i < 6
    ensures Before(KeyName(KEYS[i]), KeyName(KEYS[i + 1]))
  {
    assert Before("auth", "driver") && Before("driver", "dsn") && Before("dsn", "endpointoverride");
    assert Before("endpointoverride", "loglevel") && Before("loglevel", "logoutput");
    assert Before("logoutput", "maxretrycountclient");
  }

  lemma LastNames(i: nat)
    requires 6 <= i < 11
    ensures Before(KeyName(KEYS[i]), KeyName(KEYS[i + 1]))
  {
    assert Before("maxretrycountclient", "maxrowperpage");
    assert Before("maxrowperpage", "profilename") && Before("profilename", "pwd");
    assert Before("pwd", "requesttimeout") && Before("requesttimeout", "uid");
  }
}
