/**
 What the connection string parser computes: the segments between the delimiters are handled from
 right to left, each as one `key=value` pair.
 */
module ConnectionStrings {
  import opened Options
  import opened Decimals
  import opened AppBuffers
  import opened ConfigText
  import opened Configurations

  datatype Reason = IsEmpty | NotDigits | TooLarge | OutOfRange | NotSupported | Rewritten | Unknown

  /** A diagnostic record: the reason and the attribute as it was written. */
  datatype Warning = Warning(reason: Reason, key: string)

  datatype Parsed = Parsed(settings: Settings, warnings: seq<Warning>)

  // ---- One attribute. ----

  function KeyOf(name: string): Option<Key> {
    if name == "dsn" then Some(Dsn)
    else if name == "profilename" then Some(ProfileName)
    else if name == "requesttimeout" then Some(ReqTimeout)
    else if name == "maxretrycountclient" then Some(MaxRetryCount)
    else if name == "endpointoverride" then Some(Endpoint)
    else if name == "auth" then Some(Auth)
    else if name == "loglevel" then Some(LogLevelKey)
    else if name == "logoutput" then Some(LogPath)
    else if name == "driver" then Some(Driver)
    else if name == "uid" then Some(Uid)
    else if name == "pwd" then Some(Pwd)
    else if name == "maxrowperpage" then Some(MaxRowPerPage)
    else None
  }

  /** The longest number is one character shorter than `sizeof(std::string)`. */
  const NUMBER_SIZE: nat := 32
  const UINT32_MAX: int := 0xFFFF_FFFF

  function NumberFault(value: string, least: int): Option<Reason> {
    if value == "" then Some(IsEmpty)
    else if !AllDigits(value) then Some(NotDigits)
    else if |value| >= NUMBER_SIZE then Some(TooLarge)
    else if ReadNumber(value) < least || ReadNumber(value) > UINT32_MAX then Some(OutOfRange)
    else None
  }

  /** The cast to `int32_t`. */
  function Wrap32(n: int): (r: int)
    requires 0 <= n <= UINT32_MAX
    ensures -0x8000_0000 <= r < 0x8000_0000
  {
    if n < 0x8000_0000 then n else n - 0x1_0000_0000
  }

  function Least(k: Key): int {
    if k.ReqTimeout? then 1 else 0
  }

  function AuthOf(name: string): Option<AuthType> {
    if name == "password" then Some(Password)
    else if name == "oauth2" then Some(OAuth2)
    else if name == "kerberos" then Some(Kerberos)
    else if name == "certificate" then Some(Certificate)
    else if name == "jwt" then Some(Jwt)
    else if name == "header" then Some(Header)
    else None
  }

  function LevelOf(name: string): Option<LogLevel> {
    if name == "4" then Some(DebugLevel)
    else if name == "3" then Some(InfoLevel)
    else if name == "2" then Some(WarningLevel)
    else if name == "1" then Some(ErrorLevel)
    else if name == "0" then Some(Off)
    else None
  }

  /** The setting a value stands for; nothing when the value is ignored. */
  function Accept(k: Key, value: string, isDirectory: string -> bool): (v: Option<Setting>)
    ensures v.Some? ==> Typed(k, v.value)
  {
    if IsNumberKey(k) then
      if NumberFault(value, Least(k)).Some? then None else Some(Number(Wrap32(ReadNumber(value))))
    else match k
      case Auth => if AuthOf(Trim(ToLower(value))).Some? then Some(AuthIs(AuthOf(Trim(ToLower(value))).value)) else None
      case LogLevelKey => if LevelOf(Trim(value)).Some? then Some(LevelIs(LevelOf(Trim(value)).value)) else None
      case LogPath => if value != "" && isDirectory(value) then Some(Text(value)) else None
      case _ => Some(Text(value))
  }

  /** The diagnostic record a value of a known attribute causes. */
  function Complaint(k: Key, value: string, settings: Settings): Option<Reason> {
    if IsNumberKey(k) then NumberFault(value, Least(k))
    else match k
      case Auth => if AuthOf(Trim(ToLower(value))).None? then Some(NotSupported) else None
      case LogLevelKey => if LevelOf(Trim(value)).None? then Some(NotSupported) else None
      case Uid => if Uid in settings && settings[Uid] != Text("") then Some(Rewritten) else None
      case Pwd => if Pwd in settings && settings[Pwd] != Text("") then Some(Rewritten) else None
      case _ => None
  }

  /** `HandleAttributePair` */
  function HandlePair(p: Parsed, key: string, value: string, isDirectory: string -> bool): Parsed {
    var k := KeyOf(ToLower(key));
    if k.None? then p.(warnings := p.warnings + [Warning(Unknown, key)])
    else
      var complaint := Complaint(k.value, value, p.settings);
      var accepted := Accept(k.value, value, isDirectory);
      Parsed(if accepted.Some? then p.settings[k.value := accepted.value] else p.settings,
             if complaint.Some? then p.warnings + [Warning(complaint.value, key)] else p.warnings)
  }

  // ---- The segments. ----

  /** The pair a segment stands for: split at its last '=', unless that is its first character. */
  function Pair(segment: string): Option<(string, string)> {
    var eq := RFind(segment, '=');
    if eq <= 0 then None else Some((Trim(segment[..eq]), Unbrace(Trim(segment[eq + 1..]))))
  }

  function Handle(p: Parsed, segment: string, isDirectory: string -> bool): Parsed {
    var pair := Pair(segment);
    if pair.None? then p else HandlePair(p, pair.value.0, pair.value.1, isDirectory)
  }

  /** All segments, the last one first. */
  function FoldRight(p: Parsed, segments: seq<string>, isDirectory: string -> bool): Parsed
    decreases |segments|
  {
    if segments == [] then p
    else FoldRight(Handle(p, segments[|segments| - 1], isDirectory), segments[..|segments| - 1], isDirectory)
  }

  /** The text without the NULs at its end. */
  function StripNuls(s: string): (r: string)
    ensures r <= s
  {
    if s != "" && s[|s| - 1] == NUL then StripNuls(s[..|s| - 1]) else s
  }

  /** `ParseConnectionString` */
  function Parse(p: Parsed, s: string, delimiter: char, isDirectory: string -> bool): Parsed {
    FoldRight(p, Split(StripNuls(s), delimiter), isDirectory)
  }

  /** What is left of the text after the last segment has been handled and erased. */
  lemma EraseLast(p: Parsed, s: string, delimiter: char, isDirectory: string -> bool)
    ensures var d := RFind(s, delimiter);
      FoldRight(p, Split(s, delimiter), isDirectory) ==
        if d < 0 then Handle(p, s, isDirectory)
        else FoldRight(Handle(p, s[d + 1..], isDirectory), Split(s[..d], delimiter), isDirectory)
  {
    hide Handle;
    SplitLast(s, delimiter);
    var d := RFind(s, delimiter);
    if d < 0 {
      assert [s][..0] == [];
    } else {
      var parts := Split(s[..d], delimiter);
      assert (parts + [s[d + 1..]])[..|parts|] == parts;
    }
  }

  lemma NothingLeft(p: Parsed, delimiter: char, isDirectory: string -> bool)
    ensures FoldRight(p, Split("", delimiter), isDirectory) == p
  {
    assert [""][..0] == [];
    assert Pair("").None?;
  }

  /** The last '=' of the whole text and the last '=' of its last segment. */
  lemma EqualsInSegment(s: string, begin: nat)
    requires begin <= |s|
    ensures var eq := if RFind(s, '=') < 0 then 0 else RFind(s, '=');
      if begin < eq then RFind(s[begin..], '=') == eq - begin else RFind(s[begin..], '=') <= 0
  {
    hide RFind;
    var eq, tail := RFind(s, '='), s[begin..];
    if begin < eq {
      forall j | eq - begin < j < |tail| ensures tail[j] != '=' {
        assert tail[j] == s[begin + j];
      }
      RFindIs(tail, '=', eq - begin);
    } else {
      forall j | 0 < j < |tail| ensures tail[j] != '=' {
        assert tail[j] == s[begin + j];
      }
      AtMostFirst(tail);
    }
  }

  lemma AtMostFirst(s: string)
    requires forall j | 0 < j < |s| :: s[j] != '='
    ensures RFind(s, '=') <= 0
  {
    hide RFind;
  }

  // ---- Which occurrence wins. ----

  /** What a segment says about attribute `k`. */
  function Says(segment: string, k: Key, isDirectory: string -> bool): Option<Setting> {
    var pair := Pair(segment);
    if pair.Some? && KeyOf(ToLower(pair.value.0)) == Some(k) then Accept(k, pair.value.1, isDirectory) else None
  }

  /** The leftmost segment that says something about `k`. */
  function Leftmost(segments: seq<string>, k: Key, isDirectory: string -> bool): Option<Setting> {
    if segments == [] then None
    else if Says(segments[0], k, isDirectory).Some? then Says(segments[0], k, isDirectory)
    else Leftmost(segments[1..], k, isDirectory)
  }

  function Lookup(settings: Settings, k: Key): Option<Setting> {
    if k in settings then Some(settings[k]) else None
  }

  lemma HandleSays(p: Parsed, segment: string, k: Key, isDirectory: string -> bool)
    ensures Lookup(Handle(p, segment, isDirectory).settings, k) ==
      if Says(segment, k, isDirectory).Some? then Says(segment, k, isDirectory) else Lookup(p.settings, k)
  {
    hide KeyOf, Accept, Pair, Complaint, ToLower;
  }

  lemma {:induction false} LeftmostAppend(segments: seq<string>, segment: string, k: Key, isDirectory: string -> bool)
    ensures Leftmost(segments + [segment], k, isDirectory) ==
      if Leftmost(segments, k, isDirectory).Some? then Leftmost(segments, k, isDirectory) else Says(segment, k, isDirectory)
    decreases segments
  {
    hide Says;
    var all := segments + [segment];
    if segments == [] {
      assert all == [segment] && Leftmost(all[1..], k, isDirectory).None?;
    } else {
      assert all[0] == segments[0] && all[1..] == segments[1..] + [segment];
      LeftmostAppend(segments[1..], segment, k, isDirectory);
    }
  }

  /**
   Each attribute ends up with what the leftmost segment says that gives it a value that is accepted: for text
   attributes the leftmost occurrence, for numbers the leftmost valid one. Otherwise it stays as it was.
   */
  lemma {:induction false} LeftmostWins(p: Parsed, segments: seq<string>, k: Key, isDirectory: string -> bool)
    ensures Lookup(FoldRight(p, segments, isDirectory).settings, k) ==
      if Leftmost(segments, k, isDirectory).Some? then Leftmost(segments, k, isDirectory) else Lookup(p.settings, k)
    decreases |segments|
  {
    hide Says, Handle;
    if segments != [] {
      var init, last := segments[..|segments| - 1], segments[|segments| - 1];
      assert segments == init + [last];
      HandleSays(p, last, k, isDirectory);
      LeftmostAppend(init, last, k, isDirectory);
      LeftmostWins(Handle(p, last, isDirectory), init, k, isDirectory);
    }
  }

  /** A text attribute accepts every value, but for a log path that is no directory. */
  lemma TextSays(segment: string, k: Key, isDirectory: string -> bool)
    requires IsTextKey(k)
    ensures var pair := Pair(segment);
      Says(segment, k, isDirectory) ==
        if && pair.Some? && KeyOf(ToLower(pair.value.0)) == Some(k)
           && (k.LogPath? ==> pair.value.1 != "" && isDirectory(pair.value.1))
        then Some(Text(pair.value.1)) else None
  {
    hide KeyOf, Pair, ToLower;
  }
}
