/** The round trip of the connection string: exactly which settings survive printing and parsing. */
module ConnectRoundTrip {
  import opened Options
  import opened Decimals
  import opened AppBuffers
  import opened ConfigText
  import opened Configurations
  import opened ConnectionStrings
  import NumberReading

  const START: Parsed := Parsed(map[], [])

  /** The settings that are printed at all. */
  function NonEmpty(s: Settings): Settings {
    map k | k in s && Show(s[k]) != "" :: s[k]
  }

  /** No delimiter and no '=' in any printed text. */
  predicate Clean(v: Setting) {
    v.Text? ==> ';' !in v.text && '=' !in v.text
  }

  /**
   What can be read back: a text without ';' and '=' that is either braced by its spaces or has neither white
   space at its ends nor braces of its own; a log path that is a directory; a number that is not negative (and
   not zero for the request timeout).
   */
  predicate Restorable(k: Key, v: Setting, isDirectory: string -> bool) {
    match v
    case Text(t) => Clean(v) && (' ' in t || (Trimmed(t) && !Braced(t))) && (k.LogPath? ==> isDirectory(t))
    case Number(n) => n >= 0 && (k.ReqTimeout? ==> n > 0)
    case _ => true
  }

  // ---- Names. ----

  predicate PlainName(name: string) {
    && name != "" && Trim(name) == name && ToLower(name) == name
    && ';' !in name && '=' !in name
  }

  predicate Low(ch: char) {
    'a' <= ch <= 'z' || '0' <= ch <= '9'
  }

  lemma LowerName(name: string)
    requires name != "" && forall ch | ch in name :: Low(ch)
    ensures PlainName(name)
    ensures ' ' !in name && !Braced(name)
  {
    TrimmedIff(name);
    assert name[0] in name && name[|name| - 1] in name;
    forall i | 0 <= i < |name| ensures ToLower(name)[i] == name[i] {
      assert name[i] in name;
    }
  }

  lemma KeyNamesPlain(k: Key)
    ensures PlainName(KeyName(k))
  {
    hide PlainName, ToLower, Trim;
    match k
    case Auth => LowerName("auth");
    case Driver => LowerName("driver");
    case Dsn => LowerName("dsn");
    case Endpoint => LowerName("endpointoverride");
    case LogLevelKey => LowerName("loglevel");
    case LogPath => LowerName("logoutput");
    case MaxRetryCount => LowerName("maxretrycountclient");
    case MaxRowPerPage => LowerName("maxrowperpage");
    case ProfileName => LowerName("profilename");
    case Pwd => LowerName("pwd");
    case ReqTimeout => LowerName("requesttimeout");
    case Uid => LowerName("uid");
  }

  lemma KeyOfName(k: Key)
    ensures KeyOf(KeyName(k)) == Some(k)
  {
  }

  // ---- One attribute. ----

  function Segment(k: Key, value: string): string {
    KeyName(k) + "=" + Quote(value)
  }

  lemma SegmentPair(k: Key, value: string)
    requires '=' !in value
    ensures Pair(Segment(k, value)) == Some((KeyName(k), Unbrace(Trim(Quote(value)))))
  {
    hide RFind, KeyName, Trim, Unbrace, ToLower;
    KeyNamesPlain(k);
    var s, n := Segment(k, value), |KeyName(k)|;
    assert s[n] == '=' && s[..n] == KeyName(k) && s[n + 1..] == Quote(value);
    forall j | n < j < |s| ensures s[j] != '=' {
      assert s[j] == Quote(value)[j - n - 1] && Quote(value)[j - n - 1] in Quote(value);
      QuoteAdds(value, '=');
    }
    RFindIs(s, '=', n);
  }

  lemma QuoteAdds(value: string, ch: char)
    requires ch != '{' && ch != '}'
    ensures ch in Quote(value) <==> ch in value
  {
  }

  /** What is read of a printed value. */
  function ReadBack(value: string): string {
    Unbrace(Trim(Quote(value)))
  }

  lemma ReadBackIff(value: string)
    requires value != ""
    ensures ReadBack(value) == value <==> ' ' in value || (Trimmed(value) && !Braced(value))
  {
    hide Trim;
    TrimmedIff(Quote(value));
    if ' ' in value {
      assert Unbrace(Quote(value)) == value;
    }
  }

  lemma NumberBack(k: Key, n: int, isDirectory: string -> bool)
    requires Typed(k, Number(n))
    ensures ReadBack(Print(n)) == Print(n)
    ensures Accept(k, Print(n), isDirectory) == Some(Number(n)) <==> Restorable(k, Number(n), isDirectory)
    ensures Restorable(k, Number(n), isDirectory) ==> NumberFault(Print(n), Least(k)).None?
  {
    hide Digits, Value, Trim;
    PrintShape(n);
    ReadBackIff(Print(n));
    if n >= 0 { NaturalBack(n); } else { NegativeBack(n); }
  }

  lemma PrintShape(n: int)
    ensures Print(n) != "" && ' ' !in Print(n) && Trimmed(Print(n)) && !Braced(Print(n))
    ensures ';' !in Print(n) && '=' !in Print(n)
  {
    hide Digits;
    var digits := Digits(if n < 0 then -n else n);
    assert forall i | 0 <= i < |digits| :: IsDigit(digits[i]);
  }

  lemma NegativeBack(n: int)
    requires n < 0
    ensures !AllDigits(Print(n))
  {
    assert Print(n)[0] == '-';
  }

  lemma NaturalBack(n: nat)
    requires n < 0x8000_0000
    ensures AllDigits(Print(n)) && |Print(n)| < NUMBER_SIZE && ReadNumber(Print(n)) == n
  {
    hide Digits, Value, ReadNumber;
    TenDigits(n);
    NumberReading.ReadsPrinted("", n, "");
    assert "" + (Print(n) + "") == Print(n);
  }

  lemma TenDigits(n: nat)
    requires n < 0x8000_0000
    ensures |Digits(n)| <= 10
  {
    hide Digits;
    assert Pow10(5) == 100000;
    assert Pow10(10) == 100_0000_0000;
    DigitsLength(n, 10);
  }

  lemma AuthBack(a: AuthType)
    ensures ReadBack(AuthName(a)) == AuthName(a) && AuthOf(Trim(ToLower(AuthName(a)))) == Some(a)
    ensures AuthName(a) != "" && '=' !in AuthName(a) && ';' !in AuthName(a)
  {
    hide ToLower, Trim, AuthOf;
    AuthNamesPlain(a);
    AuthOfName(a);
  }

  lemma AuthOfName(a: AuthType)
    ensures AuthOf(AuthName(a)) == Some(a)
  {
  }

  lemma AuthNamesPlain(a: AuthType)
    ensures PlainName(AuthName(a)) && ' ' !in AuthName(a) && !Braced(AuthName(a))
  {
    hide PlainName, ToLower, Trim;
    match a
    case Password => LowerName("password");
    case OAuth2 => LowerName("oauth2");
    case Kerberos => LowerName("kerberos");
    case Certificate => LowerName("certificate");
    case Jwt => LowerName("jwt");
    case Header => LowerName("header");
  }

  lemma LevelBack(l: LogLevel)
    ensures ReadBack(LevelName(l)) == LevelName(l) && LevelOf(Trim(LevelName(l))) == Some(l)
    ensures LevelName(l) != "" && '=' !in LevelName(l) && ';' !in LevelName(l)
  {
  }

  /** A printed value is accepted as the setting it was printed from exactly when that is restorable. */
  lemma FieldBackIff(k: Key, v: Setting, isDirectory: string -> bool)
    requires Typed(k, v) && Clean(v) && Show(v) != ""
    ensures Accept(k, ReadBack(Show(v)), isDirectory) == Some(v) <==> Restorable(k, v, isDirectory)
    ensures Restorable(k, v, isDirectory) ==>
      forall settings: Settings | k !in settings :: Complaint(k, ReadBack(Show(v)), settings).None?
    ensures ';' !in Show(v) && '=' !in Show(v)
  {
    hide ReadBack, ReadNumber, Print, AuthOf, LevelOf, AuthName, LevelName, Trim, ToLower, NumberFault;
    match v
    case Text(t) => ReadBackIff(t);
    case Number(n) => NumberBack(k, n, isDirectory); PrintShape(n);
    case AuthIs(a) => AuthBack(a);
    case LevelIs(l) => LevelBack(l);
  }

  // ---- The whole string. ----

  /** The segments of the connection string. */
  function Segments(arguments: map<Key, string>, keys: seq<Key>): seq<string> {
    if keys == [] then []
    else (if keys[0] in arguments && arguments[keys[0]] != "" then [Segment(keys[0], arguments[keys[0]])] else [])
         + Segments(arguments, keys[1..])
  }

  predicate Free(arguments: map<Key, string>, ch: char) {
    forall k | k in arguments :: ch !in arguments[k]
  }

  lemma SegmentFree(k: Key, value: string)
    requires ';' !in value
    ensures ';' !in Segment(k, value)
    ensures value != "" ==> Entry(k, value) == Segment(k, value) + [';']
  {
    hide KeyName, Quote, PlainName;
    KeyNamesPlain(k);
    QuoteAdds(value, ';');
    assert ';' !in KeyName(k) by { NoDelimiter(k); }
  }

  lemma NoDelimiter(k: Key)
    ensures ';' !in KeyName(k)
  {
    hide KeyName, Trim, ToLower;
    KeyNamesPlain(k);
  }

  lemma {:induction false} EntriesSplit(arguments: map<Key, string>, keys: seq<Key>)
    requires Free(arguments, ';')
    ensures Split(Entries(arguments, keys), ';') == Segments(arguments, keys) + [""]
    decreases keys
  {
    hide Entry, Segment, SplitFrom;
    if keys == [] {
      SplitOne("", ';', "");
      assert "" + "" == "" && Entries(arguments, keys) == "";
    } else {
      var k, rest := keys[0], Entries(arguments, keys[1..]);
      EntriesSplit(arguments, keys[1..]);
      if k in arguments && arguments[k] != "" {
        SegmentFree(k, arguments[k]);
        var segment := Segment(k, arguments[k]);
        SplitFirst(segment, ';', rest);
      } else {
        NoEntry(k);
        assert "" + rest == rest;
      }
    }
  }

  lemma NoEntry(k: Key)
    ensures Entry(k, "") == ""
  {
  }

  lemma SegmentSays(at: Key, value: string, k: Key, isDirectory: string -> bool)
    requires '=' !in value
    ensures Says(Segment(at, value), k, isDirectory) == if at == k then Accept(k, ReadBack(value), isDirectory) else None
  {
    hide KeyName, KeyOf, Accept, Pair, Quote, Trim, ToLower;
    SegmentPair(at, value);
    KeyNamesPlain(at);
    KeyOfName(at);
  }

  predicate Distinct(keys: seq<Key>) {
    forall i, j | 0 <= i < |keys| && 0 <= j < |keys| && keys[i] == keys[j] :: i == j
  }

  lemma {:induction false} LeftmostSegment(arguments: map<Key, string>, keys: seq<Key>, k: Key, isDirectory: string -> bool)
    requires Free(arguments, '=') && Distinct(keys)
    ensures Leftmost(Segments(arguments, keys), k, isDirectory) ==
      if k in keys && k in arguments && arguments[k] != "" then Accept(k, ReadBack(arguments[k]), isDirectory) else None
    decreases keys
  {
    hide Says, Accept, ReadBack, Segment;
    if keys != [] {
      var at := keys[0];
      assert forall i | 0 < i < |keys| :: keys[i] != at;
      LeftmostSegment(arguments, keys[1..], k, isDirectory);
      if at in arguments && arguments[at] != "" {
        SegmentSays(at, arguments[at], k, isDirectory);
        var all := Segments(arguments, keys);
        assert all[0] == Segment(at, arguments[at]) && all[1..] == Segments(arguments, keys[1..]);
      } else {
        assert Segments(arguments, keys) == Segments(arguments, keys[1..]);
      }
      assert k in keys <==> k == at || k in keys[1..];
    }
  }

  predicate AllClean(s: Settings) {
    forall k | k in s && Show(s[k]) != "" :: Clean(s[k])
  }

  /** With clean texts every attribute is read on its own. */
  lemma CleanBack(s: Settings, k: Key, isDirectory: string -> bool)
    requires AllTyped(s) && AllClean(s)
    ensures Lookup(Parse(START, ConnectString(s), ';', isDirectory).settings, k) ==
      if k in NonEmpty(s) then Accept(k, ReadBack(Show(s[k])), isDirectory) else None
  {
    hide ReadBack, Accept, Show, Entries, Segments, FoldRight, Split, Typed, Clean;
    var arguments := Arguments(s);
    FreeArguments(s, isDirectory);
    EveryKey();
    WholeString(s, isDirectory);
    LeftmostWins(START, Segments(arguments, KEYS), k, isDirectory);
    LeftmostSegment(arguments, KEYS, k, isDirectory);
  }

  lemma FreeArguments(s: Settings, isDirectory: string -> bool)
    requires AllTyped(s) && AllClean(s)
    ensures Free(Arguments(s), ';') && Free(Arguments(s), '=')
  {
    hide Show, Typed, Clean;
    forall k | k in s ensures ';' !in Show(s[k]) && '=' !in Show(s[k]) {
      if Show(s[k]) != "" { FieldBackIff(k, s[k], isDirectory); }
    }
  }

  /** The parser handles the printed segments and nothing else. */
  lemma WholeString(s: Settings, isDirectory: string -> bool)
    requires Free(Arguments(s), ';')
    ensures Parse(START, ConnectString(s), ';', isDirectory) ==
      FoldRight(START, Segments(Arguments(s), KEYS), isDirectory)
  {
    hide Show, Segments, Split, Handle;
    var text, segments := ConnectString(s), Segments(Arguments(s), KEYS);
    NoNulAtEnd(Arguments(s), KEYS);
    EntriesSplit(Arguments(s), KEYS);
    assert (segments + [""])[..|segments|] == segments;
    EmptySegment(START, isDirectory);
  }

  lemma EmptySegment(p: Parsed, isDirectory: string -> bool)
    ensures Handle(p, "", isDirectory) == p
  {
    assert Pair("").None?;
  }

  lemma {:induction false} NoNulAtEnd(arguments: map<Key, string>, keys: seq<Key>)
    ensures var s := Entries(arguments, keys); s == "" || s[|s| - 1] == ';'
    ensures StripNuls(Entries(arguments, keys)) == Entries(arguments, keys)
    decreases keys
  {
    hide KeyName, Quote;
    if keys != [] { NoNulAtEnd(arguments, keys[1..]); }
  }

  // ---- Nothing unclean is ever read. ----

  lemma PairIsClean(segment: string)
    requires Pair(segment).Some? && ';' !in segment
    ensures ';' !in Pair(segment).value.1 && '=' !in Pair(segment).value.1
  {
    hide RFind, Trim;
    var eq := RFind(segment, '=');
    var value := segment[eq + 1..];
    assert forall i | 0 <= i < |value| :: value[i] == segment[eq + 1 + i];
    assert '=' !in value && ';' !in value;
    TrimmedIff(value);
    assert '=' !in Trim(value) && ';' !in Trim(value);
  }

  lemma {:induction false} LeftmostIsClean(segments: seq<string>, k: Key, isDirectory: string -> bool)
    requires forall x | x in segments :: ';' !in x
    ensures Leftmost(segments, k, isDirectory).Some? ==> Clean(Leftmost(segments, k, isDirectory).value)
    decreases segments
  {
    hide Pair, KeyOf, ToLower;
    if segments != [] {
      assert segments[0] in segments;
      if Pair(segments[0]).Some? { PairIsClean(segments[0]); }
      LeftmostIsClean(segments[1..], k, isDirectory);
    }
  }

  lemma ReadIsClean(text: string, k: Key, isDirectory: string -> bool)
    ensures var r := Lookup(Parse(START, text, ';', isDirectory).settings, k); r.Some? ==> Clean(r.value)
  {
    hide FoldRight, Leftmost, Clean;
    var segments := Split(StripNuls(text), ';');
    PartsAreFree(StripNuls(text), ';', "");
    LeftmostWins(START, segments, k, isDirectory);
    LeftmostIsClean(segments, k, isDirectory);
  }

  // ---- The theorem. ----

  predicate AllRestorable(s: Settings, isDirectory: string -> bool) {
    forall k | k in s && Show(s[k]) != "" :: Restorable(k, s[k], isDirectory)
  }

  /**
   Parsing the connection string of a configuration restores every non-empty attribute, and no other, exactly
   when all of them are restorable.
   */
  lemma RoundTripIff(s: Settings, isDirectory: string -> bool)
    requires AllTyped(s)
    ensures Parse(START, ConnectString(s), ';', isDirectory).settings == NonEmpty(s) <==> AllRestorable(s, isDirectory)
  {
    hide Parse, ConnectString, Show, Accept, ReadBack, Clean, Typed, Restorable;
    var back := Parse(START, ConnectString(s), ';', isDirectory).settings;
    if AllClean(s) {
      forall k | k in s && Show(s[k]) != ""
        ensures Lookup(back, k) == Some(s[k]) <==> Restorable(k, s[k], isDirectory)
      {
        CleanBack(s, k, isDirectory);
        FieldBackIff(k, s[k], isDirectory);
      }
      forall k ensures k !in NonEmpty(s) ==> k !in back {
        CleanBack(s, k, isDirectory);
      }
      forall k | k in NonEmpty(s) ensures Lookup(back, k) == Some(s[k]) <==> (k in back && back[k] == NonEmpty(s)[k]) {
      }
    } else {
      var k :| k in s && Show(s[k]) != "" && !Clean(s[k]);
      ReadIsClean(ConnectString(s), k, isDirectory);
      NotRestorable(k, s[k], isDirectory);
      assert Lookup(back, k) != Some(s[k]);
      assert k in NonEmpty(s);
    }
  }

  lemma NotRestorable(k: Key, v: Setting, isDirectory: string -> bool)
    requires !Clean(v)
    ensures !Restorable(k, v, isDirectory)
  {
  }

  // ---- Nor does the parser complain. ----

  lemma {:induction false} SegmentsAppend(arguments: map<Key, string>, keys: seq<Key>, k: Key)
    ensures Segments(arguments, keys + [k]) ==
      Segments(arguments, keys) + if k in arguments && arguments[k] != "" then [Segment(k, arguments[k])] else []
    decreases keys
  {
    hide Segment;
    if keys == [] {
      assert keys + [k] == [k];
      assert Segments(arguments, [k][1..]) == [];
    } else {
      assert (keys + [k])[1..] == keys[1..] + [k];
      SegmentsAppend(arguments, keys[1..], k);
    }
  }

  lemma HandleRestorable(p: Parsed, k: Key, v: Setting, isDirectory: string -> bool)
    requires Typed(k, v) && Show(v) != "" && Restorable(k, v, isDirectory) && k !in p.settings
    ensures Handle(p, Segment(k, Show(v)), isDirectory) == p.(settings := p.settings[k := v])
  {
    hide Show, KeyName, KeyOf, Accept, Complaint, Quote, Trim, ToLower, Pair, Unbrace;
    FieldBackIff(k, v, isDirectory);
    SegmentPair(k, Show(v));
    KeyNamesPlain(k);
    KeyOfName(k);
  }

  lemma {:induction false} QuietFold(p: Parsed, s: Settings, keys: seq<Key>, isDirectory: string -> bool)
    requires AllTyped(s) && AllRestorable(s, isDirectory) && Distinct(keys)
    requires forall k | k in keys :: k !in p.settings
    ensures FoldRight(p, Segments(Arguments(s), keys), isDirectory).warnings == p.warnings
    decreases |keys|
  {
    hide Typed, Show, Restorable, Segment, Handle, Segments;
    if keys == [] {
      NoSegments(Arguments(s));
    } else {
      var init, k := keys[..|keys| - 1], keys[|keys| - 1];
      assert keys == init + [k];
      SegmentsAppend(Arguments(s), init, k);
      if k in s && Show(s[k]) != "" {
        HandleRestorable(p, k, s[k], isDirectory);
        var segments := Segments(Arguments(s), init);
        assert (segments + [Segment(k, Show(s[k]))])[..|segments|] == segments;
        QuietFold(p.(settings := p.settings[k := s[k]]), s, init, isDirectory);
      } else {
        assert Segments(Arguments(s), init) + [] == Segments(Arguments(s), init);
        QuietFold(p, s, init, isDirectory);
      }
    }
  }

  lemma NoSegments(arguments: map<Key, string>)
    ensures Segments(arguments, []) == []
  {
  }

  /** A restorable configuration is read back without a single diagnostic record. */
  lemma RoundTripIsQuiet(s: Settings, isDirectory: string -> bool)
    requires AllTyped(s) && AllRestorable(s, isDirectory)
    ensures Parse(START, ConnectString(s), ';', isDirectory) == Parsed(NonEmpty(s), [])
  {
    hide Parse, ConnectString, Show, Segments, FoldRight, Typed, Restorable;
    RoundTripIff(s, isDirectory);
    CleanWhenRestorable(s, isDirectory);
    FreeArguments(s, isDirectory);
    WholeString(s, isDirectory);
    EveryKey();
    QuietFold(START, s, KEYS, isDirectory);
  }

  lemma CleanWhenRestorable(s: Settings, isDirectory: string -> bool)
    requires AllRestorable(s, isDirectory)
    ensures AllClean(s)
  {
    hide Show;
  }

  /**
   A text with a delimiter or a '=' never survives, not even when a space in it makes the printer add the
   braces that are meant to protect it.
   */
  lemma DelimiterNeverSurvives(s: Settings, k: Key, isDirectory: string -> bool)
    requires k in s && s[k].Text? && (';' in s[k].text || '=' in s[k].text)
    ensures Lookup(Parse(START, ConnectString(s), ';', isDirectory).settings, k) != Some(s[k])
  {
    hide Parse, ConnectString;
    ReadIsClean(ConnectString(s), k, isDirectory);
  }
}
