/**
 Which values of which attributes a connection string sets: letter case of keywords and of authentication
 types does not matter, and numbers are read by their digits.
 */
module AttributeCase {
  import opened Options
  import opened Decimals
  import opened AppBuffers
  import opened LetterCase
  import opened ConfigText
  import opened Configurations
  import opened ConnectionStrings
  import opened ConnectRoundTrip
  import NumberReading

  // ---- Names. ----

  lemma KeyOfIs(name: string, k: Key)
    ensures KeyOf(name) == Some(k) <==> name == KeyName(k)
  {
    hide KeyName;
    KeyOfName(k);
    if KeyOf(name) == Some(k) { NameOfKey(name); }
  }

  lemma NameOfKey(name: string)
    requires KeyOf(name).Some?
    ensures name == KeyName(KeyOf(name).value)
  {
  }

  /** A keyword is recognised exactly when it is the attribute's name up to letter case. */
  lemma KeywordIff(keyword: string, k: Key)
    ensures KeyOf(ToLower(keyword)) == Some(k) <==> SameLetters(keyword, KeyName(k))
  {
    hide KeyOf, KeyName, ToLower, SameLetters;
    KeyOfIs(ToLower(keyword), k);
    KeyNamesPlain(k);
    SameLowerIff(keyword, KeyName(k));
  }

  lemma AuthOfIs(name: string, a: AuthType)
    ensures AuthOf(name) == Some(a) <==> name == AuthName(a)
  {
    AuthOfName(a);
  }

  /** An authentication type is recognised exactly when it is its name up to letter case and white space around it. */
  lemma AuthIff(value: string, a: AuthType)
    ensures AuthOf(Trim(ToLower(value))) == Some(a) <==> SameLetters(Trim(value), AuthName(a))
  {
    hide AuthOf, AuthName, ToLower, Trim, SameLetters;
    AuthOfIs(Trim(ToLower(value)), a);
    AuthNamesPlain(a);
    LowerTrim(value);
    SameLowerIff(Trim(value), AuthName(a));
  }

  // ---- What one segment sets. ----

  /** A segment sets an attribute exactly when its keyword is the attribute's name up to letter case. */
  lemma SaysIff(segment: string, k: Key, isDirectory: string -> bool)
    ensures var pair := Pair(segment);
      Says(segment, k, isDirectory) ==
        if pair.Some? && SameLetters(pair.value.0, KeyName(k)) then Accept(k, pair.value.1, isDirectory) else None
  {
    hide KeyOf, KeyName, ToLower, SameLetters, Accept, Pair;
    if Pair(segment).Some? { KeywordIff(Pair(segment).value.0, k); }
  }

  /** An authentication type, a log level or a number is accepted exactly when it is one. */
  lemma AuthAccepted(value: string, a: AuthType, isDirectory: string -> bool)
    ensures Accept(Auth, value, isDirectory) == Some(AuthIs(a)) <==> SameLetters(Trim(value), AuthName(a))
  {
    hide AuthOf, AuthName, ToLower, Trim, SameLetters;
    AuthIff(value, a);
  }

  lemma LevelAccepted(value: string, l: LogLevel, isDirectory: string -> bool)
    ensures Accept(LogLevelKey, value, isDirectory) == Some(LevelIs(l)) <==> Trim(value) == LevelName(l)
  {
    hide Trim;
  }

  /**
   A number attribute accepts up to 31 digits whose value fits 32 bits without sign, a request timeout not zero;
   what is set is the value as a 32-bit integer with sign.
   */
  lemma NumberAccepted(k: Key, value: string, isDirectory: string -> bool)
    requires IsNumberKey(k)
    ensures Accept(k, value, isDirectory).Some? <==>
      && 0 < |value| <= 31 && AllDigits(value)
      && Value(value) < 0x1_0000_0000 && (k.ReqTimeout? ==> Value(value) > 0)
    ensures Accept(k, value, isDirectory).Some? && AllDigits(value) ==>
      && Accept(k, value, isDirectory).value.Number?
      && Accept(k, value, isDirectory).value.number ==
           if Value(value) < 0x8000_0000 then Value(value) else Value(value) - 0x1_0000_0000
  {
    hide ReadNumber, Value;
    if value != "" && AllDigits(value) {
      NumberReading.ReadsSigned("", "", value, "");
      assert "" + ("" + (value + "")) == value;
    }
  }

  // ---- Letter case does not matter. ----

  /** The same segment, but for the letter case of its keyword. */
  predicate SameButKeyword(s: string, t: string) {
    || s == t
    || (&& |s| == |t|
        && exists e | 0 <= e < |s| ::
             && s[e] == '=' && '=' !in s[e + 1..] && s[e..] == t[e..]
             && SameLetters(s[..e], t[..e]))
  }

  /** The same settings, and the same records but for the letter case of the attributes they name. */
  predicate Alike(p: Parsed, q: Parsed) {
    && p.settings == q.settings && |p.warnings| == |q.warnings|
    && forall i | 0 <= i < |p.warnings| ::
         p.warnings[i].reason == q.warnings[i].reason && SameLetters(p.warnings[i].key, q.warnings[i].key)
  }

  lemma Itself(s: string)
    ensures SameLetters(s, s)
  {
  }

  lemma TrimAlike(s: string, t: string)
    requires SameLetters(s, t)
    ensures SameLetters(Trim(s), Trim(t))
  {
    hide SameLetters, Trim, ToLower;
    SameLowerIff(s, t);
    LowerTrim(s);
    LowerTrim(t);
    SameLowerIff(Trim(s), Trim(t));
  }

  lemma PairAlike(s: string, t: string)
    requires SameButKeyword(s, t)
    ensures Pair(s).Some? == Pair(t).Some?
    ensures Pair(s).Some? ==> SameLetters(Pair(s).value.0, Pair(t).value.0) && Pair(s).value.1 == Pair(t).value.1
  {
    hide RFind, Trim, Unbrace, SameLetters;
    if s == t {
      if Pair(s).Some? { Itself(Pair(s).value.0); }
    } else {
      var e :| 0 <= e < |s| && s[e] == '=' && '=' !in s[e + 1..] && s[e..] == t[e..] && SameLetters(s[..e], t[..e]);
      SplitsAt(s, e);
      assert t[e] == t[e..][0] == s[e..][0] && t[e + 1..] == t[e..][1..] == s[e..][1..] == s[e + 1..];
      SplitsAt(t, e);
      TrimAlike(s[..e], t[..e]);
    }
  }

  lemma SplitsAt(s: string, e: nat)
    requires e < |s| && s[e] == '=' && '=' !in s[e + 1..]
    ensures RFind(s, '=') == e
  {
    forall j | e < j < |s| ensures s[j] != '=' {
      assert s[j] == s[e + 1..][j - e - 1];
    }
    RFindIs(s, '=', e);
  }

  lemma HandleAlike(p: Parsed, q: Parsed, s: string, t: string, isDirectory: string -> bool)
    requires Alike(p, q) && SameButKeyword(s, t)
    ensures Alike(Handle(p, s, isDirectory), Handle(q, t, isDirectory))
  {
    hide SameLetters, SameButKeyword, Pair, KeyOf, Accept, Complaint, ToLower;
    PairAlike(s, t);
    if Pair(s).Some? { SameLowerIff(Pair(s).value.0, Pair(t).value.0); }
  }

  lemma {:induction false} FoldAlike(p: Parsed, q: Parsed, s: seq<string>, t: seq<string>, isDirectory: string -> bool)
    requires Alike(p, q) && |s| == |t| && forall i | 0 <= i < |s| :: SameButKeyword(s[i], t[i])
    ensures Alike(FoldRight(p, s, isDirectory), FoldRight(q, t, isDirectory))
    decreases |s|
  {
    hide Alike, SameButKeyword, Handle;
    if s != [] {
      var n := |s| - 1;
      HandleAlike(p, q, s[n], t[n], isDirectory);
      FoldAlike(Handle(p, s[n], isDirectory), Handle(q, t[n], isDirectory), s[..n], t[..n], isDirectory);
    }
  }

  /**
   Letter case of keywords does not matter: two connection strings whose segments agree up to the letter case of
   their keywords lead to the same settings and to the same records, but for the letter case of the keywords in them.
   */
  lemma KeywordCase(p: Parsed, q: Parsed, s: string, t: string, delimiter: char, isDirectory: string -> bool)
    requires Alike(p, q)
    requires |Split(StripNuls(s), delimiter)| == |Split(StripNuls(t), delimiter)|
    requires forall i | 0 <= i < |Split(StripNuls(s), delimiter)| ::
      SameButKeyword(Split(StripNuls(s), delimiter)[i], Split(StripNuls(t), delimiter)[i])
    ensures Alike(Parse(p, s, delimiter, isDirectory), Parse(q, t, delimiter, isDirectory))
  {
    hide Alike, SameButKeyword, Split, FoldRight;
    FoldAlike(p, q, Split(StripNuls(s), delimiter), Split(StripNuls(t), delimiter), isDirectory);
  }

  /** A single attribute, its keyword in any letter case: it is set to the value, and nothing is recorded. */
  lemma AnyCaseIsRead(keyword: string, k: Key, text: string, isDirectory: string -> bool)
    requires SameLetters(keyword, KeyName(k)) && IsTextKey(k) && !k.LogPath?
    requires Trimmed(text) && !Braced(text) && '=' !in text && ';' !in text && NUL !in text
    ensures Parse(START, keyword + "=" + text, ';', isDirectory) == Parsed(map[k := Text(text)], [])
  {
    hide KeyName, KeyOf, Pair, StripNuls, SplitFrom, SameLetters, ToLower, Trimmed, Braced;
    var s := keyword + "=" + text;
    KeywordIsPlain(keyword, k);
    SinglePair(keyword, text);
    KeywordIff(keyword, k);
    NoNulAtItsEnd(s);
    SplitOne(s, ';', "");
    assert "" + s == s;
    FoldOne(START, s, isDirectory);
  }

  lemma FoldOne(p: Parsed, s: string, isDirectory: string -> bool)
    ensures FoldRight(p, [s], isDirectory) == Handle(p, s, isDirectory)
  {
    hide Handle;
    assert [s][..0] == [];
  }

  lemma SinglePair(keyword: string, text: string)
    requires keyword != "" && Trim(keyword) == keyword && Trimmed(text) && !Braced(text) && '=' !in text
    ensures Pair(keyword + "=" + text) == Some((keyword, text))
  {
    hide Trim, RFind, Trimmed, Braced;
    var s, n := keyword + "=" + text, |keyword|;
    assert s[n] == '=' && s[n + 1..] == text && s[..n] == keyword;
    SplitsAt(s, n);
    TrimmedIff(text);
  }

  lemma NoNulAtItsEnd(s: string)
    requires s != "" && s[|s| - 1] != NUL
    ensures StripNuls(s) == s
  {
  }

  lemma KeywordIsPlain(keyword: string, k: Key)
    requires SameLetters(keyword, KeyName(k))
    ensures keyword != "" && Trim(keyword) == keyword && ';' !in keyword && '=' !in keyword
  {
    hide KeyName, Trim, ToLower;
    KeyNamesPlain(k);
    SameLowerIff(keyword, KeyName(k));
    LowerTrim(keyword);
    assert |Trim(keyword)| == |ToLower(Trim(keyword))| == |keyword|;
    var left, right := TrimTakes(keyword);
    forall ch | ch in keyword ensures ch != ';' && ch != '=' {
      var i :| 0 <= i < |keyword| && keyword[i] == ch;
      assert KeyName(k)[i] in KeyName(k);
    }
  }
}
