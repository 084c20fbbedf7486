/** `ConnectionStringParser` as an object that fills a configuration and a diagnostics storage. */
module ConnectionStringParsers {
  import opened Options
  import opened Decimals
  import opened AppBuffers
  import opened ConfigText
  import opened Configurations
  import opened ConnectionStrings

  /** `DiagnosticRecordStorage` */
  class Diagnostics {
    var records: seq<Warning>

    constructor ()
      ensures records == []
    {
      records := [];
    }

    method AddStatusRecord(reason: Reason, key: string)
      modifies this
      ensures records == old(records) + [Warning(reason, key)]
    {
      records := records + [Warning(reason, key)];
    }
  }

  class ConnectionStringParser {
    const cfg: Configuration
    /** Which paths the file system knows as directories. */
    const isDirectory: string -> bool

    constructor (cfg: Configuration, isDirectory: string -> bool)
      ensures this.cfg == cfg && this.isDirectory == isDirectory
    {
      this.cfg, this.isDirectory := cfg, isDirectory;
    }

    /** The configuration and the records are those of `p`; without a storage the records are lost. */
    ghost predicate Holds(p: Parsed, diag: Diagnostics?)
      reads cfg, diag
    {
      cfg.AllSettings() == p.settings && (diag != null ==> diag.records == p.warnings)
    }

    method Warn(diag: Diagnostics?, reason: Reason, key: string)
      modifies diag
      ensures diag != null ==> diag.records == old(diag.records) + [Warning(reason, key)]
    {
      if diag != null {
        diag.AddStatusRecord(reason, key);
      }
    }

    /** The branch of a numeric attribute. */
    method HandleNumber(k: Key, key: string, value: string, diag: Diagnostics?, ghost p: Parsed)
      requires Holds(p, diag) && IsNumberKey(k) && KeyOf(ToLower(key)) == Some(k)
      modifies cfg, diag
      ensures Holds(HandlePair(p, key, value, isDirectory), diag)
    {
      hide KeyOf, Configuration.AllSettings, ReadNumber;
      if value == "" {
        Warn(diag, IsEmpty, key);
        return;
      }
      if !AllDigits(value) {
        Warn(diag, NotDigits, key);
        return;
      }
      if |value| >= NUMBER_SIZE {
        Warn(diag, TooLarge, key);
        return;
      }
      var numValue := ReadNumber(value);
      if numValue < Least(k) || numValue > UINT32_MAX {
        Warn(diag, OutOfRange, key);
        return;
      }
      cfg.SetNumber(k, Wrap32(numValue));
    }

    method HandleAuth(key: string, value: string, diag: Diagnostics?, ghost p: Parsed)
      requires Holds(p, diag) && KeyOf(ToLower(key)) == Some(Auth)
      modifies cfg, diag
      ensures Holds(HandlePair(p, key, value, isDirectory), diag)
    {
      hide KeyOf, Configuration.AllSettings, AuthOf;
      var auth := AuthOf(Trim(ToLower(value)));
      if auth.None? {
        Warn(diag, NotSupported, key);
        return;
      }
      cfg.SetAuthType(auth.value);
    }

    method HandleLevel(key: string, value: string, diag: Diagnostics?, ghost p: Parsed)
      requires Holds(p, diag) && KeyOf(ToLower(key)) == Some(LogLevelKey)
      modifies cfg, diag
      ensures Holds(HandlePair(p, key, value, isDirectory), diag)
    {
      hide KeyOf, Configuration.AllSettings, LevelOf;
      var level := LevelOf(Trim(value));
      if level.None? {
        Warn(diag, NotSupported, key);
        return;
      }
      cfg.SetLogLevel(level.value);
    }

    /** The branches of the text attributes; user name and password complain about being overwritten. */
    method HandleText(k: Key, key: string, value: string, diag: Diagnostics?, ghost p: Parsed)
      requires Holds(p, diag) && IsTextKey(k) && KeyOf(ToLower(key)) == Some(k)
      modifies cfg, diag
      ensures Holds(HandlePair(p, key, value, isDirectory), diag)
    {
      hide KeyOf;
      if (k.Uid? && cfg.uid.isSet && cfg.uid.val != "") || (k.Pwd? && cfg.pwd.isSet && cfg.pwd.val != "") {
        Warn(diag, Rewritten, key);
      }
      if k.LogPath? {
        cfg.SetLogPath(value, isDirectory);
      } else {
        cfg.SetText(k, value);
      }
    }

    method HandleAttributePair(key: string, value: string, diag: Diagnostics?, ghost p: Parsed)
      requires Holds(p, diag)
      modifies cfg, diag
      ensures Holds(HandlePair(p, key, value, isDirectory), diag)
    {
      hide KeyOf, Configuration.AllSettings;
      var k := KeyOf(ToLower(key));
      if k.None? {
        Warn(diag, Unknown, key);
      } else if IsNumberKey(k.value) {
        HandleNumber(k.value, key, value, diag, p);
      } else if k.value.Auth? {
        HandleAuth(key, value, diag, p);
      } else if k.value.LogLevelKey? {
        HandleLevel(key, value, diag, p);
      } else {
        HandleText(k.value, key, value, diag, p);
      }
    }

    /** The body of the loop: the last segment of the text. */
    method HandleLast(text: string, begin: nat, diag: Diagnostics?, ghost p: Parsed)
      requires Holds(p, diag) && begin <= |text|
      modifies cfg, diag
      ensures Holds(Handle(p, text[begin..], isDirectory), diag)
    {
      hide HandlePair, Holds, RFind;
      var eq := RFind(text, '=');
      if eq < 0 {
        eq := 0;
      }
      EqualsInSegment(text, begin);
      if begin < eq {
        var key := Trim(text[begin..eq]);
        var value := Trim(text[eq + 1..]);
        if value != "" && value[0] == '{' && value[|value| - 1] == '}' && |value| > 1 {
          value := value[1..|value| - 1];
        }
        assert text[begin..][..eq - begin] == text[begin..eq];
        assert text[begin..][eq - begin + 1..] == text[eq + 1..];
        HandleAttributePair(key, value, diag, p);
      }
    }

    /** `ParseConnectionString`: handles the last segment and erases it, until nothing is left. */
    method ParseConnectionString(str: string, delimiter: char, diag: Diagnostics?, ghost p: Parsed)
      requires Holds(p, diag)
      modifies cfg, diag
      ensures Holds(Parse(p, str, delimiter, isDirectory), diag)
    {
      hide Handle, Holds, FoldRight, Split, RFind;
      var text := str;
      while text != "" && text[|text| - 1] == NUL
        invariant StripNuls(text) == StripNuls(str)
        decreases |text|
      {
        text := text[..|text| - 1];
      }
      ghost var now := p;
      while text != ""
        invariant Holds(now, diag)
        invariant FoldRight(now, Split(text, delimiter), isDirectory) == Parse(p, str, delimiter, isDirectory)
        decreases |text|
      {
        var begin := RFind(text, delimiter) + 1;
        EraseLast(now, text, delimiter, isDirectory);
        HandleLast(text, begin, diag, now);
        now := Handle(now, text[begin..], isDirectory);
        if begin == 0 {
          return;
        }
        text := text[..begin - 1];
      }
      NothingLeft(now, delimiter, isDirectory);
    }

    /** `ParseConfigAttributes`: a list of attributes, each ended by a NUL, the list ended by two. */
    method ParseConfigAttributes(str: string, diag: Diagnostics?, ghost p: Parsed)
      requires Holds(p, diag) && (exists i :: EndsAt(str, i))
      modifies cfg, diag
      ensures Holds(Parse(p, str[..ListEnd(str) + 1], NUL, isDirectory), diag)
    {
      hide Holds, Parse;
      var len := 0;
      ghost var last :| EndsAt(str, last);
      while str[len] != NUL || str[len + 1] != NUL
        invariant len <= last && forall j | 0 <= j < len :: !EndsAt(str, j)
        decreases last - len
      {
        len := len + 1;
      }
      ListEndIs(str, len);
      len := len + 1;
      ParseConnectionString(str[..len], NUL, diag, p);
    }
  }

  /** Two NULs in a row. */
  predicate EndsAt(str: string, i: int) {
    0 <= i && i + 1 < |str| && str[i] == NUL && str[i + 1] == NUL
  }

  lemma TailHasEnd(str: string)
    requires (exists i :: EndsAt(str, i)) && !EndsAt(str, 0)
    ensures exists i :: EndsAt(str[1..], i)
  {
    var i :| EndsAt(str, i);
    assert EndsAt(str[1..], i - 1);
  }

  /** Where the list ends. */
  function ListEnd(str: string): (n: nat)
    requires exists i :: EndsAt(str, i)
    ensures EndsAt(str, n)
    decreases str
  {
    if EndsAt(str, 0) then 0
    else
      TailHasEnd(str);
      var n := ListEnd(str[1..]);
      assert EndsAt(str, n + 1);
      n + 1
  }

  lemma {:induction false} ListEndIs(str: string, n: nat)
    requires EndsAt(str, n) && forall j | 0 <= j < n :: !EndsAt(str, j)
    ensures ListEnd(str) == n
    decreases n
  {
    if n > 0 {
      assert !EndsAt(str, 0);
      assert EndsAt(str[1..], n - 1);
      forall j | 0 <= j < n - 1 ensures !EndsAt(str[1..], j) {
        assert !EndsAt(str, j + 1);
      }
      ListEndIs(str[1..], n - 1);
    }
  }

  // ---- The two forms of a list of attributes. ----

  predicate PlainParts(parts: seq<string>) {
    forall p | p in parts :: p != "" && NUL !in p && ';' !in p
  }

  /** The attributes as a list that ends in two NULs. */
  function NulList(parts: seq<string>): string {
    Join(parts, NUL) + [NUL, NUL]
  }

  lemma {:induction false} JoinEnds(parts: seq<string>, glue: char)
    requires parts != [] && PlainParts(parts)
    ensures var s := Join(parts, glue);
      && s != "" && s[0] != NUL && s[|s| - 1] != NUL
      && (forall i | 0 <= i < |s| - 1 :: s[i] == NUL ==> s[i + 1] != NUL)
    decreases parts
  {
    assert parts[0] in parts;
    var head := parts[0];
    assert head[0] in head && head[|head| - 1] in head;
    if |parts| > 1 {
      assert PlainParts(parts[1..]) by {
        forall p | p in parts[1..] ensures p != "" && NUL !in p && ';' !in p {
          assert p in parts;
        }
      }
      JoinEnds(parts[1..], glue);
    }
  }

  lemma StripNothing(s: string)
    requires s != "" && s[|s| - 1] != NUL
    ensures StripNuls(s) == s && StripNuls(s + [NUL]) == s
  {
    assert (s + [NUL])[..|s|] == s;
  }

  /**
   The list form and the connection string form of the same attributes are read alike, whatever follows the
   list in memory.
   */
  lemma SameAttributes(p: Parsed, parts: seq<string>, beyond: string, isDirectory: string -> bool)
    requires parts != [] && PlainParts(parts)
    ensures EndsAt(NulList(parts) + beyond, |Join(parts, NUL)|)
    ensures Parse(p, (NulList(parts) + beyond)[..ListEnd(NulList(parts) + beyond) + 1], NUL, isDirectory)
         == Parse(p, Join(parts, ';'), ';', isDirectory)
  {
    hide FoldRight;
    var list, n := NulList(parts) + beyond, |Join(parts, NUL)|;
    JoinEnds(parts, NUL);
    JoinEnds(parts, ';');
    assert EndsAt(list, n);
    forall j | 0 <= j < n ensures !EndsAt(list, j) {
      assert list[j] == Join(parts, NUL)[j];
    }
    ListEndIs(list, n);
    assert list[..n + 1] == Join(parts, NUL) + [NUL];
    StripNothing(Join(parts, NUL));
    StripNothing(Join(parts, ';'));
    SplitJoin(parts, NUL);
    SplitJoin(parts, ';');
  }
}
