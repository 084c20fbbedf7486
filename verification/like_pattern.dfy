/**
 `ConvertPatternToRegex`: a LIKE pattern becomes a regular expression. The loop with its two indices emits
 one piece of text for each pattern element, and the text means the same elements exactly when the pattern
 holds no character that the regular expression reads in its own way.
 */
module LikePatterns {
  import opened Options
  import opened AppBuffers
  import opened ConfigText

  const BACKSLASH: char := '\\'

  /** Elements of a pattern, and of the regular expressions it is translated to. */
  datatype Element = One | Run | Just(ch: char)

  /** The element of an ordinary character. */
  function Plain(ch: char): Element {
    if ch == '_' then One else if ch == '%' then Run else Just(ch)
  }

  /** The elements of a LIKE pattern; none for a pattern that ends in the escape character. */
  function Elements(p: string): Option<seq<Element>> {
    if p == "" then Some([])
    else if p[0] == BACKSLASH then
      if |p| == 1 then None
      else if Elements(p[2..]).None? then None
      else Some([Just(p[1])] + Elements(p[2..]).value)
    else if Elements(p[1..]).None? then None
    else Some([Plain(p[0])] + Elements(p[1..]).value)
  }

  /** The text emitted for an ordinary character. */
  function Piece(ch: char): string {
    if ch == '_' then "." else if ch == '%' then ".*" else [ch]
  }

  /** The text emitted for a pattern, element by element. */
  function Emit(p: string): string {
    if p == "" then ""
    else if p[0] == BACKSLASH then
      if |p| == 1 then [BACKSLASH] else "[" + [p[1]] + "]" + Emit(p[2..])
    else Piece(p[0]) + Emit(p[1..])
  }

  predicate Blank(p: string) {
    Trim(p) == ""
  }

  /** `ConvertPatternToRegex` */
  function Converted(p: string): string {
    if Blank(p) then "" else Emit(p)
  }

  // ---- The loop. ----

  /** `UpdateRegexExpression`: copies what is pending and appends `str`. */
  method UpdateRegexExpression(index: int, start: nat, pattern: string, str: string, converted: string)
    returns (next: int, longer: string)
    requires start <= index <= |pattern|
    ensures next == index + 1 && longer == converted + pattern[start..index] + str
  {
    longer := converted;
    if index - start > 0 {
      longer := longer + pattern[start..index];
    }
    longer := longer + str;
    next := index + 1;
  }

  /** What has been emitted, what is pending from `start`, and what the rest of the pattern emits. */
  predicate Emitted(pattern: string, converted: string, start: int, e: int) {
    && 0 <= start <= e <= |pattern|
    && Emit(pattern) == converted + pattern[start..e] + Emit(pattern[e..])
  }

  lemma EscapedStep(pattern: string, converted: string, start: int, e: int)
    requires Emitted(pattern, converted, start, e) && e + 1 < |pattern| && pattern[e] == BACKSLASH
    ensures Emitted(pattern, converted + pattern[start..e] + ("[" + [pattern[e + 1]] + "]"), e + 2, e + 2)
  {
    var piece, rest := "[" + [pattern[e + 1]] + "]", Emit(pattern[e + 2..]);
    assert pattern[e..][2..] == pattern[e + 2..];
    assert Emit(pattern[e..]) == piece + rest;
    assert converted + pattern[start..e] + (piece + rest) == (converted + pattern[start..e] + piece) + "" + rest;
    assert pattern[e + 2..e + 2] == "";
  }

  lemma WildcardStep(pattern: string, converted: string, start: int, e: int)
    requires Emitted(pattern, converted, start, e) && e < |pattern| && pattern[e] != BACKSLASH
    ensures Emitted(pattern, converted + pattern[start..e] + Piece(pattern[e]), e + 1, e + 1)
  {
    var piece, rest := Piece(pattern[e]), Emit(pattern[e + 1..]);
    assert pattern[e..][1..] == pattern[e + 1..];
    assert Emit(pattern[e..]) == piece + rest;
    assert converted + pattern[start..e] + (piece + rest) == (converted + pattern[start..e] + piece) + "" + rest;
    assert pattern[e + 1..e + 1] == "";
  }

  lemma LiteralStep(pattern: string, converted: string, start: int, e: int)
    requires Emitted(pattern, converted, start, e) && e < |pattern|
    requires pattern[e] != BACKSLASH && pattern[e] != '_' && pattern[e] != '%'
    ensures Emitted(pattern, converted, start, e + 1)
  {
    var rest := Emit(pattern[e + 1..]);
    assert pattern[e..][1..] == pattern[e + 1..];
    assert Emit(pattern[e..]) == [pattern[e]] + rest;
    assert pattern[start..e + 1] == pattern[start..e] + [pattern[e]];
    assert converted + pattern[start..e] + ([pattern[e]] + rest) == converted + (pattern[start..e] + [pattern[e]]) + rest;
  }

  /** The trailing text, a dangling escape character included. */
  lemma LastStep(pattern: string, converted: string, start: int, e: int)
    requires Emitted(pattern, converted, start, e)
    requires e == |pattern| || (e + 1 == |pattern| && pattern[e] == BACKSLASH)
    ensures Emit(pattern) == converted + pattern[start..]
  {
    assert Emit(pattern[e..]) == pattern[e..];
    assert pattern[start..] == pattern[start..e] + pattern[e..];
    assert converted + pattern[start..e] + pattern[e..] == converted + (pattern[start..e] + pattern[e..]);
  }

  method ConvertPatternToRegex(pattern: string) returns (converted: string)
    ensures converted == Converted(pattern)
  {
    hide Emit, Trim;
    converted := "";
    if pattern == "" || Trim(pattern) == "" {
      NothingToTrim();
      return;
    }
    var escapeFound := false;
    var start: int := 0;
    assert pattern[0..] == pattern;
    for index := 0 to |pattern|
      invariant escapeFound ==> index > 0 && pattern[index - 1] == BACKSLASH
      invariant Emitted(pattern, converted, start, if escapeFound then index - 1 else index)
    {
      var currChar := pattern[index];
      if escapeFound {
        EscapedStep(pattern, converted, start, index - 1);
        start, converted := UpdateRegexExpression(index - 1, start, pattern, "[" + [currChar] + "]", converted);
        start := start + 1;
        escapeFound := false;
      } else if currChar == BACKSLASH {
        escapeFound := true;
      } else if currChar == '_' {
        WildcardStep(pattern, converted, start, index);
        start, converted := UpdateRegexExpression(index, start, pattern, ".", converted);
      } else if currChar == '%' {
        WildcardStep(pattern, converted, start, index);
        start, converted := UpdateRegexExpression(index, start, pattern, ".*", converted);
      } else {
        LiteralStep(pattern, converted, start, index);
      }
    }
    LastStep(pattern, converted, start, if escapeFound then |pattern| - 1 else |pattern|);
    if |pattern| - start > 0 {
      converted := converted + pattern[start..];
    }
  }

  lemma NothingToTrim()
    ensures Trim("") == ""
  {
  }

  // ---- How the emitted text is read. ----

  /** Bracket expressions: the extended POSIX grammar takes any character but '^', ECMAScript two fewer. */
  datatype Grammar = Posix | EcmaScript

  predicate InBracket(g: Grammar, ch: char) {
    ch != '^' && (g.EcmaScript? ==> ch != BACKSLASH && ch != ']')
  }

  predicate Meta(ch: char) {
    ch in {'^', '$', BACKSLASH, '.', '*', '+', '?', '(', ')', '[', ']', '{', '}', '|'}
  }

  /** The elements of a regular expression made of `.`, `.*`, `[c]` and ordinary characters. */
  function Read(g: Grammar, text: string): Option<seq<Element>> {
    if text == "" then Some([])
    else if text[0] == '.' then
      if |text| > 1 && text[1] == '*' then Then(Run, Read(g, text[2..])) else Then(One, Read(g, text[1..]))
    else if text[0] == '[' then
      if |text| > 2 && text[2] == ']' && InBracket(g, text[1]) then Then(Just(text[1]), Read(g, text[3..])) else None
    else if Meta(text[0]) then None
    else Then(Just(text[0]), Read(g, text[1..]))
  }

  function Then(e: Element, rest: Option<seq<Element>>): Option<seq<Element>> {
    if rest.None? then None else Some([e] + rest.value)
  }

  /** No dangling escape, no unescaped metacharacter, nothing escaped that a bracket cannot hold. */
  predicate Translatable(g: Grammar, p: string) {
    if p == "" then true
    else if p[0] == BACKSLASH then |p| > 1 && InBracket(g, p[1]) && Translatable(g, p[2..])
    else !Meta(p[0]) && Translatable(g, p[1..])
  }

  /** Text that starts with a single-character metacharacter comes from that character. */
  lemma EmitHead(p: string)
    requires Emit(p) != "" && (Emit(p)[0] == ']' || Emit(p)[0] == '*')
    ensures p != "" && p[0] == Emit(p)[0] && Emit(p)[1..] == Emit(p[1..])
  {
  }

  /** What reading does with the text of an unescaped '['. */
  lemma OpenBracket(g: Grammar, p: string)
    requires p != "" && p[0] == '[' && Read(g, Emit(p)).Some?
    ensures |p| >= 3 && p[1] != BACKSLASH && p[2] == ']'
    ensures exists x :: Read(g, Emit(p)) == Then(Just(x), Read(g, Emit(p[3..])))
  {
    var t := Emit(p[1..]);
    assert Emit(p) == "[" + t && Emit(p)[1..] == t;
    assert |t| > 1 && t[1] == ']';
    var after := Emit(p)[3..];
    assert after == t[2..];
    if p[1] == BACKSLASH {
      EscapedAfterBracket(g, p);
    }
    assert t[1..] == Emit(p[1..][1..]);
    assert p[1..][1..] == p[2..] && p[2..][1..] == p[3..];
    EmitHead(p[2..]);
  }

  lemma EscapedAfterBracket(g: Grammar, p: string)
    requires |p| > 1 && p[0] == '[' && p[1] == BACKSLASH
    ensures Read(g, Emit(p)).None?
  {
    var t := Emit(p[1..]);
    assert Emit(p)[1..] == t;
    if |p| > 2 && p[2] == ']' {
      assert Emit(p)[3..][0] == ']';
    }
  }

  lemma ThreePlain(p: string)
    requires |p| >= 3 && p[0] == '[' && p[1] != BACKSLASH && p[2] == ']' && Elements(p).Some?
    ensures Elements(p[3..]).Some? && |Elements(p).value| == 3 + |Elements(p[3..]).value|
  {
    assert p[1..][1..] == p[2..] && p[2..][1..] == p[3..];
    OnePlain(p);
    OnePlain(p[1..]);
    OnePlain(p[2..]);
  }

  lemma OnePlain(p: string)
    requires p != "" && p[0] != BACKSLASH && Elements(p).Some?
    ensures Elements(p[1..]).Some? && Elements(p).value == [Plain(p[0])] + Elements(p[1..]).value
  {
  }

  lemma SameHeads(a: Element, s: seq<Element>, b: Element, t: seq<Element>)
    ensures [a] + s == [b] + t <==> a == b && s == t
  {
    assert ([a] + s)[1..] == s && ([b] + t)[1..] == t;
  }

  /** Reading never finds more elements than were emitted. */
  lemma {:induction false} ReadShort(g: Grammar, p: string)
    requires Read(g, Emit(p)).Some? && Elements(p).Some?
    ensures |Read(g, Emit(p)).value| <= |Elements(p).value|
    decreases |p|
  {
    if p == "" {
    } else if p[0] == BACKSLASH {
      assert Emit(p)[3..] == Emit(p[2..]);
      ReadShort(g, p[2..]);
    } else if p[0] == '[' {
      OpenBracket(g, p);
      ThreePlain(p);
      ReadShort(g, p[3..]);
    } else if p[0] == '%' {
      assert Emit(p)[2..] == Emit(p[1..]);
      ReadShort(g, p[1..]);
    } else {
      assert Emit(p)[1..] == Emit(p[1..]);
      if Emit(p)[0] == '.' && Emit(p[1..]) != "" && Emit(p[1..])[0] == '*' {
        EmitHead(p[1..]);
        assert p[1..][1..] == p[2..] && Emit(p)[2..] == Emit(p[2..]);
        ReadShort(g, p[2..]);
      } else {
        ReadShort(g, p[1..]);
      }
    }
  }

  /** One ordinary element: it reads back exactly when it is no metacharacter and the rest reads back. */
  lemma PlainBack(g: Grammar, p: string)
    requires p != "" && p[0] != BACKSLASH && p[0] != '[' && Elements(p[1..]).Some?
    ensures Read(g, Emit(p)) == Elements(p) <==> !Meta(p[0]) && !Starred(p) && Read(g, Emit(p[1..])) == Elements(p[1..])
  {
    hide Meta;
    var rest := Emit(p[1..]);
    PlainRead(g, p);
    BracketMeta();
    if Read(g, rest).Some? {
      SameHeads(Plain(p[0]), Read(g, rest).value, Plain(p[0]), Elements(p[1..]).value);
    }
    if Read(g, Emit(p)).Some? && (p[0] == '.' || Starred(p)) {
      assert Read(g, Emit(p)).value[0] != Plain(p[0]);
    }
  }

  lemma PlainRead(g: Grammar, p: string)
    requires p != "" && p[0] != BACKSLASH && p[0] != '['
    ensures p[0] != '.' && !Starred(p) ==>
      Read(g, Emit(p)) == if Meta(p[0]) then None else Then(Plain(p[0]), Read(g, Emit(p[1..])))
    ensures (p[0] == '.' || Starred(p)) && Read(g, Emit(p)).Some? ==>
      !Read(g, Emit(p)).value[0].Just? && (Starred(p) ==> Read(g, Emit(p)).value[0] == Run)
  {
    var rest := Emit(p[1..]);
    if p[0] == '%' {
      assert Emit(p)[2..] == rest;
    } else {
      assert Emit(p)[1..] == rest;
    }
  }

  /** An underscore in front of a star: together they read as a run. */
  predicate Starred(p: string) {
    p != "" && p[0] == '_' && Emit(p[1..]) != "" && Emit(p[1..])[0] == '*'
  }

  lemma StarIsMeta(g: Grammar, p: string)
    requires Starred(p)
    ensures !Translatable(g, p[1..])
  {
    EmitHead(p[1..]);
  }

  lemma EscapedBack(g: Grammar, p: string)
    requires |p| > 1 && p[0] == BACKSLASH && Elements(p[2..]).Some?
    ensures Read(g, Emit(p)) == Elements(p) <==> InBracket(g, p[1]) && Read(g, Emit(p[2..])) == Elements(p[2..])
  {
    var rest := Emit(p[2..]);
    assert Emit(p)[3..] == rest;
    if Read(g, rest).Some? {
      SameHeads(Just(p[1]), Read(g, rest).value, Just(p[1]), Elements(p[2..]).value);
    }
  }

  /** A bracket of its own never reads back: three characters, one element. */
  lemma BracketBack(g: Grammar, p: string)
    requires p != "" && p[0] == '[' && Elements(p).Some?
    ensures Read(g, Emit(p)) != Elements(p)
  {
    if Read(g, Emit(p)).Some? {
      OpenBracket(g, p);
      ThreePlain(p);
      ReadShort(g, p[3..]);
    }
  }

  /**
   The regular expression reads as the elements of the pattern exactly when the pattern is translatable; a
   pattern with a dangling escape has no elements at all.
   */
  lemma {:induction false} ReadsBackIff(g: Grammar, p: string)
    ensures Elements(p).Some? && Read(g, Emit(p)) == Elements(p) <==> Translatable(g, p)
    decreases |p|
  {
    hide Read, Meta, InBracket;
    if p == "" {
      NothingRead(g);
    } else if p[0] == BACKSLASH {
      if |p| > 1 {
        ReadsBackIff(g, p[2..]);
        if Elements(p[2..]).Some? { EscapedBack(g, p); }
      }
    } else {
      ReadsBackIff(g, p[1..]);
      if p[0] == '[' {
        BracketMeta();
        if Elements(p).Some? { BracketBack(g, p); }
      } else if Elements(p[1..]).Some? {
        PlainBack(g, p);
        if Starred(p) { StarIsMeta(g, p); }
      }
    }
  }

  /** Which single characters keep their meaning, and which escaped ones do. */
  lemma SingleIff(g: Grammar, ch: char)
    ensures Translatable(g, [ch]) <==> ch !in "^$\\.*+?()[]{}|"
    ensures Translatable(g, ['\\', ch]) <==> ch != '^' && (g.EcmaScript? ==> ch != '\\' && ch != ']')
  {
    assert [ch][1..] == "" && ['\\', ch][2..] == "";
  }

  lemma NothingRead(g: Grammar)
    ensures Read(g, Emit("")) == Some([])
  {
  }

  lemma BracketMeta()
    ensures Meta('[') && Meta('.') && !Meta('_') && !Meta('%')
  {
  }

  // ---- What it means. ----

  /** The strings a sequence of elements stands for. */
  predicate Denotes(es: seq<Element>, s: string)
    decreases |es|, |s|
  {
    if es == [] then s == ""
    else match es[0]
      case One => s != "" && Denotes(es[1..], s[1..])
      case Run => Denotes(es[1..], s) || (s != "" && Denotes(es, s[1..]))
      case Just(ch) => s != "" && s[0] == ch && Denotes(es[1..], s[1..])
  }

  /** LIKE, on the pattern itself. */
  predicate Like(p: string, s: string)
    decreases |p|, |s|
  {
    if p == "" then s == ""
    else if p[0] == BACKSLASH then |p| > 1 && s != "" && s[0] == p[1] && Like(p[2..], s[1..])
    else if p[0] == '_' then s != "" && Like(p[1..], s[1..])
    else if p[0] == '%' then Like(p[1..], s) || (s != "" && Like(p, s[1..]))
    else s != "" && s[0] == p[0] && Like(p[1..], s[1..])
  }

  /** A regular expression matches a whole string. */
  predicate Matches(g: Grammar, text: string, s: string) {
    Read(g, text).Some? && Denotes(Read(g, text).value, s)
  }

  lemma {:induction false} LikeDenotes(p: string, s: string)
    requires Elements(p).Some?
    ensures Like(p, s) <==> Denotes(Elements(p).value, s)
    decreases |p|, |s|
  {
    if p == "" {
    } else if p[0] == BACKSLASH {
      assert Elements(p).value[1..] == Elements(p[2..]).value;
      if s != "" { LikeDenotes(p[2..], s[1..]); }
    } else {
      assert Elements(p).value[1..] == Elements(p[1..]).value;
      if p[0] == '%' { LikeDenotes(p[1..], s); }
      if s != "" { LikeDenotes(if p[0] == '%' then p else p[1..], s[1..]); }
    }
  }

  // ---- Exactly which patterns keep their meaning. ----

  /** A shortest string a sequence of elements stands for. */
  function Word(es: seq<Element>): string {
    if es == [] then ""
    else match es[0]
      case One => "A" + Word(es[1..])
      case Run => Word(es[1..])
      case Just(ch) => [ch] + Word(es[1..])
  }

  lemma {:induction false} WordIsDenoted(es: seq<Element>)
    ensures Denotes(es, Word(es))
    decreases es
  {
    if es != [] {
      WordIsDenoted(es[1..]);
      if !es[0].Run? { assert Word(es)[1..] == Word(es[1..]); }
    }
  }

  lemma {:induction false} NothingShorter(es: seq<Element>, s: string)
    requires Denotes(es, s)
    ensures |Word(es)| <= |s|
    decreases |es|, |s|
  {
    if es != [] {
      match es[0]
      case Run => if Denotes(es[1..], s) { NothingShorter(es[1..], s); } else { NothingShorter(es, s[1..]); }
      case _ => NothingShorter(es[1..], s[1..]);
    }
  }

  /** A run in front adds nothing to a string that is too short for it. */
  lemma {:induction false} RunIsEmpty(es: seq<Element>, s: string)
    requires es != [] && es[0].Run? && Denotes(es, s) && |s| <= |Word(es[1..])|
    ensures Denotes(es[1..], s)
    decreases |s|
  {
    if !Denotes(es[1..], s) {
      NothingShorter(es, s[1..]);
    }
  }

  /** What one element adds to the word. */
  function Letter(e: Element): string {
    match e
    case One => "A"
    case Run => ""
    case Just(ch) => [ch]
  }

  lemma WordPlus(e: Element, es: seq<Element>)
    ensures Word([e] + es) == Letter(e) + Word(es)
  {
    assert ([e] + es)[1..] == es;
  }

  /** `rs` has no longer a word than `es`, and is `es` when its word is as long and one of `es`. */
  ghost predicate NoLonger(rs: seq<Element>, es: seq<Element>) {
    && |Word(rs)| <= |Word(es)|
    && (|Word(rs)| == |Word(es)| && Denotes(es, Word(rs)) ==> rs == es)
  }

  lemma SameFirst(e: Element, rs: seq<Element>, es: seq<Element>)
    requires NoLonger(rs, es)
    ensures NoLonger([e] + rs, [e] + es)
  {
    hide Word;
    WordPlus(e, rs);
    WordPlus(e, es);
    var word := Word([e] + rs);
    assert ([e] + es)[1..] == es;
    if |word| == |Word([e] + es)| && Denotes([e] + es, word) {
      if e.Run? {
        assert word == Word(rs);
        RunIsEmpty([e] + es, word);
      } else {
        assert word[1..] == Word(rs);
      }
    }
  }

  /** A shorter word settles it. */
  lemma Shorter(r: Element, rs: seq<Element>, es: seq<Element>, front: seq<Element>)
    requires NoLonger(rs, es) && |Letter(r)| < |Word(front)|
    ensures NoLonger([r] + rs, front + es)
  {
    hide Word, Denotes;
    WordPlus(r, rs);
    WordAppend(front, es);
  }

  lemma {:induction false} WordAppend(s: seq<Element>, t: seq<Element>)
    ensures Word(s + t) == Word(s) + Word(t)
    decreases s
  {
    if s == [] {
      assert s + t == t;
    } else {
      assert (s + t)[1..] == s[1..] + t;
      WordAppend(s[1..], t);
    }
  }

  /** An unescaped '.' is read as any character, and the word of that does not start with '.'. */
  lemma DotDiffers(rs: seq<Element>, es: seq<Element>)
    requires NoLonger(rs, es)
    ensures NoLonger([One] + rs, [Just('.')] + es)
  {
    hide Word;
    WordPlus(One, rs);
    WordPlus(Just('.'), es);
    assert Word([One] + rs)[0] == 'A';
  }

  /** A '.' or '_' in front of an unescaped '*' is read as one run. */
  lemma StarredRead(g: Grammar, p: string)
    requires p != "" && (p[0] == '_' || p[0] == '.') && Emit(p[1..]) != "" && Emit(p[1..])[0] == '*'
    ensures |p| >= 2 && p[1] == '*' && Read(g, Emit(p)) == Then(Run, Read(g, Emit(p[2..])))
  {
    EmitHead(p[1..]);
    assert p[1..][1..] == p[2..] && Emit(p)[2..] == Emit(p[2..]);
  }

  lemma DotRead(g: Grammar, p: string)
    requires p != "" && p[0] == '.' && !(Emit(p[1..]) != "" && Emit(p[1..])[0] == '*')
    ensures Read(g, Emit(p)) == Then(One, Read(g, Emit(p[1..])))
  {
    assert Emit(p)[1..] == Emit(p[1..]);
  }

  lemma EscapedRead(g: Grammar, p: string)
    requires |p| > 1 && p[0] == BACKSLASH && Read(g, Emit(p)).Some?
    ensures Read(g, Emit(p)) == Then(Just(p[1]), Read(g, Emit(p[2..])))
  {
    assert Emit(p)[3..] == Emit(p[2..]);
  }

  /** What is read of a pattern has no longer a word than the pattern, and an equal one only if it is the pattern. */
  lemma {:induction false} ReadNoLonger(g: Grammar, p: string)
    requires Elements(p).Some? && Read(g, Emit(p)).Some?
    ensures NoLonger(Read(g, Emit(p)).value, Elements(p).value)
    decreases |p|
  {
    hide Read, Meta, InBracket, NoLonger;
    if p == "" {
      NothingRead(g);
      EmptyNoLonger();
    } else if p[0] == BACKSLASH {
      EscapedRead(g, p);
      ReadNoLonger(g, p[2..]);
      SameFirst(Just(p[1]), Read(g, Emit(p[2..])).value, Elements(p[2..]).value);
    } else if p[0] == '[' {
      BracketNoLonger(g, p);
    } else if (p[0] == '_' || p[0] == '.') && Emit(p[1..]) != "" && Emit(p[1..])[0] == '*' {
      StarNoLonger(g, p);
    } else {
      OnePlain(p);
      ReadNoLongerRest(g, p);
      ReadNoLonger(g, p[1..]);
      var rs, es := Read(g, Emit(p[1..])).value, Elements(p[1..]).value;
      if p[0] == '.' { DotDiffers(rs, es); } else { SameFirst(Plain(p[0]), rs, es); }
    }
  }

  lemma EmptyNoLonger()
    ensures NoLonger([], [])
  {
  }

  lemma ReadNoLongerRest(g: Grammar, p: string)
    requires p != "" && p[0] != BACKSLASH && p[0] != '[' && Read(g, Emit(p)).Some?
    requires !((p[0] == '_' || p[0] == '.') && Emit(p[1..]) != "" && Emit(p[1..])[0] == '*')
    ensures Read(g, Emit(p)) == Then(if p[0] == '.' then One else Plain(p[0]), Read(g, Emit(p[1..])))
  {
    if p[0] == '.' { DotRead(g, p); } else { PlainRead(g, p); }
  }

  lemma {:induction false} StarNoLonger(g: Grammar, p: string)
    requires Elements(p).Some? && Read(g, Emit(p)).Some?
    requires p != "" && (p[0] == '_' || p[0] == '.') && Emit(p[1..]) != "" && Emit(p[1..])[0] == '*'
    ensures NoLonger(Read(g, Emit(p)).value, Elements(p).value)
    decreases |p|, 0
  {
    hide Read, Meta, InBracket, NoLonger;
    StarredRead(g, p);
    OnePlain(p);
    OnePlain(p[1..]);
    assert p[1..][1..] == p[2..];
    ReadNoLonger(g, p[2..]);
    var front, es := [Plain(p[0]), Plain('*')], Elements(p[2..]).value;
    assert Elements(p).value == front + es;
    TwoLetters(Plain(p[0]), Plain('*'));
    Shorter(Run, Read(g, Emit(p[2..])).value, es, front);
  }

  lemma TwoLetters(d: Element, e: Element)
    ensures |Word([d, e])| == |Letter(d)| + |Letter(e)|
  {
    assert [d, e] == [d] + [e] && [e] == [e] + [];
    WordPlus(d, [e]);
    WordPlus(e, []);
  }

  lemma {:induction false} BracketNoLonger(g: Grammar, p: string)
    requires Elements(p).Some? && Read(g, Emit(p)).Some? && p != "" && p[0] == '['
    ensures NoLonger(Read(g, Emit(p)).value, Elements(p).value)
    decreases |p|, 0
  {
    hide Read, Meta, InBracket, NoLonger;
    OpenBracket(g, p);
    var x :| Read(g, Emit(p)) == Then(Just(x), Read(g, Emit(p[3..])));
    ThreePlain(p);
    OnePlain(p);
    OnePlain(p[1..]);
    OnePlain(p[2..]);
    assert p[1..][1..] == p[2..] && p[2..][1..] == p[3..];
    ReadNoLonger(g, p[3..]);
    var front, es := [Plain('['), Plain(p[1]), Plain(']')], Elements(p[3..]).value;
    assert Elements(p).value == front + es;
    ThreeLetters(Plain('['), Plain(p[1]), Plain(']'));
    Shorter(Just(x), Read(g, Emit(p[3..])).value, es, front);
  }

  lemma ThreeLetters(d: Element, e: Element, f: Element)
    ensures |Word([d, e, f])| == |Letter(d)| + |Letter(e)| + |Letter(f)|
  {
    assert [d, e, f] == [d] + [e, f];
    WordPlus(d, [e, f]);
    TwoLetters(e, f);
  }

  /** A pattern that ends in the escape character matches nothing. */
  lemma {:induction false} DanglingMatchesNothing(p: string, s: string)
    requires Elements(p).None?
    ensures !Like(p, s)
    decreases |p|, |s|
  {
    if p[0] == BACKSLASH {
      if |p| > 1 && s != "" { DanglingMatchesNothing(p[2..], s[1..]); }
    } else {
      if p[0] == '%' { DanglingMatchesNothing(p[1..], s); }
      if s != "" { DanglingMatchesNothing(if p[0] == '%' then p else p[1..], s[1..]); }
    }
  }

  /**
   The conversion preserves meaning exactly for translatable patterns: a pattern that is not blank becomes a
   regular expression that matches the very strings the pattern matches if and only if it has no dangling
   escape, no unescaped metacharacter and nothing escaped that a bracket cannot hold.
   */
  lemma MeaningIff(g: Grammar, p: string)
    requires !Blank(p)
    ensures Read(g, Converted(p)).Some? && (forall s :: Matches(g, Converted(p), s) <==> Like(p, s)) <==> Translatable(g, p)
  {
    hide Read, Emit, Elements, Translatable, Like, Denotes, Word, NoLonger;
    ReadsBackIff(g, p);
    if Translatable(g, p) {
      forall s ensures Matches(g, Converted(p), s) <==> Like(p, s) { LikeDenotes(p, s); }
    } else if Read(g, Converted(p)).Some? {
      WrongWord(g, p);
    }
  }

  /** An untranslatable pattern that is readable differs at one of two words. */
  lemma WrongWord(g: Grammar, p: string)
    requires Read(g, Emit(p)).Some? && Read(g, Emit(p)) != Elements(p)
    ensures exists s :: Denotes(Read(g, Emit(p)).value, s) != Like(p, s)
  {
    hide Read, Emit, Elements, Like, Denotes, Word;
    var rs := Read(g, Emit(p)).value;
    WordIsDenoted(rs);
    if Elements(p).None? {
      DanglingMatchesNothing(p, Word(rs));
    } else {
      var es := Elements(p).value;
      WordIsDenoted(es);
      LikeDenotes(p, Word(es));
      LikeDenotes(p, Word(rs));
      ReadNoLonger(g, p);
      if Denotes(rs, Word(es)) { NothingShorter(rs, Word(es)); }
      if Denotes(es, Word(rs)) { NothingShorter(es, Word(rs)); }
    }
  }

  /** A blank pattern becomes the expression of the empty string, which is right only for the empty pattern. */
  lemma BlankIff(g: Grammar, p: string)
    requires Blank(p)
    ensures (forall s :: Matches(g, Converted(p), s) <==> Like(p, s)) <==> p == ""
  {
    if p != "" {
      assert !Like(p, "") by { FirstIsSpace(p); }
      assert Matches(g, Converted(p), "");
    }
  }

  lemma FirstIsSpace(p: string)
    requires Blank(p) && p != ""
    ensures IsSpace(p[0])
  {
    SkipSpacesShort(Rtrim(p));
    if !IsSpace(p[0]) { RtrimKeeps(p); }
  }

  lemma {:induction false} RtrimKeeps(p: string)
    requires p != "" && !IsSpace(p[0])
    ensures Rtrim(p) != "" && Rtrim(p)[0] == p[0]
    decreases p
  {
    if |p| > 1 && IsSpace(p[|p| - 1]) { RtrimKeeps(p[..|p| - 1]); }
  }

  /** An unescaped metacharacter changes what is matched: '.' is any character afterwards. */
  lemma DotIsWild(g: Grammar)
    ensures Matches(g, Converted("."), "x") && !Like(".", "x")
  {
    assert Trim(".") == ".";
    assert "."[1..] == "" && "x"[1..] == "";
    assert Emit(".") == ".";
    assert Read(g, "") == Some([]);
    assert Read(g, ".") == Some([One] + []);
    assert ([One] + [])[1..] == [];
  }
}
