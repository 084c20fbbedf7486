/** Text helpers of the connection string code: trimming, lower case, braces, searching from the right. */
module ConfigText {
  import opened Options
  import opened AppBuffers
  import opened LetterCase

  // ---- Trim ----

  function Rtrim(s: string): (r: string)
    ensures r <= s
  {
    if s != "" && IsSpace(s[|s| - 1]) then Rtrim(s[..|s| - 1]) else s
  }

  /** `Trim`: the left end of what is left after the right end. */
  function Trim(s: string): string {
    SkipSpaces(Rtrim(s))
  }

  lemma {:induction false} SkipSpacesShort(s: string)
    ensures |SkipSpaces(s)| <= |s|
    ensures SkipSpaces(s) == s <==> s == "" || !IsSpace(s[0])
    ensures SkipSpaces(s) != "" ==> !IsSpace(SkipSpaces(s)[0])
    ensures forall ch | ch in SkipSpaces(s) :: ch in s
    decreases s
  {
    if s != "" && IsSpace(s[0]) {
      SkipSpacesShort(s[1..]);
    }
  }

  /** What trims to itself: a text that neither starts nor ends with white space. */
  predicate Trimmed(s: string) {
    s == "" || (!IsSpace(s[0]) && !IsSpace(s[|s| - 1]))
  }

  lemma TrimmedIff(s: string)
    ensures Trim(s) == s <==> Trimmed(s)
    ensures |Trim(s)| <= |s|
    ensures forall ch | ch in Trim(s) :: ch in s
  {
    SkipSpacesShort(Rtrim(s));
    SkipSpacesShort(s);
    if |Rtrim(s)| == |s| { assert Rtrim(s) == s; }
  }

  lemma {:induction false} RtrimTakes(s: string)
    ensures forall i | |Rtrim(s)| <= i < |s| :: IsSpace(s[i])
    ensures Rtrim(s) != "" ==> !IsSpace(Rtrim(s)[|Rtrim(s)| - 1])
    decreases |s|
  {
    if s != "" && IsSpace(s[|s| - 1]) { RtrimTakes(s[..|s| - 1]); }
  }

  lemma {:induction false} SkipTakes(s: string)
    ensures var left := |s| - |SkipSpaces(s)|;
      left >= 0 && s[left..] == SkipSpaces(s) && forall i | 0 <= i < left :: IsSpace(s[i])
    decreases |s|
  {
    if s != "" && IsSpace(s[0]) { SkipTakes(s[1..]); }
  }

  /** White space at both ends is taken off, all of it and nothing else. */
  lemma TrimTakes(s: string) returns (left: nat, right: nat)
    ensures left <= right <= |s| && Trim(s) == s[left..right] && Trimmed(s[left..right])
    ensures forall i | 0 <= i < left || right <= i < |s| :: IsSpace(s[i])
  {
    RtrimTakes(s);
    SkipTakes(Rtrim(s));
    SkipSpacesShort(Rtrim(s));
    right := |Rtrim(s)|;
    left := right - |Trim(s)|;
  }

  // ---- ToLower ----

  function LowerChar(ch: char): char {
    if 'A' <= ch <= 'Z' then (ch as int + 32) as char else ch
  }

  function ToLower(s: string): (r: string)
    ensures |r| == |s| && forall i | 0 <= i < |s| :: r[i] == LowerChar(s[i])
  {
    if s == "" then "" else [LowerChar(s[0])] + ToLower(s[1..])
  }

  /** Texts have the same lower case exactly when they are equal up to letter case. */
  lemma SameLowerIff(s: string, t: string)
    ensures ToLower(s) == ToLower(t) <==> SameLetters(s, t)
    ensures ToLower(ToLower(s)) == ToLower(s)
  {
    hide ToLower;
    assert |ToLower(s)| == |s| && |ToLower(t)| == |t|;
    assert ToLower(s) == ToLower(t) ==> forall i | 0 <= i < |s| :: ToLower(s)[i] == ToLower(t)[i];
  }

  /** Letter case does not matter for what is white space. */
  lemma {:induction false} LowerRtrim(s: string)
    ensures Rtrim(ToLower(s)) == ToLower(Rtrim(s))
    decreases |s|
  {
    hide ToLower;
    if s != "" && IsSpace(s[|s| - 1]) {
      LowerRtrim(s[..|s| - 1]);
      assert ToLower(s)[..|s| - 1] == ToLower(s[..|s| - 1]);
    }
  }

  lemma {:induction false} LowerSkip(s: string)
    ensures SkipSpaces(ToLower(s)) == ToLower(SkipSpaces(s))
    decreases |s|
  {
    hide ToLower;
    if s != "" && IsSpace(s[0]) {
      LowerSkip(s[1..]);
      assert ToLower(s)[1..] == ToLower(s[1..]);
    }
  }

  lemma LowerTrim(s: string)
    ensures Trim(ToLower(s)) == ToLower(Trim(s))
  {
    LowerRtrim(s);
    LowerSkip(Rtrim(s));
  }

  // ---- Braces ----

  predicate Braced(s: string) {
    |s| >= 2 && s[0] == '{' && s[|s| - 1] == '}'
  }

  /** One pair of braces is taken off. */
  function Unbrace(s: string): (r: string)
    ensures |r| <= |s| && (r == s <==> !Braced(s))
  {
    if Braced(s) then s[1..|s| - 1] else s
  }

  // ---- Searching ----

  /** `rfind`: the last position of a character, or -1. */
  function RFind(s: string, ch: char): (i: int)
    ensures -1 <= i < |s|
    ensures i >= 0 ==> s[i] == ch
    ensures forall j | i < j < |s| :: s[j] != ch
  {
    if s == "" then -1 else if s[|s| - 1] == ch then |s| - 1 else RFind(s[..|s| - 1], ch)
  }

  lemma RFindIs(s: string, ch: char, i: int)
    requires -1 <= i < |s| && (i >= 0 ==> s[i] == ch) && forall j | i < j < |s| :: s[j] != ch
    ensures RFind(s, ch) == i
  {
  }

  /** The text cut at every delimiter, left to right. */
  function Split(s: string, delimiter: char): (parts: seq<string>)
    ensures |parts| > 0
  {
    SplitFrom(s, delimiter, "")
  }

  /** `part` is what has been read of the current part. */
  function SplitFrom(s: string, delimiter: char, part: string): (parts: seq<string>)
    ensures |parts| > 0
    decreases s
  {
    if s == "" then [part]
    else if s[0] == delimiter then [part] + SplitFrom(s[1..], delimiter, "")
    else SplitFrom(s[1..], delimiter, part + [s[0]])
  }

  /** A part without delimiter is one part. */
  lemma {:induction false} SplitOne(s: string, delimiter: char, part: string)
    requires delimiter !in s
    ensures SplitFrom(s, delimiter, part) == [part + s]
    decreases s
  {
    if s != "" {
      assert s[0] in s;
      SplitOne(s[1..], delimiter, part + [s[0]]);
      assert part + [s[0]] + s[1..] == part + s;
    } else {
      assert part + s == part;
    }
  }

  /** Splitting at one delimiter splits both sides on their own. */
  lemma {:induction false} SplitAt(s: string, delimiter: char, t: string, part: string)
    ensures SplitFrom(s + [delimiter] + t, delimiter, part) == SplitFrom(s, delimiter, part) + Split(t, delimiter)
    decreases s
  {
    var all := s + [delimiter] + t;
    if s == "" {
      assert all[0] == delimiter && all[1..] == t;
    } else {
      assert all[0] == s[0] && all[1..] == s[1..] + [delimiter] + t;
      if s[0] == delimiter {
        SplitAt(s[1..], delimiter, t, "");
      } else {
        SplitAt(s[1..], delimiter, t, part + [s[0]]);
      }
    }
  }

  /** The first part is what precedes the first delimiter. */
  lemma SplitFirst(part: string, delimiter: char, rest: string)
    requires delimiter !in part
    ensures Split(part + [delimiter] + rest, delimiter) == [part] + Split(rest, delimiter)
  {
    hide SplitFrom;
    SplitAt(part, delimiter, rest, "");
    SplitOne(part, delimiter, "");
    assert "" + part == part;
  }

  /** The last part is what follows the last delimiter. */
  lemma SplitLast(s: string, delimiter: char)
    ensures var d := RFind(s, delimiter);
      Split(s, delimiter) == if d < 0 then [s] else Split(s[..d], delimiter) + [s[d + 1..]]
  {
    var d := RFind(s, delimiter);
    if d < 0 {
      SplitOne(s, delimiter, "");
      assert "" + s == s;
    } else {
      assert s == s[..d] + [delimiter] + s[d + 1..];
      SplitAt(s[..d], delimiter, s[d + 1..], "");
      SplitOne(s[d + 1..], delimiter, "");
      assert "" + s[d + 1..] == s[d + 1..];
    }
  }

  /** No part contains the delimiter. */
  lemma {:induction false} PartsAreFree(s: string, delimiter: char, part: string)
    requires delimiter !in part
    ensures forall p | p in SplitFrom(s, delimiter, part) :: delimiter !in p
    decreases s
  {
    if s != "" {
      PartsAreFree(s[1..], delimiter, if s[0] == delimiter then "" else part + [s[0]]);
    }
  }

  /** `parts` with `glue` after each part but the last. */
  function Join(parts: seq<string>, glue: char): string {
    if parts == [] then "" else if |parts| == 1 then parts[0] else parts[0] + [glue] + Join(parts[1..], glue)
  }

  /** Splitting undoes joining. */
  lemma {:induction false} SplitJoin(parts: seq<string>, delimiter: char)
    requires parts != [] && forall p | p in parts :: delimiter !in p
    ensures Split(Join(parts, delimiter), delimiter) == parts
    decreases parts
  {
    assert parts[0] in parts;
    if |parts| > 1 {
      SplitFirst(parts[0], delimiter, Join(parts[1..], delimiter));
      SplitJoin(parts[1..], delimiter);
      assert parts == [parts[0]] + parts[1..];
    } else {
      SplitOne(parts[0], delimiter, "");
      assert "" + parts[0] == parts[0];
    }
  }
}
