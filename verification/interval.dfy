/**
 The text of an interval is printed in one file (`PutInterval`) and parsed in another
 (`ParseScalarType`): the two formats fit together, and exactly for which fields they do.
 */
module Intervals {
  import opened Options
  import opened Decimals
  import opened AppBuffers

  datatype YearMonth = YearMonth(year: int, month: int)
  datatype DaySecond = DaySecond(day: int, hour: int, minute: int, second: int, fraction: int)

  predicate Int32(v: int) {
    -0x8000_0000 <= v < 0x8000_0000
  }

  // ---- snprintf ----

  /** `%0<width>d`, and `%d` when the width is 0: the sign counts. */
  function PrintPadded(v: int, width: nat): (s: string)
    ensures |s| >= width && |s| > 0
  {
    if v < 0 then "-" + Padded(-v, if width > 0 then width - 1 else 0) else Padded(v, width)
  }

  /** The scratch buffer of 32 bytes keeps 31 characters. */
  const SCRATCH: nat := 31

  function Keep(s: string, n: nat): (r: string)
    ensures |r| <= n && r <= s
  {
    if |s| <= n then s else s[..n]
  }

  /** Fields printed with `%02d`, each followed by its separator. */
  function Clock(fields: seq<int>, separators: string): string
    requires |fields| == |separators|
  {
    if fields == [] then ""
    else PrintPadded(fields[0], 2) + [separators[0]] + Clock(fields[1..], separators[1..])
  }

  /** `"%d %02d:%02d:%02d.%09d"` */
  function DaySecondFormat(v: DaySecond): string {
    PrintPadded(v.day, 0) + (" " + (Clock([v.hour, v.minute, v.second], "::.") + PrintPadded(v.fraction, 9)))
  }

  /** `"%d-%d"` */
  function YearMonthFormat(v: YearMonth): string {
    PrintPadded(v.year, 0) + ("-" + PrintPadded(v.month, 0))
  }

  function DaySecondText(v: DaySecond): string {
    Keep(DaySecondFormat(v), SCRATCH)
  }

  function YearMonthText(v: YearMonth): string {
    Keep(YearMonthFormat(v), SCRATCH)
  }

  // ---- sscanf ----

  /** The longest run of digits at the front, of at most `n`. */
  function TakeDigits(s: string, n: nat): (r: string)
    ensures r <= s && AllDigits(r) && |r| <= n
  {
    if n > 0 && s != "" && IsDigit(s[0]) then [s[0]] + TakeDigits(s[1..], n - 1) else ""
  }

  /** `%<width>d`: spaces, an optional sign, digits; the width counts the sign but not the spaces. */
  function ScanInt(s: string, width: Option<nat>): Option<(int, string)> {
    var t := SkipSpaces(s);
    var sign := if t != "" && (t[0] == '-' || t[0] == '+') then 1 else 0;
    var room := if width.None? then |t| else if width.value > sign then width.value - sign else 0;
    var digits := TakeDigits(t[sign..], room);
    var magnitude: int := Value(digits);
    if digits == "" then None
    else Some((if t[0] == '-' then -magnitude else magnitude, t[sign + |digits|..]))
  }

  /** `%2d` and a literal, for each separator. */
  function ReadClock(s: string, separators: string): Option<(seq<int>, string)>
    decreases separators
  {
    if separators == "" then Some(([], s))
    else
      var field := ScanInt(s, Some(2));
      if field.None? || field.value.1 == "" || field.value.1[0] != separators[0] then None
      else
        var others := ReadClock(field.value.1[1..], separators[1..]);
        if others.None? then None else Some(([field.value.0] + others.value.0, others.value.1))
  }

  /** `"%d %2d:%2d:%2d.%9d"`; nothing when a field stays unassigned. */
  function ReadDaySecond(s: string): Option<DaySecond> {
    var day := ScanInt(s, None);
    if day.None? then None else
    var clock := ReadClock(SkipSpaces(day.value.1), "::.");
    if clock.None? || |clock.value.0| != 3 then None else
    var fraction := ScanInt(clock.value.1, Some(9));
    if fraction.None? then None
    else Some(DaySecond(day.value.0, clock.value.0[0], clock.value.0[1], clock.value.0[2], fraction.value.0))
  }

  /** `"%d-%d"` */
  function ReadYearMonth(s: string): Option<YearMonth> {
    var year := ScanInt(s, None);
    if year.None? || year.value.1 == "" || year.value.1[0] != '-' then None else
    var month := ScanInt(year.value.1[1..], None);
    if month.None? then None else Some(YearMonth(year.value.0, month.value.0))
  }

  // ---- One field. ----

  lemma {:induction false} TakesAll(digits: string, rest: string, n: nat)
    requires AllDigits(digits) && |digits| <= n && (|digits| == n || rest == "" || !IsDigit(rest[0]))
    ensures TakeDigits(digits + rest, n) == digits
    decreases digits
  {
    if digits != "" {
      assert (digits + rest)[1..] == digits[1..] + rest;
      TakesAll(digits[1..], rest, n - 1);
    } else {
      assert digits + rest == rest;
    }
  }

  lemma DigitsAreDigits(v: int, width: nat)
    ensures var digits := Padded(if v < 0 then -v else v, if v < 0 && width > 0 then width - 1 else width);
      && PrintPadded(v, width) == (if v < 0 then "-" else "") + digits
      && AllDigits(digits) && Value(digits) == (if v < 0 then -v else v)
  {
    ValueOfPadded(if v < 0 then -v else v, if v < 0 && width > 0 then width - 1 else width);
  }

  /** A printed field that fits the scanned width is read back whole. */
  lemma ScanBack(v: int, printed: nat, rest: string, width: Option<nat>)
    requires rest == "" || !IsDigit(rest[0])
    requires width.Some? ==> |PrintPadded(v, printed)| <= width.value
    ensures ScanInt(PrintPadded(v, printed) + rest, width) == Some((v, rest))
  {
    hide TakeDigits, Padded, Value, PrintPadded;
    DigitsAreDigits(v, printed);
    var digits := Padded(if v < 0 then -v else v, if v < 0 && printed > 0 then printed - 1 else printed);
    var t := PrintPadded(v, printed) + rest;
    var sign := if v < 0 then 1 else 0;
    assert t[sign..] == digits + rest;
    assert SkipSpaces(t) == t;
    var room := if width.None? then |t| else if width.value > sign then width.value - sign else 0;
    TakesAll(digits, rest, room);
    assert t[sign + |digits|..] == rest;
  }

  /** So is one with a plus sign, or with white space in front of it; the width counts the sign only. */
  lemma ScanPlus(spaces: string, v: nat, rest: string, width: Option<nat>)
    requires Blank(spaces) && (rest == "" || !IsDigit(rest[0]))
    requires width.Some? ==> |Print(v)| + 1 <= width.value
    ensures ScanInt(spaces + ("+" + (Print(v) + rest)), width) == Some((v, rest))
  {
    hide TakeDigits, Digits, Value;
    var t := "+" + (Print(v) + rest);
    SkipsBlanks(spaces, t);
    ValueOfDigits(v);
    assert t[1..] == Print(v) + rest;
    TakesAll(Print(v), rest, if width.None? then |t| else width.value - 1);
    assert t[1 + |Print(v)|..] == rest;
  }

  lemma {:induction false} ValueBound(s: string)
    requires AllDigits(s)
    ensures Value(s) < Pow10(|s|)
    decreases s
  {
    if s != "" {
      ValueBound(s[..|s| - 1]);
    }
  }

  /**
   A field that is too long is cut: whatever follows what is scanned of it, a digit of the field comes next and
   the value read is one that would have fitted.
   */
  lemma ScanCut(v: int, printed: nat, t: string, width: nat)
    requires 2 <= width < |PrintPadded(v, printed)| && width < |t|
    requires t[..width + 1] == PrintPadded(v, printed)[..width + 1]
    ensures var r := ScanInt(t, Some(width));
      && r.Some? && r.value.1 == t[width..] && IsDigit(r.value.1[0])
      && 0 < Pow10(width - 1) + r.value.0 && r.value.0 < Pow10(width)
  {
    hide TakeDigits, Padded, Value, PrintPadded, Pow10;
    DigitsAreDigits(v, printed);
    var digits := Padded(if v < 0 then -v else v, if v < 0 && printed > 0 then printed - 1 else printed);
    var sign := if v < 0 then 1 else 0;
    var room := width - sign;
    CutText(digits, sign, t, width);
    assert SkipSpaces(t) == t;
    TakesAll(digits[..room], t[width..], room);
    PositivePower(width - 1);
    PositivePower(width);
    ValueBound(digits[..room]);
  }

  /** What follows the sign: the digits that are scanned, then the next digit. */
  lemma CutText(digits: string, sign: nat, t: string, width: nat)
    requires AllDigits(digits) && sign <= 1 < width < sign + |digits| && width < |t|
    requires t[..width + 1] == (if sign == 1 then "-" else "") + digits[..width + 1 - sign]
    ensures t[sign..] == digits[..width - sign] + t[width..]
    ensures IsDigit(t[width]) && (sign == 1 ==> t[0] == '-') && (sign == 0 ==> IsDigit(t[0]))
  {
    forall i | sign <= i <= width ensures t[i] == digits[i - sign] {
      assert t[i] == t[..width + 1][i];
    }
    assert t[0] == t[..width + 1][0];
  }

  lemma PositivePower(k: nat)
    ensures Pow10(k) > 0
  {
  }

  /** Which values fit a field. */
  lemma FieldFits(v: int, width: nat)
    requires width >= 2
    ensures |PrintPadded(v, width)| == width <==> 0 < Pow10(width - 1) + v && v < Pow10(width)
  {
    hide Digits;
    var n, k := if v < 0 then -v else v, if v < 0 then width - 1 else width;
    ValueOfDigits(n);
    ValueBound(Digits(n));
    if n < Pow10(k) {
      DigitsLength(n, k);
    } else if |Digits(n)| <= k {
      Pow10Grows(|Digits(n)|, k);
      assert false;
    }
  }

  lemma {:induction false} Pow10Grows(i: nat, k: nat)
    requires i <= k
    ensures Pow10(i) <= Pow10(k)
    decreases k
  {
    if i < k { Pow10Grows(i, k - 1); }
  }

  lemma SomePowers()
    ensures Pow10(1) == 10 && Pow10(2) == 100 && Pow10(8) == 1_0000_0000 && Pow10(9) == 10_0000_0000
    ensures Pow10(10) == 100_0000_0000
  {
    assert Pow10(4) == 10000;
    assert Pow10(6) == 100_0000;
  }

  lemma PlainLength(v: int)
    requires Int32(v)
    ensures |PrintPadded(v, 0)| <= 11
  {
    SomePowers();
    DigitsLength(if v < 0 then -v else v, 10);
  }

  // ---- The whole text. ----

  predicate ClockFits(fields: seq<int>) {
    forall v | v in fields :: -10 < v < 100
  }

  lemma KeepOver(a: string, rest: string, n: nat)
    requires |a| <= n
    ensures Keep(a + rest, n) == a + Keep(rest, n - |a|)
  {
  }

  /** The clock part is read back exactly when every field has two characters. */
  lemma {:induction false} ClockBack(fields: seq<int>, separators: string, rest: string, n: nat)
    requires |fields| == |separators| && n >= 3 * |fields| && (forall ch | ch in separators :: !IsDigit(ch))
    ensures var r := ReadClock(Keep(Clock(fields, separators) + rest, n), separators);
      if ClockFits(fields) then r == Some((fields, Keep(rest, n - 3 * |fields|))) else r.None?
    ensures ClockFits(fields) ==> |Clock(fields, separators)| == 3 * |fields|
    decreases |fields|
  {
    hide ScanInt, PrintPadded, Keep, Pow10, ClockFits;
    FitsSplit(0, []);
    var text := Clock(fields, separators) + rest;
    if fields == [] {
      assert text == rest;
    } else {
      var v, first, tail := fields[0], PrintPadded(fields[0], 2), Clock(fields[1..], separators[1..]) + rest;
      assert text == first + ([separators[0]] + tail);
      FieldFits(v, 2);
      SomePowers();
      ClockBack(fields[1..], separators[1..], rest, n - 3);
      assert fields == [v] + fields[1..];
      FitsSplit(v, fields[1..]);
      if -10 < v < 100 {
        assert text == (first + [separators[0]]) + tail;
        KeepOver(first + [separators[0]], tail, n);
        assert Keep(text, n) == first + ([separators[0]] + Keep(tail, n - 3));
        ScanBack(v, 2, [separators[0]] + Keep(tail, n - 3), Some(2));
      } else {
        assert text == first[..3] + (first[3..] + ([separators[0]] + tail));
        KeepOver(first[..3], first[3..] + ([separators[0]] + tail), n);
        TooLong(v, text, n, first[3..] + ([separators[0]] + tail));
      }
    }
  }

  lemma FitsSplit(v: int, fields: seq<int>)
    ensures ClockFits([])
    ensures ClockFits([v] + fields) <==> -10 < v < 100 && ClockFits(fields)
  {
    var all := [v] + fields;
    if ClockFits(all) {
      assert v in all;
      forall x | x in fields ensures -10 < x < 100 { assert x in all; }
    }
  }

  lemma TooLong(v: int, text: string, n: nat, rest: string)
    requires |PrintPadded(v, 2)| > 2 && n >= 3
    requires Keep(text, n) == PrintPadded(v, 2)[..3] + Keep(rest, n - 3)
    ensures var r := ScanInt(Keep(text, n), Some(2)); r.Some? && r.value.1 != "" && IsDigit(r.value.1[0])
  {
    hide ScanInt, PrintPadded, Keep, Pow10;
    ScanCut(v, 2, Keep(text, n), 2);
  }

  /** The fields of a day-second interval that its text can carry. */
  predicate TextFits(v: DaySecond) {
    && ClockFits([v.hour, v.minute, v.second])
    && -1_0000_0000 < v.fraction < 10_0000_0000
  }

  /** An interval within these fields fits the scratch buffer of 32 bytes. */
  lemma DaySecondLength(v: DaySecond)
    requires Int32(v.day) && TextFits(v)
    ensures |DaySecondFormat(v)| <= 30 && DaySecondText(v) == DaySecondFormat(v)
  {
    hide PrintPadded, Clock, Pow10;
    PlainLength(v.day);
    ClockBack([v.hour, v.minute, v.second], "::.", "", 9);
    FieldFits(v.fraction, 9);
    SomePowers();
  }

  lemma PlainPrint(v: int)
    ensures PrintPadded(v, 0) == Print(v)
  {
    hide Digits;
    var digits := Digits(if v < 0 then -v else v);
    assert "" + digits == digits;
  }

  /** The `width` characters at `at` are digits, zeros in front, and their value is `v`. */
  predicate DigitsAt(s: string, at: nat, width: nat, v: nat) {
    at + width <= |s| && AllDigits(s[at..at + width]) && Value(s[at..at + width]) == v
  }

  lemma FixedField(v: nat, width: nat)
    requires width >= 2 && v < Pow10(width)
    ensures |PrintPadded(v, width)| == width && AllDigits(PrintPadded(v, width)) && Value(PrintPadded(v, width)) == v
  {
    hide PrintPadded, Value;
    DigitsAreDigits(v, width);
    FieldFits(v, width);
    PositivePower(width - 1);
    assert "" + Padded(v, width) == Padded(v, width);
  }

  /**
   The printed text by position, for fields that fit and are not negative: the day as it is printed, two digits
   for hour, minute and second, nine for the fraction, all with zeros in front, and the separators between them.
   */
  lemma DaySecondLayout(v: DaySecond)
    requires 0 <= v.hour < 100 && 0 <= v.minute < 100 && 0 <= v.second < 100 && 0 <= v.fraction < 10_0000_0000
    ensures var s, d := DaySecondFormat(v), |Print(v.day)|;
      && |s| == d + 19 && s[..d] == Print(v.day)
      && s[d] == ' ' && s[d + 3] == ':' && s[d + 6] == ':' && s[d + 9] == '.'
      && DigitsAt(s, d + 1, 2, v.hour) && DigitsAt(s, d + 4, 2, v.minute)
      && DigitsAt(s, d + 7, 2, v.second) && DigitsAt(s, d + 10, 9, v.fraction)
  {
    hide PrintPadded, Value, AllDigits, Print, Pow10;
    SomePowers();
    PlainPrint(v.day);
    FixedField(v.hour, 2);
    FixedField(v.minute, 2);
    FixedField(v.second, 2);
    FixedField(v.fraction, 9);
    ClockText(v.hour, v.minute, v.second);
    var h, m, sec, f := PrintPadded(v.hour, 2), PrintPadded(v.minute, 2), PrintPadded(v.second, 2), PrintPadded(v.fraction, 9);
    var s, d := DaySecondFormat(v), |Print(v.day)|;
    assert s == Print(v.day) + (" " + ((h + [':'] + (m + [':'] + (sec + ['.']))) + f));
    assert s[d + 1..d + 3] == h && s[d + 4..d + 6] == m && s[d + 7..d + 9] == sec && s[d + 10..d + 19] == f;
  }

  lemma ClockText(hour: int, minute: int, second: int)
    ensures Clock([hour, minute, second], "::.") ==
      PrintPadded(hour, 2) + [':'] + (PrintPadded(minute, 2) + [':'] + (PrintPadded(second, 2) + ['.']))
  {
    hide PrintPadded;
    assert [hour, minute, second][1..] == [minute, second] && [minute, second][1..] == [second] && [second][1..] == [];
    assert "::."[1..] == ":." && ":."[1..] == "." && "."[1..] == "";
    assert Clock([], "") == "";
    var last := PrintPadded(second, 2) + ['.'];
    assert Clock([second], ".") == last + "" == last;
  }

  /** A year-month interval is printed as its two numbers with a '-' between them. */
  lemma YearMonthLayout(v: YearMonth)
    ensures YearMonthFormat(v) == Print(v.year) + "-" + Print(v.month)
  {
    hide PrintPadded, Print;
    PlainPrint(v.year);
    PlainPrint(v.month);
  }

  lemma YearMonthLength(v: YearMonth)
    requires Int32(v.year) && Int32(v.month)
    ensures |YearMonthFormat(v)| <= 23 && YearMonthText(v) == YearMonthFormat(v)
  {
    PlainLength(v.year);
    PlainLength(v.month);
  }

  /** Year-month intervals are read back for all 32-bit pairs, negative ones included. */
  lemma YearMonthRoundTrip(v: YearMonth)
    requires Int32(v.year) && Int32(v.month)
    ensures ReadYearMonth(YearMonthText(v)) == Some(v)
  {
    hide ScanInt, PrintPadded;
    YearMonthLength(v);
    var month := PrintPadded(v.month, 0);
    ScanBack(v.year, 0, "-" + month, None);
    ScanBack(v.month, 0, "", None);
    assert month + "" == month && ("-" + month)[1..] == month;
  }

  /**
   Day-second intervals are read back exactly when hour, minute and second have at most two characters and
   the fraction at most nine, signs counted; the day is unrestricted.
   */
  lemma DaySecondRoundTripIff(v: DaySecond)
    requires Int32(v.day) && Int32(v.hour) && Int32(v.minute) && Int32(v.second) && Int32(v.fraction)
    ensures ReadDaySecond(DaySecondText(v)) == Some(v) <==> TextFits(v)
  {
    hide ScanInt, PrintPadded, Clock, ReadClock, Keep, ClockFits, Pow10;
    var day, fields, fraction := PrintPadded(v.day, 0), [v.hour, v.minute, v.second], PrintPadded(v.fraction, 9);
    var tail := Clock(fields, "::.") + fraction;
    PlainLength(v.day);
    assert day + (" " + tail) == (day + " ") + tail;
    KeepOver(day + " ", tail, SCRATCH);
    var left := SCRATCH - |day| - 1;
    assert DaySecondText(v) == day + (" " + Keep(tail, left));
    ScanBack(v.day, 0, " " + Keep(tail, left), None);
    ClockStarts(fields, "::.", fraction, left);
    assert (" " + Keep(tail, left))[1..] == Keep(tail, left);
    assert SkipSpaces(" " + Keep(tail, left)) == Keep(tail, left);
    ClockBack(fields, "::.", fraction, left);
    FractionBack(v.fraction, left - 9);
  }

  lemma ClockStarts(fields: seq<int>, separators: string, rest: string, n: nat)
    requires 0 < |fields| == |separators| && n >= 1
    ensures SkipSpaces(Keep(Clock(fields, separators) + rest, n)) == Keep(Clock(fields, separators) + rest, n)
  {
    hide Padded;
    DigitsAreDigits(fields[0], 2);
    var t := Keep(Clock(fields, separators) + rest, n);
    assert t[0] == PrintPadded(fields[0], 2)[0];
  }

  lemma FractionBack(v: int, n: nat)
    requires n >= 10
    ensures var r := ScanInt(Keep(PrintPadded(v, 9), n), Some(9));
      r.Some? && (r.value.0 == v <==> -1_0000_0000 < v < 10_0000_0000)
  {
    hide ScanInt, PrintPadded, Pow10;
    var text := PrintPadded(v, 9);
    FieldFits(v, 9);
    SomePowers();
    assert Keep(text, n) == Keep(text, n) + "";
    if |text| == 9 {
      ScanBack(v, 9, "", Some(9));
    } else {
      ScanCut(v, 9, Keep(text, n), 9);
    }
  }

  // ---- Into a character buffer. ----

  /** As much of the text as fits beside the terminator. */
  function IntervalImage(text: string, buflen: nat): (image: string)
    requires buflen > 0
    ensures |image| == Min(|text| + 1, buflen)
  {
    text[..Min(|text|, buflen - 1)] + [NUL]
  }

  function PutIntervalText(m: string, b: AppBuffer, text: string): (r: (string, ConversionResult))
    requires Fits(b, |m|) && b.kind.CharText? && (b.data.Some? ==> b.buflen > 0)
    ensures |r.0| == |m|
  {
    var m1 := if b.reslen.Some? then Poke(m, LenAt(b), LittleEndian(|text|, LEN_SIZE)) else m;
    if b.data.None? then (m1, Done)
    else (Poke(m1, DataAt(b), IntervalImage(text, b.buflen)), if |text| + 1 > b.buflen then TextTruncated else Done)
  }

  /** `strncpy` of at most `n` bytes. */
  method CopyBytes(mem: array<char>, at: nat, bytes: string, n: nat)
    requires n <= |bytes| && at + n <= mem.Length
    modifies mem
    ensures mem[..] == Poke(old(mem[..]), at, bytes[..n])
  {
    StoreBytes(mem, at, bytes[..n]);
  }

  /** `PutInterval` into a character buffer: the indicator gets the whole length, then a bounded copy. */
  method PutInterval(mem: array<char>, b: AppBuffer, text: string) returns (res: ConversionResult)
    requires Fits(b, mem.Length) && b.kind.CharText? && (b.data.Some? ==> b.buflen > 0)
    modifies mem
    ensures (mem[..], res) == PutIntervalText(old(mem[..]), b, text)
  {
    hide LittleEndian, Poke;
    var resLen := |text|;
    SetResLen(mem, b, resLen);
    if b.data.None? {
      return Done;
    }
    CopyBounded(mem, DataAt(b), text, b.buflen);
    res := if resLen + 1 > b.buflen then TextTruncated else Done;
  }

  /** The same into a wide buffer: the indicator still counts characters. */
  function PutIntervalWideText(m: string, b: AppBuffer, text: string): (r: (string, ConversionResult))
    requires Fits(b, |m|) && b.kind.WideText? && (b.data.Some? ==> b.buflen >= CharSize(b.kind))
    ensures |r.0| == |m|
  {
    var m1 := if b.reslen.Some? then Poke(m, LenAt(b), LittleEndian(|text|, LEN_SIZE)) else m;
    if b.data.None? then (m1, Done)
    else (Poke(m1, DataAt(b), TextImage(b, text)), if Kept(b, text) < |CStr(text)| then TextTruncated else Done)
  }

  method PutIntervalWide(mem: array<char>, b: AppBuffer, text: string) returns (res: ConversionResult)
    requires Fits(b, mem.Length) && b.kind.WideText? && (b.data.Some? ==> b.buflen >= CharSize(b.kind))
    modifies mem
    ensures (mem[..], res) == PutIntervalWideText(old(mem[..]), b, text)
  {
    hide LittleEndian, Poke, CStr, TextImage;
    SetResLen(mem, b, |text|);
    if b.data.None? {
      return Done;
    }
    var _, isTruncated := CopyText(mem, b, text);
    res := if isTruncated then TextTruncated else Done;
  }

  /** `strncpy` and, when the text was cut, the terminator in the last byte. */
  method CopyBounded(mem: array<char>, at: nat, text: string, buflen: nat)
    requires buflen > 0 && at + buflen <= mem.Length
    modifies mem
    ensures mem[..] == Poke(old(mem[..]), at, IntervalImage(text, buflen))
  {
    hide Poke;
    ghost var before := mem[..];
    var bytes := text + [NUL];
    CopyBytes(mem, at, bytes, Min(|text| + 1, buflen));
    if |text| + 1 > buflen {
      StoreBytes(mem, at + buflen - 1, [NUL]);
      LastByte(before, at, bytes[..buflen]);
      assert bytes[..buflen][..buflen - 1] == text[..buflen - 1];
    } else {
      assert bytes[..|text| + 1] == text[..|text|] + [NUL];
    }
  }

  lemma LastByte(m: string, at: nat, bytes: string)
    requires bytes != "" && at + |bytes| <= |m|
    ensures Poke(Poke(m, at, bytes), at + |bytes| - 1, [NUL]) == Poke(m, at, bytes[..|bytes| - 1] + [NUL])
  {
  }

  /**
   From the interval to the application's buffer and back: in a buffer of at least 32 bytes the C string
   reads back as the interval exactly when its fields fit the format.
   */
  lemma BufferRoundTripIff(m: string, b: AppBuffer, v: DaySecond)
    requires Fits(b, |m|) && b.kind.CharText? && b.buflen > SCRATCH && b.data.Some?
    requires Int32(v.day) && Int32(v.hour) && Int32(v.minute) && Int32(v.second) && Int32(v.fraction)
    ensures PutIntervalText(m, b, DaySecondText(v)).1 == Done
    ensures ReadDaySecond(CStr(PutIntervalText(m, b, DaySecondText(v)).0[DataAt(b)..DataAt(b) + b.buflen])) == Some(v)
       <==> TextFits(v)
  {
    hide ReadDaySecond, DaySecondFormat, DaySecondText, LittleEndian, CStr, PutIntervalText;
    var text := DaySecondText(v);
    ShortText(v);
    NoNul(v);
    SlotText(m, b, text);
    DaySecondRoundTripIff(v);
  }

  lemma ShortText(v: DaySecond)
    ensures |DaySecondText(v)| <= SCRATCH
  {
    hide DaySecondFormat;
  }

  /** The C string in the buffer is the text when there is room for it. */
  lemma SlotText(m: string, b: AppBuffer, text: string)
    requires Fits(b, |m|) && b.kind.CharText? && b.buflen > |text| && b.data.Some? && NUL !in text
    ensures PutIntervalText(m, b, text).1 == Done
    ensures CStr(PutIntervalText(m, b, text).0[DataAt(b)..DataAt(b) + b.buflen]) == text
  {
    hide LittleEndian, CStr, Poke;
    var m1 := if b.reslen.Some? then Poke(m, LenAt(b), LittleEndian(|text|, LEN_SIZE)) else m;
    assert text[..|text|] == text;
    PokedText(m1, DataAt(b), text, b.buflen);
    CStrIs(Poke(m1, DataAt(b), text + [NUL])[DataAt(b)..DataAt(b) + b.buflen], |text|);
  }

  lemma PokedText(m: string, at: nat, text: string, buflen: nat)
    requires |text| < buflen && at + buflen <= |m|
    ensures var slot := Poke(m, at, text + [NUL])[at..at + buflen];
      slot[..|text|] == text && slot[|text|] == NUL
  {
    var poked := Poke(m, at, text + [NUL]);
    hide Poke;
    forall i | 0 <= i <= |text| ensures poked[at + i] == (text + [NUL])[i] {
    }
  }

  lemma NoNul(v: DaySecond)
    ensures NUL !in DaySecondText(v)
  {
    hide PrintPadded, Clock;
    FieldNoNul(v.day, 0);
    FieldNoNul(v.fraction, 9);
    ClockNoNul([v.hour, v.minute, v.second], "::.");
  }

  lemma FieldNoNul(v: int, width: nat)
    ensures NUL !in PrintPadded(v, width)
  {
    hide Padded, Value, PrintPadded;
    DigitsAreDigits(v, width);
  }

  lemma {:induction false} ClockNoNul(fields: seq<int>, separators: string)
    requires |fields| == |separators| && NUL !in separators
    ensures NUL !in Clock(fields, separators)
    decreases |fields|
  {
    hide PrintPadded;
    if fields != [] {
      FieldNoNul(fields[0], 2);
      assert separators[0] in separators;
      ClockNoNul(fields[1..], separators[1..]);
    }
  }
}
