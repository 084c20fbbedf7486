/**
 How a cell becomes text. `Text` says what the loops of `ParseDatum` and its helpers put into the
 bound buffer; every nested value passes through a scratch buffer of 1024 bytes.
 */
module Renderer {
  import opened Options
  import opened Datums
  import opened AppBuffers

  const BUFFER_SIZE: nat := 1024

  /** What is left of a text in the scratch buffer. */
  function Cut(s: string): (r: string)
    ensures |r| < BUFFER_SIZE && NUL !in r
  {
    var t := CStr(s);
    if |t| < BUFFER_SIZE then t else t[..BUFFER_SIZE - 1]
  }

  function Text(d: Datum): string
    decreases d
  {
    match d
    case Scalar(text) => text
    case TimeSeries(points) => "[" + PointsText(points) + "]"
    case Array(items) => if items == [] then "-" else "[" + ItemsText(items) + "]"
    case RowOf(isSet, cells) => if isSet then "(" + ItemsText(cells) + ")" else ""
    case Null => "-"
    case Unset => ""
  }

  /** The nested values, each cut to the scratch buffer, joined by commas. */
  function ItemsText(items: seq<Datum>): string
    decreases items
  {
    if items == [] then ""
    else Cut(Text(items[0])) + (if |items| == 1 then "" else "," + ItemsText(items[1..]))
  }

  function PointText(p: Point): string
    decreases p
  {
    "{time: " + (if p.time.Some? then p.time.value else "") + ", value: "
    + (if p.value.Some? then Cut(Text(p.value.value)) else "") + "}"
  }

  function PointsText(points: seq<Point>): string
    decreases points
  {
    if points == [] then ""
    else PointText(points[0]) + (if |points| == 1 then "" else "," + PointsText(points[1..]))
  }

  /** Nothing is put for a value that has no kind, or for a row without data. */
  function ReadCell(m: string, b: AppBuffer, d: Datum): (r: (string, ConversionResult))
    requires Fits(b, |m|)
    ensures |r.0| == |m|
  {
    match d
    case Unset => (m, Failed)
    case RowOf(false, _) => (m, NoneFound)
    case Null => (PutString(m, b, "-").0, Done)
    case _ => PutString(m, b, Text(d))
  }

  // ---- The loops. ----

  /** The items rendered so far, each followed by a comma. */
  function Terminated(items: seq<Datum>, n: nat): string
    requires n <= |items|
  {
    if n == 0 then "" else Terminated(items, n - 1) + Cut(Text(items[n - 1])) + ","
  }

  function TerminatedPoints(points: seq<Point>, n: nat): string
    requires n <= |points|
  {
    if n == 0 then "" else TerminatedPoints(points, n - 1) + PointText(points[n - 1]) + ","
  }

  lemma {:induction false} TerminatedFrom(items: seq<Datum>, n: nat)
    requires 0 < n <= |items|
    ensures Terminated(items, n) == Cut(Text(items[0])) + "," + Terminated(items[1..], n - 1)
  {
    hide Text, Cut;
    if n > 1 {
      TerminatedFrom(items, n - 1);
    }
  }

  lemma {:induction false} TerminatedPointsFrom(points: seq<Point>, n: nat)
    requires 0 < n <= |points|
    ensures TerminatedPoints(points, n) == PointText(points[0]) + "," + TerminatedPoints(points[1..], n - 1)
  {
    hide PointText;
    if n > 1 {
      TerminatedPointsFrom(points, n - 1);
    }
  }

  /** Appending commas and popping the last one is joining. */
  lemma {:induction false} PopBackJoins(items: seq<Datum>)
    requires items != []
    ensures Terminated(items, |items|) == ItemsText(items) + ","
    decreases items
  {
    hide Text, Cut, Terminated;
    TerminatedFrom(items, |items|);
    var first := Cut(Text(items[0]));
    if |items| > 1 {
      PopBackJoins(items[1..]);
      assert first + "," + (ItemsText(items[1..]) + ",") == first + ("," + ItemsText(items[1..])) + ",";
    } else {
      NoneTerminated(items[1..]);
      assert first + "," + "" == first + "" + ",";
    }
  }

  lemma NoneTerminated(items: seq<Datum>)
    ensures Terminated(items, 0) == ""
  {
  }

  lemma {:induction false} PopBackJoinsPoints(points: seq<Point>)
    requires points != []
    ensures TerminatedPoints(points, |points|) == PointsText(points) + ","
    decreases points
  {
    hide PointText, TerminatedPoints;
    TerminatedPointsFrom(points, |points|);
    var first := PointText(points[0]);
    if |points| > 1 {
      PopBackJoinsPoints(points[1..]);
      assert first + "," + (PointsText(points[1..]) + ",") == first + ("," + PointsText(points[1..])) + ",";
    } else {
      NonePointTerminated(points[1..]);
      assert first + "," + "" == first + "" + ",";
    }
  }

  lemma NonePointTerminated(points: seq<Point>)
    ensures TerminatedPoints(points, 0) == ""
  {
  }

  /** Reads back the C string a scratch buffer holds. */
  method ScratchText(mem: array<char>, base: nat) returns (s: string)
    requires base + BUFFER_SIZE <= mem.Length
    ensures s == CStr(mem[base..base + BUFFER_SIZE])
  {
    var all := mem[base..base + BUFFER_SIZE];
    var n := StrLen(all);
    s := all[..n];
  }

  /** A scratch buffer at some stack address with its length indicator behind it. */
  predicate IsScratch(b: AppBuffer, base: nat) {
    && b.kind.CharText? && b.buflen == BUFFER_SIZE && b.byteOffset == b.elementOffset == 0
    && b.data == Some(base) && b.reslen == Some(base + BUFFER_SIZE)
  }

  /** A buffer that starts with the C string `t`. */
  predicate HoldsCString(m: string, t: string) {
    |t| < |m| && m[..|t|] == t && NUL !in t && m[|t|] == NUL
  }

  lemma ScratchAt(b: AppBuffer, base: nat)
    requires IsScratch(b, base)
    ensures DataAt(b) == base && LenAt(b) == base + BUFFER_SIZE && Fits(b, base + BUFFER_SIZE + LEN_SIZE)
  {
  }

  lemma ScratchAfterPut(m: string, b: AppBuffer, base: nat, t: string)
    requires IsScratch(b, base) && |m| == base + BUFFER_SIZE + LEN_SIZE
    ensures Fits(b, |m|)
    ensures HoldsCString(PutString(m, b, t).0[base..base + BUFFER_SIZE], Cut(t))
  {
    hide CStr, LittleEndian, ReadNumber, ByteOf, Fits, DataAt, LenAt, Poke;
    ScratchAt(b, base);
    assert TextImage(b, t) == Cut(t) + [NUL];
    var m1 := Poke(m, base, TextImage(b, t));
    var m2 := PutString(m, b, t).0;
    assert m2 == Poke(m1, base + BUFFER_SIZE, LittleEndian(Kept(b, t), LEN_SIZE));
    forall i | 0 <= i <= |Cut(t)| ensures m2[base + i] == (Cut(t) + [NUL])[i] {
      assert m2[base + i] == m1[base + i] == TextImage(b, t)[i];
    }
  }

  /** After a nested value has been put into a zeroed scratch buffer, its C string is the cut text. */
  lemma ScratchHolds(m: string, b: AppBuffer, base: nat, d: Datum)
    requires IsScratch(b, base) && |m| == base + BUFFER_SIZE + LEN_SIZE && m[base] == NUL
    ensures Fits(b, |m|)
    ensures HoldsCString(ReadCell(m, b, d).0[base..base + BUFFER_SIZE], Cut(Text(d)))
  {
    hide PutString, CStr, ItemsText, PointsText, Cut, Fits;
    ScratchAfterPut(m, b, base, Text(d));
    EmptyCut();
  }

  lemma EmptyCut()
    ensures Cut("") == ""
  {
  }

  /** A nested value: rendered into a fresh scratch buffer, read back as a C string. */
  method NestedText(d: Datum) returns (s: string)
    ensures s == Cut(Text(d))
    decreases d, 1
  {
    hide Text, ReadCell, Cut, CStr;
    var base: nat :| 0 <= base;
    var buf := new char[base + BUFFER_SIZE + LEN_SIZE](_ => NUL);
    var tmpBuf := AppBuffer(CharText, Some(base), BUFFER_SIZE, Some(base + BUFFER_SIZE), 0, 0);
    ghost var zeroed := buf[..];
    var res := ParseDatum(d, buf, tmpBuf);
    ScratchHolds(zeroed, tmpBuf, base, d);
    assert buf[base..base + BUFFER_SIZE] == buf[..][base..base + BUFFER_SIZE];
    CStrIs(buf[base..base + BUFFER_SIZE], |Cut(Text(d))|);
    s := ScratchText(buf, base);
  }

  method JoinItems(items: seq<Datum>) returns (s: string)
    ensures s == Terminated(items, |items|)
    decreases items, 0
  {
    hide Text, Cut;
    s := "";
    for i := 0 to |items|
      invariant s == Terminated(items, i)
    {
      var text := NestedText(items[i]);
      s := s + text;
      s := s + ",";
    }
  }

  method PointString(p: Point) returns (s: string)
    ensures s == PointText(p)
    decreases p, 2
  {
    hide Text, Cut;
    s := "{time: ";
    if p.time.Some? {
      s := s + p.time.value;
    }
    s := s + ", value: ";
    if p.value.Some? {
      var text := NestedText(p.value.value);
      s := s + text;
    }
    s := s + "}";
  }

  method JoinPoints(points: seq<Point>) returns (s: string)
    ensures s == TerminatedPoints(points, |points|)
    decreases points, 0
  {
    hide PointText;
    s := "";
    for i := 0 to |points|
      invariant s == TerminatedPoints(points, i)
    {
      var text := PointString(points[i]);
      s := s + text;
      s := s + ",";
    }
  }

  method ParseTimeSeriesType(points: seq<Point>, mem: array<char>, b: AppBuffer) returns (res: ConversionResult)
    requires Fits(b, mem.Length)
    modifies mem
    ensures (mem[..], res) == PutString(old(mem[..]), b, Text(TimeSeries(points)))
    decreases points, 1
  {
    var joined := JoinPoints(points);
    var result := "[" + joined;
    if points != [] {
      PopBackJoinsPoints(points);
      result := result[..|result| - 1];
    }
    result := result + "]";
    assert result == Text(TimeSeries(points));
    res := PutStringToBuffer(mem, b, result);
  }

  method ParseArrayType(items: seq<Datum>, mem: array<char>, b: AppBuffer) returns (res: ConversionResult)
    requires Fits(b, mem.Length)
    modifies mem
    ensures (mem[..], res) == PutString(old(mem[..]), b, Text(Array(items)))
    decreases items, 1
  {
    var result;
    if items == [] {
      result := "-";
    } else {
      var joined := JoinItems(items);
      result := "[" + joined;
      PopBackJoins(items);
      result := result[..|result| - 1];
      result := result + "]";
    }
    assert result == Text(Array(items));
    res := PutStringToBuffer(mem, b, result);
  }

  method ParseRowType(isSet: bool, cells: seq<Datum>, mem: array<char>, b: AppBuffer)
    returns (res: ConversionResult)
    requires Fits(b, mem.Length)
    modifies mem
    ensures (mem[..], res) == ReadCell(old(mem[..]), b, RowOf(isSet, cells))
    decreases cells, 1
  {
    hide PutString, ItemsText;
    if !isSet {
      return NoneFound;
    }
    var joined := JoinItems(cells);
    var result := "(" + joined;
    if cells != [] {
      PopBackJoins(cells);
      result := result[..|result| - 1];
    } else {
      NoItems();
    }
    result := result + ")";
    assert result == Text(RowOf(isSet, cells));
    res := PutStringToBuffer(mem, b, result);
  }

  lemma NoItems()
    ensures ItemsText([]) == ""
  {
  }

  /** `ParseDatum`, for a column of type VARCHAR (the scalar type of every nested column). */
  method ParseDatum(d: Datum, mem: array<char>, b: AppBuffer) returns (res: ConversionResult)
    requires Fits(b, mem.Length)
    modifies mem
    ensures (mem[..], res) == ReadCell(old(mem[..]), b, d)
    decreases d, 0
  {
    match d
    case Scalar(text) => res := PutStringToBuffer(mem, b, text);
    case TimeSeries(points) => res := ParseTimeSeriesType(points, mem, b);
    case Array(items) => res := ParseArrayType(items, mem, b);
    case RowOf(isSet, cells) => res := ParseRowType(isSet, cells, mem, b);
    case Null =>
      var ignored := PutStringToBuffer(mem, b, "-");
      res := Done;
    case Unset => res := Failed;
  }
}
