/**
 Unique readability: two different values never print alike, as long as their leaves are ordinary
 texts. The print is read from the left; after a value comes a comma, a closing bracket or the end.
 */
module Readability {
  import opened Options
  import opened Datums
  import opened AppBuffers
  import opened Renderer
  import opened Rendering

  predicate IsStop(ch: char) {
    ch == ',' || ch == ']' || ch == ')' || ch == '}'
  }

  predicate IsSpecial(ch: char) {
    IsStop(ch) || ch == '[' || ch == '(' || ch == '{'
  }

  predicate PlainText(t: string) {
    t != "" && forall i | 0 <= i < |t| :: !IsSpecial(t[i])
  }

  /** The values whose print can be read back. */
  ghost predicate Plain(d: Datum)
    decreases d
  {
    match d
    case Scalar(text) => PlainText(text) && text != "-"
    case TimeSeries(points) => forall p | p in points :: PlainPoint(p)
    case Array(items) => items != [] && forall x | x in items :: Plain(x)
    case RowOf(isSet, cells) => isSet && forall x | x in cells :: Plain(x)
    case Null => true
    case Unset => false
  }

  ghost predicate PlainPoint(p: Point)
    decreases p
  {
    && (p.time.Some? ==> p.time.value != "" && ',' !in p.time.value)
    && (p.value.Some? ==> Plain(p.value.value))
  }

  /** What may follow a value. */
  predicate Ends(x: string) {
    x == "" || IsStop(x[0])
  }

  /** What may follow a list of values. */
  predicate Closes(x: string) {
    x != "" && (x[0] == ']' || x[0] == ')' || x[0] == '}')
  }

  lemma {:induction false} SpanUnique(t: string, u: string, x: string, y: string)
    requires forall i | 0 <= i < |t| :: !IsStop(t[i])
    requires forall i | 0 <= i < |u| :: !IsStop(u[i])
    requires Ends(x) && Ends(y) && t + x == u + y
    ensures t == u && x == y
  {
    var z := t + x;
    var stops := (if |t| < |z| then IsStop(z[|t|]) else true) && (if |u| < |z| then IsStop(z[|u|]) else true);
    if |t| != |u| { assert false; }
    DropFront(t, x, u, y);
  }

  /** The first character tells a list of values from its end and from a list of points. */
  lemma FirstChar(d: Datum)
    requires Plain(d)
    ensures Full(d) != "" && !IsStop(Full(d)[0]) && Full(d)[0] != '{'
    ensures Full(d)[0] == '[' <==> d.TimeSeries? || d.Array?
    ensures Full(d)[0] == '(' <==> d.RowOf?
  {
  }

  /** What follows the first value of a non-empty list. */
  function AfterFirst(items: seq<Datum>, x: string): string
    requires items != []
  {
    if |items| == 1 then x else "," + (FullItems(items[1..]) + x)
  }

  lemma Regroup(a: string, b: string, c: string, d: string)
    ensures (a + (b + c)) + d == a + (b + (c + d))
  {
  }

  lemma SplitItems(items: seq<Datum>, x: string)
    requires items != []
    ensures FullItems(items) + x == Full(items[0]) + AfterFirst(items, x)
  {
    hide Full;
    if |items| > 1 {
      Regroup(Full(items[0]), ",", FullItems(items[1..]), x);
    }
  }

  lemma DropFront(a: string, x: string, b: string, y: string)
    requires |a| == |b| && a + x == b + y
    ensures a == b && x == y
  {
    assert a == (a + x)[..|a|] && b == (b + y)[..|b|];
    assert x == (a + x)[|a|..] && y == (b + y)[|b|..];
  }

  lemma {:induction false} ReadItems(items: seq<Datum>, others: seq<Datum>, x: string, y: string)
    requires items != [] && others != []
    requires (forall d | d in items :: Plain(d)) && (forall d | d in others :: Plain(d))
    requires Closes(x) && Closes(y) && FullItems(items) + x == FullItems(others) + y
    ensures items == others && x == y
    decreases items, 0
  {
    hide Full, Plain, FullItems;
    assert items[0] in items && others[0] in others;
    SplitItems(items, x);
    SplitItems(others, y);
    ReadValue(items[0], others[0], AfterFirst(items, x), AfterFirst(others, y));
    if |items| > 1 && |others| > 1 {
      DropFront(",", FullItems(items[1..]) + x, ",", FullItems(others[1..]) + y);
      ReadItems(items[1..], others[1..], x, y);
    }
    assert items == [items[0]] + items[1..] && others == [others[0]] + others[1..];
  }

  function AfterFirstPoint(points: seq<Point>, x: string): string
    requires points != []
  {
    if |points| == 1 then x else "," + (FullPoints(points[1..]) + x)
  }

  lemma SplitPoints(points: seq<Point>, x: string)
    requires points != []
    ensures FullPoints(points) + x == FullPoint(points[0]) + AfterFirstPoint(points, x)
  {
    hide FullPoint;
    if |points| > 1 {
      Regroup(FullPoint(points[0]), ",", FullPoints(points[1..]), x);
    }
  }

  lemma {:induction false} ReadPoints(points: seq<Point>, others: seq<Point>, x: string, y: string)
    requires points != [] && others != []
    requires (forall p | p in points :: PlainPoint(p)) && (forall p | p in others :: PlainPoint(p))
    requires Closes(x) && Closes(y) && FullPoints(points) + x == FullPoints(others) + y
    ensures points == others && x == y
    decreases points, 0
  {
    hide FullPoint, PlainPoint, FullPoints;
    assert points[0] in points && others[0] in others;
    SplitPoints(points, x);
    SplitPoints(others, y);
    ReadPoint(points[0], others[0], AfterFirstPoint(points, x), AfterFirstPoint(others, y));
    if |points| > 1 && |others| > 1 {
      DropFront(",", FullPoints(points[1..]) + x, ",", FullPoints(others[1..]) + y);
      ReadPoints(points[1..], others[1..], x, y);
    }
    assert points == [points[0]] + points[1..] && others == [others[0]] + others[1..];
  }

  function TimeText(p: Point): string {
    if p.time.Some? then p.time.value else ""
  }

  function ValueText(p: Point): string {
    if p.value.Some? then Full(p.value.value) else ""
  }

  lemma SplitPoint(p: Point, x: string)
    ensures FullPoint(p) + x == "{time: " + (TimeText(p) + (", value: " + (ValueText(p) + ("}" + x))))
  {
  }

  lemma {:induction false} ReadPoint(p: Point, q: Point, x: string, y: string)
    requires PlainPoint(p) && PlainPoint(q) && FullPoint(p) + x == FullPoint(q) + y
    ensures p == q && x == y
    decreases p
  {
    hide Full, FullPoint;
    SplitPoint(p, x);
    SplitPoint(q, y);
    var afterP, afterQ := ", value: " + (ValueText(p) + ("}" + x)), ", value: " + (ValueText(q) + ("}" + y));
    DropFront("{time: ", TimeText(p) + afterP, "{time: ", TimeText(q) + afterQ);
    CommaFree(TimeText(p), TimeText(q), afterP, afterQ);
    DropFront(", value: ", ValueText(p) + ("}" + x), ", value: ", ValueText(q) + ("}" + y));
    if p.value.Some? { FirstChar(p.value.value); }
    if q.value.Some? { FirstChar(q.value.value); }
    assert (ValueText(p) + ("}" + x))[0] == '}' <==> p.value.None?;
    assert (ValueText(q) + ("}" + y))[0] == '}' <==> q.value.None?;
    if p.value.Some? {
      ReadValue(p.value.value, q.value.value, "}" + x, "}" + y);
    } else {
      assert ValueText(p) + ("}" + x) == "}" + x && ValueText(q) + ("}" + y) == "}" + y;
    }
    DropFront("}", x, "}", y);
  }

  lemma {:induction false} CommaFree(t: string, u: string, x: string, y: string)
    requires ',' !in t && ',' !in u && x != "" && y != "" && x[0] == ',' == y[0] && t + x == u + y
    ensures t == u && x == y
  {
    var z := t + x;
    var commas := z[|t|] == ',' && z[|u|] == ',';
    if |t| != |u| { assert false; }
    DropFront(t, x, u, y);
  }

  lemma FirstItemChar(items: seq<Datum>, x: string)
    requires items != [] && forall d | d in items :: Plain(d)
    ensures FullItems(items) + x != ""
    ensures !IsStop((FullItems(items) + x)[0]) && (FullItems(items) + x)[0] != '{'
  {
    hide Full, Plain, FullItems;
    assert items[0] in items;
    SplitItems(items, x);
    FirstChar(items[0]);
  }

  lemma FirstPointChar(points: seq<Point>, x: string)
    requires points != []
    ensures FullPoints(points) + x != "" && (FullPoints(points) + x)[0] == '{'
  {
  }

  lemma {:induction false} ReadRow(cells: seq<Datum>, others: seq<Datum>, x: string, y: string)
    requires (forall d | d in cells :: Plain(d)) && (forall d | d in others :: Plain(d))
    requires FullItems(cells) + (")" + x) == FullItems(others) + (")" + y)
    ensures cells == others && x == y
    decreases cells, 1
  {
    hide Full, Plain;
    if cells != [] { FirstItemChar(cells, ")" + x); }
    if others != [] { FirstItemChar(others, ")" + y); }
    if cells != [] && others != [] {
      ReadItems(cells, others, ")" + x, ")" + y);
    }
    if cells == [] { assert FullItems(cells) + (")" + x) == ")" + x; }
    if others == [] { assert FullItems(others) + (")" + y) == ")" + y; }
    DropFront(")", x, ")", y);
  }

  lemma {:induction false} ReadSeries(points: seq<Point>, others: seq<Point>, x: string, y: string)
    requires (forall p | p in points :: PlainPoint(p)) && (forall p | p in others :: PlainPoint(p))
    requires FullPoints(points) + ("]" + x) == FullPoints(others) + ("]" + y)
    ensures points == others && x == y
    decreases points, 1
  {
    hide FullPoint, PlainPoint;
    if points != [] { FirstPointChar(points, "]" + x); }
    if others != [] { FirstPointChar(others, "]" + y); }
    if points != [] && others != [] {
      ReadPoints(points, others, "]" + x, "]" + y);
    }
    if points == [] { assert FullPoints(points) + ("]" + x) == "]" + x; }
    if others == [] { assert FullPoints(others) + ("]" + y) == "]" + y; }
    DropFront("]", x, "]", y);
  }

  /** What stands between the brackets of a list. */
  function Inner(d: Datum): string {
    match d
    case TimeSeries(points) => FullPoints(points)
    case Array(items) => FullItems(items)
    case RowOf(_, cells) => FullItems(cells)
    case _ => ""
  }

  lemma SplitBrackets(d: Datum, x: string)
    requires Plain(d)
    ensures d.RowOf? ==> Full(d) + x == "(" + (Inner(d) + (")" + x))
    ensures d.TimeSeries? || d.Array? ==> Full(d) + x == "[" + (Inner(d) + ("]" + x))
  {
  }

  lemma {:induction false} ReadSquare(d: Datum, e: Datum, x: string, y: string)
    requires Plain(d) && Plain(e) && (d.TimeSeries? || d.Array?) && (e.TimeSeries? || e.Array?)
    requires Inner(d) + ("]" + x) == Inner(e) + ("]" + y)
    ensures d == e && x == y
    decreases d, 0
  {
    if d.Array? { FirstItemChar(d.items, "]" + x); }
    if e.Array? { FirstItemChar(e.items, "]" + y); }
    if d.TimeSeries? && d.points != [] { FirstPointChar(d.points, "]" + x); }
    if e.TimeSeries? && e.points != [] { FirstPointChar(e.points, "]" + y); }
    if d.Array? && e.Array? {
      ReadItems(d.items, e.items, "]" + x, "]" + y);
      DropFront("]", x, "]", y);
    } else if d.TimeSeries? && e.TimeSeries? {
      ReadSeries(d.points, e.points, x, y);
    }
  }

  /** Reading a value off the front of a text. */
  lemma {:induction false} ReadValue(d: Datum, e: Datum, x: string, y: string)
    requires Plain(d) && Plain(e) && Ends(x) && Ends(y) && Full(d) + x == Full(e) + y
    ensures d == e && x == y
    decreases d, 1
  {
    FirstChar(d);
    FirstChar(e);
    assert (Full(d) + x)[0] == Full(d)[0] && (Full(e) + y)[0] == Full(e)[0];
    if d.RowOf? {
      SplitBrackets(d, x);
      SplitBrackets(e, y);
      DropFront("(", Inner(d) + (")" + x), "(", Inner(e) + (")" + y));
      ReadRow(d.cells, e.cells, x, y);
    } else if d.TimeSeries? || d.Array? {
      SplitBrackets(d, x);
      SplitBrackets(e, y);
      DropFront("[", Inner(d) + ("]" + x), "[", Inner(e) + ("]" + y));
      ReadSquare(d, e, x, y);
    } else {
      SpanUnique(Full(d), Full(e), x, y);
    }
  }

  /** Different values, neither of them truncated, are rendered differently. */
  lemma UniquelyReadable(d: Datum, e: Datum)
    requires Plain(d) && Plain(e) && FitsScratch(d) && FitsScratch(e)
    ensures Text(d) == Text(e) ==> d == e
  {
    hide Text, Full, Plain, FitsScratch;
    NothingTruncated(d);
    NothingTruncated(e);
    if Text(d) == Text(e) {
      assert Full(d) + "" == Full(d) && Full(e) + "" == Full(e);
      ReadValue(d, e, "", "");
    }
  }

  /**
   Outside that class the text can be ambiguous: exactly a null, an empty array and the text "-" are rendered as a
   dash.
   */
  lemma DashIff(d: Datum)
    ensures Text(d) == "-" <==> d.Null? || d == Array([]) || d == Scalar("-")
  {
    hide ItemsText, PointsText;
    match d
    case TimeSeries(points) => assert ("[" + PointsText(points) + "]")[0] == '[';
    case Array(items) => if items != [] { assert ("[" + ItemsText(items) + "]")[0] == '['; }
    case RowOf(isSet, cells) => if isSet { assert ("(" + ItemsText(cells) + ")")[0] == '('; }
    case _ =>
  }
}
