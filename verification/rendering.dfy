/** What the rendered text of a nested value means to its reader. */
module Rendering {
  import opened Options
  import opened Datums
  import opened AppBuffers
  import opened Renderer

  // ---- Lengths. ----

  lemma {:induction false} ItemsLength(items: seq<Datum>)
    ensures |ItemsText(items)| <= BUFFER_SIZE * |items|
    ensures items != [] ==> |ItemsText(items)| <= BUFFER_SIZE * |items| - 1
    decreases items
  {
    hide Text, Cut;
    if items != [] {
      ItemsLength(items[1..]);
      CutLength(Text(items[0]));
    }
  }

  lemma CutLength(s: string)
    ensures |Cut(s)| <= BUFFER_SIZE - 1
  {
  }

  /** An array of m values never renders to more than 1024 m + 1 characters. */
  lemma ArrayLength(items: seq<Datum>)
    requires items != []
    ensures |Text(Array(items))| <= 1024 * |items| + 1
  {
    ItemsLength(items);
  }

  // ---- The untruncated print. ----

  function Full(d: Datum): string
    decreases d
  {
    match d
    case Scalar(text) => text
    case TimeSeries(points) => "[" + FullPoints(points) + "]"
    case Array(items) => if items == [] then "-" else "[" + FullItems(items) + "]"
    case RowOf(isSet, cells) => if isSet then "(" + FullItems(cells) + ")" else ""
    case Null => "-"
    case Unset => ""
  }

  function FullItems(items: seq<Datum>): string
    decreases items
  {
    if items == [] then ""
    else Full(items[0]) + (if |items| == 1 then "" else "," + FullItems(items[1..]))
  }

  function FullPoint(p: Point): string
    decreases p
  {
    "{time: " + (if p.time.Some? then p.time.value else "") + ", value: "
    + (if p.value.Some? then Full(p.value.value) else "") + "}"
  }

  function FullPoints(points: seq<Point>): string
    decreases points
  {
    if points == [] then ""
    else FullPoint(points[0]) + (if |points| == 1 then "" else "," + FullPoints(points[1..]))
  }

  /** No nested value reaches the size of the scratch buffer or holds a NUL. */
  ghost predicate FitsScratch(d: Datum)
    decreases d, 0
  {
    match d
    case TimeSeries(points) => forall p | p in points :: PointFits(p)
    case Array(items) => forall x | x in items :: Nested(x)
    case RowOf(_, cells) => forall x | x in cells :: Nested(x)
    case _ => true
  }

  ghost predicate PointFits(p: Point)
    decreases p
  {
    p.value.Some? ==> Nested(p.value.value)
  }

  ghost predicate Nested(d: Datum)
    decreases d, 1
  {
    FitsScratch(d) && |Full(d)| < 1024 && NUL !in Full(d)
  }

  lemma CutIdentity(s: string)
    requires |s| < BUFFER_SIZE && NUL !in s
    ensures Cut(s) == s
  {
    CStrIs(s, |s|);
  }

  /** Then nothing is truncated, and what is put is the print of the whole tree. */
  lemma {:induction false} NothingTruncated(d: Datum)
    requires FitsScratch(d)
    ensures Text(d) == Full(d)
    decreases d
  {
    match d
    case TimeSeries(points) => PointsWhole(points);
    case Array(items) => ItemsWhole(items);
    case RowOf(_, cells) => ItemsWhole(cells);
    case _ =>
  }

  lemma {:induction false} ItemsWhole(items: seq<Datum>)
    requires forall x | x in items :: Nested(x)
    ensures ItemsText(items) == FullItems(items)
    decreases items
  {
    hide Cut;
    if items != [] {
      assert items[0] in items;
      NothingTruncated(items[0]);
      CutIdentity(Full(items[0]));
      ItemsWhole(items[1..]);
    }
  }

  lemma {:induction false} PointWhole(p: Point)
    requires PointFits(p)
    ensures PointText(p) == FullPoint(p)
    decreases p
  {
    hide Cut;
    if p.value.Some? {
      NothingTruncated(p.value.value);
      CutIdentity(Full(p.value.value));
    }
  }

  lemma {:induction false} PointsWhole(points: seq<Point>)
    requires forall p | p in points :: PointFits(p)
    ensures PointsText(points) == FullPoints(points)
    decreases points
  {
    if points != [] {
      assert points[0] in points;
      PointWhole(points[0]);
      PointsWhole(points[1..]);
    }
  }
}
