/**
 The server seen through the paging API. A request carries a token (0 is the request without a
 token) and is answered by a failure or by a page; a page names the token of the next page, or no
 token when it is the last one. The tokens of one query form a finite chain.
 */
module ServerChain {
  import opened Options
  import opened Datums

  datatype Outcome = Failure | Page(rows: seq<Row>, next: Option<nat>)

  /** Answer `k` is the answer to token `k`; only the last answer fails or names no next token. */
  predicate IsChain(c: seq<Outcome>) {
    && |c| > 0
    && (forall i | 0 <= i < |c| - 1 :: c[i].Page? && c[i].next == Some(i + 1))
    && (c[|c| - 1].Failure? || c[|c| - 1].next.None?)
  }

  /** The answer to a token; a token the server never handed out is refused. */
  function Answer(c: seq<Outcome>, token: nat): Outcome {
    if token < |c| then c[token] else Failure
  }

  /** Why the flat row sequence stops. */
  datatype End = Finished | Failed | Emptied

  /** Rows from page `i` on: up to the first failing, empty or last page. */
  ghost function Tail(c: seq<Outcome>, i: nat): seq<Row>
    decreases |c| - i
  {
    if i >= |c| || c[i].Failure? || c[i].rows == [] then []
    else c[i].rows + (if c[i].next.Some? then Tail(c, i + 1) else [])
  }

  ghost function TailEnd(c: seq<Outcome>, i: nat): End
    decreases |c| - i
  {
    if i >= |c| || c[i].Failure? then Failed
    else if c[i].rows == [] then Emptied
    else if c[i].next.Some? then TailEnd(c, i + 1)
    else Finished
  }

  /** The first page at or after `i` that is not an empty page with a successor. */
  ghost function FirstPage(c: seq<Outcome>, i: nat): (k: nat)
    ensures i <= k
    decreases |c| - i
  {
    if i < |c| && c[i].Page? && c[i].rows == [] && c[i].next.Some? then FirstPage(c, i + 1) else i
  }

  /** The one flat sequence of rows a query stands for. */
  ghost function Flat(c: seq<Outcome>): seq<Row> {
    Tail(c, FirstPage(c, 0))
  }

  /**
   The flat sequence is cut short by an empty page that comes after the first non-empty one.
   An empty result (no non-empty page at all) does not count.
   */
  ghost predicate EmptyLaterPage(c: seq<Outcome>) {
    Flat(c) != [] && TailEnd(c, FirstPage(c, 0)) == Emptied
  }

  /** All rows of the pages before page `k`. */
  ghost function RowsBefore(c: seq<Outcome>, k: nat): seq<Row>
    requires k <= |c|
  {
    if k == 0 then [] else RowsBefore(c, k - 1) + (if c[k - 1].Page? then c[k - 1].rows else [])
  }

  /** Page `k` is where the flat sequence continues after all the rows before it. */
  ghost predicate OnSpine(c: seq<Outcome>, k: nat) {
    && k < |c|
    && RowsBefore(c, k) + Tail(c, k) == Flat(c)
    && (Flat(c) != [] ==> TailEnd(c, k) == TailEnd(c, FirstPage(c, 0)))
  }

  lemma FirstPageOnSpine(c: seq<Outcome>, i: nat)
    requires IsChain(c) && i < |c| && FirstPage(c, 0) == FirstPage(c, i) && RowsBefore(c, i) == []
    requires FirstPage(c, i) == i
    ensures OnSpine(c, i)
  {
  }

  lemma SpineStep(c: seq<Outcome>, k: nat)
    requires IsChain(c) && OnSpine(c, k) && c[k].Page? && c[k].rows != [] && c[k].next.Some?
    ensures k + 1 < |c| && c[k].next == Some(k + 1) && OnSpine(c, k + 1)
    ensures RowsBefore(c, k + 1) == RowsBefore(c, k) + c[k].rows
  {
    assert RowsBefore(c, k) + Tail(c, k) == RowsBefore(c, k) + c[k].rows + Tail(c, k + 1);
  }

  // ---- When the flat sequence is all there is. ----

  /** All rows of the pages from page `i` on. */
  ghost function RowsFrom(c: seq<Outcome>, i: nat): seq<Row>
    decreases |c| - i
  {
    if i >= |c| then [] else (if c[i].Page? then c[i].rows else []) + RowsFrom(c, i + 1)
  }

  /** An empty page behind which a page with rows follows, at page `i` or later. */
  ghost predicate Gap(c: seq<Outcome>, i: nat) {
    exists e, l | i <= e < l < |c| :: IsEmptyPage(c[e]) && HasRows(c[l])
  }

  predicate IsEmptyPage(o: Outcome) {
    o.Page? && o.rows == []
  }

  predicate HasRows(o: Outcome) {
    o.Page? && o.rows != []
  }

  lemma {:induction false} NoRowsIff(c: seq<Outcome>, i: nat)
    ensures RowsFrom(c, i) == [] <==> forall l | i <= l < |c| :: !HasRows(c[l])
    decreases |c| - i
  {
    if i < |c| { NoRowsIff(c, i + 1); }
  }

  /** The tail is a prefix of the rows that follow, and all of them exactly when there is no gap. */
  lemma {:induction false} TailIff(c: seq<Outcome>, i: nat)
    requires IsChain(c) && i <= |c|
    ensures Tail(c, i) <= RowsFrom(c, i)
    ensures Tail(c, i) == RowsFrom(c, i) <==> !Gap(c, i)
    decreases |c| - i
  {
    if i < |c| {
      TailIff(c, i + 1);
      NoRowsIff(c, i + 1);
      if IsEmptyPage(c[i]) {
        if !Gap(c, i) { forall l | i < l < |c| ensures !HasRows(c[l]) {} }
      } else {
        GapLater(c, i);
      }
    }
  }

  lemma GapLater(c: seq<Outcome>, i: nat)
    requires i < |c| && !IsEmptyPage(c[i])
    ensures Gap(c, i) <==> Gap(c, i + 1)
  {
  }

  lemma {:induction false} RowsSplit(c: seq<Outcome>, i: nat)
    requires i <= |c|
    ensures RowsBefore(c, |c|) == RowsBefore(c, i) + RowsFrom(c, i)
    decreases |c| - i
  {
    if i < |c| { RowsSplit(c, i + 1); }
  }

  /** The pages in front of the first page are empty. */
  lemma {:induction false} SkippedPages(c: seq<Outcome>, i: nat)
    requires IsChain(c) && i < |c| && RowsBefore(c, i) == []
    ensures FirstPage(c, i) < |c| && RowsBefore(c, FirstPage(c, i)) == []
    decreases |c| - i
  {
    if IsEmptyPage(c[i]) && c[i].next.Some? { SkippedPages(c, i + 1); }
  }

  /**
   The flat sequence is a prefix of all rows of all pages. It is all of them exactly when no page with rows
   follows an empty page behind the first one: an empty page ends the data even when it names a next token.
   */
  lemma EverythingIff(c: seq<Outcome>)
    requires IsChain(c)
    ensures Flat(c) <= RowsBefore(c, |c|)
    ensures Flat(c) == RowsBefore(c, |c|) <==> !Gap(c, FirstPage(c, 0))
  {
    hide Gap, Tail;
    SkippedPages(c, 0);
    RowsSplit(c, FirstPage(c, 0));
    TailIff(c, FirstPage(c, 0));
  }

  /** Two pages with a row each and an empty page between them: the second row is never seen. */
  lemma RowsBehindEmptyPage(row: Row)
    ensures var c := [Page([row], Some(1)), Page([], Some(2)), Page([row], None)];
      IsChain(c) && Flat(c) == [row] && RowsBefore(c, |c|) == [row, row]
  {
    var c := [Page([row], Some(1)), Page([], Some(2)), Page([row], None)];
    assert RowsBefore(c, 1) == RowsBefore(c, 0) + c[0].rows == [row];
    assert RowsBefore(c, 2) == RowsBefore(c, 1) + c[1].rows == [row];
    assert RowsBefore(c, 3) == RowsBefore(c, 2) + c[2].rows == [row, row];
    assert Tail(c, 1) == [] && Tail(c, 0) == [row];
  }
}
