/** What the invariant says about every run, in the caller's terms. */
module PagerSafety {
  import opened Options
  import opened Datums
  import opened ServerChain
  import opened Pager
  import opened PagerInvariant
  import opened PagerDelivery

  /** The rows still to come: the rest of the cursor's page and all later pages. */
  ghost function Remaining(c: seq<Outcome>, s: State): seq<Row>
    requires s.cursor.Some? && IsPage(c, PageIndex(s)) && Seen(s) <= |c[PageIndex(s)].rows|
  {
    var k := PageIndex(s);
    c[k].rows[Seen(s)..] + if c[k].next.Some? then Tail(c, k + 1) else []
  }

  /** In every interleaving the visited rows are a prefix of the flat sequence, and nothing is lost. */
  lemma DeliveryInOrder(c: seq<Outcome>, s: State)
    requires IsChain(c) && Reachable(c, s)
    ensures s.visited <= Flat(c)
    ensures s.cursor.Some? ==>
      && IsPage(c, PageIndex(s)) && Seen(s) <= |c[PageIndex(s)].rows|
      && s.visited + Remaining(c, s) == Flat(c)
    ensures s.executed && s.main.Idle? && s.cursor.None? && !s.abandoned ==> s.visited == Flat(c)
  {
    hide Shape, OnSpine, Flat, IsChain, Remaining;
    ReachableInv(c, s);
    PrefixOfFlat(c, s);
    if s.cursor.Some? { NothingLost(c, s); }
  }

  /** A page split at the rows seen of it: before, seen, left, later. */
  lemma SplitPage(before: seq<Row>, rows: seq<Row>, n: nat, later: seq<Row>)
    requires n <= |rows|
    ensures before + rows[..n] + (rows[n..] + later) == before + (rows + later)
  {
    assert rows == rows[..n] + rows[n..];
  }

  /** The page of the cursor, the rows seen of it, and where it stands in the flat sequence. */
  lemma CursorPage(c: seq<Outcome>, s: State)
    requires Data(c, s) && s.cursor.Some?
    ensures IsPage(c, PageIndex(s)) && Seen(s) <= |c[PageIndex(s)].rows|
    ensures OnSpine(c, PageIndex(s))
    ensures s.visited == RowsBefore(c, PageIndex(s)) + c[PageIndex(s)].rows[..Seen(s)]
  {
    hide OnSpine, RowsBefore, Flat, FirstPage, Iota, TailEnd;
  }

  lemma TailOfPage(c: seq<Outcome>, k: nat)
    requires IsPage(c, k)
    ensures Tail(c, k) == c[k].rows + if c[k].next.Some? then Tail(c, k + 1) else []
  {
  }

  lemma NothingLost(c: seq<Outcome>, s: State)
    requires Data(c, s) && s.cursor.Some?
    ensures IsPage(c, PageIndex(s)) && Seen(s) <= |c[PageIndex(s)].rows|
    ensures s.visited + Remaining(c, s) == Flat(c)
  {
    hide Data, RowsBefore, Flat, FirstPage, Tail, TailEnd, PageIndex, Seen;
    CursorPage(c, s);
    var k := PageIndex(s);
    TailOfPage(c, k);
    SplitPage(RowsBefore(c, k), c[k].rows, Seen(s), if c[k].next.Some? then Tail(c, k + 1) else []);
  }

  /** The row about to be read is the next row of the flat sequence. */
  lemma CurrentIsNext(c: seq<Outcome>, s: State)
    requires Inv(c, s) && s.main.Reading?
    ensures s.cursor.Some? && 1 <= s.cursor.value.pos <= |s.cursor.value.rows|
    ensures |s.visited| < |Flat(c)| && Flat(c)[|s.visited|] == s.cursor.value.rows[s.cursor.value.pos - 1]
  {
    hide OnSpine, Flat, FirstPage, Iota, IsChain, InFlight;
    NothingLost(c, s);
    assert Remaining(c, s)[0] == s.cursor.value.rows[Seen(s)];
    assert Flat(c)[|s.visited|] == Remaining(c, s)[0];
  }

  /** A call that hands out a row hands out the next row of the flat sequence. */
  lemma FetchVisitsNextRow(c: seq<Outcome>, s: State, readable: bool)
    requires IsChain(c) && Reachable(c, s) && s.main.Reading?
    ensures |s.visited| < |Flat(c)|
    ensures MainStep(c, s, readable).Some?
    ensures var t := MainStep(c, s, readable).value;
      && t.main.Idle? && t.visited == s.visited + [Flat(c)[|s.visited|]]
      && t.ret == if readable then Success else Error
  {
    hide Inv;
    ReachableInv(c, s);
    CurrentIsNext(c, s);
  }

  /**
   A call on an open cursor that ends without reaching a row reports end of data or the failure of
   the next page, and does so only when every row has been visited.
   */
  lemma FetchEndsOnlyWhenDone(c: seq<Outcome>, s: State, readable: bool)
    requires IsChain(c) && Reachable(c, s) && s.cursor.Some?
    requires s.main.FetchTop? || s.main.SwitchHandle?
    requires MainStep(c, s, readable).Some? && MainStep(c, s, readable).value.main.Idle?
    ensures var t := MainStep(c, s, readable).value;
      && t.visited == s.visited == Flat(c)
      && t.ret == if TailEnd(c, FirstPage(c, 0)) == Failed then Error else NoData
  {
    hide Inv, MainStep;
    ReachableInv(c, s);
    EndsOnlyWhenDone(c, s, readable);
  }

  lemma EndsOnlyWhenDone(c: seq<Outcome>, s: State, readable: bool)
    requires Inv(c, s) && s.cursor.Some?
    requires s.main.FetchTop? || s.main.SwitchHandle?
    requires MainStep(c, s, readable).Some? && MainStep(c, s, readable).value.main.Idle?
    ensures var t := MainStep(c, s, readable).value;
      && t.visited == s.visited == Flat(c)
      && t.ret == if TailEnd(c, FirstPage(c, 0)) == Failed then Error else NoData
  {
    hide Inv, Flat, TailEnd, FirstPage, FetchStep, SwitchStep;
    if s.main.FetchTop? { TopEnds(c, s, readable); } else { HandleEnds(c, s); }
  }

  lemma TopEnds(c: seq<Outcome>, s: State, readable: bool)
    requires Inv(c, s) && s.cursor.Some? && s.main.FetchTop? && FetchStep(s, readable).value.main.Idle?
    ensures var t := FetchStep(s, readable).value;
      && t.visited == s.visited == Flat(c)
      && t.ret == if TailEnd(c, FirstPage(c, 0)) == Failed then Error else NoData
  {
    hide OnSpine, RowsBefore, Iota, InFlight, IsChain;
    SpineHasRows(c, s);
    LastPageDone(c, s);
  }

  lemma HandleEnds(c: seq<Outcome>, s: State)
    requires Inv(c, s) && s.cursor.Some? && s.main.SwitchHandle? && SwitchStep(s).value.main.Idle?
    ensures var t := SwitchStep(s).value;
      && t.visited == s.visited == Flat(c)
      && t.ret == if TailEnd(c, FirstPage(c, 0)) == Failed then Error else NoData
  {
    hide OnSpine, RowsBefore, Iota, InFlight;
    SpineHasRows(c, s);
    NoMorePages(c, s);
  }

  lemma SpineHasRows(c: seq<Outcome>, s: State)
    requires Data(c, s) && s.cursor.Some?
    ensures Flat(c) != []
    ensures TailEnd(c, PageIndex(s)) == TailEnd(c, FirstPage(c, 0))
  {
    assert Tail(c, PageIndex(s)) != [];
  }

  /** At most one page is in transit; the fetch thread's wait never blocks and its push never drops a page. */
  lemma OneInTransit(c: seq<Outcome>, s: State, i: nat)
    requires IsChain(c) && Reachable(c, s) && i < |s.threads|
    ensures InFlight(s.threads) + |s.queue| <= 1
    ensures !s.threads[i].Sleeping?
    ensures s.threads[i].Checking? || s.threads[i].Pushing? ==>
      s.queue == [] && s.threads[i].got == Answer(c, s.token)
  {
    hide Data, IsChain, Control;
    ReachableInv(c, s);
  }

  /** The mutex excludes: the main thread and the fetch threads are never inside it together. */
  lemma MutualExclusion(c: seq<Outcome>, s: State, i: nat, j: nat)
    requires IsChain(c) && Reachable(c, s) && i < |s.threads| && j < |s.threads|
    ensures Holds(s.threads[i]) ==> !MainHolds(s.main)
    ensures Holds(s.threads[i]) && Holds(s.threads[j]) ==> i == j
  {
    hide Data, IsChain, Control;
    ReachableInv(c, s);
  }

  /**
   The shared request: the main thread rewrites its token only while no fetch thread exists, and over
   a whole run the server is asked for tokens 0, 1, 2, ... each exactly once.
   */
  lemma RequestIsExclusive(c: seq<Outcome>, s: State, step: Step)
    requires IsChain(c) && Reachable(c, s) && Next(c, s, step).Some?
    ensures |s.threads| <= 1
    ensures forall i | 0 <= i < |s.asked| :: s.asked[i] == i
    ensures Next(c, s, step).value.token != s.token ==>
      s.threads == [] && s.queue == [] && s.asked + (if s.main.Executing? then [s.token] else []) == Iota(s.token + 1)
  {
    hide Inv, IsChain, Next;
    ReachableInv(c, s);
    AskedOnce(c, s);
    if Next(c, s, step).value.token != s.token {
      OnlyMainRewrites(c, s, step);
      TokenRewrite(c, s);
    }
  }

  lemma AskedOnce(c: seq<Outcome>, s: State)
    requires Inv(c, s)
    ensures |s.threads| <= 1
    ensures forall i | 0 <= i < |s.asked| :: s.asked[i] == i
  {
    hide OnSpine, RowsBefore, Flat, FirstPage, IsChain, Control;
  }

  lemma OnlyMainRewrites(c: seq<Outcome>, s: State, step: Step)
    requires Next(c, s, step).Some? && Next(c, s, step).value.token != s.token
    ensures s.main.Executing? || s.main.ExecToken? || s.main.SwitchToken?
  {
    hide MutexFree, Answer, WorkStep, SwitchStep;
    if step.Work? { WorkKeepsToken(c, s, step.i, step.wake); }
    if step.Main? && !s.main.SwitchToken? && SwitchStep(s).Some? { SwitchKeepsToken(s); }
  }

  lemma SwitchKeepsToken(s: State)
    requires SwitchStep(s).Some? && !s.main.SwitchToken?
    ensures SwitchStep(s).value.token == s.token
  {
    hide MutexFree;
  }

  lemma WorkKeepsToken(c: seq<Outcome>, s: State, i: nat, wake: Wake)
    requires WorkStep(c, s, i, wake).Some?
    ensures WorkStep(c, s, i, wake).value.token == s.token
  {
    hide MutexFree, Answer;
  }

  /** Where the token is rewritten there is neither thread nor queued page, and the old token has been asked for. */
  lemma TokenRewrite(c: seq<Outcome>, s: State)
    requires Inv(c, s) && (s.main.Executing? || s.main.ExecToken? || s.main.SwitchToken?)
    ensures s.threads == [] && s.queue == []
    ensures s.asked + (if s.main.Executing? then [s.token] else []) == Iota(s.token + 1)
  {
    hide OnSpine, RowsBefore, Flat, FirstPage, IsChain;
  }

  /** No fetch thread outlives its query object: a thread exists only while `result_` is set. */
  lemma SafeTeardown(c: seq<Outcome>, s: State)
    requires IsChain(c) && Reachable(c, s)
    ensures s.result.None? ==> s.threads == []
    ensures s.main.CloseReset? ==> CloseStep(s).value.threads == [] && CloseStep(s).value.main.Idle?
  {
    hide Data, IsChain;
    ReachableInv(c, s);
  }

  /** `RowNumber`. */
  function RowNumber(s: State): nat {
    if s.cursor.None? || !HasData(s.cursor.value) then 0 else s.rowCounter
  }

  /** While the cursor has data, the row number counts the rows of all earlier pages and of this one. */
  lemma RowNumberIsGlobal(c: seq<Outcome>, s: State)
    requires IsChain(c) && Reachable(c, s) && s.main.Idle?
    requires s.cursor.Some? && HasData(s.cursor.value)
    ensures IsPage(c, PageIndex(s))
    ensures RowNumber(s) + s.failed == |RowsBefore(c, PageIndex(s))| + s.cursor.value.pos
  {
    hide Inv;
    ReachableInv(c, s);
    NumberIsGlobal(c, s);
  }

  lemma NumberIsGlobal(c: seq<Outcome>, s: State)
    requires Inv(c, s) && s.main.Idle? && s.cursor.Some? && HasData(s.cursor.value)
    ensures IsPage(c, PageIndex(s))
    ensures s.rowCounter + s.failed == |s.visited| == |RowsBefore(c, PageIndex(s))| + s.cursor.value.pos
  {
    hide OnSpine, RowsBefore, Flat, IsChain;
  }

  /** Between two calls the cursor stands on the row visited last, or before the first row. */
  lemma StandsOnLastRow(c: seq<Outcome>, s: State)
    requires Inv(c, s) && s.main.Idle? && s.cursor.Some? && HasData(s.cursor.value)
    ensures var pos, rows := s.cursor.value.pos, s.cursor.value.rows;
      && rows != [] && s.visited <= Flat(c)
      && if pos == 0 then |s.visited| < |Flat(c)| && Flat(c)[|s.visited|] == rows[0]
         else 0 < |s.visited| && s.visited[|s.visited| - 1] == rows[pos - 1]
  {
    hide OnSpine, Flat, FirstPage, Iota, IsChain, InFlight;
    NothingLost(c, s);
    if s.cursor.value.pos == 0 { assert Remaining(c, s)[0] == s.cursor.value.rows[0]; }
  }
}
