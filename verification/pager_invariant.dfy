/** What every reachable state of the pager satisfies. */
module PagerInvariant {
  import opened Options
  import opened Datums
  import opened ServerChain
  import opened Pager

  /** A fetch thread that has not pushed its page yet. */
  predicate Pending(w: Worker) {
    !w.Releasing? && !w.Exited?
  }

  function InFlight(ws: seq<Worker>): nat {
    if ws == [] then 0 else (if Pending(ws[0]) then 1 else 0) + InFlight(ws[1..])
  }

  /** Pages on their way to the main thread. */
  function Transit(s: State): nat {
    InFlight(s.threads) + |s.queue|
  }

  function Iota(n: nat): (r: seq<nat>)
    ensures |r| == n && forall i | 0 <= i < n :: r[i] == i
  {
    if n == 0 then [] else Iota(n - 1) + [n - 1]
  }

  /** The page the cursor walks: the token is one ahead of it once the next page is asked for. */
  function PageIndex(s: State): int {
    match s.main
    case ExecSpawn => s.token - 1
    case ExecFlag => s.token - 1
    case SwitchJoin => s.token
    case SwitchToken => s.token
    case _ => if s.hasAsync then s.token - 1 else s.token
  }

  /** How many rows of the cursor's page have been visited. */
  function Seen(s: State): nat
    requires s.cursor.Some?
  {
    var k := s.cursor.value;
    match s.main
    case Reading => if 0 < k.pos <= |k.rows| then k.pos - 1 else 0
    case SwitchJoin => 0
    case SwitchToken => 0
    case SwitchSpawn => 0
    case _ => if HasData(k) then k.pos else |k.rows|
  }

  // ---- The control part: who is where, what is in transit, which tokens were used. ----

  predicate IsPage(c: seq<Outcome>, k: int) {
    0 <= k < |c| && c[k].Page? && c[k].rows != []
  }

  predicate HasNext(c: seq<Outcome>, k: int) {
    IsPage(c, k) && c[k].next == Some(k + 1) && k + 1 < |c|
  }

  predicate IsLast(c: seq<Outcome>, k: int) {
    IsPage(c, k) && c[k].next.None?
  }

  predicate Quiet(s: State) {
    s.threads == [] && s.queue == []
  }

  predicate AtEnd(s: State) {
    s.cursor.Some? && !HasData(s.cursor.value)
  }

  /** The page that ended the sequence was empty: the cursor is past its page and nothing is on its way any more. */
  predicate Drained(c: seq<Outcome>, s: State) {
    && s.token < |c| && AtEnd(s)
    && c[s.token].Page? && c[s.token].rows == []
    && s.result == Some(c[s.token])
    && Transit(s) == 0
  }

  /** Behind the cursor there is one page on its way, or none because the cursor's page is the last. */
  predicate Supplied(c: seq<Outcome>, s: State) {
    && s.executed
    && if s.hasAsync
       then HasNext(c, s.token - 1) && (Drained(c, s) || (Transit(s) == 1 && s.result == Some(c[s.token - 1])))
       else IsLast(c, s.token) && Transit(s) == 0
  }

  predicate Settled(c: seq<Outcome>, s: State) {
    if !s.executed then
      s.cursor.None? && s.result.None? && !s.hasAsync && Quiet(s) && s.token == 0
    else
      s.cursor.Some? ==> Supplied(c, s)
  }

  predicate Waiting(c: seq<Outcome>, s: State) {
    s.hasAsync && AtEnd(s) && Supplied(c, s)
  }

  predicate Taken(c: seq<Outcome>, s: State, got: Outcome) {
    s.executed && s.hasAsync && AtEnd(s) && HasNext(c, s.token - 1) && got == c[s.token] && Transit(s) == 0
  }

  predicate Switched(c: seq<Outcome>, s: State, k: int) {
    && s.executed && s.hasAsync && Transit(s) == 0
    && HasNext(c, k) && s.cursor == Some(PageCursor(c[k].rows, 1)) && s.result == Some(c[k])
  }

  predicate Started(c: seq<Outcome>, s: State, k: int) {
    && s.executed && !s.hasAsync
    && HasNext(c, k) && s.cursor == Some(PageCursor(c[k].rows, 0)) && s.result == Some(c[k])
  }

  predicate Control(c: seq<Outcome>, s: State)
    requires s.token < |c|
  {
    match s.main
    case Idle => Settled(c, s)
    case FetchTop => Settled(c, s)
    case CloseFlag => Settled(c, s)
    case CloseJoin => Settled(c, s)
    case CloseReset => Settled(c, s) && s.threads == []
    case Executing => s.executed && s.cursor.None? && !s.hasAsync && Quiet(s)
    case ExecToken => Quiet(s) && Started(c, s, s.token)
    case ExecSpawn => Quiet(s) && Started(c, s, s.token - 1)
    case ExecFlag => Transit(s) == 1 && Started(c, s, s.token - 1)
    case ExecFetch =>
      s.cursor.Some? && s.cursor.value.pos == 0 && Supplied(c, s) && s.result == Some(c[PageIndex(s)])
    case Reading =>
      s.cursor.Some? && 1 <= s.cursor.value.pos <= |s.cursor.value.rows| && Supplied(c, s)
    case SwitchLock => Waiting(c, s)
    case SwitchCheck => Waiting(c, s)
    case SwitchSleep => Waiting(c, s) && s.queue == []
    case SwitchPop => Waiting(c, s) && s.queue != []
    case SwitchUnlock(got) => Taken(c, s, got)
    case SwitchHandle(got) => Taken(c, s, got)
    case SwitchJoin => Switched(c, s, s.token)
    case SwitchToken => Switched(c, s, s.token) && Quiet(s)
    case SwitchSpawn => Switched(c, s, s.token - 1) && Quiet(s)
  }

  /** Whether the current token has been sent to the server. */
  predicate TokenSent(s: State) {
    && s.executed
    && !s.main.SwitchSpawn? && !s.main.ExecSpawn? && !s.main.Executing?
    && (s.threads == [] || !s.threads[0].Asking?)
  }

  predicate Workers(c: seq<Outcome>, s: State)
    requires s.token < |c|
  {
    |s.threads| <= 1
    && (s.threads != [] ==>
      var w := s.threads[0];
      && s.result.Some? && s.executed
      && (Pending(w) && !w.Asking? ==> w.got == c[s.token])
      && !w.Sleeping?
      && !(Holds(w) && MainHolds(s.main)))
  }

  predicate Shape(c: seq<Outcome>, s: State) {
    && s.token < |c|
    && Workers(c, s)
    && Transit(s) <= 1
    && (s.queue != [] ==> s.queue == [c[s.token]])
    && Control(c, s)
  }

  // ---- The data part: which rows were visited, which tokens were asked for. ----

  ghost predicate Data(c: seq<Outcome>, s: State) {
    && s.token < |c|
    && s.rowCounter + s.failed == |s.visited|
    && s.asked == Iota(if TokenSent(s) then s.token + 1 else s.token)
    && if s.cursor.Some? then
         var k := PageIndex(s);
         && !s.abandoned && IsPage(c, k) && OnSpine(c, k)
         && s.cursor.value.rows == c[k].rows
         && s.visited == RowsBefore(c, k) + c[k].rows[..Seen(s)]
       else if s.main.Executing? then
         && s.visited == [] && !s.abandoned
         && FirstPage(c, 0) == FirstPage(c, s.token) && RowsBefore(c, s.token) == []
       else if !s.executed then
         s.visited == [] && !s.abandoned
       else
         s.visited <= Flat(c) && (s.abandoned || s.visited == Flat(c))
  }

  ghost predicate Inv(c: seq<Outcome>, s: State) {
    IsChain(c) && Shape(c, s) && Data(c, s)
  }

  lemma InitInv(c: seq<Outcome>)
    requires IsChain(c)
    ensures Inv(c, Init)
  {
  }

  // ---- Every step keeps the control part: one lemma per statement that does something. ----

  lemma OneThread(w: Worker)
    ensures InFlight([w]) == if Pending(w) then 1 else 0
  {
    assert [w][1..] == [];
  }

  lemma AskShape(c: seq<Outcome>, s: State, wake: Wake)
    requires Shape(c, s) && s.threads != [] && s.threads[0].Asking?
    ensures Shape(c, WorkStep(c, s, 0, wake).value)
  {
    var t := WorkStep(c, s, 0, wake).value;
    assert s.threads == [s.threads[0]] && t.threads == [t.threads[0]];
  }

  lemma LockShape(c: seq<Outcome>, s: State, wake: Wake)
    requires Shape(c, s) && s.threads != [] && s.threads[0].Locking? && MutexFree(s)
    ensures Shape(c, WorkStep(c, s, 0, wake).value)
  {
    var t := WorkStep(c, s, 0, wake).value;
    assert s.threads == [s.threads[0]] && t.threads == [t.threads[0]];
  }

  lemma CheckShape(c: seq<Outcome>, s: State, wake: Wake)
    requires Shape(c, s) && s.threads != [] && s.threads[0].Checking?
    ensures Shape(c, WorkStep(c, s, 0, wake).value)
  {
    var t := WorkStep(c, s, 0, wake).value;
    assert s.threads == [s.threads[0]] && t.threads == [t.threads[0]];
  }

  lemma PushShape(c: seq<Outcome>, s: State, wake: Wake)
    requires Shape(c, s) && s.threads != [] && s.threads[0].Pushing? && WorkStep(c, s, 0, wake).Some?
    ensures s.queue == []
    ensures Shape(c, WorkStep(c, s, 0, wake).value)
  {
    var t := WorkStep(c, s, 0, wake).value;
    assert s.threads == [s.threads[0]] && t.threads == [Releasing];
  }

  lemma ReleaseShape(c: seq<Outcome>, s: State, wake: Wake)
    requires Shape(c, s) && s.threads != [] && s.threads[0].Releasing?
    ensures Shape(c, WorkStep(c, s, 0, wake).value)
  {
    var t := WorkStep(c, s, 0, wake).value;
    assert s.threads == [s.threads[0]] && t.threads == [Exited];
  }

  lemma WorkShape(c: seq<Outcome>, s: State, i: nat, wake: Wake)
    requires Shape(c, s) && WorkStep(c, s, i, wake).Some?
    ensures Shape(c, WorkStep(c, s, i, wake).value)
  {
    match s.threads[0]
    case Asking => AskShape(c, s, wake);
    case Locking(_) => LockShape(c, s, wake);
    case Checking(_) => CheckShape(c, s, wake);
    case Pushing(_) => PushShape(c, s, wake);
    case Releasing => ReleaseShape(c, s, wake);
    case _ =>
  }

  lemma AskFirstShape(c: seq<Outcome>, s: State)
    requires IsChain(c) && Shape(c, s) && s.main.Executing?
    ensures Shape(c, ExecuteStep(c, s).value)
  {
  }

  lemma SpawnShape(c: seq<Outcome>, s: State)
    requires Shape(c, s) && s.main.ExecSpawn?
    ensures Shape(c, ExecuteStep(c, s).value)
  {
    assert Spawn(s).threads == [Asking];
    OneThread(Asking);
  }

  lemma ExecuteShape(c: seq<Outcome>, s: State)
    requires IsChain(c) && Shape(c, s) && InExecute(s.main) && ExecuteStep(c, s).Some?
    ensures Shape(c, ExecuteStep(c, s).value)
  {
    match s.main
    case Executing => AskFirstShape(c, s);
    case ExecSpawn => SpawnShape(c, s);
    case _ =>
  }

  lemma FetchTopShape(c: seq<Outcome>, s: State)
    requires Shape(c, s) && s.main.FetchTop?
    ensures Shape(c, FetchStep(s, true).value)
  {
    if s.cursor.Some? {
      var t := FetchStep(s, true).value;
      assert Supplied(c, t);
    }
  }

  lemma FetchShape(c: seq<Outcome>, s: State, readable: bool)
    requires Shape(c, s) && InFetch(s.main) && FetchStep(s, readable).Some?
    ensures Shape(c, FetchStep(s, readable).value)
  {
    if s.main.FetchTop? { FetchTopShape(c, s); }
  }

  lemma CloseShape(c: seq<Outcome>, s: State)
    requires Shape(c, s) && InClose(s.main) && CloseStep(s).Some?
    ensures Shape(c, CloseStep(s).value)
  {
    if s.main.CloseJoin? && s.threads != [] {
      JoinedShape(c, s);
    }
  }

  lemma JoinedShape(c: seq<Outcome>, s: State)
    requires Shape(c, s) && s.main.CloseJoin? && s.threads != [] && s.threads[0].Exited?
    ensures Shape(c, s.(threads := s.threads[1..]))
  {
    var t := s.(threads := s.threads[1..]);
    assert s.threads == [s.threads[0]] && t.threads == [];
    OneThread(s.threads[0]);
    assert Transit(t) == Transit(s);
    assert Settled(c, t);
  }

  lemma TakeShape(c: seq<Outcome>, s: State)
    requires Shape(c, s) && (s.main.SwitchLock? || s.main.SwitchCheck? || s.main.SwitchPop? || s.main.SwitchUnlock?)
    requires SwitchStep(s).Some?
    ensures Shape(c, SwitchStep(s).value)
  {
  }

  lemma HandleShape(c: seq<Outcome>, s: State)
    requires IsChain(c) && Shape(c, s) && s.main.SwitchHandle?
    ensures Shape(c, SwitchStep(s).value)
  {
    var t := SwitchStep(s).value;
    if s.main.got.Page? {
      if s.main.got.rows == [] {
        assert Drained(c, t);
      } else if s.main.got.next.Some? {
        assert Switched(c, t, t.token);
      }
    }
  }

  lemma RestartShape(c: seq<Outcome>, s: State)
    requires Shape(c, s) && (s.main.SwitchJoin? || s.main.SwitchToken? || s.main.SwitchSpawn?)
    requires SwitchStep(s).Some?
    ensures Shape(c, SwitchStep(s).value)
  {
    if s.main.SwitchSpawn? {
      assert Spawn(s).threads == [Asking];
      OneThread(Asking);
    }
  }

  lemma SwitchShape(c: seq<Outcome>, s: State)
    requires IsChain(c) && Shape(c, s) && SwitchStep(s).Some?
    ensures Shape(c, SwitchStep(s).value)
  {
    if s.main.SwitchHandle? {
      HandleShape(c, s);
    } else if s.main.SwitchJoin? || s.main.SwitchToken? || s.main.SwitchSpawn? {
      RestartShape(c, s);
    } else {
      TakeShape(c, s);
    }
  }
}
