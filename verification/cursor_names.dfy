/**
 Cursor names of one connection: a map from statements to names and, beside it, the set of names in use.
 The two are updated by different statements and have to agree after every call.
 */
module CursorNames {
  import opened Options
  import opened AppBuffers
  import opened LetterCase
  import opened Pager

  /** A statement handle. */
  type Handle = nat

  datatype Index = Index(names: map<Handle, string>, used: set<string>)

  const NONE: Index := Index(map[], {})

  /** `SQL_NTS`: the name ends at its first NUL. */
  const NTS: int := -3
  const MAX_LENGTH: int := 18
  const RESERVED: string := "SQL_CUR"

  /** `SqlWcharToString`: the name as far as its length or its first NUL. */
  function Decoded(name: string, nameLen: int): (r: string)
    ensures r <= name && NUL !in r && (nameLen != -3 ==> |r| <= if nameLen < 0 then 0 else nameLen)
    ensures |r| < |name| ==> name[|r|] == NUL || (nameLen != -3 && |r| >= nameLen)
  {
    if nameLen == NTS then CStr(name)
    else if nameLen <= 0 then ""
    else if nameLen < |name| then CStr(name[..nameLen])
    else CStr(name)
  }

  function UpperChar(ch: char): char {
    if 'a' <= ch <= 'z' then (ch as int - 32) as char else ch
  }

  function ToUpper(s: string): (r: string)
    ensures |r| == |s| && forall i | 0 <= i < |s| :: r[i] == UpperChar(s[i])
  {
    if s == "" then "" else [UpperChar(s[0])] + ToUpper(s[1..])
  }

  /** Starts with SQL_CUR in any letter case. */
  predicate IsReserved(name: string) {
    |name| >= |RESERVED| && ToUpper(name[..|RESERVED|]) == RESERVED
  }

  /** Texts have the same upper case exactly when they are equal up to letter case. */
  lemma SameUpperIff(s: string, t: string)
    ensures ToUpper(s) == ToUpper(t) <==> SameLetters(s, t)
  {
  }

  /** A name is reserved exactly when its first seven characters are "SQL_CUR" up to letter case. */
  lemma ReservedIff(name: string)
    ensures IsReserved(name) <==> |name| >= 7 && SameLetters(name[..7], "SQL_CUR")
  {
    hide ToUpper, SameLetters;
    SameUpperIff("SQL_CUR", "SQL_CUR");
    assert ToUpper("SQL_CUR") == "SQL_CUR";
    if |name| >= 7 { SameUpperIff(name[..7], "SQL_CUR"); }
  }

  // ---- The calls as functions of the index. ----

  /** `AddCursorName`: the statement's old name is free again. */
  function Add(x: Index, stmt: Handle, name: string): Index {
    Index(x.names[stmt := name], (if stmt in x.names then x.used - {x.names[stmt]} else x.used) + {name})
  }

  /** `RemoveCursorName` */
  function Remove(x: Index, stmt: Handle): Index {
    if stmt in x.names then Index(x.names - {stmt}, x.used - {x.names[stmt]}) else x
  }

  predicate Acceptable(x: Index, name: string, nameLen: int) {
    nameLen <= MAX_LENGTH && !IsReserved(Decoded(name, nameLen)) && Decoded(name, nameLen) !in x.used
  }

  datatype Call = SetName(stmt: Handle, name: string, nameLen: int) | Drop(stmt: Handle)

  /** `InternalSetCursorName`, and dropping a statement. */
  function After(x: Index, call: Call): Index {
    match call
    case SetName(stmt, name, nameLen) =>
      if Acceptable(x, name, nameLen) then Add(x, stmt, Decoded(name, nameLen)) else x
    case Drop(stmt) => Remove(x, stmt)
  }

  function AfterAll(x: Index, calls: seq<Call>): Index
    decreases |calls|
  {
    if calls == [] then x else AfterAll(After(x, calls[0]), calls[1..])
  }

  // ---- What every call keeps. ----

  /** The set is the range of the map, no two statements share a name, and no name is reserved. */
  ghost predicate Agrees(x: Index) {
    && (forall n :: n in x.used <==> exists s | s in x.names :: x.names[s] == n)
    && (forall s, t | s in x.names && t in x.names && x.names[s] == x.names[t] :: s == t)
    && (forall s | s in x.names :: !IsReserved(x.names[s]))
  }

  lemma AddKeeps(x: Index, stmt: Handle, name: string)
    requires Agrees(x) && name !in x.used && !IsReserved(name)
    ensures Agrees(Add(x, stmt, name))
  {
    hide IsReserved;
    var y := Add(x, stmt, name);
    forall n ensures n in y.used <==> exists s | s in y.names :: y.names[s] == n {
      if n in y.used && n != name {
        var s :| s in x.names && x.names[s] == n;
        assert s in y.names && y.names[s] == n;
      }
      if n == name { assert stmt in y.names && y.names[stmt] == n; }
      if s :| s in y.names && y.names[s] == n && n != name {
        assert s in x.names && x.names[s] == n;
      }
    }
  }

  lemma RemoveKeeps(x: Index, stmt: Handle)
    requires Agrees(x)
    ensures Agrees(Remove(x, stmt))
  {
    hide IsReserved;
    var y := Remove(x, stmt);
    if stmt in x.names {
      forall n ensures n in y.used <==> exists s | s in y.names :: y.names[s] == n {
        if n in y.used {
          var s :| s in x.names && x.names[s] == n;
          assert s in y.names && y.names[s] == n;
        }
        if s :| s in y.names && y.names[s] == n {
          assert s in x.names && x.names[s] == n && s != stmt;
        }
      }
    }
  }

  /** After every sequence of calls the set and the map agree. */
  lemma {:induction false} AlwaysAgrees(x: Index, calls: seq<Call>)
    requires Agrees(x)
    ensures Agrees(AfterAll(x, calls))
    decreases |calls|
  {
    hide Agrees, Add, Remove, Decoded, IsReserved;
    if calls != [] {
      match calls[0] {
        case SetName(stmt, name, nameLen) =>
          if Acceptable(x, name, nameLen) { AddKeeps(x, stmt, Decoded(name, nameLen)); }
        case Drop(stmt) => RemoveKeeps(x, stmt);
      }
      AlwaysAgrees(After(x, calls[0]), calls[1..]);
    }
  }

  lemma StartAgrees()
    ensures Agrees(NONE)
  {
  }

  /** A name can be taken exactly when no other statement, nor this one, has it. */
  lemma FreeIff(calls: seq<Call>, name: string, nameLen: int)
    requires nameLen <= MAX_LENGTH && !IsReserved(Decoded(name, nameLen))
    ensures var x := AfterAll(NONE, calls);
      Acceptable(x, name, nameLen) <==> forall s | s in x.names :: x.names[s] != Decoded(name, nameLen)
  {
    hide Decoded, IsReserved, AfterAll;
    StartAgrees();
    AlwaysAgrees(NONE, calls);
  }

  /** Dropping a statement frees its name, and only that one. */
  lemma DropFreesName(calls: seq<Call>, stmt: Handle, n: string)
    ensures var x := AfterAll(NONE, calls); var y := After(x, Drop(stmt));
      n in x.used && n !in y.used <==> stmt in x.names && x.names[stmt] == n
  {
    hide IsReserved, AfterAll;
    StartAgrees();
    AlwaysAgrees(NONE, calls);
  }

  /**
   The length limit is checked on the length the caller passes. It limits the registered name exactly when that
   length is not SQL_NTS: a name of any length can be registered as a C string.
   */
  lemma LimitIff(nameLen: int)
    ensures (forall x: Index, name: string | Acceptable(x, name, nameLen) :: |Decoded(name, nameLen)| <= MAX_LENGTH)
       <==> nameLen != -3
  {
    if nameLen == NTS {
      var long := "aaaaaaaaaaaaaaaaaaa";
      CStrIs(long, |long|);
      assert Decoded(long, nameLen) == long;
      assert ToUpper(long[..7])[0] == 'A';
      assert Acceptable(NONE, long, nameLen);
    }
  }

  // ---- The object. ----

  class Connection {
    var cursorNameMap: map<Handle, string>
    var cursorNames: set<string>

    ghost function View(): Index
      reads this
    {
      Index(cursorNameMap, cursorNames)
    }

    ghost predicate Valid()
      reads this
    {
      Agrees(View())
    }

    constructor ()
      ensures Valid() && View() == NONE
    {
      cursorNameMap, cursorNames := map[], {};
    }

    method GetCursorName(stmt: Handle) returns (name: string)
      requires Valid()
      ensures if stmt in cursorNameMap then name == cursorNameMap[stmt] && name in cursorNames else name == ""
    {
      if stmt in cursorNameMap {
        return cursorNameMap[stmt];
      }
      name := "";
    }

    method CursorNameExists(name: string) returns (taken: bool)
      requires Valid()
      ensures taken <==> exists s | s in cursorNameMap :: cursorNameMap[s] == name
    {
      taken := name in cursorNames;
    }

    /** Stores whatever it is given; set and map still agree when the name was free and not reserved. */
    method AddCursorName(stmt: Handle, name: string) returns (res: SqlResult)
      modifies this
      ensures View() == Add(old(View()), stmt, name) && res == Success
      ensures old(Valid()) && name !in old(cursorNames) && !IsReserved(name) ==> Valid()
    {
      hide IsReserved, Agrees;
      if Agrees(View()) && name !in cursorNames && !IsReserved(name) { AddKeeps(View(), stmt, name); }
      if stmt in cursorNameMap {
        cursorNames := cursorNames - {cursorNameMap[stmt]};
      }
      cursorNameMap := cursorNameMap[stmt := name];
      cursorNames := cursorNames + {name};
      res := Success;
    }

    method RemoveCursorName(stmt: Handle)
      requires Valid()
      modifies this
      ensures Valid() && View() == After(old(View()), Drop(stmt))
    {
      RemoveKeeps(View(), stmt);
      if stmt in cursorNameMap {
        cursorNames := cursorNames - {cursorNameMap[stmt]};
        cursorNameMap := cursorNameMap - {stmt};
      }
    }

    /** `Statement::InternalSetCursorName` */
    method InternalSetCursorName(stmt: Handle, name: string, nameLen: int) returns (res: SqlResult)
      requires Valid()
      modifies this
      ensures Valid() && View() == After(old(View()), SetName(stmt, name, nameLen))
      ensures res == Success || res == Error
      ensures var cursorName := Decoded(name, nameLen);
        res == Success <==>
          && nameLen <= 18 && !(|cursorName| >= 7 && SameLetters(cursorName[..7], "SQL_CUR"))
          && forall s | s in old(cursorNameMap) :: old(cursorNameMap)[s] != cursorName
    {
      hide IsReserved, Decoded, SameLetters;
      ReservedIff(Decoded(name, nameLen));
      if nameLen > MAX_LENGTH {
        return Error;
      }
      var cursorName := Decoded(name, nameLen);
      if IsReserved(cursorName) {
        return Error;
      }
      var taken := CursorNameExists(cursorName);
      if taken {
        return Error;
      }
      res := AddCursorName(stmt, cursorName);
    }
  }
}
