/**
 * The session table (backend/app/db.py, class `Database`).
 *
 * The SQLite table `sessions` is a map from `session_id` (its primary key) to the
 * row. Connections, transactions and the `created_at` timestamp are not modelled.
 */
module Db {
  import opened Wrappers

  /** One row of `sessions`. */
  datatype Session = Session(
    sessionId: string,
    name: string,
    categoryMap: string,
    vectorIndexPath: Option<string>,
    chatHistoryPath: Option<string>)

  /** One `column = ?` item of the `SET` list built by `update_session`, with its parameter. */
  datatype Assignment =
    | SetName(name: string)
    | SetCategoryMap(categoryMap: string)
    | SetVectorIndexPath(vectorIndexPath: string)
    | SetChatHistoryPath(chatHistoryPath: string)

  function Apply(s: Session, a: Assignment): Session {
    match a
    case SetName(v) => s.(name := v)
    case SetCategoryMap(v) => s.(categoryMap := v)
    case SetVectorIndexPath(v) => s.(vectorIndexPath := Some(v))
    case SetChatHistoryPath(v) => s.(chatHistoryPath := Some(v))
  }

  /** `UPDATE sessions SET a1, a2, ... WHERE session_id = ?` on one row. */
  function ApplyAll(s: Session, updates: seq<Assignment>): Session
    decreases |updates|
  {
    if updates == [] then s else ApplyAll(Apply(s, updates[0]), updates[1..])
  }

  /** The row a partial update produces: every given field replaced, the others kept. */
  function Patched(s: Session, name: Option<string>, categoryMap: Option<string>,
                   vectorIndexPath: Option<string>, chatHistoryPath: Option<string>): Session
  {
    Session(s.sessionId, name.GetOr(s.name), categoryMap.GetOr(s.categoryMap),
            if vectorIndexPath.Some? then vectorIndexPath else s.vectorIndexPath,
            if chatHistoryPath.Some? then chatHistoryPath else s.chatHistoryPath)
  }

  /**
   * Builds the `SET` list of `update_session` by conditional appends: one assignment
   * per field given (not `None`), in column order. Applying the list to a row yields
   * the row with exactly those fields replaced, and the list is empty exactly when no
   * field is given.
   */
  method Assignments(name: Option<string>, categoryMap: Option<string>,
                     vectorIndexPath: Option<string>, chatHistoryPath: Option<string>)
    returns (updates: seq<Assignment>)
    ensures updates == [] <==> name.None? && categoryMap.None? && vectorIndexPath.None? && chatHistoryPath.None?
    ensures forall s :: ApplyAll(s, updates) == Patched(s, name, categoryMap, vectorIndexPath, chatHistoryPath)
  {
    updates := [];
    if name.Some? {
      updates := updates + [SetName(name.value)];
    }
    if categoryMap.Some? {
      updates := updates + [SetCategoryMap(categoryMap.value)];
    }
    if vectorIndexPath.Some? {
      updates := updates + [SetVectorIndexPath(vectorIndexPath.value)];
    }
    if chatHistoryPath.Some? {
      updates := updates + [SetChatHistoryPath(chatHistoryPath.value)];
    }
    assert updates == AssignmentsOf(name, categoryMap, vectorIndexPath, chatHistoryPath);
    forall s ensures ApplyAll(s, updates) == Patched(s, name, categoryMap, vectorIndexPath, chatHistoryPath) {
      ApplyFields(s, name, categoryMap, vectorIndexPath, chatHistoryPath);
    }
  }

  /** The list built from the four optional fields. */
  function AssignmentsOf(name: Option<string>, categoryMap: Option<string>,
                         vectorIndexPath: Option<string>, chatHistoryPath: Option<string>): seq<Assignment>
  {
    (if name.Some? then [SetName(name.value)] else [])
    + (if categoryMap.Some? then [SetCategoryMap(categoryMap.value)] else [])
    + (if vectorIndexPath.Some? then [SetVectorIndexPath(vectorIndexPath.value)] else [])
    + (if chatHistoryPath.Some? then [SetChatHistoryPath(chatHistoryPath.value)] else [])
  }

  lemma {:induction false} ApplyAllAppend(s: Session, xs: seq<Assignment>, ys: seq<Assignment>)
    ensures ApplyAll(s, xs + ys) == ApplyAll(ApplyAll(s, xs), ys)
    decreases |xs|
  {
    if xs != [] {
      assert (xs + ys)[1..] == xs[1..] + ys;
      ApplyAllAppend(Apply(s, xs[0]), xs[1..], ys);
    } else {
      assert xs + ys == ys;
    }
  }

  lemma ApplyFields(s: Session, name: Option<string>, categoryMap: Option<string>,
                    vectorIndexPath: Option<string>, chatHistoryPath: Option<string>)
    ensures ApplyAll(s, AssignmentsOf(name, categoryMap, vectorIndexPath, chatHistoryPath))
            == Patched(s, name, categoryMap, vectorIndexPath, chatHistoryPath)
  {
    var a := if name.Some? then [SetName(name.value)] else [];
    var b := if categoryMap.Some? then [SetCategoryMap(categoryMap.value)] else [];
    var c := if vectorIndexPath.Some? then [SetVectorIndexPath(vectorIndexPath.value)] else [];
    var d := if chatHistoryPath.Some? then [SetChatHistoryPath(chatHistoryPath.value)] else [];
    ApplyAllAppend(s, a + b + c, d);
    ApplyAllAppend(s, a + b, c);
    ApplyAllAppend(s, a, b);
  }

  /** Every row is stored under its own `session_id`. */
  ghost predicate KeyedById(rows: map<string, Session>) {
    forall id :: id in rows ==> rows[id].sessionId == id
  }

  datatype CreateOutcome = Created(session: Session) | DuplicateKey

  class Database {
    var sessions: map<string, Session>

    ghost predicate Valid()
      reads this
    {
      KeyedById(sessions)
    }

    /** Opens the table with the rows already stored in the database file. */
    constructor(existing: map<string, Session>)
      requires KeyedById(existing)
      ensures sessions == existing && Valid()
    {
      sessions := existing;
    }

    /**
     * Inserts a row and returns it as read back; an id already present violates the
     * primary key, the insert raises and nothing changes.
     */
    method CreateSession(sessionId: string, name: string, categoryMap: string := "notes",
                         vectorIndexPath: Option<string> := None, chatHistoryPath: Option<string> := None)
      returns (outcome: CreateOutcome)
      requires Valid()
      modifies this
      ensures Valid()
      ensures sessionId in old(sessions) ==> outcome == DuplicateKey && sessions == old(sessions)
      ensures sessionId !in old(sessions) ==>
                && sessions == old(sessions)[sessionId := Session(sessionId, name, categoryMap, vectorIndexPath, chatHistoryPath)]
                && outcome == Created(sessions[sessionId])
    {
      if sessionId in sessions {
        return DuplicateKey;
      }
      sessions := sessions[sessionId := Session(sessionId, name, categoryMap, vectorIndexPath, chatHistoryPath)];
      var row := GetSession(sessionId);
      outcome := Created(row.value);
    }

    /** The row with this id, or `None`. */
    method GetSession(sessionId: string) returns (row: Option<Session>)
      requires Valid()
      ensures sessionId in sessions <==> row.Some?
      ensures row.Some? ==> row.value == sessions[sessionId] && row.value.sessionId == sessionId
    {
      if sessionId in sessions {
        row := Some(sessions[sessionId]);
      } else {
        row := None;
      }
    }

    /**
     * Replaces the fields given (not `None`) of the row with this id and returns the
     * row read back. With no field given nothing is written; an unknown id changes
     * nothing and reads back `None`.
     */
    method UpdateSession(sessionId: string, name: Option<string> := None, categoryMap: Option<string> := None,
                         vectorIndexPath: Option<string> := None, chatHistoryPath: Option<string> := None)
      returns (row: Option<Session>)
      requires Valid()
      modifies this
      ensures Valid()
      ensures name.None? && categoryMap.None? && vectorIndexPath.None? && chatHistoryPath.None? ==>
                sessions == old(sessions)
      ensures sessionId !in old(sessions) ==> sessions == old(sessions) && row == None
      ensures sessionId in old(sessions) ==>
                && sessions == old(sessions)[sessionId := Patched(old(sessions)[sessionId], name, categoryMap, vectorIndexPath, chatHistoryPath)]
                && row == Some(sessions[sessionId])
    {
      var updates := Assignments(name, categoryMap, vectorIndexPath, chatHistoryPath);
      if updates == [] {
        row := GetSession(sessionId);
        return;
      }
      if sessionId in sessions {
        sessions := sessions[sessionId := ApplyAll(sessions[sessionId], updates)];
      }
      row := GetSession(sessionId);
    }

    /** Removes the row with this id and reports whether there was one. */
    method DeleteSession(sessionId: string) returns (deleted: bool)
      requires Valid()
      modifies this
      ensures Valid()
      ensures deleted <==> sessionId in old(sessions)
      ensures sessions == old(sessions) - {sessionId}
    {
      deleted := sessionId in sessions;
      sessions := sessions - {sessionId};
    }

    /** The rows whose `category_map` equals `categoryMap`, each once. */
    method GetSessionsByCategory(categoryMap: string) returns (rows: seq<Session>)
      requires Valid()
      ensures forall s :: s in rows <==> s in sessions.Values && s.categoryMap == categoryMap
      ensures forall p, q :: 0 <= p < q < |rows| ==> rows[p].sessionId != rows[q].sessionId
    {
      rows := [];
      var remaining := sessions.Keys;
      while remaining != {}
        invariant remaining <= sessions.Keys
        invariant forall s :: s in rows <==> s.sessionId in sessions.Keys - remaining && s == sessions[s.sessionId] && s.categoryMap == categoryMap
        invariant forall p, q :: 0 <= p < q < |rows| ==> rows[p].sessionId != rows[q].sessionId
        decreases |remaining|
      {
        var id :| id in remaining;
        if sessions[id].categoryMap == categoryMap {
          rows := rows + [sessions[id]];
        }
        remaining := remaining - {id};
      }
    }
  }

  /**
   * Deleting and then reading reports absence, and a second delete of the same id
   * reports that nothing was deleted.
   */
  method DeleteThenGet(db: Database, sessionId: string) returns (first: bool, second: bool, row: Option<Session>)
    requires db.Valid()
    modifies db
    ensures first <==> sessionId in old(db.sessions)
    ensures !second && row == None
  {
    first := db.DeleteSession(sessionId);
    second := db.DeleteSession(sessionId);
    row := db.GetSession(sessionId);
  }
}
