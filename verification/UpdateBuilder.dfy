// The UPDATE builder (internal/store/query_helpers.go) and the meaning of the statement it builds.

module UpdateBuilder {
  import opened Prelude

  datatype User = User(id: Uuid, oidcSubject: string, name: string, email: string, nickname: string,
                       username: Option<string>, photoUrl: string, createdAt: int, updatedAt: int)

  datatype Column = Name | Email | Nickname | Username | PhotoUrl

  datatype Value = Text(text: string) | Id(id: Uuid)

  // "column = $placeholder" or "updated_at = NOW()".
  datatype SetClause = Assign(column: Column, placeholder: int) | TouchUpdatedAt

  // UPDATE users SET sets WHERE identity_id = $idPlaceholder RETURNING ...
  datatype Statement = Update(sets: seq<SetClause>, idPlaceholder: int)

  datatype Field = Field(column: Column, text: string)

  // ---- what a prepared statement with its arguments denotes

  predicate Bound(args: seq<Value>, placeholder: int) {
    1 <= placeholder <= |args|
  }

  predicate WellBound(sets: seq<SetClause>, args: seq<Value>) {
    forall i :: 0 <= i < |sets| && sets[i].Assign? ==>
      Bound(args, sets[i].placeholder) && args[sets[i].placeholder - 1].Text?
  }

  function SetColumn(row: User, column: Column, text: string): User {
    match column
    case Name => row.(name := text)
    case Email => row.(email := text)
    case Nickname => row.(nickname := text)
    case Username => row.(username := Some(text))
    case PhotoUrl => row.(photoUrl := text)
  }

  function ExecSets(row: User, sets: seq<SetClause>, args: seq<Value>, now: int): User
    requires WellBound(sets, args)
  {
    if sets == [] then row
    else
      var last := sets[|sets| - 1];
      var before := ExecSets(row, sets[..|sets| - 1], args, now);
      match last
      case Assign(column, placeholder) => SetColumn(before, column, args[placeholder - 1].text)
      case TouchUpdatedAt => before.(updatedAt := now)
  }

  predicate Executable(stmt: Statement, args: seq<Value>) {
    WellBound(stmt.sets, args) && Bound(args, stmt.idPlaceholder) && args[stmt.idPlaceholder - 1].Id?
  }

  // Every row the WHERE clause selects is rewritten; no other row is.
  function Exec(rows: map<Uuid, User>, stmt: Statement, args: seq<Value>, now: int): map<Uuid, User>
    requires Executable(stmt, args)
  {
    map k | k in rows ::
      if rows[k].id == args[stmt.idPlaceholder - 1].id then ExecSets(rows[k], stmt.sets, args, now) else rows[k]
  }

  // ---- the record update it stands for

  function WithFields(row: User, fields: seq<Field>): User {
    if fields == [] then row
    else
      var last := fields[|fields| - 1];
      SetColumn(WithFields(row, fields[..|fields| - 1]), last.column, last.text)
  }

  // ---- the builder

  class Builder {
    var setClauses: seq<SetClause>
    var args: seq<Value>

    constructor ()
      ensures Valid() && Fields() == []
    {
      setClauses, args := [], [];
    }

    // Clause i assigns from placeholder i + 1, which is argument i.
    ghost predicate Valid()
      reads this
    {
      && |setClauses| == |args|
      && forall i :: 0 <= i < |args| ==>
          setClauses[i].Assign? && setClauses[i].placeholder == i + 1 && args[i].Text?
    }

    // The fields added so far, in order.
    ghost function Fields(): (fields: seq<Field>)
      requires Valid()
      reads this
      ensures |fields| == |args|
    {
      seq(|args|, i requires 0 <= i < |args| && Valid() reads this => Field(setClauses[i].column, args[i].text))
    }

    method Add(column: Column, text: string)
      requires Valid()
      modifies this
      ensures Valid() && Fields() == old(Fields()) + [Field(column, text)]
    {
      var placeholder := |args| + 1;
      setClauses := setClauses + [Assign(column, placeholder)];
      args := args + [Text(text)];
    }

    predicate Empty()
      reads this
    {
      |setClauses| == 0
    }

    // The built statement is a record update of the fields added, plus updated_at, on the row with this id.
    method Build(id: Uuid) returns (stmt: Statement, queryArgs: seq<Value>)
      requires Valid()
      ensures Executable(stmt, queryArgs)
      ensures |stmt.sets| == |queryArgs| == |Fields()| + 1
      ensures forall i {:trigger queryArgs[i]} :: 0 <= i < |Fields()| ==>
        && stmt.sets[i] == Assign(Fields()[i].column, i + 1)
        && queryArgs[i] == Text(Fields()[i].text)
      ensures stmt.idPlaceholder == |queryArgs| && queryArgs[stmt.idPlaceholder - 1] == Id(id)
      ensures forall rows: map<Uuid, User>, now: int ::
        Exec(rows, stmt, queryArgs, now) ==
        map k | k in rows ::
          if rows[k].id == id then WithFields(rows[k], Fields()).(updatedAt := now) else rows[k]
    {
      queryArgs := args + [Id(id)];
      stmt := Update(setClauses + [TouchUpdatedAt], |queryArgs|);
      forall rows: map<Uuid, User>, now: int
        ensures Executable(stmt, queryArgs)
        ensures Exec(rows, stmt, queryArgs, now) ==
          map k | k in rows ::
            if rows[k].id == id then WithFields(rows[k], Fields()).(updatedAt := now) else rows[k]
      {
        BuiltIsUpdate(setClauses, args, Fields(), id, rows, now);
      }
    }
  }

  lemma BuiltIsUpdate(clauses: seq<SetClause>, args: seq<Value>, fields: seq<Field>, id: Uuid, rows: map<Uuid, User>,
                      now: int)
    requires |clauses| == |args| == |fields|
    requires forall i :: 0 <= i < |args| ==>
      clauses[i] == Assign(fields[i].column, i + 1) && args[i] == Text(fields[i].text)
    ensures var stmt, queryArgs := Update(clauses + [TouchUpdatedAt], |args| + 1), args + [Id(id)];
      && Executable(stmt, queryArgs)
      && Exec(rows, stmt, queryArgs, now) ==
          map k | k in rows :: if rows[k].id == id then WithFields(rows[k], fields).(updatedAt := now) else rows[k]
  {
    forall row
      ensures WellBound(clauses + [TouchUpdatedAt], args + [Id(id)])
      ensures ExecSets(row, clauses + [TouchUpdatedAt], args + [Id(id)], now)
        == WithFields(row, fields).(updatedAt := now)
    {
      BuiltSets(row, clauses, args, fields, id, now);
    }
  }

  lemma TouchLast(row: User, clauses: seq<SetClause>, args: seq<Value>, now: int)
    requires WellBound(clauses, args)
    ensures WellBound(clauses + [TouchUpdatedAt], args)
    ensures ExecSets(row, clauses + [TouchUpdatedAt], args, now) == ExecSets(row, clauses, args, now).(updatedAt := now)
  {
    assert (clauses + [TouchUpdatedAt])[..|clauses|] == clauses;
  }

  lemma BuiltSets(row: User, clauses: seq<SetClause>, args: seq<Value>, fields: seq<Field>, id: Uuid, now: int)
    requires |clauses| == |args| == |fields|
    requires forall i :: 0 <= i < |args| ==>
      clauses[i] == Assign(fields[i].column, i + 1) && args[i] == Text(fields[i].text)
    ensures WellBound(clauses + [TouchUpdatedAt], args + [Id(id)])
    ensures ExecSets(row, clauses + [TouchUpdatedAt], args + [Id(id)], now) == WithFields(row, fields).(updatedAt := now)
  {
    SetsAreFields(row, clauses, args + [Id(id)], fields, now);
    TouchLast(row, clauses, args + [Id(id)], now);
  }

  lemma {:induction false} SetsAreFields(row: User, sets: seq<SetClause>, args: seq<Value>, fields: seq<Field>, now: int)
    requires |sets| == |fields| && WellBound(sets, args)
    requires forall i :: 0 <= i < |sets| ==>
      && sets[i].Assign? && sets[i].column == fields[i].column
      && args[sets[i].placeholder - 1] == Text(fields[i].text)
    ensures ExecSets(row, sets, args, now) == WithFields(row, fields)
  {
    if sets != [] {
      SetsAreFields(row, sets[..|sets| - 1], args, fields[..|fields| - 1], now);
    }
  }
}
