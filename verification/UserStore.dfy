// The users table and the statements the store runs on it (internal/store/store.go).

module UserStore {
  import opened Prelude
  import opened UpdateBuilder

  datatype UserInput = UserInput(oidcSubject: string, name: string, email: string, nickname: string,
                                 username: string, photoUrl: string)

  datatype UserUpdate = UserUpdate(name: Option<string>, email: Option<string>, nickname: Option<string>,
                                   username: Option<string>, photoUrl: Option<string>)

  // Failure is any other database error; such a statement has no effect.
  datatype StoreError = AlreadyExists(resource: string) | NotFound(resource: string) | NoFields | Failure

  datatype Index = PrimaryKey | SubjectIndex | UsernameIndex

  type Rows = map<Uuid, User>

  ghost predicate Keyed(rows: Rows) {
    forall k :: k in rows ==> rows[k].id == k
  }

  ghost predicate UniqueSubjects(rows: Rows) {
    forall j, k :: j in rows && k in rows && rows[j].oidcSubject == rows[k].oidcSubject ==> j == k
  }

  // The username index is partial: rows without a username do not take part.
  ghost predicate UniqueUsernames(rows: Rows) {
    forall j, k :: j in rows && k in rows && rows[j].username.Some? && rows[j].username == rows[k].username ==> j == k
  }

  function SubjectTaken(rows: Rows, subject: string): bool {
    exists k :: k in rows && rows[k].oidcSubject == subject
  }

  function Usernames(rows: Rows): set<string> {
    set k | k in rows && rows[k].username.Some? :: rows[k].username.value
  }

  function Conflicts(rows: Rows, row: User): set<Index> {
    (if row.id in rows then {PrimaryKey} else {})
    + (if SubjectTaken(rows, row.oidcSubject) then {SubjectIndex} else {})
    + (if row.username.Some? && row.username.value in Usernames(rows) then {UsernameIndex} else {})
  }

  function Row(id: Uuid, input: UserInput, now: int): User {
    User(id, input.oidcSubject, input.name, input.email, input.nickname, Some(input.username), input.photoUrl, now, now)
  }

  function Given(column: Column, value: Option<string>): seq<Field> {
    if value.Some? then [Field(column, value.value)] else []
  }

  function FieldsOf(update: UserUpdate): seq<Field> {
    Given(Name, update.name) + Given(Email, update.email) + Given(Nickname, update.nickname)
    + Given(Column.Username, update.username) + Given(PhotoUrl, update.photoUrl)
  }

  // The record update a UserUpdate asks for.
  function Updated(row: User, update: UserUpdate, now: int): User {
    row.(name := if update.name.Some? then update.name.value else row.name,
         email := if update.email.Some? then update.email.value else row.email,
         nickname := if update.nickname.Some? then update.nickname.value else row.nickname,
         username := if update.username.Some? then update.username else row.username,
         photoUrl := if update.photoUrl.Some? then update.photoUrl.value else row.photoUrl,
         updatedAt := now)
  }

  lemma SetLast(row: User, fields: seq<Field>, f: Field)
    ensures WithFields(row, fields + [f]) == SetColumn(WithFields(row, fields), f.column, f.text)
  {
    assert (fields + [f])[..|fields|] == fields;
  }

  lemma AppendGiven(row: User, fields: seq<Field>, column: Column, value: Option<string>)
    ensures WithFields(row, fields + Given(column, value)) ==
      if value.Some? then SetColumn(WithFields(row, fields), column, value.value) else WithFields(row, fields)
  {
    if value.Some? { SetLast(row, fields, Field(column, value.value)); } else { assert fields + [] == fields; }
  }

  lemma FieldsOfAreUpdated(row: User, update: UserUpdate, now: int)
    ensures WithFields(row, FieldsOf(update)).(updatedAt := now) == Updated(row, update, now)
  {
    var f0 := Given(Name, update.name);
    var f1 := f0 + Given(Email, update.email);
    var f2 := f1 + Given(Nickname, update.nickname);
    var f3 := f2 + Given(Column.Username, update.username);
    assert [] + f0 == f0;
    AppendGiven(row, [], Name, update.name);
    AppendGiven(row, f0, Email, update.email);
    AppendGiven(row, f1, Nickname, update.nickname);
    AppendGiven(row, f2, Column.Username, update.username);
    AppendGiven(row, f3, PhotoUrl, update.photoUrl);
  }

  // The optional fields of an update, added to a builder in column order.
  method CollectFields(update: UserUpdate) returns (builder: Builder)
    ensures fresh(builder) && builder.Valid() && builder.Fields() == FieldsOf(update)
  {
    builder := new Builder();
    if update.name.Some? { builder.Add(Name, update.name.value); }
    assert builder.Fields() == Given(Name, update.name);
    if update.email.Some? { builder.Add(Email, update.email.value); }
    assert builder.Fields() == Given(Name, update.name) + Given(Email, update.email);
    if update.nickname.Some? { builder.Add(Nickname, update.nickname.value); }
    ghost var three := Given(Name, update.name) + Given(Email, update.email) + Given(Nickname, update.nickname);
    assert builder.Fields() == three;
    if update.username.Some? { builder.Add(Column.Username, update.username.value); }
    assert builder.Fields() == three + Given(Column.Username, update.username);
    if update.photoUrl.Some? { builder.Add(PhotoUrl, update.photoUrl.value); }
  }

  class UserTable {
    var rows: Rows

    constructor ()
      ensures Valid() && rows == map[]
    {
      rows := map[];
    }

    ghost predicate Valid()
      reads this
    {
      Keyed(rows) && UniqueSubjects(rows) && UniqueUsernames(rows)
    }

    // INSERT of one row; on a conflict the database names one of the violated indexes, whichever it checks first.
    method CreateUser(input: UserInput, id: Uuid, now: int, fails: bool) returns (r: Result<User, StoreError>)
      requires Valid()
      modifies this
      ensures Valid()
      ensures r.Ok? <==> !fails && Conflicts(old(rows), Row(id, input, now)) == {}
      ensures r.Ok? <==>
        && !fails && id !in old(rows)
        && forall k :: k in old(rows) ==>
            old(rows)[k].oidcSubject != input.oidcSubject && old(rows)[k].username != Some(input.username)
      ensures r.Ok? ==> r.value == Row(id, input, now) && rows == old(rows)[id := r.value]
      // every column
      ensures r.Ok? ==>
        && r.value.id == id && r.value.oidcSubject == input.oidcSubject && r.value.name == input.name
        && r.value.email == input.email && r.value.nickname == input.nickname
        && r.value.username == Some(input.username) && r.value.photoUrl == input.photoUrl
        && r.value.createdAt == now && r.value.updatedAt == now
      ensures r.Err? ==> rows == old(rows)
      ensures r == Err(Failure) <==> fails
      ensures r == Err(AlreadyExists("username")) ==> input.username in Usernames(old(rows))
      ensures r.Err? && !fails && r != Err(AlreadyExists("username")) ==>
        r == Err(AlreadyExists("user")) && (id in old(rows) || SubjectTaken(old(rows), input.oidcSubject))
    {
      if fails {
        return Err(Failure);
      }
      var row := Row(id, input, now);
      var violated := Conflicts(rows, row);
      if violated != {} {
        var constraint :| constraint in violated;
        match constraint {
          case UsernameIndex => return Err(AlreadyExists("username"));
          case SubjectIndex => return Err(AlreadyExists("user"));
          case PrimaryKey => return Err(AlreadyExists("user"));
        }
      }
      assert PrimaryKey !in violated && SubjectIndex !in violated && UsernameIndex !in violated;
      rows := rows[id := row];
      return Ok(row);
    }

    // SELECT by subject, then INSERT, run without interference from other requests.
    method ResolveOrCreateUser(input: UserInput, id: Uuid, now: int, fails: bool)
      returns (r: Result<(User, bool), StoreError>)
      requires Valid() && id !in rows
      modifies this
      ensures Valid()
      ensures r.Ok? ==>
        && r.value.0.id in rows && rows[r.value.0.id] == r.value.0 && r.value.0.oidcSubject == input.oidcSubject
        && (r.value.1 <==> !SubjectTaken(old(rows), input.oidcSubject))
        && rows == (if r.value.1 then old(rows)[id := Row(id, input, now)] else old(rows))
        && (r.value.1 ==> r.value.0.id == id && input.username !in Usernames(old(rows)))
      ensures r.Ok? && r.value.1 ==> var user := r.value.0;
        && user.id == id && user.oidcSubject == input.oidcSubject && user.name == input.name
        && user.email == input.email && user.nickname == input.nickname
        && user.username == Some(input.username) && user.photoUrl == input.photoUrl
        && user.createdAt == now && user.updatedAt == now
      ensures r.Err? ==> rows == old(rows)
      ensures r.Err? ==>
        || r.error == Failure
        || (r.error == AlreadyExists("username") && input.username in Usernames(old(rows)))
      ensures r == Err(Failure) <==> fails
      ensures !fails && (SubjectTaken(old(rows), input.oidcSubject) || input.username !in Usernames(old(rows))) ==> r.Ok?
    {
      if fails {
        return Err(Failure);
      }
      if SubjectTaken(rows, input.oidcSubject) {
        var k: Uuid :| k in rows && rows[k].oidcSubject == input.oidcSubject;
        return Ok((rows[k], false));
      }
      assert PrimaryKey !in Conflicts(rows, Row(id, input, now)) && SubjectIndex !in Conflicts(rows, Row(id, input, now));
      assert UsernameIndex in Conflicts(rows, Row(id, input, now)) <==> input.username in Usernames(rows);
      var inserted := CreateUser(input, id, now, false);
      return if inserted.Ok? then Ok((inserted.value, true)) else Err(inserted.error);
    }

    // The fields given replace the row's; every other row, and every other column but updated_at, stays.
    method UpdateUser(id: Uuid, update: UserUpdate, now: int, fails: bool) returns (r: Result<User, StoreError>)
      requires Valid()
      modifies this
      ensures Valid()
      ensures r.Ok? ==> id in old(rows) && r.value == Updated(old(rows)[id], update, now)
      ensures r.Ok? ==> rows == old(rows)[id := r.value]
      // every column
      ensures r.Ok? ==> var row, user := old(rows)[id], r.value;
        && user.id == row.id && user.oidcSubject == row.oidcSubject && user.createdAt == row.createdAt
        && user.updatedAt == now
        && user.name == (if update.name.Some? then update.name.value else row.name)
        && user.email == (if update.email.Some? then update.email.value else row.email)
        && user.nickname == (if update.nickname.Some? then update.nickname.value else row.nickname)
        && user.username == (if update.username.Some? then update.username else row.username)
        && user.photoUrl == (if update.photoUrl.Some? then update.photoUrl.value else row.photoUrl)
      ensures r.Err? ==> rows == old(rows)
      ensures r == Err(NoFields) <==> update == UserUpdate(None, None, None, None, None)
      ensures r == Err(NoFields) <==> FieldsOf(update) == []
      ensures r == Err(NotFound("user")) <==> FieldsOf(update) != [] && !fails && id !in old(rows)
      ensures r == Err(AlreadyExists("username")) <==>
        && FieldsOf(update) != [] && !fails && id in old(rows)
        && update.username.Some? && update.username.value in Usernames(old(rows) - {id})
      ensures r.Err? ==>
        r.error in {NoFields, NotFound("user"), AlreadyExists("username"), Failure}
      ensures r == Err(Failure) <==> FieldsOf(update) != [] && fails
    {
      var builder := CollectFields(update);
      if builder.Empty() {
        return Err(NoFields);
      }
      var stmt, args := builder.Build(id);
      r := RunUpdate(stmt, args, id, update, now, fails);
    }

    // Executes one UPDATE ... RETURNING; the statement is refused when it would break the username index.
    method RunUpdate(stmt: Statement, args: seq<Value>, id: Uuid, ghost update: UserUpdate, now: int, fails: bool)
      returns (r: Result<User, StoreError>)
      requires Valid() && Executable(stmt, args)
      requires Exec(rows, stmt, args, now) ==
        map k | k in rows :: if rows[k].id == id then WithFields(rows[k], FieldsOf(update)).(updatedAt := now) else rows[k]
      requires FieldsOf(update) != []
      modifies this
      ensures Valid()
      ensures r.Ok? ==> id in old(rows) && r.value == Updated(old(rows)[id], update, now)
      ensures r.Ok? ==> rows == old(rows)[id := r.value]
      ensures r.Err? ==> rows == old(rows)
      ensures r == Err(NotFound("user")) <==> !fails && id !in old(rows)
      ensures r == Err(AlreadyExists("username")) <==>
        !fails && id in old(rows) && update.username.Some? && update.username.value in Usernames(old(rows) - {id})
      ensures r.Err? ==> r.error in {NotFound("user"), AlreadyExists("username"), Failure}
      ensures r == Err(Failure) <==> fails
    {
      if fails {
        return Err(Failure);
      }
      var after := Exec(rows, stmt, args, now);
      if id !in after {
        return Err(NotFound("user"));
      }
      FieldsOfAreUpdated(rows[id], update, now);
      assert after == rows[id := Updated(rows[id], update, now)];
      if after[id].username.Some? && after[id].username.value in Usernames(after - {id}) {
        UnchangedUsernameIsFree(rows, id);
        assert after - {id} == rows - {id};
        return Err(AlreadyExists("username"));
      }
      OneRowUnique(rows, after, id);
      assert after - {id} == rows - {id};
      rows := after;
      return Ok(after[id]);
    }

    method DeleteUser(id: Uuid, fails: bool) returns (r: Result<(), StoreError>)
      requires Valid()
      modifies this
      ensures Valid()
      ensures rows == if fails then old(rows) else old(rows) - {id}
      ensures r == if fails then Err(Failure) else if id in old(rows) then Ok(()) else Err(NotFound("user"))
    {
      if fails {
        return Err(Failure);
      }
      if id !in rows {
        assert rows - {id} == rows;
        return Err(NotFound("user"));
      }
      rows := rows - {id};
      return Ok(());
    }
  }

  lemma UnchangedUsernameIsFree(rows: Rows, id: Uuid)
    requires UniqueUsernames(rows) && id in rows
    ensures rows[id].username.Some? ==> rows[id].username.value !in Usernames(rows - {id})
  {}

  lemma OneRowUnique(rows: Rows, after: Rows, id: Uuid)
    requires Keyed(rows) && UniqueSubjects(rows) && UniqueUsernames(rows)
    requires id in rows && after.Keys == rows.Keys && after[id].id == id
    requires after[id].oidcSubject == rows[id].oidcSubject
    requires forall k :: k in rows && k != id ==> after[k] == rows[k]
    requires after[id].username.Some? ==> after[id].username.value !in Usernames(after - {id})
    ensures Keyed(after) && UniqueSubjects(after) && UniqueUsernames(after)
  {
    assert forall k :: k in after && k != id ==> k in after - {id};
  }
}
