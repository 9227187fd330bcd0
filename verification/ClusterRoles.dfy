// Users and cluster-admin tuples across services: CreateUser, ResolveOrCreateUser, UpdateUser and DeleteUser
// (internal/server/server.go), one request at a time. A call that fails has no effect.

module ClusterRoles {
  import opened Prelude
  import opened UpdateBuilder
  import opened Positional
  import opened Username
  import opened UserStore
  import opened Candidates
  import opened Allocation

  datatype ClusterRole = Unspecified | Admin | Unsupported

  // The username given, or derived with the random suffixes drawn.
  datatype NameSource = Given(username: string) | Derived(draws: seq<Option<string>>)

  // Which of a request's external calls fail.
  datatype Faults = Faults(register: bool, writeTuple: bool, deleteUser: bool, readUser: bool,
                           listOrganizations: bool, removeMemberships: bool, checkAdmin: bool)

  datatype Answer = Done | InvalidArgument | Refused(error: StoreError) | Internal

  predicate ValidClusterRole(role: ClusterRole) {
    role == Admin || role == Unspecified
  }

  ghost predicate WellDrawn(name: NameSource) {
    name.Derived? ==> AreDraws(name.draws)
  }

  // The row holds what was asked, under the name given or the first free candidate of the base.
  ghost predicate AsAsked(row: User, input: UserInput, name: NameSource, base: string, names: set<string>)
    requires WellDrawn(name)
  {
    && row.oidcSubject == input.oidcSubject && row.name == input.name && row.email == input.email
    && row.nickname == input.nickname && row.photoUrl == input.photoUrl && row.updatedAt == row.createdAt
    && row.username.Some?
    && (if name.Given? then row.username.value == name.username && name.username !in names
        else FirstFree(row.username.value, base, name.draws, names))
  }

  // The preferred username, else the email's local part, else the name, normalised: the first that leaves anything, where
  // nobody has it.
  ghost predicate NamePreferred(lower: char -> char, preferredUsername: string, input: UserInput, names: set<string>,
                                username: Option<string>) {
    var preferred, local := Normalized(lower, preferredUsername), Normalized(lower, EmailLocalPart(input.email));
    var name := Normalized(lower, input.name);
    && (preferred != "" && preferred !in names ==> username == Some(preferred))
    && (preferred == "" && local != "" && local !in names ==> username == Some(local))
    && (preferred == "" && local == "" && name != "" && name !in names ==> username == Some(name))
  }

  ghost predicate ValidNames(rows: Rows) {
    forall k :: k in rows && rows[k].username.Some? ==> ValidUsername(rows[k].username.value)
  }

  // Every new row bears one of the identifiers generated for this request.
  ghost predicate GrewBy(before: Rows, after: Rows, ids: nat -> Uuid) {
    forall k :: k in after ==> k in before || exists n: nat :: k == ids(n)
  }

  class Service {
    const users: UserTable
    const lower: char -> char
    const sha256: string -> seq<Byte>
    var admins: set<Uuid>      // cluster-admin tuples written by this service
    var registered: set<Uuid>  // identities registered with the identity service

    constructor (users: UserTable, lower: char -> char, sha256: string -> seq<Byte>)
      requires users.Valid() && ValidNames(users.rows) && forall s :: |sha256(s)| == 32
      ensures this.users == users && this.lower == lower && this.sha256 == sha256
      ensures admins == {} && registered == {} && Valid()
    {
      this.users, this.lower, this.sha256 := users, lower, sha256;
      admins, registered := {}, {};
    }

    // Every cluster-admin tuple belongs to an existing user row, and every stored username is a valid one.
    ghost predicate Valid()
      reads this, users
    {
      && users.Valid() && ValidNames(users.rows) && admins <= users.rows.Keys
      && forall s :: |sha256(s)| == 32
    }

    // A tuple that is already as asked is convergence, not failure.
    method SyncClusterRole(id: Uuid, role: ClusterRole, writeFails: bool) returns (ok: bool)
      modifies this`admins
      ensures ok <==> ValidClusterRole(role) && !writeFails
      ensures admins ==
        if !ok then old(admins) else if role == Admin then old(admins) + {id} else old(admins) - {id}
    {
      match role {
        case Unsupported => return false;
        case Admin =>
          if writeFails { return false; }
          if id !in admins { admins := admins + {id}; }
          return true;
        case Unspecified =>
          if writeFails { return false; }
          if id in admins { admins := admins - {id}; }
          return true;
      }
    }

    // RegisterIdentity: registering twice is refused as already existing.
    method RegisterIdentity(id: Uuid, fails: bool) returns (ok: bool, known: bool)
      modifies this`registered
      ensures ok <==> !fails && id !in old(registered)
      ensures known <==> !fails && id in old(registered)
      ensures registered == if ok then old(registered) + {id} else old(registered)
    {
      if fails {
        return false, false;
      }
      if id in registered {
        return false, true;
      }
      registered := registered + {id};
      return true, false;
    }

    // The INSERT of CreateUser, under the name given or the first free candidate derived from name and subject.
    method InsertUser(input: UserInput, name: NameSource, ids: nat -> Uuid, times: nat -> int, insertFails: nat -> bool)
      returns (r: Result<User, AllocationError>)
      requires Valid() && WellDrawn(name) && (name.Given? ==> ValidUsername(name.username))
      requires forall n :: ids(n) !in users.rows
      modifies users
      ensures Valid()
      ensures r.Ok? ==>
        && AsAsked(r.value, input, name, DerivedBase(lower, sha256, "", "", input.name, input.oidcSubject),
                   Usernames(old(users.rows)))
        && users.rows == old(users.rows)[r.value.id := r.value] && exists n: nat :: r.value.id == ids(n)
      ensures r.Ok? && name.Derived? && Normalized(lower, input.name) != ""
        && Normalized(lower, input.name) !in Usernames(old(users.rows))
        ==> r.value.username == Some(Normalized(lower, input.name))
      ensures r.Err? ==> users.rows == old(users.rows)
      ensures
        && !SubjectTaken(old(users.rows), input.oidcSubject) && (forall n :: !insertFails(n))
        && (if name.Given? then name.username !in Usernames(old(users.rows)) else |Usernames(old(users.rows))| < 98)
        ==> r.Ok?
    {
      match name {
        case Given(username) =>
          NoConflictMeans(users.rows, Row(ids(0), input.(username := username), times(0)));
          var created := users.CreateUser(input.(username := username), ids(0), times(0), insertFails(0));
          r := if created.Ok? then Ok(created.value) else Err(Store(created.error));
        case Derived(draws) =>
          DerivedBaseIsGood(lower, sha256, "", "", input.name, input.oidcSubject);
          var base := DeriveUsernameBase(lower, sha256, "", "", input.name, input.oidcSubject);
          NormalizedWord(lower, "");
          ghost var names := Usernames(users.rows);
          var attempts;
          r, attempts := AllocateAndCreate(users, input, base, draws, ids, times, insertFails);
          if r.Ok? {
            FirstFreeIsValid(r.value.username.value, base, draws, names);
            if base !in names { FreeBaseIsTaken(r.value.username.value, base, draws, names); }
          }
      }
    }

    // Registration and the role of a new user, who is taken back when either fails.
    method EstablishUser(id: Uuid, role: ClusterRole, faults: Faults) returns (ok: bool)
      requires Valid() && id in users.rows && id !in admins && ValidClusterRole(role)
      modifies this`admins, this`registered, users
      ensures Valid() && old(registered) <= registered
      ensures ok <==> !faults.register && id !in old(registered) && (role == Admin ==> !faults.writeTuple)
      ensures ok ==> id in registered && admins == (if role == Admin then old(admins) + {id} else old(admins))
      ensures !ok ==> admins == old(admins)
      ensures users.rows == if ok || faults.deleteUser then old(users.rows) else old(users.rows) - {id}
    {
      var known;
      ok, known := RegisterIdentity(id, faults.register);
      if ok && role == Admin {
        ok := SyncClusterRole(id, role, faults.writeTuple);
      }
      if !ok {
        var _ := users.DeleteUser(id, faults.deleteUser);
      }
    }

    // The new row survives a failure only when the compensating delete fails too.
    method CreateUser(input: UserInput, name: NameSource, role: ClusterRole, ids: nat -> Uuid, times: nat -> int,
                      insertFails: nat -> bool, faults: Faults)
      returns (r: Answer, ghost id: Uuid)
      requires Valid() && WellDrawn(name)
      requires forall n :: ids(n) !in users.rows
      modifies this`admins, this`registered, users
      ensures Valid() && old(registered) <= registered && GrewBy(old(users.rows), users.rows, ids)
      ensures r.InvalidArgument? <==>
        input.oidcSubject == "" || !ValidClusterRole(role) || (name.Given? && !ValidUsername(name.username))
      ensures r.Done? ==>
        && id !in old(users.rows) && id in users.rows
        && AsAsked(users.rows[id], input, name, DerivedBase(lower, sha256, "", "", input.name, input.oidcSubject),
                   Usernames(old(users.rows)))
        && users.rows == old(users.rows)[id := users.rows[id]]
        && id in registered && admins == (if role == Admin then old(admins) + {id} else old(admins))
      // the name, normalised, where it leaves anything and nobody has it
      ensures r.Done? && name.Derived? && Normalized(lower, input.name) != ""
        && Normalized(lower, input.name) !in Usernames(old(users.rows))
        ==> users.rows[id].username == Some(Normalized(lower, input.name))
      ensures
        && !r.InvalidArgument? && !SubjectTaken(old(users.rows), input.oidcSubject)
        && !faults.register && (forall n :: ids(n) !in old(registered)) && !faults.writeTuple
        && (forall n :: !insertFails(n))
        && (if name.Given? then name.username !in Usernames(old(users.rows)) else |Usernames(old(users.rows))| < 98)
        ==> r.Done?
      ensures !r.Done? ==>
        && admins == old(admins)
        && (users.rows == old(users.rows) ||
            (r.Internal? && faults.deleteUser && id in users.rows && users.rows - {id} == old(users.rows)))
    {
      id := 0;
      if input.oidcSubject == "" || !ValidClusterRole(role) || (name.Given? && !ValidUsername(name.username)) {
        return InvalidArgument, id;
      }
      ghost var before := users.rows;
      var user := InsertUser(input, name, ids, times, insertFails);
      if user.Err? {
        return if user.error.Store? then Refused(user.error.error) else Internal, id;
      }
      id := user.value.id;
      assert before[id := user.value] - {id} == before;
      var ok := EstablishUser(user.value.id, role, faults);
      return if ok then Done else Internal, id;
    }

    // Registration on sign-in: already registered is fine, and only a user just created is taken back on failure.
    method RegisterResolved(id: Uuid, isNew: bool, faults: Faults) returns (ok: bool)
      requires Valid() && (isNew ==> id !in admins)
      modifies this`registered, users
      ensures Valid() && old(registered) <= registered
      ensures ok <==> !faults.register || !isNew
      ensures !faults.register ==> id in registered
      ensures users.rows == if ok || faults.deleteUser then old(users.rows) else old(users.rows) - {id}
    {
      var registeredNow, known := RegisterIdentity(id, faults.register);
      if !registeredNow && !known && isNew {
        var _ := users.DeleteUser(id, faults.deleteUser);
        return false;
      }
      return true;
    }

    // Signing in: the user found or created; a user created without an identity registration is taken back.
    method ResolveOrCreateUser(input: UserInput, preferredUsername: string, draws: seq<Option<string>>, ids: nat -> Uuid,
                               times: nat -> int, storeFails: nat -> bool, faults: Faults)
      returns (r: Answer, user: Option<User>, created: bool)
      requires Valid() && AreDraws(draws)
      requires forall n :: ids(n) !in users.rows
      modifies this`registered, users
      ensures Valid() && old(registered) <= registered && GrewBy(old(users.rows), users.rows, ids)
      ensures r.InvalidArgument? <==> input.oidcSubject == ""
      ensures r.Done? <==> user.Some?
      ensures r.Done? ==> Found(user.value, created, old(users.rows), users.rows, input.oidcSubject)
      ensures r.Done? && created ==>
        AsAsked(user.value, input, Derived(draws),
                DerivedBase(lower, sha256, preferredUsername, input.email, input.name, input.oidcSubject),
                Usernames(old(users.rows)))
      ensures r.Done? && created ==>
        NamePreferred(lower, preferredUsername, input, Usernames(old(users.rows)), user.value.username)
      ensures r.Done? && (created || !faults.register) ==> user.value.id in registered
      ensures !r.Done? && !faults.deleteUser ==> users.rows == old(users.rows)
      // a known subject signs in whatever the identity service says
      ensures input.oidcSubject != "" && SubjectTaken(old(users.rows), input.oidcSubject) && !storeFails(0) ==> r.Done?
      // with fewer than 98 names taken, so does a new one, unless a call fails
      ensures
        && input.oidcSubject != "" && |Usernames(old(users.rows))| < 98 && !faults.register
        && (forall k :: 0 <= k < NUMERIC_SUFFIX_MAX ==> !storeFails(k))
        ==> r.Done?
    {
      if input.oidcSubject == "" {
        return InvalidArgument, None, false;
      }
      ghost var before := users.rows;
      var resolved := Resolve(input, preferredUsername, draws, ids, times, storeFails);
      if resolved.Err? {
        return if resolved.error.Store? then Refused(resolved.error.error) else Internal, None, false;
      }
      var (found, isNew) := resolved.value;
      if isNew { assert before[found.id := found] - {found.id} == before; }
      var ok := RegisterResolved(found.id, isNew, faults);
      if !ok {
        return Internal, None, false;
      }
      return Done, Some(found), isNew;
    }

    // Up to registration: the base and the candidate loop.
    method Resolve(input: UserInput, preferredUsername: string, draws: seq<Option<string>>, ids: nat -> Uuid,
                   times: nat -> int, storeFails: nat -> bool)
      returns (r: Result<(User, bool), AllocationError>)
      requires Valid() && AreDraws(draws)
      requires forall n :: ids(n) !in users.rows
      modifies users
      ensures Valid() && GrewBy(old(users.rows), users.rows, ids)
      ensures r.Ok? ==> Found(r.value.0, r.value.1, old(users.rows), users.rows, input.oidcSubject)
      ensures r.Ok? && r.value.1 ==>
        && AsAsked(r.value.0, input, Derived(draws),
                   DerivedBase(lower, sha256, preferredUsername, input.email, input.name, input.oidcSubject),
                   Usernames(old(users.rows)))
        && NamePreferred(lower, preferredUsername, input, Usernames(old(users.rows)), r.value.0.username)
      ensures r.Err? ==> users.rows == old(users.rows)
      ensures SubjectTaken(old(users.rows), input.oidcSubject) && !storeFails(0) ==> r.Ok?
      ensures
        && |Usernames(old(users.rows))| < 98 && (forall k :: 0 <= k < NUMERIC_SUFFIX_MAX ==> !storeFails(k))
        ==> r.Ok?
    {
      DerivedBaseIsGood(lower, sha256, preferredUsername, input.email, input.name, input.oidcSubject);
      var base := DeriveUsernameBase(lower, sha256, preferredUsername, input.email, input.name, input.oidcSubject);
      ghost var before := users.rows;
      var attempts;
      r, attempts := ResolveCandidates(users, input, base, draws, ids, times, storeFails);
      if r.Ok? && r.value.1 {
        FirstFreeIsValid(r.value.0.username.value, base, draws, Usernames(before));
        if base !in Usernames(before) { FreeBaseIsTaken(r.value.0.username.value, base, draws, Usernames(before)); }
      }
    }

    method UpdateUser(id: Uuid, update: UserUpdate, role: Option<ClusterRole>, now: int, fails: bool, faults: Faults)
      returns (r: Answer)
      requires Valid()
      modifies this`admins, users
      ensures Valid()
      ensures users.rows.Keys == old(users.rows.Keys)
      ensures r.Done? || (r.Internal? && id in users.rows && FieldsOf(update) != []) ==>
        && id in users.rows
        && users.rows == (if FieldsOf(update) == [] then old(users.rows)
                          else old(users.rows)[id := Updated(old(users.rows)[id], update, now)])
      ensures r.InvalidArgument? || r.Refused? ==> users.rows == old(users.rows)
      ensures r.InvalidArgument? <==>
        || (role.Some? && !ValidClusterRole(role.value)) || (FieldsOf(update) == [] && role.None?)
        || (update.username.Some? && !ValidUsername(update.username.value))
      ensures r.Internal? <==>
        && role.Some? && !r.InvalidArgument? && faults.writeTuple && id in old(users.rows)
        && (if FieldsOf(update) == [] then !faults.readUser
            else !fails && (update.username.Some? ==> update.username.value !in Usernames(old(users.rows) - {id})))
      ensures r.Done? ==>
        && admins == (if role.None? then old(admins) else if role.value == Admin then old(admins) + {id}
                      else old(admins) - {id})
      ensures !r.Done? ==> admins == old(admins)
    {
      if role.Some? && !ValidClusterRole(role.value) {
        return InvalidArgument;
      }
      if FieldsOf(update) == [] && role.None? {
        return InvalidArgument;
      }
      if update.username.Some? && !ValidUsername(update.username.value) {
        return InvalidArgument;
      }
      if FieldsOf(update) != [] {
        var updated := users.UpdateUser(id, update, now, fails);
        if updated.Err? {
          return Refused(updated.error);
        }
      } else if faults.readUser || id !in users.rows {
        return Refused(if faults.readUser then Failure else NotFound("user"));
      }
      if role.Some? {
        var ok := SyncClusterRole(id, role.value, faults.writeTuple);
        if !ok {
          return Internal;
        }
      }
      return Done;
    }

    // A user changes their own name or username; the role is only read.
    method UpdateMe(id: Uuid, name: Option<string>, username: Option<string>, now: int, fails: bool, faults: Faults)
      returns (r: Answer)
      requires Valid()
      modifies users
      ensures Valid() && users.rows.Keys == old(users.rows.Keys)
      ensures r.InvalidArgument? <==>
        (name.None? && username.None?) || (username.Some? && !ValidUsername(username.value))
      ensures r.Done? || r.Internal? <==>
        && !r.InvalidArgument? && !fails && id in old(users.rows)
        && (username.Some? ==> username.value !in Usernames(old(users.rows) - {id}))
      ensures r.Internal? ==> faults.checkAdmin
      ensures r.Done? ==> !faults.checkAdmin
      ensures users.rows ==
        if r.Done? || r.Internal?
        then old(users.rows)[id := Updated(old(users.rows)[id], UserUpdate(name, None, None, username, None), now)]
        else old(users.rows)
    {
      if name.None? && username.None? {
        return InvalidArgument;
      }
      if username.Some? && !ValidUsername(username.value) {
        return InvalidArgument;
      }
      var updated := users.UpdateUser(id, UserUpdate(name, None, None, username, None), now, fails);
      if updated.Err? {
        return Refused(updated.error);
      }
      return if faults.checkAdmin then Internal else Done;
    }

    // The role goes first, the row last; organizations are the user's memberships with the authorization service.
    method DeleteUser(id: Uuid, organizations: set<string>, faults: Faults) returns (r: Answer)
      requires Valid()
      modifies this`admins, users
      ensures Valid()
      ensures r.Done? <==>
        && id in old(users.rows) && !faults.writeTuple && !faults.listOrganizations && !faults.deleteUser
        && (organizations == {} || !faults.removeMemberships)
      ensures users.rows == if r.Done? then old(users.rows) - {id} else old(users.rows)
      ensures admins == if faults.writeTuple then old(admins) else old(admins) - {id}
    {
      var ok := SyncClusterRole(id, Unspecified, faults.writeTuple);
      if !ok {
        return Internal;
      }
      if faults.listOrganizations {
        return Internal;
      }
      if organizations != {} && faults.removeMemberships {
        return Internal;
      }
      var deleted := users.DeleteUser(id, faults.deleteUser);
      return if deleted.Ok? then Done else Refused(deleted.error);
    }
  }

  datatype Call =
    | CallCreate(input: UserInput, name: NameSource, role: ClusterRole)
    | CallResolve(input: UserInput, preferredUsername: string, draws: seq<Option<string>>)
    | CallUpdate(id: Uuid, update: UserUpdate, newRole: Option<ClusterRole>)
    | CallUpdateMe(me: Uuid, newName: Option<string>, newUsername: Option<string>)
    | CallDelete(target: Uuid, organizations: set<string>)

  ghost predicate WellFormedCall(call: Call) {
    && (call.CallCreate? ==> WellDrawn(call.name))
    && (call.CallResolve? ==> AreDraws(call.draws))
  }

  method ServeOne(service: Service, call: Call, ids: nat -> Uuid, times: nat -> int, storeFails: nat -> bool, faults: Faults)
    requires service.Valid() && WellFormedCall(call)
    requires forall n :: ids(n) !in service.users.rows
    modifies service, service.users
    ensures service.Valid() && GrewBy(old(service.users.rows), service.users.rows, ids)
  {
    match call {
      case CallCreate(input, name, role) =>
        var _, made := service.CreateUser(input, name, role, ids, times, storeFails, faults);
      case CallResolve(input, preferredUsername, draws) =>
        var _, _, _ := service.ResolveOrCreateUser(input, preferredUsername, draws, ids, times, storeFails, faults);
      case CallUpdate(id, update, role) =>
        var _ := service.UpdateUser(id, update, role, times(0), storeFails(0), faults);
      case CallUpdateMe(id, name, username) =>
        var _ := service.UpdateMe(id, name, username, times(0), storeFails(0), faults);
      case CallDelete(id, organizations) =>
        var _ := service.DeleteUser(id, organizations, faults);
    }
  }

  // Any requests one after the other, any statement and any call of theirs failing: no tuple ever outlives or precedes
  // its user, and no username that the service would refuse is ever stored. ids(i, n), times(i, n) and storeFails(i, n)
  // belong to the n-th INSERT of the i-th request.
  method Serve(service: Service, calls: seq<Call>, ids: (nat, nat) -> Uuid, times: (nat, nat) -> int,
               storeFails: (nat, nat) -> bool, faults: nat -> Faults)
    requires service.Valid()
    requires forall i :: 0 <= i < |calls| ==> WellFormedCall(calls[i])
    requires forall i, n :: ids(i, n) !in service.users.rows
    requires forall i, j, m, n :: i != j ==> ids(i, m) != ids(j, n)
    modifies service, service.users
    ensures service.Valid()
  {
    for i := 0 to |calls|
      invariant service.Valid()
      invariant forall j, n :: i <= j ==> ids(j, n) !in service.users.rows
    {
      assert WellFormedCall(calls[i]);
      ServeOne(service, calls[i], (n: nat) => ids(i, n), (n: nat) => times(i, n), (n: nat) => storeFails(i, n), faults(i));
    }
  }
}
