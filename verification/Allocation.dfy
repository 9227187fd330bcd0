// CreateUser's username allocation loop (internal/server/server.go) over the candidates and the users table.

module Allocation {
  import opened Prelude
  import opened Username
  import opened Candidates
  import opened UserStore
  import opened UpdateBuilder

  datatype AllocationError = RandomSource | NoCandidateLeft | Store(error: StoreError)

  // The iterator reaches candidate k: every random suffix up to it was delivered.
  ghost predicate Reaches(draws: seq<Option<string>>, k: nat)
    requires AreDraws(draws)
  {
    k < CANDIDATES && forall i :: 0 <= i < RANDOM_SUFFIX_TRIES && i + NUMERIC_SUFFIX_MAX <= k ==> draws[i].Some?
  }

  // The candidates of a base by their position.
  ghost function CandidatesOf(base: string, draws: seq<Option<string>>): nat -> string
    requires AreDraws(draws)
  {
    (k: nat) => if AreDraws(draws) && k < CANDIDATES && Drawn(draws, k) then Candidate(base, draws, k) else ""
  }

  // nth(k) is candidate k. The loops need no more of the candidates than that each has its place.
  ghost predicate AreCandidates(nth: nat -> string, base: string, draws: seq<Option<string>>)
    requires AreDraws(draws)
  {
    forall k: nat {:trigger Candidate(base, draws, k)} ::
      k < CANDIDATES && Drawn(draws, k) ==> nth(k) == Candidate(base, draws, k)
  }

  ghost predicate Taken(nth: nat -> string, draws: seq<Option<string>>, k: nat, names: set<string>)
    requires AreDraws(draws)
  {
    Reaches(draws, k) && nth(k) in names
  }

  // The first n candidates are in use.
  ghost predicate AllTaken(nth: nat -> string, draws: seq<Option<string>>, n: nat, names: set<string>)
    requires AreDraws(draws)
  {
    forall j :: 0 <= j < n ==> Taken(nth, draws, j, names)
  }

  // The name is the first candidate nobody uses.
  ghost predicate FirstFree(name: string, base: string, draws: seq<Option<string>>, names: set<string>)
    requires AreDraws(draws)
  {
    && name !in names
    && exists k: nat ::
        && Reaches(draws, k) && name == Candidate(base, draws, k)
        && AllTaken(CandidatesOf(base, draws), draws, k, names)
  }

  lemma FirstFreeIsValid(name: string, base: string, draws: seq<Option<string>>, names: set<string>)
    requires AreDraws(draws) && FirstFree(name, base, draws, names) && GoodBase(base)
    ensures ValidUsername(name)
  {
    var k: nat :| Reaches(draws, k) && name == Candidate(base, draws, k)
      && AllTaken(CandidatesOf(base, draws), draws, k, names);
    CandidatesWellFormed(base, draws, k);
  }

  lemma FreeBaseIsTaken(name: string, base: string, draws: seq<Option<string>>, names: set<string>)
    requires AreDraws(draws) && FirstFree(name, base, draws, names) && base !in names
    ensures name == base
  {
    var k: nat :| Reaches(draws, k) && name == Candidate(base, draws, k)
      && AllTaken(CandidatesOf(base, draws), draws, k, names);
    assert Taken(CandidatesOf(base, draws), draws, 0, names) ==> base in names;
  }

  lemma NoConflictMeans(rows: Rows, row: User)
    ensures Conflicts(rows, row) == {} <==>
      && row.id !in rows && !SubjectTaken(rows, row.oidcSubject)
      && (row.username.Some? ==> row.username.value !in Usernames(rows))
  {
    assert PrimaryKey in Conflicts(rows, row) <==> row.id in rows;
    assert SubjectIndex in Conflicts(rows, row) <==> SubjectTaken(rows, row.oidcSubject);
    assert UsernameIndex in Conflicts(rows, row) <==>
      row.username.Some? && row.username.value in Usernames(rows);
  }

  // What a loop over the candidates leaves behind, whatever its answer; created tells whether it added a row.
  ghost predicate Explained<T>(r: Result<T, AllocationError>, created: bool, attempts: nat, before: Rows,
                               subject: string, nth: nat -> string, draws: seq<Option<string>>, fails: nat -> bool)
    requires AreDraws(draws)
  {
    var names := Usernames(before);
    && attempts <= CANDIDATES
    && (r.Ok? ==> attempts > 0 && Reaches(draws, attempts - 1))
    && (r.Ok? && created ==>
        && AllTaken(nth, draws, attempts - 1, names) && !Taken(nth, draws, attempts - 1, names)
        && !SubjectTaken(before, subject))
    && (r == Err(NoCandidateLeft) ==> AllTaken(nth, draws, CANDIDATES, names))
    && (r == Err(RandomSource) ==>
        && NUMERIC_SUFFIX_MAX <= attempts < CANDIDATES && draws[attempts - NUMERIC_SUFFIX_MAX].None?
        && AllTaken(nth, draws, attempts, names))
    && (r.Err? && r.error.Store? ==>
        && attempts > 0 && AllTaken(nth, draws, attempts - 1, names)
        && (fails(attempts - 1) || SubjectTaken(before, subject)))
  }

  // With fewer than 98 names taken, a new subject always gets a user, and no randomness is drawn.
  lemma FewNamesSuffice<T>(r: Result<T, AllocationError>, created: bool, attempts: nat, before: Rows, subject: string,
                           base: string, draws: seq<Option<string>>, fails: nat -> bool)
    requires AreDraws(draws) && Explained(r, created, attempts, before, subject, CandidatesOf(base, draws), draws, fails)
    requires !SubjectTaken(before, subject) && |Usernames(before)| < 98
    requires forall n :: 0 <= n < NUMERIC_SUFFIX_MAX ==> !fails(n)
    ensures r.Ok? && (created ==> attempts <= NUMERIC_SUFFIX_MAX)
  {
    var free := SomeNumericCandidateFree(base, draws, Usernames(before));
    assert !Taken(CandidatesOf(base, draws), draws, free, Usernames(before));
  }

  lemma CreatedIsFirstFree<T>(r: Result<T, AllocationError>, attempts: nat, before: Rows, subject: string, base: string,
                              draws: seq<Option<string>>, fails: nat -> bool)
    requires AreDraws(draws) && r.Ok?
    requires Explained(r, true, attempts, before, subject, CandidatesOf(base, draws), draws, fails)
    ensures FirstFree(Candidate(base, draws, attempts - 1), base, draws, Usernames(before))
  {}

  // ids(n), times(n) and fails(n) are the identifier generated for the n-th INSERT, its time, and whether that statement
  // fails. The first free candidate is taken, and the new row carries it.
  method AllocateAndCreate(users: UserTable, input: UserInput, base: string, draws: seq<Option<string>>,
                           ids: nat -> Uuid, times: nat -> int, fails: nat -> bool)
    returns (r: Result<User, AllocationError>, attempts: nat)
    requires users.Valid() && AreDraws(draws)
    requires forall n :: ids(n) !in users.rows
    modifies users
    ensures users.Valid()
    ensures Explained(r, true, attempts, old(users.rows), input.oidcSubject, CandidatesOf(base, draws), draws, fails)
    ensures r.Ok? ==>
      && r.value == Row(ids(attempts - 1), input.(username := Candidate(base, draws, attempts - 1)), times(attempts - 1))
      && users.rows == old(users.rows)[r.value.id := r.value]
      && FirstFree(r.value.username.value, base, draws, Usernames(old(users.rows)))
    ensures r.Err? ==> users.rows == old(users.rows)
    ensures
      && !SubjectTaken(old(users.rows), input.oidcSubject) && |Usernames(old(users.rows))| < 98
      && (forall n :: 0 <= n < NUMERIC_SUFFIX_MAX ==> !fails(n))
      ==> r.Ok? && attempts <= NUMERIC_SUFFIX_MAX
  {
    r, attempts := TryCandidates(users, input, base, CandidatesOf(base, draws), draws, ids, times, fails);
    if r.Ok? {
      CreatedIsFirstFree(r, attempts, old(users.rows), input.oidcSubject, base, draws, fails);
    }
    if !SubjectTaken(old(users.rows), input.oidcSubject) && |Usernames(old(users.rows))| < 98
      && forall n :: 0 <= n < NUMERIC_SUFFIX_MAX ==> !fails(n)
    {
      FewNamesSuffice(r, true, attempts, old(users.rows), input.oidcSubject, base, draws, fails);
    }
  }

  // Up to registration: the user with the subject, found or created with the first free candidate.
  method ResolveCandidates(users: UserTable, input: UserInput, base: string, draws: seq<Option<string>>,
                           ids: nat -> Uuid, times: nat -> int, fails: nat -> bool)
    returns (r: Result<(User, bool), AllocationError>, attempts: nat)
    requires users.Valid() && AreDraws(draws)
    requires forall n :: ids(n) !in users.rows
    modifies users
    ensures users.Valid()
    ensures Explained(r, r.Ok? && r.value.1, attempts, old(users.rows), input.oidcSubject, CandidatesOf(base, draws),
                      draws, fails)
    ensures r.Ok? ==> Found(r.value.0, r.value.1, old(users.rows), users.rows, input.oidcSubject)
    ensures r.Ok? && r.value.1 ==>
      && r.value.0 == Row(ids(attempts - 1), input.(username := Candidate(base, draws, attempts - 1)), times(attempts - 1))
      && FirstFree(r.value.0.username.value, base, draws, Usernames(old(users.rows)))
    ensures r.Err? ==> users.rows == old(users.rows)
    ensures r.Err? && r.error.Store? ==> attempts > 0 && fails(attempts - 1)
    ensures SubjectTaken(old(users.rows), input.oidcSubject) && !fails(0) ==> r.Ok?
    ensures
      && |Usernames(old(users.rows))| < 98 && (forall n :: 0 <= n < NUMERIC_SUFFIX_MAX ==> !fails(n))
      ==> r.Ok?
  {
    ghost var before := users.rows;
    r, attempts := TryResolve(users, input, base, CandidatesOf(base, draws), draws, ids, times, fails);
    if r.Ok? && r.value.1 {
      CreatedIsFirstFree(r, attempts, before, input.oidcSubject, base, draws, fails);
    }
    if && |Usernames(before)| < 98 && !SubjectTaken(before, input.oidcSubject)
       && forall n :: 0 <= n < NUMERIC_SUFFIX_MAX ==> !fails(n)
    {
      FewNamesSuffice(r, r.Ok? && r.value.1, attempts, before, input.oidcSubject, base, draws, fails);
    }
  }

  // How far a loop has come: the first n candidates, all reached, are taken.
  ghost predicate Passed(nth: nat -> string, draws: seq<Option<string>>, n: nat, names: set<string>)
    requires AreDraws(draws)
  {
    n <= CANDIDATES && AllTaken(nth, draws, n, names) && (n > 0 ==> Reaches(draws, n - 1))
  }

  // The candidate was in use: the loop goes on.
  predicate TakenName<T(==)>(r: Result<T, AllocationError>) {
    r == Err(Store(AlreadyExists("username")))
  }

  // The user with the subject: one that was there, or a new one.
  ghost predicate Found(user: User, created: bool, before: Rows, after: Rows, subject: string) {
    && user.oidcSubject == subject && user.id in after && after[user.id] == user
    && (created <==> !SubjectTaken(before, subject))
    && (created <==> user.id !in before)
    && after == (if created then before[user.id := user] else before)
  }

  lemma PassedOneMore(nth: nat -> string, draws: seq<Option<string>>, n: nat, names: set<string>, name: string)
    requires AreDraws(draws) && Passed(nth, draws, n, names)
    requires Reaches(draws, n) && name == nth(n) && name in names
    ensures Passed(nth, draws, n + 1, names)
  {
    assert Taken(nth, draws, n, names);
  }

  // The loop ends with its n-th attempt.
  lemma EndsExplained<T>(r: Result<T, AllocationError>, created: bool, n: nat, before: Rows, subject: string,
                         nth: nat -> string, draws: seq<Option<string>>, fails: nat -> bool, name: string)
    requires AreDraws(draws) && Passed(nth, draws, n, Usernames(before))
    requires r == Err(NoCandidateLeft) <==> n == CANDIDATES
    requires r == Err(RandomSource) <==> n < CANDIDATES && !Reaches(draws, n)
    requires r.Ok? || r.error.Store? ==> Reaches(draws, n) && name == nth(n)
    requires r.Ok? && created ==> name !in Usernames(before) && !SubjectTaken(before, subject)
    requires !TakenName(r) && (r.Err? && r.error.Store? ==> fails(n) || SubjectTaken(before, subject))
    ensures Explained(r, created, if r.Ok? || r.error.Store? then n + 1 else n, before, subject, nth, draws, fails)
  {}

  // After an attempt: how many there have been, and what that means for the loop.
  method Outcome<T(==)>(r: Result<T, AllocationError>, created: bool, n: nat, ghost before: Rows, subject: string,
                        ghost nth: nat -> string, draws: seq<Option<string>>, fails: nat -> bool, ghost name: string)
    returns (attempts: nat)
    requires AreDraws(draws) && Passed(nth, draws, n, Usernames(before))
    requires r == Err(NoCandidateLeft) <==> n == CANDIDATES
    requires r == Err(RandomSource) <==> n < CANDIDATES && !Reaches(draws, n)
    requires r.Ok? || r.error.Store? ==> Reaches(draws, n) && name == nth(n)
    requires r.Ok? && created ==> name !in Usernames(before) && !SubjectTaken(before, subject)
    requires TakenName(r) ==> name in Usernames(before)
    requires r.Err? && r.error.Store? && !TakenName(r) ==> fails(n) || SubjectTaken(before, subject)
    ensures TakenName(r) ==> attempts == n + 1 && Passed(nth, draws, attempts, Usernames(before))
    ensures !TakenName(r) ==> Explained(r, created, attempts, before, subject, nth, draws, fails)
    ensures r.Ok? || r.error.Store? ==> attempts == n + 1 && attempts - 1 == n
  {
    attempts := if r.Ok? || r.error.Store? then n + 1 else n;
    if TakenName(r) {
      PassedOneMore(nth, draws, n, Usernames(before), name);
    } else {
      EndsExplained(r, created, n, before, subject, nth, draws, fails, name);
    }
  }

  method NextName(candidates: UsernameCandidateIterator, ghost nth: nat -> string, draws: seq<Option<string>>)
    returns (next: NextResult)
    requires candidates.Valid() && AreDraws(draws) && AreCandidates(nth, candidates.base, draws)
    modifies candidates
    ensures candidates.Valid() && old(candidates.Position()) <= CANDIDATES
    ensures var k := old(candidates.Position());
      next == if k == CANDIDATES then Exhausted else if !Drawn(draws, k) then RandomnessFailed else Next(nth(k))
    ensures candidates.Position() == old(candidates.Position()) + if next.Next? then 1 else 0
  {
    next := candidates.Next(draws);
  }

  // One iteration: the next candidate and the INSERT that tries it. fails tells which statements of the loop fail.
  method TryNext(users: UserTable, input: UserInput, candidates: UsernameCandidateIterator,
                 ghost nth: nat -> string, draws: seq<Option<string>>, ids: nat -> Uuid, times: nat -> int, n: nat, fails: nat -> bool)
    returns (r: Result<User, AllocationError>, attempts: nat)
    requires users.Valid() && candidates.Valid() && AreDraws(draws) && ids(n) !in users.rows
    requires candidates.Position() == n && Passed(nth, draws, n, Usernames(users.rows))
    requires AreCandidates(nth, candidates.base, draws)
    modifies users, candidates
    ensures users.Valid() && candidates.Valid()
    ensures r.Err? ==> users.rows == old(users.rows)
    ensures TakenName(r) ==>
      && candidates.Position() == attempts == n + 1
      && Passed(nth, draws, attempts, Usernames(old(users.rows)))
    ensures !TakenName(r) ==>
      Explained(r, true, attempts, old(users.rows), input.oidcSubject, nth, draws, fails)
    ensures r.Ok? ==>
      && r.value == Row(ids(attempts - 1), input.(username := nth(attempts - 1)),
                        times(attempts - 1))
      && users.rows == old(users.rows)[r.value.id := r.value]
  {
    ghost var before := users.rows;
    var next := NextName(candidates, nth, draws);
    match next {
      case RandomnessFailed => r := Err(RandomSource);
      case Exhausted => r := Err(NoCandidateLeft);
      case Next(candidate) =>
        var user := users.CreateUser(input.(username := candidate), ids(n), times(n), fails(n));
        if user.Ok? { NoConflictMeans(before, user.value); }
        r := if user.Ok? then Ok(user.value) else Err(Store(user.error));
    }
    ghost var name := if next.Next? then next.candidate else "";
    attempts := Outcome(r, true, n, before, input.oidcSubject, nth, draws, fails, name);
  }

  // The same for signing in: the next candidate and the store's resolve that tries it.
  method ResolveNext(users: UserTable, input: UserInput, candidates: UsernameCandidateIterator,
                     ghost nth: nat -> string, draws: seq<Option<string>>, ids: nat -> Uuid, times: nat -> int, n: nat, fails: nat -> bool)
    returns (r: Result<(User, bool), AllocationError>, attempts: nat)
    requires users.Valid() && candidates.Valid() && AreDraws(draws) && ids(n) !in users.rows
    requires candidates.Position() == n && Passed(nth, draws, n, Usernames(users.rows))
    requires AreCandidates(nth, candidates.base, draws)
    modifies users, candidates
    ensures users.Valid() && candidates.Valid()
    ensures r.Err? ==> users.rows == old(users.rows)
    ensures TakenName(r) ==>
      && candidates.Position() == attempts == n + 1
      && Passed(nth, draws, attempts, Usernames(old(users.rows)))
      && !SubjectTaken(old(users.rows), input.oidcSubject)
    ensures !TakenName(r) ==>
      Explained(r, r.Ok? && r.value.1, attempts, old(users.rows), input.oidcSubject, nth, draws, fails)
    ensures r.Err? && r.error.Store? && !TakenName(r) ==> attempts > 0 && fails(attempts - 1)
    ensures n == 0 && SubjectTaken(old(users.rows), input.oidcSubject) && !fails(0) ==> r.Ok?
    ensures r.Ok? ==> Found(r.value.0, r.value.1, old(users.rows), users.rows, input.oidcSubject)
    ensures r.Ok? && r.value.1 ==>
      r.value.0 == Row(ids(attempts - 1), input.(username := nth(attempts - 1)),
                       times(attempts - 1))
  {
    ghost var before := users.rows;
    var next := NextName(candidates, nth, draws);
    match next {
      case RandomnessFailed => r := Err(RandomSource);
      case Exhausted => r := Err(NoCandidateLeft);
      case Next(candidate) =>
        var resolved := users.ResolveOrCreateUser(input.(username := candidate), ids(n), times(n), fails(n));
        r := if resolved.Ok? then Ok(resolved.value) else Err(Store(resolved.error));
    }
    ghost var name := if next.Next? then next.candidate else "";
    attempts := Outcome(r, r.Ok? && r.value.1, n, before, input.oidcSubject, nth, draws, fails, name);
  }

  method TryCandidates(users: UserTable, input: UserInput, base: string, ghost nth: nat -> string, draws: seq<Option<string>>,
                       ids: nat -> Uuid, times: nat -> int, fails: nat -> bool)
    returns (r: Result<User, AllocationError>, attempts: nat)
    requires users.Valid() && AreDraws(draws) && AreCandidates(nth, base, draws)
    requires forall n :: ids(n) !in users.rows
    modifies users
    ensures users.Valid()
    ensures Explained(r, true, attempts, old(users.rows), input.oidcSubject, nth, draws, fails)
    ensures r.Ok? ==>
      && r.value == Row(ids(attempts - 1), input.(username := nth(attempts - 1)), times(attempts - 1))
      && users.rows == old(users.rows)[r.value.id := r.value]
    ensures r.Err? ==> users.rows == old(users.rows)
  {
    var candidates := new UsernameCandidateIterator(base);
    attempts := 0;
    while true
      invariant users.Valid() && users.rows == old(users.rows)
      invariant candidates.Valid() && fresh(candidates) && candidates.base == base
      invariant candidates.Position() == attempts && Passed(nth, draws, attempts, Usernames(old(users.rows)))
      decreases CANDIDATES - attempts
    {
      r, attempts := TryNext(users, input, candidates, nth, draws, ids, times, attempts, fails);
      if !TakenName(r) {
        return;
      }
    }
  }

  // The loop of ResolveOrCreateUser.
  method TryResolve(users: UserTable, input: UserInput, base: string, ghost nth: nat -> string, draws: seq<Option<string>>,
                           ids: nat -> Uuid, times: nat -> int, fails: nat -> bool)
    returns (r: Result<(User, bool), AllocationError>, attempts: nat)
    requires users.Valid() && AreDraws(draws) && AreCandidates(nth, base, draws)
    requires forall n :: ids(n) !in users.rows
    modifies users
    ensures users.Valid()
    ensures Explained(r, r.Ok? && r.value.1, attempts, old(users.rows), input.oidcSubject, nth, draws, fails)
    ensures r.Ok? ==>
      Found(r.value.0, r.value.1, old(users.rows), users.rows, input.oidcSubject)
    ensures r.Ok? && r.value.1 ==>
      r.value.0 == Row(ids(attempts - 1), input.(username := nth(attempts - 1)), times(attempts - 1))
    ensures r.Err? ==> users.rows == old(users.rows)
    ensures r.Err? && r.error.Store? ==> attempts > 0 && fails(attempts - 1)
    ensures SubjectTaken(old(users.rows), input.oidcSubject) && !fails(0) ==> r.Ok?
  {
    var candidates := new UsernameCandidateIterator(base);
    attempts := 0;
    while true
      invariant users.Valid() && users.rows == old(users.rows)
      invariant candidates.Valid() && fresh(candidates) && candidates.base == base
      invariant candidates.Position() == attempts && Passed(nth, draws, attempts, Usernames(old(users.rows)))
      invariant attempts > 0 ==> !SubjectTaken(old(users.rows), input.oidcSubject)
      decreases CANDIDATES - attempts
    {
      r, attempts := ResolveNext(users, input, candidates, nth, draws, ids, times, attempts, fails);
      if !TakenName(r) {
        return;
      }
    }
  }
}
