// ResolveOrCreateUser under concurrency: the server's candidate loop around the store's SELECT, INSERT, re-SELECT, then
// registration and the compensating delete, any number of callers interleaving call by call, beside creations, updates
// and deletions of users by other requests (internal/server/server.go, internal/store/store.go).

module ResolveProtocol {
  import opened Prelude
  import opened UpdateBuilder
  import opened UserStore
  import opened Username
  import opened Candidates

  datatype Refusal = RandomSource | NoCandidateLeft | UserNotFound | UserExists | DatabaseError | NotRegistered

  datatype Pc =
    | AtNext       // about to ask the iterator for a candidate
    | AtSelect     // about to look the subject up
    | AtInsert     // the subject was not found; about to insert
    | AtReselect   // the insert reported the subject index; about to look the subject up again
    | Registering(id: Uuid, created: bool)  // the user found or created; about to register the identity
    | Undoing(id: Uuid)                     // created but not registered; about to delete the user
    | Answered(id: Uuid, created: bool)
    | Refused(why: Refusal)

  datatype Caller = Caller(input: UserInput, base: string, draws: seq<Option<string>>, position: nat, pc: Pc)

  // used holds every identifier ever generated.
  datatype State = State(rows: Rows, used: set<Uuid>, callers: map<nat, Caller>)

  datatype Step =
    | Arrive(c: nat, input: UserInput, base: string, draws: seq<Option<string>>)
    | TakeCandidate(c: nat)
    | Lookup(c: nat)
    | Insert(c: nat, id: Uuid, now: int, reported: Index)
    | Fail(c: nat)                // a statement fails for another reason
    | Register(c: nat, ok: bool)  // registered now or before; not ok is any other answer
    | Undo(c: nat, done: bool)
    | OtherWrites(rows: Rows)     // CreateUser and UpdateUser requests of others
    | OtherDelete(id: Uuid)       // DeleteUser, and the compensating delete of CreateUser

  ghost predicate Indexed(rows: Rows) {
    Keyed(rows) && UniqueSubjects(rows) && UniqueUsernames(rows)
  }

  // Writes by other requests: no row disappears, no subject changes, the indexes hold.
  ghost predicate AllowedWrites(before: Rows, after: Rows) {
    && Indexed(after) && before.Keys <= after.Keys
    && forall id :: id in before ==> after[id].oidcSubject == before[id].oidcSubject
  }

  ghost predicate SubjectAt(rows: Rows, id: Uuid, subject: string) {
    id in rows && rows[id].oidcSubject == subject
  }

  function To(s: State, c: nat, pc: Pc): State
    requires c in s.callers
  {
    s.(callers := s.callers[c := s.callers[c].(pc := pc)])
  }

  // What the iterator answers at a position.
  ghost predicate HasCandidate(draws: seq<Option<string>>, position: nat) {
    AreDraws(draws) && position < CANDIDATES && Drawn(draws, position)
  }

  // The caller moves on with the candidate in its input.
  ghost function WithCandidate(caller: Caller): Caller
    requires HasCandidate(caller.draws, caller.position)
  {
    var candidate := Candidate(caller.base, caller.draws, caller.position);
    caller.(input := caller.input.(username := candidate), position := caller.position + 1, pc := AtSelect)
  }

  ghost predicate StoreStep(s: State, t: State, step: Step) {
    match step
    case Lookup(c) =>
      && c in s.callers && s.callers[c].pc in {AtSelect, AtReselect}
      && var caller := s.callers[c];
      if SubjectTaken(s.rows, caller.input.oidcSubject) then
        exists id :: SubjectAt(s.rows, id, caller.input.oidcSubject) && t == To(s, c, Registering(id, false))
      else
        t == To(s, c, if caller.pc == AtSelect then AtInsert else Refused(UserNotFound))
    case Insert(c, id, now, reported) =>
      && c in s.callers && s.callers[c].pc == AtInsert && id !in s.used
      && var row := Row(id, s.callers[c].input, now);
      if Conflicts(s.rows, row) == {} then
        t == To(s, c, Registering(id, true)).(rows := s.rows[id := row], used := s.used + {id})
      else
        && reported in Conflicts(s.rows, row)
        && t == To(s, c, match reported
                         case UsernameIndex => AtNext
                         case SubjectIndex => AtReselect
                         case PrimaryKey => Refused(UserExists)).(used := s.used + {id})
    case Fail(c) =>
      && c in s.callers && s.callers[c].pc in {AtSelect, AtInsert, AtReselect}
      && t == To(s, c, Refused(DatabaseError))
    case OtherWrites(rows) =>
      && AllowedWrites(s.rows, rows) && (rows.Keys - s.rows.Keys) !! s.used
      && t == s.(rows := rows, used := s.used + rows.Keys)
    case OtherDelete(id) =>
      t == s.(rows := s.rows - {id})
    case _ => false
  }

  ghost predicate ServerStep(s: State, t: State, step: Step) {
    match step
    case Arrive(c, input, base, draws) =>
      && c !in s.callers && GoodBase(base) && AreDraws(draws)
      && t == s.(callers := s.callers[c := Caller(input, base, draws, 0, AtNext)])
    case TakeCandidate(c) =>
      && c in s.callers && s.callers[c].pc == AtNext
      && var caller := s.callers[c];
      if HasCandidate(caller.draws, caller.position) then t == s.(callers := s.callers[c := WithCandidate(caller)])
      else t == To(s, c, Refused(if caller.position >= CANDIDATES then NoCandidateLeft else RandomSource))
    case Register(c, ok) =>
      && c in s.callers && s.callers[c].pc.Registering?
      && var pc := s.callers[c].pc;
      t == To(s, c, if ok || !pc.created then Answered(pc.id, pc.created) else Undoing(pc.id))
    case Undo(c, done) =>
      && c in s.callers && s.callers[c].pc.Undoing?
      && t == To(s, c, Refused(NotRegistered))
           .(rows := if done then s.rows - {s.callers[c].pc.id} else s.rows)
    case _ => false
  }

  ghost predicate NextBy(s: State, t: State, step: Step) {
    StoreStep(s, t, step) || ServerStep(s, t, step)
  }

  // ---- which deletions are let in

  // The caller has been answered this identity, or is about to be.
  predicate Holds(caller: Caller, id: Uuid) {
    (caller.pc.Registering? || caller.pc.Answered?) && caller.pc.id == id
  }

  ghost predicate Held(s: State, id: Uuid) {
    exists c :: c in s.callers && Holds(s.callers[c], id)
  }

  // A caller was told that the subject is taken and is about to look the user up.
  ghost predicate Awaited(s: State, id: Uuid) {
    exists c :: c in s.callers && s.callers[c].pc.AtReselect? && SubjectAt(s.rows, id, s.callers[c].input.oidcSubject)
  }

  predicate Deletes(step: Step) {
    step.OtherDelete? || (step.Undo? && step.done)
  }

  ghost function Target(s: State, step: Step): Uuid
    requires Deletes(step) && (step.Undo? ==> step.c in s.callers && s.callers[step.c].pc.Undoing?)
  {
    if step.OtherDelete? then step.id else s.callers[step.c].pc.id
  }

  // No user is deleted whom somebody holds, nor, when strict, whom somebody awaits.
  ghost predicate Allowed(strict: bool, s: State, t: State, step: Step)
    requires NextBy(s, t, step)
  {
    Deletes(step) ==> !Held(s, Target(s, step)) && (strict ==> !Awaited(s, Target(s, step)))
  }

  ghost predicate Next(strict: bool, s: State, t: State) {
    exists step :: NextBy(s, t, step) && Allowed(strict, s, t, step)
  }

  ghost predicate Init(s: State) {
    Indexed(s.rows) && s.used == s.rows.Keys && s.callers == map[]
  }

  ghost predicate StepAt(strict: bool, run: seq<State>, i: nat)
    requires i + 1 < |run|
  {
    Next(strict, run[i], run[i + 1])
  }

  ghost predicate IsRun(strict: bool, run: seq<State>) {
    && run != [] && Init(run[0])
    && forall i :: 0 <= i < |run| - 1 ==> StepAt(strict, run, i)
  }

  // ---- the invariant

  ghost predicate CallerInv(s: State, caller: Caller) {
    && (caller.pc.Registering? || caller.pc.Answered? ==> SubjectAt(s.rows, caller.pc.id, caller.input.oidcSubject))
    && (caller.pc.Undoing? ==> caller.pc.id in s.used)
    && (caller.pc.Refused? ==> caller.pc.why != UserExists)
  }

  // Caller c inserted the user with this identity.
  ghost predicate Created(s: State, c: nat) {
    && c in s.callers
    && (s.callers[c].pc.Undoing? || ((s.callers[c].pc.Registering? || s.callers[c].pc.Answered?) && s.callers[c].pc.created))
  }

  ghost predicate Inv(s: State) {
    && Indexed(s.rows) && s.rows.Keys <= s.used
    && (forall c :: c in s.callers ==> CallerInv(s, s.callers[c]))
    && (forall c, d :: Created(s, c) && Created(s, d) && s.callers[c].pc.id == s.callers[d].pc.id ==> c == d)
  }

  // Who was told that the subject is taken will find it taken.
  ghost predicate Patient(s: State) {
    forall c :: c in s.callers ==>
      && (s.callers[c].pc.AtReselect? ==> SubjectTaken(s.rows, s.callers[c].input.oidcSubject))
      && (s.callers[c].pc.Refused? ==> s.callers[c].pc.why != UserNotFound)
  }

  lemma InsertIsAllowed(rows: Rows, row: User)
    requires Indexed(rows) && Conflicts(rows, row) == {}
    ensures AllowedWrites(rows, rows[row.id := row])
    ensures row.id !in rows && !SubjectTaken(rows, row.oidcSubject)
  {
    assert PrimaryKey !in Conflicts(rows, row) && SubjectIndex !in Conflicts(rows, row)
        && UsernameIndex !in Conflicts(rows, row);
  }

  // Rows stay where somebody holds them, and at most one caller moves, creating nothing.
  lemma MoveKeepsInv(s: State, t: State, c: nat)
    requires Inv(s) && Indexed(t.rows) && t.rows.Keys <= t.used && s.used <= t.used
    requires t.callers.Keys <= s.callers.Keys + {c}
    requires forall d :: d in t.callers && d != c ==> d in s.callers && t.callers[d] == s.callers[d]
    requires forall d :: d in t.callers && d != c ==> CallerInv(t, t.callers[d])
    requires c in t.callers ==> CallerInv(t, t.callers[c])
    requires Created(t, c) ==> Created(s, c) && t.callers[c].pc.id == s.callers[c].pc.id
    ensures Inv(t)
  {
    forall d, e | Created(t, d) && Created(t, e) && t.callers[d].pc.id == t.callers[e].pc.id ensures d == e {
      assert Created(s, d) && Created(s, e);
    }
  }

  lemma InsertKeepsInv(s: State, t: State, c: nat, id: Uuid, now: int)
    requires Inv(s) && c in s.callers && id !in s.used
    requires var row := Row(id, s.callers[c].input, now);
      && Conflicts(s.rows, row) == {}
      && t == To(s, c, Registering(id, true)).(rows := s.rows[id := row], used := s.used + {id})
    ensures Inv(t)
  {
    InsertIsAllowed(s.rows, Row(id, s.callers[c].input, now));
    forall d | d in t.callers ensures CallerInv(t, t.callers[d]) {
      assert CallerInv(s, s.callers[d]);
    }
    forall d, e | Created(t, d) && Created(t, e) && t.callers[d].pc.id == t.callers[e].pc.id ensures d == e {
      assert d != c ==> Created(s, d) && CallerInv(s, s.callers[d]);
      assert e != c ==> Created(s, e) && CallerInv(s, s.callers[e]);
    }
  }

  lemma StoreStepKeepsInv(s: State, t: State, step: Step)
    requires Inv(s) && StoreStep(s, t, step) && !Deletes(step)
    ensures Inv(t)
  {
    match step {
      case Lookup(c) => MoveKeepsInv(s, t, c);
      case Fail(c) => MoveKeepsInv(s, t, c);
      case Insert(c, id, now, reported) =>
        if Conflicts(s.rows, Row(id, s.callers[c].input, now)) == {} {
          InsertKeepsInv(s, t, c, id, now);
        } else {
          ConflictKeepsInv(s, t, c, id, now, reported);
        }
      case OtherWrites(rows) => WritesKeepInv(s, t, rows);
    }
  }

  // The identifier is fresh, so it is never the primary key that is violated.
  lemma ConflictKeepsInv(s: State, t: State, c: nat, id: Uuid, now: int, reported: Index)
    requires Inv(s) && StoreStep(s, t, Insert(c, id, now, reported))
    requires Conflicts(s.rows, Row(id, s.callers[c].input, now)) != {}
    ensures Inv(t)
  {
    MoveKeepsInv(s, t, c);
  }

  lemma WritesKeepInv(s: State, t: State, rows: Rows)
    requires Inv(s) && StoreStep(s, t, OtherWrites(rows))
    ensures Inv(t)
  {
    forall d | d in t.callers ensures CallerInv(t, t.callers[d]) { assert CallerInv(s, s.callers[d]); }
    MoveKeepsInv(s, t, 0);
  }

  lemma ServerStepKeepsInv(s: State, t: State, step: Step)
    requires Inv(s) && ServerStep(s, t, step) && !Deletes(step)
    ensures Inv(t)
  {
    assert step.c in s.callers ==> CallerInv(s, s.callers[step.c]);
    MoveKeepsInv(s, t, step.c);
  }

  // A deletion of a user nobody holds.
  lemma DeletionKeepsInv(s: State, t: State, step: Step)
    requires Inv(s) && NextBy(s, t, step) && Deletes(step) && !Held(s, Target(s, step))
    ensures Inv(t)
  {
    var c := if step.Undo? then step.c else 0;
    forall d | d in t.callers ensures CallerInv(t, t.callers[d]) {
      assert CallerInv(s, s.callers[d]) && !Holds(s.callers[d], Target(s, step));
    }
    MoveKeepsInv(s, t, c);
  }

  lemma StepKeepsInv(s: State, t: State, step: Step, strict: bool)
    requires Inv(s) && NextBy(s, t, step) && Allowed(strict, s, t, step)
    ensures Inv(t)
  {
    if Deletes(step) {
      DeletionKeepsInv(s, t, step);
    } else if StoreStep(s, t, step) {
      StoreStepKeepsInv(s, t, step);
    } else {
      ServerStepKeepsInv(s, t, step);
    }
  }

  lemma StillTaken(before: Rows, after: Rows, subject: string)
    requires SubjectTaken(before, subject)
    requires forall id :: SubjectAt(before, id, subject) ==> SubjectAt(after, id, subject)
    ensures SubjectTaken(after, subject)
  {
    var k :| k in before && before[k].oidcSubject == subject;
    assert SubjectAt(after, k, subject);
  }

  lemma InsertKeepsPatient(s: State, t: State, step: Step)
    requires Indexed(s.rows) && Patient(s) && StoreStep(s, t, step) && step.Insert?
    ensures Patient(t)
  {
    var row := Row(step.id, s.callers[step.c].input, step.now);
    if Conflicts(s.rows, row) == {} { InsertIsAllowed(s.rows, row); }
    assert SubjectIndex in Conflicts(s.rows, row) <==> SubjectTaken(s.rows, row.oidcSubject);
    forall d | d in t.callers && t.callers[d].pc.AtReselect?
      ensures SubjectTaken(t.rows, t.callers[d].input.oidcSubject)
    {
      StillTaken(s.rows, t.rows, t.callers[d].input.oidcSubject);
    }
  }

  lemma StepKeepsPatient(s: State, t: State, step: Step)
    requires Indexed(s.rows) && Patient(s) && NextBy(s, t, step)
    requires Deletes(step) ==> !Awaited(s, Target(s, step))
    ensures Indexed(t.rows) && Patient(t)
  {
    if step.Insert? {
      InsertKeepsPatient(s, t, step);
      var row := Row(step.id, s.callers[step.c].input, step.now);
      if Conflicts(s.rows, row) == {} { InsertIsAllowed(s.rows, row); }
    } else {
      forall d | d in t.callers && t.callers[d].pc.AtReselect?
        ensures SubjectTaken(t.rows, t.callers[d].input.oidcSubject)
      {
        assert d in s.callers && s.callers[d].pc.AtReselect?;
        StillTaken(s.rows, t.rows, t.callers[d].input.oidcSubject);
      }
    }
  }

  lemma NextKeepsInv(strict: bool, s: State, t: State)
    requires Inv(s) && Next(strict, s, t)
    ensures Inv(t) && (strict && Patient(s) ==> Patient(t))
  {
    var step :| NextBy(s, t, step) && Allowed(strict, s, t, step);
    StepKeepsInv(s, t, step, strict);
    if strict && Patient(s) { StepKeepsPatient(s, t, step); }
  }

  lemma {:induction false} RunKeepsInv(strict: bool, run: seq<State>, i: nat)
    requires IsRun(strict, run) && i < |run|
    ensures Inv(run[i]) && (strict ==> Patient(run[i]))
  {
    if i > 0 {
      RunKeepsInv(strict, run, i - 1);
      assert StepAt(strict, run, i - 1);
      NextKeepsInv(strict, run[i - 1], run[i]);
    }
  }

  // ---- agreement

  ghost predicate SameSubject(s: State, c: nat, d: nat)
    requires c in s.callers && d in s.callers
  {
    s.callers[c].input.oidcSubject == s.callers[d].input.oidcSubject
  }

  // Callers answered for one subject got one identity, and at most one of them is told that it created the user.
  ghost predicate AnswersAgree(s: State) {
    forall c, d ::
      (&& c in s.callers && d in s.callers && SameSubject(s, c, d)
       && s.callers[c].pc.Answered? && s.callers[d].pc.Answered?)
      ==>
      && s.callers[c].pc.id == s.callers[d].pc.id
      && (s.callers[c].pc.created && s.callers[d].pc.created ==> c == d)
  }

  lemma SoundAgrees(s: State)
    requires Inv(s)
    ensures AnswersAgree(s)
  {
    forall c, d | c in s.callers && d in s.callers && SameSubject(s, c, d)
      && s.callers[c].pc.Answered? && s.callers[d].pc.Answered?
      ensures s.callers[c].pc.id == s.callers[d].pc.id
      ensures s.callers[c].pc.created && s.callers[d].pc.created ==> c == d
    {
      assert CallerInv(s, s.callers[c]) && CallerInv(s, s.callers[d]);
      if s.callers[c].pc.created && s.callers[d].pc.created { assert Created(s, c) && Created(s, d); }
    }
  }

  // Whatever interleaves or fails, while nobody deletes a user who is held: subjects and usernames are unique and the
  // answers agree. While nobody deletes an awaited user either, no caller ends on a lost user.
  lemma ResolveAgreement(strict: bool, run: seq<State>, i: nat)
    requires IsRun(strict, run) && i < |run|
    ensures UniqueSubjects(run[i].rows) && UniqueUsernames(run[i].rows) && AnswersAgree(run[i])
    ensures forall c :: c in run[i].callers && run[i].callers[c].pc.Refused? ==>
      && run[i].callers[c].pc.why != UserExists
      && (strict ==> run[i].callers[c].pc.why != UserNotFound)
  {
    RunKeepsInv(strict, run, i);
    SoundAgrees(run[i]);
    forall c | c in run[i].callers && run[i].callers[c].pc.Refused? ensures run[i].callers[c].pc.why != UserExists {
      assert CallerInv(run[i], run[i].callers[c]);
    }
  }

  lemma StepKeepsAnswer(s: State, t: State, step: Step, c: nat)
    requires NextBy(s, t, step) && c in s.callers && s.callers[c].pc.Answered?
    ensures c in t.callers && t.callers[c] == s.callers[c]
  {}

  // Once returned, an answer stays: the identity keeps existing with its subject in every later state.
  lemma {:induction false} AnswersLast(strict: bool, run: seq<State>, i: nat, j: nat, c: nat)
    requires IsRun(strict, run) && i <= j < |run|
    requires c in run[i].callers && run[i].callers[c].pc.Answered?
    ensures c in run[j].callers && run[j].callers[c] == run[i].callers[c]
    ensures SubjectAt(run[j].rows, run[i].callers[c].pc.id, run[i].callers[c].input.oidcSubject)
    decreases j - i
  {
    if i < j {
      AnswersLast(strict, run, i, j - 1, c);
      assert StepAt(strict, run, j - 1);
      var step :| NextBy(run[j - 1], run[j], step) && Allowed(strict, run[j - 1], run[j], step);
      StepKeepsAnswer(run[j - 1], run[j], step, c);
    }
    RunKeepsInv(strict, run, j);
    assert CallerInv(run[j], run[j].callers[c]);
  }
}
