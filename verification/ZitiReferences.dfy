// Device rows and Ziti identities: the order of calls in CreateDevice and DeleteDevice (internal/server/server.go),
// any number of requests interleaving call by call. A call that fails has no effect.

module ZitiReferences {
  import opened Prelude

  // A request between two of its calls.
  datatype Request =
    | Inserting(ziti: string)   // CreateDevice, identity made, row not inserted yet
    | Cleaning(ziti: string)    // about to delete the identity: after a failed insert, or after a deleted row

  datatype State = State(rows: map<Uuid, string>, identities: set<string>, issued: set<string>,
                         requests: map<nat, Request>)

  datatype Step =
    | CreateIdentity(r: nat, ziti: string)
    | InsertRow(r: nat, id: Uuid)
    | InsertFails(r: nat)
    | GiveUp(r: nat)                      // the identity service's answer lacked the id or the enrolment token
    | DeleteRow(r: nat, id: Uuid)
    | DeleteIdentity(r: nat, done: bool)
    | DeleteUserRows(ids: set<Uuid>)      // cascade when a user is deleted

  ghost predicate NextBy(s: State, t: State, step: Step) {
    match step
    case CreateIdentity(r, z) =>
      && r !in s.requests && z !in s.issued
      && t == s.(identities := s.identities + {z}, issued := s.issued + {z}, requests := s.requests[r := Inserting(z)])
    case InsertRow(r, id) =>
      && r in s.requests && s.requests[r].Inserting? && s.requests[r].ziti != "" && id !in s.rows
      && t == s.(rows := s.rows[id := s.requests[r].ziti], requests := s.requests - {r})
    case InsertFails(r) =>
      && r in s.requests && s.requests[r].Inserting?
      && t == s.(requests := s.requests[r := Cleaning(s.requests[r].ziti)])
    case GiveUp(r) =>
      && r in s.requests && s.requests[r].Inserting?
      && t == s.(requests := s.requests - {r})
    case DeleteRow(r, id) =>
      && r !in s.requests && id in s.rows
      && t == s.(rows := s.rows - {id}, requests := s.requests[r := Cleaning(s.rows[id])])
    case DeleteIdentity(r, done) =>
      && r in s.requests && s.requests[r].Cleaning?
      && t == s.(identities := if done then s.identities - {s.requests[r].ziti} else s.identities,
                 requests := s.requests - {r})
    case DeleteUserRows(ids) =>
      t == s.(rows := s.rows - ids)
  }

  ghost predicate Next(s: State, t: State) {
    exists step :: NextBy(s, t, step)
  }

  ghost predicate StepAt(run: seq<State>, i: nat)
    requires i + 1 < |run|
  {
    Next(run[i], run[i + 1])
  }

  ghost predicate IsRun(run: seq<State>) {
    && run != [] && run[0] == State(map[], {}, {}, map[])
    && forall i :: 0 <= i < |run| - 1 ==> StepAt(run, i)
  }

  ghost predicate Inv(s: State) {
    && s.identities <= s.issued
    && (forall id :: id in s.rows ==> s.rows[id] in s.identities && s.rows[id] != "")
    && (forall i, j :: i in s.rows && j in s.rows && s.rows[i] == s.rows[j] ==> i == j)
    && (forall r :: r in s.requests ==> s.requests[r].ziti in s.issued)
    && (forall r :: r in s.requests && s.requests[r].Inserting? ==> s.requests[r].ziti in s.identities)
    && (forall r, id :: r in s.requests && id in s.rows ==> s.requests[r].ziti != s.rows[id])
    && (forall q, r :: q in s.requests && r in s.requests && s.requests[q].ziti == s.requests[r].ziti ==> q == r)
  }

  lemma RowStepsKeepInv(s: State, t: State, step: Step)
    requires Inv(s) && NextBy(s, t, step) && (step.InsertRow? || step.DeleteRow? || step.DeleteUserRows?)
    ensures Inv(t)
  {}

  lemma IdentityStepsKeepInv(s: State, t: State, step: Step)
    requires Inv(s) && NextBy(s, t, step) && !(step.InsertRow? || step.DeleteRow? || step.DeleteUserRows?)
    ensures Inv(t)
  {}

  lemma StepKeepsInv(s: State, t: State, step: Step)
    requires Inv(s) && NextBy(s, t, step)
    ensures Inv(t)
  {
    if step.InsertRow? || step.DeleteRow? || step.DeleteUserRows? {
      RowStepsKeepInv(s, t, step);
    } else {
      IdentityStepsKeepInv(s, t, step);
    }
  }

  lemma {:induction false} RunKeepsInv(run: seq<State>, i: nat)
    requires IsRun(run) && i < |run|
    ensures Inv(run[i])
  {
    if i > 0 {
      RunKeepsInv(run, i - 1);
      assert StepAt(run, i - 1);
      var step :| NextBy(run[i - 1], run[i], step);
      StepKeepsInv(run[i - 1], run[i], step);
    }
  }

  // Whatever interleaves or fails, each device row names an existing identity, and no two rows share one.
  lemma DeviceRowsAreBacked(run: seq<State>, i: nat)
    requires IsRun(run) && i < |run|
    ensures forall id :: id in run[i].rows ==> run[i].rows[id] in run[i].identities
    ensures forall id, other :: id in run[i].rows && other in run[i].rows && run[i].rows[id] == run[i].rows[other] ==>
      id == other
  {
    RunKeepsInv(run, i);
  }
}
