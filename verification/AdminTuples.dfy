// Cluster-admin tuples and user rows: the order of calls in CreateUser, ResolveOrCreateUser, UpdateUser and DeleteUser
// (internal/server/server.go), any number of requests interleaving call by call. A call that fails has no effect.

module AdminTuples {
  import opened Prelude
  import opened Chains

  // A request between two of its calls.
  datatype Request =
    | Made(id: Uuid, admin: bool)        // a creation: row inserted, registration next
    | Granting(id: Uuid, created: bool)  // the tuple next: a creation registered, or UpdateUser after its look-up
    | Undoing(id: Uuid)                  // a creation that failed: the compensating delete next
    | Deleting(id: Uuid)                 // DeleteUser: role revoked, row still there

  datatype State = State(rows: set<Uuid>, admins: set<Uuid>, issued: set<Uuid>, requests: map<nat, Request>)

  datatype Step =
    | Insert(r: nat, id: Uuid, admin: bool)
    | Register(r: nat, ok: bool)
    | LookUp(r: nat, id: Uuid)           // UpdateUser to Admin finds the row
    | Grant(r: nat, ok: bool)
    | Undo(r: nat, done: bool)
    | Revoke(r: nat, id: Uuid)           // DeleteUser begins
    | DeleteRow(r: nat)
    | GiveUp(r: nat)                     // DeleteUser stops at a call that fails
    | Ungrant(id: Uuid)                  // UpdateUser to no role

  ghost predicate NextBy(s: State, t: State, step: Step) {
    match step
    case Insert(r, id, admin) =>
      && r !in s.requests && id !in s.issued
      && t == s.(rows := s.rows + {id}, issued := s.issued + {id}, requests := s.requests[r := Made(id, admin)])
    case Register(r, ok) =>
      && r in s.requests && s.requests[r].Made?
      && var id := s.requests[r].id;
      t == s.(requests := if !ok then s.requests[r := Undoing(id)]
                          else if s.requests[r].admin then s.requests[r := Granting(id, true)]
                          else s.requests - {r})
    case LookUp(r, id) =>
      r !in s.requests && id in s.rows && t == s.(requests := s.requests[r := Granting(id, false)])
    case Grant(r, ok) =>
      && r in s.requests && s.requests[r].Granting?
      && var id := s.requests[r].id;
      t == s.(admins := if ok then s.admins + {id} else s.admins,
              requests := if !ok && s.requests[r].created then s.requests[r := Undoing(id)] else s.requests - {r})
    case Undo(r, done) =>
      && r in s.requests && s.requests[r].Undoing?
      && t == s.(rows := if done then s.rows - {s.requests[r].id} else s.rows, requests := s.requests - {r})
    case Revoke(r, id) =>
      && r !in s.requests
      && t == s.(admins := s.admins - {id}, requests := s.requests[r := Deleting(id)])
    case DeleteRow(r) =>
      && r in s.requests && s.requests[r].Deleting?
      && t == s.(rows := s.rows - {s.requests[r].id}, requests := s.requests - {r})
    case GiveUp(r) =>
      && r in s.requests && s.requests[r].Deleting?
      && t == s.(requests := s.requests - {r})
    case Ungrant(id) =>
      t == s.(admins := s.admins - {id})
  }

  // ---- which requests may overlap

  // The request may yet write the tuple, and it may yet delete the row.
  predicate MayGrant(request: Request) {
    request.Granting? || (request.Made? && request.admin)
  }

  predicate MayDelete(request: Request) {
    request.Granting? ==> request.created
  }

  ghost predicate GrantPending(s: State, id: Uuid) {
    exists r :: r in s.requests && s.requests[r].id == id && MayGrant(s.requests[r])
  }

  ghost predicate DeletePending(s: State, id: Uuid) {
    exists r :: r in s.requests && s.requests[r].id == id && MayDelete(s.requests[r])
  }

  predicate IsStart(step: Step) {
    step.Insert? || step.LookUp? || step.Revoke?
  }

  // No request that may grant the role of a user overlaps another that may delete the user.
  ghost predicate Allowed(s: State, step: Step) {
    match step
    case Insert(_, id, admin) => admin ==> !DeletePending(s, id)
    case LookUp(_, id) => !DeletePending(s, id)
    case Revoke(_, id) => !GrantPending(s, id)
    case _ => true
  }

  ghost predicate Next(s: State, t: State) {
    exists step :: NextBy(s, t, step) && Allowed(s, step)
  }

  ghost predicate StepAt(run: seq<State>, i: nat)
    requires i + 1 < |run|
  {
    Next(run[i], run[i + 1])
  }

  ghost predicate IsRun(run: seq<State>) {
    && run != [] && run[0] == State({}, {}, {}, map[])
    && forall i :: 0 <= i < |run| - 1 ==> StepAt(run, i)
  }

  // ---- the invariant

  ghost predicate Inv(s: State) {
    && s.admins <= s.rows <= s.issued
    && (forall r :: r in s.requests && !s.requests[r].Deleting? ==> s.requests[r].id in s.issued)
    && (forall r :: r in s.requests && MayGrant(s.requests[r]) ==> s.requests[r].id in s.rows)
    && (forall r :: r in s.requests && MayDelete(s.requests[r]) ==> s.requests[r].id !in s.admins)
    && (forall q, r ::
          (&& q in s.requests && r in s.requests && q != r
           && MayGrant(s.requests[q]) && MayDelete(s.requests[r]))
          ==> s.requests[q].id != s.requests[r].id)
  }

  lemma StartKeepsInv(s: State, t: State, step: Step)
    requires Inv(s) && NextBy(s, t, step) && IsStart(step) && Allowed(s, step)
    ensures Inv(t)
  {}

  lemma FinishKeepsInv(s: State, t: State, step: Step)
    requires Inv(s) && NextBy(s, t, step) && !IsStart(step)
    ensures Inv(t)
  {}

  // Every allowed step keeps the invariant.
  lemma StepKeepsInv(s: State, t: State, step: Step)
    requires Inv(s) && NextBy(s, t, step) && Allowed(s, step)
    ensures Inv(t)
  {
    if IsStart(step) { StartKeepsInv(s, t, step); } else { FinishKeepsInv(s, t, step); }
  }

  lemma {:induction false} RunKeepsInv(run: seq<State>, i: nat)
    requires IsRun(run) && i < |run|
    ensures Inv(run[i])
  {
    if i > 0 {
      RunKeepsInv(run, i - 1);
      assert StepAt(run, i - 1);
      var step :| NextBy(run[i - 1], run[i], step) && Allowed(run[i - 1], step);
      StepKeepsInv(run[i - 1], run[i], step);
    }
  }

  // Whatever else interleaves or fails, each cluster-admin tuple belongs to an existing user.
  lemma AdminsHaveRows(run: seq<State>, i: nat)
    requires IsRun(run) && i < |run|
    ensures run[i].admins <= run[i].rows
  {
    RunKeepsInv(run, i);
  }

  // ---- the condition is exact

  // Requests under way go on; none begins.
  ghost predicate GoesOn(s: State, t: State) {
    exists step :: !IsStart(step) && NextBy(s, t, step)
  }

  ghost function GoingOn(): (State, State) -> bool {
    (s, t) => GoesOn(s, t)
  }

  // However the requests under way end, no tuple is left without its user.
  ghost predicate NeverOrphans(s: State) {
    forall t, n: nat :: Chain(GoingOn(), s, t, n) ==> t.admins <= t.rows
  }

  lemma SoundNeverOrphans(s: State)
    requires Inv(s)
    ensures NeverOrphans(s)
  {
    var keep := (s: State) => Inv(s);
    forall a, b | keep(a) && GoingOn()(a, b) ensures keep(b) {
      var step :| !IsStart(step) && NextBy(a, b, step);
      FinishKeepsInv(a, b, step);
    }
    forall t, n: nat | Chain(GoingOn(), s, t, n) ensures t.admins <= t.rows {
      ChainKeeps(GoingOn(), keep, s, t, n);
    }
  }

  // What a step leads to, an earlier state leads to.
  lemma OrphansEarlier(s: State, t: State, step: Step)
    requires NextBy(s, t, step) && !IsStart(step) && !NeverOrphans(t)
    ensures !NeverOrphans(s)
  {
    var u, n: nat :| Chain(GoingOn(), t, u, n) && !(u.admins <= u.rows);
    assert GoingOn()(s, t);
    OneLink(GoingOn(), s, t);
    ChainTransitive(GoingOn(), s, t, u, 1, n);
  }

  // A grant pending for a user who is gone.
  lemma LateGrant(s: State, q: nat)
    requires q in s.requests && s.requests[q].Granting? && s.requests[q].id !in s.rows
    ensures !NeverOrphans(s)
  {
    var id := s.requests[q].id;
    var t := s.(admins := s.admins + {id}, requests := s.requests - {q});
    assert id in t.admins && Chain(GoingOn(), t, t, 0);
    OrphansEarlier(s, t, Grant(q, true));
  }

  // One request may write the tuple, another may delete the row.
  lemma GrantAndDelete(s: State, q: nat, r: nat)
    requires q in s.requests && r in s.requests && q != r && s.requests[q].id == s.requests[r].id
    requires MayGrant(s.requests[q]) && MayDelete(s.requests[r])
    ensures !NeverOrphans(s)
    decreases if s.requests[q].Granting? then 0 else 1, if s.requests[r].Deleting? || s.requests[r].Undoing? then 0 else 1
  {
    var id := s.requests[q].id;
    if s.requests[q].Made? {
      var t := s.(requests := s.requests[q := Granting(id, true)]);
      GrantAndDelete(t, q, r);
      OrphansEarlier(s, t, Register(q, true));
    } else {
      match s.requests[r] {
        case Deleting(_) =>
          var t := s.(rows := s.rows - {id}, requests := s.requests - {r});
          LateGrant(t, q);
          OrphansEarlier(s, t, DeleteRow(r));
        case Undoing(_) =>
          var t := s.(rows := s.rows - {id}, requests := s.requests - {r});
          LateGrant(t, q);
          OrphansEarlier(s, t, Undo(r, true));
        case Made(_, _) =>
          var t := s.(requests := s.requests[r := Undoing(id)]);
          GrantAndDelete(t, q, r);
          OrphansEarlier(s, t, Register(r, false));
        case Granting(_, _) =>
          var t := s.(requests := s.requests[r := Undoing(id)]);
          GrantAndDelete(t, q, r);
          OrphansEarlier(s, t, Grant(r, false));
      }
    }
  }

  // From every sound state, a request may begin exactly when those under way cannot then leave a tuple without its user.
  lemma ConditionIsExact(s: State, t: State, step: Step)
    requires Inv(s) && NextBy(s, t, step) && IsStart(step)
    ensures Allowed(s, step) <==> NeverOrphans(t)
  {
    if Allowed(s, step) {
      StartKeepsInv(s, t, step);
      SoundNeverOrphans(t);
    } else if step.Revoke? {
      var q :| q in s.requests && s.requests[q].id == step.id && MayGrant(s.requests[q]);
      GrantAndDelete(t, q, step.r);
    } else {
      var q :| q in s.requests && s.requests[q].id == step.id && MayDelete(s.requests[q]);
      GrantAndDelete(t, step.r, q);
    }
  }
}
