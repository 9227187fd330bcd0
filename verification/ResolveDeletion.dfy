// Which deletions resolve-or-create survives: the compensating delete after a failed identity registration
// (internal/server/server.go), and deletions by other requests. A caller that found the user in between keeps an identity
// that the next sign-in does not get.

module ResolveDeletion {
  import opened Prelude
  import opened Chains
  import opened UserStore
  import opened Username
  import opened Candidates
  import opened ResolveProtocol

  ghost function Steps(strict: bool): (State, State) -> bool {
    (s, t) => ResolveProtocol.Next(strict, s, t)
  }

  ghost predicate Leads(strict: bool, s: State, t: State) {
    exists n: nat :: Chain(Steps(strict), s, t, n)
  }

  // However the callers go on, others come, and users nobody holds are deleted, the answers agree.
  ghost predicate NeverSplits(s: State) {
    forall t :: Leads(false, s, t) ==> AnswersAgree(t)
  }

  // However the callers go on, others come, and users nobody holds or awaits are deleted, nobody is told that a user
  // just reported as taken does not exist.
  ghost predicate NeverLoses(s: State) {
    forall t, c :: Leads(true, s, t) && c in t.callers ==> t.callers[c].pc != Refused(UserNotFound)
  }

  lemma OneStep(strict: bool, s: State, t: State, step: Step)
    requires NextBy(s, t, step) && !Deletes(step)
    ensures Leads(strict, s, t)
  {
    assert Allowed(strict, s, t, step);
    assert Steps(strict)(s, t);
    OneLink(Steps(strict), s, t);
  }

  lemma LeadsOn(strict: bool, s: State, t: State, u: State)
    requires Leads(strict, s, t) && Leads(strict, t, u)
    ensures Leads(strict, s, u)
  {
    var m: nat :| Chain(Steps(strict), s, t, m);
    var n: nat :| Chain(Steps(strict), t, u, n);
    ChainTransitive(Steps(strict), s, t, u, m, n);
  }

  lemma SoundNeverSplits(s: State)
    requires Inv(s)
    ensures NeverSplits(s)
  {
    var keep := (s: State) => Inv(s);
    forall a, b | keep(a) && Steps(false)(a, b) ensures keep(b) { NextKeepsInv(false, a, b); }
    forall t | Leads(false, s, t) ensures AnswersAgree(t) {
      var n: nat :| Chain(Steps(false), s, t, n);
      ChainKeeps(Steps(false), keep, s, t, n);
      SoundAgrees(t);
    }
  }

  lemma PatientNeverLoses(s: State)
    requires Indexed(s.rows) && Patient(s)
    ensures NeverLoses(s)
  {
    var keep := (s: State) => Indexed(s.rows) && Patient(s);
    forall a, b | keep(a) && Steps(true)(a, b) ensures keep(b) {
      var step :| NextBy(a, b, step) && Allowed(true, a, b, step);
      StepKeepsPatient(a, b, step);
    }
    forall t, c | Leads(true, s, t) && c in t.callers ensures t.callers[c].pc != Refused(UserNotFound) {
      var n: nat :| Chain(Steps(true), s, t, n);
      ChainKeeps(Steps(true), keep, s, t, n);
    }
  }

  // ---- a deletion that splits the answers

  // A caller comes for a subject nobody has, and is answered a new identity.
  lemma NewcomerAnswered(s: State, d: nat, input: UserInput, other: Uuid, base: string) returns (t: State)
    requires d !in s.callers && other !in s.used && s.rows.Keys <= s.used
    requires !SubjectTaken(s.rows, input.oidcSubject) && GoodBase(base) && base !in Usernames(s.rows)
    ensures Leads(false, s, t)
    ensures t.callers.Keys == s.callers.Keys + {d} && forall c :: c in s.callers ==> t.callers[c] == s.callers[c]
    ensures t.callers[d].pc == Answered(other, true) && t.callers[d].input.oidcSubject == input.oidcSubject
  {
    var draws := seq(RANDOM_SUFFIX_TRIES, _ => None);
    var arrived := s.(callers := s.callers[d := Caller(input, base, draws, 0, AtNext)]);
    OneStep(false, s, arrived, Arrive(d, input, base, draws));
    var proposing := arrived.(callers := arrived.callers[d := WithCandidate(arrived.callers[d])]);
    OneStep(false, arrived, proposing, TakeCandidate(d));
    LeadsOn(false, s, arrived, proposing);
    t := NameInserted(proposing, d, other);
    LeadsOn(false, s, proposing, t);
  }

  lemma NameInserted(s: State, d: nat, other: Uuid) returns (t: State)
    requires d in s.callers && s.callers[d].pc == AtSelect && other !in s.used && s.rows.Keys <= s.used
    requires !SubjectTaken(s.rows, s.callers[d].input.oidcSubject) && s.callers[d].input.username !in Usernames(s.rows)
    ensures Leads(false, s, t)
    ensures t.callers == s.callers[d := s.callers[d].(pc := Answered(other, true))]
  {
    var inserting := To(s, d, AtInsert);
    OneStep(false, s, inserting, Lookup(d));
    var row := Row(other, s.callers[d].input, 0);
    assert Conflicts(s.rows, row) == {};
    var inserted := To(inserting, d, Registering(other, true)).(rows := s.rows[other := row], used := s.used + {other});
    OneStep(false, inserting, inserted, Insert(d, other, 0, PrimaryKey));
    t := To(inserted, d, Answered(other, true));
    OneStep(false, inserted, t, Register(d, true));
    LeadsOn(false, s, inserting, inserted);
    LeadsOn(false, s, inserted, t);
  }

  // Somebody who holds the identity is answered it.
  lemma HolderAnswered(s: State, h: nat) returns (t: State)
    requires h in s.callers && (s.callers[h].pc.Registering? || s.callers[h].pc.Answered?)
    ensures Leads(false, s, t) && t.rows == s.rows && t.used == s.used && t.callers.Keys == s.callers.Keys
    ensures t.callers[h].pc.Answered? && t.callers[h].pc.id == s.callers[h].pc.id
    ensures t.callers[h].input == s.callers[h].input
  {
    if s.callers[h].pc.Answered? {
      assert Chain(Steps(false), s, s, 0);
      t := s;
    } else {
      t := To(s, h, Answered(s.callers[h].pc.id, s.callers[h].pc.created));
      OneStep(false, s, t, Register(h, true));
    }
  }

  // Somebody holds a user who is gone: the next caller for the subject gets another identity.
  lemma GoneSplits(s: State, h: nat, other: Uuid, base: string)
    requires h in s.callers && (s.callers[h].pc.Registering? || s.callers[h].pc.Answered?)
    requires s.rows.Keys <= s.used && s.callers[h].pc.id in s.used && other !in s.used
    requires !SubjectTaken(s.rows, s.callers[h].input.oidcSubject) && GoodBase(base) && base !in Usernames(s.rows)
    ensures !NeverSplits(s)
  {
    var answered := HolderAnswered(s, h);
    var d := NewKey(answered.callers.Keys);
    var t := NewcomerAnswered(answered, d, s.callers[h].input, other, base);
    LeadsOn(false, s, answered, t);
    assert SameSubject(t, h, d) && t.callers[h].pc.id != t.callers[d].pc.id;
    assert !AnswersAgree(t);
  }

  lemma SubjectGone(s: State, t: State, h: nat, id: Uuid)
    requires Inv(s) && h in s.callers && Holds(s.callers[h], id) && t.rows == s.rows - {id}
    ensures !SubjectTaken(t.rows, s.callers[h].input.oidcSubject) && id in s.used
  {
    assert CallerInv(s, s.callers[h]);
  }

  // From every sound state, a deletion leaves the answers in agreement for good exactly when nobody holds the user: the
  // compensating delete of c, and any other. other and base stand for an identifier and a username not in use.
  lemma SplitsExactlyWhenHeld(s: State, t: State, step: Step, other: Uuid, base: string)
    requires Inv(s) && NextBy(s, t, step) && Deletes(step)
    requires other !in s.used && GoodBase(base) && base !in Usernames(s.rows)
    ensures NeverSplits(t) <==> !Held(s, Target(s, step))
  {
    var id := Target(s, step);
    if Held(s, id) {
      var h :| h in s.callers && Holds(s.callers[h], id);
      SubjectGone(s, t, h, id);
      GoneSplits(t, h, other, base);
    } else {
      DeletionKeepsInv(s, t, step);
      SoundNeverSplits(t);
    }
  }

  // A caller sent to look again finds nothing.
  lemma ReselectLoses(s: State, d: nat)
    requires d in s.callers && s.callers[d].pc.AtReselect? && !SubjectTaken(s.rows, s.callers[d].input.oidcSubject)
    ensures !NeverLoses(s)
  {
    var t := To(s, d, Refused(UserNotFound));
    OneStep(true, s, t, Lookup(d));
    assert t.callers[d].pc == Refused(UserNotFound);
  }

  // And nobody is ever told that a user reported as taken does not exist exactly when nobody awaits the user.
  lemma LosesExactlyWhenAwaited(s: State, t: State, step: Step)
    requires Indexed(s.rows) && Patient(s) && NextBy(s, t, step) && Deletes(step)
    ensures NeverLoses(t) <==> !Awaited(s, Target(s, step))
  {
    var id := Target(s, step);
    if Awaited(s, id) {
      var d :| d in s.callers && s.callers[d].pc.AtReselect? && SubjectAt(s.rows, id, s.callers[d].input.oidcSubject);
      assert t.callers[d] == s.callers[d] && t.rows == s.rows - {id};
      ReselectLoses(t, d);
    } else {
      StepKeepsPatient(s, t, step);
      PatientNeverLoses(t);
    }
  }
}
