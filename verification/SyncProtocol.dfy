// The group-role sync protocol as steps over shared state: membership changes and their events, any number of syncs,
// reconciliations and device creations in flight, page reads and patches, acknowledgement or failure
// (internal/server/group_sync.go, group_consumer.go, CreateDevice in server.go).

module SyncProtocol {
  import opened Prelude
  import opened GroupAttributes
  import opened Pagination

  datatype Membership = Membership(user: Uuid, group: string)

  // Progress of a sync. touched: groups of the user that changed since the read of the groups began.
  // cursor: how far the listing of the user's devices has come.
  datatype Phase =
    | Reading(seen: set<string>, touched: set<string>)
    | Listing(desired: set<string>, cursor: Option<Uuid>, todo: set<string>)
    | Patching(desired: set<string>, todo: set<string>)

  // What a sync was started for: a reconciliation; an event that is unacknowledged until the sync ends; or a delivery
  // that comes after the acknowledgement of its event, and whose own answer counts for nothing.
  datatype Hint =
    | NoEvent
    | Delivery(event: Membership)
    | Late(event: Membership)

  datatype CreatePhase =
    | CreateReading(seen: set<string>, touched: set<string>)
    | Decided(desired: set<string>)
    | IdentityMade(desired: set<string>, ziti: string)

  datatype Job =
    | Sync(user: Uuid, hint: Hint, phase: Phase)
    | Create(user: Uuid, at: CreatePhase)

  datatype State = State(
    member: set<Membership>,          // the relation the groups service reports
    stored: map<Uuid, Device>,        // device rows
    attrs: map<string, set<string>>,  // role attributes of the existing Ziti identities
    issued: set<string>,              // every Ziti identity ever created
    outbox: multiset<Membership>,     // changes whose event is not published yet
    events: multiset<Membership>,     // published and unacknowledged events
    jobs: map<nat, Job>)              // the jobs in flight

  datatype Step =
    | Change(m: Membership)
    | Publish(m: Membership)
    | Redeliver(m: Membership)
    | Start(j: nat, job: Job)
    | ReadPage(j: nat, groups: set<string>)
    | ReadDone(j: nat)
    | ListPage(j: nat, page: seq<Entity<Device>>, next: Option<Uuid>)
    | Patch(j: nat, ziti: string)
    | Finish(j: nat, acked: bool)
    | Abandon(j: nat)
    | MakeIdentity(j: nat, ziti: string, base: set<string>)
    | InsertRow(j: nat, id: Uuid)
    | InsertFails(j: nat, cleaned: bool)
    | DeleteRow(id: Uuid)
    | DropIdentity(ziti: string)

  // ---- which jobs may overlap

  // The ways in which a job handling an event can overlap another job of the same user.
  datatype Overlap = EventWithEvent | EventWithPass | EventWithCreate

  predicate HandlesEvent(job: Job) {
    job.Sync? && !job.hint.NoEvent?
  }

  // Its event stays unacknowledged while it runs.
  predicate Delivers(job: Job) {
    job.Sync? && job.hint.Delivery?
  }

  function OverlapOf(a: Job, b: Job): Overlap {
    if a.Create? || b.Create? then EventWithCreate
    else if HandlesEvent(a) && HandlesEvent(b) then EventWithEvent
    else EventWithPass
  }

  // A job handling an event overlaps no other job of its user, save in the ways allowed. Everything else is free:
  // jobs of different users, and reconciliations and device creations among themselves.
  predicate Compatible(allowed: set<Overlap>, a: Job, b: Job) {
    a.user == b.user && (HandlesEvent(a) || HandlesEvent(b)) ==> OverlapOf(a, b) in allowed
  }

  // ---- steps

  function Toggle(member: set<Membership>, m: Membership): set<Membership> {
    if m in member then member - {m} else member + {m}
  }

  // A change of this user's groups is remembered by a read in progress.
  function Touch(job: Job, m: Membership): Job {
    match job
    case Sync(user, hint, Reading(seen, touched)) =>
      if user == m.user then Sync(user, hint, Reading(seen, touched + {m.group})) else job
    case Create(user, CreateReading(seen, touched)) =>
      if user == m.user then Create(user, CreateReading(seen, touched + {m.group})) else job
    case _ => job
  }

  function TouchAll(jobs: map<nat, Job>, m: Membership): map<nat, Job> {
    map j | j in jobs :: Touch(jobs[j], m)
  }

  // A page reports only groups that the user is in, or that changed meanwhile.
  ghost predicate ReportedFor(member: set<Membership>, user: Uuid, groups: set<string>, touched: set<string>) {
    forall g :: g in groups ==> g in touched || Membership(user, g) in member
  }

  // The read reports every group that did not change meanwhile as it is.
  ghost predicate ReadFaithful(member: set<Membership>, user: Uuid, seen: set<string>, touched: set<string>) {
    forall g :: g !in touched ==> (g in seen <==> Membership(user, g) in member)
  }

  function Zitis(page: seq<Entity<Device>>): set<string> {
    set i | 0 <= i < |page| :: page[i].value.zitiIdentityId
  }

  // staleCandidateAttributes for the hint's group.
  function ToRemove(hint: Hint, desired: set<string>): set<string> {
    if !hint.NoEvent? && hint.event.group != "" && hint.event.group !in desired then {GroupRoleAttribute(hint.event.group)}
    else {}
  }

  ghost predicate IsStoredZiti(s: State, z: string) {
    exists id :: id in s.stored && s.stored[id].zitiIdentityId == z
  }

  ghost predicate InCreation(s: State, z: string) {
    exists j :: j in s.jobs && s.jobs[j].Create? && s.jobs[j].at.IdentityMade? && s.jobs[j].at.ziti == z
  }

  ghost predicate Begins(s: State, job: Job) {
    || job == Create(job.user, CreateReading({}, {}))
    || job == Sync(job.user, NoEvent, Reading({}, {}))
    || (&& HandlesEvent(job) && job == Sync(job.hint.event.user, job.hint, Reading({}, {}))
        && (job.hint.Delivery? ==> job.hint.event in s.events))
  }

  function WithJob(s: State, j: nat, job: Job): State {
    s.(jobs := s.jobs[j := job])
  }

  function WithoutJob(s: State, j: nat): State {
    s.(jobs := s.jobs - {j})
  }

  ghost predicate JobStep(s: State, t: State, step: Step) {
    match step
    case ReadPage(j, groups) =>
      && j in s.jobs && "" !in groups
      && (match s.jobs[j]
          case Sync(user, hint, Reading(seen, touched)) =>
            && ReportedFor(s.member, user, groups, touched)
            && t == WithJob(s, j, Sync(user, hint, Reading(seen + groups, touched)))
          case Create(user, CreateReading(seen, touched)) =>
            && ReportedFor(s.member, user, groups, touched)
            && t == WithJob(s, j, Create(user, CreateReading(seen + groups, touched)))
          case _ => false)
    case ReadDone(j) =>
      && j in s.jobs
      && (match s.jobs[j]
          case Sync(user, hint, Reading(seen, touched)) =>
            ReadFaithful(s.member, user, seen, touched) && t == WithJob(s, j, Sync(user, hint, Listing(seen, None, {})))
          case Create(user, CreateReading(seen, touched)) =>
            ReadFaithful(s.member, user, seen, touched) && t == WithJob(s, j, Create(user, Decided(seen)))
          case _ => false)
    case ListPage(j, page, next) =>
      && j in s.jobs
      && (match s.jobs[j]
          case Sync(user, hint, Listing(desired, cursor, todo)) =>
            && IsPage(s.stored, OwnedBy(user), cursor, MAX_LIST_PAGE_SIZE, page, next)
            && t == WithJob(s, j, Sync(user, hint,
                 if next.None? then Patching(desired, todo + Zitis(page)) else Listing(desired, next, todo + Zitis(page))))
          case _ => false)
    case Finish(j, acked) =>
      && j in s.jobs && s.jobs[j].Sync? && s.jobs[j].phase.Patching? && s.jobs[j].phase.todo == {}
      && t == WithoutJob(s, j).(
           events := if acked && Delivers(s.jobs[j]) then s.events - multiset{s.jobs[j].hint.event} else s.events)
    case Abandon(j) =>
      t == WithoutJob(s, j)
    case _ => false
  }

  ghost predicate DeviceStep(s: State, t: State, step: Step) {
    match step
    case Patch(j, z) =>
      && j in s.jobs && s.jobs[j].Sync? && s.jobs[j].phase.Patching? && z in s.jobs[j].phase.todo && z in s.attrs
      && var job := s.jobs[j];
      var add, remove := AttributesOf(job.phase.desired), ToRemove(job.hint, job.phase.desired);
      t == WithJob(s, j, job.(phase := Patching(job.phase.desired, job.phase.todo - {z})))
           .(attrs := s.attrs[z := Patched(s.attrs[z], add, remove)])
    case MakeIdentity(j, z, base) =>
      && j in s.jobs && s.jobs[j].Create? && s.jobs[j].at.Decided? && z !in s.issued && GroupPart(base) == {}
      && var desired := s.jobs[j].at.desired;
      t == WithJob(s, j, Create(s.jobs[j].user, IdentityMade(desired, z)))
           .(attrs := s.attrs[z := base + AttributesOf(desired)], issued := s.issued + {z})
    case InsertRow(j, id) =>
      && j in s.jobs && s.jobs[j].Create? && s.jobs[j].at.IdentityMade? && id !in s.stored
      && t == WithoutJob(s, j).(stored := s.stored[id := Device(s.jobs[j].user, s.jobs[j].at.ziti)])
    case InsertFails(j, cleaned) =>
      && j in s.jobs && s.jobs[j].Create? && s.jobs[j].at.IdentityMade?
      && t == WithoutJob(s, j).(attrs := if cleaned then s.attrs - {s.jobs[j].at.ziti} else s.attrs)
    case DeleteRow(id) =>
      t == s.(stored := s.stored - {id})
    case DropIdentity(z) =>
      !IsStoredZiti(s, z) && !InCreation(s, z) && t == s.(attrs := s.attrs - {z})
    case _ => false
  }

  ghost predicate NextBy(allowed: set<Overlap>, s: State, t: State, step: Step) {
    match step
    case Change(m) =>
      && m.group != ""
      && t == s.(member := Toggle(s.member, m), outbox := s.outbox + multiset{m}, jobs := TouchAll(s.jobs, m))
    case Publish(m) =>
      m in s.outbox && t == s.(outbox := s.outbox - multiset{m}, events := s.events + multiset{m})
    case Redeliver(m) =>
      t == s.(events := s.events + multiset{m})
    case Start(j, job) =>
      && j !in s.jobs && Begins(s, job)
      && (forall k :: k in s.jobs ==> Compatible(allowed, s.jobs[k], job))
      && t == WithJob(s, j, job)
    case _ => JobStep(s, t, step) || DeviceStep(s, t, step)
  }

  ghost predicate Next(allowed: set<Overlap>, s: State, t: State) {
    exists step :: NextBy(allowed, s, t, step)
  }

  ghost predicate Init(s: State) {
    && s.stored == map[] && s.attrs == map[] && s.issued == {} && s.jobs == map[]
    && forall m :: m in s.member ==> m.group != ""
  }

  ghost predicate StepAt(run: seq<State>, i: nat)
    requires i + 1 < |run|
  {
    Next({}, run[i], run[i + 1])
  }

  // A run in which a job handling an event overlaps no other job of its user.
  ghost predicate IsRun(run: seq<State>) {
    && run != [] && Init(run[0])
    && forall i :: 0 <= i < |run| - 1 ==> StepAt(run, i)
  }

  // ---- the invariant

  ghost predicate Mismatch(s: State, id: Uuid, g: string)
    requires id in s.stored && s.stored[id].zitiIdentityId in s.attrs
  {
    (GroupRoleAttribute(g) in s.attrs[s.stored[id].zitiIdentityId]) != (Membership(s.stored[id].owner, g) in s.member)
  }

  // The change's event is still to be published or acknowledged.
  ghost predicate Outstanding(s: State, m: Membership) {
    m in s.outbox || s.events[m] > 0
  }

  ghost predicate Handled(s: State, m: Membership) {
    exists j :: j in s.jobs && s.jobs[j].Sync? && s.jobs[j].hint == Delivery(m)
  }

  // The same, not counting the delivery being handled.
  ghost predicate Elsewhere(s: State, m: Membership) {
    m in s.outbox || s.events[m] > if Handled(s, m) then 1 else 0
  }

  ghost predicate RowsBacked(s: State) {
    forall id :: id in s.stored ==> s.stored[id].zitiIdentityId in s.attrs
  }

  ghost predicate WellFormed(s: State) {
    && RowsBacked(s) && s.attrs.Keys <= s.issued
    && (forall i, k :: i in s.stored && k in s.stored && s.stored[i].zitiIdentityId == s.stored[k].zitiIdentityId ==> i == k)
    && (forall m :: m in s.member ==> m.group != "")
    && (forall z :: z in s.attrs ==> GroupRoleAttribute("") !in s.attrs[z])
  }

  ghost predicate JobsCompatible(s: State) {
    forall j, k :: j in s.jobs && k in s.jobs && j != k ==> Compatible({}, s.jobs[j], s.jobs[k])
  }

  // Every wrong or missing group attribute has an outstanding event.
  ghost predicate Covered(s: State)
    requires RowsBacked(s)
  {
    forall id, g :: id in s.stored && Mismatch(s, id, g) ==> Outstanding(s, Membership(s.stored[id].owner, g))
  }

  // Where the desired groups are out of date, another event is outstanding.
  ghost predicate DesiredCovered(s: State, user: Uuid, desired: set<string>) {
    "" !in desired && forall g :: (g in desired) != (Membership(user, g) in s.member) ==> Elsewhere(s, Membership(user, g))
  }

  ghost predicate ReadCovered(s: State, user: Uuid, seen: set<string>, touched: set<string>) {
    && "" !in seen && ReportedFor(s.member, user, seen, touched)
    && forall g :: g in touched ==> Elsewhere(s, Membership(user, g))
  }

  // Listed identities belong to the user as long as they are stored at all.
  ghost predicate OwnDevices(s: State, user: Uuid, todo: set<string>) {
    && todo <= s.issued
    && forall id :: id in s.stored && s.stored[id].zitiIdentityId in todo ==> s.stored[id].owner == user
  }

  // The listing has taken in every device of the user up to the cursor.
  ghost predicate ListedUpTo(s: State, user: Uuid, cursor: Option<Uuid>, todo: set<string>) {
    forall id :: id in s.stored && s.stored[id].owner == user && !Beyond(cursor, id) ==> s.stored[id].zitiIdentityId in todo
  }

  // Devices the job is done with need no help from the event being handled.
  ghost predicate PatchedCovered(s: State, user: Uuid, todo: set<string>)
    requires RowsBacked(s)
  {
    forall id, g ::
      id in s.stored && s.stored[id].owner == user && s.stored[id].zitiIdentityId !in todo && Mismatch(s, id, g) ==>
        Elsewhere(s, Membership(user, g))
  }

  // An identity not stored yet, carrying exactly the desired groups and listed by nobody.
  ghost predicate Unborn(s: State, desired: set<string>, z: string) {
    && z in s.attrs && !IsStoredZiti(s, z)
    && (forall g :: GroupRoleAttribute(g) in s.attrs[z] <==> g in desired)
    && (forall k :: k in s.jobs && s.jobs[k].Sync? ==> z !in Todo(s.jobs[k]))
  }

  function Todo(job: Job): set<string> {
    if job.Create? || job.phase.Reading? then {} else job.phase.todo
  }

  ghost predicate JobInv(s: State, job: Job)
    requires RowsBacked(s)
  {
    && (HandlesEvent(job) ==> job.hint.event.user == job.user) && (Delivers(job) ==> job.hint.event in s.events)
    && (match job
        case Sync(user, _, Reading(seen, touched)) => ReadCovered(s, user, seen, touched)
        case Sync(user, hint, Listing(desired, cursor, todo)) =>
          && DesiredCovered(s, user, desired) && OwnDevices(s, user, todo)
          && (hint.Delivery? ==> ListedUpTo(s, user, cursor, todo))
        case Sync(user, hint, Patching(desired, todo)) =>
          && DesiredCovered(s, user, desired) && OwnDevices(s, user, todo)
          && (hint.Delivery? ==> PatchedCovered(s, user, todo))
        case Create(user, CreateReading(seen, touched)) => ReadCovered(s, user, seen, touched)
        case Create(user, Decided(desired)) => DesiredCovered(s, user, desired)
        case Create(user, IdentityMade(desired, z)) => DesiredCovered(s, user, desired) && Unborn(s, desired, z))
  }

  ghost predicate Makes(s: State, j: nat) {
    j in s.jobs && s.jobs[j].Create? && s.jobs[j].at.IdentityMade?
  }

  ghost predicate CreationsDistinct(s: State) {
    forall j, k :: Makes(s, j) && Makes(s, k) && s.jobs[j].at.ziti == s.jobs[k].at.ziti ==> j == k
  }

  ghost predicate Inv(s: State) {
    && WellFormed(s) && JobsCompatible(s) && CreationsDistinct(s) && Covered(s)
    && forall j :: j in s.jobs ==> JobInv(s, s.jobs[j])
  }

  // ---- membership changes and events

  // Outstanding events only grow, also those not being handled.
  ghost predicate EventsGrow(s: State, t: State) {
    forall n :: (Elsewhere(s, n) ==> Elsewhere(t, n)) && (Outstanding(s, n) ==> Outstanding(t, n))
  }

  lemma TouchKeepsHandled(s: State, t: State, m: Membership)
    requires t.jobs == TouchAll(s.jobs, m)
    ensures forall n :: Handled(s, n) <==> Handled(t, n)
  {
    forall n ensures Handled(s, n) <==> Handled(t, n) {
      if Handled(s, n) {
        var j :| j in s.jobs && s.jobs[j].Sync? && s.jobs[j].hint == Delivery(n);
        assert t.jobs[j].Sync? && t.jobs[j].hint == Delivery(n);
      }
    }
  }

  lemma ChangeGrowsEvents(s: State, t: State, m: Membership)
    requires NextBy({}, s, t, Change(m))
    ensures EventsGrow(s, t) && Elsewhere(t, m) && Outstanding(t, m)
  {
    TouchKeepsHandled(s, t, m);
  }

  lemma ChangeKeepsWorld(s: State, t: State, m: Membership)
    requires WellFormed(s) && JobsCompatible(s) && CreationsDistinct(s) && NextBy({}, s, t, Change(m))
    ensures WellFormed(t) && JobsCompatible(t) && CreationsDistinct(t)
  {
    forall i, k | i in t.jobs && k in t.jobs && i != k ensures Compatible({}, t.jobs[i], t.jobs[k]) {
      assert Compatible({}, s.jobs[i], s.jobs[k]);
    }
  }

  lemma ChangeKeepsCovered(s: State, t: State, m: Membership)
    requires WellFormed(s) && Covered(s) && NextBy({}, s, t, Change(m)) && EventsGrow(s, t) && Outstanding(t, m)
    ensures RowsBacked(t) && Covered(t)
  {
    forall id, g | id in t.stored && Mismatch(t, id, g) ensures Outstanding(t, Membership(t.stored[id].owner, g)) {
      if Membership(t.stored[id].owner, g) != m { assert Mismatch(s, id, g); }
    }
  }

  lemma ChangeKeepsPatched(s: State, t: State, m: Membership, user: Uuid, todo: set<string>)
    requires RowsBacked(s) && PatchedCovered(s, user, todo)
    requires NextBy({}, s, t, Change(m)) && EventsGrow(s, t) && Elsewhere(t, m)
    ensures RowsBacked(t) && PatchedCovered(t, user, todo)
  {
    forall id, g | id in t.stored && t.stored[id].owner == user && t.stored[id].zitiIdentityId !in todo
      && Mismatch(t, id, g) ensures Elsewhere(t, Membership(user, g))
    {
      if Membership(user, g) != m { assert Mismatch(s, id, g); }
    }
  }

  lemma ChangeKeepsUnborn(s: State, t: State, m: Membership, desired: set<string>, z: string)
    requires Unborn(s, desired, z) && NextBy({}, s, t, Change(m))
    ensures Unborn(t, desired, z)
  {
    assert forall k :: k in t.jobs && t.jobs[k].Sync? ==> Todo(t.jobs[k]) == Todo(s.jobs[k]);
    StillUnborn(s, t, desired, z);
  }

  lemma ChangeKeepsJob(s: State, t: State, m: Membership, j: nat)
    requires Inv(s) && NextBy({}, s, t, Change(m)) && EventsGrow(s, t) && Elsewhere(t, m) && RowsBacked(t)
    requires j in s.jobs
    ensures JobInv(t, t.jobs[j])
  {
    var job := s.jobs[j];
    assert forall n :: n != m ==> (n in t.member <==> n in s.member);
    if job.Sync? && job.phase.Patching? && job.hint.Delivery? { ChangeKeepsPatched(s, t, m, job.user, job.phase.todo); }
    if job.Create? && job.at.IdentityMade? { ChangeKeepsUnborn(s, t, m, job.at.desired, job.at.ziti); }
  }

  lemma ChangeKeepsInv(s: State, t: State, m: Membership)
    requires Inv(s) && NextBy({}, s, t, Change(m))
    ensures Inv(t)
  {
    ChangeGrowsEvents(s, t, m);
    ChangeKeepsWorld(s, t, m);
    ChangeKeepsCovered(s, t, m);
    forall j | j in t.jobs ensures JobInv(t, t.jobs[j]) { ChangeKeepsJob(s, t, m, j); }
  }

  // ---- what a job's invariant depends on

  // To the jobs of this user the two states look alike, but for more events being outstanding.
  ghost predicate Alike(s: State, t: State, user: Uuid) {
    forall g :: (Membership(user, g) in s.member <==> Membership(user, g) in t.member)
      && (Elsewhere(s, Membership(user, g)) ==> Elsewhere(t, Membership(user, g)))
  }

  lemma JobKept(s: State, t: State, job: Job)
    requires RowsBacked(s) && JobInv(s, job) && Alike(s, t, job.user)
    requires t.stored == s.stored && t.attrs == s.attrs && t.issued == s.issued
    requires Delivers(job) ==> job.hint.event in t.events
    requires job.Create? && job.at.IdentityMade? ==> Unborn(t, job.at.desired, job.at.ziti)
    ensures JobInv(t, job)
  {
    if job.Sync? && job.phase.Patching? && job.hint.Delivery? {
      forall id, g | id in t.stored && t.stored[id].owner == job.user && t.stored[id].zitiIdentityId !in job.phase.todo
        && Mismatch(t, id, g) ensures Elsewhere(t, Membership(job.user, g))
      {
        assert Mismatch(s, id, g);
      }
    }
  }

  lemma SameWorldCovered(s: State, t: State)
    requires WellFormed(s) && Covered(s) && t == s.(events := t.events, outbox := t.outbox, jobs := t.jobs)
    requires forall n :: Outstanding(s, n) ==> Outstanding(t, n)
    ensures WellFormed(t) && Covered(t)
  {
    forall id, g | id in t.stored && Mismatch(t, id, g) ensures Outstanding(t, Membership(t.stored[id].owner, g)) {
      assert Mismatch(s, id, g);
    }
  }

  lemma EventsKeepInv(s: State, t: State, step: Step)
    requires Inv(s) && NextBy({}, s, t, step) && (step.Publish? || step.Redeliver?)
    ensures Inv(t)
  {
    assert forall n :: Handled(s, n) <==> Handled(t, n);
    assert forall n :: Outstanding(s, n) ==> Outstanding(t, n);
    SameWorldCovered(s, t);
    forall j | j in t.jobs ensures JobInv(t, t.jobs[j]) {
      assert Alike(s, t, s.jobs[j].user);
      if s.jobs[j].Create? && s.jobs[j].at.IdentityMade? { StillUnborn(s, t, s.jobs[j].at.desired, s.jobs[j].at.ziti); }
      JobKept(s, t, s.jobs[j]);
    }
  }

  // An unborn identity stays so while nobody new lists it.
  lemma StillUnborn(s: State, t: State, desired: set<string>, z: string)
    requires Unborn(s, desired, z) && z in t.attrs && t.attrs[z] == s.attrs[z]
    requires forall id :: id in t.stored ==> t.stored[id].zitiIdentityId != z
    requires forall k :: k in t.jobs && t.jobs[k].Sync? ==> z !in Todo(t.jobs[k])
    ensures Unborn(t, desired, z)
  {}

  // ---- a job starts, moves on, or ends

  // The other jobs see no difference when one job changes its phase and stays with its event.
  lemma OthersKept(s: State, t: State, j: nat, k: nat)
    requires Inv(s) && k in s.jobs && k != j && t == s.(jobs := t.jobs, events := t.events)
    requires k in t.jobs && t.jobs[k] == s.jobs[k] && t.jobs.Keys <= s.jobs.Keys + {j}
    requires forall i :: i in s.jobs && i != j && i in t.jobs ==> t.jobs[i] == s.jobs[i]
    requires Alike(s, t, s.jobs[k].user) && (Delivers(s.jobs[k]) ==> s.jobs[k].hint.event in t.events)
    requires j in t.jobs && t.jobs[j].Sync? ==> forall z :: z in Todo(t.jobs[j]) ==>
      (j in s.jobs && s.jobs[j].Sync? && z in Todo(s.jobs[j])) || IsStoredZiti(s, z)
    ensures JobInv(t, t.jobs[k])
  {
    var job := s.jobs[k];
    if job.Create? && job.at.IdentityMade? {
      assert JobInv(s, job);
      StillUnborn(s, t, job.at.desired, job.at.ziti);
    }
    JobKept(s, t, job);
  }

  lemma StartKeepsCompatible(s: State, t: State, j: nat, job: Job)
    requires JobsCompatible(s) && CreationsDistinct(s) && NextBy({}, s, t, Start(j, job))
    ensures JobsCompatible(t) && CreationsDistinct(t)
  {
    forall i, k | i in t.jobs && k in t.jobs && i != k ensures Compatible({}, t.jobs[i], t.jobs[k]) {}
  }

  lemma StartKeepsInv(s: State, t: State, j: nat, job: Job)
    requires Inv(s) && NextBy({}, s, t, Start(j, job))
    ensures Inv(t)
  {
    SameWorldCovered(s, t);
    StartKeepsCompatible(s, t, j, job);
    forall k | k in s.jobs ensures JobInv(t, t.jobs[k]) {
      assert Compatible({}, s.jobs[k], job);
      HandledElsewhere(s, t, j, s.jobs[k].user);
      assert JobInv(s, s.jobs[k]);
      OthersKept(s, t, j, k);
    }
  }

  // Starting or ending another user's job, or one without an event, does not add to the events handled for this user.
  lemma HandledElsewhere(s: State, t: State, j: nat, user: Uuid)
    requires t == s.(jobs := t.jobs) && t.jobs.Keys <= s.jobs.Keys + {j}
    requires forall i :: i in s.jobs && i != j && i in t.jobs ==> t.jobs[i] == s.jobs[i]
    requires j in t.jobs && Delivers(t.jobs[j]) ==>
      t.jobs[j].hint.event.user != user || (j in s.jobs && s.jobs[j].Sync? && s.jobs[j].hint == t.jobs[j].hint)
    ensures Alike(s, t, user)
  {
    forall g ensures Handled(t, Membership(user, g)) ==> Handled(s, Membership(user, g)) {
      if Handled(t, Membership(user, g)) {
        var i :| i in t.jobs && t.jobs[i].Sync? && t.jobs[i].hint == Delivery(Membership(user, g));
        assert i in s.jobs && s.jobs[i].Sync? && s.jobs[i].hint == Delivery(Membership(user, g));
      }
    }
  }

  lemma AbandonKeepsInv(s: State, t: State, j: nat)
    requires Inv(s) && NextBy({}, s, t, Abandon(j))
    ensures Inv(t)
  {
    SameWorldCovered(s, t);
    forall k | k in t.jobs ensures JobInv(t, t.jobs[k]) {
      assert JobInv(s, s.jobs[k]);
      HandledElsewhere(s, t, j, s.jobs[k].user);
      OthersKept(s, t, j, k);
    }
  }

  lemma MoveKeepsWorld(s: State, t: State, j: nat, job: Job)
    requires Inv(s) && j in s.jobs && t == WithJob(s, j, job)
    requires job.user == s.jobs[j].user && (job.Sync? <==> s.jobs[j].Sync?)
    requires job.Sync? ==> job.hint == s.jobs[j].hint
    requires job.Create? ==> !job.at.IdentityMade?
    ensures WellFormed(t) && Covered(t) && JobsCompatible(t) && CreationsDistinct(t)
  {
    SameWorldCovered(s, t);
    forall i, k | i in t.jobs && k in t.jobs && i != k ensures Compatible({}, t.jobs[i], t.jobs[k]) {
      assert Compatible({}, s.jobs[i], s.jobs[k]);
    }
  }

  // A job that moves on with the same user and event.
  lemma MoveKeepsInv(s: State, t: State, j: nat, job: Job)
    requires Inv(s) && j in s.jobs && t == WithJob(s, j, job)
    requires job.user == s.jobs[j].user && (job.Sync? <==> s.jobs[j].Sync?)
    requires job.Sync? ==> job.hint == s.jobs[j].hint
    requires job.Create? ==> !job.at.IdentityMade?
    requires forall z :: z in Todo(job) ==> z in Todo(s.jobs[j]) || IsStoredZiti(s, z)
    requires Alike(s, t, job.user) ==> JobInv(t, job)
    ensures Inv(t)
  {
    MoveKeepsWorld(s, t, j, job);
    HandledElsewhere(s, t, j, job.user);
    forall k | k in t.jobs ensures JobInv(t, t.jobs[k]) {
      if k != j {
        assert JobInv(s, s.jobs[k]);
        HandledElsewhere(s, t, j, s.jobs[k].user);
        OthersKept(s, t, j, k);
      }
    }
  }

  lemma ReadKeepsInv(s: State, t: State, step: Step)
    requires Inv(s) && JobStep(s, t, step) && (step.ReadPage? || step.ReadDone?)
    ensures Inv(t)
  {
    var j := step.j;
    assert JobInv(s, s.jobs[j]);
    MoveKeepsInv(s, t, j, t.jobs[j]);
  }

  lemma PageTakesAll(s: State, user: Uuid, cursor: Option<Uuid>, page: seq<Entity<Device>>, next: Option<Uuid>)
    requires IsPage(s.stored, OwnedBy(user), cursor, MAX_LIST_PAGE_SIZE, page, next)
    ensures forall id ::
      id in s.stored && s.stored[id].owner == user && Beyond(cursor, id) && (next.None? || !Beyond(next, id)) ==>
        s.stored[id].zitiIdentityId in Zitis(page)
    ensures forall z :: z in Zitis(page) ==>
      exists id :: id in s.stored && s.stored[id].owner == user && s.stored[id].zitiIdentityId == z
  {
    forall id | id in s.stored && s.stored[id].owner == user && Beyond(cursor, id) && (next.None? || !Beyond(next, id))
      ensures s.stored[id].zitiIdentityId in Zitis(page)
    {
      assert Matches(s.stored, OwnedBy(user), id);
      assert HasId(page, id);
      var i :| 0 <= i < |page| && page[i].id == id;
      assert page[i].value == s.stored[id];
    }
    forall z | z in Zitis(page)
      ensures exists id :: id in s.stored && s.stored[id].owner == user && s.stored[id].zitiIdentityId == z
    {
      var i :| 0 <= i < |page| && page[i].value.zitiIdentityId == z;
      assert Matches(s.stored, OwnedBy(user), page[i].id);
    }
  }

  // A page of the listing: with the last one, every stored device of the user has been listed.
  lemma ListKeepsInv(s: State, t: State, j: nat, page: seq<Entity<Device>>, next: Option<Uuid>)
    requires Inv(s) && JobStep(s, t, ListPage(j, page, next))
    ensures Inv(t)
  {
    var job := s.jobs[j];
    assert JobInv(s, job);
    PageTakesAll(s, job.user, job.phase.cursor, page, next);
    assert OwnDevices(t, job.user, job.phase.todo + Zitis(page));
    MoveKeepsInv(s, t, j, t.jobs[j]);
  }

  // ---- patches and acknowledgement

  // A job whose devices a patch of another job leaves alone.
  lemma PatchKeepsOthers(s: State, t: State, j: nat, z: string, k: nat)
    requires Inv(s) && DeviceStep(s, t, Patch(j, z)) && k in s.jobs && k != j
    requires RowsBacked(t) && Alike(s, t, s.jobs[k].user)
    ensures JobInv(t, t.jobs[k])
  {
    var job := s.jobs[k];
    assert JobInv(s, job) && JobInv(s, s.jobs[j]);
    assert Compatible({}, s.jobs[j], job);
    if job.Sync? && job.phase.Patching? && job.hint.Delivery? {
      forall id, g | id in t.stored && t.stored[id].owner == job.user && t.stored[id].zitiIdentityId !in job.phase.todo
        && Mismatch(t, id, g) ensures Elsewhere(t, Membership(job.user, g))
      {
        assert t.stored[id].zitiIdentityId != z;
        assert Mismatch(s, id, g);
      }
    }
    if job.Create? && job.at.IdentityMade? {
      assert z != job.at.ziti;
      StillUnborn(s, t, job.at.desired, job.at.ziti);
    }
  }

  // After its patch, a device is wrong about a group only if another event for that group is outstanding.
  lemma PatchedDeviceCovered(s: State, t: State, j: nat, z: string, id: Uuid, g: string)
    requires Inv(s) && DeviceStep(s, t, Patch(j, z)) && RowsBacked(t)
    requires id in s.stored && s.stored[id].zitiIdentityId == z && Mismatch(t, id, g)
    ensures Elsewhere(s, Membership(s.jobs[j].user, g))
  {
    var job := s.jobs[j];
    var m := Membership(job.user, g);
    assert JobInv(s, job);
    AttributeOfGroup(g, job.phase.desired);
    if !job.hint.NoEvent? { AttributeInjective(g, job.hint.event.group); }
    assert s.stored[id].owner == job.user;
    if (g in job.phase.desired) == (m in s.member) {
      assert Mismatch(s, id, g);
      assert g != "" && job.hint != Delivery(m);
      NotHandled(s, j, m);
    }
  }

  // An event of this user that the job is not handling is handled by nobody.
  lemma NotHandled(s: State, j: nat, m: Membership)
    requires Inv(s) && j in s.jobs && m.user == s.jobs[j].user
    requires s.jobs[j].Sync? ==> s.jobs[j].hint != Delivery(m)
    ensures !Handled(s, m)
  {}

  lemma PatchKeepsWorld(s: State, t: State, j: nat, z: string)
    requires Inv(s) && DeviceStep(s, t, Patch(j, z))
    ensures WellFormed(t) && JobsCompatible(t) && CreationsDistinct(t)
  {
    AttributeOfGroup("", s.jobs[j].phase.desired);
    assert JobInv(s, s.jobs[j]);
  }

  lemma PatchKeepsInv(s: State, t: State, j: nat, z: string)
    requires Inv(s) && NextBy({}, s, t, Patch(j, z))
    ensures Inv(t)
  {
    var job := s.jobs[j];
    assert JobInv(s, job);
    PatchKeepsWorld(s, t, j, z);
    assert forall n :: Handled(s, n) <==> Handled(t, n) by { PatchKeepsHandled(s, t, j, z); }
    forall id, g | id in t.stored && Mismatch(t, id, g)
      ensures Outstanding(t, Membership(t.stored[id].owner, g))
      ensures Delivers(job) && t.stored[id].owner == job.user && t.stored[id].zitiIdentityId !in t.jobs[j].phase.todo ==>
        Elsewhere(t, Membership(job.user, g))
    {
      if s.stored[id].zitiIdentityId != z {
        assert Mismatch(s, id, g);
      } else {
        PatchedDeviceCovered(s, t, j, z, id, g);
      }
    }
    forall k | k in t.jobs ensures JobInv(t, t.jobs[k]) {
      if k != j { PatchKeepsOthers(s, t, j, z, k); }
    }
  }

  lemma PatchKeepsHandled(s: State, t: State, j: nat, z: string)
    requires DeviceStep(s, t, Patch(j, z))
    ensures forall n :: Handled(s, n) <==> Handled(t, n)
  {
    forall n ensures Handled(s, n) <==> Handled(t, n) {
      if Handled(s, n) {
        var i :| i in s.jobs && s.jobs[i].Sync? && s.jobs[i].hint == Delivery(n);
        assert t.jobs[i].Sync? && t.jobs[i].hint == Delivery(n);
      }
    }
  }

  // Ending a job, with its delivery acknowledged or not.
  lemma FinishEvents(s: State, t: State, j: nat, acked: bool, m: Membership)
    requires Inv(s) && JobStep(s, t, Finish(j, acked))
    ensures m.user != s.jobs[j].user || !Delivers(s.jobs[j]) || s.jobs[j].hint.event != m ==>
      (Outstanding(s, m) ==> Outstanding(t, m)) && (Elsewhere(s, m) ==> Elsewhere(t, m))
    ensures Elsewhere(s, m) ==> Outstanding(t, m)
  {
    var job := s.jobs[j];
    assert JobInv(s, job);
    if Delivers(job) && job.hint.event == m { assert Handled(s, m); }
    if Handled(t, m) {
      var i :| i in t.jobs && t.jobs[i].Sync? && t.jobs[i].hint == Delivery(m);
      assert i in s.jobs && s.jobs[i].Sync? && s.jobs[i].hint == Delivery(m);
    }
  }

  lemma FinishKeepsCovered(s: State, t: State, j: nat, acked: bool)
    requires Inv(s) && JobStep(s, t, Finish(j, acked))
    ensures WellFormed(t) && Covered(t)
  {
    assert JobInv(s, s.jobs[j]);
    forall id, g | id in t.stored && Mismatch(t, id, g) ensures Outstanding(t, Membership(t.stored[id].owner, g)) {
      assert Mismatch(s, id, g);
      FinishEvents(s, t, j, acked, Membership(t.stored[id].owner, g));
    }
  }

  lemma FinishKeepsJob(s: State, t: State, j: nat, acked: bool, k: nat)
    requires Inv(s) && JobStep(s, t, Finish(j, acked)) && k in t.jobs
    ensures JobInv(t, t.jobs[k])
  {
    assert JobInv(s, s.jobs[k]) && Compatible({}, s.jobs[k], s.jobs[j]);
    forall g ensures Elsewhere(s, Membership(s.jobs[k].user, g)) ==> Elsewhere(t, Membership(s.jobs[k].user, g)) {
      FinishEvents(s, t, j, acked, Membership(s.jobs[k].user, g));
    }
    OthersKept(s, t, j, k);
  }

  lemma FinishKeepsInv(s: State, t: State, j: nat, acked: bool)
    requires Inv(s) && NextBy({}, s, t, Finish(j, acked))
    ensures Inv(t)
  {
    FinishKeepsCovered(s, t, j, acked);
    forall k | k in t.jobs ensures JobInv(t, t.jobs[k]) { FinishKeepsJob(s, t, j, acked, k); }
  }

  // ---- device creation and deletion

  // Rows only go, attributes of the identities that stay do not change, and no sync lists more than before.
  ghost predicate Quieter(s: State, t: State) {
    && t.member == s.member && t.outbox == s.outbox && t.events == s.events && s.issued <= t.issued
    && (forall id :: id in t.stored ==> id in s.stored && t.stored[id] == s.stored[id])
    && (forall z :: z in s.attrs && z in t.attrs ==> t.attrs[z] == s.attrs[z])
    && (forall k :: k in t.jobs ==> k in s.jobs && (t.jobs[k].Sync? ==> s.jobs[k] == t.jobs[k]))
  }

  lemma QuieterCovered(s: State, t: State)
    requires WellFormed(s) && Covered(s) && Quieter(s, t) && RowsBacked(t)
    ensures Covered(t)
  {
    forall id, g | id in t.stored && Mismatch(t, id, g) ensures Outstanding(t, Membership(t.stored[id].owner, g)) {
      assert Mismatch(s, id, g);
    }
  }

  lemma QuieterKeepsJob(s: State, t: State, k: nat)
    requires WellFormed(s) && k in s.jobs && JobInv(s, s.jobs[k]) && Quieter(s, t) && RowsBacked(t)
    requires k in t.jobs && t.jobs[k] == s.jobs[k]
    requires Makes(s, k) ==> s.jobs[k].at.ziti in t.attrs
    ensures JobInv(t, t.jobs[k])
  {
    var job := s.jobs[k];
    assert forall n :: Handled(t, n) ==> Handled(s, n);
    if job.Sync? && job.phase.Patching? && job.hint.Delivery? {
      forall id, g | id in t.stored && t.stored[id].owner == job.user && t.stored[id].zitiIdentityId !in job.phase.todo
        && Mismatch(t, id, g) ensures Elsewhere(t, Membership(job.user, g))
      {
        assert Mismatch(s, id, g);
      }
    }
    if job.Create? && job.at.IdentityMade? {
      forall id | id in t.stored ensures t.stored[id].zitiIdentityId != job.at.ziti {
        assert !IsStoredZiti(s, job.at.ziti);
      }
      StillUnborn(s, t, job.at.desired, job.at.ziti);
    }
  }

  lemma MadeIdentityUnborn(s: State, t: State, j: nat, z: string, base: set<string>)
    requires Inv(s) && DeviceStep(s, t, MakeIdentity(j, z, base))
    ensures Unborn(t, s.jobs[j].at.desired, z)
    ensures GroupRoleAttribute("") !in t.attrs[z]
  {
    var desired := s.jobs[j].at.desired;
    assert JobInv(s, s.jobs[j]);
    forall g ensures GroupRoleAttribute(g) in t.attrs[z] <==> g in desired {
      AttributeOfGroup(g, desired);
      assert GroupRoleAttribute(g) in base <==> GroupRoleAttribute(g) in GroupPart(base);
    }
    forall k | k in t.jobs && t.jobs[k].Sync? ensures z !in Todo(t.jobs[k]) {
      assert JobInv(s, s.jobs[k]);
    }
  }

  lemma MakeIdentityKeepsWorld(s: State, t: State, j: nat, z: string, base: set<string>)
    requires Inv(s) && DeviceStep(s, t, MakeIdentity(j, z, base)) && GroupRoleAttribute("") !in t.attrs[z]
    ensures WellFormed(t) && JobsCompatible(t) && CreationsDistinct(t) && Quieter(s, t)
  {
    forall k | Makes(t, k) && k != j ensures t.jobs[k].at.ziti != z {
      assert JobInv(s, s.jobs[k]);
    }
  }

  lemma MakeIdentityKeepsInv(s: State, t: State, j: nat, z: string, base: set<string>)
    requires Inv(s) && NextBy({}, s, t, MakeIdentity(j, z, base))
    ensures Inv(t)
  {
    MadeIdentityUnborn(s, t, j, z, base);
    MakeIdentityKeepsWorld(s, t, j, z, base);
    QuieterCovered(s, t);
    forall k | k in t.jobs ensures JobInv(t, t.jobs[k]) {
      assert JobInv(s, s.jobs[k]);
      if k != j { QuieterKeepsJob(s, t, k); } else { MakeIdentityKeepsDesired(s, t, j, z, base); }
    }
  }

  lemma MakeIdentityKeepsDesired(s: State, t: State, j: nat, z: string, base: set<string>)
    requires DeviceStep(s, t, MakeIdentity(j, z, base)) && DesiredCovered(s, s.jobs[j].user, s.jobs[j].at.desired)
    ensures DesiredCovered(t, s.jobs[j].user, s.jobs[j].at.desired)
  {
    assert forall n :: Handled(t, n) ==> Handled(s, n);
  }

  lemma InsertRowKeepsWorld(s: State, t: State, j: nat, id: Uuid)
    requires Inv(s) && DeviceStep(s, t, InsertRow(j, id))
    ensures WellFormed(t) && JobsCompatible(t) && CreationsDistinct(t)
    ensures forall i :: i in s.stored ==> s.stored[i].zitiIdentityId != s.jobs[j].at.ziti
    ensures forall n :: Handled(t, n) ==> Handled(s, n)
  {
    assert JobInv(s, s.jobs[j]);
    forall i | i in s.stored ensures s.stored[i].zitiIdentityId != s.jobs[j].at.ziti {
      assert !IsStoredZiti(s, s.jobs[j].at.ziti);
    }
  }

  // The new device is covered where the groups read for it are out of date.
  lemma InsertRowKeepsInv(s: State, t: State, j: nat, id: Uuid)
    requires Inv(s) && NextBy({}, s, t, InsertRow(j, id))
    ensures Inv(t)
  {
    InsertRowKeepsWorld(s, t, j, id);
    assert JobInv(s, s.jobs[j]);
    forall i, g | i in t.stored && Mismatch(t, i, g) ensures Outstanding(t, Membership(t.stored[i].owner, g)) {
      if i != id { assert Mismatch(s, i, g); }
    }
    forall k | k in t.jobs ensures JobInv(t, t.jobs[k]) {
      if Makes(s, k) { InsertRowKeepsUnborn(s, t, j, id, k); }
      InsertRowKeepsOthers(s, t, j, id, k);
    }
  }

  lemma InsertRowKeepsUnborn(s: State, t: State, j: nat, id: Uuid, k: nat)
    requires Inv(s) && DeviceStep(s, t, InsertRow(j, id)) && Makes(s, k) && k != j
    ensures Unborn(t, s.jobs[k].at.desired, s.jobs[k].at.ziti)
  {
    var z := s.jobs[k].at.ziti;
    assert JobInv(s, s.jobs[k]) && Makes(s, j);
    forall i | i in t.stored ensures t.stored[i].zitiIdentityId != z {
      assert i in s.stored ==> !IsStoredZiti(s, z);
    }
    StillUnborn(s, t, s.jobs[k].at.desired, z);
  }

  lemma InsertRowKeepsOthers(s: State, t: State, j: nat, id: Uuid, k: nat)
    requires Inv(s) && DeviceStep(s, t, InsertRow(j, id)) && k in s.jobs && k != j && RowsBacked(t)
    requires forall n :: Handled(t, n) ==> Handled(s, n)
    requires Makes(s, k) ==> Unborn(t, s.jobs[k].at.desired, s.jobs[k].at.ziti)
    ensures JobInv(t, t.jobs[k])
  {
    var job := s.jobs[k];
    assert JobInv(s, job) && JobInv(s, s.jobs[j]) && Compatible({}, s.jobs[j], job);
    if job.Sync? && job.phase.Patching? && job.hint.Delivery? {
      forall i, g | i in t.stored && t.stored[i].owner == job.user && t.stored[i].zitiIdentityId !in job.phase.todo
        && Mismatch(t, i, g) ensures Elsewhere(t, Membership(job.user, g))
      {
        assert Mismatch(s, i, g);
      }
    }
  }

  // Rows and identities that go: none of the identities is stored or about to be.
  lemma RemovalKeepsInv(s: State, t: State, gone: set<string>)
    requires Inv(s) && Quieter(s, t) && t.attrs == s.attrs - gone && t.issued == s.issued
    requires forall k :: k in t.jobs ==> t.jobs[k] == s.jobs[k]
    requires forall id :: id in t.stored ==> t.stored[id].zitiIdentityId !in gone
    requires forall k :: Makes(t, k) ==> t.jobs[k].at.ziti !in gone
    ensures Inv(t)
  {
    QuieterCovered(s, t);
    forall k | k in t.jobs ensures JobInv(t, t.jobs[k]) {
      assert JobInv(s, s.jobs[k]);
      QuieterKeepsJob(s, t, k);
    }
  }

  lemma InsertFailsKeepsInv(s: State, t: State, j: nat, cleaned: bool)
    requires Inv(s) && NextBy({}, s, t, InsertFails(j, cleaned))
    ensures Inv(t)
  {
    assert JobInv(s, s.jobs[j]);
    var z := s.jobs[j].at.ziti;
    assert forall id :: id in s.stored ==> IsStoredZiti(s, s.stored[id].zitiIdentityId);
    assert Makes(s, j) && forall k :: Makes(t, k) ==> Makes(s, k);
    RemovalKeepsInv(s, t, if cleaned then {z} else {});
  }

  lemma DropIdentityKeepsInv(s: State, t: State, z: string)
    requires Inv(s) && NextBy({}, s, t, DropIdentity(z))
    ensures Inv(t)
  {
    assert forall id :: id in s.stored ==> IsStoredZiti(s, s.stored[id].zitiIdentityId);
    RemovalKeepsInv(s, t, {z});
  }

  lemma DeleteRowKeepsInv(s: State, t: State, id: Uuid)
    requires Inv(s) && NextBy({}, s, t, DeleteRow(id))
    ensures Inv(t)
  {
    RemovalKeepsInv(s, t, {});
  }

  // Every step keeps the invariant.
  lemma StepKeepsInv(s: State, t: State, step: Step)
    requires Inv(s) && NextBy({}, s, t, step)
    ensures Inv(t)
  {
    match step {
      case Change(m) => ChangeKeepsInv(s, t, m);
      case Publish(m) => EventsKeepInv(s, t, step);
      case Redeliver(m) => EventsKeepInv(s, t, step);
      case Start(j, job) => StartKeepsInv(s, t, j, job);
      case ReadPage(_, _) => ReadKeepsInv(s, t, step);
      case ReadDone(_) => ReadKeepsInv(s, t, step);
      case ListPage(j, page, next) => ListKeepsInv(s, t, j, page, next);
      case Patch(j, z) => PatchKeepsInv(s, t, j, z);
      case Finish(j, acked) => FinishKeepsInv(s, t, j, acked);
      case Abandon(j) => AbandonKeepsInv(s, t, j);
      case MakeIdentity(j, z, base) => MakeIdentityKeepsInv(s, t, j, z, base);
      case InsertRow(j, id) => InsertRowKeepsInv(s, t, j, id);
      case InsertFails(j, cleaned) => InsertFailsKeepsInv(s, t, j, cleaned);
      case DeleteRow(id) => DeleteRowKeepsInv(s, t, id);
      case DropIdentity(z) => DropIdentityKeepsInv(s, t, z);
    }
  }

  lemma {:induction false} RunKeepsInv(run: seq<State>, i: nat)
    requires IsRun(run) && i < |run|
    ensures Inv(run[i])
  {
    if i > 0 {
      RunKeepsInv(run, i - 1);
      assert StepAt(run, i - 1);
      var step :| NextBy({}, run[i - 1], run[i], step);
      StepKeepsInv(run[i - 1], run[i], step);
    }
  }

  ghost predicate Quiescent(s: State) {
    s.jobs == map[] && s.outbox == multiset{} && s.events == multiset{}
  }

  ghost function GroupsOf(s: State, user: Uuid): set<string> {
    set m | m in s.member && m.user == user :: m.group
  }

  // The device carries exactly its owner's groups.
  ghost predicate Exact(s: State, id: Uuid)
    requires id in s.stored
  {
    var d := s.stored[id];
    d.zitiIdentityId in s.attrs && GroupPart(s.attrs[d.zitiIdentityId]) == AttributesOf(GroupsOf(s, d.owner))
  }

  lemma QuietIsExact(s: State, id: Uuid)
    requires Inv(s) && Quiescent(s) && id in s.stored
    ensures Exact(s, id)
  {
    var d := s.stored[id];
    var groups := GroupsOf(s, d.owner);
    forall g ensures GroupRoleAttribute(g) in s.attrs[d.zitiIdentityId] <==> g in groups {
      assert !Mismatch(s, id, g);
      assert g in groups <==> Membership(d.owner, g) in s.member;
    }
    GroupPartByGroups(s.attrs[d.zitiIdentityId], groups);
  }

  // When nothing is outstanding, every stored device carries exactly its owner's groups.
  lemma QuiescentConvergence(run: seq<State>, i: nat, id: Uuid)
    requires IsRun(run) && i < |run| && Quiescent(run[i]) && id in run[i].stored
    ensures Exact(run[i], id)
  {
    RunKeepsInv(run, i);
    QuietIsExact(run[i], id);
  }

  // In between, every wrong or missing group attribute of a stored device has its event unpublished or unacknowledged.
  lemma MismatchesAreCovered(run: seq<State>, i: nat, id: Uuid, g: string)
    requires IsRun(run) && i < |run| && id in run[i].stored
    ensures run[i].stored[id].zitiIdentityId in run[i].attrs
    ensures Mismatch(run[i], id, g) ==> Outstanding(run[i], Membership(run[i].stored[id].owner, g))
  {
    RunKeepsInv(run, i);
  }

  // ---- attributes that are not group attributes

  lemma PatchedKeepsOtherPart(attrs: set<string>, hint: Hint, desired: set<string>)
    ensures OtherPart(Patched(attrs, AttributesOf(desired), ToRemove(hint, desired))) == OtherPart(attrs)
  {
    var add, remove := AttributesOf(desired), ToRemove(hint, desired);
    assert forall a :: a in add || a in remove ==> IsGroupAttribute(a);
  }

  lemma StepKeepsOtherPart(s: State, t: State, step: Step, z: string)
    requires s.attrs.Keys <= s.issued && NextBy({}, s, t, step) && z in s.issued
    ensures z in t.issued
    ensures z in t.attrs ==> z in s.attrs && OtherPart(t.attrs[z]) == OtherPart(s.attrs[z])
  {
    if step.Patch? {
      PatchKeepsOtherPart(s, t, step.j, step.ziti, z);
    } else {
      NoPatchKeepsAttrs(s, t, step, z);
    }
  }

  lemma PatchKeepsOtherPart(s: State, t: State, j: nat, patched: string, z: string)
    requires DeviceStep(s, t, Patch(j, patched)) && z in s.issued
    ensures z in t.issued && (z in t.attrs <==> z in s.attrs)
    ensures z in s.attrs ==> OtherPart(t.attrs[z]) == OtherPart(s.attrs[z])
  {
    if patched == z { PatchedKeepsOtherPart(s.attrs[z], s.jobs[j].hint, s.jobs[j].phase.desired); }
  }

  lemma NoPatchKeepsAttrs(s: State, t: State, step: Step, z: string)
    requires NextBy({}, s, t, step) && !step.Patch? && z in s.issued
    ensures z in t.issued && (z in t.attrs ==> z in s.attrs && t.attrs[z] == s.attrs[z])
  {}

  lemma RunStepKeepsOtherPart(run: seq<State>, k: nat, z: string)
    requires IsRun(run) && k < |run| - 1
    ensures z in run[k].attrs ==> z in run[k].issued
    ensures z in run[k].issued ==> z in run[k + 1].issued
    ensures z in run[k].issued && z in run[k + 1].attrs ==>
      z in run[k].attrs && OtherPart(run[k + 1].attrs[z]) == OtherPart(run[k].attrs[z])
  {
    RunKeepsInv(run, k);
    assert StepAt(run, k);
    var step :| NextBy({}, run[k], run[k + 1], step);
    if z in run[k].issued { StepKeepsOtherPart(run[k], run[k + 1], step, z); }
  }

  lemma {:induction false} OtherAttributesKept(run: seq<State>, i: nat, j: nat, z: string)
    requires IsRun(run) && i < j < |run| && z in run[i].attrs
    ensures z in run[j].issued
    ensures z in run[j].attrs ==> OtherPart(run[j].attrs[z]) == OtherPart(run[i].attrs[z])
    decreases j - i
  {
    if i < j - 1 { OtherAttributesKept(run, i, j - 1, z); }
    RunStepKeepsOtherPart(run, j - 1, z);
  }

  // No step of the protocol ever touches them, from the creation of an identity to its removal.
  lemma OtherAttributesUntouched(run: seq<State>, i: nat, j: nat, z: string)
    requires IsRun(run) && i <= j < |run| && z in run[i].attrs && z in run[j].attrs
    ensures OtherPart(run[j].attrs[z]) == OtherPart(run[i].attrs[z])
  {
    if i < j { OtherAttributesKept(run, i, j, z); }
  }
}
