// What the sync protocol asks of its callers: a job handling an event must not overlap another job of its user. The
// server takes no lock to that end (internal/server/group_consumer.go), and each of the overlaps can undo a removal
// for good.

module SyncRace {
  import opened Prelude
  import opened GroupAttributes
  import opened SyncProtocol
  import opened SyncProgress

  // ---- the parts of a race

  // Nothing is in flight but the jobs named.
  ghost predicate Still(s: State, jobs: map<nat, Job>, events: multiset<Membership>) {
    && s.jobs == jobs && s.outbox == multiset{} && s.events == events
    && RowsBacked(s) && s.attrs.Keys <= s.issued && forall m :: m in s.member ==> m.group != ""
  }

  ghost predicate PastReading(jobs: map<nat, Job>) {
    forall j, m :: j in jobs ==> Touch(jobs[j], m) == jobs[j]
  }

  // A change while no job reads, and its event published.
  lemma ChangeAndPublish(allowed: set<Overlap>, s: State, m: Membership)
    requires s.outbox == multiset{} && m.group != "" && PastReading(s.jobs)
    ensures Leads(allowed, s, s.(member := Toggle(s.member, m), events := s.events + multiset{m}))
  {
    var t := s.(member := Toggle(s.member, m), outbox := multiset{m});
    var u := s.(member := Toggle(s.member, m), events := s.events + multiset{m});
    assert TouchAll(s.jobs, m) == s.jobs && multiset{} + multiset{m} == multiset{m};
    OneStep(allowed, s, t, Change(m));
    OneStep(allowed, t, u, Publish(m));
    LeadsOn(allowed, s, t, u);
  }

  // A device creation up to the groups it has read.
  lemma CreateUpToIdentity(allowed: set<Overlap>, s: State, user: Uuid)
    requires s.jobs == map[] && forall m :: m in s.member ==> m.group != ""
    ensures Leads(allowed, s, WithJob(s, 0, Create(user, Decided(GroupsOf(s, user)))))
  {
    var groups := GroupsOf(s, user);
    var a, b := WithJob(s, 0, Create(user, CreateReading({}, {}))), WithJob(s, 0, Create(user, CreateReading(groups, {})));
    var c := WithJob(s, 0, Create(user, Decided(groups)));
    OneStep(allowed, s, a, Start(0, a.jobs[0]));
    assert {} + groups == groups && a.jobs[0 := b.jobs[0]] == b.jobs && b.jobs[0 := c.jobs[0]] == c.jobs;
    OneStep(allowed, a, b, ReadPage(0, groups));
    GroupsAreHeld(s, user);
    OneStep(allowed, b, c, ReadDone(0));
    LeadsOn(allowed, s, a, b);
    LeadsOn(allowed, s, b, c);
  }

  function WithDevice(s: State, id: Uuid, user: Uuid, z: string, groups: set<string>): State {
    s.(stored := s.stored[id := Device(user, z)], attrs := s.attrs[z := AttributesOf(groups)], issued := s.issued + {z},
       jobs := map[])
  }

  // The rest of it.
  lemma CreateTheRest(allowed: set<Overlap>, s: State, user: Uuid, groups: set<string>, id: Uuid, z: string)
    requires s.jobs == map[0 := Create(user, Decided(groups))] && id !in s.stored && z !in s.issued
    ensures Leads(allowed, s, WithDevice(s, id, user, z, groups))
  {
    var made := WithJob(s, 0, Create(user, IdentityMade(groups, z)))
      .(attrs := s.attrs[z := {} + AttributesOf(groups)], issued := s.issued + {z});
    var t := WithDevice(s, id, user, z, groups);
    OneStep(allowed, s, made, MakeIdentity(0, z, {}));
    assert made.jobs - {0} == map[] && {} + AttributesOf(groups) == AttributesOf(groups);
    OneStep(allowed, made, t, InsertRow(0, id));
    LeadsOn(allowed, s, made, t);
  }

  // The user's memberships brought to a given state, with nothing left outstanding.
  lemma SetMembership(allowed: set<Overlap>, s: State, m: Membership, held: bool) returns (t: State)
    requires Still(s, map[], multiset{}) && m.group != ""
    ensures Leads(allowed, s, t) && Still(t, map[], multiset{})
    ensures t.stored == s.stored && t.issued == s.issued && (m in t.member <==> held)
  {
    if (m in s.member) == held {
      StaysPut(allowed, s);
      t := s;
    } else {
      var u := s.(member := Toggle(s.member, m), events := s.events + multiset{m});
      ChangeAndPublish(allowed, s, m);
      GroupsAreHeld(u, m.user);
      SyncWhole(allowed, u, 0, m.user, Delivery(m));
      t := AfterSync(u, m.user, Delivery(m));
      LeadsOn(allowed, s, u, t);
    }
  }

  // A removal is handled from beginning to end beside a job of the same user.
  lemma RemovalBeside(allowed: set<Overlap>, s: State, job: Job, m: Membership) returns (t: State)
    requires Still(s, map[0 := job], s.events) && PastReading(s.jobs) && m in s.member
    requires Compatible(allowed, job, Sync(m.user, Delivery(m), Reading({}, {})))
    ensures Leads(allowed, s, t) && Still(t, map[0 := job], s.events)
    ensures t.member == s.member - {m} && t.stored == s.stored && t.issued == s.issued && t.attrs.Keys == s.attrs.Keys
  {
    var u := s.(member := Toggle(s.member, m), events := s.events + multiset{m});
    ChangeAndPublish(allowed, s, m);
    GroupsAreHeld(u, m.user);
    SyncWhole(allowed, u, 1, m.user, Delivery(m));
    t := AfterSync(u, m.user, Delivery(m));
    LeadsOn(allowed, s, u, t);
  }

  // ---- the races

  // The device carries a group its owner is not in, and nothing will ever correct it.
  ghost predicate LeftWrong(s: State, id: Uuid, user: Uuid, z: string, g: string) {
    && Quiescent(s) && id in s.stored && s.stored[id] == Device(user, z)
    && z in s.attrs && GroupRoleAttribute(g) in s.attrs[z] && Membership(user, g) !in s.member
  }

  // The late patch puts the group back on the device.
  lemma LatePatch(s: State, m: Membership, hint: Hint, groups: set<string>, todo: set<string>, z: string)
    requires hint == NoEvent || hint == Delivery(m)
    requires m.group in groups && z in todo && z in s.attrs
    ensures var attrs := AttrsPatched(s, Sync(m.user, hint, Patching(groups, todo)));
      z in attrs && GroupRoleAttribute(m.group) in attrs[z]
  {
    AttributeOfGroup(m.group, groups);
    assert ToRemove(hint, groups) == {};
  }

  lemma LateFinish(allowed: set<Overlap>, s: State, m: Membership, id: Uuid, z: string, hint: Hint, late: Job)
    returns (t: State)
    requires hint == NoEvent || hint == Delivery(m)
    requires late.Sync? && late.phase.Patching? && late == Sync(m.user, hint, late.phase)
    requires Still(s, map[0 := late], if hint.NoEvent? then multiset{} else multiset{m}) && m !in s.member
    requires id in s.stored && s.stored[id] == Device(m.user, z)
    requires m.group in late.phase.desired && z in late.phase.todo && late.phase.todo <= s.attrs.Keys
    ensures Leads(allowed, s, t) && LeftWrong(t, id, m.user, z, m.group)
  {
    var idle := WithoutJob(s, 0);
    assert WithJob(idle, 0, late) == s;
    PatchAndFinish(allowed, idle, 0, m.user, hint, late.phase.desired, late.phase.todo);
    t := idle.(attrs := AttrsPatched(idle, late),
               events := if hint.Delivery? then idle.events - multiset{hint.event} else idle.events);
    LatePatch(idle, m, hint, late.phase.desired, late.phase.todo, z);
  }

  // A sync that has read the group patches the device after the removal was handled.
  lemma LateSync(allowed: set<Overlap>, s: State, m: Membership, id: Uuid, z: string, hint: Hint)
    returns (t: State)
    requires hint == NoEvent || hint == Delivery(m)
    requires Still(s, map[], if hint.NoEvent? then multiset{} else multiset{m}) && m in s.member
    requires id in s.stored && s.stored[id] == Device(m.user, z)
    requires (if hint.NoEvent? then EventWithPass else EventWithEvent) in allowed
    ensures Leads(allowed, s, t) && LeftWrong(t, id, m.user, z, m.group)
  {
    var late := Sync(m.user, hint, Patching(GroupsOf(s, m.user), ZitisOf(s, m.user)));
    GroupsAreHeld(s, m.user);
    SyncUpToPatch(allowed, s, 0, m.user, hint);
    var a := WithJob(s, 0, late);
    var b := RemovalBeside(allowed, a, late, m);
    LeadsOn(allowed, s, a, b);
    t := LateFinish(allowed, b, m, id, z, hint, late);
    LeadsOn(allowed, s, b, t);
  }

  // A device created with the groups read before the removal was handled.
  lemma LateCreation(allowed: set<Overlap>, s: State, m: Membership, id: Uuid, z: string) returns (t: State)
    requires Still(s, map[], multiset{}) && m in s.member && id !in s.stored && z !in s.issued
    requires EventWithCreate in allowed
    ensures Leads(allowed, s, t) && LeftWrong(t, id, m.user, z, m.group)
  {
    var groups := GroupsOf(s, m.user);
    CreateUpToIdentity(allowed, s, m.user);
    var late := Create(m.user, Decided(groups));
    var a := WithJob(s, 0, late);
    var b := RemovalBeside(allowed, a, late, m);
    LeadsOn(allowed, s, a, b);
    CreateTheRest(allowed, b, m.user, groups, id, z);
    t := WithDevice(b, id, m.user, z, groups);
    LeadsOn(allowed, s, b, t);
  }

  // A device created while nothing else goes on.
  lemma CreateAlone(allowed: set<Overlap>, s: State, user: Uuid, id: Uuid, z: string) returns (t: State)
    requires Still(s, map[], multiset{}) && id !in s.stored && z !in s.issued
    ensures Leads(allowed, s, t) && Still(t, map[], multiset{})
    ensures t.member == s.member && id in t.stored && t.stored[id] == Device(user, z)
  {
    var groups := GroupsOf(s, user);
    CreateUpToIdentity(allowed, s, user);
    var a := WithJob(s, 0, Create(user, Decided(groups)));
    CreateTheRest(allowed, a, user, groups, id, z);
    t := WithDevice(a, id, user, z, groups);
    LeadsOn(allowed, s, a, t);
  }

  lemma RaceFromStill(p: Overlap, s: State, m: Membership, id: Uuid, z: string) returns (t: State)
    requires Still(s, map[], multiset{}) && m.group != "" && id !in s.stored && z !in s.issued
    ensures Leads({p}, s, t) && LeftWrong(t, id, m.user, z, m.group)
  {
    var start := SetMembership({p}, s, m, p != EventWithEvent);
    match p {
      case EventWithCreate =>
        t := LateCreation({p}, start, m, id, z);
        LeadsOn({p}, s, start, t);
      case EventWithPass =>
        var created := CreateAlone({p}, start, m.user, id, z);
        LeadsOn({p}, s, start, created);
        t := LateSync({p}, created, m, id, z, NoEvent);
        LeadsOn({p}, s, created, t);
      case EventWithEvent =>
        var created := CreateAlone({p}, start, m.user, id, z);
        LeadsOn({p}, s, start, created);
        var joined := created.(member := Toggle(created.member, m), events := created.events + multiset{m});
        ChangeAndPublish({p}, created, m);
        LeadsOn({p}, s, created, joined);
        t := LateSync({p}, joined, m, id, z, Delivery(m));
        LeadsOn({p}, s, joined, t);
    }
  }

  // Whatever state a run is in, each of the overlaps alone can lead on to a device that keeps a group its owner left,
  // with every event handled: for every user, every group and every new device.
  lemma EachOverlapBreaksConvergence(run: seq<State>, i: nat, p: Overlap, user: Uuid, g: string, id: Uuid, z: string)
    returns (t: State)
    requires IsRun(run) && i < |run| && g != "" && id !in run[i].stored && z !in run[i].issued
    ensures Leads({p}, run[i], t) && LeftWrong(t, id, user, z, g)
  {
    var s := CanAlwaysSettle(run, i);
    LeadsWider({}, run[i], s, {p});
    t := RaceFromStill(p, s, Membership(user, g), id, z);
    LeadsOn({p}, run[i], s, t);
  }

  // ---- the exact condition

  // Whenever nothing is outstanding, every stored device carries exactly its owner's groups.
  ghost predicate Converges(allowed: set<Overlap>) {
    forall s, t :: Init(s) && Leads(allowed, s, t) && Quiescent(t) ==> forall id :: id in t.stored ==> Exact(t, id)
  }

  lemma WrongIsNotExact(s: State, id: Uuid, user: Uuid, z: string, g: string)
    requires LeftWrong(s, id, user, z, g)
    ensures !Exact(s, id)
  {
    AttributeOfGroup(g, GroupsOf(s, user));
    assert GroupRoleAttribute(g) in GroupPart(s.attrs[z]);
  }

  lemma OverlapDiverges(allowed: set<Overlap>, p: Overlap)
    requires p in allowed
    ensures !Converges(allowed)
  {
    var s := State({}, map[], map[], {}, multiset{}, multiset{}, map[]);
    var t := EachOverlapBreaksConvergence([s], 0, p, 0, "g", 0, "z");
    LeadsWider({p}, s, t, allowed);
    WrongIsNotExact(t, 0, 0, "z", "g");
    assert Init(s) && Leads(allowed, s, t) && Quiescent(t);
  }

  // Of the overlaps with a job handling an event, the devices converge if and only if none is allowed.
  lemma ConvergesExactlyWithoutOverlap(allowed: set<Overlap>)
    ensures Converges(allowed) <==> allowed == {}
  {
    if allowed == {} {
      forall s, t | Init(s) && Leads({}, s, t) && Quiescent(t) ensures forall id :: id in t.stored ==> Exact(t, id) {
        RunKeepsInv([s], 0);
        LeadsKeepsInv(s, t);
        forall id | id in t.stored ensures Exact(t, id) { QuietIsExact(t, id); }
      }
    } else {
      var p :| p in allowed;
      OverlapDiverges(allowed, p);
    }
  }
}
