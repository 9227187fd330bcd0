// Going on with the sync protocol: what a job does when nothing fails and nothing else moves, and that every reachable
// state can be brought to rest, with nothing outstanding, without another membership change.

module SyncProgress {
  import opened Prelude
  import opened Chains
  import opened GroupAttributes
  import opened Pagination
  import opened SyncProtocol

  ghost function Steps(allowed: set<Overlap>): (State, State) -> bool {
    (s, t) => Next(allowed, s, t)
  }

  // Some run of the protocol leads from s to t.
  ghost predicate Leads(allowed: set<Overlap>, s: State, t: State) {
    exists n: nat :: Chain(Steps(allowed), s, t, n)
  }

  lemma StaysPut(allowed: set<Overlap>, s: State)
    ensures Leads(allowed, s, s)
  {
    assert Chain(Steps(allowed), s, s, 0);
  }

  lemma OneStep(allowed: set<Overlap>, s: State, t: State, step: Step)
    requires NextBy(allowed, s, t, step)
    ensures Leads(allowed, s, t)
  {
    assert Steps(allowed)(s, t);
    assert Chain(Steps(allowed), t, t, 0);
    assert Chain(Steps(allowed), s, t, 1);
  }

  lemma LeadsOn(allowed: set<Overlap>, s: State, t: State, u: State)
    requires Leads(allowed, s, t) && Leads(allowed, t, u)
    ensures Leads(allowed, s, u)
  {
    var m: nat :| Chain(Steps(allowed), s, t, m);
    var n: nat :| Chain(Steps(allowed), t, u, n);
    ChainTransitive(Steps(allowed), s, t, u, m, n);
  }

  lemma NextKeepsInv(s: State, t: State)
    requires Inv(s) && Next({}, s, t)
    ensures Inv(t)
  {
    var step :| NextBy({}, s, t, step);
    StepKeepsInv(s, t, step);
  }

  lemma LeadsKeepsInv(s: State, t: State)
    requires Inv(s) && Leads({}, s, t)
    ensures Inv(t)
  {
    var n: nat :| Chain(Steps({}), s, t, n);
    var keep := (s: State) => Inv(s);
    forall a, b | keep(a) && Steps({})(a, b) ensures keep(b) { NextKeepsInv(a, b); }
    ChainKeeps(Steps({}), keep, s, t, n);
  }

  lemma NextWider(allowed: set<Overlap>, s: State, t: State, more: set<Overlap>)
    requires Next(allowed, s, t) && allowed <= more
    ensures Next(more, s, t)
  {
    var step :| NextBy(allowed, s, t, step);
    assert NextBy(more, s, t, step);
  }

  // Allowing more overlaps takes no run away.
  lemma LeadsWider(allowed: set<Overlap>, s: State, t: State, more: set<Overlap>)
    requires Leads(allowed, s, t) && allowed <= more
    ensures Leads(more, s, t)
  {
    var n: nat :| Chain(Steps(allowed), s, t, n);
    forall a, b | Steps(allowed)(a, b) ensures Steps(more)(a, b) { NextWider(allowed, a, b, more); }
    ChainWider(Steps(allowed), Steps(more), s, t, n);
  }

  // ---- one job, undisturbed

  ghost predicate CanStart(allowed: set<Overlap>, s: State, j: nat, job: Job) {
    && j !in s.jobs && Begins(s, job)
    && forall k :: k in s.jobs ==> Compatible(allowed, s.jobs[k], job)
  }

  lemma GroupsAreHeld(s: State, user: Uuid)
    ensures forall g :: g in GroupsOf(s, user) <==> Membership(user, g) in s.member
  {}

  // It reads the groups as they are.
  lemma ReadAll(allowed: set<Overlap>, s: State, j: nat, user: Uuid, hint: Hint)
    requires CanStart(allowed, s, j, Sync(user, hint, Reading({}, {}))) && "" !in GroupsOf(s, user)
    ensures Leads(allowed, s, WithJob(s, j, Sync(user, hint, Listing(GroupsOf(s, user), None, {}))))
  {
    var groups := GroupsOf(s, user);
    var start := Sync(user, hint, Reading({}, {}));
    var a, b := WithJob(s, j, start), WithJob(s, j, Sync(user, hint, Reading(groups, {})));
    OneStep(allowed, s, a, Start(j, start));
    assert {} + groups == groups && a.jobs[j := b.jobs[j]] == b.jobs;
    OneStep(allowed, a, b, ReadPage(j, groups));
    GroupsAreHeld(s, user);
    var c := WithJob(s, j, Sync(user, hint, Listing(groups, None, {})));
    assert b.jobs[j := c.jobs[j]] == c.jobs;
    OneStep(allowed, b, c, ReadDone(j));
    LeadsOn(allowed, s, a, b);
    LeadsOn(allowed, s, b, c);
  }

  ghost function ZitisOf(s: State, user: Uuid): set<string> {
    set id | id in s.stored && s.stored[id].owner == user :: s.stored[id].zitiIdentityId
  }

  ghost predicate ListedSoFar(s: State, user: Uuid, cursor: Option<Uuid>, todo: set<string>) {
    && todo <= ZitisOf(s, user)
    && ListedUpTo(s, user, cursor, todo)
  }

  lemma PageTodo(s: State, user: Uuid, cursor: Option<Uuid>, todo: set<string>, page: seq<Entity<Device>>,
                 next: Option<Uuid>)
    requires IsPage(s.stored, OwnedBy(user), cursor, MAX_LIST_PAGE_SIZE, page, next)
    requires ListedSoFar(s, user, cursor, todo)
    ensures ListedSoFar(s, user, next, todo + Zitis(page))
    ensures next.None? ==> todo + Zitis(page) == ZitisOf(s, user)
  {
    PageTakesAll(s, user, cursor, page, next);
    forall id | id in s.stored && s.stored[id].owner == user && (next.None? || !Beyond(next, id))
      ensures s.stored[id].zitiIdentityId in todo + Zitis(page)
    {
      if Beyond(cursor, id) { assert s.stored[id].zitiIdentityId in Zitis(page); }
    }
  }

  // One page of the listing, as the first query of the table gives it.
  lemma ListOnce(allowed: set<Overlap>, s: State, j: nat) returns (page: seq<Entity<Device>>, next: Option<Uuid>)
    requires j in s.jobs && s.jobs[j].Sync? && s.jobs[j].phase.Listing?
    ensures IsPage(s.stored, OwnedBy(s.jobs[j].user), s.jobs[j].phase.cursor, MAX_LIST_PAGE_SIZE, page, next)
    ensures var job := s.jobs[j];
      var todo := job.phase.todo + Zitis(page);
      Leads(allowed, s, WithJob(s, j, Sync(job.user, job.hint,
        if next.None? then Patching(job.phase.desired, todo) else Listing(job.phase.desired, next, todo))))
  {
    var job := s.jobs[j];
    var p := PageOf(s.stored, OwnedBy(job.user), job.phase.cursor, MAX_LIST_PAGE_SIZE);
    PageOfIsPage(s.stored, OwnedBy(job.user), job.phase.cursor, MAX_LIST_PAGE_SIZE);
    page, next := p.0, p.1;
    var todo := job.phase.todo + Zitis(page);
    var to := if next.None? then Patching(job.phase.desired, todo) else Listing(job.phase.desired, next, todo);
    OneStep(allowed, s, WithJob(s, j, Sync(job.user, job.hint, to)), ListPage(j, page, next));
  }

  lemma NextIsBeyond(s: State, user: Uuid, cursor: Option<Uuid>, page: seq<Entity<Device>>, next: Option<Uuid>)
    requires IsPage(s.stored, OwnedBy(user), cursor, MAX_LIST_PAGE_SIZE, page, next)
    ensures next.Some? ==> Beyond(cursor, next.value)
  {}

  // It lists the user's devices, page by page.
  lemma {:induction false} ListAll(allowed: set<Overlap>, s: State, j: nat)
    requires j in s.jobs && s.jobs[j].Sync? && s.jobs[j].phase.Listing?
    requires ListedSoFar(s, s.jobs[j].user, s.jobs[j].phase.cursor, s.jobs[j].phase.todo)
    ensures var job := s.jobs[j];
      Leads(allowed, s, WithJob(s, j, Sync(job.user, job.hint, Patching(job.phase.desired, ZitisOf(s, job.user)))))
    decreases if s.jobs[j].phase.cursor.None? then UUID_LIMIT else UUID_LIMIT - 1 - s.jobs[j].phase.cursor.value
  {
    var job := s.jobs[j];
    var page, next := ListOnce(allowed, s, j);
    PageTodo(s, job.user, job.phase.cursor, job.phase.todo, page, next);
    NextIsBeyond(s, job.user, job.phase.cursor, page, next);
    if next.Some? {
      var t := WithJob(s, j, Sync(job.user, job.hint, Listing(job.phase.desired, next, job.phase.todo + Zitis(page))));
      var u := WithJob(s, j, Sync(job.user, job.hint, Patching(job.phase.desired, ZitisOf(s, job.user))));
      assert ZitisOf(t, job.user) == ZitisOf(s, job.user);
      ListAll(allowed, t, j);
      assert WithJob(t, j, u.jobs[j]) == u;
      LeadsOn(allowed, s, t, u);
    }
  }

  ghost function AttrsPatched(s: State, job: Job): map<string, set<string>>
    requires job.Sync? && job.phase.Patching?
  {
    map z | z in s.attrs :: if z in job.phase.todo
      then Patched(s.attrs[z], AttributesOf(job.phase.desired), ToRemove(job.hint, job.phase.desired))
      else s.attrs[z]
  }

  // It patches them all.
  lemma {:induction false} PatchAll(allowed: set<Overlap>, s: State, j: nat)
    requires j in s.jobs && s.jobs[j].Sync? && s.jobs[j].phase.Patching? && s.jobs[j].phase.todo <= s.attrs.Keys
    ensures var job := s.jobs[j];
      Leads(allowed, s, WithJob(s, j, job.(phase := Patching(job.phase.desired, {}))).(attrs := AttrsPatched(s, job)))
    decreases s.jobs[j].phase.todo
  {
    var job := s.jobs[j];
    var desired, todo := job.phase.desired, job.phase.todo;
    var done := WithJob(s, j, job.(phase := Patching(desired, {}))).(attrs := AttrsPatched(s, job));
    if todo == {} {
      assert s.jobs[j := job] == s.jobs;
      assert done == s;
      StaysPut(allowed, s);
    } else {
      var z :| z in todo;
      var add, remove := AttributesOf(desired), ToRemove(job.hint, desired);
      var t := WithJob(s, j, job.(phase := Patching(desired, todo - {z})))
        .(attrs := s.attrs[z := Patched(s.attrs[z], add, remove)]);
      OneStep(allowed, s, t, Patch(j, z));
      PatchAll(allowed, t, j);
      var last := WithJob(t, j, t.jobs[j].(phase := Patching(desired, {}))).(attrs := AttrsPatched(t, t.jobs[j]));
      assert last.attrs == done.attrs && last.jobs == done.jobs;
      LeadsOn(allowed, s, t, done);
    }
  }

  ghost function AfterSync(s: State, user: Uuid, hint: Hint): State {
    s.(attrs := AttrsPatched(s, Sync(user, hint, Patching(GroupsOf(s, user), ZitisOf(s, user)))),
       events := if hint.Delivery? then s.events - multiset{hint.event} else s.events)
  }

  // From just before its patches to its end, acknowledged when it handles an event.
  lemma PatchAndFinish(allowed: set<Overlap>, s: State, j: nat, user: Uuid, hint: Hint,
                       desired: set<string>, todo: set<string>)
    requires j !in s.jobs && todo <= s.attrs.Keys
    ensures var job := Sync(user, hint, Patching(desired, todo));
      Leads(allowed, WithJob(s, j, job),
            s.(attrs := AttrsPatched(s, job), events := if hint.Delivery? then s.events - multiset{hint.event} else s.events))
  {
    var job := Sync(user, hint, Patching(desired, todo));
    var a := WithJob(s, j, job);
    PatchAll(allowed, a, j);
    var b := WithJob(a, j, job.(phase := Patching(desired, {}))).(attrs := AttrsPatched(a, job));
    var c := s.(attrs := AttrsPatched(s, job),
                events := if hint.Delivery? then s.events - multiset{hint.event} else s.events);
    assert AttrsPatched(a, job) == AttrsPatched(s, job);
    assert b.jobs - {j} == s.jobs;
    OneStep(allowed, b, c, Finish(j, true));
    LeadsOn(allowed, a, b, c);
  }

  // A sync from its start to just before its patches.
  lemma SyncUpToPatch(allowed: set<Overlap>, s: State, j: nat, user: Uuid, hint: Hint)
    requires CanStart(allowed, s, j, Sync(user, hint, Reading({}, {}))) && "" !in GroupsOf(s, user)
    ensures Leads(allowed, s, WithJob(s, j, Sync(user, hint, Patching(GroupsOf(s, user), ZitisOf(s, user)))))
  {
    var a := WithJob(s, j, Sync(user, hint, Listing(GroupsOf(s, user), None, {})));
    ReadAll(allowed, s, j, user, hint);
    ListAll(allowed, a, j);
    var b := WithJob(s, j, Sync(user, hint, Patching(GroupsOf(s, user), ZitisOf(s, user))));
    assert ZitisOf(a, user) == ZitisOf(s, user);
    assert WithJob(a, j, b.jobs[j]) == b;
    LeadsOn(allowed, s, a, b);
  }

  // A whole sync.
  lemma SyncWhole(allowed: set<Overlap>, s: State, j: nat, user: Uuid, hint: Hint)
    requires CanStart(allowed, s, j, Sync(user, hint, Reading({}, {}))) && "" !in GroupsOf(s, user) && RowsBacked(s)
    ensures Leads(allowed, s, AfterSync(s, user, hint))
  {
    SyncUpToPatch(allowed, s, j, user, hint);
    PatchAndFinish(allowed, s, j, user, hint, GroupsOf(s, user), ZitisOf(s, user));
    LeadsOn(allowed, s, WithJob(s, j, Sync(user, hint, Patching(GroupsOf(s, user), ZitisOf(s, user)))),
            AfterSync(s, user, hint));
  }

  // ---- coming to rest

  // t is reachable, with the same memberships and device rows.
  ghost predicate Settles(s: State, t: State) {
    Inv(t) && t.member == s.member && t.stored == s.stored && t.issued == s.issued && Leads({}, s, t)
  }

  lemma SettlesOn(s: State, t: State, u: State)
    requires Settles(s, t) && Settles(t, u)
    ensures Settles(s, u)
  {
    LeadsOn({}, s, t, u);
  }

  lemma {:induction false} AbandonAll(s: State) returns (t: State)
    requires Inv(s)
    ensures Settles(s, t) && t.jobs == map[]
    decreases |s.jobs|
  {
    if s.jobs == map[] {
      StaysPut({}, s);
      t := s;
    } else {
      var j :| j in s.jobs;
      var u := WithoutJob(s, j);
      assert u.jobs.Keys == s.jobs.Keys - {j};
      OneStep({}, s, u, Abandon(j));
      LeadsKeepsInv(s, u);
      t := AbandonAll(u);
      SettlesOn(s, u, t);
    }
  }

  lemma {:induction false} PublishAll(s: State) returns (t: State)
    requires Inv(s) && s.jobs == map[]
    ensures Settles(s, t) && t.jobs == map[] && t.outbox == multiset{}
    decreases |s.outbox|
  {
    if s.outbox == multiset{} {
      StaysPut({}, s);
      t := s;
    } else {
      var m :| m in s.outbox;
      var u := s.(outbox := s.outbox - multiset{m}, events := s.events + multiset{m});
      OneStep({}, s, u, Publish(m));
      LeadsKeepsInv(s, u);
      t := PublishAll(u);
      SettlesOn(s, u, t);
    }
  }

  lemma {:induction false} HandleAll(s: State) returns (t: State)
    requires Inv(s) && s.jobs == map[] && s.outbox == multiset{}
    ensures Settles(s, t) && Quiescent(t)
    decreases |s.events|
  {
    if s.events == multiset{} {
      StaysPut({}, s);
      t := s;
    } else {
      var m :| m in s.events;
      SyncWhole({}, s, 0, m.user, Delivery(m));
      var u := AfterSync(s, m.user, Delivery(m));
      LeadsKeepsInv(s, u);
      t := HandleAll(u);
      SettlesOn(s, u, t);
    }
  }

  // Whatever state a run is in, a quiescent state for the same memberships and devices can be reached from it.
  lemma CanAlwaysSettle(run: seq<State>, i: nat) returns (t: State)
    requires IsRun(run) && i < |run|
    ensures Settles(run[i], t) && Quiescent(t)
  {
    RunKeepsInv(run, i);
    var idle := AbandonAll(run[i]);
    var published := PublishAll(idle);
    t := HandleAll(published);
    SettlesOn(run[i], idle, published);
    SettlesOn(run[i], published, t);
  }
}
