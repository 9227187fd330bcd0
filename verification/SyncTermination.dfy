// The sync protocol comes to rest: once memberships stop changing and nothing fails, is redelivered or newly begun, every
// way of going on ends, with nothing outstanding and every device exact.

module SyncTermination {
  import opened Prelude
  import opened GroupAttributes
  import opened Pagination
  import opened SyncProtocol
  import opened SyncProgress

  // left[j]: how many pages job j's read of the groups has yet to fetch.
  datatype World = World(s: State, left: map<nat, nat>)

  ghost predicate ReadsGroups(job: Job) {
    if job.Sync? then job.phase.Reading? else job.at.CreateReading?
  }

  // Everything that is to be reported has been.
  ghost predicate Complete(s: State, j: nat)
    requires j in s.jobs && ReadsGroups(s.jobs[j])
  {
    match s.jobs[j]
    case Sync(user, _, phase) => ReadFaithful(s.member, user, phase.seen, phase.touched)
    case Create(user, at) => ReadFaithful(s.member, user, at.seen, at.touched)
  }

  ghost predicate ReadsEnd(w: World) {
    forall j :: j in w.s.jobs && ReadsGroups(w.s.jobs[j]) ==> j in w.left && (w.left[j] == 0 ==> Complete(w.s, j))
  }

  // A sync about to patch an identity that is gone, as deletions before the calm may have left it.
  ghost predicate PatchMustFail(s: State, j: nat) {
    && j in s.jobs && s.jobs[j].Sync? && s.jobs[j].phase.Patching?
    && exists z :: z in s.jobs[j].phase.todo && z !in s.attrs
  }

  // Steps of the jobs under way and of the deliveries that are due.
  ghost predicate CalmBy(w: World, v: World, step: Step) {
    && NextBy({}, w.s, v.s, step)
    && (match step
        case Start(j, job) => Delivers(job) && j in v.left && v.left == w.left[j := v.left[j]]
        case ReadPage(j, _) => j in w.left && w.left[j] > 0 && v.left == w.left[j := w.left[j] - 1]
        case ReadDone(j) => j in w.left && w.left[j] == 0 && v.left == w.left
        case Finish(_, acked) => acked && v.left == w.left
        case Abandon(j) => PatchMustFail(w.s, j) && v.left == w.left
        case Publish(_) => v.left == w.left
        case ListPage(_, _, _) => v.left == w.left
        case Patch(_, _) => v.left == w.left
        case MakeIdentity(_, _, _) => v.left == w.left
        case InsertRow(_, _) => v.left == w.left
        case _ => false)
    && ReadsEnd(v)
  }

  ghost predicate Calm(w: World, v: World) {
    exists step :: CalmBy(w, v, step)
  }

  ghost predicate CalmAt(run: nat -> World, n: nat) {
    Calm(run(n), run(n + 1))
  }

  // ---- every way of going on ends

  // Syncs that have listed an identity that is gone.
  ghost function Doomed(s: State): set<nat> {
    set j | j in s.jobs && exists z :: z in Todo(s.jobs[j]) && z !in s.attrs
  }

  // Published events nobody is handling.
  ghost function Waiting(s: State): set<Membership> {
    set m | m in s.events && !Handled(s, m)
  }

  function Stage(job: Job): nat {
    match job
    case Sync(_, _, phase) => if phase.Reading? then 3 else if phase.Listing? then 2 else 1
    case Create(_, at) => if at.CreateReading? then 3 else if at.Decided? then 2 else 1
  }

  // What is left within a job's stage: pages of groups, room beyond the cursor, patches.
  ghost function Left(w: World, j: nat): nat
    requires j in w.s.jobs
  {
    var job := w.s.jobs[j];
    if ReadsGroups(job) then if j in w.left then w.left[j] else 0
    else if job.Create? then 0
    else match job.phase
      case Listing(_, cursor, _) => if cursor.None? then UUID_LIMIT else UUID_LIMIT - 1 - cursor.value
      case Patching(_, todo) => |todo|
  }

  ghost function Pairs(ranks: map<nat, nat>): set<(nat, nat)> {
    set j, k | j in ranks && 0 <= k < ranks[j] :: (j, k)
  }

  ghost function Stages(s: State): map<nat, nat> {
    map j | j in s.jobs :: Stage(s.jobs[j])
  }

  ghost function Lefts(w: World): map<nat, nat> {
    map j | j in w.s.jobs :: Left(w, j)
  }

  // One rank sinks or goes, no other rises.
  lemma PairsSink(before: map<nat, nat>, after: map<nat, nat>, j: nat)
    requires after.Keys <= before.Keys && forall k :: k in after ==> after[k] <= before[k]
    requires j in before && before[j] > if j in after then after[j] else 0
    ensures Pairs(after) < Pairs(before)
  {
    var top := (j, before[j] - 1);
    assert top in Pairs(before) && top !in Pairs(after);
    assert Pairs(after) <= Pairs(before);
  }

  // What falls with every calm step, the first component that changes leading.
  datatype Measure = Measure(doomed: set<nat>, outbox: multiset<Membership>, events: multiset<Membership>,
                             waiting: set<Membership>, stages: set<(nat, nat)>, lefts: set<(nat, nat)>)

  predicate Below(a: Measure, b: Measure) {
    || a.doomed < b.doomed
    || (&& a.doomed <= b.doomed
        && (|| a.outbox < b.outbox
            || (&& a.outbox == b.outbox
                && (|| a.events < b.events
                    || (&& a.events == b.events
                        && (|| a.waiting < b.waiting
                            || (&& a.waiting == b.waiting
                                && (a.stages < b.stages || (a.stages == b.stages && a.lefts < b.lefts)))))))))
  }

  lemma {:induction false} NoEndlessDescent(f: nat -> Measure) returns (i: nat)
    ensures !Below(f(i + 1), f(i))
    decreases f(0).doomed, f(0).outbox, f(0).events, f(0).waiting, f(0).stages, f(0).lefts
  {
    i := 0;
    if Below(f(1), f(0)) {
      var k := NoEndlessDescent((n: nat) => f(n + 1));
      i := k + 1;
    }
  }

  ghost function MeasureOf(w: World): Measure {
    Measure(Doomed(w.s), w.s.outbox, w.s.events, Waiting(w.s), Pairs(Stages(w.s)), Pairs(Lefts(w)))
  }

  ghost predicate Falls(w: World, v: World) {
    Below(MeasureOf(v), MeasureOf(w))
  }

  lemma SameHandled(s: State, t: State)
    requires forall j :: j in t.jobs && Delivers(t.jobs[j]) ==>
      j in s.jobs && Delivers(s.jobs[j]) && s.jobs[j].hint == t.jobs[j].hint
    requires forall j :: j in s.jobs && Delivers(s.jobs[j]) ==>
      j in t.jobs && Delivers(t.jobs[j]) && s.jobs[j].hint == t.jobs[j].hint
    requires t.events == s.events
    ensures Waiting(t) == Waiting(s)
  {
    forall m ensures Handled(s, m) <==> Handled(t, m) {
      if Handled(s, m) {
        var j :| j in s.jobs && s.jobs[j].Sync? && s.jobs[j].hint == Delivery(m);
        assert t.jobs[j].Sync? && t.jobs[j].hint == Delivery(m);
      }
      if Handled(t, m) {
        var j :| j in t.jobs && t.jobs[j].Sync? && t.jobs[j].hint == Delivery(m);
        assert s.jobs[j].Sync? && s.jobs[j].hint == Delivery(m);
      }
    }
  }

  lemma PublishFalls(w: World, v: World, m: Membership)
    requires CalmBy(w, v, Publish(m))
    ensures Falls(w, v)
  {
    assert v.s.outbox <= w.s.outbox && v.s.outbox[m] < w.s.outbox[m];
    assert Doomed(v.s) == Doomed(w.s);
  }

  lemma StillHandled(s: State, t: State, m: Membership)
    requires forall k :: k in s.jobs ==> k in t.jobs && t.jobs[k] == s.jobs[k]
    ensures Handled(s, m) ==> Handled(t, m)
  {
    if Handled(s, m) {
      var k :| k in s.jobs && s.jobs[k].Sync? && s.jobs[k].hint == Delivery(m);
      assert t.jobs[k].Sync? && t.jobs[k].hint == Delivery(m);
    }
  }

  // A delivery that may start is handled by nobody.
  lemma StartsUnhandled(s: State, job: Job)
    requires Inv(s) && Delivers(job) && Begins(s, job)
    requires forall k :: k in s.jobs ==> Compatible({}, s.jobs[k], job)
    ensures !Handled(s, job.hint.event)
  {
    forall k | k in s.jobs && s.jobs[k].Sync? ensures s.jobs[k].hint != job.hint {
      assert JobInv(s, s.jobs[k]) && Compatible({}, s.jobs[k], job);
    }
  }

  lemma StartFalls(w: World, v: World, j: nat, job: Job)
    requires Inv(w.s) && CalmBy(w, v, Start(j, job))
    ensures Falls(w, v)
  {
    var s, t := w.s, v.s;
    var m := job.hint.event;
    assert Doomed(t) == Doomed(s);
    assert t.jobs[j].Sync? && t.jobs[j].hint == Delivery(m) && Handled(t, m);
    StartsUnhandled(s, job);
    assert m in Waiting(s) && m !in Waiting(t);
    forall n | n in Waiting(t) ensures n in Waiting(s) {
      StillHandled(s, t, n);
    }
  }

  // The job goes.
  lemma EndFalls(w: World, v: World, j: nat)
    requires j in w.s.jobs && !Delivers(w.s.jobs[j]) && v.s.jobs == w.s.jobs - {j}
    requires v.s.outbox == w.s.outbox && v.s.events == w.s.events && w.s.attrs.Keys <= v.s.attrs.Keys
    ensures Falls(w, v)
  {
    SameHandled(w.s, v.s);
    PairsSink(Stages(w.s), Stages(v.s), j);
    assert Doomed(v.s) <= Doomed(w.s);
  }

  lemma FinishFalls(w: World, v: World, j: nat)
    requires CalmBy(w, v, Finish(j, true)) && (Delivers(w.s.jobs[j]) ==> w.s.jobs[j].hint.event in w.s.events)
    ensures Falls(w, v)
  {
    var job := w.s.jobs[j];
    if Delivers(job) {
      var m := job.hint.event;
      assert v.s.events <= w.s.events && v.s.events[m] < w.s.events[m];
      assert Doomed(v.s) <= Doomed(w.s);
    } else {
      EndFalls(w, v, j);
    }
  }

  lemma AbandonFalls(w: World, v: World, j: nat)
    requires CalmBy(w, v, Abandon(j))
    ensures Falls(w, v)
  {
    assert j in Doomed(w.s) && j !in Doomed(v.s) && Doomed(v.s) <= Doomed(w.s);
  }

  lemma MoveKeepsDoomed(s: State, t: State, j: nat)
    requires j in s.jobs && j in t.jobs && t.jobs == s.jobs[j := t.jobs[j]] && s.attrs.Keys <= t.attrs.Keys
    requires forall z :: z in Todo(t.jobs[j]) && z !in t.attrs ==> z in Todo(s.jobs[j])
    ensures Doomed(t) <= Doomed(s)
  {}

  // The job moves to a later stage, or on within its stage.
  lemma MoveFalls(w: World, v: World, j: nat)
    requires j in w.s.jobs && j in v.s.jobs && v.s.jobs == w.s.jobs[j := v.s.jobs[j]]
    requires v.s.outbox == w.s.outbox && v.s.events == w.s.events && w.s.attrs.Keys <= v.s.attrs.Keys
    requires (w.s.jobs[j].Sync? <==> v.s.jobs[j].Sync?) && (v.s.jobs[j].Sync? ==> v.s.jobs[j].hint == w.s.jobs[j].hint)
    requires forall z :: z in Todo(v.s.jobs[j]) && z !in v.s.attrs ==> z in Todo(w.s.jobs[j])
    requires forall k :: k != j && k in w.left ==> k in v.left && v.left[k] == w.left[k]
    requires forall k :: k != j && k in v.left ==> k in w.left
    requires
      || Stage(v.s.jobs[j]) < Stage(w.s.jobs[j])
      || (Stage(v.s.jobs[j]) == Stage(w.s.jobs[j]) && Left(v, j) < Left(w, j))
    ensures Falls(w, v)
  {
    SameHandled(w.s, v.s);
    MoveKeepsDoomed(w.s, v.s, j);
    RanksSink(w, v, j);
  }

  lemma RanksSink(w: World, v: World, j: nat)
    requires j in w.s.jobs && j in v.s.jobs && v.s.jobs == w.s.jobs[j := v.s.jobs[j]]
    requires forall k :: k != j && k in w.left ==> k in v.left && v.left[k] == w.left[k]
    requires forall k :: k != j && k in v.left ==> k in w.left
    requires
      || Stage(v.s.jobs[j]) < Stage(w.s.jobs[j])
      || (Stage(v.s.jobs[j]) == Stage(w.s.jobs[j]) && Left(v, j) < Left(w, j))
    ensures
      || Pairs(Stages(v.s)) < Pairs(Stages(w.s))
      || (Pairs(Stages(v.s)) == Pairs(Stages(w.s)) && Pairs(Lefts(v)) < Pairs(Lefts(w)))
  {
    if Stage(v.s.jobs[j]) < Stage(w.s.jobs[j]) {
      PairsSink(Stages(w.s), Stages(v.s), j);
    } else {
      assert Stages(v.s) == Stages(w.s);
      PairsSink(Lefts(w), Lefts(v), j);
    }
  }

  lemma ListFalls(w: World, v: World, j: nat, page: seq<Entity<Device>>, next: Option<Uuid>)
    requires RowsBacked(w.s) && CalmBy(w, v, ListPage(j, page, next))
    ensures Falls(w, v)
  {
    var job := w.s.jobs[j];
    PageTakesAll(w.s, job.user, job.phase.cursor, page, next);
    NextIsBeyond(w.s, job.user, job.phase.cursor, page, next);
    MoveFalls(w, v, j);
  }

  lemma ReadFalls(w: World, v: World, step: Step)
    requires CalmBy(w, v, step) && (step.ReadPage? || step.ReadDone?)
    ensures Falls(w, v)
  {
    MoveFalls(w, v, step.j);
  }

  lemma DeviceFalls(w: World, v: World, step: Step)
    requires CalmBy(w, v, step) && (step.Patch? || step.MakeIdentity? || step.InsertRow?)
    ensures Falls(w, v)
  {
    if step.InsertRow? { EndFalls(w, v, step.j); } else { MoveFalls(w, v, step.j); }
  }

  lemma CalmFalls(w: World, v: World, step: Step)
    requires Inv(w.s) && CalmBy(w, v, step)
    ensures Falls(w, v)
  {
    match step {
      case Publish(m) => PublishFalls(w, v, m);
      case Start(j, job) => StartFalls(w, v, j, job);
      case ReadPage(_, _) => ReadFalls(w, v, step);
      case ReadDone(_) => ReadFalls(w, v, step);
      case ListPage(j, page, next) => ListFalls(w, v, j, page, next);
      case Patch(_, _) => DeviceFalls(w, v, step);
      case Finish(j, _) =>
        assert JobInv(w.s, w.s.jobs[j]);
        FinishFalls(w, v, j);
      case Abandon(j) => AbandonFalls(w, v, j);
      case MakeIdentity(_, _, _) => DeviceFalls(w, v, step);
      case InsertRow(_, _) => DeviceFalls(w, v, step);
    }
  }

  lemma CalmKeeps(w: World, v: World)
    requires Inv(w.s) && Calm(w, v)
    ensures Inv(v.s) && ReadsEnd(v) && v.s.member == w.s.member && Falls(w, v)
  {
    var step :| CalmBy(w, v, step);
    StepKeepsInv(w.s, v.s, step);
    CalmFalls(w, v, step);
    CalmKeepsMembers(w, v, step);
  }

  lemma CalmKeepsMembers(w: World, v: World, step: Step)
    requires CalmBy(w, v, step)
    ensures v.s.member == w.s.member
  {}

  lemma {:induction false} CalmSoFar(run: nat -> World, n: nat)
    requires Inv(run(0).s) && ReadsEnd(run(0)) && forall k: nat :: k < n ==> CalmAt(run, k)
    ensures Inv(run(n).s) && ReadsEnd(run(n)) && run(n).s.member == run(0).s.member
  {
    if n > 0 {
      CalmSoFar(run, n - 1);
      assert CalmAt(run, n - 1);
      CalmKeeps(run(n - 1), run(n));
    }
  }

  lemma {:induction false} FirstFailure(p: nat -> bool, n: nat) returns (i: nat)
    requires !p(n)
    ensures !p(i) && forall k: nat :: k < i ==> p(k)
  {
    i := n;
    if k: nat :| k < n && !p(k) { i := FirstFailure(p, k); }
  }

  lemma CalmFallsAt(run: nat -> World, n: nat)
    requires Inv(run(0).s) && ReadsEnd(run(0)) && forall k: nat :: k <= n ==> CalmAt(run, k)
    ensures Falls(run(n), run(n + 1))
  {
    CalmSoFar(run, n);
    assert CalmAt(run, n);
    CalmKeeps(run(n), run(n + 1));
  }

  lemma SomeUncalm(run: nat -> World) returns (i: nat)
    requires Inv(run(0).s) && ReadsEnd(run(0))
    ensures !CalmAt(run, i)
  {
    var f := (n: nat) => MeasureOf(run(n));
    var n := NoEndlessDescent(f);
    assert f(n) == MeasureOf(run(n)) && f(n + 1) == MeasureOf(run(n + 1));
    i := n;
    if k: nat :| k <= n && !CalmAt(run, k) {
      i := k;
    } else {
      CalmFallsAt(run, n);
      assert false;
    }
  }

  // There is no endless calm run.
  lemma CalmEnds(run: nat -> World) returns (i: nat)
    requires Inv(run(0).s) && ReadsEnd(run(0))
    ensures !CalmAt(run, i)
    ensures Inv(run(i).s) && ReadsEnd(run(i)) && run(i).s.member == run(0).s.member
  {
    var n := SomeUncalm(run);
    var calm := (k: nat) => CalmAt(run, k);
    i := FirstFailure(calm, n);
    forall k: nat | k < i ensures CalmAt(run, k) { assert calm(k); }
    CalmSoFar(run, i);
  }

  // ---- and it ends only at rest

  ghost predicate CanGoOn(w: World) {
    exists v :: Calm(w, v)
  }

  lemma GoesOn(w: World, v: World, step: Step)
    requires CalmBy(w, v, step)
    ensures CanGoOn(w)
  {
    assert Calm(w, v);
  }

  lemma ReadGoesOn(w: World, j: nat)
    requires Inv(w.s) && ReadsEnd(w) && j in w.s.jobs && ReadsGroups(w.s.jobs[j])
    ensures CanGoOn(w)
  {
    var s, job := w.s, w.s.jobs[j];
    assert JobInv(s, job);
    if w.left[j] == 0 {
      var next := if job.Sync? then Sync(job.user, job.hint, Listing(job.phase.seen, None, {}))
                  else Create(job.user, Decided(job.at.seen));
      GoesOn(w, World(WithJob(s, j, next), w.left), ReadDone(j));
    } else {
      var groups := GroupsOf(s, job.user);
      GroupsAreHeld(s, job.user);
      var next := if job.Sync? then Sync(job.user, job.hint, Reading(job.phase.seen + groups, job.phase.touched))
                  else Create(job.user, CreateReading(job.at.seen + groups, job.at.touched));
      var v := World(WithJob(s, j, next), w.left[j := w.left[j] - 1]);
      assert Complete(v.s, j);
      GoesOn(w, v, ReadPage(j, groups));
    }
  }

  lemma ListGoesOn(w: World, j: nat)
    requires ReadsEnd(w) && j in w.s.jobs && w.s.jobs[j].Sync? && w.s.jobs[j].phase.Listing?
    ensures CanGoOn(w)
  {
    var s, job := w.s, w.s.jobs[j];
    var p := PageOf(s.stored, OwnedBy(job.user), job.phase.cursor, MAX_LIST_PAGE_SIZE);
    PageOfIsPage(s.stored, OwnedBy(job.user), job.phase.cursor, MAX_LIST_PAGE_SIZE);
    var todo := job.phase.todo + Zitis(p.0);
    var to := if p.1.None? then Patching(job.phase.desired, todo) else Listing(job.phase.desired, p.1, todo);
    GoesOn(w, World(WithJob(s, j, Sync(job.user, job.hint, to)), w.left), ListPage(j, p.0, p.1));
  }

  lemma PatchGoesOn(w: World, j: nat)
    requires ReadsEnd(w) && j in w.s.jobs && w.s.jobs[j].Sync? && w.s.jobs[j].phase.Patching?
    ensures CanGoOn(w)
  {
    var s, job := w.s, w.s.jobs[j];
    var desired, todo := job.phase.desired, job.phase.todo;
    if todo == {} {
      FinishGoesOn(w, j);
    } else {
      var z :| z in todo;
      if z !in s.attrs {
        GoesOn(w, World(WithoutJob(s, j), w.left), Abandon(j));
      } else {
        var t := WithJob(s, j, job.(phase := Patching(desired, todo - {z})))
          .(attrs := s.attrs[z := Patched(s.attrs[z], AttributesOf(desired), ToRemove(job.hint, desired))]);
        GoesOn(w, World(t, w.left), Patch(j, z));
      }
    }
  }

  lemma FinishGoesOn(w: World, j: nat)
    requires ReadsEnd(w) && j in w.s.jobs && w.s.jobs[j].Sync? && w.s.jobs[j].phase.Patching?
    requires w.s.jobs[j].phase.todo == {}
    ensures CanGoOn(w)
  {
    var s, job := w.s, w.s.jobs[j];
    var events := if Delivers(job) then s.events - multiset{job.hint.event} else s.events;
    GoesOn(w, World(WithoutJob(s, j).(events := events), w.left), Finish(j, true));
  }

  lemma CreateGoesOn(w: World, j: nat, id: Uuid)
    requires ReadsEnd(w) && j in w.s.jobs && w.s.jobs[j].Create? && !w.s.jobs[j].at.CreateReading? && id !in w.s.stored
    ensures CanGoOn(w)
  {
    var s, job := w.s, w.s.jobs[j];
    if job.at.Decided? {
      var z := NewText(s.issued);
      var t := WithJob(s, j, Create(job.user, IdentityMade(job.at.desired, z)))
        .(attrs := s.attrs[z := {} + AttributesOf(job.at.desired)], issued := s.issued + {z});
      GoesOn(w, World(t, w.left), MakeIdentity(j, z, {}));
    } else {
      var t := WithoutJob(s, j).(stored := s.stored[id := Device(job.user, job.at.ziti)]);
      GoesOn(w, World(t, w.left), InsertRow(j, id));
    }
  }

  lemma IdleGoesOn(w: World)
    requires ReadsEnd(w) && w.s.jobs == map[] && !Quiescent(w.s)
    ensures CanGoOn(w)
  {
    var s := w.s;
    if s.outbox != multiset{} {
      var m :| m in s.outbox;
      var t := s.(outbox := s.outbox - multiset{m}, events := s.events + multiset{m});
      GoesOn(w, World(t, w.left), Publish(m));
    } else {
      var m :| m in s.events;
      var job := Sync(m.user, Delivery(m), Reading({}, {}));
      GoesOn(w, World(WithJob(s, 0, job), w.left[0 := 1]), Start(0, job));
    }
  }

  // While something is outstanding or under way, some calm step is possible. id stands for an identifier not in use.
  lemma UnrestGoesOn(w: World, id: Uuid)
    requires Inv(w.s) && ReadsEnd(w) && !Quiescent(w.s) && id !in w.s.stored
    ensures CanGoOn(w)
  {
    if w.s.jobs == map[] {
      IdleGoesOn(w);
    } else {
      var j :| j in w.s.jobs;
      var job := w.s.jobs[j];
      if ReadsGroups(job) {
        ReadGoesOn(w, j);
      } else if job.Create? {
        CreateGoesOn(w, j, id);
      } else if job.phase.Listing? {
        ListGoesOn(w, j);
      } else {
        PatchGoesOn(w, j);
      }
    }
  }

  // ---- convergence cannot be escaped

  // The run takes a calm step wherever there is one.
  ghost predicate CalmRun(run: nat -> World) {
    forall n: nat :: CalmAt(run, n) || !CanGoOn(run(n))
  }

  ghost predicate IdLeft(s: State) {
    exists id: Uuid :: id !in s.stored
  }

  // From every reachable state, in whatever order calm steps are taken, a point comes at which nothing is outstanding and
  // every stored device carries exactly its owner's groups, the memberships being those at the beginning.
  lemma CalmConverges(past: seq<State>, run: nat -> World) returns (i: nat)
    requires IsRun(past) && run(0).s == past[|past| - 1] && ReadsEnd(run(0)) && CalmRun(run)
    requires forall n: nat :: IdLeft(run(n).s)
    ensures Quiescent(run(i).s) && run(i).s.member == run(0).s.member
    ensures forall id :: id in run(i).s.stored ==> Exact(run(i).s, id)
  {
    RunKeepsInv(past, |past| - 1);
    i := CalmEnds(run);
    if !Quiescent(run(i).s) {
      var id: Uuid :| id !in run(i).s.stored;
      UnrestGoesOn(run(i), id);
      assert false;
    }
    forall id | id in run(i).s.stored ensures Exact(run(i).s, id) { QuietIsExact(run(i).s, id); }
  }

  ghost function Follow(w: World, n: nat): World {
    if n == 0 then w
    else
      var u := Follow(w, n - 1);
      if CanGoOn(u) then var v :| Calm(u, v); v else u
  }

  // From every state there are such runs.
  lemma CalmRunFrom(s: State) returns (run: nat -> World)
    ensures run(0).s == s && ReadsEnd(run(0)) && CalmRun(run)
  {
    var w := World(s, map j | j in s.jobs :: 1);
    run := (n: nat) => Follow(w, n);
    forall n: nat ensures CalmAt(run, n) || !CanGoOn(run(n)) {
      assert run(n) == Follow(w, n) && run(n + 1) == Follow(w, n + 1);
    }
  }
}
