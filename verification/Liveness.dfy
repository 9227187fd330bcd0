// Device liveness polling (internal/server/device_liveness.go).

module Liveness {
  import opened Prelude
  import opened Pagination

  datatype DeviceStatus = Pending | Enrolled

  datatype DeviceConnectivity = Online | Offline

  datatype EnrollmentState = StatePending | StateEnrolled | StateUnrecognised

  datatype Device = Device(id: Uuid, identityId: Uuid, name: string, zitiIdentityId: string,
                           status: DeviceStatus, connectivity: DeviceConnectivity,
                           enrolledAt: Option<int>, lastSeenAt: Option<int>)

  // The answer of one liveness call.
  datatype Observation = CallFailed | Observed(state: EnrollmentState, hasEdgeRouterConnection: bool)

  type Rows = map<Uuid, Device>

  function DeviceConnectivityFromZiti(hasEdgeRouterConnection: bool): DeviceConnectivity {
    if hasEdgeRouterConnection then Online else Offline
  }

  function DeviceStatusFromZiti(state: EnrollmentState): Option<DeviceStatus> {
    match state
    case StatePending => Some(Pending)
    case StateEnrolled => Some(Enrolled)
    case StateUnrecognised => None
  }

  function NewDevice(id: Uuid, identityId: Uuid, name: string, zitiIdentityId: string): Device {
    Device(id, identityId, name, zitiIdentityId, Pending, Offline, None, None)
  }

  // The liveness columns the poller records for a device.
  function Recorded(device: Device, status: DeviceStatus, connectivity: DeviceConnectivity, now: int): Device {
    device.(status := status, connectivity := connectivity,
            enrolledAt := if device.enrolledAt.None? && status == Enrolled then Some(now) else device.enrolledAt,
            lastSeenAt := if connectivity == Online then Some(now) else device.lastSeenAt)
  }

  // UPDATE of the four liveness columns of one row; nothing happens when the row is gone.
  function WriteLiveness(rows: Rows, id: Uuid, values: Device): Rows {
    if id in rows then
      rows[id := rows[id].(status := values.status, connectivity := values.connectivity,
                           enrolledAt := values.enrolledAt, lastSeenAt := values.lastSeenAt)]
    else rows
  }

  // One poll of a listed device. With skip, an unchanged offline device is not written.
  function Polled(rows: Rows, device: Device, obs: Observation, now: int, fails: bool, skip: bool): Rows {
    if device.zitiIdentityId == "" || obs.CallFailed? || DeviceStatusFromZiti(obs.state).None? || fails then rows
    else
      var status := DeviceStatusFromZiti(obs.state).value;
      var connectivity := DeviceConnectivityFromZiti(obs.hasEdgeRouterConnection);
      if skip && status == device.status && connectivity == device.connectivity && connectivity == Offline then rows
      else WriteLiveness(rows, device.id, Recorded(device, status, connectivity, now))
  }

  // Offline before and after, with the status unchanged.
  predicate Unchanged(device: Device, obs: Observation) {
    && obs.Observed? && DeviceStatusFromZiti(obs.state) == Some(device.status)
    && device.connectivity == Offline && !obs.hasEdgeRouterConnection
  }

  class DeviceTable {
    var rows: Rows
    ghost var polls: multiset<Uuid>  // how often each device has been polled

    constructor ()
      ensures rows == map[] && polls == multiset{}
    {
      rows, polls := map[], multiset{};
    }

    method UpdateDeviceLiveness(id: Uuid, status: DeviceStatus, connectivity: DeviceConnectivity,
                                enrolledAt: Option<int>, lastSeenAt: Option<int>, fails: bool)
      returns (ok: bool)
      modifies this`rows
      ensures ok <==> !fails && id in old(rows)
      ensures !ok ==> rows == old(rows)
      ensures ok ==> rows == old(rows)[id := old(rows)[id].(
        status := status, connectivity := connectivity, enrolledAt := enrolledAt, lastSeenAt := lastSeenAt)]
    {
      if fails || id !in rows {
        return false;
      }
      rows := rows[id := rows[id].(
        status := status, connectivity := connectivity, enrolledAt := enrolledAt, lastSeenAt := lastSeenAt)];
      return true;
    }

    method PollDevice(device: Device, obs: Observation, now: int, fails: bool) returns (ok: bool)
      modifies this
      ensures rows == Polled(old(rows), device, obs, now, fails, true) && polls == old(polls) + multiset{device.id}
      ensures ok <==>
        || device.zitiIdentityId == ""
        || (&& obs.Observed? && DeviceStatusFromZiti(obs.state).Some?
            && (Unchanged(device, obs) || (!fails && device.id in old(rows))))
      // nothing is asked about a device without a Ziti identity
      ensures device.zitiIdentityId == "" ==> ok && rows == old(rows)
      // a call that fails, or a state nobody knows, changes nothing
      ensures device.zitiIdentityId != "" && (obs.CallFailed? || obs.state.StateUnrecognised?) ==> !ok && rows == old(rows)
      // what is known already, of a device that was and is offline, is not written
      ensures
        && device.zitiIdentityId != "" && obs == Observed(StateEnrolled, false)
        && device.status == Enrolled && device.connectivity == Offline
        ==> ok && rows == old(rows)
      ensures
        && device.zitiIdentityId != "" && obs == Observed(StatePending, false)
        && device.status == Pending && device.connectivity == Offline
        ==> ok && rows == old(rows)
      // everything else is, column by column
      ensures
        && device.zitiIdentityId != "" && obs.Observed? && !obs.state.StateUnrecognised?
        && (obs.hasEdgeRouterConnection || device.connectivity == Online || obs.state.StateEnrolled? != device.status.Enrolled?)
        ==>
        && (ok <==> !fails && device.id in old(rows))
        && (!ok ==> rows == old(rows))
        && (ok ==>
            && device.id in rows && rows == old(rows)[device.id := rows[device.id]]
            && var row, d := old(rows)[device.id], rows[device.id];
               && d.id == row.id && d.identityId == row.identityId && d.name == row.name
               && d.zitiIdentityId == row.zitiIdentityId
               && d.status == (if obs.state.StateEnrolled? then Enrolled else Pending)
               && d.connectivity == (if obs.hasEdgeRouterConnection then Online else Offline)
               && d.lastSeenAt == (if obs.hasEdgeRouterConnection then Some(now) else device.lastSeenAt)
               && d.enrolledAt == (if obs.state.StateEnrolled? && device.enrolledAt.None? then Some(now)
                                   else device.enrolledAt))
    {
      polls := polls + multiset{device.id};
      if device.zitiIdentityId == "" {
        return true;
      }
      if obs.CallFailed? {
        return false;
      }
      var status := DeviceStatusFromZiti(obs.state);
      if status.None? {
        return false;
      }
      var connectivity := DeviceConnectivityFromZiti(obs.hasEdgeRouterConnection);
      if status.value == device.status && connectivity == device.connectivity && connectivity == Offline {
        return true;
      }
      var enrolledAt := device.enrolledAt;
      if enrolledAt.None? && status.value == Enrolled {
        enrolledAt := Some(now);
      }
      var lastSeenAt := device.lastSeenAt;
      if connectivity == Online {
        lastSeenAt := Some(now);
      }
      ok := UpdateDeviceLiveness(device.id, status.value, connectivity, enrolledAt, lastSeenAt, fails);
    }

    // One pass: every user page by page, every device of each user. A user whose devices cannot be listed is passed
    // over, and a device whose poll fails does not stop the pass. clock gives the time each device is polled at.
    method PollDeviceLiveness(users: Table<string>, world: World) returns (ok: bool)
      requires Keyed(rows)
      modifies this
      ensures rows.Keys == old(rows.Keys) && Keyed(rows)
      ensures (forall n :: !world.userListFails(n)) ==> ok
      ensures forall id :: id in rows ==> rows[id] == old(rows)[id] || rows[id] == AfterPoll(old(rows)[id], world)
      ensures ok ==> forall id :: id in rows ==>
        rows[id] == Expected(old(rows)[id], Reached(old(rows)[id], users, None, world), world)
      ensures ok ==> PolledOnce(old(polls), polls, ReachedIds(old(rows), users, None, world))
      ensures forall id :: polls[id] <= old(polls)[id] + 1
    {
      var pageToken: Option<Uuid> := None;
      var queries := 0;
      ghost var before := rows;
      ghost var reached: set<Uuid> := {};
      while true
        invariant reached == if pageToken.Some? then ReachedIds(before, users, pageToken, world) else {}
        invariant PolledOnce(old(polls), polls, reached)
        invariant Keyed(rows) && rows == (if pageToken.Some? then AfterPass(before, users, pageToken, world) else before)
        decreases if pageToken.None? then UUID_LIMIT else UUID_LIMIT - 1 - pageToken.value
      {
        if world.userListFails(queries) {
          return false;
        }
        queries := queries + 1;
        var page, next := ListEntities(users, _ => true, pageToken, MAX_LIST_PAGE_SIZE);
        ghost var polled := rows;
        PollUsers(page, world);
        PageAdvances(before, polled, rows, users, page, pageToken, next, world);
        PageReachesIds(before, users, page, pageToken, next, world);
        reached := reached + OnPageIds(before, page, world);
        if next.None? {
          return true;
        }
        pageToken := next;
      }
    }

    method PollUsers(page: seq<Entity<string>>, world: World)
      requires Keyed(rows) && Increasing(page)
      modifies this
      ensures rows.Keys == old(rows.Keys) && Keyed(rows)
      ensures forall id :: id in rows ==>
        rows[id] == Expected(old(rows)[id], OnPage(old(rows)[id], page, world), world)
      ensures PolledOnce(old(polls), polls, OnPageIds(old(rows), page, world))
    {
      ghost var before := rows;
      NoUsersPolled(before, page, world);
      for i := 0 to |page|
        invariant Keyed(rows) && rows == AfterUsers(before, page[..i], world)
        invariant PolledOnce(old(polls), polls, OnPageIds(before, page[..i], world))
      {
        ghost var earlier := rows;
        if !world.deviceListFails(page[i].id) {
          PollUserDevices(page[i].id, world);
        }
        OneMoreUser(before, earlier, rows, page, i, world);
      }
      assert page[..|page|] == page;
    }

    // Listing one user's devices and polling each.
    method PollUserDevices(user: Uuid, world: World)
      requires Keyed(rows)
      modifies this
      ensures rows.Keys == old(rows.Keys) && Keyed(rows)
      ensures forall id :: id in rows ==>
        rows[id] == Expected(old(rows)[id], old(rows)[id].identityId == user, world)
      ensures PolledOnce(old(polls), polls, OwnedIds(old(rows), user))
    {
      var table := rows;
      var views: Views<Device> := _ => Some(table);
      var keep := (d: Device) => d.identityId == user;
      var devices, pages := Drain(views, keep, MAX_LIST_PAGE_SIZE);
      StableDrain(table, views, keep, pages, devices.value);
      ListedIds(table, user, devices.value);
      OnlyListed(table, user, devices.value);
      PollListed(devices.value, world);
      assert devices.value[..|devices.value|] == devices.value;
    }

    method PollListed(devices: seq<Entity<Device>>, world: World)
      requires Keyed(rows) && Increasing(devices)
      requires forall e :: e in devices ==> e.id in rows && e.value == rows[e.id]
      modifies this
      ensures PolledPrefix(old(rows), rows, old(polls), polls, devices, |devices|, world)
    {
      ghost var table := rows;
      NonePolled(rows, polls, devices, world);
      for i := 0 to |devices|
        invariant PolledPrefix(table, rows, old(polls), polls, devices, i, world)
      {
        var device := devices[i].value;
        assert devices[i] in devices;
        PollOneMore(table, rows, old(polls), polls, devices, i, world);
        var _ := PollDevice(device, world.obs(device.id), world.clock(device.id), world.updateFails(device.id));
      }
    }
  }

  // What a pass meets: the liveness answers, the time each device is polled, and the calls that fail.
  datatype World = World(obs: Uuid -> Observation, clock: Uuid -> int, updateFails: Uuid -> bool,
                         userListFails: nat -> bool, deviceListFails: Uuid -> bool)

  // Each of these devices was polled once more, and no other was.
  ghost predicate PolledOnce(before: multiset<Uuid>, after: multiset<Uuid>, ids: set<Uuid>) {
    forall id :: after[id] == before[id] + if id in ids then 1 else 0
  }

  ghost predicate Keyed(rows: Rows) {
    forall id :: id in rows ==> rows[id].id == id
  }

  // A device's row after one poll of it.
  ghost function AfterPoll(d: Device, world: World): Device {
    Polled(map[d.id := d], d, world.obs(d.id), world.clock(d.id), world.updateFails(d.id), true)[d.id]
  }

  ghost function Expected(d: Device, polled: bool, world: World): Device {
    if polled then AfterPoll(d, world) else d
  }

  // The pass up to this cursor, to the end when there is none, takes in the device's owner,
  // and the owner's devices could be listed.
  ghost predicate Reached(d: Device, users: Table<string>, cursor: Option<Uuid>, world: World) {
    && d.identityId in users && (cursor.None? || !Beyond(cursor, d.identityId))
    && !world.deviceListFails(d.identityId)
  }

  ghost predicate OnPage(d: Device, page: seq<Entity<string>>, world: World) {
    HasId(page, d.identityId) && !world.deviceListFails(d.identityId)
  }

  ghost function ReachedIds(rows: Rows, users: Table<string>, cursor: Option<Uuid>, world: World): set<Uuid> {
    set id | id in rows && Reached(rows[id], users, cursor, world)
  }

  ghost function OnPageIds(rows: Rows, page: seq<Entity<string>>, world: World): set<Uuid> {
    set id | id in rows && OnPage(rows[id], page, world)
  }

  // The rows once the pass has reached the cursor.
  ghost function AfterPass(before: Rows, users: Table<string>, cursor: Option<Uuid>, world: World): Rows
    requires Keyed(before)
  {
    map id | id in before :: Expected(before[id], Reached(before[id], users, cursor, world), world)
  }

  lemma PageAdvances(before: Rows, rows: Rows, after: Rows, users: Table<string>, page: seq<Entity<string>>,
                     cursor: Option<Uuid>, next: Option<Uuid>, world: World)
    requires Keyed(before) && IsPage(users, _ => true, cursor, MAX_LIST_PAGE_SIZE, page, next)
    requires rows == if cursor.Some? then AfterPass(before, users, cursor, world) else before
    requires after.Keys == rows.Keys
    requires forall id :: id in after ==> after[id] == Expected(rows[id], OnPage(rows[id], page, world), world)
    ensures after == AfterPass(before, users, next, world)
    ensures OnPageIds(rows, page, world) == OnPageIds(before, page, world)
  {
    forall id | id in rows
      ensures rows[id].identityId == before[id].identityId
      ensures after[id] == Expected(before[id], Reached(before[id], users, next, world), world)
    {
      PageReaches(users, page, cursor, next, before[id].identityId);
    }
    SameOwners(before, rows, page, world);
  }

  ghost function OwnedIds(rows: Rows, user: Uuid): set<Uuid> {
    set id | id in rows && rows[id].identityId == user
  }

  // The rows once the users of this part of a page have been taken.
  ghost function AfterUsers(before: Rows, page: seq<Entity<string>>, world: World): Rows
    requires Keyed(before)
  {
    map id | id in before :: Expected(before[id], OnPage(before[id], page, world), world)
  }

  lemma NoUsersPolled(before: Rows, page: seq<Entity<string>>, world: World)
    requires Keyed(before)
    ensures before == AfterUsers(before, page[..0], world) && OnPageIds(before, page[..0], world) == {}
  {}

  lemma OneMoreUser(before: Rows, rows: Rows, after: Rows, page: seq<Entity<string>>, i: nat, world: World)
    requires Keyed(before) && Increasing(page) && i < |page| && rows == AfterUsers(before, page[..i], world)
    requires after.Keys == rows.Keys
    requires forall id :: id in after ==>
      after[id] == Expected(rows[id], !world.deviceListFails(page[i].id) && rows[id].identityId == page[i].id, world)
    ensures after == AfterUsers(before, page[..i + 1], world)
    ensures var owned := if world.deviceListFails(page[i].id) then {} else OwnedIds(rows, page[i].id);
      && owned !! OnPageIds(before, page[..i], world)
      && OnPageIds(before, page[..i + 1], world) == OnPageIds(before, page[..i], world) + owned
  {
    PrefixIds(page, i);
    assert forall id :: id in before ==> rows[id].identityId == before[id].identityId;
  }

  // Polls leave the owners as they are.
  lemma SameOwners(before: Rows, after: Rows, page: seq<Entity<string>>, world: World)
    requires after.Keys == before.Keys && forall id :: id in after ==> after[id].identityId == before[id].identityId
    ensures OnPageIds(after, page, world) == OnPageIds(before, page, world)
  {}

  lemma PageReachesIds(rows: Rows, users: Table<string>, page: seq<Entity<string>>, cursor: Option<Uuid>,
                       next: Option<Uuid>, world: World)
    requires IsPage(users, _ => true, cursor, MAX_LIST_PAGE_SIZE, page, next)
    ensures var reached := if cursor.Some? then ReachedIds(rows, users, cursor, world) else {};
      && reached !! OnPageIds(rows, page, world)
      && reached + OnPageIds(rows, page, world) == ReachedIds(rows, users, next, world)
  {
    forall id | id in rows
      ensures id in OnPageIds(rows, page, world) ==> cursor.None? || !Reached(rows[id], users, cursor, world)
      ensures Reached(rows[id], users, next, world) <==>
        (cursor.Some? && Reached(rows[id], users, cursor, world)) || OnPage(rows[id], page, world)
    {
      PageReaches(users, page, cursor, next, rows[id].identityId);
    }
  }

  lemma PollIsLocal(rows: Rows, d: Device, world: World)
    requires d.id in rows && rows[d.id] == d
    ensures Polled(rows, d, world.obs(d.id), world.clock(d.id), world.updateFails(d.id), true)
      == rows[d.id := AfterPoll(d, world)]
  {}

  // The first i of the listed devices have been polled.
  ghost predicate PolledPrefix(before: Rows, after: Rows, polls: multiset<Uuid>, now: multiset<Uuid>,
                               items: seq<Entity<Device>>, i: nat, world: World)
    requires i <= |items|
  {
    && after.Keys == before.Keys && Keyed(after)
    && (forall id :: id in after ==> after[id] == Expected(before[id], HasId(items[..i], id), world))
    && (forall id :: now[id] == polls[id] + if HasId(items[..i], id) then 1 else 0)
  }

  lemma NonePolled(rows: Rows, polls: multiset<Uuid>, items: seq<Entity<Device>>, world: World)
    requires Keyed(rows)
    ensures PolledPrefix(rows, rows, polls, polls, items, 0, world)
  {}

  lemma PollOneMore(before: Rows, rows: Rows, polls: multiset<Uuid>, now: multiset<Uuid>, items: seq<Entity<Device>>,
                    i: nat, world: World)
    requires i < |items| && Increasing(items) && Keyed(before)
    requires items[i].id in before && items[i].value == before[items[i].id]
    requires PolledPrefix(before, rows, polls, now, items, i, world)
    ensures var d := items[i].value;
      PolledPrefix(before, Polled(rows, d, world.obs(d.id), world.clock(d.id), world.updateFails(d.id), true),
                   polls, now + multiset{d.id}, items, i + 1, world)
  {
    PrefixIds(items, i);
    PollIsLocal(rows, items[i].value, world);
  }

  lemma ListedIds(table: Rows, user: Uuid, items: seq<Entity<Device>>)
    requires forall e :: e in items <==> e.id in table && table[e.id].identityId == user && e.value == table[e.id]
    ensures forall id :: id in table ==> (HasId(items, id) <==> table[id].identityId == user)
  {
    forall id | id in table ensures HasId(items, id) <==> table[id].identityId == user {
      if table[id].identityId == user { assert Entity(id, table[id]) in items; }
      if HasId(items, id) {
        var i :| 0 <= i < |items| && items[i].id == id;
        assert items[i] in items;
      }
    }
  }

  lemma OnlyListed(table: Rows, user: Uuid, items: seq<Entity<Device>>)
    requires forall e :: e in items <==> e.id in table && table[e.id].identityId == user && e.value == table[e.id]
    ensures forall id :: HasId(items, id) ==> id in table
  {
    forall id | HasId(items, id) ensures id in table {
      var i :| 0 <= i < |items| && items[i].id == id;
      assert items[i] in items;
    }
  }

  lemma PrefixIds<T>(items: seq<Entity<T>>, i: nat)
    requires i < |items| && Increasing(items)
    ensures forall id :: HasId(items[..i + 1], id) <==> HasId(items[..i], id) || id == items[i].id
    ensures !HasId(items[..i], items[i].id)
  {
    forall id ensures HasId(items[..i + 1], id) <==> HasId(items[..i], id) || id == items[i].id {
      if HasId(items[..i], id) {
        var j :| 0 <= j < i && items[..i][j].id == id;
        assert items[..i + 1][j].id == id;
      }
      if id == items[i].id { assert items[..i + 1][i].id == id; }
      if HasId(items[..i + 1], id) {
        var j :| 0 <= j < i + 1 && items[..i + 1][j].id == id;
        if j < i { assert items[..i][j].id == id; }
      }
    }
  }

  // A page takes exactly the users between two cursors.
  lemma PageReaches(users: Table<string>, page: seq<Entity<string>>, cursor: Option<Uuid>, next: Option<Uuid>, user: Uuid)
    requires IsPage(users, _ => true, cursor, MAX_LIST_PAGE_SIZE, page, next)
    ensures HasId(page, user) <==> user in users && Beyond(cursor, user) && (next.None? || !Beyond(next, user))
    ensures next.Some? && !Beyond(cursor, user) ==> !Beyond(next, user)
  {
    if HasId(page, user) {
      var i :| 0 <= i < |page| && page[i].id == user;
      assert Matches(users, _ => true, user);
    } else if user in users && Beyond(cursor, user) {
      assert Matches(users, _ => true, user);
    }
    if next.Some? { assert Beyond(cursor, page[|page| - 1].id); }
  }

  // Exactly when skipping differs from writing: a row marked enrolled that never got its enrolment time.
  lemma SkipDiffersExactlyWhen(rows: Rows, device: Device, obs: Observation, now: int, fails: bool)
    requires device.id in rows ==> rows[device.id] == device
    ensures Polled(rows, device, obs, now, fails, true) == Polled(rows, device, obs, now, fails, false) <==>
      !(&& device.id in rows && !fails && device.zitiIdentityId != ""
        && obs == Observed(StateEnrolled, false)
        && device.status == Enrolled && device.connectivity == Offline && device.enrolledAt.None?)
  {
    if device.id in rows {
      var w := Polled(rows, device, obs, now, fails, false);
      assert w[device.id] == rows[device.id] ==> w == rows;
    }
  }

  // ---- whole runs: devices come and go while one poller lists users' devices and polls them one by one

  // listed holds the devices read from the table and not polled yet; used holds every id ever handed out.
  datatype State = State(rows: Rows, listed: Rows, used: set<Uuid>, clock: int)

  datatype Step =
    | Create(id: Uuid, identityId: Uuid, name: string, zitiIdentityId: string)
    | Delete(id: Uuid)
    | List(identityId: Uuid)
    | Poll(id: Uuid, obs: Observation, elapsed: nat, fails: bool)

  const INITIAL := State(map[], map[], {}, 0)

  function Apply(s: State, step: Step, skip: bool): State {
    match step
    case Create(id, identityId, name, ziti) =>
      if id in s.used then s
      else s.(rows := s.rows[id := NewDevice(id, identityId, name, ziti)], used := s.used + {id})
    case Delete(id) => s.(rows := s.rows - {id})
    case List(identityId) => s.(listed := map id | id in s.rows && s.rows[id].identityId == identityId :: s.rows[id])
    case Poll(id, obs, elapsed, fails) =>
      var now := s.clock + elapsed;
      if id !in s.listed then s.(clock := now)
      else s.(rows := Polled(s.rows, s.listed[id], obs, now, fails, skip), listed := s.listed - {id}, clock := now)
  }

  function Run(s: State, steps: seq<Step>, skip: bool): State
    decreases |steps|
  {
    if steps == [] then s else Run(Apply(s, steps[0], skip), steps[1..], skip)
  }

  ghost predicate TimesKnown(d: Device, clock: int) {
    && (d.status == Enrolled ==> d.enrolledAt.Some?)
    && (d.connectivity == Online ==> d.lastSeenAt.Some?)
    && (d.lastSeenAt.Some? ==> d.lastSeenAt.value <= clock)
  }

  ghost predicate Inv(s: State) {
    && s.rows.Keys <= s.used && s.listed.Keys <= s.used
    && (forall id :: id in s.rows ==> s.rows[id].id == id && TimesKnown(s.rows[id], s.clock))
    && (forall id :: id in s.listed ==> s.listed[id].id == id)
    && (forall id :: id in s.listed && id in s.rows ==> s.listed[id] == s.rows[id])
  }

  // What a later state keeps of an earlier one: enrolment times are written once, last-seen times only advance,
  // and an identifier that was gone stays gone.
  ghost predicate Advances(s: State, t: State) {
    && s.used <= t.used && s.clock <= t.clock
    && (forall id :: id in s.used && id in t.rows ==> id in s.rows)
    && forall id :: id in s.rows && id in t.rows ==>
      && (s.rows[id].enrolledAt.Some? ==> t.rows[id].enrolledAt == s.rows[id].enrolledAt)
      && (s.rows[id].lastSeenAt.Some? ==>
          t.rows[id].lastSeenAt.Some? && s.rows[id].lastSeenAt.value <= t.rows[id].lastSeenAt.value)
      && (s.rows[id].status == Enrolled ==> t.rows[id].enrolledAt.Some?)
  }

  lemma StepKeepsInv(s: State, step: Step)
    requires Inv(s)
    ensures Inv(Apply(s, step, true)) && Advances(s, Apply(s, step, true))
    ensures Apply(s, step, true) == Apply(s, step, false)
  {
    if step.Poll? && step.id in s.listed {
      PollKeepsInv(s, step);
      PollSkipsAlike(s, step);
    }
  }

  lemma PollSkipsAlike(s: State, step: Step)
    requires Inv(s) && step.Poll? && step.id in s.listed
    ensures Apply(s, step, true) == Apply(s, step, false)
  {
    SkipDiffersExactlyWhen(s.rows, s.listed[step.id], step.obs, s.clock + step.elapsed, step.fails);
  }

  lemma PollKeepsInv(s: State, step: Step)
    requires Inv(s) && step.Poll? && step.id in s.listed
    ensures Inv(Apply(s, step, true)) && Advances(s, Apply(s, step, true))
  {
    PollKeepsRow(s.rows, s.listed[step.id], step.obs, s.clock, s.clock + step.elapsed, step.fails);
    RowsKeepInv(s, Apply(s, step, true), step.id);
  }

  // What one row may become.
  ghost predicate RowAdvances(d: Device, e: Device) {
    && e.id == d.id
    && (d.enrolledAt.Some? ==> e.enrolledAt == d.enrolledAt)
    && (d.lastSeenAt.Some? ==> e.lastSeenAt.Some? && d.lastSeenAt.value <= e.lastSeenAt.value)
  }

  lemma RowsKeepInv(s: State, t: State, changed: Uuid)
    requires Inv(s) && t.rows.Keys == s.rows.Keys && t.used == s.used && s.clock <= t.clock
    requires t.listed == s.listed - {changed}
    requires forall id :: id in s.rows && id != changed ==> t.rows[id] == s.rows[id]
    requires changed in s.rows ==> RowAdvances(s.rows[changed], t.rows[changed]) && TimesKnown(t.rows[changed], t.clock)
    ensures Inv(t) && Advances(s, t)
  {}

  lemma PollKeepsRow(rows: Rows, device: Device, obs: Observation, clock: int, now: int, fails: bool)
    requires device.id in rows ==> rows[device.id] == device && TimesKnown(device, clock)
    requires clock <= now
    ensures var after := Polled(rows, device, obs, now, fails, true);
      && after.Keys == rows.Keys && (forall id :: id in rows && id != device.id ==> after[id] == rows[id])
      && (device.id in rows ==> TimesKnown(after[device.id], now) && RowAdvances(device, after[device.id]))
  {}

  lemma {:induction false} RunFrom(s: State, steps: seq<Step>)
    requires Inv(s)
    ensures Inv(Run(s, steps, true)) && Advances(s, Run(s, steps, true))
    ensures Run(s, steps, true) == Run(s, steps, false)
    decreases |steps|
  {
    if steps != [] {
      var t := Apply(s, steps[0], true);
      StepKeepsInv(s, steps[0]);
      RunFrom(t, steps[1..]);
      AdvancesTransitive(s, t, Run(t, steps[1..], true));
    }
  }

  lemma AdvancesTransitive(s: State, t: State, u: State)
    requires Inv(s) && Inv(t) && Advances(s, t) && Advances(t, u)
    ensures Advances(s, u)
  {
    forall id | id in s.used && id in u.rows ensures id in s.rows {
      assert id in t.used;
    }
    forall id | id in s.rows && id in u.rows ensures id in t.rows {
      assert id in t.used;
    }
  }

  // From freshly created devices on, the poller that skips leaves the table the always-writing poller leaves.
  lemma SkipRefinesAlwaysWrite(steps: seq<Step>)
    ensures Run(INITIAL, steps, true) == Run(INITIAL, steps, false)
    ensures forall id :: id in Run(INITIAL, steps, true).rows ==>
      var d := Run(INITIAL, steps, true).rows[id];
      (d.status == Enrolled ==> d.enrolledAt.Some?) && (d.connectivity == Online ==> d.lastSeenAt.Some?)
  {
    RunFrom(INITIAL, steps);
  }

  // Between any two points of a run, enrolment times do not change and last-seen times do not go back.
  lemma TimesOnlyAdvance(before: seq<Step>, after: seq<Step>)
    ensures Advances(Run(INITIAL, before, true), Run(Run(INITIAL, before, true), after, true))
  {
    RunFrom(INITIAL, before);
    RunFrom(Run(INITIAL, before, true), after);
  }

  // ---- when a device was last seen

  lemma {:induction false} RunSnoc(s: State, steps: seq<Step>, last: Step, skip: bool)
    ensures Run(s, steps + [last], skip) == Apply(Run(s, steps, skip), last, skip)
    decreases |steps|
  {
    if steps == [] {
      assert ([] + [last])[1..] == [];
    } else {
      assert (steps + [last])[1..] == steps[1..] + [last];
      RunSnoc(Apply(s, steps[0], skip), steps[1..], last, skip);
    }
  }

  ghost function At(steps: seq<Step>, i: nat): State
    requires i <= |steps|
  {
    Run(INITIAL, steps[..i], true)
  }

  ghost function ClockAfter(steps: seq<Step>, i: nat): int
    requires i < |steps|
  {
    Run(INITIAL, steps[..i + 1], true).clock
  }

  // Step i is a poll of the present device that finds it connected, and its result is written.
  ghost predicate OnlinePoll(steps: seq<Step>, i: nat, id: Uuid)
    requires i < |steps|
  {
    && steps[i].Poll? && steps[i].id == id && !steps[i].fails
    && steps[i].obs.Observed? && steps[i].obs.hasEdgeRouterConnection && !steps[i].obs.state.StateUnrecognised?
    && id in At(steps, i).listed && At(steps, i).listed[id].zitiIdentityId != "" && id in At(steps, i).rows
  }

  // Step i is a poll of the present device that finds it enrolled, and does not fail.
  ghost predicate EnrolledPoll(steps: seq<Step>, i: nat, id: Uuid)
    requires i < |steps|
  {
    && steps[i].Poll? && steps[i].id == id && !steps[i].fails
    && steps[i].obs.Observed? && steps[i].obs.state.StateEnrolled?
    && id in At(steps, i).listed && At(steps, i).listed[id].zitiIdentityId != "" && id in At(steps, i).rows
  }

  lemma PrefixAt(steps: seq<Step>, i: nat, id: Uuid)
    requires i < |steps|
    ensures var front := steps[..|steps| - 1];
      i < |front| ==>
        && At(steps, i) == At(front, i) && ClockAfter(steps, i) == ClockAfter(front, i)
        && (OnlinePoll(steps, i, id) <==> OnlinePoll(front, i, id))
        && (EnrolledPoll(steps, i, id) <==> EnrolledPoll(front, i, id))
  {
    var front := steps[..|steps| - 1];
    if i < |front| {
      assert steps[..i] == front[..i] && steps[..i + 1] == front[..i + 1];
    }
  }

  lemma LastStep(steps: seq<Step>)
    requires steps != []
    ensures var n := |steps|;
      && At(steps, n) == Apply(At(steps, n - 1), steps[n - 1], true)
      && At(steps[..n - 1], n - 1) == At(steps, n - 1) && Inv(At(steps, n - 1))
  {
    var n := |steps|;
    assert steps[..n] == steps[..n - 1] + [steps[n - 1]] && steps[..n - 1][..n - 1] == steps[..n - 1];
    RunSnoc(INITIAL, steps[..n - 1], steps[n - 1], true);
    RunFrom(INITIAL, steps[..n - 1]);
  }

  // A device not handed out yet was never there.
  lemma NeverThere(steps: seq<Step>, i: nat, id: Uuid)
    requires i <= |steps| && id !in At(steps, |steps|).used
    ensures id !in At(steps, i).rows
  {
    assert steps[..|steps|] == steps[..i] + steps[i..];
    RunAppend(INITIAL, steps[..i], steps[i..]);
    TimesOnlyAdvance(steps[..i], steps[i..]);
    RunFrom(INITIAL, steps[..i]);
  }

  lemma {:induction false} RunAppend(s: State, a: seq<Step>, b: seq<Step>)
    ensures Run(s, a + b, true) == Run(Run(s, a, true), b, true)
    decreases |a|
  {
    if a == [] {
      assert a + b == b;
    } else {
      assert (a + b)[1..] == a[1..] + b;
      RunAppend(Apply(s, a[0], true), a[1..], b);
    }
  }

  // What one step makes of a device's last-seen time.
  lemma StepLastSeen(steps: seq<Step>, id: Uuid)
    requires steps != [] && id in At(steps, |steps|).rows
    ensures var n := |steps|;
      var before, after := At(steps, n - 1), At(steps, n);
      && (OnlinePoll(steps, n - 1, id) ==> after.rows[id].lastSeenAt == Some(after.clock))
      && (!OnlinePoll(steps, n - 1, id) && id in before.rows ==>
          after.rows[id].lastSeenAt == before.rows[id].lastSeenAt)
      && (id !in before.rows ==> id !in before.used && after.rows[id].lastSeenAt.None?)
  {
    LastStep(steps);
  }

  lemma FrontPolls(steps: seq<Step>, id: Uuid)
    requires steps != []
    ensures var front := steps[..|steps| - 1];
      forall i :: 0 <= i < |front| ==>
        && ClockAfter(steps, i) == ClockAfter(front, i)
        && (OnlinePoll(steps, i, id) <==> OnlinePoll(front, i, id))
        && (EnrolledPoll(steps, i, id) <==> EnrolledPoll(front, i, id))
  {
    forall i | 0 <= i < |steps| - 1
      ensures ClockAfter(steps, i) == ClockAfter(steps[..|steps| - 1], i)
      ensures OnlinePoll(steps, i, id) <==> OnlinePoll(steps[..|steps| - 1], i, id)
      ensures EnrolledPoll(steps, i, id) <==> EnrolledPoll(steps[..|steps| - 1], i, id)
    {
      PrefixAt(steps, i, id);
    }
  }

  lemma NoPollsYet(steps: seq<Step>, id: Uuid)
    requires id !in At(steps, |steps|).used
    ensures forall i :: 0 <= i < |steps| ==> !OnlinePoll(steps, i, id) && !EnrolledPoll(steps, i, id)
  {
    forall i | 0 <= i < |steps| ensures !OnlinePoll(steps, i, id) && !EnrolledPoll(steps, i, id) {
      NeverThere(steps, i, id);
    }
  }

  // A device's last-seen time is the time of the last poll that found it online and was written; there is none exactly
  // when no poll was.
  lemma {:induction false} LastSeenIsLastOnlinePoll(steps: seq<Step>, id: Uuid)
    requires id in At(steps, |steps|).rows
    ensures var d := At(steps, |steps|).rows[id];
      && (d.lastSeenAt.None? <==> forall i :: 0 <= i < |steps| ==> !OnlinePoll(steps, i, id))
      && forall i ::
          (0 <= i < |steps| && OnlinePoll(steps, i, id) && forall j :: i < j < |steps| ==> !OnlinePoll(steps, j, id))
          ==> d.lastSeenAt == Some(ClockAfter(steps, i))
  {
    if steps != [] {
      var n := |steps|;
      var front := steps[..n - 1];
      StepLastSeen(steps, id);
      LastStep(steps);
      FrontPolls(steps, id);
      if id in At(front, n - 1).rows {
        LastSeenIsLastOnlinePoll(front, id);
      } else {
        NoPollsYet(front, id);
      }
    }
  }

  lemma StepEnrolled(steps: seq<Step>, id: Uuid)
    requires steps != [] && id in At(steps, |steps|).rows
    ensures var n := |steps|;
      var before, after := At(steps, n - 1), At(steps, n);
      && (EnrolledPoll(steps, n - 1, id) ==>
          after.rows[id].enrolledAt ==
            if before.rows[id].enrolledAt.None? then Some(after.clock) else before.rows[id].enrolledAt)
      && (!EnrolledPoll(steps, n - 1, id) && id in before.rows ==>
          after.rows[id].enrolledAt == before.rows[id].enrolledAt)
      && (id !in before.rows ==> id !in before.used && after.rows[id].enrolledAt.None?)
  {
    LastStep(steps);
  }

  // A device's enrolment time is the time of the first poll that found it enrolled; there is none exactly when none did.
  lemma {:induction false} EnrolledAtIsFirstEnrolledPoll(steps: seq<Step>, id: Uuid)
    requires id in At(steps, |steps|).rows
    ensures var d := At(steps, |steps|).rows[id];
      && (d.enrolledAt.None? <==> forall i :: 0 <= i < |steps| ==> !EnrolledPoll(steps, i, id))
      && forall i ::
          (0 <= i < |steps| && EnrolledPoll(steps, i, id) && forall j :: 0 <= j < i ==> !EnrolledPoll(steps, j, id))
          ==> d.enrolledAt == Some(ClockAfter(steps, i))
  {
    if steps != [] {
      var n := |steps|;
      var front := steps[..n - 1];
      StepEnrolled(steps, id);
      LastStep(steps);
      FrontPolls(steps, id);
      if id in At(front, n - 1).rows {
        EnrolledAtIsFirstEnrolledPoll(front, id);
      } else {
        NoPollsYet(front, id);
      }
    }
  }
}
