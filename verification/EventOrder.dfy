// Order and duplication of membership events do not matter (internal/server/group_sync.go).

module EventOrder {
  import opened Prelude
  import opened GroupAttributes
  import PageToken
  import GroupSync
  import SyncProtocol

  // What one device sees: an added or removed event naming a group, or a reconciliation pass. patched tells whether
  // the job got as far as this device's patch; a job that failed earlier leaves the device alone.
  datatype Op = Handle(group: string, patched: bool) | Reconcile(patched: bool)

  // The event's group when it is no longer held.
  function Removal(op: Op, held: set<string>): set<string> {
    if op.Handle? && op.group != "" && op.group !in held then {GroupRoleAttribute(op.group)} else {}
  }

  function Apply(attributes: set<string>, held: set<string>, op: Op): set<string> {
    if op.patched then Patched(attributes, AttributesOf(held), Removal(op, held)) else attributes
  }

  function ApplyAll(attributes: set<string>, held: set<string>, ops: seq<Op>): set<string> {
    if ops == [] then attributes
    else Apply(ApplyAll(attributes, held, ops[..|ops| - 1]), held, ops[|ops| - 1])
  }

  // The groups named by the events that reached the device.
  ghost function Named(ops: seq<Op>): set<string> {
    set i | 0 <= i < |ops| && ops[i].Handle? && ops[i].patched && ops[i].group != "" :: ops[i].group
  }

  // The removals here are those the server computes for the event's hint, and those of the protocol's patch step.
  lemma RemovalIsStaleHint(user: Uuid, group: string, held: set<string>)
    ensures Removal(Handle(group, true), held) == GroupSync.Stale(GroupSync.Hint(group), AttributesOf(held))
    ensures Removal(Handle(group, true), held) ==
      SyncProtocol.ToRemove(SyncProtocol.Delivery(SyncProtocol.Membership(user, group)), held)
  {
    AttributeOfGroup(group, held);
    var stale := GroupSync.Stale(GroupSync.Hint(group), AttributesOf(held));
    if group != "" {
      assert GroupRoleAttribute(group) in GroupSync.Hint(group);
      assert GroupRoleAttribute(group)[0] == 'g';
      assert stale == Removal(Handle(group, true), held);
    }
  }

  // Add and Remove never overlap, so the identity service may apply them in either order.
  lemma AddAndRemoveDisjoint(attributes: set<string>, held: set<string>, op: Op)
    ensures AttributesOf(held) !! Removal(op, held)
    ensures Patched(attributes, AttributesOf(held), Removal(op, held))
      == (attributes + AttributesOf(held)) - Removal(op, held)
  {
    if op.Handle? { AttributeOfGroup(op.group, held); }
  }

  // While the user's groups stay the same, any sequence of events and passes, at least one reaching the device, takes
  // its attributes to the desired ones plus the old ones, less those named and no longer held.
  lemma {:induction false} OpsResult(attributes: set<string>, held: set<string>, ops: seq<Op>)
    requires exists i :: 0 <= i < |ops| && ops[i].patched
    ensures ApplyAll(attributes, held, ops) ==
      (attributes + AttributesOf(held)) - AttributesOf(Named(ops) - held)
  {
    var front, last := ops[..|ops| - 1], ops[|ops| - 1];
    AddAndRemoveDisjoint(ApplyAll(attributes, held, front), held, last);
    NamedDisjoint(held, Named(ops) - held);
    NamedSplit(held, ops);
    if exists i :: 0 <= i < |front| && front[i].patched {
      OpsResult(attributes, held, front);
      assert Named(front) - held <= Named(ops) - held;
    } else {
      assert last.patched;
      NothingReached(attributes, held, front);
    }
  }

  lemma NamedDisjoint(held: set<string>, others: set<string>)
    requires held !! others
    ensures AttributesOf(held) !! AttributesOf(others)
  {
    forall a | a in AttributesOf(held) ensures a !in AttributesOf(others) {
      var g :| g in held && a == GroupRoleAttribute(g);
      AttributeOfGroup(g, others);
    }
  }

  lemma NamedSplit(held: set<string>, ops: seq<Op>)
    requires ops != []
    ensures var front, last := ops[..|ops| - 1], ops[|ops| - 1];
      && AttributesOf(Named(ops) - held) ==
          AttributesOf(Named(front) - held) + (if last.patched then Removal(last, held) else {})
      && (!last.patched ==> Named(ops) == Named(front))
  {
    var front, last := ops[..|ops| - 1], ops[|ops| - 1];
    var own := if last.Handle? && last.patched && last.group != "" then {last.group} else {};
    assert Named(ops) == Named(front) + own by {
      forall g | g in Named(front) ensures g in Named(ops) {
        var i :| 0 <= i < |front| && front[i].Handle? && front[i].patched && front[i].group != "" && front[i].group == g;
        assert ops[i] == front[i];
      }
      forall g | g in Named(ops) ensures g in Named(front) + own {
        var i :| 0 <= i < |ops| && ops[i].Handle? && ops[i].patched && ops[i].group != "" && ops[i].group == g;
        if i < |front| { assert front[i] == ops[i]; }
      }
    }
    assert Named(ops) - held == (Named(front) - held) + (own - held);
  }

  lemma {:induction false} NothingReached(attributes: set<string>, held: set<string>, ops: seq<Op>)
    requires forall i :: 0 <= i < |ops| ==> !ops[i].patched
    ensures ApplyAll(attributes, held, ops) == attributes && Named(ops) == {}
  {
    if ops != [] { NothingReached(attributes, held, ops[..|ops| - 1]); }
  }

  // Reordering, repeating, and interleaving with reconciliation change nothing: only the groups named count.
  lemma OrderAndDuplicatesDoNotMatter(attributes: set<string>, held: set<string>, ops: seq<Op>, others: seq<Op>)
    requires exists i :: 0 <= i < |ops| && ops[i].patched
    requires exists i :: 0 <= i < |others| && others[i].patched
    requires Named(ops) == Named(others)
    ensures ApplyAll(attributes, held, ops) == ApplyAll(attributes, held, others)
  {
    OpsResult(attributes, held, ops);
    OpsResult(attributes, held, others);
  }

  // ---- what the server's requests do to a device

  // A membership message, or one user's turn in a reconciliation pass.
  datatype Request =
    | Event(subject: string, payload: Option<GroupSync.Payload>, faults: GroupSync.Faults)
    | Turn(user: Uuid, faults: GroupSync.Faults)

  predicate Concerns(request: Request, user: Uuid) {
    match request
    case Event(subject, payload, _) =>
      && (subject == "agyn.groups.membership.added" || subject == "agyn.groups.membership.removed")
      && payload.Some? && payload.value.memberIsUser && PageToken.ParseUuid(payload.value.memberId) == Some(user)
    case Turn(u, _) => u == user
  }

  // op is what a device of the user sees of the request: a request that succeeded has reached it.
  predicate Sees(op: Op, request: Request, ok: bool, user: Uuid) {
    && (op.patched ==> Concerns(request, user))
    && (ok && Concerns(request, user) ==> op.patched)
    && (Concerns(request, user) ==>
        if request.Event? then op.Handle? && op.group == request.payload.value.groupId else op.Reconcile?)
  }

  ghost predicate SeesAll(ops: seq<Op>, requests: seq<Request>, oks: seq<bool>, user: Uuid)
    requires |requests| == |oks|
  {
    |ops| == |requests| && forall i :: 0 <= i < |ops| ==> Sees(ops[i], requests[i], oks[i], user)
  }

  // The device's attributes went from before to after as one of its histories says.
  ghost predicate Explained(before: set<string>, after: set<string>, held: set<string>, requests: seq<Request>,
                            oks: seq<bool>, user: Uuid)
    requires |requests| == |oks|
  {
    exists ops :: SeesAll(ops, requests, oks, user) && after == ApplyAll(before, held, ops)
  }

  lemma SeesOneMore(ops: seq<Op>, op: Op, requests: seq<Request>, request: Request, oks: seq<bool>, ok: bool, user: Uuid)
    requires |requests| == |oks| && SeesAll(ops, requests, oks, user) && Sees(op, request, ok, user)
    ensures SeesAll(ops + [op], requests + [request], oks + [ok], user)
  {}

  lemma ExplainedOneMore(before: set<string>, middle: set<string>, held: set<string>, requests: seq<Request>,
                         oks: seq<bool>, user: Uuid, request: Request, ok: bool, op: Op)
    requires |requests| == |oks| && Explained(before, middle, held, requests, oks, user) && Sees(op, request, ok, user)
    ensures Explained(before, Apply(middle, held, op), held, requests + [request], oks + [ok], user)
  {
    var ops :| SeesAll(ops, requests, oks, user) && middle == ApplyAll(before, held, ops);
    SeesOneMore(ops, op, requests, request, oks, ok, user);
    ApplyOneMore(before, held, ops, op);
  }

  lemma ApplyOneMore(attributes: set<string>, held: set<string>, ops: seq<Op>, op: Op)
    ensures ApplyAll(attributes, held, ops + [op]) == Apply(ApplyAll(attributes, held, ops), held, op)
  {
    assert (ops + [op])[..|ops|] == ops;
  }

  // What one request does to a device of the user.
  ghost predicate Reached(before: set<string>, after: set<string>, held: set<string>, user: Uuid, request: Request, ok: bool)
  {
    if !Concerns(request, user) then after == before
    else
      var hint := if request.Event? then GroupSync.Hint(request.payload.value.groupId) else [];
      || (after == before && !ok)
      || after == Patched(before, AttributesOf(held), GroupSync.Stale(hint, AttributesOf(held)))
  }

  lemma RequestExplained(before: set<string>, middle: set<string>, after: set<string>, held: set<string>,
                         requests: seq<Request>, oks: seq<bool>, user: Uuid, request: Request, ok: bool)
    requires |requests| == |oks| && Explained(before, middle, held, requests, oks, user)
    requires Reached(middle, after, held, user, request, ok)
    ensures Explained(before, after, held, requests + [request], oks + [ok], user)
  {
    if !Concerns(request, user) {
      ExplainedOneMore(before, middle, held, requests, oks, user, request, ok, Reconcile(false));
    } else {
      var op := if request.Event? then Handle(request.payload.value.groupId, after != middle || ok)
                else Reconcile(after != middle || ok);
      if request.Event? { RemovalIsStaleHint(user, op.group, held); }
      assert Removal(op, held) == if op.Handle? then Removal(Handle(op.group, true), held) else {};
      ExplainedOneMore(before, middle, held, requests, oks, user, request, ok, op);
    }
  }

  ghost function Held(services: GroupSync.Services, rank: (Uuid, Uuid, string) -> nat, user: Uuid): set<string>
    requires GroupSync.PagesEnd(services, rank)
  {
    var reported := GroupSync.Reported(services, rank, user);
    if reported.Some? then reported.value else {}
  }

  // No two device rows share an identity.
  ghost predicate Unshared(directory: GroupSync.Directory)
    reads directory`devices
  {
    forall i, k ::
      (&& i in directory.devices && k in directory.devices
       && directory.devices[i].zitiIdentityId == directory.devices[k].zitiIdentityId)
      ==> i == k
  }

  ghost predicate AllExplained(directory: GroupSync.Directory, services: GroupSync.Services,
                               rank: (Uuid, Uuid, string) -> nat, before: map<string, set<string>>,
                               requests: seq<Request>, oks: seq<bool>)
    requires GroupSync.PagesEnd(services, rank) && |requests| == |oks|
    reads directory
  {
    && directory.attrs.Keys == before.Keys
    && forall user, z :: directory.OwnsIdentity(user, z) && z in before ==>
        Explained(before[z], directory.attrs[z], Held(services, rank, user), requests, oks, user)
  }

  method ServeOne(directory: GroupSync.Directory, services: GroupSync.Services,
                  ghost rank: (Uuid, Uuid, string) -> nat, request: Request)
    returns (ok: bool)
    requires GroupSync.PagesEnd(services, rank) && Unshared(directory)
    modifies directory`attrs
    ensures directory.attrs.Keys == old(directory.attrs.Keys)
    ensures forall user, z :: directory.OwnsIdentity(user, z) && z in directory.attrs ==>
      Reached(old(directory.attrs)[z], directory.attrs[z], Held(services, rank, user), user, request, ok)
  {
    match request {
      case Event(subject, payload, faults) =>
        ok := directory.HandleGroupMembershipEvent(services, rank, subject, payload, faults);
      case Turn(user, faults) =>
        ok := directory.ReconcileUser(services, rank, user, faults);
    }
  }

  // Any sequence of messages and passes, failing wherever they may, acts on each device as a history of its own.
  method ServeRequests(directory: GroupSync.Directory, services: GroupSync.Services,
                       ghost rank: (Uuid, Uuid, string) -> nat, requests: seq<Request>)
    returns (oks: seq<bool>)
    requires GroupSync.PagesEnd(services, rank) && Unshared(directory)
    modifies directory`attrs
    ensures |oks| == |requests|
    ensures AllExplained(directory, services, rank, old(directory.attrs), requests, oks)
  {
    oks := [];
    NothingServed(directory, services, rank);
    for i := 0 to |requests|
      invariant |oks| == i
      invariant AllExplained(directory, services, rank, old(directory.attrs), requests[..i], oks)
    {
      ghost var before, middle := old(directory.attrs), directory.attrs;
      var ok := ServeOne(directory, services, rank, requests[i]);
      forall user, z | directory.OwnsIdentity(user, z) && z in before
        ensures Explained(before[z], directory.attrs[z], Held(services, rank, user), requests[..i] + [requests[i]],
                          oks + [ok], user)
      {
        RequestExplained(before[z], middle[z], directory.attrs[z], Held(services, rank, user), requests[..i], oks, user,
                         requests[i], ok);
      }
      assert requests[..i + 1] == requests[..i] + [requests[i]];
      oks := oks + [ok];
    }
    assert requests[..|requests|] == requests;
  }

  lemma NothingServed(directory: GroupSync.Directory, services: GroupSync.Services, rank: (Uuid, Uuid, string) -> nat)
    requires GroupSync.PagesEnd(services, rank)
    ensures AllExplained(directory, services, rank, directory.attrs, [], [])
  {
    forall user, z | directory.OwnsIdentity(user, z) && z in directory.attrs
      ensures Explained(directory.attrs[z], directory.attrs[z], Held(services, rank, user), [], [], user)
    {
      assert SeesAll([], [], [], user) && ApplyAll(directory.attrs[z], Held(services, rank, user), []) == directory.attrs[z];
    }
  }

  // The groups the user's events name.
  ghost function NamedBy(requests: seq<Request>, user: Uuid): set<string> {
    set i | 0 <= i < |requests| && requests[i].Event? && Concerns(requests[i], user)
      && requests[i].payload.value.groupId != "" :: requests[i].payload.value.groupId
  }

  // When every request succeeded and one concerned the owner, only the groups named and held count.
  lemma AllServed(before: set<string>, after: set<string>, held: set<string>, requests: seq<Request>, oks: seq<bool>,
                  user: Uuid)
    requires |requests| == |oks| && Explained(before, after, held, requests, oks, user)
    requires forall i :: 0 <= i < |oks| ==> oks[i]
    requires exists i :: 0 <= i < |requests| && Concerns(requests[i], user)
    ensures after == (before + AttributesOf(held)) - AttributesOf(NamedBy(requests, user) - held)
  {
    var ops :| SeesAll(ops, requests, oks, user) && after == ApplyAll(before, held, ops);
    SeenNames(ops, requests, oks, user);
    var i :| 0 <= i < |requests| && Concerns(requests[i], user);
    assert Sees(ops[i], requests[i], oks[i], user);
    OpsResult(before, held, ops);
  }

  lemma SeenNames(ops: seq<Op>, requests: seq<Request>, oks: seq<bool>, user: Uuid)
    requires |requests| == |oks| && SeesAll(ops, requests, oks, user)
    requires forall i :: 0 <= i < |oks| ==> oks[i]
    ensures Named(ops) == NamedBy(requests, user)
  {
    forall g | g in Named(ops) ensures g in NamedBy(requests, user) {
      var i :| 0 <= i < |ops| && ops[i].Handle? && ops[i].patched && ops[i].group != "" && ops[i].group == g;
      assert Sees(ops[i], requests[i], oks[i], user);
    }
    forall g | g in NamedBy(requests, user) ensures g in Named(ops) {
      var i :| 0 <= i < |requests| && requests[i].Event? && Concerns(requests[i], user)
        && requests[i].payload.value.groupId != "" && requests[i].payload.value.groupId == g;
      assert Sees(ops[i], requests[i], oks[i], user);
    }
  }
}
