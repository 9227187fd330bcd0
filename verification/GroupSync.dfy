// Group-role synchronisation as the server runs it (internal/server/group_sync.go).

module GroupSync {
  import opened Prelude
  import opened GroupAttributes
  import opened Positional
  import opened SortedStrings
  import opened Pagination
  import PageToken

  const ORGANIZATION_OBJECT_PREFIX := "organization:"
  const MEMBERSHIP_ADDED := "agyn.groups.membership.added"
  const MEMBERSHIP_REMOVED := "agyn.groups.membership.removed"

  datatype GroupPage = GroupPage(groups: seq<string>, nextPageToken: string)

  // What the authorization and groups services answer about a user while a job runs; None is a failed call.
  // The server may run without a groups client.
  datatype Services = Services(
    hasGroupsClient: bool,
    objects: Uuid -> Option<seq<string>>,
    memberGroups: (Uuid, Uuid, string) -> Option<GroupPage>)

  // Following page tokens ends, for every user and organization.
  ghost predicate PagesEnd(services: Services, rank: (Uuid, Uuid, string) -> nat) {
    forall user, org, token ::
      services.memberGroups(user, org, token).Some? && services.memberGroups(user, org, token).value.nextPageToken != "" ==>
        rank(user, org, services.memberGroups(user, org, token).value.nextPageToken) < rank(user, org, token)
  }

  // ---- what the services report

  function OrganizationOf(name: string): Option<Uuid> {
    if ORGANIZATION_OBJECT_PREFIX <= name then PageToken.ParseUuid(name[|ORGANIZATION_OBJECT_PREFIX|..]) else None
  }

  ghost function PagedGroups(services: Services, rank: (Uuid, Uuid, string) -> nat, user: Uuid, org: Uuid, token: string):
    Option<seq<string>>
    requires PagesEnd(services, rank)
    decreases rank(user, org, token)
  {
    var page := services.memberGroups(user, org, token);
    if page.None? then None
    else if page.value.nextPageToken == "" then Some(page.value.groups)
    else
      var rest := PagedGroups(services, rank, user, org, page.value.nextPageToken);
      if rest.None? then None else Some(page.value.groups + rest.value)
  }

  ghost function GroupsIn(services: Services, rank: (Uuid, Uuid, string) -> nat, user: Uuid, objects: seq<string>):
    Option<seq<string>>
    requires PagesEnd(services, rank)
  {
    if objects == [] then Some([])
    else
      var before := GroupsIn(services, rank, user, objects[..|objects| - 1]);
      var org := OrganizationOf(objects[|objects| - 1]);
      if before.None? || org.None? then None
      else
        var groups := PagedGroups(services, rank, user, org.value, "");
        if groups.None? then None else Some(before.value + groups.value)
  }

  // The groups reported for the user over all pages of all organizations; None when a call fails, an organization
  // object is malformed or a group has no id.
  ghost function Reported(services: Services, rank: (Uuid, Uuid, string) -> nat, user: Uuid): Option<set<string>>
    requires PagesEnd(services, rank)
  {
    if !services.hasGroupsClient then Some({})
    else if services.objects(user).None? then None
    else
      var groups := GroupsIn(services, rank, user, services.objects(user).value);
      if groups.None? || "" in groups.value then None else Some(Elements(groups.value))
  }

  // ---- the reported groups in terms of the services' answers alone

  // The pages of one organization from a token on: each page names the next.
  ghost predicate IsTokenPath(services: Services, user: Uuid, org: Uuid, token: string, tokens: seq<string>) {
    && tokens != [] && tokens[0] == token
    && forall i :: 0 <= i < |tokens| - 1 ==>
        && services.memberGroups(user, org, tokens[i]).Some?
        && tokens[i + 1] == services.memberGroups(user, org, tokens[i]).value.nextPageToken != ""
  }

  ghost function LastPage(services: Services, user: Uuid, org: Uuid, tokens: seq<string>): Option<GroupPage>
    requires tokens != []
  {
    services.memberGroups(user, org, tokens[|tokens| - 1])
  }

  // Some page reached from the token lists the group, or cannot be had.
  ghost predicate Listed(services: Services, user: Uuid, org: Uuid, token: string, g: string) {
    exists tokens ::
      && IsTokenPath(services, user, org, token, tokens) && LastPage(services, user, org, tokens).Some?
      && g in LastPage(services, user, org, tokens).value.groups
  }

  ghost predicate PageFails(services: Services, user: Uuid, org: Uuid, token: string) {
    exists tokens :: IsTokenPath(services, user, org, token, tokens) && LastPage(services, user, org, tokens).None?
  }

  // The same for all the organizations of the user, from the first page on.
  ghost predicate ListedFor(services: Services, user: Uuid, objects: seq<string>, g: string) {
    exists o :: o in objects && OrganizationOf(o).Some? && Listed(services, user, OrganizationOf(o).value, "", g)
  }

  ghost predicate CannotList(services: Services, user: Uuid, objects: seq<string>) {
    exists o :: o in objects && (OrganizationOf(o).None? || PageFails(services, user, OrganizationOf(o).value, ""))
  }

  lemma PathTail(services: Services, user: Uuid, org: Uuid, token: string, tokens: seq<string>)
    requires IsTokenPath(services, user, org, token, tokens) && |tokens| > 1
    ensures services.memberGroups(user, org, token).Some?
    ensures var next := services.memberGroups(user, org, token).value.nextPageToken;
      && next != "" && IsTokenPath(services, user, org, next, tokens[1..])
      && LastPage(services, user, org, tokens[1..]) == LastPage(services, user, org, tokens)
  {}

  lemma PathCons(services: Services, user: Uuid, org: Uuid, token: string, tokens: seq<string>)
    requires services.memberGroups(user, org, token).Some?
    requires var next := services.memberGroups(user, org, token).value.nextPageToken;
      next != "" && IsTokenPath(services, user, org, next, tokens)
    ensures IsTokenPath(services, user, org, token, [token] + tokens)
    ensures LastPage(services, user, org, [token] + tokens) == LastPage(services, user, org, tokens)
  {
    var path := [token] + tokens;
    forall i | 0 <= i < |path| - 1
      ensures services.memberGroups(user, org, path[i]).Some?
      ensures path[i + 1] == services.memberGroups(user, org, path[i]).value.nextPageToken != ""
    {
      if i > 0 { assert path[i] == tokens[i - 1] && path[i + 1] == tokens[i]; }
    }
  }

  // One page on.
  lemma ListedStep(services: Services, user: Uuid, org: Uuid, token: string, g: string)
    ensures var page := services.memberGroups(user, org, token);
      Listed(services, user, org, token, g) <==>
        && page.Some?
        && (g in page.value.groups
            || (page.value.nextPageToken != "" && Listed(services, user, org, page.value.nextPageToken, g)))
  {
    var page := services.memberGroups(user, org, token);
    if Listed(services, user, org, token, g) {
      var tokens :| IsTokenPath(services, user, org, token, tokens) && LastPage(services, user, org, tokens).Some?
        && g in LastPage(services, user, org, tokens).value.groups;
      if |tokens| > 1 { PathTail(services, user, org, token, tokens); }
    }
    if page.Some? && g in page.value.groups {
      assert IsTokenPath(services, user, org, token, [token]);
    }
    if page.Some? && page.value.nextPageToken != "" && Listed(services, user, org, page.value.nextPageToken, g) {
      var tokens :| IsTokenPath(services, user, org, page.value.nextPageToken, tokens)
        && LastPage(services, user, org, tokens).Some? && g in LastPage(services, user, org, tokens).value.groups;
      PathCons(services, user, org, token, tokens);
    }
  }

  lemma FailsStep(services: Services, user: Uuid, org: Uuid, token: string)
    ensures var page := services.memberGroups(user, org, token);
      PageFails(services, user, org, token) <==>
        page.None? || (page.value.nextPageToken != "" && PageFails(services, user, org, page.value.nextPageToken))
  {
    var page := services.memberGroups(user, org, token);
    if PageFails(services, user, org, token) {
      var tokens :| IsTokenPath(services, user, org, token, tokens) && LastPage(services, user, org, tokens).None?;
      if |tokens| > 1 { PathTail(services, user, org, token, tokens); }
    }
    if page.None? {
      assert IsTokenPath(services, user, org, token, [token]);
    } else if page.value.nextPageToken != "" && PageFails(services, user, org, page.value.nextPageToken) {
      var tokens :| IsTokenPath(services, user, org, page.value.nextPageToken, tokens)
        && LastPage(services, user, org, tokens).None?;
      PathCons(services, user, org, token, tokens);
    }
  }

  lemma {:induction false} PagedMeans(services: Services, rank: (Uuid, Uuid, string) -> nat, user: Uuid, org: Uuid,
                                      token: string)
    requires PagesEnd(services, rank)
    ensures var paged := PagedGroups(services, rank, user, org, token);
      && (paged.None? <==> PageFails(services, user, org, token))
      && (paged.Some? ==> forall g :: g in paged.value <==> Listed(services, user, org, token, g))
    decreases rank(user, org, token)
  {
    FailsStep(services, user, org, token);
    var page := services.memberGroups(user, org, token);
    if page.Some? && page.value.nextPageToken != "" {
      PagedMeans(services, rank, user, org, page.value.nextPageToken);
    }
    forall g ensures Listed(services, user, org, token, g) <==>
      && page.Some?
      && (g in page.value.groups
          || (page.value.nextPageToken != "" && Listed(services, user, org, page.value.nextPageToken, g)))
    {
      ListedStep(services, user, org, token, g);
    }
  }

  lemma {:induction false} GroupsInMeans(services: Services, rank: (Uuid, Uuid, string) -> nat, user: Uuid,
                                         objects: seq<string>)
    requires PagesEnd(services, rank)
    ensures var groups := GroupsIn(services, rank, user, objects);
      && (groups.None? <==> CannotList(services, user, objects))
      && (groups.Some? ==> forall g :: g in groups.value <==> ListedFor(services, user, objects, g))
  {
    if objects != [] {
      var front, last := objects[..|objects| - 1], objects[|objects| - 1];
      GroupsInMeans(services, rank, user, front);
      assert forall o :: o in objects <==> o in front || o == last;
      if OrganizationOf(last).Some? { PagedMeans(services, rank, user, OrganizationOf(last).value, ""); }
    }
  }

  // An answer about the user's attributes: without a groups client there are none. It fails exactly when the objects
  // cannot be listed, one is malformed, a page fails or a listed group has no id. Otherwise it has the attributes of
  // exactly the groups that some page of some organization of the user lists.
  ghost predicate AsListed(services: Services, user: Uuid, r: Option<seq<string>>) {
    if !services.hasGroupsClient then r == Some([])
    else
      && (r.None? <==>
          || services.objects(user).None?
          || CannotList(services, user, services.objects(user).value)
          || ListedFor(services, user, services.objects(user).value, ""))
      && (r.Some? ==> forall a :: a in r.value <==>
            exists g :: ListedFor(services, user, services.objects(user).value, g) && a == "group-" + g)
  }

  lemma ReportedMeans(services: Services, rank: (Uuid, Uuid, string) -> nat, user: Uuid)
    requires PagesEnd(services, rank) && services.hasGroupsClient
    ensures var reported := Reported(services, rank, user);
      && (reported.None? <==>
          || services.objects(user).None?
          || CannotList(services, user, services.objects(user).value)
          || ListedFor(services, user, services.objects(user).value, ""))
      && (reported.Some? ==>
          forall g :: g in reported.value <==> ListedFor(services, user, services.objects(user).value, g))
  {
    if services.objects(user).Some? {
      GroupsInMeans(services, rank, user, services.objects(user).value);
    }
  }

  lemma AttributesAsListed(services: Services, rank: (Uuid, Uuid, string) -> nat, user: Uuid, r: Option<seq<string>>)
    requires PagesEnd(services, rank)
    requires r.None? <==> Reported(services, rank, user).None?
    requires r.Some? ==> Elements(r.value) == AttributesOf(Reported(services, rank, user).value)
    requires !services.hasGroupsClient ==> r == Some([])
    ensures AsListed(services, user, r)
  {
    if services.hasGroupsClient {
      ReportedMeans(services, rank, user);
      if r.Some? {
        forall a
          ensures a in r.value <==>
            exists g :: ListedFor(services, user, services.objects(user).value, g) && a == "group-" + g
        {
          assert a in r.value <==> a in Elements(r.value);
          if a in r.value {
            var g :| g in Reported(services, rank, user).value && a == GroupRoleAttribute(g);
            assert ListedFor(services, user, services.objects(user).value, g) && a == "group-" + g;
          }
          if g :| ListedFor(services, user, services.objects(user).value, g) && a == "group-" + g {
            assert GroupRoleAttribute(g) in AttributesOf(Reported(services, rank, user).value);
          }
        }
      }
    }
  }

  // An organization's object is the prefix followed by its id.
  lemma OrganizationObject(id: Uuid, other: string)
    ensures OrganizationOf("organization:" + PageToken.UuidText(id)) == Some(id)
    ensures !("organization:" <= other) ==> OrganizationOf(other).None?
  {
    PageToken.UuidTextRoundTrip(id);
    var name := "organization:" + PageToken.UuidText(id);
    assert name[13..] == PageToken.UuidText(id);
  }

  // ---- reading the groups

  method ListUserOrganizationIDs(objects: seq<string>) returns (r: Option<seq<Uuid>>)
    ensures r.None? <==> exists i :: 0 <= i < |objects| && OrganizationOf(objects[i]).None?
    ensures r.Some? ==>
      |r.value| == |objects| && forall i :: 0 <= i < |objects| ==> OrganizationOf(objects[i]) == Some(r.value[i])
  {
    var organizationIDs: seq<Uuid> := [];
    for i := 0 to |objects|
      invariant |organizationIDs| == i
      invariant forall j :: 0 <= j < i ==> OrganizationOf(objects[j]) == Some(organizationIDs[j])
    {
      var organizationID := OrganizationOf(objects[i]);
      if organizationID.None? {
        return None;
      }
      organizationIDs := organizationIDs + [organizationID.value];
    }
    return Some(organizationIDs);
  }

  lemma {:induction false} GroupsInPrefix(services: Services, rank: (Uuid, Uuid, string) -> nat, user: Uuid,
                                          objects: seq<string>, n: nat)
    requires PagesEnd(services, rank) && n <= |objects|
    requires GroupsIn(services, rank, user, objects[..n]).None?
    ensures GroupsIn(services, rank, user, objects).None?
    decreases |objects|
  {
    if n < |objects| {
      var front := objects[..|objects| - 1];
      assert front[..n] == objects[..n];
      GroupsInPrefix(services, rank, user, front, n);
    } else {
      assert objects[..n] == objects;
    }
  }

  lemma BadOrganization(services: Services, rank: (Uuid, Uuid, string) -> nat, user: Uuid, objects: seq<string>, i: nat)
    requires PagesEnd(services, rank) && i < |objects| && OrganizationOf(objects[i]).None?
    ensures GroupsIn(services, rank, user, objects).None?
  {
    assert objects[..i + 1][..i] == objects[..i];
    GroupsInPrefix(services, rank, user, objects, i + 1);
  }

  // The page loop of one organization, continuing a list.
  method ListOrganizationGroups(services: Services, ghost rank: (Uuid, Uuid, string) -> nat, user: Uuid, org: Uuid,
                                before: seq<string>)
    returns (r: Option<seq<string>>)
    requires PagesEnd(services, rank)
    ensures var paged := PagedGroups(services, rank, user, org, "");
      r == if paged.None? then None else Some(before + paged.value)
  {
    var groups := before;
    var pageToken := "";
    while true
      invariant
        var paged, rest := PagedGroups(services, rank, user, org, ""), PagedGroups(services, rank, user, org, pageToken);
        (paged.None? <==> rest.None?) && (paged.Some? ==> before + paged.value == groups + rest.value)
      decreases rank(user, org, pageToken)
    {
      var response := services.memberGroups(user, org, pageToken);
      if response.None? {
        return None;
      }
      ghost var rest := PagedGroups(services, rank, user, org, pageToken);
      ghost var later := PagedGroups(services, rank, user, org, response.value.nextPageToken);
      assert response.value.nextPageToken != "" && later.Some? ==>
        groups + rest.value == groups + response.value.groups + later.value;
      groups := groups + response.value.groups;
      pageToken := response.value.nextPageToken;
      if pageToken == "" {
        return Some(groups);
      }
    }
  }

  method ListUserGroups(services: Services, ghost rank: (Uuid, Uuid, string) -> nat, user: Uuid)
    returns (r: Option<seq<string>>)
    requires PagesEnd(services, rank)
    ensures r == if services.objects(user).None? then None
                 else GroupsIn(services, rank, user, services.objects(user).value)
  {
    var objects := services.objects(user);
    if objects.None? {
      return None;
    }
    var organizationIDs := ListUserOrganizationIDs(objects.value);
    if organizationIDs.None? {
      ghost var i :| 0 <= i < |objects.value| && OrganizationOf(objects.value[i]).None?;
      BadOrganization(services, rank, user, objects.value, i);
      return None;
    }
    var groups: seq<string> := [];
    for i := 0 to |organizationIDs.value|
      invariant GroupsIn(services, rank, user, objects.value[..i]) == Some(groups)
    {
      assert objects.value[..i + 1][..i] == objects.value[..i];
      var more := ListOrganizationGroups(services, rank, user, organizationIDs.value[i], groups);
      if more.None? {
        GroupsInPrefix(services, rank, user, objects.value, i + 1);
        return None;
      }
      groups := more.value;
    }
    assert objects.value[..|objects.value|] == objects.value;
    return Some(groups);
  }

  lemma AttributesOfPrefix(groups: seq<string>, i: nat)
    requires i < |groups|
    ensures AttributesOf(Elements(groups[..i + 1])) == AttributesOf(Elements(groups[..i])) + {GroupRoleAttribute(groups[i])}
    ensures "" !in groups[..i] && groups[i] != "" ==> "" !in groups[..i + 1]
  {
    assert groups[..i + 1] == groups[..i] + [groups[i]];
    assert Elements(groups[..i + 1]) == Elements(groups[..i]) + {groups[i]};
  }

  // Sorted, without duplicates, one attribute per reported group.
  method UserGroupRoleAttributes(services: Services, ghost rank: (Uuid, Uuid, string) -> nat, user: Uuid)
    returns (r: Option<seq<string>>)
    requires PagesEnd(services, rank)
    ensures r.None? <==> Reported(services, rank, user).None?
    ensures r.Some? ==>
      Sorted(r.value) && Elements(r.value) == AttributesOf(Reported(services, rank, user).value)
    ensures AsListed(services, user, r)
    ensures r.Some? ==> forall i, j :: 0 <= i < j < |r.value| ==> StringLess(r.value[i], r.value[j])
  {
    if !services.hasGroupsClient {
      r := Some([]);
    } else {
      var groups := ListUserGroups(services, rank, user);
      if groups.None? {
        r := None;
      } else {
        r := SortedAttributes(groups.value);
      }
    }
    AttributesAsListed(services, rank, user, r);
  }

  method SortedAttributes(groups: seq<string>) returns (r: Option<seq<string>>)
    ensures r.None? <==> "" in groups
    ensures r.Some? ==> Sorted(r.value) && Elements(r.value) == AttributesOf(Elements(groups))
  {
    var roleAttributes: seq<string> := [];
    var seen: set<string> := {};
    for i := 0 to |groups|
      invariant seen == Elements(roleAttributes) == AttributesOf(Elements(groups[..i]))
      invariant "" !in groups[..i]
      invariant forall j, k :: 0 <= j < k < |roleAttributes| ==> roleAttributes[j] != roleAttributes[k]
    {
      var groupID := groups[i];
      if groupID == "" {
        return None;
      }
      var roleAttribute := GroupRoleAttribute(groupID);
      AttributesOfPrefix(groups, i);
      if roleAttribute !in seen {
        seen := seen + {roleAttribute};
        roleAttributes := roleAttributes + [roleAttribute];
      }
    }
    assert groups[..|groups|] == groups;
    var sorted := SortStrings(roleAttributes);
    return Some(sorted);
  }

  // The candidates that are not desired: sorted, without duplicates, disjoint from the desired ones.
  method StaleCandidateAttributes(desired: seq<string>, candidates: seq<string>) returns (remove: seq<string>)
    ensures Sorted(remove)
    ensures forall i, j :: 0 <= i < j < |remove| ==> StringLess(remove[i], remove[j])
    ensures Elements(remove) == Elements(candidates) - Elements(desired) - {""}
  {
    remove := [];
    var seen: set<string> := {};
    for i := 0 to |candidates|
      invariant seen == Elements(remove) == Elements(candidates[..i]) - Elements(desired) - {""}
      invariant forall j, k :: 0 <= j < k < |remove| ==> remove[j] != remove[k]
    {
      var attr := candidates[i];
      assert candidates[..i + 1] == candidates[..i] + [attr];
      assert Elements(candidates[..i + 1]) == Elements(candidates[..i]) + {attr};
      if attr != "" && attr !in desired && attr !in seen {
        seen := seen + {attr};
        remove := remove + [attr];
      }
    }
    assert candidates[..|candidates|] == candidates;
    remove := SortStrings(remove);
  }

  // ---- patching devices

  datatype Faults = Faults(listFails: nat -> bool, patchFails: string -> bool)

  ghost function Stale(candidates: seq<string>, desired: set<string>): set<string> {
    Elements(candidates) - desired - {""}
  }

  lemma PatchedMeans(before: set<string>, held: set<string>, group: string, a: string)
    ensures a in Patched(before, AttributesOf(held), Stale(Hint(group), AttributesOf(held))) <==>
      || (exists g :: g in held && a == "group-" + g)
      || (a in before && !(group != "" && a == "group-" + group))
  {
    if g :| g in held && a == "group-" + g { assert GroupRoleAttribute(g) in AttributesOf(held); }
    if a in AttributesOf(held) { var g :| g in held && a == GroupRoleAttribute(g); }
    assert group != "" ==> GroupRoleAttribute(group)[0] == 'g';
  }

  datatype Payload = Payload(memberIsUser: bool, memberId: string, groupId: string)

  // The candidate for removal an event brings.
  function Hint(groupId: string): seq<string> {
    if groupId == "" then [] else [GroupRoleAttribute(groupId)]
  }

  class Directory {
    var users: Table<string>
    var devices: Table<Device>
    var attrs: map<string, set<string>>

    constructor (users: Table<string>, devices: Table<Device>, attrs: map<string, set<string>>)
      ensures this.users == users && this.devices == devices && this.attrs == attrs
    {
      this.users, this.devices, this.attrs := users, devices, attrs;
    }

    ghost predicate OwnsIdentity(user: Uuid, ziti: string)
      reads this`devices
    {
      exists id :: id in devices && devices[id].owner == user && devices[id].zitiIdentityId == ziti
    }

    method PatchIdentityRoleAttributes(ziti: string, add: seq<string>, remove: seq<string>, fails: bool)
      returns (ok: bool)
      modifies this`attrs
      ensures ok <==> !fails && ziti in old(attrs)
      ensures ok ==> attrs == old(attrs)[ziti := Patched(old(attrs)[ziti], Elements(add), Elements(remove))]
      ensures !ok ==> attrs == old(attrs)
    {
      if fails || ziti !in attrs {
        return false;
      }
      var added, removed := set x | x in add, set x | x in remove;
      attrs := attrs[ziti := Patched(attrs[ziti], added, removed)];
      return true;
    }

    method ListAllUserDevices(user: Uuid, listFails: nat -> bool) returns (r: Option<seq<Entity<Device>>>)
      ensures (forall n :: !listFails(n)) ==> r.Some?
      ensures r.Some? ==> forall e :: e in r.value <==>
        e.id in devices && devices[e.id].owner == user && e.value == devices[e.id]
    {
      var table := devices;
      var views: Views<Device> := p => if listFails(p) then None else Some(table);
      var drained, pages := Drain(views, OwnedBy(user), MAX_LIST_PAGE_SIZE);
      if drained.Some? {
        StableDrain(table, views, OwnedBy(user), pages, drained.value);
      }
      return drained;
    }

    // Nothing stands in the way of the user's sync: the groups can be read, the devices listed, and each patched.
    ghost predicate Unhindered(services: Services, rank: (Uuid, Uuid, string) -> nat, user: Uuid, faults: Faults,
                               identities: set<string>)
      requires PagesEnd(services, rank)
      reads this`devices
    {
      && Reported(services, rank, user).Some? && (forall n :: !faults.listFails(n))
      && forall z :: OwnsIdentity(user, z) ==> z in identities && !faults.patchFails(z)
    }

    // A sync that began on before and ended with ok: every device of the user is patched towards the reported groups, or
    // when the sync failed perhaps only some of them; nothing else changed.
    ghost predicate Synced(services: Services, rank: (Uuid, Uuid, string) -> nat, user: Uuid, candidates: seq<string>,
                           before: map<string, set<string>>, ok: bool)
      requires PagesEnd(services, rank)
      reads this
    {
      && attrs.Keys == before.Keys
      && (Reported(services, rank, user).None? ==> !ok && attrs == before)
      && (forall z :: z in attrs && !OwnsIdentity(user, z) ==> attrs[z] == before[z])
      && (Reported(services, rank, user).Some? ==>
          var desired := AttributesOf(Reported(services, rank, user).value);
          && (ok ==> forall z :: OwnsIdentity(user, z) ==>
                z in attrs && attrs[z] == Patched(before[z], desired, Stale(candidates, desired)))
          && (forall z :: z in attrs && OwnsIdentity(user, z) ==>
                attrs[z] == before[z] || attrs[z] == Patched(before[z], desired, Stale(candidates, desired))))
    }

    method SyncUserDeviceGroupRoles(services: Services, ghost rank: (Uuid, Uuid, string) -> nat, user: Uuid,
                                    candidates: seq<string>, faults: Faults)
      returns (ok: bool)
      requires PagesEnd(services, rank)
      modifies this`attrs
      ensures Synced(services, rank, user, candidates, old(attrs), ok)
      ensures Unhindered(services, rank, user, faults, attrs.Keys) ==> ok
    {
      var desiredAttributes := UserGroupRoleAttributes(services, rank, user);
      if desiredAttributes.None? {
        return false;
      }
      var removeAttributes := StaleCandidateAttributes(desiredAttributes.value, candidates);
      var listed := ListAllUserDevices(user, faults.listFails);
      if listed.None? {
        return false;
      }
      ListedAreOwned(user, listed.value);
      ghost var reached;
      ok, reached := PatchListed(listed.value, desiredAttributes.value, removeAttributes, faults.patchFails);
    }

    // The patches of one sync, device by device, up to the first that fails.
    method PatchListed(listed: seq<Entity<Device>>, add: seq<string>, remove: seq<string>, patchFails: string -> bool)
      returns (ok: bool, ghost reached: nat)
      modifies this`attrs
      ensures attrs.Keys == old(attrs.Keys) && reached <= |listed|
      ensures ok ==> reached == |listed| && forall j :: 0 <= j < |listed| ==> listed[j].value.zitiIdentityId in attrs
      ensures (forall j :: 0 <= j < |listed| ==>
        listed[j].value.zitiIdentityId in attrs && !patchFails(listed[j].value.zitiIdentityId)) ==> ok
      ensures forall z :: z in attrs ==>
        attrs[z] == (if exists j :: 0 <= j < reached && listed[j].value.zitiIdentityId == z
                     then Patched(old(attrs)[z], Elements(add), Elements(remove)) else old(attrs)[z])
    {
      ghost var before := attrs;
      for i := 0 to |listed|
        invariant attrs.Keys == before.Keys
        invariant forall j :: 0 <= j < i ==> listed[j].value.zitiIdentityId in attrs
        invariant forall z :: z in attrs ==>
          attrs[z] == (if exists j :: 0 <= j < i && listed[j].value.zitiIdentityId == z
                       then Patched(before[z], Elements(add), Elements(remove)) else before[z])
      {
        var ziti := listed[i].value.zitiIdentityId;
        ok := PatchIdentityRoleAttributes(ziti, add, remove, patchFails(ziti));
        if !ok {
          return false, i;
        }
      }
      return true, |listed|;
    }

    // Added and removed events are handled alike: the current groups are read afresh, the event's group is a hint.
    // payload is None when the message does not parse.
    method HandleGroupMembershipEvent(services: Services, ghost rank: (Uuid, Uuid, string) -> nat, subject: string,
                                      payload: Option<Payload>, faults: Faults)
      returns (ok: bool)
      requires PagesEnd(services, rank)
      modifies this`attrs
      ensures attrs.Keys == old(attrs.Keys)
      // other subjects, and members that are not users, are acknowledged and ignored
      ensures subject != "agyn.groups.membership.added" && subject != "agyn.groups.membership.removed" ==>
        ok && attrs == old(attrs)
      ensures subject == "agyn.groups.membership.added" || subject == "agyn.groups.membership.removed" ==>
        && (payload.Some? && !payload.value.memberIsUser ==> ok && attrs == old(attrs))
        // what cannot be parsed is refused
        && (payload.None? ==> !ok && attrs == old(attrs))
        && (payload.Some? && payload.value.memberIsUser && PageToken.ParseUuid(payload.value.memberId).None? ==>
              !ok && attrs == old(attrs))
        // everything else is handled
        && (payload.Some? && payload.value.memberIsUser && PageToken.ParseUuid(payload.value.memberId).Some? ==>
              var user := PageToken.ParseUuid(payload.value.memberId).value;
              && Synced(services, rank, user, Hint(payload.value.groupId), old(attrs), ok)
              && (Unhindered(services, rank, user, faults, attrs.Keys) ==> ok)
              // once it is done, the member's devices carry the groups reported, not the group named unless it is one
              // of them, and of everything else what they carried before
              && (ok ==> Reported(services, rank, user).Some? && forall z, a :: OwnsIdentity(user, z) ==>
                    && z in attrs
                    && (a in attrs[z] <==>
                        || (exists g :: g in Reported(services, rank, user).value && a == "group-" + g)
                        || (a in old(attrs)[z] && !(payload.value.groupId != "" && a == "group-" + payload.value.groupId)))))
    {
      if subject != MEMBERSHIP_ADDED && subject != MEMBERSHIP_REMOVED {
        return true;
      }
      if payload.None? {
        return false;
      }
      if !payload.value.memberIsUser {
        return true;
      }
      var user := PageToken.ParseUuid(payload.value.memberId);
      if user.None? {
        return false;
      }
      var candidates: seq<string> := [];
      if payload.value.groupId != "" {
        candidates := candidates + [GroupRoleAttribute(payload.value.groupId)];
      }
      assert candidates == Hint(payload.value.groupId);
      ghost var before := attrs;
      ok := SyncUserDeviceGroupRoles(services, rank, user.value, candidates, faults);
      if ok {
        forall z, a | OwnsIdentity(user.value, z)
          ensures a in attrs[z] <==>
            || (exists g :: g in Reported(services, rank, user.value).value && a == "group-" + g)
            || (a in before[z] && !(payload.value.groupId != "" && a == "group-" + payload.value.groupId))
        {
          PatchedMeans(before[z], Reported(services, rank, user.value).value, payload.value.groupId, a);
        }
      }
    }

    // The users whose id the cursor has passed.
    ghost predicate Visited(user: Uuid, cursor: Option<Uuid>) {
      !Beyond(cursor, user)
    }

    // z carries at least the groups reported for its owner.
    ghost predicate UpToDate(services: Services, rank: (Uuid, Uuid, string) -> nat, user: Uuid)
      requires PagesEnd(services, rank)
      reads this
    {
      && Reported(services, rank, user).Some?
      && forall z :: OwnsIdentity(user, z) ==>
          z in attrs && AttributesOf(Reported(services, rank, user).value) <= attrs[z]
    }

    // now has only gained, over before, attributes that are desired for an owner of the device.
    ghost predicate OnlyGrown(services: Services, rank: (Uuid, Uuid, string) -> nat,
                              before: map<string, set<string>>, now: map<string, set<string>>)
      requires PagesEnd(services, rank)
      reads this`devices
    {
      && now.Keys == before.Keys
      && forall z :: z in now ==>
        && before[z] <= now[z]
        && forall a :: a in now[z] - before[z] ==>
            exists user ::
              && OwnsIdentity(user, z) && Reported(services, rank, user).Some?
              && a in AttributesOf(Reported(services, rank, user).value)
    }

    lemma GrownTransitive(services: Services, rank: (Uuid, Uuid, string) -> nat, before: map<string, set<string>>,
                          middle: map<string, set<string>>, now: map<string, set<string>>)
      requires PagesEnd(services, rank)
      requires OnlyGrown(services, rank, before, middle) && OnlyGrown(services, rank, middle, now)
      ensures OnlyGrown(services, rank, before, now)
    {
      forall z, a | z in now && a in now[z] - before[z]
        ensures exists user ::
          && OwnsIdentity(user, z) && Reported(services, rank, user).Some?
          && a in AttributesOf(Reported(services, rank, user).value)
      {
        if a in middle[z] { assert a in middle[z] - before[z]; } else { assert a in now[z] - middle[z]; }
      }
    }

    // A reconciliation pass over unchanged tables brings every device of every user up to date and removes nothing;
    // a pass that stops has only grown attribute sets towards the desired ones.
    method ReconcileAllUserDeviceGroupRoles(services: Services, ghost rank: (Uuid, Uuid, string) -> nat,
                                            listFails: nat -> bool, faults: Uuid -> Faults)
      returns (ok: bool)
      requires PagesEnd(services, rank)
      modifies this`attrs
      ensures OnlyGrown(services, rank, old(attrs), attrs)
      ensures ok ==> forall user :: user in users ==> UpToDate(services, rank, user)
      ensures
        && (forall n :: !listFails(n))
        && (forall user :: user in users ==> Unhindered(services, rank, user, faults(user), attrs.Keys))
        ==> ok
    {
      var pageToken: Option<Uuid> := None;
      var queries := 0;
      while true
        invariant OnlyGrown(services, rank, old(attrs), attrs)
        invariant forall user :: user in users && Visited(user, pageToken) ==> UpToDate(services, rank, user)
        decreases if pageToken.None? then UUID_LIMIT else UUID_LIMIT - 1 - pageToken.value
      {
        if listFails(queries) {
          return false;
        }
        queries := queries + 1;
        var page, next := ListEntities(users, _ => true, pageToken, MAX_LIST_PAGE_SIZE);
        ghost var before := attrs;
        ok := ReconcilePage(services, rank, page, faults, pageToken);
        GrownTransitive(services, rank, old(attrs), before, attrs);
        if !ok {
          return false;
        }
        forall user | user in users && (next.None? || Visited(user, next)) ensures UpToDate(services, rank, user) {
          if Beyond(pageToken, user) {
            assert Matches(users, _ => true, user);
            assert HasId(page, user);
          }
        }
        if next.None? {
          return true;
        }
        pageToken := next;
      }
    }

    // The users of one page, in order.
    method ReconcilePage(services: Services, ghost rank: (Uuid, Uuid, string) -> nat, page: seq<Entity<string>>,
                         faults: Uuid -> Faults, ghost cursor: Option<Uuid>)
      returns (ok: bool)
      requires PagesEnd(services, rank)
      requires forall user :: user in users && Visited(user, cursor) ==> UpToDate(services, rank, user)
      modifies this`attrs
      ensures OnlyGrown(services, rank, old(attrs), attrs)
      ensures forall user :: user in users && Visited(user, cursor) ==> UpToDate(services, rank, user)
      ensures ok ==> forall user :: HasId(page, user) ==> UpToDate(services, rank, user)
      ensures (forall user :: HasId(page, user) ==> Unhindered(services, rank, user, faults(user), attrs.Keys)) ==> ok
    {
      for i := 0 to |page|
        invariant OnlyGrown(services, rank, old(attrs), attrs)
        invariant forall user :: user in users && Visited(user, cursor) ==> UpToDate(services, rank, user)
        invariant forall j :: 0 <= j < i ==> UpToDate(services, rank, page[j].id)
      {
        ghost var before := attrs;
        assert HasId(page, page[i].id);
        ok := ReconcileUser(services, rank, page[i].id, faults(page[i].id));
        GrownTransitive(services, rank, old(attrs), before, attrs);
        if !ok {
          return false;
        }
      }
      return true;
    }

    // A sync without candidates: nothing is removed, so what was up to date stays so.
    method ReconcileUser(services: Services, ghost rank: (Uuid, Uuid, string) -> nat, user: Uuid, faults: Faults)
      returns (ok: bool)
      requires PagesEnd(services, rank)
      modifies this`attrs
      ensures Synced(services, rank, user, [], old(attrs), ok)
      ensures OnlyGrown(services, rank, old(attrs), attrs)
      ensures ok ==> UpToDate(services, rank, user)
      ensures Unhindered(services, rank, user, faults, attrs.Keys) ==> ok
    {
      ok := SyncUserDeviceGroupRoles(services, rank, user, [], faults);
    }

    lemma ListedAreOwned(user: Uuid, listed: seq<Entity<Device>>)
      requires forall e :: e in listed <==> e.id in devices && devices[e.id].owner == user && e.value == devices[e.id]
      ensures forall z :: OwnsIdentity(user, z) <==> exists j :: 0 <= j < |listed| && listed[j].value.zitiIdentityId == z
    {
      forall z | OwnsIdentity(user, z) ensures exists j :: 0 <= j < |listed| && listed[j].value.zitiIdentityId == z {
        var id :| id in devices && devices[id].owner == user && devices[id].zitiIdentityId == z;
        assert Entity(id, devices[id]) in listed;
      }
      forall z | exists j :: 0 <= j < |listed| && listed[j].value.zitiIdentityId == z ensures OwnsIdentity(user, z) {
        var j :| 0 <= j < |listed| && listed[j].value.zitiIdentityId == z;
        assert listed[j] in listed;
      }
    }
  }
}
