// Role attributes that stand for group memberships (internal/server/group_sync.go).

module GroupAttributes {
  import opened Prelude

  // A device row: its owner and its Ziti identity.
  datatype Device = Device(owner: Uuid, zitiIdentityId: string)

  function OwnedBy(user: Uuid): Device -> bool {
    (d: Device) => d.owner == user
  }

  const GROUP_ROLE_ATTRIBUTE_PREFIX := "group-"

  function GroupRoleAttribute(group: string): (a: string)
    ensures IsGroupAttribute(a)
  {
    GROUP_ROLE_ATTRIBUTE_PREFIX + group
  }

  predicate IsGroupAttribute(a: string) {
    GROUP_ROLE_ATTRIBUTE_PREFIX <= a
  }

  function AttributesOf(groups: set<string>): set<string> {
    set g | g in groups :: GroupRoleAttribute(g)
  }

  lemma AttributeInjective(g: string, h: string)
    ensures GroupRoleAttribute(g) == GroupRoleAttribute(h) <==> g == h
  {
    assert GroupRoleAttribute(g)[|GROUP_ROLE_ATTRIBUTE_PREFIX|..] == g;
    assert GroupRoleAttribute(h)[|GROUP_ROLE_ATTRIBUTE_PREFIX|..] == h;
  }

  lemma AttributeOfGroup(g: string, groups: set<string>)
    ensures GroupRoleAttribute(g) in AttributesOf(groups) <==> g in groups
  {
    if GroupRoleAttribute(g) in AttributesOf(groups) {
      var h :| h in groups && GroupRoleAttribute(g) == GroupRoleAttribute(h);
      AttributeInjective(g, h);
    }
  }

  function GroupPart(attributes: set<string>): set<string> {
    set a | a in attributes && IsGroupAttribute(a)
  }

  function OtherPart(attributes: set<string>): set<string> {
    set a | a in attributes && !IsGroupAttribute(a)
  }

  // PatchIdentityRoleAttributes on one identity.
  function Patched(attributes: set<string>, add: set<string>, remove: set<string>): set<string> {
    (attributes - remove) + add
  }

  // A set of attributes is known by the groups it names and by its other attributes.
  lemma GroupPartByGroups(attributes: set<string>, groups: set<string>)
    requires forall g :: GroupRoleAttribute(g) in attributes <==> g in groups
    ensures GroupPart(attributes) == AttributesOf(groups)
  {
    forall a | a in GroupPart(attributes) ensures a in AttributesOf(groups) {
      var g := a[|GROUP_ROLE_ATTRIBUTE_PREFIX|..];
      assert a == GroupRoleAttribute(g);
    }
  }
}
