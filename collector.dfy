/** The rule collector of the audit handler: the records it reads, the report
    line it writes for an inbound range open to every address, and the nested
    loop that gathers those lines. */
module Collector {
  import opened Wrappers

  /** One entry of a permission's IpRanges; CidrIp may be absent. */
  datatype IpRange = IpRange(cidrIp: Option<string>)

  /** One inbound permission: its optional IpRanges, and the text the report
      shows for the whole permission (the dictionary's rendering, left opaque). */
  datatype Permission = Permission(ipRanges: Option<seq<IpRange>>, rendering: string)

  /** A security group as the listing returns it; GroupId is always present. */
  datatype SecurityGroup = SecurityGroup(
    groupId: string,
    groupName: Option<string>,
    ipPermissions: Option<seq<Permission>>)

  /** The source range that admits every IPv4 address. */
  const Unrestricted: string := "0.0.0.0/0"

  /** The name reported for a group that has none. */
  const UnnamedGroup: string := "Unnamed"

  function GroupName(sg: SecurityGroup): string {
    sg.groupName.GetOr(UnnamedGroup)
  }

  function Permissions(sg: SecurityGroup): seq<Permission> {
    sg.ipPermissions.GetOr([])
  }

  function Ranges(p: Permission): seq<IpRange> {
    p.ipRanges.GetOr([])
  }

  /** Exact string comparison; an absent CidrIp never matches. */
  predicate IsOpenToWorld(r: IpRange) {
    r.cidrIp == Some(Unrestricted)
  }

  /** The report line for one open range of permission p in the group named name with id id. */
  function RuleInfo(name: string, id: string, p: Permission): string {
    "Security Group '" + name + "' (" + id + ") allows inbound access "
      + "from 0.0.0.0/0.\nRule: " + p.rendering + "\n"
  }

  /** Lines contributed by the given ranges of permission p, one per open range, in order. */
  function RangeRules(name: string, id: string, p: Permission, ranges: seq<IpRange>): seq<string>
    decreases |ranges|
  {
    if ranges == [] then []
    else
      var last := ranges[|ranges| - 1];
      RangeRules(name, id, p, ranges[..|ranges| - 1])
        + (if IsOpenToWorld(last) then [RuleInfo(name, id, p)] else [])
  }

  /** Lines contributed by the given permissions of one group, permission by permission. */
  function PermissionRules(name: string, id: string, perms: seq<Permission>): seq<string>
    decreases |perms|
  {
    if perms == [] then []
    else
      var last := perms[|perms| - 1];
      PermissionRules(name, id, perms[..|perms| - 1]) + RangeRules(name, id, last, Ranges(last))
  }

  /** Lines contributed by one group. */
  function GroupRules(sg: SecurityGroup): seq<string> {
    PermissionRules(GroupName(sg), sg.groupId, Permissions(sg))
  }

  /** The audit's list of insecure rules for the listed groups, group by group. */
  function InsecureRules(groups: seq<SecurityGroup>): seq<string>
    decreases |groups|
  {
    if groups == [] then []
    else InsecureRules(groups[..|groups| - 1]) + GroupRules(groups[|groups| - 1])
  }

  /** The handler's collection loop: starts from an empty list and only ever
      appends, visiting groups, then their permissions, then their ranges. */
  method CollectInsecureRules(groups: seq<SecurityGroup>) returns (rules: seq<string>)
    ensures rules == InsecureRules(groups)
  {
    rules := [];
    for i := 0 to |groups|
      invariant rules == InsecureRules(groups[..i])
    {
      var sg := groups[i];
      var groupId := sg.groupId;
      var groupName := GroupName(sg);
      var permissions := Permissions(sg);
      for j := 0 to |permissions|
        invariant rules == InsecureRules(groups[..i]) + PermissionRules(groupName, groupId, permissions[..j])
      {
        var permission := permissions[j];
        var ranges := Ranges(permission);
        ghost var before := rules;
        for k := 0 to |ranges|
          invariant rules == before + RangeRules(groupName, groupId, permission, ranges[..k])
        {
          if IsOpenToWorld(ranges[k]) {
            rules := rules + [RuleInfo(groupName, groupId, permission)];
          }
          assert ranges[..k + 1][..k] == ranges[..k];
        }
        assert ranges[..|ranges|] == ranges;
        assert permissions[..j + 1][..j] == permissions[..j];
      }
      assert permissions[..|permissions|] == permissions;
      assert groups[..i + 1][..i] == groups[..i];
    }
    assert groups[..|groups|] == groups;
  }
}
