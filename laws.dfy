/** Laws of the collected list that callers of the audit rely on: it is built
    group by group and permission by permission, absent fields add nothing,
    repeats are kept, and only exact matches of the unrestricted range count. */
module Laws {
  import opened Wrappers
  import opened Collector
  import opened Sites

  /** Auditing two listings back to back gives the two reports back to back. */
  lemma {:induction false} RulesOfConcat(a: seq<SecurityGroup>, b: seq<SecurityGroup>)
    ensures InsecureRules(a + b) == InsecureRules(a) + InsecureRules(b)
    decreases |b|
  {
    if b == [] {
      assert a + b == a;
    } else {
      var n := |b| - 1;
      assert (a + b)[..|a + b| - 1] == a + b[..n];
      assert (a + b)[|a + b| - 1] == b[n];
      RulesOfConcat(a, b[..n]);
      assert InsecureRules(a + b) == InsecureRules(a + b[..n]) + GroupRules(b[n]);
    }
  }

  /** Within a group, permissions contribute in order. */
  lemma {:induction false} PermissionRulesOfConcat(name: string, id: string, a: seq<Permission>, b: seq<Permission>)
    ensures PermissionRules(name, id, a + b) == PermissionRules(name, id, a) + PermissionRules(name, id, b)
    decreases |b|
  {
    if b == [] {
      assert a + b == a;
    } else {
      var n := |b| - 1;
      assert (a + b)[..|a + b| - 1] == a + b[..n];
      assert (a + b)[|a + b| - 1] == b[n];
      PermissionRulesOfConcat(name, id, a, b[..n]);
      assert PermissionRules(name, id, a + b)
        == PermissionRules(name, id, a + b[..n]) + RangeRules(name, id, b[n], Ranges(b[n]));
    }
  }

  /** The list is only ever extended: what the first i groups produce is a prefix of the whole. */
  lemma RulesOfPrefix(groups: seq<SecurityGroup>, i: nat)
    requires i <= |groups|
    ensures InsecureRules(groups[..i]) <= InsecureRules(groups)
  {
    assert groups == groups[..i] + groups[i..];
    RulesOfConcat(groups[..i], groups[i..]);
    var whole := InsecureRules(groups[..i]) + InsecureRules(groups[i..]);
    assert whole[..|InsecureRules(groups[..i])|] == InsecureRules(groups[..i]);
  }

  /** A group whose IpPermissions is absent contributes nothing, wherever it stands. */
  lemma AbsentPermissionsContributeNothing(before: seq<SecurityGroup>, sg: SecurityGroup, after: seq<SecurityGroup>)
    requires sg.ipPermissions == None
    ensures InsecureRules(before + [sg] + after) == InsecureRules(before + after)
  {
    RulesOfConcat(before + [sg], after);
    RulesOfConcat(before, [sg]);
    RulesOfConcat(before, after);
    assert [sg][..0] == [];
  }

  /** A permission whose IpRanges is absent contributes nothing, wherever it stands. */
  lemma AbsentRangesContributeNothing(name: string, id: string, before: seq<Permission>, p: Permission, after: seq<Permission>)
    requires p.ipRanges == None
    ensures PermissionRules(name, id, before + [p] + after) == PermissionRules(name, id, before + after)
  {
    PermissionRulesOfConcat(name, id, before + [p], after);
    PermissionRulesOfConcat(name, id, before, [p]);
    PermissionRulesOfConcat(name, id, before, after);
    assert [p][..0] == [];
  }

  /** No deduplication: listing a group twice reports its lines twice, in order. */
  lemma RepeatedGroupRepeatsRules(sg: SecurityGroup)
    ensures InsecureRules([sg, sg]) == GroupRules(sg) + GroupRules(sg)
  {
    assert [sg, sg][..1] == [sg];
    assert [sg][..0] == [];
    assert InsecureRules([sg]) == GroupRules(sg);
  }

  /** The list is empty exactly when no range anywhere in the listing is the unrestricted range. */
  lemma NoRulesIffNoOpenRange(groups: seq<SecurityGroup>)
    ensures InsecureRules(groups) == [] <==> (forall s :: ValidSite(groups, s) ==> !IsOpenToWorld(RangeAt(groups, s)))
  {
    InsecureRulesAreOpenSites(groups);
    if InsecureRules(groups) != [] {
      assert OpenSites(groups)[0] in OpenSites(groups);
    } else {
      forall s | ValidSite(groups, s) ensures !IsOpenToWorld(RangeAt(groups, s)) {
        assert s !in OpenSites(groups);
      }
    }
  }

  /** A range whose CidrIp is absent or is any other text never yields a line. */
  lemma OtherRangesYieldNothing(groups: seq<SecurityGroup>, s: Site)
    requires ValidSite(groups, s) && RangeAt(groups, s).cidrIp != Some(Unrestricted)
    ensures s !in OpenSites(groups)
  {
    InsecureRulesAreOpenSites(groups);
  }

  /** One permission whose ranges are 0.0.0.0/0 and 10.0.0.0/8 yields exactly one line, for its own group. */
  lemma OneOpenOneInternal(id: string, name: Option<string>, rendering: string)
    ensures
      var p := Permission(Some([IpRange(Some("0.0.0.0/0")), IpRange(Some("10.0.0.0/8"))]), rendering);
      var sg := SecurityGroup(id, name, Some([p]));
      InsecureRules([sg]) == [RuleInfo(GroupName(sg), id, p)]
  {
    var p := Permission(Some([IpRange(Some("0.0.0.0/0")), IpRange(Some("10.0.0.0/8"))]), rendering);
    var sg := SecurityGroup(id, name, Some([p]));
    var ranges := Ranges(p);
    assert ranges[..1] == [IpRange(Some("0.0.0.0/0"))];
    assert ranges[..1][..0] == [];
    assert RangeRules(GroupName(sg), id, p, ranges) == [RuleInfo(GroupName(sg), id, p)];
    assert [p][..0] == [];
    assert Permissions(sg) == [p];
    assert PermissionRules(GroupName(sg), id, [p]) == [] + RangeRules(GroupName(sg), id, p, ranges);
    assert [sg][..0] == [];
  }

  /** Two open ranges in one permission yield two identical lines: nothing is merged. */
  lemma TwoOpenRangesTwoRules(sg: SecurityGroup, p: Permission)
    requires sg.ipPermissions == Some([p])
    requires p.ipRanges == Some([IpRange(Some(Unrestricted)), IpRange(Some(Unrestricted))])
    ensures InsecureRules([sg]) == [RuleInfo(GroupName(sg), sg.groupId, p), RuleInfo(GroupName(sg), sg.groupId, p)]
  {
    var line := RuleInfo(GroupName(sg), sg.groupId, p);
    var ranges := Ranges(p);
    assert ranges[..1] == [IpRange(Some(Unrestricted))];
    assert ranges[..1][..0] == [];
    assert RangeRules(GroupName(sg), sg.groupId, p, ranges[..1]) == [line];
    assert RangeRules(GroupName(sg), sg.groupId, p, ranges) == [line, line];
    assert [p][..0] == [];
    assert Permissions(sg) == [p];
    assert PermissionRules(GroupName(sg), sg.groupId, [p]) == [] + RangeRules(GroupName(sg), sg.groupId, p, ranges);
    assert [sg][..0] == [];
  }

  /** A group with one permission holding one range reports one line exactly when that range is open. */
  lemma SingleRangeGroup(sg: SecurityGroup, p: Permission, r: IpRange)
    requires sg.ipPermissions == Some([p]) && p.ipRanges == Some([r])
    ensures GroupRules(sg) == if IsOpenToWorld(r) then [RuleInfo(GroupName(sg), sg.groupId, p)] else []
  {
    assert Ranges(p)[..0] == [];
    assert [p][..0] == [];
    assert Permissions(sg) == [p];
    assert PermissionRules(GroupName(sg), sg.groupId, [p]) == [] + RangeRules(GroupName(sg), sg.groupId, p, Ranges(p));
  }

  /** A group without GroupName is reported under the placeholder name, at each of its open positions. */
  lemma MissingNameUsesPlaceholder(groups: seq<SecurityGroup>, s: Site)
    requires IsOpenSite(groups, s) && groups[s.group].groupName == None
    ensures exists k ::
      0 <= k < |InsecureRules(groups)| && k < |OpenSites(groups)| && OpenSites(groups)[k] == s
      && InsecureRules(groups)[k] == RuleInfo("Unnamed", groups[s.group].groupId, Permissions(groups[s.group])[s.permission])
  {
    InsecureRulesAreOpenSites(groups);
    var k :| 0 <= k < |OpenSites(groups)| && OpenSites(groups)[k] == s;
    assert InsecureRules(groups)[k] == EntryAt(groups, s);
  }
}
