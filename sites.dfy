/** What the collected list means, in terms of positions in the listing.
    OpenSites gathers the open positions by the same prefix recursion as the
    collector; the characterisation lemma then states the list through
    IsOpenSite, Precedes and EntryAt, which do not recurse: one line per
    (group, permission, range) position whose range is open to the world, in
    traversal order, so its length counts those positions and nothing is
    merged. The other lemmas here are site-level concatenation helpers. */
module Sites {
  import opened Collector

  /** A position in the listing: group index, permission index within the
      group, range index within the permission. */
  datatype Site = Site(group: nat, permission: nat, range: nat)

  predicate ValidSite(groups: seq<SecurityGroup>, s: Site) {
    s.group < |groups|
    && s.permission < |Permissions(groups[s.group])|
    && s.range < |Ranges(Permissions(groups[s.group])[s.permission])|
  }

  function RangeAt(groups: seq<SecurityGroup>, s: Site): IpRange
    requires ValidSite(groups, s)
  {
    Ranges(Permissions(groups[s.group])[s.permission])[s.range]
  }

  /** The position holds a range whose CidrIp is exactly the unrestricted range. */
  predicate IsOpenSite(groups: seq<SecurityGroup>, s: Site) {
    ValidSite(groups, s) && IsOpenToWorld(RangeAt(groups, s))
  }

  /** The report line the audit writes for a position: its own group's name and id. */
  function EntryAt(groups: seq<SecurityGroup>, s: Site): string
    requires ValidSite(groups, s)
  {
    var sg := groups[s.group];
    RuleInfo(GroupName(sg), sg.groupId, Permissions(sg)[s.permission])
  }

  /** Traversal order: group first, then permission, then range. */
  predicate Precedes(a: Site, b: Site) {
    a.group < b.group
    || (a.group == b.group && a.permission < b.permission)
    || (a.group == b.group && a.permission == b.permission && a.range < b.range)
  }

  predicate InTraversalOrder(ss: seq<Site>) {
    forall i, j :: 0 <= i < j < |ss| ==> Precedes(ss[i], ss[j])
  }

  /** Open positions among the given ranges of permission p of group g. */
  function RangeSites(g: nat, p: nat, ranges: seq<IpRange>): seq<Site>
    decreases |ranges|
  {
    if ranges == [] then []
    else
      RangeSites(g, p, ranges[..|ranges| - 1])
        + (if IsOpenToWorld(ranges[|ranges| - 1]) then [Site(g, p, |ranges| - 1)] else [])
  }

  /** Open positions among the given permissions of group g. */
  function PermissionSites(g: nat, perms: seq<Permission>): seq<Site>
    decreases |perms|
  {
    if perms == [] then []
    else
      PermissionSites(g, perms[..|perms| - 1])
        + RangeSites(g, |perms| - 1, Ranges(perms[|perms| - 1]))
  }

  /** Open positions of the whole listing. */
  function OpenSites(groups: seq<SecurityGroup>): seq<Site>
    decreases |groups|
  {
    if groups == [] then []
    else OpenSites(groups[..|groups| - 1]) + PermissionSites(|groups| - 1, Permissions(groups[|groups| - 1]))
  }

  lemma {:induction false} RangeLevel(name: string, id: string, perm: Permission, g: nat, p: nat, ranges: seq<IpRange>)
    ensures |RangeRules(name, id, perm, ranges)| == |RangeSites(g, p, ranges)|
    ensures forall k :: 0 <= k < |RangeRules(name, id, perm, ranges)| ==> RangeRules(name, id, perm, ranges)[k] == RuleInfo(name, id, perm)
    ensures forall s :: s in RangeSites(g, p, ranges) ==> s.group == g && s.permission == p && s.range < |ranges|
    ensures forall r :: 0 <= r < |ranges| ==> (Site(g, p, r) in RangeSites(g, p, ranges) <==> IsOpenToWorld(ranges[r]))
    ensures InTraversalOrder(RangeSites(g, p, ranges))
    decreases |ranges|
  {
    if ranges != [] {
      var n := |ranges| - 1;
      var init := ranges[..n];
      RangeLevel(name, id, perm, g, p, init);
      assert forall r :: 0 <= r < n ==> init[r] == ranges[r];
    }
  }

  /** Two runs in traversal order, the first wholly before the second, make one. */
  lemma OrderedConcat(a: seq<Site>, b: seq<Site>)
    requires InTraversalOrder(a) && InTraversalOrder(b)
    requires forall x, y :: x in a && y in b ==> Precedes(x, y)
    ensures InTraversalOrder(a + b)
  {
    forall i, j | 0 <= i < j < |a + b| ensures Precedes((a + b)[i], (a + b)[j]) {
      if j < |a| {
        assert (a + b)[i] == a[i] && (a + b)[j] == a[j];
      } else if i >= |a| {
        assert (a + b)[i] == b[i - |a|] && (a + b)[j] == b[j - |a|];
      } else {
        assert (a + b)[i] in a && (a + b)[j] in b;
      }
    }
  }

  /** Lines of two runs of permissions, side by side with their positions. */
  lemma PermissionEntriesConcat(name: string, id: string, perms: seq<Permission>,
                                a: seq<Site>, b: seq<Site>, ra: seq<string>, rb: seq<string>)
    requires |ra| == |a| && |rb| == |b|
    requires forall k :: 0 <= k < |a| ==> a[k].permission < |perms| && ra[k] == RuleInfo(name, id, perms[a[k].permission])
    requires forall k :: 0 <= k < |b| ==> b[k].permission < |perms| && rb[k] == RuleInfo(name, id, perms[b[k].permission])
    ensures forall k :: 0 <= k < |a + b| ==>
      (a + b)[k].permission < |perms| && (ra + rb)[k] == RuleInfo(name, id, perms[(a + b)[k].permission])
  {
    forall k | 0 <= k < |a + b|
      ensures (a + b)[k].permission < |perms| && (ra + rb)[k] == RuleInfo(name, id, perms[(a + b)[k].permission])
    {
      if k < |a| {
        assert (a + b)[k] == a[k] && (ra + rb)[k] == ra[k];
      } else {
        assert (a + b)[k] == b[k - |a|] && (ra + rb)[k] == rb[k - |a|];
      }
    }
  }

  lemma {:induction false} PermissionLevel(name: string, id: string, g: nat, perms: seq<Permission>)
    ensures |PermissionRules(name, id, perms)| == |PermissionSites(g, perms)|
    ensures forall s :: s in PermissionSites(g, perms) ==>
      s.group == g && s.permission < |perms| && s.range < |Ranges(perms[s.permission])|
    ensures forall k :: 0 <= k < |PermissionRules(name, id, perms)| ==>
      PermissionSites(g, perms)[k].permission < |perms|
      && PermissionRules(name, id, perms)[k] == RuleInfo(name, id, perms[PermissionSites(g, perms)[k].permission])
    ensures forall s: Site :: s.group == g && s.permission < |perms| && s.range < |Ranges(perms[s.permission])| ==>
      (s in PermissionSites(g, perms) <==> IsOpenToWorld(Ranges(perms[s.permission])[s.range]))
    ensures InTraversalOrder(PermissionSites(g, perms))
    decreases |perms|
  {
    if perms != [] {
      var n := |perms| - 1;
      var init := perms[..n];
      var last := perms[n];
      PermissionLevel(name, id, g, init);
      RangeLevel(name, id, last, g, n, Ranges(last));
      var a: seq<Site> := PermissionSites(g, init);
      var b: seq<Site> := RangeSites(g, n, Ranges(last));
      var ra := PermissionRules(name, id, init);
      var rb := RangeRules(name, id, last, Ranges(last));
      assert PermissionSites(g, perms) == a + b;
      assert PermissionRules(name, id, perms) == ra + rb;
      forall x | x in a ensures x.group == g && x.permission < n && x.range < |Ranges(perms[x.permission])| {
        assert init[x.permission] == perms[x.permission];
      }
      forall k | 0 <= k < |a| ensures a[k].permission < |perms| && ra[k] == RuleInfo(name, id, perms[a[k].permission]) {
        assert a[k] in a;
        assert init[a[k].permission] == perms[a[k].permission];
      }
      forall k | 0 <= k < |b| ensures b[k].permission == n && rb[k] == RuleInfo(name, id, perms[b[k].permission]) {
        assert b[k] in b;
      }
      PermissionEntriesConcat(name, id, perms, a, b, ra, rb);
      forall x: Site | x.group == g && x.permission < |perms| && x.range < |Ranges(perms[x.permission])|
        ensures x in a + b <==> IsOpenToWorld(Ranges(perms[x.permission])[x.range])
      {
        if x.permission < n {
          assert init[x.permission] == perms[x.permission];
          assert x !in b;
        } else {
          assert x !in a;
          assert x == Site(g, n, x.range);
        }
      }
      OrderedConcat(a, b);
    }
  }

  /** A position of a prefix of the listing is the same position of the whole listing. */
  lemma PrefixSite(groups: seq<SecurityGroup>, n: nat, s: Site)
    requires n <= |groups| && s.group < n
    ensures ValidSite(groups[..n], s) <==> ValidSite(groups, s)
    ensures IsOpenSite(groups[..n], s) <==> IsOpenSite(groups, s)
    ensures ValidSite(groups, s) ==> EntryAt(groups[..n], s) == EntryAt(groups, s)
  {
    assert groups[..n][s.group] == groups[s.group];
  }

  /** Open positions of group n of a listing, in the listing's terms. */
  lemma GroupSites(groups: seq<SecurityGroup>, n: nat)
    requires n < |groups|
    ensures forall s :: s in PermissionSites(n, Permissions(groups[n])) ==> s.group == n && IsOpenSite(groups, s)
    ensures forall s: Site :: s.group == n ==> (s in PermissionSites(n, Permissions(groups[n])) <==> IsOpenSite(groups, s))
    ensures |GroupRules(groups[n])| == |PermissionSites(n, Permissions(groups[n]))|
    ensures forall k :: 0 <= k < |GroupRules(groups[n])| ==>
      ValidSite(groups, PermissionSites(n, Permissions(groups[n]))[k])
      && GroupRules(groups[n])[k] == EntryAt(groups, PermissionSites(n, Permissions(groups[n]))[k])
    ensures InTraversalOrder(PermissionSites(n, Permissions(groups[n])))
  {
    var sg := groups[n];
    PermissionLevel(GroupName(sg), sg.groupId, n, Permissions(sg));
    var B := PermissionSites(n, Permissions(sg));
    forall k | 0 <= k < |GroupRules(sg)|
      ensures ValidSite(groups, B[k]) && GroupRules(sg)[k] == EntryAt(groups, B[k])
    {
      assert B[k] in B;
    }
  }

  /** Lines and positions of a listing split as those of its prefix and those of its last group. */
  lemma EntriesConcat(groups: seq<SecurityGroup>, a: seq<Site>, b: seq<Site>, ra: seq<string>, rb: seq<string>)
    requires |ra| == |a| && |rb| == |b|
    requires forall k :: 0 <= k < |a| ==> ValidSite(groups, a[k]) && ra[k] == EntryAt(groups, a[k])
    requires forall k :: 0 <= k < |b| ==> ValidSite(groups, b[k]) && rb[k] == EntryAt(groups, b[k])
    ensures forall k :: 0 <= k < |a + b| ==> ValidSite(groups, (a + b)[k]) && (ra + rb)[k] == EntryAt(groups, (a + b)[k])
  {
    forall k | 0 <= k < |a + b| ensures ValidSite(groups, (a + b)[k]) && (ra + rb)[k] == EntryAt(groups, (a + b)[k]) {
      if k < |a| {
        assert (a + b)[k] == a[k] && (ra + rb)[k] == ra[k];
      } else {
        assert (a + b)[k] == b[k - |a|] && (ra + rb)[k] == rb[k - |a|];
      }
    }
  }

  /** The characterisation: the collected list has one line per open position
      of the listing, in traversal order, each line naming its own group. */
  lemma {:induction false} InsecureRulesAreOpenSites(groups: seq<SecurityGroup>)
    ensures |InsecureRules(groups)| == |OpenSites(groups)|
    ensures forall k :: 0 <= k < |OpenSites(groups)| ==>
      ValidSite(groups, OpenSites(groups)[k]) && InsecureRules(groups)[k] == EntryAt(groups, OpenSites(groups)[k])
    ensures forall s :: s in OpenSites(groups) <==> IsOpenSite(groups, s)
    ensures InTraversalOrder(OpenSites(groups))
    decreases |groups|
  {
    if groups != [] {
      var n := |groups| - 1;
      var init := groups[..n];
      InsecureRulesAreOpenSites(init);
      GroupSites(groups, n);
      var a: seq<Site> := OpenSites(init);
      var b: seq<Site> := PermissionSites(n, Permissions(groups[n]));
      assert OpenSites(groups) == a + b;
      assert InsecureRules(groups) == InsecureRules(init) + GroupRules(groups[n]);
      forall x | x in a ensures x.group < n && IsOpenSite(groups, x) {
        PrefixSite(groups, n, x);
      }
      forall k | 0 <= k < |a| ensures ValidSite(groups, a[k]) && InsecureRules(init)[k] == EntryAt(groups, a[k]) {
        assert a[k] in a;
        PrefixSite(groups, n, a[k]);
      }
      EntriesConcat(groups, a, b, InsecureRules(init), GroupRules(groups[n]));
      forall x: Site ensures x in a + b <==> IsOpenSite(groups, x) {
        if x.group < n {
          PrefixSite(groups, n, x);
          assert x !in b;
        } else {
          assert x !in a;
        }
      }
      OrderedConcat(a, b);
    }
  }
}
