/** The ECMP groups inferred from link speeds when none are configured: `_infer_groups_by_speed` of
    services/fabric.py. */
module SpeedGroups {
  import opened Common
  import opened Grouping

  /** An interface that was up, and a speed it reported; NULL is None. One query row per pair. */
  datatype Link = Link(name: string, speed: Option<int>)

  function Speed(l: Link): int { if l.speed.Some? then l.speed.value else 0 }

  datatype Group = Group(speed: int, members: seq<string>)

  function Names(links: seq<Link>): (names: seq<string>)
    ensures |names| == |links| && forall i :: 0 <= i < |names| ==> names[i] == links[i].name
  {
    seq(|links|, i requires 0 <= i < |links| => links[i].name)
  }

  function GroupAt(links: seq<Link>, speed: int): Group { Group(speed, Names(FiledUnder(links, Speed, speed))) }

  /** The speeds that at least two links share. */
  predicate Shared(links: seq<Link>, speed: int) { |FiledUnder(links, Speed, speed)| >= 2 }

  function GroupsAt(links: seq<Link>, speeds: seq<int>): seq<Group> {
    if speeds == [] then []
    else
      GroupsAt(links, speeds[..|speeds| - 1])
      + if Shared(links, speeds[|speeds| - 1]) then [GroupAt(links, speeds[|speeds| - 1])] else []
  }

  method InferGroupsBySpeed(links: seq<Link>) returns (groups: seq<Group>)
    ensures groups == GroupsAt(links, FirstSeen(links, Speed))
  {
    var speeds, bySpeed := GroupBy(links, Speed);
    groups := [];
    for i := 0 to |speeds|
      invariant groups == GroupsAt(links, speeds[..i])
    {
      assert speeds[..i + 1][..i] == speeds[..i];
      var members := bySpeed[speeds[i]];
      if |members| >= 2 {
        groups := groups + [Group(speeds[i], Names(members))];
      }
    }
    assert speeds[..|speeds|] == speeds;
  }

  lemma {:induction false} GroupsAtHold(links: seq<Link>, speeds: seq<int>, g: Group)
    ensures g in GroupsAt(links, speeds)
       <==> g.speed in speeds && Shared(links, g.speed) && g == GroupAt(links, g.speed)
    decreases |speeds|
  {
    if speeds != [] {
      GroupsAtHold(links, speeds[..|speeds| - 1], g);
      assert speeds == speeds[..|speeds| - 1] + [speeds[|speeds| - 1]];
    }
  }

  /** A group is exactly the links of one speed, where there are two or more; no link of such a speed is left out. */
  lemma GroupsAreSharedSpeeds(links: seq<Link>, g: Group)
    ensures g in GroupsAt(links, FirstSeen(links, Speed)) <==> Shared(links, g.speed) && g == GroupAt(links, g.speed)
  {
    GroupsAtHold(links, FirstSeen(links, Speed), g);
    SeenIffFiled(links, Speed, g.speed);
  }

  /** The link has this speed; one without a speed counts as speed 0. */
  predicate HasSpeed(l: Link, speed: int) { l.speed == Some(speed) || (l.speed == None && speed == 0) }

  predicate OneHas(links: seq<Link>, speed: int) { exists i :: 0 <= i < |links| && HasSpeed(links[i], speed) }

  predicate TwoHave(links: seq<Link>, speed: int) {
    exists i, j :: 0 <= i < j < |links| && HasSpeed(links[i], speed) && HasSpeed(links[j], speed)
  }

  lemma OneHasNext(links: seq<Link>, speed: int)
    requires links != []
    ensures OneHas(links, speed) <==> OneHas(links[..|links| - 1], speed) || HasSpeed(links[|links| - 1], speed)
  {
    var k := |links| - 1;
    if i :| 0 <= i < k && HasSpeed(links[..k][i], speed) { assert HasSpeed(links[i], speed); }
    if i :| 0 <= i < |links| && HasSpeed(links[i], speed) { assert i < k ==> HasSpeed(links[..k][i], speed); }
  }

  lemma TwoHaveNext(links: seq<Link>, speed: int)
    requires links != []
    ensures TwoHave(links, speed)
       <==> TwoHave(links[..|links| - 1], speed)
            || (OneHas(links[..|links| - 1], speed) && HasSpeed(links[|links| - 1], speed))
  {
    var k := |links| - 1;
    var init := links[..k];
    if i, j :| 0 <= i < j < k && HasSpeed(init[i], speed) && HasSpeed(init[j], speed) {
      assert HasSpeed(links[i], speed) && HasSpeed(links[j], speed);
    }
    if i :| 0 <= i < k && HasSpeed(init[i], speed) && HasSpeed(links[k], speed) {
      assert HasSpeed(links[i], speed);
    }
    if i, j :| 0 <= i < j < |links| && HasSpeed(links[i], speed) && HasSpeed(links[j], speed) {
      assert HasSpeed(init[i], speed) && (j < k ==> HasSpeed(init[j], speed));
    }
  }

  lemma {:induction false} FiledCount(links: seq<Link>, speed: int)
    ensures |FiledUnder(links, Speed, speed)| >= 2 <==> TwoHave(links, speed)
    ensures |FiledUnder(links, Speed, speed)| >= 1 <==> OneHas(links, speed)
    decreases |links|
  {
    if links != [] {
      FiledCount(links[..|links| - 1], speed);
      OneHasNext(links, speed);
      TwoHaveNext(links, speed);
    }
  }

  /** There is a group of a speed exactly when two links have it, just one group, and its members are the names of the
      links that have it, in order. */
  lemma SpeedHasGroupIff(links: seq<Link>, speed: int)
    ensures var groups := GroupsAt(links, FirstSeen(links, Speed));
      ((exists g :: g in groups && g.speed == speed) <==> TwoHave(links, speed))
      && forall g, h :: g in groups && h in groups && g.speed == h.speed ==> g == h
    ensures forall g :: g in GroupsAt(links, FirstSeen(links, Speed)) ==>
      g.members == Names(FiledUnder(links, (l: Link) => HasSpeed(l, g.speed), true))
  {
    FiledCount(links, speed);
    GroupsAreSharedSpeeds(links, GroupAt(links, speed));
    forall g
      ensures g in GroupsAt(links, FirstSeen(links, Speed)) <==> Shared(links, g.speed) && g == GroupAt(links, g.speed)
    {
      GroupsAreSharedSpeeds(links, g);
    }
    forall g | g in GroupsAt(links, FirstSeen(links, Speed))
      ensures g.members == Names(FiledUnder(links, (l: Link) => HasSpeed(l, g.speed), true))
    {
      FiledAgree(links, Speed, g.speed, (l: Link) => HasSpeed(l, g.speed), true);
    }
  }

  lemma {:induction false} FiledStaysDistinct(links: seq<Link>, speed: int)
    requires Distinct(links)
    ensures Distinct(FiledUnder(links, Speed, speed))
    decreases |links|
  {
    if links != [] {
      FiledStaysDistinct(links[..|links| - 1], speed);
      FiledUnderIs(links[..|links| - 1], Speed, speed);
    }
  }

  predicate Repeats(names: seq<string>) { exists i, j :: 0 <= i < j < |names| && names[i] == names[j] }

  /** A group names a member twice exactly when its speed is 0 and some interface was seen both without a speed
      and with speed 0. */
  lemma MemberRepeatsIff(links: seq<Link>, speed: int)
    requires Distinct(links)
    ensures Repeats(GroupAt(links, speed).members)
       <==> speed == 0 && exists name :: Link(name, None) in links && Link(name, Some(0)) in links
  {
    var filed := FiledUnder(links, Speed, speed);
    FiledUnderIs(links, Speed, speed);
    FiledStaysDistinct(links, speed);
    var names := Names(filed);
    if i, j :| 0 <= i < j < |names| && names[i] == names[j] {
      assert filed[i] in filed && filed[j] in filed && filed[i] != filed[j];
      var name := names[i];
      assert {filed[i], filed[j]} == {Link(name, None), Link(name, Some(0))};
      assert Link(name, None) in links && Link(name, Some(0)) in links;
    }
    if speed == 0 {
      if name :| Link(name, None) in links && Link(name, Some(0)) in links {
        var i :| 0 <= i < |filed| && filed[i] == Link(name, None);
        var j :| 0 <= j < |filed| && filed[j] == Link(name, Some(0));
        assert names[i] == names[j];
      }
    }
  }
}
