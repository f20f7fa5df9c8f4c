/**
 How long a peer counts as a member of a group: over whole runs of the switch, a membership ends when
 its latest report and the queries since then say so, and it is not forgotten before, unless the peer
 reports more groups than there is room for.
 */
module Memberships {
  import opened Prelude
  import opened SwitchSpec
  import opened SwitchTables
  import opened SwitchRuns

  // ---- When a membership ends ------------------------------------------------------------------------

  /** What an event makes of the end of a membership: a report sets it to the interval from now on, a
      query for the group lowers it. */
  function EndAfter(c: Config, e: Event, p: PeerId, g: Group, before: Option<int>): Option<int> {
    match e
    case Report(q, h, now) => if q == p && h == g then Some(now + c.interval) else before
    case Query(h, limit) => if h == g && before.Some? && limit < before.value then Some(limit) else before
    case Expire(q, h) => if q == p && h == g then None else before
    case Depart(q) => if q == p then None else before
    case _ => before
  }

  /** When the membership ends according to the history. */
  function EndOf(c: Config, es: seq<Event>, p: PeerId, g: Group): Option<int> {
    if es == [] then None else EndAfter(c, es[|es|-1], p, g, EndOf(c, es[..|es|-1], p, g))
  }

  ghost predicate Ends(s: Switch, p: PeerId, m: Member) {
    p in s.peers && m in s.peers[p].groups
  }

  lemma {:induction false} RemoveGroupMembers(groups: seq<Member>, g: Group, m: Member)
    requires Distinct(GroupsOf(groups))
    ensures m in RemoveGroup(groups, g) ==> m in groups && m.group != g
  {
    if groups != [] {
      var rest := groups[1..];
      assert GroupsOf(groups)[1..] == GroupsOf(rest);
      if groups[0].group == g {
        if m in rest {
          var i :| 0 <= i < |rest| && rest[i] == m;
          assert GroupsOf(groups)[i + 1] == m.group && GroupsOf(groups)[0] == g;
        }
      } else {
        RemoveGroupMembers(rest, g, m);
      }
    }
  }

  lemma TouchGroupMembers(groups: seq<Member>, g: Group, max: nat, end: int, m: Member)
    requires Distinct(GroupsOf(groups))
    ensures m in TouchGroup(groups, g, max, end) ==> if m.group == g then m.end == end else m in groups
  {
    RemoveGroupMembers(groups, g, m);
    if g !in GroupsOf(groups) && m in groups {
      var i :| 0 <= i < |groups| && groups[i] == m;
      assert GroupsOf(groups)[i] == m.group;
    }
  }

  lemma LoweredMembers(groups: seq<Member>, g: Group, limit: int, m: Member)
    requires m in LowerAll(groups, g, limit)
    ensures if m.group != g then m in groups
            else exists end :: Member(g, end) in groups && m.end == if limit < end then limit else end
  {
    var i :| 0 <= i < |groups| && LowerAll(groups, g, limit)[i] == m;
    assert groups[i] in groups;
    if m.group == g {
      assert groups[i] == Member(g, groups[i].end);
    }
  }

  lemma StepEnds(c: Config, s: Switch, e: Event, p: PeerId, m: Member)
    requires Inv(c, s) && Enabled(s, e) && Ends(Step(c, s, e), p, m)
    ensures (e.Report? && e.peer == p && e.group == m.group && m.end == e.now + c.interval) ||
      exists end :: Ends(s, p, Member(m.group, end)) && EndAfter(c, e, p, m.group, Some(end)) == Some(m.end)
  {
    hide Distinct, Elems;
    if p in s.peers {
      PeerFacts(c, s, p);
    }
    match e
    case Report(q, g, now) =>
      if q == p {
        TouchGroupMembers(s.peers[p].groups, g, c.maxGroups, now + c.interval, m);
      }
      assert m.group != g || q != p ==> Ends(s, p, Member(m.group, m.end));
    case Expire(q, g) =>
      if q == p {
        RemoveGroupMembers(s.peers[p].groups, g, m);
      }
      assert Ends(s, p, Member(m.group, m.end));
    case Query(g, limit) =>
      LoweredMembers(s.peers[p].groups, g, limit, m);
      if m.group == g {
        var end :| Member(g, end) in s.peers[p].groups && m.end == if limit < end then limit else end;
        assert Ends(s, p, Member(m.group, end));
      } else {
        assert Ends(s, p, Member(m.group, m.end));
      }
    case _ =>
      assert Ends(s, p, Member(m.group, m.end));
  }

  /** In every run a membership ends when the history says, and a peer whose membership has expired or
      that has departed is no member. */
  lemma {:induction false} MembershipEnds(c: Config, es: seq<Event>, p: PeerId, m: Member)
    requires 0 < c.maxMacs && 0 < c.maxGroups
    requires Run(c, EMPTY, es).Some? && p in Run(c, EMPTY, es).value.peers && m in Run(c, EMPTY, es).value.peers[p].groups
    ensures EndOf(c, es, p, m.group) == Some(m.end)
  {
    hide Step, Inv, Enabled;
    if es == [] {
      assert false;
    } else {
      var init, e := es[..|es|-1], es[|es|-1];
      var s := Run(c, EMPTY, init).value;
      assert Inv(c, EMPTY) by { EmptyOk(c); }
      RunKeepsInv(c, EMPTY, init);
      StepEnds(c, s, e, p, m);
      if end :| Ends(s, p, Member(m.group, end)) && EndAfter(c, e, p, m.group, Some(end)) == Some(m.end) {
        MembershipEnds(c, init, p, Member(m.group, end));
      }
    }
  }

  lemma EmptyOk(c: Config)
    requires 0 < c.maxMacs && 0 < c.maxGroups
    ensures Inv(c, EMPTY)
  {
  }

  // ---- How long a membership is remembered --------------------------------------------------------------

  lemma TouchGroupIsTouch(groups: seq<Member>, g: Group, max: nat, end: int)
    ensures GroupsOf(TouchGroup(groups, g, max, end)) == Touch(GroupsOf(groups), g, max)
  {
    RemoveGroupSound(groups, g);
    var t := TouchGroup(groups, g, max, end);
    if g in GroupsOf(groups) {
      assert GroupsOf(t) == GroupsOf(RemoveGroup(groups, g)) + [g];
    } else if |groups| >= max && groups != [] {
      assert GroupsOf(t) == GroupsOf(groups)[1..] + [g];
    } else {
      assert GroupsOf(t) == GroupsOf(groups) + [g];
    }
  }

  /** The groups a peer has reported. */
  ghost function Reported(es: seq<Event>, p: PeerId): set<Group> {
    if es == [] then {}
    else
      var before := Reported(es[..|es|-1], p);
      match es[|es|-1]
      case Report(q, g, _) => if q == p then before + {g} else before
      case _ => before
  }

  /** The membership does not expire and the peer stays. */
  predicate Stays(e: Event, p: PeerId, g: Group) {
    e != Expire(p, g) && e != Depart(p)
  }

  ghost predicate Remembers(s: Switch, p: PeerId, g: Group, newer: set<Group>) {
    p in s.peers && g in GroupsOf(s.peers[p].groups) && Newer(GroupsOf(s.peers[p].groups), g) <= newer
  }

  /** Another group of the peer. */
  predicate Other(e: Event, p: PeerId, g: Group) {
    e.Report? && e.peer == p && e.group != g
  }

  lemma StepRemembersGroup(c: Config, s: Switch, e: Event, p: PeerId, g: Group, newer: set<Group>)
    requires Inv(c, s) && Enabled(s, e) && Remembers(s, p, g, newer) && Stays(e, p, g)
    requires Other(e, p, g) ==> |newer + {e.group}| < c.maxGroups
    ensures Remembers(Step(c, s, e), p, g, if Other(e, p, g) then newer + {e.group} else newer)
  {
    hide Elems, Distinct, Newer, TouchGroup, RemoveGroup;
    var groups := s.peers[p].groups;
    PeerFacts(c, s, p);
    match e
    case Report(q, h, now) =>
      if q == p {
        TouchGroupIsTouch(groups, h, c.maxGroups, now + c.interval);
        if h == g {
          Refreshed(GroupsOf(groups), g, c.maxGroups);
        } else {
          SetSizes(Newer(GroupsOf(groups), g) + {h}, newer + {h});
          TouchRetains(GroupsOf(groups), g, h, c.maxGroups);
        }
      }
    case Expire(q, h) =>
      if q == p {
        RemoveGroupSound(groups, h);
        NewerRemove(GroupsOf(groups), g, h);
      }
    case Query(h, limit) =>
      LowerKeepsGroups(groups, h, limit);
    case _ =>
  }

  /** What has just been refreshed is the newest. */
  lemma Refreshed<T>(entries: seq<T>, x: T, max: nat)
    requires Distinct(entries)
    ensures x in Touch(entries, x, max) && Newer(Touch(entries, x, max), x) == {}
  {
    if x in entries {
      RemoveSound(entries, x);
      ElemsMember(Remove(entries, x), x);
      NewestHasNoNewer(Remove(entries, x), x);
    } else if |entries| >= max && entries != [] {
      NewestHasNoNewer(entries[1..], x);
    } else {
      NewestHasNoNewer(entries, x);
    }
  }

  lemma {:induction false} ReportedLast(es: seq<Event>, p: PeerId, g: Group)
    requires es != []
    ensures var before, e := Reported(es[..|es|-1], p) - {g}, es[|es|-1];
      Reported(es, p) - {g} == if Other(e, p, g) then before + {e.group} else before
  {
  }

  lemma {:induction false} RunRemembersGroup(c: Config, s: Switch, es: seq<Event>, p: PeerId, g: Group)
    requires Inv(c, s) && Remembers(s, p, g, {}) && (forall i :: 0 <= i < |es| ==> Stays(es[i], p, g))
    requires Run(c, s, es).Some? && |Reported(es, p) - {g}| < c.maxGroups
    ensures Remembers(Run(c, s, es).value, p, g, Reported(es, p) - {g})
  {
    hide Inv, Step, Remembers, Run, Enabled, Stays, Other;
    RunLast(c, s, es);
    if es == [] {
      assert Reported(es, p) - {g} == {};
    } else {
      var init, e := es[..|es|-1], es[|es|-1];
      assert Stays(e, p, g) && forall i :: 0 <= i < |init| ==> init[i] == es[i];
      ReportedLast(es, p, g);
      SetSizes(Reported(init, p) - {g}, Reported(es, p) - {g});
      RunRemembersGroup(c, s, init, p, g);
      RunKeepsInv(c, s, init);
      StepRemembersGroup(c, Run(c, s, init).value, e, p, g, Reported(init, p) - {g});
    }
  }

  /** A peer that has reported a group stays a member until the membership expires, the peer departs, or
      it has reported as many other groups as it may be in. */
  lemma {:induction false} MembershipRetained(c: Config, s: Switch, es: seq<Event>, p: PeerId, g: Group, now: int)
    requires Inv(c, s) && p in s.peers && (forall i :: 0 <= i < |es| ==> Stays(es[i], p, g))
    requires |Reported(es, p) - {g}| < c.maxGroups && Run(c, Join(c, s, p, g, now), es).Some?
    ensures var t := Run(c, Join(c, s, p, g, now), es).value; p in t.peers && g in GroupsOf(t.peers[p].groups)
  {
    hide Inv, Run, Reported;
    var e := Report(p, g, now);
    PeerFacts(c, s, p);
    TouchGroupIsTouch(s.peers[p].groups, g, c.maxGroups, now + c.interval);
    Refreshed(GroupsOf(s.peers[p].groups), g, c.maxGroups);
    StepKeepsInv(c, s, e);
    RunRemembersGroup(c, Join(c, s, p, g, now), es, p, g);
  }
}
