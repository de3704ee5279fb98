/**
 * Group invitations (server/controllers/groupController.js): who is a member, who is invited, and how
 * invite, accept and reject move users between the two lists.
 */
module Groups {
  import opened Sequences

  datatype Group = Group(admin: string, members: seq<string>, pending: seq<string>)

  datatype Response = Created | Ok | BadRequest | NotFound

  /** `list.filter(id => id !== u)`. */
  function Removing(list: seq<string>, u: string): seq<string> {
    if list == [] then []
    else
      var rest, last := Removing(list[..|list| - 1], u), list[|list| - 1];
      if last == u then rest else rest + [last]
  }

  /** What is left is everything else, in its order. */
  lemma {:induction false} RemovingKeeps(list: seq<string>, u: string)
    ensures Keeps(list, Removing(list, u), set i: nat | i < |list| && list[i] != u)
  {
    var at := set i: nat | i < |list| && list[i] != u;
    if list == [] {
      KeepsNothing(list, at);
    } else {
      var front := list[..|list| - 1];
      RemovingKeeps(front, u);
      assert at - {|front|} == set i: nat | i < |front| && front[i] != u;
      KeepsLast(list, Removing(front, u), at);
    }
  }

  lemma {:induction false} RemovingAbsent(list: seq<string>, u: string)
    requires u !in list
    ensures Removing(list, u) == list
  {
    if list != [] {
      RemovingAbsent(list[..|list| - 1], u);
    }
  }

  function New(admin: string, invited: seq<string>): Group {
    Group(admin, [admin], invited)
  }

  function AfterInvite(g: Group, u: string): Group {
    if u in g.members || u in g.pending then g else g.(pending := g.pending + [u])
  }

  function AfterAccept(g: Group, u: string): Group {
    if u !in g.pending then g else g.(pending := Removing(g.pending, u), members := g.members + [u])
  }

  function AfterReject(g: Group, u: string): Group {
    g.(pending := Removing(g.pending, u))
  }

  class GroupController {
    var groups: map<string, Group>

    constructor ()
      ensures groups == map[]
    {
      groups := map[];
    }

    /** `groupId` is the id the database gives the new document. */
    method CreateGroup(groupId: string, admin: string, invitedUserIds: Option<seq<string>>) returns (response: Response)
      modifies this
      ensures response == Created
      ensures groups == old(groups)[groupId := New(admin, invitedUserIds.GetOr([]))]
      ensures groups[groupId] == Group(admin, [admin], if invitedUserIds.Some? then invitedUserIds.value else [])
    {
      var invited := [];
      if invitedUserIds.Some? {
        invited := invitedUserIds.value;
      }
      groups := groups[groupId := Group(admin, [admin], invited)];
      response := Created;
    }

    method InviteToGroup(groupId: string, userId: string) returns (response: Response)
      modifies this
      ensures groupId !in old(groups) ==> response == NotFound && groups == old(groups)
      ensures groupId in old(groups) ==>
        var g := old(groups)[groupId];
        && groups == old(groups)[groupId := AfterInvite(g, userId)]
        && response == (if userId in g.members || userId in g.pending then BadRequest else Ok)
        && groups[groupId].members == g.members && groups[groupId].admin == g.admin
        && groups[groupId].pending == if response == Ok then g.pending + [userId] else g.pending
    {
      if groupId !in groups {
        return NotFound;
      }
      var group := groups[groupId];
      if userId in group.members || userId in group.pending {
        return BadRequest;
      }
      group := group.(pending := group.pending + [userId]);
      groups := groups[groupId := group];
      return Ok;
    }

    method AcceptInvite(groupId: string, userId: string) returns (response: Response)
      modifies this
      ensures groupId !in old(groups) ==> response == NotFound && groups == old(groups)
      ensures groupId in old(groups) ==>
        var g := old(groups)[groupId];
        && groups == old(groups)[groupId := AfterAccept(g, userId)]
        && response == (if userId in g.pending then Ok else BadRequest)
        && groups[groupId].admin == g.admin
        && groups[groupId].members == (if response == Ok then g.members + [userId] else g.members)
        && Keeps(g.pending, groups[groupId].pending, set i: nat | i < |g.pending| && g.pending[i] != userId)
    {
      if groupId in groups {
        RemovingKeeps(groups[groupId].pending, userId);
        if userId !in groups[groupId].pending {
          RemovingAbsent(groups[groupId].pending, userId);
        }
      }
      if groupId !in groups {
        return NotFound;
      }
      var group := groups[groupId];
      if userId !in group.pending {
        return BadRequest;
      }
      group := group.(pending := Removing(group.pending, userId));
      group := group.(members := group.members + [userId]);
      groups := groups[groupId := group];
      return Ok;
    }

    method RejectInvite(groupId: string, userId: string) returns (response: Response)
      modifies this
      ensures groupId !in old(groups) ==> response == NotFound && groups == old(groups)
      ensures groupId in old(groups) ==>
        var g := old(groups)[groupId];
        && response == Ok && groups == old(groups)[groupId := AfterReject(g, userId)]
        && groups[groupId].members == g.members && groups[groupId].admin == g.admin
        && Keeps(g.pending, groups[groupId].pending, set i: nat | i < |g.pending| && g.pending[i] != userId)
    {
      if groupId in groups {
        RemovingKeeps(groups[groupId].pending, userId);
      }
      if groupId !in groups {
        return NotFound;
      }
      var group := groups[groupId];
      groups := groups[groupId := group.(pending := Removing(group.pending, userId))];
      return Ok;
    }
  }

  // ----- every run ----------------------------------------------------------------------------------

  datatype Event = Invite(user: string) | Accept(user: string) | Reject(user: string)

  function Step(g: Group, e: Event): Group {
    match e
    case Invite(u) => AfterInvite(g, u)
    case Accept(u) => AfterAccept(g, u)
    case Reject(u) => AfterReject(g, u)
  }

  function Run(admin: string, invited: seq<string>, events: seq<Event>): Group {
    if events == [] then New(admin, invited)
    else Step(Run(admin, invited, events[..|events| - 1]), events[|events| - 1])
  }

  function Occurs(u: string, list: seq<string>): nat {
    if list == [] then 0
    else Occurs(u, list[..|list| - 1]) + if list[|list| - 1] == u then 1 else 0
  }

  lemma {:induction false} OccursIn(u: string, list: seq<string>)
    ensures Occurs(u, list) > 0 <==> u in list
  {
    if list != [] {
      OccursIn(u, list[..|list| - 1]);
      assert list == list[..|list| - 1] + [list[|list| - 1]];
    }
  }

  lemma OccursAppend(u: string, list: seq<string>, x: string)
    ensures Occurs(u, list + [x]) == Occurs(u, list) + if x == u then 1 else 0
  {
    assert (list + [x])[..|list + [x]| - 1] == list;
  }

  lemma {:induction false} RemovingLength(list: seq<string>, u: string)
    ensures |Removing(list, u)| + Occurs(u, list) == |list|
  {
    if list != [] {
      RemovingLength(list[..|list| - 1], u);
    }
  }

  lemma {:induction false} RemovingOccurs(list: seq<string>, u: string, other: string)
    ensures Occurs(other, Removing(list, u)) == if other == u then 0 else Occurs(other, list)
  {
    if list != [] {
      var front, last := list[..|list| - 1], list[|list| - 1];
      RemovingOccurs(front, u, other);
      if last != u {
        OccursAppend(other, Removing(front, u), last);
      }
    }
  }

  lemma {:induction false} DistinctOccurOnce(list: seq<string>, u: string)
    requires Distinct(list)
    ensures Occurs(u, list) <= 1
  {
    if list != [] {
      var front, last := list[..|list| - 1], list[|list| - 1];
      DistinctOccurOnce(front, u);
      OccursIn(last, front);
      DistinctSnoc(front, last);
      assert list == front + [last];
    }
  }

  lemma {:induction false} OccurOnceDistinct(list: seq<string>)
    requires forall u :: Occurs(u, list) <= 1
    ensures Distinct(list)
  {
    if list != [] {
      var front, last := list[..|list| - 1], list[|list| - 1];
      forall u
        ensures Occurs(u, front) <= 1
      {
        assert Occurs(u, list) <= 1;
      }
      OccurOnceDistinct(front);
      assert Occurs(last, list) <= 1;
      OccursIn(last, front);
      DistinctSnoc(front, last);
      assert list == front + [last];
    }
  }

  /** How often one user can stand in the two lists. */
  ghost predicate UserInv(g: Group, invited: seq<string>, u: string) {
    && Occurs(u, g.pending) <= (if Occurs(u, invited) > 1 then Occurs(u, invited) else 1)
    && (u != g.admin ==> Occurs(u, g.members) <= 1 && (Occurs(u, g.members) == 0 || Occurs(u, g.pending) == 0))
    && (u == g.admin ==>
          && 1 <= Occurs(u, g.members) <= 2
          && (Occurs(u, g.members) == 2 ==> Occurs(u, g.pending) == 0)
          && (Occurs(u, g.pending) > 0 ==> u in invited))
  }

  lemma StepKeepsUserInv(g: Group, invited: seq<string>, u: string, e: Event)
    requires UserInv(g, invited, u)
    ensures UserInv(Step(g, e), invited, u)
  {
    OccursIn(u, g.members);
    OccursIn(u, g.pending);
    OccursAppend(u, g.pending, e.user);
    OccursAppend(u, g.members, e.user);
    RemovingOccurs(g.pending, e.user, u);
  }

  /**
   * For every initial invite list, repetitions and the creator allowed, and every run: a user other than the
   * admin is a member at most once and never while still invited; the admin is a member once or twice, and
   * can only be invited if the initial list named the admin; invitations do not multiply.
   */
  lemma {:induction false} MembershipInvariant(admin: string, invited: seq<string>, events: seq<Event>, u: string)
    ensures Run(admin, invited, events).admin == admin
    ensures UserInv(Run(admin, invited, events), invited, u)
  {
    if events == [] {
      OccursIn(u, invited);
      assert [admin][..0] == [];
    } else {
      MembershipInvariant(admin, invited, events[..|events| - 1], u);
      StepKeepsUserInv(Run(admin, invited, events[..|events| - 1]), invited, u, events[|events| - 1]);
    }
  }

  // ----- each user's own history --------------------------------------------------------------------

  datatype Standing = Outside | Invited | Member

  function StandingOf(g: Group, u: string): Standing {
    if u in g.members then Member else if u in g.pending then Invited else Outside
  }

  /** What a user's own events make of the user, whatever others do. */
  function Next(standing: Standing, u: string, e: Event): Standing {
    if e.user != u then standing
    else
      match (standing, e)
      case (Outside, Invite(_)) => Invited
      case (Invited, Accept(_)) => Member
      case (Invited, Reject(_)) => Outside
      case _ => standing
  }

  function Follow(standing: Standing, u: string, events: seq<Event>): Standing {
    if events == [] then standing
    else Next(Follow(standing, u, events[..|events| - 1]), u, events[|events| - 1])
  }

  /** The admin is always a member; every other user stands where that user's own invitations and answers lead. */
  lemma {:induction false} StandingIsOwnHistory(admin: string, invited: seq<string>, events: seq<Event>, u: string)
    ensures StandingOf(Run(admin, invited, events), u)
            == if u == admin then Member else Follow(if u in invited then Invited else Outside, u, events)
  {
    if events != [] {
      var front, e := events[..|events| - 1], events[|events| - 1];
      StandingIsOwnHistory(admin, invited, front, u);
      MembershipInvariant(admin, invited, front, u);
      var g := Run(admin, invited, front);
      OccursIn(u, g.members);
      OccursIn(u, g.pending);
      RemovingOccurs(g.pending, e.user, u);
      OccursIn(u, Removing(g.pending, e.user));
    }
  }

  /** Nobody joins uninvited: every member but the admin was invited before accepting. */
  lemma {:induction false} MembersWereInvited(admin: string, invited: seq<string>, events: seq<Event>, u: string)
    requires u != admin
    ensures StandingOf(Run(admin, invited, events), u) != Outside ==>
      u in invited || exists i :: 0 <= i < |events| && events[i] == Invite(u)
    ensures u in Run(admin, invited, events).members ==>
      exists j :: 0 <= j < |events| && events[j] == Accept(u)
                  && (u in invited || exists i :: 0 <= i < j && events[i] == Invite(u))
  {
    if events != [] {
      var front, e := events[..|events| - 1], events[|events| - 1];
      MembersWereInvited(admin, invited, front, u);
      StandingIsOwnHistory(admin, invited, front, u);
      StandingIsOwnHistory(admin, invited, events, u);
      assert forall i :: 0 <= i < |front| ==> events[i] == front[i];
    }
  }

  /** Members are only ever added, at the end. */
  lemma {:induction false} MembersOnlyGrow(admin: string, invited: seq<string>, events: seq<Event>, more: seq<Event>)
    ensures Run(admin, invited, events).members <= Run(admin, invited, events + more).members
    decreases |more|
  {
    if more == [] {
      assert events + more == events;
    } else {
      MembersOnlyGrow(admin, invited, events, more[..|more| - 1]);
      assert (events + more)[..|events + more| - 1] == events + more[..|more| - 1];
    }
  }

  // ----- clean groups -------------------------------------------------------------------------------

  ghost predicate Clean(g: Group) {
    Distinct(g.members) && Distinct(g.pending) && forall u :: u in g.members ==> u !in g.pending
  }

  /** Every reachable group is clean exactly when the invite list is duplicate-free and omits the creator. */
  lemma CleanExactlyWhen(admin: string, invited: seq<string>)
    ensures (forall events :: Clean(Run(admin, invited, events))) <==> Distinct(invited) && admin !in invited
  {
    if Distinct(invited) && admin !in invited {
      forall events
        ensures Clean(Run(admin, invited, events))
      {
        CleanRun(admin, invited, events);
      }
    } else {
      var none: seq<Event> := [];
      assert New(admin, invited).members[0] == admin;
      assert !Clean(Run(admin, invited, none));
    }
  }

  lemma CleanRun(admin: string, invited: seq<string>, events: seq<Event>)
    requires Distinct(invited) && admin !in invited
    ensures Clean(Run(admin, invited, events))
  {
    var g := Run(admin, invited, events);
    forall u
      ensures Occurs(u, g.members) <= 1 && Occurs(u, g.pending) <= 1 && (u in g.members ==> u !in g.pending)
    {
      MembershipInvariant(admin, invited, events, u);
      DistinctOccurOnce(invited, u);
      OccursIn(u, g.members);
      OccursIn(u, g.pending);
      if u == admin {
        AdminOnce(admin, invited, events);
      }
    }
    OccurOnceDistinct(g.members);
    OccurOnceDistinct(g.pending);
  }

  /** An admin the initial list omits is never invited and stays a member once. */
  lemma {:induction false} AdminOnce(admin: string, invited: seq<string>, events: seq<Event>)
    requires admin !in invited
    ensures Occurs(admin, Run(admin, invited, events).members) == 1
    ensures Occurs(admin, Run(admin, invited, events).pending) == 0
  {
    if events == [] {
      OccursIn(admin, invited);
      assert [admin][..0] == [];
    } else {
      var front, e := events[..|events| - 1], events[|events| - 1];
      AdminOnce(admin, invited, front);
      var g := Run(admin, invited, front);
      OccursIn(admin, g.members);
      OccursIn(admin, g.pending);
      OccursAppend(admin, g.pending, e.user);
      OccursAppend(admin, g.members, e.user);
      RemovingOccurs(g.pending, e.user, admin);
    }
  }

  function Size(g: Group): nat {
    |g.members| + |g.pending|
  }

  /**
   * In a clean group, an accept moves exactly one user and the two lists together change size only by a
   * successful invite (one more) or the reject of an invited user (one fewer).
   */
  lemma CleanStepsConserve(g: Group, e: Event)
    requires Clean(g)
    ensures var g' := Step(g, e);
            match e
            case Invite(u) => Size(g') == Size(g) + (if StandingOf(g, u) == Outside then 1 else 0)
            case Accept(u) =>
              && Size(g') == Size(g)
              && (u in g.pending ==> g'.members == g.members + [u] && |g'.pending| == |g.pending| - 1
                                     && StandingOf(g', u) == Member)
            case Reject(u) => Size(g') == Size(g) - (if StandingOf(g, u) == Invited then 1 else 0)
  {
    DistinctOccurOnce(g.pending, e.user);
    OccursIn(e.user, g.pending);
    RemovingOccurs(g.pending, e.user, e.user);
    OccursIn(e.user, Removing(g.pending, e.user));
    RemovingLength(g.pending, e.user);
  }

  /** The admin is a member exactly once in every run exactly when the initial list omits the creator. */
  lemma AdminOnceExactlyWhen(admin: string, invited: seq<string>)
    ensures (forall events :: Occurs(admin, Run(admin, invited, events).members) == 1) <==> admin !in invited
  {
    if admin in invited {
      AcceptingAdminTwice(admin, invited);
    } else {
      forall events
        ensures Occurs(admin, Run(admin, invited, events).members) == 1
      {
        AdminOnce(admin, invited, events);
      }
    }
  }

  /** A creator named in the initial list becomes a member again by accepting. */
  lemma AcceptingAdminTwice(admin: string, invited: seq<string>)
    requires admin in invited
    ensures Run(admin, invited, [Accept(admin)]).members == [admin, admin]
    ensures Occurs(admin, Run(admin, invited, [Accept(admin)]).members) == 2
  {
    assert [Accept(admin)][..0] == [];
    OccursAppend(admin, [admin], admin);
    OccursAppend(admin, [], admin);
    assert [] + [admin] == [admin] && [admin] + [admin] == [admin, admin];
  }
}
