/**
 * Group invitations when handlers overlap (server/controllers/groupController.js): each handler loads the group,
 * decides, and saves in a later step.
 *
 * The document mapper is not part of the repository; what is taken of it is that a save sends the changes made to
 * the loaded document: a push appends to the stored list, and a reassigned list replaces the stored one, unless the
 * document was saved since it was loaded, when the save fails.
 */
module OverlappingInvites {
  import opened Sequences
  import opened Groups

  /** A handler that has loaded the group and not saved it yet. */
  datatype Request = Request(event: Event, seen: Group, version: nat)

  /** The stored group and how often it has been saved. */
  datatype Shared = Shared(group: Group, version: nat, requests: map<nat, Request>)

  datatype Action = Load(id: nat, event: Event) | Save(id: nat)

  /** Whether the handler goes on after loading. */
  predicate Passes(g: Group, e: Event) {
    match e
    case Invite(u) => u !in g.members && u !in g.pending
    case Accept(u) => u in g.pending
    case Reject(_) => true
  }

  /** What a save makes of the stored group; None when it writes nothing or fails. */
  function Saved(s: Shared, r: Request): Option<Group> {
    match r.event
    case Invite(u) => Some(s.group.(pending := s.group.pending + [u]))
    case Accept(u) =>
      if r.version != s.version then None
      else Some(s.group.(pending := Removing(r.seen.pending, u), members := s.group.members + [u]))
    case Reject(u) =>
      if r.version != s.version || u !in r.seen.pending then None
      else Some(s.group.(pending := Removing(r.seen.pending, u)))
  }

  function Act(s: Shared, a: Action): Shared {
    match a
    case Load(id, e) =>
      if id in s.requests || !Passes(s.group, e) then s
      else s.(requests := s.requests[id := Request(e, s.group, s.version)])
    case Save(id) =>
      if id !in s.requests then s
      else
        match Saved(s, s.requests[id])
        case None => s.(requests := s.requests - {id})
        case Some(g) => Shared(g, s.version + 1, s.requests - {id})
  }

  function Share(admin: string, invited: seq<string>, actions: seq<Action>): Shared {
    if actions == [] then Shared(New(admin, invited), 0, map[])
    else Act(Share(admin, invited, actions[..|actions| - 1]), actions[|actions| - 1])
  }

  /** A request that has seen the latest save has seen the stored group. */
  ghost predicate SeenInv(s: Shared) {
    forall id :: id in s.requests ==>
      && s.requests[id].version <= s.version
      && (s.requests[id].version == s.version ==> s.requests[id].seen == s.group)
      && Passes(s.requests[id].seen, s.requests[id].event)
  }

  lemma {:induction false} SharesKeepSeen(admin: string, invited: seq<string>, actions: seq<Action>)
    ensures SeenInv(Share(admin, invited, actions))
  {
    if actions != [] {
      SharesKeepSeen(admin, invited, actions[..|actions| - 1]);
    }
  }

  /** The save of an invite whose user is no longer outside. */
  predicate Late(s: Shared, a: Action) {
    a.Save? && a.id in s.requests && s.requests[a.id].event.Invite?
    && StandingOf(s.group, s.requests[a.id].event.user) != Outside
  }

  lemma InviteCleanExactlyWhen(g: Group, u: string)
    requires Clean(g)
    ensures Clean(g.(pending := g.pending + [u])) <==> StandingOf(g, u) == Outside
  {
    var g' := g.(pending := g.pending + [u]);
    DistinctSnoc(g.pending, u);
    assert g'.pending[|g.pending|] == u;
    assert forall x :: x in g.pending ==> x in g'.pending;
  }

  lemma AnswersKeepClean(g: Group, e: Event)
    requires Clean(g) && !e.Invite?
    ensures Clean(Step(g, e))
  {
    forall u
      ensures Occurs(u, Step(g, e).members) <= 1 && Occurs(u, Step(g, e).pending) <= 1
              && (u in Step(g, e).members ==> u !in Step(g, e).pending)
    {
      DistinctOccurOnce(g.members, u);
      DistinctOccurOnce(g.pending, u);
      OccursIn(u, g.members);
      OccursIn(u, g.pending);
      OccursAppend(u, g.members, e.user);
      RemovingOccurs(g.pending, e.user, u);
      OccursIn(u, Removing(g.pending, e.user));
    }
    OccurOnceDistinct(Step(g, e).members);
    OccurOnceDistinct(Step(g, e).pending);
  }

  /** From a clean group, an action leaves it clean exactly when it is not a late invite. */
  lemma ActCleanExactlyWhen(s: Shared, a: Action)
    requires SeenInv(s) && Clean(s.group)
    ensures Clean(Act(s, a).group) <==> !Late(s, a)
  {
    if a.Save? && a.id in s.requests {
      var e := s.requests[a.id].event;
      if e.Invite? {
        InviteCleanExactlyWhen(s.group, e.user);
      } else {
        AnswersKeepClean(s.group, e);
      }
    }
  }

  ghost predicate AlwaysClean(admin: string, invited: seq<string>, actions: seq<Action>) {
    Clean(Share(admin, invited, actions).group)
    && (actions != [] ==> AlwaysClean(admin, invited, actions[..|actions| - 1]))
  }

  predicate NeverLate(admin: string, invited: seq<string>, actions: seq<Action>) {
    actions != [] ==>
      && NeverLate(admin, invited, actions[..|actions| - 1])
      && !Late(Share(admin, invited, actions[..|actions| - 1]), actions[|actions| - 1])
  }

  /**
   * In every interleaving, from a duplicate-free invite list that omits the creator, the two lists stay
   * duplicate-free and disjoint exactly when no invite is saved after its user was invited or became a member.
   */
  lemma {:induction false} CleanExactlyWhenNeverLate(admin: string, invited: seq<string>, actions: seq<Action>)
    requires Distinct(invited) && admin !in invited
    ensures AlwaysClean(admin, invited, actions) <==> NeverLate(admin, invited, actions)
  {
    if actions != [] {
      var front, a := actions[..|actions| - 1], actions[|actions| - 1];
      CleanExactlyWhenNeverLate(admin, invited, front);
      SharesKeepSeen(admin, invited, front);
      if AlwaysClean(admin, invited, front) {
        ActCleanExactlyWhen(Share(admin, invited, front), a);
      }
    }
  }

  /**
   * For every initial invite list, repetitions and the creator allowed: without late invites, overlapping handlers
   * keep the bounds on how often a user stands in the lists that serial handlers keep.
   */
  lemma {:induction false} NeverLateKeepsUserInv(admin: string, invited: seq<string>, actions: seq<Action>, u: string)
    requires NeverLate(admin, invited, actions)
    ensures Share(admin, invited, actions).group.admin == admin
    ensures UserInv(Share(admin, invited, actions).group, invited, u)
  {
    if actions == [] {
      MembershipInvariant(admin, invited, [], u);
    } else {
      var front, a := actions[..|actions| - 1], actions[|actions| - 1];
      var s := Share(admin, invited, front);
      NeverLateKeepsUserInv(admin, invited, front, u);
      SharesKeepSeen(admin, invited, front);
      if a.Save? && a.id in s.requests {
        StepKeepsUserInv(s.group, invited, u, s.requests[a.id].event);
      }
    }
  }

  // ----- the history of saves -----------------------------------------------------------------------

  /** The event an action saves, if it saves one. */
  function Write(s: Shared, a: Action): seq<Event> {
    if a.Save? && a.id in s.requests && Saved(s, s.requests[a.id]).Some? then [s.requests[a.id].event] else []
  }

  /** The events saved, in the order of their saves. */
  function Writes(admin: string, invited: seq<string>, actions: seq<Action>): seq<Event> {
    if actions == [] then []
    else
      var front := actions[..|actions| - 1];
      Writes(admin, invited, front) + Write(Share(admin, invited, front), actions[|actions| - 1])
  }

  /** The events saved since this request loaded the group. */
  function WritesSince(admin: string, invited: seq<string>, actions: seq<Action>, id: nat): seq<Event> {
    if actions == [] || id !in Share(admin, invited, actions[..|actions| - 1]).requests then []
    else
      var front := actions[..|actions| - 1];
      WritesSince(admin, invited, front, id) + Write(Share(admin, invited, front), actions[|actions| - 1])
  }

  lemma FollowAppend(standing: Standing, u: string, events: seq<Event>, e: Event)
    ensures Follow(standing, u, events + [e]) == Next(Follow(standing, u, events), u, e)
  {
    assert (events + [e])[..|events + [e]| - 1] == events;
  }

  /** An action moves a user's standing as the event it saves says, and not at all if it saves none. */
  lemma ActStanding(s: Shared, a: Action, u: string, events: seq<Event>, from: Standing)
    requires SeenInv(s) && StandingOf(s.group, u) == Follow(from, u, events)
    ensures StandingOf(Act(s, a).group, u) == Follow(from, u, events + Write(s, a))
  {
    if Write(s, a) == [] {
      assert events + Write(s, a) == events;
    } else {
      var e := s.requests[a.id].event;
      FollowAppend(from, u, events, e);
      OccursIn(u, s.group.pending);
      OccursIn(u, s.group.members);
      RemovingOccurs(s.group.pending, e.user, u);
      OccursIn(u, Removing(s.group.pending, e.user));
    }
  }

  /** In every interleaving and from every initial list, a user stands where the user's saved events lead. */
  lemma {:induction false} StandingIsSavedHistory(admin: string, invited: seq<string>, actions: seq<Action>, u: string)
    ensures StandingOf(Share(admin, invited, actions).group, u)
            == Follow(StandingOf(New(admin, invited), u), u, Writes(admin, invited, actions))
  {
    if actions != [] {
      var front := actions[..|actions| - 1];
      StandingIsSavedHistory(admin, invited, front, u);
      SharesKeepSeen(admin, invited, front);
      ActStanding(Share(admin, invited, front), actions[|actions| - 1], u, Writes(admin, invited, front),
                  StandingOf(New(admin, invited), u));
    }
  }

  /**
   * An invite is late exactly when the events saved since it loaded the group, another invite of the user among them,
   * have brought the user in and not out again.
   */
  lemma {:induction false} LateExactlyWhen(admin: string, invited: seq<string>, actions: seq<Action>, id: nat)
    requires id in Share(admin, invited, actions).requests
    requires Share(admin, invited, actions).requests[id].event.Invite?
    ensures var s := Share(admin, invited, actions);
            var u, since := s.requests[id].event.user, WritesSince(admin, invited, actions, id);
            && StandingOf(s.group, u) == Follow(Outside, u, since)
            && (Late(s, Save(id)) <==> Follow(Outside, u, since) != Outside)
            && (Late(s, Save(id)) ==> Invite(u) in since)
  {
    var front, a := actions[..|actions| - 1], actions[|actions| - 1];
    var before := Share(admin, invited, front);
    var u := Share(admin, invited, actions).requests[id].event.user;
    if id in before.requests {
      LateExactlyWhen(admin, invited, front, id);
      SharesKeepSeen(admin, invited, front);
      ActStanding(before, a, u, WritesSince(admin, invited, front, id), Outside);
    }
    NobodyComesInUninvited(u, WritesSince(admin, invited, actions, id));
  }

  lemma {:induction false} NobodyComesInUninvited(u: string, events: seq<Event>)
    ensures Follow(Outside, u, events) != Outside ==> Invite(u) in events
  {
    if events != [] {
      var front, e := events[..|events| - 1], events[|events| - 1];
      NobodyComesInUninvited(u, front);
      assert events == front + [e];
    }
  }

  // ----- how often a user is listed -----------------------------------------------------------------

  /** How often this event was saved. */
  function Times(e: Event, events: seq<Event>): nat {
    if events == [] then 0
    else Times(e, events[..|events| - 1]) + if events[|events| - 1] == e then 1 else 0
  }

  /** The invitations of a user since the user's latest answer; `listed` of them in the initial list. */
  function Unanswered(listed: nat, u: string, events: seq<Event>): nat {
    if events == [] then listed
    else
      var e := events[|events| - 1];
      if e.user == u && !e.Invite? then 0
      else Unanswered(listed, u, events[..|events| - 1]) + if e == Invite(u) then 1 else 0
  }

  lemma HistoryAppend(e: Event, events: seq<Event>, u: string, listed: nat)
    ensures forall x :: Times(x, events + [e]) == Times(x, events) + if e == x then 1 else 0
    ensures Unanswered(listed, u, events + [e])
            == if e.user == u && !e.Invite? then 0 else Unanswered(listed, u, events) + if e == Invite(u) then 1 else 0
  {
    assert (events + [e])[..|events + [e]| - 1] == events;
  }

  /** The lists hold a user as often as the saves say, and each acceptance has used up an invitation. */
  ghost predicate ListedAsSaved(g: Group, admin: string, invited: seq<string>, u: string, events: seq<Event>) {
    && Occurs(u, g.members) == (if u == admin then 1 else 0) + Times(Accept(u), events)
    && Occurs(u, g.pending) == Unanswered(Occurs(u, invited), u, events)
    && Times(Accept(u), events) + (if u in g.pending then 1 else 0)
       <= Times(Invite(u), events) + if u in invited then 1 else 0
  }

  /** What a save makes of the group: an invite is appended, an answer taken as the one-step handler does. */
  function Effected(g: Group, e: Event): Group {
    if e.Invite? then g.(pending := g.pending + [e.user]) else Step(g, e)
  }

  lemma WriteEffects(s: Shared, a: Action)
    requires SeenInv(s)
    ensures if Write(s, a) == [] then Act(s, a).group == s.group
            else
              && a.Save? && a.id in s.requests && Write(s, a) == [s.requests[a.id].event]
              && Act(s, a).group == Effected(s.group, s.requests[a.id].event)
              && (s.requests[a.id].event.Accept? ==> s.requests[a.id].event.user in s.group.pending)
  {
  }

  lemma EffectKeepsListed(g: Group, e: Event, admin: string, invited: seq<string>, u: string, events: seq<Event>)
    requires ListedAsSaved(g, admin, invited, u, events) && (e.Accept? ==> e.user in g.pending)
    ensures ListedAsSaved(Effected(g, e), admin, invited, u, events + [e])
  {
    var g' := Effected(g, e);
    HistoryAppend(e, events, u, Occurs(u, invited));
    OccursIn(u, g.pending);
    OccursIn(u, g'.pending);
    OccursAppend(u, g.pending, e.user);
    OccursAppend(u, g.members, e.user);
    RemovingOccurs(g.pending, e.user, u);
  }

  lemma ActKeepsListed(s: Shared, a: Action, admin: string, invited: seq<string>, u: string, events: seq<Event>)
    requires SeenInv(s) && ListedAsSaved(s.group, admin, invited, u, events)
    ensures ListedAsSaved(Act(s, a).group, admin, invited, u, events + Write(s, a))
  {
    WriteEffects(s, a);
    if Write(s, a) == [] {
      assert events + Write(s, a) == events;
    } else {
      EffectKeepsListed(s.group, s.requests[a.id].event, admin, invited, u, events);
    }
  }

  /**
   * In every interleaving and from every initial list, repetitions and the creator allowed: a user is a member once
   * for each saved acceptance, the admin once more; is invited once for each invitation since the latest saved
   * answer; and is accepted no more often than invited, counting a listed user as invited once.
   */
  lemma {:induction false} ListedExactlyAsSaved(admin: string, invited: seq<string>, actions: seq<Action>, u: string)
    ensures ListedAsSaved(Share(admin, invited, actions).group, admin, invited, u, Writes(admin, invited, actions))
  {
    if actions == [] {
      OccursIn(u, invited);
      assert [admin][..0] == [];
    } else {
      var front := actions[..|actions| - 1];
      ListedExactlyAsSaved(admin, invited, front, u);
      SharesKeepSeen(admin, invited, front);
      ActKeepsListed(Share(admin, invited, front), actions[|actions| - 1], admin, invited, u,
                     Writes(admin, invited, front));
    }
  }

  // ----- a handler alone, and one overtaken ---------------------------------------------------------

  /** A handler with nothing between its load and its save changes the group as the one-step handler does. */
  lemma SoloHandlerIsStep(s: Shared, id: nat, e: Event)
    requires id !in s.requests
    ensures Act(Act(s, Load(id, e)), Save(id)).group == Step(s.group, e)
    ensures Act(Act(s, Load(id, e)), Save(id)).requests == s.requests
  {
    if e.user !in s.group.pending {
      RemovingAbsent(s.group.pending, e.user);
    }
    assert s.requests[id := Request(e, s.group, s.version)] - {id} == s.requests;
  }

  /** An answer saved after another save fails and changes nothing; an invite is appended all the same. */
  lemma OvertakenHandlers(s: Shared, id: nat)
    requires id in s.requests && s.requests[id].version != s.version
    ensures var g' := Act(s, Save(id)).group;
            match s.requests[id].event
            case Invite(u) => g' == s.group.(pending := s.group.pending + [u])
            case _ => g' == s.group
    ensures id !in Act(s, Save(id)).requests
  {
  }

  /** Two invites of one user that both load before either saves. */
  lemma TwoInvitesExample(admin: string, u: string)
    requires u != admin
    ensures var s := Share(admin, [], []
                           + [Load(0, Invite(u))] + [Load(1, Invite(u))] + [Save(0)] + [Save(1)]);
            s.group.pending == [u, u]
  {
    var a1 := [] + [Load(0, Invite(u))];
    var a2 := a1 + [Load(1, Invite(u))];
    var a3 := a2 + [Save(0)];
    SharesAppend(admin, [], Load(0, Invite(u)));
    SharesAppend(admin, a1, Load(1, Invite(u)));
    SharesAppend(admin, a2, Save(0));
    SharesAppend(admin, a3, Save(1));
  }

  lemma SharesAppend(admin: string, actions: seq<Action>, a: Action)
    ensures Share(admin, [], actions + [a]) == Act(Share(admin, [], actions), a)
  {
    assert (actions + [a])[..|actions + [a]| - 1] == actions;
  }
}
