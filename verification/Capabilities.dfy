/**
 * The capability client (client/src/lib/capabilities.js): this device's registered capability set and a cache
 * of negotiation plans, dropped when the set is updated. Requests and responses are separate steps.
 */
module Capabilities {
  import opened Sequences

  /** A registered capability set; only its id decides anything here. */
  datatype Capability = Capability(capabilityId: Option<string>, version: nat)

  datatype Plan = Plan(preferredTransport: Option<string>, fallbackChain: Option<seq<string>>)

  datatype TransportPlan = TransportPlan(preferredTransport: Option<string>, fallbackChain: seq<string>)

  /** A response: an error, a refusal, or success with a value. */
  datatype Reply<T> = Error | Refused | Success(value: T)

  // ----- plan keys ----------------------------------------------------------------------------------

  function PlanKey(peer: string, device: string): string {
    peer + ":" + device
  }

  /** One key for two pairs whose peer ids differ in length. */
  lemma KeySuffix(p: string, d: string, q: string, e: string)
    requires PlanKey(p, d) == PlanKey(q, e) && |p| < |q|
    ensures q == p + ":" + q[|p| + 1..]
    ensures d == q[|p| + 1..] + ":" + e
  {
    var k := PlanKey(p, d);
    assert q == k[..|q|] && p == k[..|p|];
    assert k[|p|] == ':' && d == k[|p| + 1..];
    assert q[..|p|] == p && q[|p|] == ':';
    assert q == q[..|p|] + [q[|p|]] + q[|p| + 1..];
    assert PlanKey(q, e)[|p| + 1..] == q[|p| + 1..] + ":" + e;
  }

  /** The first pair's peer id extends the second's by a colon and what its device id gave up. */
  ghost predicate Shifted(p: string, d: string, q: string, e: string) {
    exists s: string :: q == p + ":" + s && d == s + ":" + e
  }

  /** Exactly which different pairs share a key. */
  lemma KeysCollideExactlyWhen(p: string, d: string, q: string, e: string)
    ensures PlanKey(p, d) == PlanKey(q, e) <==> (p == q && d == e) || Shifted(p, d, q, e) || Shifted(q, e, p, d)
  {
    if PlanKey(p, d) == PlanKey(q, e) {
      if |p| < |q| {
        KeySuffix(p, d, q, e);
        assert Shifted(p, d, q, e);
      } else if |q| < |p| {
        KeySuffix(q, e, p, d);
        assert Shifted(q, e, p, d);
      } else {
        assert p == PlanKey(p, d)[..|p|] && q == PlanKey(q, e)[..|q|];
        assert d == PlanKey(p, d)[|p| + 1..] && e == PlanKey(q, e)[|q| + 1..];
      }
    }
    if Shifted(p, d, q, e) {
      var s: string :| q == p + ":" + s && d == s + ":" + e;
      assert p + ":" + (s + ":" + e) == (p + ":" + s) + ":" + e;
    }
    if Shifted(q, e, p, d) {
      var s: string :| p == q + ":" + s && e == s + ":" + d;
      assert q + ":" + (s + ":" + d) == (q + ":" + s) + ":" + d;
    }
  }

  lemma ShiftedHasColon(p: string, d: string, q: string, e: string)
    ensures Shifted(p, d, q, e) ==> ':' in q
  {
    if Shifted(p, d, q, e) {
      var s: string :| q == p + ":" + s && d == s + ":" + e;
      assert q[|p|] == ':';
    }
  }

  /** Keys are injective over peer ids without colons, whatever the device ids. */
  lemma KeysInjectiveWithoutColons(p: string, d: string, q: string, e: string)
    requires ':' !in p && ':' !in q && PlanKey(p, d) == PlanKey(q, e)
    ensures p == q && d == e
  {
    KeysCollideExactlyWhen(p, d, q, e);
    ShiftedHasColon(p, d, q, e);
    ShiftedHasColon(q, e, p, d);
  }

  // ----- the client ---------------------------------------------------------------------------------

  type Plans = map<string, Plan>

  datatype Local = Local(self: Option<Capability>, plans: Plans)

  /** A capability set without an id, or with an empty one, cannot be updated or refreshed. */
  predicate HasId(self: Option<Capability>) {
    self.Some? && self.value.capabilityId.GetOr("") != ""
  }

  function Updated(l: Local, reply: Reply<Capability>): Local {
    if reply.Success? then Local(Some(reply.value), map[]) else l
  }

  function Replaced(l: Local, reply: Reply<Capability>): Local {
    if reply.Success? then l.(self := Some(reply.value)) else l
  }

  function Negotiated(l: Local, peer: string, device: string, reply: Reply<Plan>): Local {
    if reply.Success? then l.(plans := l.plans[PlanKey(peer, device) := reply.value]) else l
  }

  /** The set has an id that is not the empty string. */
  ghost predicate Identified(self: Option<Capability>) {
    exists id: string, version :: id != "" && self == Some(Capability(Some(id), version))
  }

  lemma IdentifiedHasId(self: Option<Capability>)
    ensures Identified(self) <==> HasId(self)
  {
    if HasId(self) {
      assert self == Some(Capability(Some(self.value.capabilityId.value), self.value.version));
    }
  }

  class CapabilityClient {
    var self: Option<Capability>
    var plans: Plans

    constructor ()
      ensures State() == Local(None, map[])
    {
      self, plans := None, map[];
    }

    function State(): Local
      reads this
    {
      Local(self, plans)
    }

    /** The response to a registration; an id already registered answers an error and changes nothing. */
    method Register(reply: Reply<Capability>) returns (result: Option<Capability>)
      modifies this
      ensures State() == Replaced(old(State()), reply) && result == self
      ensures self == (if reply.Success? then Some(reply.value) else old(self)) && plans == old(plans)
    {
      if reply.Success? {
        self := Some(reply.value);
      }
      result := self;
    }

    /** An update; without an id nothing is sent, and no reply matters. */
    method Update(reply: Reply<Capability>) returns (result: Option<Capability>)
      modifies this
      ensures !HasId(old(self)) ==> State() == old(State()) && result == None
      ensures HasId(old(self)) ==>
        State() == Updated(old(State()), reply) && result == if reply.Error? then None else self
      ensures if Identified(old(self)) && reply.Success? then self == Some(reply.value) && plans == map[]
              else self == old(self) && plans == old(plans)
      ensures result == if Identified(old(self)) && !reply.Error? then self else None
    {
      IdentifiedHasId(self);
      if self == None || self.value.capabilityId.GetOr("") == "" || reply.Error? {
        return None;
      }
      if reply.Success? {
        self := Some(reply.value);
        plans := map[];
      }
      result := self;
    }

    /** A refresh; without an id nothing is sent, and no reply matters. */
    method Refresh(reply: Reply<Capability>) returns (result: Option<Capability>)
      modifies this
      ensures !HasId(old(self)) ==> State() == old(State()) && result == None
      ensures HasId(old(self)) ==>
        State() == Replaced(old(State()), reply) && result == if reply.Error? then None else self
      ensures self == (if Identified(old(self)) && reply.Success? then Some(reply.value) else old(self))
      ensures plans == old(plans) && result == if Identified(old(self)) && !reply.Error? then self else None
    {
      IdentifiedHasId(self);
      if self == None || self.value.capabilityId.GetOr("") == "" || reply.Error? {
        return None;
      }
      if reply.Success? {
        self := Some(reply.value);
      }
      result := self;
    }

    /** The response to a negotiation. */
    method Negotiate(peer: string, device: string, reply: Reply<Plan>) returns (result: Option<Plan>)
      modifies this
      ensures State() == Negotiated(old(State()), peer, device, reply)
      ensures result == if reply.Success? then Some(reply.value) else None
      ensures self == old(self)
      ensures plans == if reply.Success? then old(plans)[PlanKey(peer, device) := reply.value] else old(plans)
    {
      if reply.Success? {
        plans := plans[PlanKey(peer, device) := reply.value];
        return Some(reply.value);
      }
      return None;
    }

    method GetTransportPlan(peer: string, device: string) returns (transport: Option<TransportPlan>)
      ensures transport == if PlanKey(peer, device) !in plans then None
                           else var plan := plans[PlanKey(peer, device)];
                                Some(TransportPlan(plan.preferredTransport, plan.fallbackChain.GetOr([])))
    {
      transport := None;
      if PlanKey(peer, device) in plans {
        var plan := plans[PlanKey(peer, device)];
        var chain := [];
        if plan.fallbackChain.Some? {
          chain := plan.fallbackChain.value;
        }
        transport := Some(TransportPlan(plan.preferredTransport, chain));
      }
    }

    method Clear()
      modifies this
      ensures State() == old(State()).(plans := map[])
    {
      plans := map[];
    }
  }

  // ----- requests and responses interleaved ---------------------------------------------------------

  datatype Request = Updating | Refreshing | Registering | Negotiating(peer: string, device: string)

  /** A request in flight and the step that sent it. */
  datatype InFlight = InFlight(request: Request, sent: nat)

  /** When a cached plan was asked for and when its response arrived. */
  datatype Origin = Origin(peer: string, device: string, sent: nat, stored: nat)

  /** `clock` counts steps; `updated` is the step of the latest successful update response. */
  datatype System = System(clock: nat, local: Local, inFlight: map<nat, InFlight>, origins: map<string, Origin>,
                           updated: Option<nat>)

  datatype Event =
    | Send(id: nat, request: Request)
    | Arrive(id: nat, capability: Reply<Capability>)
    | ArrivePlan(id: nat, plan: Reply<Plan>)
    | Clear

  predicate Sendable(l: Local, r: Request) {
    r.Updating? || r.Refreshing? ==> HasId(l.self)
  }

  function Effect(s: System, e: Event): System {
    match e
    case Send(id, request) =>
      if id in s.inFlight || !Sendable(s.local, request) then s
      else s.(inFlight := s.inFlight[id := InFlight(request, s.clock)])
    case Arrive(id, reply) =>
      if id !in s.inFlight || s.inFlight[id].request.Negotiating? then s
      else if s.inFlight[id].request.Updating? then
        s.(inFlight := s.inFlight - {id}, local := Updated(s.local, reply),
           updated := if reply.Success? then Some(s.clock) else s.updated)
      else s.(inFlight := s.inFlight - {id}, local := Replaced(s.local, reply))
    case ArrivePlan(id, reply) =>
      if id !in s.inFlight || !s.inFlight[id].request.Negotiating? then s
      else
        var r := s.inFlight[id].request;
        s.(inFlight := s.inFlight - {id}, local := Negotiated(s.local, r.peer, r.device, reply),
           origins := if reply.Success?
                      then s.origins[PlanKey(r.peer, r.device) := Origin(r.peer, r.device, s.inFlight[id].sent, s.clock)]
                      else s.origins)
    case Clear => s.(local := s.local.(plans := map[]))
  }

  function Step(s: System, e: Event): System {
    var s' := Effect(s, e);
    s'.(clock := s.clock + 1)
  }

  function Run(events: seq<Event>): System {
    if events == [] then System(0, Local(None, map[]), map[], map[], None)
    else Step(Run(events[..|events| - 1]), events[|events| - 1])
  }

  ghost predicate Inv(s: System) {
    && (s.updated.Some? ==> s.updated.value < s.clock)
    && (forall id :: id in s.inFlight ==> s.inFlight[id].sent < s.clock)
    && (forall key :: key in s.local.plans ==>
          && key in s.origins && key == PlanKey(s.origins[key].peer, s.origins[key].device)
          && s.origins[key].sent < s.origins[key].stored < s.clock
          && (s.updated.Some? ==> s.updated.value < s.origins[key].stored))
  }

  lemma StepKeepsInv(s: System, e: Event)
    requires Inv(s)
    ensures Inv(Step(s, e))
  {
    var s' := Step(s, e);
    forall key | key in s'.local.plans
      ensures && key in s'.origins && key == PlanKey(s'.origins[key].peer, s'.origins[key].device)
              && s'.origins[key].sent < s'.origins[key].stored < s'.clock
              && (s'.updated.Some? ==> s'.updated.value < s'.origins[key].stored)
    {
      if key in s.local.plans {
        assert key in s.origins;
      }
    }
  }

  lemma {:induction false} RunKeepsInv(events: seq<Event>)
    ensures Inv(Run(events))
  {
    if events != [] {
      RunKeepsInv(events[..|events| - 1]);
      StepKeepsInv(Run(events[..|events| - 1]), events[|events| - 1]);
    }
  }

  /** Sending and answering are different steps. */
  lemma {:induction false} SentApart(events: seq<Event>, key: string)
    ensures var s := Run(events);
            && (forall id :: id in s.inFlight && s.updated.Some? ==> s.inFlight[id].sent != s.updated.value)
            && (key in s.origins && s.updated.Some? ==> s.origins[key].sent != s.updated.value)
  {
    if events != [] {
      SentApart(events[..|events| - 1], key);
      RunKeepsInv(events[..|events| - 1]);
      SentBefore(events[..|events| - 1]);
    }
  }

  lemma {:induction false} SentBefore(events: seq<Event>)
    ensures var s := Run(events);
            && (forall id :: id in s.inFlight ==> s.inFlight[id].sent < s.clock)
            && (forall key :: key in s.origins ==> s.origins[key].sent < s.clock)
            && (s.updated.Some? ==> s.updated.value < s.clock)
  {
    if events != [] {
      SentBefore(events[..|events| - 1]);
    }
  }

  lemma {:induction false} ClockCounts(events: seq<Event>)
    ensures Run(events).clock == |events|
  {
    if events != [] {
      ClockCounts(events[..|events| - 1]);
    }
  }

  /** A request in flight has been in flight ever since it was sent. */
  lemma {:induction false} InFlightSince(events: seq<Event>, id: nat, n: nat)
    requires id in Run(events).inFlight && Run(events).inFlight[id].sent < n <= |events|
    ensures id in Run(events[..n]).inFlight && Run(events[..n]).inFlight[id] == Run(events).inFlight[id]
    decreases |events|
  {
    var front := events[..|events| - 1];
    if n == |events| {
      assert events[..n] == events;
    } else {
      ClockCounts(front);
      InFlightSince(front, id, n);
      assert events[..n] == front[..n];
    }
  }

  /** A negotiation for this peer device, sent at this step, is in flight. */
  ghost predicate Awaited(s: System, o: Origin) {
    exists id :: id in s.inFlight && s.inFlight[id] == InFlight(Negotiating(o.peer, o.device), o.sent)
  }

  /** A stored plan's negotiation was in flight from its sending to its storing. */
  lemma {:induction false} AwaitedUntilStored(events: seq<Event>, key: string, n: nat)
    requires key in Run(events).origins
    requires Run(events).origins[key].sent < n <= Run(events).origins[key].stored <= |events|
    ensures Awaited(Run(events[..n]), Run(events).origins[key])
    decreases |events|
  {
    if events != [] {
      var front, e := events[..|events| - 1], events[|events| - 1];
      var s := Run(front);
      ClockCounts(front);
      StoredBefore(front);
      if key in s.origins && Run(events).origins[key] == s.origins[key] {
        AwaitedUntilStored(front, key, n);
        assert events[..n] == front[..n];
      } else {
        InFlightSince(front, e.id, n);
        assert events[..n] == front[..n];
      }
    }
  }

  lemma {:induction false} StoredBefore(events: seq<Event>)
    ensures forall key :: key in Run(events).origins ==> Run(events).origins[key].stored < Run(events).clock
  {
    if events != [] {
      StoredBefore(events[..|events| - 1]);
    }
  }

  /**
   * In every interleaving, each cached plan's response arrived after the latest successful update response;
   * the plan was asked for before that update exactly when its negotiation was in flight as the update arrived.
   */
  lemma PlansAreStoredAfterUpdate(events: seq<Event>, key: string)
    requires key in Run(events).local.plans
    ensures var s := Run(events);
            && key in s.origins && key == PlanKey(s.origins[key].peer, s.origins[key].device)
            && (s.updated.Some? ==>
                  && s.updated.value < s.origins[key].stored < |events|
                  && (s.origins[key].sent < s.updated.value
                      <==> Awaited(Run(events[..s.updated.value + 1]), s.origins[key])))
  {
    RunKeepsInv(events);
    ClockCounts(events);
    SentApart(events, key);
    var s := Run(events);
    if s.updated.Some? {
      var n := s.updated.value + 1;
      if s.origins[key].sent < s.updated.value {
        AwaitedUntilStored(events, key, n);
      }
      if Awaited(Run(events[..n]), s.origins[key]) {
        RunKeepsInv(events[..n]);
        ClockCounts(events[..n]);
      }
    }
  }

  /** This event is a successful update response. */
  predicate IsUpdate(s: System, e: Event) {
    e.Arrive? && e.id in s.inFlight && s.inFlight[e.id].request.Updating? && e.capability.Success?
  }

  // ----- what the client holds, from the responses ---------------------------------------------------

  /** This event is the successful response of a negotiation under this key. */
  predicate BringsPlan(s: System, e: Event, key: string) {
    e.ArrivePlan? && e.plan.Success? && e.id in s.inFlight && s.inFlight[e.id].request.Negotiating?
    && PlanKey(s.inFlight[e.id].request.peer, s.inFlight[e.id].request.device) == key
  }

  /** This event is the successful response of a registration, an update or a refresh. */
  predicate BringsSet(s: System, e: Event) {
    e.Arrive? && e.capability.Success? && e.id in s.inFlight && !s.inFlight[e.id].request.Negotiating?
  }

  /** The latest plan answered under this key, unless an update succeeded or the plans were cleared after it. */
  function LatestPlan(events: seq<Event>, key: string): Option<Plan> {
    if events == [] then None
    else
      var front, e := events[..|events| - 1], events[|events| - 1];
      if BringsPlan(Run(front), e, key) then Some(e.plan.value)
      else if e.Clear? || IsUpdate(Run(front), e) then None
      else LatestPlan(front, key)
  }

  /** The set of the latest successful response that brings one. */
  function LatestSet(events: seq<Event>): Option<Capability> {
    if events == [] then None
    else
      var front, e := events[..|events| - 1], events[|events| - 1];
      if BringsSet(Run(front), e) then Some(e.capability.value) else LatestSet(front)
  }

  function CachedPlan(s: System, key: string): Option<Plan> {
    if key in s.local.plans then Some(s.local.plans[key]) else None
  }

  /** In every interleaving a plan stays, as it was answered, until an update, a clear or a new plan for its key. */
  lemma {:induction false} PlansAreLatest(events: seq<Event>, key: string)
    ensures CachedPlan(Run(events), key) == LatestPlan(events, key)
  {
    if events != [] {
      PlansAreLatest(events[..|events| - 1], key);
    }
  }

  /** And the client's own set is the latest one that a response brought. */
  lemma {:induction false} SelfIsLatestSet(events: seq<Event>)
    ensures Run(events).local.self == LatestSet(events)
  {
    if events != [] {
      SelfIsLatestSet(events[..|events| - 1]);
    }
  }

  /** The event at this step of the run is a successful update response. */
  predicate UpdatesAt(events: seq<Event>, k: nat)
    requires k < |events|
  {
    IsUpdate(Run(events[..k]), events[k])
  }

  lemma UpdatesInFront(events: seq<Event>, k: nat)
    requires k < |events|
    ensures UpdatesAt(events, k)
            <==> if k == |events| - 1 then IsUpdate(Run(events[..|events| - 1]), events[|events| - 1])
                 else UpdatesAt(events[..|events| - 1], k)
  {
    if k < |events| - 1 {
      assert events[..k] == events[..|events| - 1][..k];
    }
  }

  lemma StepUpdated(s: System, e: Event)
    ensures Step(s, e).updated == if IsUpdate(s, e) then Some(s.clock) else s.updated
  {
  }

  /** `updated` is the step of the latest successful update response, if there was one. */
  lemma {:induction false} UpdatedIsLatest(events: seq<Event>)
    ensures var updated := Run(events).updated;
            && (updated.Some? ==> updated.value < |events| && UpdatesAt(events, updated.value))
            && (forall k: nat :: k < |events| && UpdatesAt(events, k) ==> updated.Some? && k <= updated.value)
  {
    if events != [] {
      var front := events[..|events| - 1];
      UpdatedIsLatest(front);
      ClockCounts(front);
      StepUpdated(Run(front), events[|front|]);
      forall k: nat | k < |events|
        ensures UpdatesAt(events, k) <==> if k == |front| then IsUpdate(Run(front), events[|front|]) else UpdatesAt(front, k)
      {
        UpdatesInFront(events, k);
      }
    }
  }

  /** The request in flight was sent under its id at the step it names. */
  lemma {:induction false} SentAsNamed(events: seq<Event>, id: nat)
    requires id in Run(events).inFlight
    ensures var o := Run(events).inFlight[id]; o.sent < |events| && events[o.sent] == Send(id, o.request)
  {
    var front := events[..|events| - 1];
    ClockCounts(front);
    if id in Run(front).inFlight {
      SentAsNamed(front, id);
    }
  }

  /** A plan's origin names the steps at which it was asked for and answered, under one id. */
  lemma {:induction false} OriginsNameTheirSteps(events: seq<Event>, key: string) returns (id: nat)
    requires key in Run(events).origins
    ensures var o := Run(events).origins[key];
            && o.sent < o.stored < |events|
            && events[o.sent] == Send(id, Negotiating(o.peer, o.device))
            && events[o.stored].ArrivePlan? && events[o.stored].id == id
            && BringsPlan(Run(events[..o.stored]), events[o.stored], key)
  {
    var front, e := events[..|events| - 1], events[|events| - 1];
    ClockCounts(front);
    assert events[..|front|] == front;
    if BringsPlan(Run(front), e, key) {
      id := e.id;
      SentAsNamed(front, id);
    } else {
      id := OriginsNameTheirSteps(front, key);
      var o := Run(front).origins[key];
      assert events[..o.stored] == front[..o.stored];
    }
  }

  /** Any request is sent under a new id, but an update or a refresh only with an identified set; its response ends it. */
  lemma RequestsAreAnswered(s: System, id: nat, request: Request, capability: Reply<Capability>, plan: Reply<Plan>)
    requires id !in s.inFlight
    ensures var sent := Step(s, Send(id, request));
            && sent.local == s.local
            && (id in sent.inFlight <==> (request.Updating? || request.Refreshing? ==> Identified(s.local.self)))
            && (id in sent.inFlight ==> sent.inFlight[id].request == request)
            && (request.Negotiating? ==> id !in Step(sent, ArrivePlan(id, plan)).inFlight)
            && (!request.Negotiating? ==> id !in Step(sent, Arrive(id, capability)).inFlight)
  {
    IdentifiedHasId(s.local.self);
  }

  /** No successful update response arrives while a negotiation is in flight. */
  ghost predicate Apart(events: seq<Event>) {
    events == [] ||
    (var front, e := events[..|events| - 1], events[|events| - 1];
     && Apart(front)
     && (IsUpdate(Run(front), e) ==>
           forall id :: id in Run(front).inFlight ==> !Run(front).inFlight[id].request.Negotiating?))
  }

  ghost predicate AskedSince(s: System) {
    s.updated.Some? ==>
      && (forall id :: id in s.inFlight && s.inFlight[id].request.Negotiating? ==> s.updated.value < s.inFlight[id].sent)
      && (forall key :: key in s.local.plans && key in s.origins ==> s.updated.value < s.origins[key].sent)
  }

  lemma StepAskedSince(s: System, e: Event)
    requires Inv(s) && AskedSince(s)
    requires IsUpdate(s, e) ==> forall id :: id in s.inFlight ==> !s.inFlight[id].request.Negotiating?
    ensures AskedSince(Step(s, e))
  {
    var s' := Step(s, e);
    if s'.updated.Some? {
      forall id | id in s'.inFlight && s'.inFlight[id].request.Negotiating?
        ensures s'.updated.value < s'.inFlight[id].sent
      {
        assert id in s.inFlight ==> s'.inFlight[id] == s.inFlight[id];
      }
    }
  }

  lemma {:induction false} ApartAskedSince(events: seq<Event>)
    requires Apart(events)
    ensures AskedSince(Run(events))
  {
    if events != [] {
      ApartAskedSince(events[..|events| - 1]);
      RunKeepsInv(events[..|events| - 1]);
      StepAskedSince(Run(events[..|events| - 1]), events[|events| - 1]);
    }
  }

  /** When calls do not overlap an update, every cached plan was also asked for after it. */
  lemma PlansAreAskedAfterUpdate(events: seq<Event>, key: string)
    requires Apart(events) && key in Run(events).local.plans
    ensures var s := Run(events);
            key in s.origins && (s.updated.Some? ==> s.updated.value < s.origins[key].sent)
  {
    ApartAskedSince(events);
    RunKeepsInv(events);
  }

  /** A negotiation that overlaps an update leaves a plan asked for with the old capabilities. */
  lemma OverlapExample(old': Capability, new': Capability, plan: Plan)
    requires HasId(Some(old'))
    ensures var s := Run([Send(0, Registering), Arrive(0, Success(old')), Send(1, Negotiating("p", "d")),
                          Send(2, Updating), Arrive(2, Success(new')), ArrivePlan(1, Success(plan))]);
            && s.local == Local(Some(new'), map[PlanKey("p", "d") := plan])
            && s.updated == Some(4)
            && PlanKey("p", "d") in s.origins && s.origins[PlanKey("p", "d")] == Origin("p", "d", 2, 5)
  {
    var es := [Send(0, Registering), Arrive(0, Success(old')), Send(1, Negotiating("p", "d")),
               Send(2, Updating), Arrive(2, Success(new')), ArrivePlan(1, Success(plan))];
    var asked, updating := InFlight(Negotiating("p", "d"), 2), InFlight(Updating, 3);
    assert es[..1][..0] == [];
    assert Run(es[..1]) == System(1, Local(None, map[]), map[0 := InFlight(Registering, 0)], map[], None);
    assert es[..2][..1] == es[..1];
    assert Run(es[..2]) == System(2, Local(Some(old'), map[]), map[], map[], None);
    assert es[..3][..2] == es[..2];
    assert Run(es[..3]) == System(3, Local(Some(old'), map[]), map[1 := asked], map[], None);
    assert es[..4][..3] == es[..3];
    assert Run(es[..4]) == System(4, Local(Some(old'), map[]), map[1 := asked, 2 := updating], map[], None);
    assert es[..5][..4] == es[..4];
    assert Run(es[..5]) == System(5, Local(Some(new'), map[]), map[1 := asked], map[], Some(4));
    assert es[..|es| - 1] == es[..5];
  }
}
