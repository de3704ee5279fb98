/**
 * The identity-context service with loads split at their awaits: a load begins with a cache lookup, reads
 * the three managers in separate steps, and stores its base in a last step. Loads therefore overlap with
 * each other, with invalidations and with backend changes.
 */
module OverlappingLoads {
  import opened Sequences
  import opened IdentityContext

  /** A manager's answer and the step at which it was given. */
  datatype Read<T> = Read(value: T, at: nat)

  datatype Load = Load(userId: string, begun: nat, identity: Option<Read<Option<Identity>>>,
                       devices: Option<Read<seq<Device>>>, verifications: Option<Read<seq<Verification>>>)

  /** When a cached base was read and stored. */
  datatype Origin = Origin(begun: nat, identityAt: nat, devicesAt: nat, verificationsAt: nat,
                           stored: nat, storedClock: int)

  /**
   * `past[k]` is what the managers held before step k; the last element is what they hold now.
   * `origins` and `invalidated` record where each cached base came from and each user's last invalidation.
   */
  datatype System = System(past: seq<Backend>, now: int, entries: Entries, loads: map<nat, Load>,
                           origins: map<string, Origin>, invalidated: map<string, nat>)

  datatype Event =
    | Change(userId: string, view: View)
    | Tick(ms: nat)
    | Invalidate(userId: string)
    | Begin(id: nat, userId: string)
    | ReadIdentity(id: nat)
    | ReadDevices(id: nat)
    | ReadVerifications(id: nat)
    | Finish(id: nat)

  function Start(backend: Backend, now: int): System {
    System([backend], now, map[], map[], map[], map[])
  }

  function Here(s: System): nat
    requires s.past != []
  {
    |s.past| - 1
  }

  function Current(s: System): Backend
    requires s.past != []
  {
    s.past[Here(s)]
  }

  predicate Complete(l: Load) {
    l.identity.Some? && l.devices.Some? && l.verifications.Some?
  }

  function Assembled(l: Load): View
    requires Complete(l)
  {
    View(l.identity.value.value, l.devices.value.value, l.verifications.value.value)
  }

  function OriginOf(l: Load, stored: nat, now: int): Origin
    requires Complete(l)
  {
    Origin(l.begun, l.identity.value.at, l.devices.value.at, l.verifications.value.at, stored, now)
  }

  /** What an event does besides letting the backend go on. */
  function Effect(ttlMs: int, s: System, e: Event): System
    requires s.past != []
  {
    var here := Here(s);
    match e
    case Change(_, _) => s
    case Tick(ms) => s.(now := s.now + ms)
    case Invalidate(u) => s.(entries := s.entries - {u}, invalidated := s.invalidated[u := here])
    case Begin(id, u) =>
      var swept := s.(entries := Swept(ttlMs, s.entries, u, s.now));
      if id in s.loads || Lookup(ttlMs, s.entries, u, s.now).Some? then swept
      else swept.(loads := s.loads[id := Load(u, here, None, None, None)])
    case ReadIdentity(id) =>
      if id !in s.loads then s
      else
        var l := s.loads[id];
        s.(loads := s.loads[id := l.(identity := Some(Read(ViewOf(Current(s), l.userId).identity, here)))])
    case ReadDevices(id) =>
      if id !in s.loads then s
      else
        var l := s.loads[id];
        s.(loads := s.loads[id := l.(devices := Some(Read(ViewOf(Current(s), l.userId).devices, here)))])
    case ReadVerifications(id) =>
      if id !in s.loads then s
      else
        var l := s.loads[id];
        s.(loads := s.loads[id := l.(verifications := Some(Read(ViewOf(Current(s), l.userId).verifications, here)))])
    case Finish(id) =>
      if id !in s.loads || !Complete(s.loads[id]) then s
      else
        var l := s.loads[id];
        s.(loads := s.loads - {id},
           entries := s.entries[l.userId := Entry(BaseOf(Assembled(l)), s.now + ttlMs)],
           origins := s.origins[l.userId := OriginOf(l, here, s.now)])
  }

  function Step(ttlMs: int, s: System, e: Event): (s': System)
    requires s.past != []
    ensures s'.past != []
  {
    var backend := if e.Change? then Current(s)[e.userId := e.view] else Current(s);
    var next := Effect(ttlMs, s, e);
    next.(past := s.past + [backend])
  }

  function Run(ttlMs: int, backend: Backend, now: int, events: seq<Event>): (s: System)
    ensures s.past != []
  {
    if events == [] then Start(backend, now)
    else Step(ttlMs, Run(ttlMs, backend, now, events[..|events| - 1]), events[|events| - 1])
  }

  // ----- where a served base comes from -------------------------------------------------------------

  /** The base whose three parts the managers held for `u` at the steps `o` names. */
  ghost predicate ReadAt(past: seq<Backend>, u: string, base: Base, o: Origin) {
    && o.begun <= o.identityAt < |past| && o.begun <= o.devicesAt < |past| && o.begun <= o.verificationsAt < |past|
    && base == BaseOf(View(ViewOf(past[o.identityAt], u).identity, ViewOf(past[o.devicesAt], u).devices,
                           ViewOf(past[o.verificationsAt], u).verifications))
  }

  ghost predicate EntryInv(ttlMs: int, past: seq<Backend>, now: int, u: string, e: Entry, o: Origin) {
    && ReadAt(past, u, e.value, o)
    && o.identityAt < o.stored && o.devicesAt < o.stored && o.verificationsAt < o.stored
    && o.stored < |past|
    && o.storedClock <= now
    && e.expiresAt == o.storedClock + ttlMs
  }

  ghost predicate LoadInv(past: seq<Backend>, l: Load) {
    && l.begun + 1 < |past|
    && (l.identity.Some? ==>
          && l.begun <= l.identity.value.at && l.identity.value.at + 1 < |past|
          && l.identity.value.value == ViewOf(past[l.identity.value.at], l.userId).identity)
    && (l.devices.Some? ==>
          && l.begun <= l.devices.value.at && l.devices.value.at + 1 < |past|
          && l.devices.value.value == ViewOf(past[l.devices.value.at], l.userId).devices)
    && (l.verifications.Some? ==>
          && l.begun <= l.verifications.value.at && l.verifications.value.at + 1 < |past|
          && l.verifications.value.value == ViewOf(past[l.verifications.value.at], l.userId).verifications)
  }

  ghost predicate Inv(ttlMs: int, s: System) {
    && s.past != []
    && (forall u :: u in s.invalidated ==> s.invalidated[u] + 1 < |s.past|)
    && (forall u :: u in s.entries ==>
          && u in s.origins && EntryInv(ttlMs, s.past, s.now, u, s.entries[u], s.origins[u])
          && (u in s.invalidated ==> s.invalidated[u] < s.origins[u].stored))
    && (forall id :: id in s.loads ==> LoadInv(s.past, s.loads[id]))
  }

  lemma EntryOutlivesStep(ttlMs: int, past: seq<Backend>, now: int, u: string, e: Entry, o: Origin, b: Backend, ms: nat)
    requires EntryInv(ttlMs, past, now, u, e, o)
    ensures EntryInv(ttlMs, past + [b], now + ms, u, e, o)
  {
  }

  lemma LoadOutlivesStep(past: seq<Backend>, l: Load, b: Backend)
    requires LoadInv(past, l)
    ensures LoadInv(past + [b], l)
  {
  }

  lemma LoadReads(s: System, l: Load, b: Backend)
    requires s.past != [] && LoadInv(s.past, l)
    ensures LoadInv(s.past + [b], l.(identity := Some(Read(ViewOf(Current(s), l.userId).identity, Here(s)))))
    ensures LoadInv(s.past + [b], l.(devices := Some(Read(ViewOf(Current(s), l.userId).devices, Here(s)))))
    ensures LoadInv(s.past + [b], l.(verifications := Some(Read(ViewOf(Current(s), l.userId).verifications, Here(s)))))
  {
    LoadOutlivesStep(s.past, l, b);
  }

  lemma FinishStores(ttlMs: int, past: seq<Backend>, now: int, l: Load, b: Backend)
    requires past != [] && LoadInv(past, l) && Complete(l)
    ensures EntryInv(ttlMs, past + [b], now, l.userId, Entry(BaseOf(Assembled(l)), now + ttlMs),
                     OriginOf(l, |past| - 1, now))
  {
  }

  /** What a step does to one load: it begins, stays, or reads one part. */
  lemma LoadsFollow(ttlMs: int, s: System, e: Event, id: nat)
    requires s.past != [] && id in Step(ttlMs, s, e).loads
    ensures var l' := Step(ttlMs, s, e).loads[id];
            if id !in s.loads then e.Begin? && l' == Load(e.userId, Here(s), None, None, None)
            else
              var l, view := s.loads[id], ViewOf(Current(s), s.loads[id].userId);
              || l' == l
              || l' == l.(identity := Some(Read(view.identity, Here(s))))
              || l' == l.(devices := Some(Read(view.devices, Here(s))))
              || l' == l.(verifications := Some(Read(view.verifications, Here(s))))
  {
  }

  lemma StepKeepsLoads(ttlMs: int, s: System, e: Event, id: nat)
    requires Inv(ttlMs, s) && id in Step(ttlMs, s, e).loads
    ensures LoadInv(Step(ttlMs, s, e).past, Step(ttlMs, s, e).loads[id])
  {
    var b := Step(ttlMs, s, e).past[|s.past|];
    LoadsFollow(ttlMs, s, e, id);
    if id in s.loads {
      LoadOutlivesStep(s.past, s.loads[id], b);
      LoadReads(s, s.loads[id], b);
    }
  }

  /** This event stores a base for `u`. */
  predicate Stores(s: System, e: Event, u: string) {
    e.Finish? && e.id in s.loads && Complete(s.loads[e.id]) && s.loads[e.id].userId == u
  }

  lemma OnlyStoresAdd(ttlMs: int, s: System, e: Event, u: string)
    requires s.past != [] && !Stores(s, e, u) && u in Step(ttlMs, s, e).entries
    ensures var s' := Step(ttlMs, s, e);
            && u in s.entries && s'.entries[u] == s.entries[u]
            && (u in s.origins ==> u in s'.origins && s'.origins[u] == s.origins[u])
            && (u in s'.invalidated ==> u in s.invalidated && s'.invalidated[u] == s.invalidated[u])
            && s'.now == s.now + if e.Tick? then e.ms else 0
  {
  }

  lemma StepKeepsEntries(ttlMs: int, s: System, e: Event, u: string)
    requires Inv(ttlMs, s) && u in Step(ttlMs, s, e).entries
    ensures var s' := Step(ttlMs, s, e);
            && u in s'.origins && EntryInv(ttlMs, s'.past, s'.now, u, s'.entries[u], s'.origins[u])
            && (u in s'.invalidated ==> s'.invalidated[u] < s'.origins[u].stored)
  {
    var b := Step(ttlMs, s, e).past[|s.past|];
    if Stores(s, e, u) {
      FinishStores(ttlMs, s.past, s.now, s.loads[e.id], b);
    } else {
      OnlyStoresAdd(ttlMs, s, e, u);
      EntryOutlivesStep(ttlMs, s.past, s.now, u, s.entries[u], s.origins[u], b, if e.Tick? then e.ms else 0);
    }
  }

  lemma StepKeepsInv(ttlMs: int, s: System, e: Event)
    requires Inv(ttlMs, s)
    ensures Inv(ttlMs, Step(ttlMs, s, e))
  {
    var s' := Step(ttlMs, s, e);
    forall id | id in s'.loads
      ensures LoadInv(s'.past, s'.loads[id])
    {
      StepKeepsLoads(ttlMs, s, e, id);
    }
    forall u | u in s'.entries
      ensures u in s'.origins && EntryInv(ttlMs, s'.past, s'.now, u, s'.entries[u], s'.origins[u])
      ensures u in s'.invalidated ==> s'.invalidated[u] < s'.origins[u].stored
    {
      StepKeepsEntries(ttlMs, s, e, u);
    }
    assert forall u :: u in s'.invalidated ==> s'.invalidated[u] + 1 < |s'.past|;
  }

  lemma {:induction false} RunKeepsInv(ttlMs: int, backend: Backend, now: int, events: seq<Event>)
    ensures Inv(ttlMs, Run(ttlMs, backend, now, events))
  {
    if events != [] {
      RunKeepsInv(ttlMs, backend, now, events[..|events| - 1]);
      StepKeepsInv(ttlMs, Run(ttlMs, backend, now, events[..|events| - 1]), events[|events| - 1]);
    }
  }

  /**
   * In every run, a base served from the cache was stored by a completed load of that same user, after the
   * user's last invalidation and, for a positive TTL, less than the TTL ago; each of its three parts is what
   * the managers held for that user at some step since that load began.
   */
  lemma ServedBaseIsRecent(ttlMs: int, backend: Backend, start: int, events: seq<Event>, u: string)
    ensures var s := Run(ttlMs, backend, start, events);
            var served := Lookup(ttlMs, s.entries, u, s.now);
            served.Some? ==>
              && u in s.origins
              && ReadAt(s.past, u, served.value, s.origins[u])
              && s.origins[u].storedClock <= s.now
              && (ttlMs > 0 ==> s.now - ttlMs < s.origins[u].storedClock)
              && (u in s.invalidated ==> s.invalidated[u] < s.origins[u].stored)
  {
    RunKeepsInv(ttlMs, backend, start, events);
  }

  /** The user whose cache entry an event may touch. */
  function Touches(s: System, e: Event): Option<string> {
    match e
    case Invalidate(u) => Some(u)
    case Begin(_, u) => Some(u)
    case Finish(id) => if id in s.loads then Some(s.loads[id].userId) else None
    case _ => None
  }

  /** Other users' loads and invalidations, and the passing of time, leave a user's entry alone. */
  lemma OthersLeaveEntryAlone(ttlMs: int, s: System, e: Event, u: string)
    requires s.past != [] && Touches(s, e) != Some(u)
    ensures var s' := Step(ttlMs, s, e);
            && (u in s'.entries <==> u in s.entries)
            && (u in s.entries ==> s'.entries[u] == s.entries[u])
  {
  }

  // ----- when the cache is coherent -----------------------------------------------------------------

  /** No user is invalidated while a load for that user is in flight. */
  ghost predicate Quiet(ttlMs: int, backend: Backend, now: int, events: seq<Event>) {
    events == [] ||
    (var front, last := events[..|events| - 1], events[|events| - 1];
     && Quiet(ttlMs, backend, now, front)
     && (last.Invalidate? ==>
           forall id :: id in Run(ttlMs, backend, now, front).loads ==>
             Run(ttlMs, backend, now, front).loads[id].userId != last.userId))
  }

  ghost predicate ReadSinceInvalidation(s: System) {
    && (forall id :: id in s.loads ==>
          s.loads[id].userId in s.invalidated ==> s.invalidated[s.loads[id].userId] < s.loads[id].begun)
    && (forall u :: u in s.entries && u in s.invalidated && u in s.origins ==> s.invalidated[u] < s.origins[u].begun)
  }

  lemma QuietStepReadsSinceInvalidation(ttlMs: int, s: System, e: Event)
    requires Inv(ttlMs, s) && ReadSinceInvalidation(s)
    requires e.Invalidate? ==> forall id :: id in s.loads ==> s.loads[id].userId != e.userId
    ensures ReadSinceInvalidation(Step(ttlMs, s, e))
  {
    var s' := Step(ttlMs, s, e);
    forall id | id in s'.loads && s'.loads[id].userId in s'.invalidated
      ensures s'.invalidated[s'.loads[id].userId] < s'.loads[id].begun
    {
      LoadsFollow(ttlMs, s, e, id);
    }
    forall u | u in s'.entries && u in s'.invalidated && u in s'.origins
      ensures s'.invalidated[u] < s'.origins[u].begun
    {
      if !Stores(s, e, u) {
        OnlyStoresAdd(ttlMs, s, e, u);
      }
    }
  }

  lemma {:induction false} QuietRunsReadSinceInvalidation(ttlMs: int, backend: Backend, now: int, events: seq<Event>)
    requires Quiet(ttlMs, backend, now, events)
    ensures ReadSinceInvalidation(Run(ttlMs, backend, now, events))
  {
    if events != [] {
      var front := events[..|events| - 1];
      QuietRunsReadSinceInvalidation(ttlMs, backend, now, front);
      RunKeepsInv(ttlMs, backend, now, front);
      QuietStepReadsSinceInvalidation(ttlMs, Run(ttlMs, backend, now, front), events[|events| - 1]);
    }
  }

  function Earlier(x: nat, y: nat): nat {
    if x < y then x else y
  }

  function EarliestRead(o: Origin): nat {
    Earlier(o.identityAt, Earlier(o.devicesAt, o.verificationsAt))
  }

  function LastInvalidation(s: System, u: string): nat {
    if u in s.invalidated then s.invalidated[u] else 0
  }

  /** The managers' answers for `u` have not changed since the user's last invalidation. */
  ghost predicate Settled(s: System, u: string)
    requires s.past != []
  {
    forall k :: LastInvalidation(s, u) <= k < |s.past| ==> ViewOf(s.past[k], u) == ViewOf(Current(s), u)
  }

  /** A settled user can be served an old base only by a load that read a part before the last invalidation. */
  lemma StaleOnlyFromEarlierLoads(ttlMs: int, backend: Backend, start: int, events: seq<Event>, u: string)
    requires Settled(Run(ttlMs, backend, start, events), u)
    ensures var s := Run(ttlMs, backend, start, events);
            var served := Lookup(ttlMs, s.entries, u, s.now);
            served.Some? && served.value != BaseOf(ViewOf(Current(s), u)) ==>
              && u in s.origins
              && EarliestRead(s.origins[u]) < LastInvalidation(s, u) < s.origins[u].stored
  {
    RunKeepsInv(ttlMs, backend, start, events);
    var s := Run(ttlMs, backend, start, events);
    if u in s.entries && LastInvalidation(s, u) <= EarliestRead(s.origins[u]) {
      var o := s.origins[u];
      assert ViewOf(s.past[o.identityAt], u) == ViewOf(Current(s), u);
      assert ViewOf(s.past[o.devicesAt], u) == ViewOf(Current(s), u);
      assert ViewOf(s.past[o.verificationsAt], u) == ViewOf(Current(s), u);
    }
  }

  /**
   * In a quiet run, however loads overlap, a user whose changes have all been followed by an invalidation
   * is served exactly what the managers hold now.
   */
  lemma QuietRunsAreCoherent(ttlMs: int, backend: Backend, start: int, events: seq<Event>, u: string)
    requires Quiet(ttlMs, backend, start, events)
    requires Settled(Run(ttlMs, backend, start, events), u)
    ensures var s := Run(ttlMs, backend, start, events);
            var served := Lookup(ttlMs, s.entries, u, s.now);
            served.Some? ==> served.value == BaseOf(ViewOf(Current(s), u))
  {
    RunKeepsInv(ttlMs, backend, start, events);
    QuietRunsReadSinceInvalidation(ttlMs, backend, start, events);
    StaleOnlyFromEarlierLoads(ttlMs, backend, start, events, u);
  }

  // ----- exactly when an invalidation takes hold ----------------------------------------------------

  /** The run that goes on from `s`. */
  function Resume(ttlMs: int, s: System, more: seq<Event>): (s': System)
    requires s.past != []
    ensures s'.past != []
    decreases |more|
  {
    if more == [] then s else Resume(ttlMs, Step(ttlMs, s, more[0]), more[1..])
  }

  lemma {:induction false} ResumeConcat(ttlMs: int, s: System, a: seq<Event>, b: seq<Event>)
    requires s.past != []
    ensures Resume(ttlMs, s, a + b) == Resume(ttlMs, Resume(ttlMs, s, a), b)
    decreases |a|
  {
    if a == [] {
      assert a + b == b;
    } else {
      var next := Step(ttlMs, s, a[0]);
      ResumeConcat(ttlMs, next, a[1..], b);
      assert (a + b)[0] == a[0] && (a + b)[1..] == a[1..] + b;
    }
  }

  lemma ResumeOne(ttlMs: int, s: System, e: Event)
    requires s.past != []
    ensures Resume(ttlMs, s, [e]) == Step(ttlMs, s, e)
  {
    assert [e][1..] == [];
  }

  predicate ChangesNot(u: string, events: seq<Event>) {
    forall i :: 0 <= i < |events| ==> !(events[i].Change? && events[i].userId == u)
  }

  /** What the cache would serve `u` now, if anything, is what the managers hold now. */
  predicate Coherent(ttlMs: int, s: System, u: string)
    requires s.past != []
  {
    var served := Lookup(ttlMs, s.entries, u, s.now);
    served.Some? ==> served.value == BaseOf(ViewOf(Current(s), u))
  }

  /** Some load of `u` in flight has read a part. */
  predicate PartRead(s: System, u: string) {
    exists id :: id in s.loads && s.loads[id].userId == u
                 && (s.loads[id].identity.Some? || s.loads[id].devices.Some? || s.loads[id].verifications.Some?)
  }

  /** The user's data changes to `view` and the user is invalidated. */
  function ChangeAndInvalidate(ttlMs: int, s: System, u: string, view: View): (s': System)
    requires s.past != []
    ensures s'.past != []
  {
    Step(ttlMs, Step(ttlMs, s, Event.Change(u, view)), Event.Invalidate(u))
  }

  /** The user's entry and whatever the user's loads have read is what the managers hold now. */
  ghost predicate Fresh(s: System, u: string)
    requires s.past != []
  {
    var view := ViewOf(Current(s), u);
    && (u in s.entries ==> s.entries[u].value == BaseOf(view))
    && (forall id :: id in s.loads && s.loads[id].userId == u ==>
          var l := s.loads[id];
          && (l.identity.Some? ==> l.identity.value.value == view.identity)
          && (l.devices.Some? ==> l.devices.value.value == view.devices)
          && (l.verifications.Some? ==> l.verifications.value.value == view.verifications))
  }

  lemma StepKeepsFresh(ttlMs: int, s: System, e: Event, u: string)
    requires s.past != [] && Fresh(s, u) && !(e.Change? && e.userId == u)
    ensures Fresh(Step(ttlMs, s, e), u)
  {
    var s' := Step(ttlMs, s, e);
    assert ViewOf(Current(s'), u) == ViewOf(Current(s), u);
    forall id | id in s'.loads
      ensures id !in s.loads ==> s'.loads[id].identity == None && s'.loads[id].devices == None
                                 && s'.loads[id].verifications == None
    {
      LoadsFollow(ttlMs, s, e, id);
    }
    if u in s'.entries && !Stores(s, e, u) {
      OnlyStoresAdd(ttlMs, s, e, u);
    }
  }

  lemma {:induction false} ResumeKeepsFresh(ttlMs: int, s: System, more: seq<Event>, u: string)
    requires s.past != [] && Fresh(s, u) && ChangesNot(u, more)
    ensures Fresh(Resume(ttlMs, s, more), u)
    decreases |more|
  {
    if more != [] {
      StepKeepsFresh(ttlMs, s, more[0], u);
      ResumeKeepsFresh(ttlMs, Step(ttlMs, s, more[0]), more[1..], u);
    }
  }

  /** The reads that a load still has to make. */
  function MissingReads(l: Load, id: nat): seq<Event> {
    (if l.identity.Some? then [] else [ReadIdentity(id)])
    + (if l.devices.Some? then [] else [ReadDevices(id)])
    + (if l.verifications.Some? then [] else [ReadVerifications(id)])
  }

  lemma ReadMissingIdentity(ttlMs: int, s: System, id: nat)
    requires s.past != [] && id in s.loads
    ensures var l := s.loads[id];
            var s' := Resume(ttlMs, s, if l.identity.Some? then [] else [ReadIdentity(id)]);
            && Current(s') == Current(s) && id in s'.loads
            && s'.loads[id].identity.Some? && s'.loads[id] == l.(identity := s'.loads[id].identity)
            && (l.identity.Some? ==> s'.loads[id].identity == l.identity)
  {
    ResumeOne(ttlMs, s, ReadIdentity(id));
  }

  lemma ReadMissingDevices(ttlMs: int, s: System, id: nat)
    requires s.past != [] && id in s.loads
    ensures var l := s.loads[id];
            var s' := Resume(ttlMs, s, if l.devices.Some? then [] else [ReadDevices(id)]);
            && Current(s') == Current(s) && id in s'.loads
            && s'.loads[id].devices.Some? && s'.loads[id] == l.(devices := s'.loads[id].devices)
            && (l.devices.Some? ==> s'.loads[id].devices == l.devices)
  {
    ResumeOne(ttlMs, s, ReadDevices(id));
  }

  lemma ReadMissingVerifications(ttlMs: int, s: System, id: nat)
    requires s.past != [] && id in s.loads
    ensures var l := s.loads[id];
            var s' := Resume(ttlMs, s, if l.verifications.Some? then [] else [ReadVerifications(id)]);
            && Current(s') == Current(s) && id in s'.loads
            && s'.loads[id].verifications.Some? && s'.loads[id] == l.(verifications := s'.loads[id].verifications)
            && (l.verifications.Some? ==> s'.loads[id].verifications == l.verifications)
  {
    ResumeOne(ttlMs, s, ReadVerifications(id));
  }

  /** Reading what is missing completes a load and keeps what it had read. */
  lemma ReadMissing(ttlMs: int, s: System, id: nat)
    requires s.past != [] && id in s.loads
    ensures var s' := Resume(ttlMs, s, MissingReads(s.loads[id], id));
            && Current(s') == Current(s) && id in s'.loads
            && Complete(s'.loads[id]) && s'.loads[id].userId == s.loads[id].userId
            && (s.loads[id].identity.Some? ==> s'.loads[id].identity == s.loads[id].identity)
            && (s.loads[id].devices.Some? ==> s'.loads[id].devices == s.loads[id].devices)
            && (s.loads[id].verifications.Some? ==> s'.loads[id].verifications == s.loads[id].verifications)
  {
    var l := s.loads[id];
    var a := if l.identity.Some? then [] else [ReadIdentity(id)];
    var b := if l.devices.Some? then [] else [ReadDevices(id)];
    var c := if l.verifications.Some? then [] else [ReadVerifications(id)];
    ReadMissingIdentity(ttlMs, s, id);
    ReadMissingDevices(ttlMs, Resume(ttlMs, s, a), id);
    ResumeConcat(ttlMs, s, a, b);
    ReadMissingVerifications(ttlMs, Resume(ttlMs, s, a + b), id);
    ResumeConcat(ttlMs, s, a + b, c);
  }

  lemma FinishOnly(ttlMs: int, s: System, id: nat)
    requires s.past != [] && id in s.loads && Complete(s.loads[id])
    ensures var s', l := Step(ttlMs, s, Finish(id)), s.loads[id];
            && s'.past == s.past + [Current(s)] && s'.now == s.now
            && s'.entries == s.entries[l.userId := Entry(BaseOf(Assembled(l)), s.now + ttlMs)]
  {
  }

  lemma FinishServes(ttlMs: int, s: System, id: nat)
    requires s.past != [] && id in s.loads && Complete(s.loads[id])
    ensures var s', l := Step(ttlMs, s, Finish(id)), s.loads[id];
            && Current(s') == Current(s)
            && Lookup(ttlMs, s'.entries, l.userId, s'.now) == Some(BaseOf(Assembled(l)))
  {
    FinishOnly(ttlMs, s, id);
  }

  lemma ChangedAndInvalidated(ttlMs: int, s: System, u: string, view: View)
    requires s.past != []
    ensures var s' := ChangeAndInvalidate(ttlMs, s, u, view);
            s'.loads == s.loads && ViewOf(Current(s'), u) == view && u !in s'.entries
  {
  }

  /** A view that a base with some part of this load differs from. */
  function Differing(l: Load): View {
    View(if l.identity.Some? && l.identity.value.value.Some? then None else Some(Identity("", "", "", "", "")),
         if l.devices.Some? && l.devices.value.value != [] then [] else [Device("", "", "")],
         if l.verifications.Some? && l.verifications.value.value != [] then [] else [Verification("", "", "")])
  }

  lemma DifferingBases(l: Load, view: View)
    requires l.identity.Some? ==> view.identity == l.identity.value.value
    requires l.devices.Some? ==> view.devices == l.devices.value.value
    requires l.verifications.Some? ==> view.verifications == l.verifications.value.value
    requires l.identity.Some? || l.devices.Some? || l.verifications.Some?
    ensures BaseOf(view) != BaseOf(Differing(l))
  {
    assert TallyOf(view.verifications).total == |view.verifications|;
    assert TallyOf(Differing(l).verifications).total == |Differing(l).verifications|;
  }

  /** A load that has read a part finishes its reads after the invalidation and stores. */
  lemma PartReadGoesStale(ttlMs: int, s: System, id: nat)
    requires s.past != [] && id in s.loads
    requires s.loads[id].identity.Some? || s.loads[id].devices.Some? || s.loads[id].verifications.Some?
    ensures var l := s.loads[id];
            var s1 := ChangeAndInvalidate(ttlMs, s, l.userId, Differing(l));
            var more := MissingReads(l, id) + [Finish(id)];
            ChangesNot(l.userId, more) && !Coherent(ttlMs, Resume(ttlMs, s1, more), l.userId)
  {
    var l := s.loads[id];
    var s1 := ChangeAndInvalidate(ttlMs, s, l.userId, Differing(l));
    ChangedAndInvalidated(ttlMs, s, l.userId, Differing(l));
    ReadMissing(ttlMs, s1, id);
    var s2 := Resume(ttlMs, s1, MissingReads(l, id));
    ResumeConcat(ttlMs, s1, MissingReads(l, id), [Finish(id)]);
    ResumeOne(ttlMs, s2, Finish(id));
    FinishServes(ttlMs, s2, id);
    DifferingBases(l, Assembled(s2.loads[id]));
  }

  lemma UnreadTakesHold(ttlMs: int, s: System, u: string, view: View, more: seq<Event>)
    requires s.past != [] && !PartRead(s, u) && ChangesNot(u, more)
    ensures Coherent(ttlMs, Resume(ttlMs, ChangeAndInvalidate(ttlMs, s, u, view), more), u)
  {
    var s1 := ChangeAndInvalidate(ttlMs, s, u, view);
    ChangedAndInvalidated(ttlMs, s, u, view);
    ResumeKeepsFresh(ttlMs, s1, more, u);
  }

  /**
   * A change followed by an invalidation takes hold, whatever the change and whatever happens next short of
   * another change, exactly when no load of that user in flight had read anything yet.
   */
  lemma InvalidationHoldsExactlyWhen(ttlMs: int, s: System, u: string)
    requires s.past != []
    ensures (forall view, more :: ChangesNot(u, more) ==>
               Coherent(ttlMs, Resume(ttlMs, ChangeAndInvalidate(ttlMs, s, u, view), more), u))
            <==> !PartRead(s, u)
  {
    if PartRead(s, u) {
      var id :| id in s.loads && s.loads[id].userId == u
                && (s.loads[id].identity.Some? || s.loads[id].devices.Some? || s.loads[id].verifications.Some?);
      PartReadGoesStale(ttlMs, s, id);
    } else {
      forall view, more | ChangesNot(u, more)
        ensures Coherent(ttlMs, Resume(ttlMs, ChangeAndInvalidate(ttlMs, s, u, view), more), u)
      {
        UnreadTakesHold(ttlMs, s, u, view, more);
      }
    }
  }

  // ----- a load with nothing in between -------------------------------------------------------------

  /** A load of a user who has an unexpired entry ends at once and changes nothing. */
  lemma ServedLoadEnds(ttlMs: int, s: System, id: nat, u: string)
    requires s.past != [] && u in s.entries && (ttlMs > 0 ==> s.now < s.entries[u].expiresAt)
    ensures Step(ttlMs, s, Begin(id, u)) == s.(past := s.past + [Current(s)])
    ensures Answer(ttlMs, s.entries, u, ViewOf(Current(s), u), s.now) == s.entries[u].value
  {
  }

  lemma SoloBegins(ttlMs: int, s: System, id: nat, u: string)
    requires s.past != [] && id !in s.loads
    requires !(u in s.entries && (ttlMs > 0 ==> s.now < s.entries[u].expiresAt))
    ensures var s1 := Step(ttlMs, s, Begin(id, u));
            && Current(s1) == Current(s) && s1.now == s.now && s1.entries == s.entries - {u}
            && s1.loads == s.loads[id := Load(u, Here(s), None, None, None)]
  {
  }

  lemma MissLoads(ttlMs: int, entries: Entries, u: string, view: View, now: int)
    requires !(u in entries && (ttlMs > 0 ==> now < entries[u].expiresAt))
    ensures Loaded(ttlMs, entries, u, view, now, now) == entries[u := Entry(BaseOf(view), now + ttlMs)]
    ensures Answer(ttlMs, entries, u, view, now) == BaseOf(view)
  {
  }

  /** Any other load ends as the load that is one step does, with what the managers hold. */
  lemma SoloLoadIsAtomic(ttlMs: int, s: System, id: nat, u: string)
    requires s.past != [] && id !in s.loads
    requires !(u in s.entries && (ttlMs > 0 ==> s.now < s.entries[u].expiresAt))
    ensures var view := ViewOf(Current(s), u);
            var s' := Resume(ttlMs, Step(ttlMs, s, Begin(id, u)),
                             [ReadIdentity(id), ReadDevices(id), ReadVerifications(id), Finish(id)]);
            && s'.entries == s.entries[u := Entry(BaseOf(view), s.now + ttlMs)]
            && s'.entries == Loaded(ttlMs, s.entries, u, view, s.now, s.now)
            && Answer(ttlMs, s.entries, u, view, s.now) == BaseOf(view)
            && s'.loads == s.loads && s'.now == s.now && Current(s') == Current(s)
  {
    var s1 := Step(ttlMs, s, Begin(id, u));
    var all := [ReadIdentity(id), ReadDevices(id), ReadVerifications(id)];
    SoloBegins(ttlMs, s, id, u);
    MissLoads(ttlMs, s.entries, u, ViewOf(Current(s), u), s.now);
    SoloReads(ttlMs, s1, id, u);
    ResumeConcat(ttlMs, s1, all, [Finish(id)]);
    assert all + [Finish(id)] == [ReadIdentity(id), ReadDevices(id), ReadVerifications(id), Finish(id)];
    ResumeOne(ttlMs, Resume(ttlMs, s1, all), Finish(id));
    SoloFinishes(ttlMs, s, Resume(ttlMs, s1, all), id, u);
  }

  /** The load has read everything, and nothing else has changed. */
  ghost predicate AllRead(s: System, s': System, id: nat, u: string)
    requires s.past != []
  {
    var view := ViewOf(Current(s), u);
    && s'.past != [] && Current(s') == Current(s) && s'.now == s.now && s'.entries == s.entries
    && id in s'.loads && s'.loads.Keys == s.loads.Keys && (forall j :: j in s.loads && j != id ==> s'.loads[j] == s.loads[j])
    && Complete(s'.loads[id]) && s'.loads[id].userId == u && Assembled(s'.loads[id]) == view
  }

  lemma SoloReads(ttlMs: int, s: System, id: nat, u: string)
    requires s.past != [] && id in s.loads && s.loads[id].userId == u
    ensures AllRead(s, Resume(ttlMs, s, [ReadIdentity(id), ReadDevices(id), ReadVerifications(id)]), id, u)
  {
    var a, b, c := [ReadIdentity(id)], [ReadDevices(id)], [ReadVerifications(id)];
    assert a + b + c == [ReadIdentity(id), ReadDevices(id), ReadVerifications(id)];
    ResumeConcat(ttlMs, s, a + b, c);
    ResumeConcat(ttlMs, s, a, b);
    var s1 := Resume(ttlMs, s, a);
    var s2 := Resume(ttlMs, s1, b);
    ResumeOne(ttlMs, s, ReadIdentity(id));
    ResumeOne(ttlMs, s1, ReadDevices(id));
    ResumeOne(ttlMs, s2, ReadVerifications(id));
  }

  lemma SoloFinishes(ttlMs: int, s: System, s': System, id: nat, u: string)
    requires s.past != [] && id !in s.loads && s'.past != []
    requires Current(s') == Current(s) && s'.now == s.now && s'.entries == s.entries - {u}
    requires id in s'.loads && s'.loads.Keys == s.loads.Keys + {id} && (forall j :: j in s.loads ==> s'.loads[j] == s.loads[j])
    requires Complete(s'.loads[id]) && s'.loads[id].userId == u && Assembled(s'.loads[id]) == ViewOf(Current(s), u)
    ensures var after := Step(ttlMs, s', Finish(id));
            && after.entries == s.entries[u := Entry(BaseOf(ViewOf(Current(s), u)), s.now + ttlMs)]
            && after.loads == s.loads && after.now == s.now && Current(after) == Current(s)
  {
    FinishOnly(ttlMs, s', id);
    var after := Step(ttlMs, s', Finish(id));
    assert after.loads == s'.loads - {id};
  }

  lemma StepInvalidates(ttlMs: int, s: System, e: Event)
    requires s.past != []
    ensures var s' := Step(ttlMs, s, e);
            && |s'.past| == |s.past| + 1
            && s'.invalidated == if e.Invalidate? then s.invalidated[e.userId := |s.past| - 1] else s.invalidated
  {
  }

  /** A user's last invalidation is the latest one in the run. */
  lemma {:induction false} InvalidatedIsLatest(ttlMs: int, backend: Backend, now: int, events: seq<Event>, u: string)
    ensures var s := Run(ttlMs, backend, now, events);
            && |s.past| == |events| + 1
            && (u in s.invalidated ==> s.invalidated[u] < |events| && events[s.invalidated[u]] == Event.Invalidate(u))
            && (forall k: nat :: k < |events| && events[k] == Event.Invalidate(u) ==>
                  u in s.invalidated && k <= s.invalidated[u])
  {
    if events != [] {
      var front := events[..|events| - 1];
      InvalidatedIsLatest(ttlMs, backend, now, front, u);
      StepInvalidates(ttlMs, Run(ttlMs, backend, now, front), events[|front|]);
      assert forall k: nat :: k < |front| ==> events[k] == front[k];
    }
  }

  /** How much time the ticks of a run add up to. */
  function Ticked(events: seq<Event>): nat {
    if events == [] then 0
    else
      var last := events[|events| - 1];
      Ticked(events[..|events| - 1]) + if last.Tick? then last.ms else 0
  }

  lemma {:induction false} RunClock(ttlMs: int, backend: Backend, now: int, events: seq<Event>)
    ensures Run(ttlMs, backend, now, events).now == now + Ticked(events)
  {
    if events != [] {
      RunClock(ttlMs, backend, now, events[..|events| - 1]);
    }
  }

  /** A load that reads everything, and then finishes only after its user changed and was invalidated. */
  function LateReads(u: string): seq<Event> {
    [Begin(0, u), ReadIdentity(0), ReadDevices(0), ReadVerifications(0)]
  }

  function LateStore(u: string, after: View): seq<Event> {
    LateReads(u) + [Event.Change(u, after)] + [Event.Invalidate(u)] + [Finish(0)]
  }

  lemma RunAppend(ttlMs: int, backend: Backend, now: int, events: seq<Event>, e: Event)
    ensures Run(ttlMs, backend, now, events + [e]) == Step(ttlMs, Run(ttlMs, backend, now, events), e)
  {
    assert (events + [e])[..|events + [e]| - 1] == events;
  }

  /** That load when it has read everything. */
  function LateLoad(u: string, before: View): Load {
    Load(u, 0, Some(Read(before.identity, 1)), Some(Read(before.devices, 2)), Some(Read(before.verifications, 3)))
  }

  /** A system with nothing but one load, reading. */
  function Lone(past: seq<Backend>, now: int, l: Load): System {
    System(past, now, map[], map[0 := l], map[], map[])
  }

  lemma LoneReads(ttlMs: int, past: seq<Backend>, b: Backend, now: int, l: Load)
    ensures var s, here := Lone(past + [b], now, l), |past|;
            && Step(ttlMs, s, ReadIdentity(0))
               == Lone(past + [b, b], now, l.(identity := Some(Read(ViewOf(b, l.userId).identity, here))))
            && Step(ttlMs, s, ReadDevices(0))
               == Lone(past + [b, b], now, l.(devices := Some(Read(ViewOf(b, l.userId).devices, here))))
            && Step(ttlMs, s, ReadVerifications(0))
               == Lone(past + [b, b], now, l.(verifications := Some(Read(ViewOf(b, l.userId).verifications, here))))
  {
    assert past + [b] + [b] == past + [b, b];
    assert (past + [b])[|past|] == b;
  }

  lemma LateStoreReads(ttlMs: int, u: string, before: View, start: int)
    ensures var b := map[u := before];
            Run(ttlMs, b, start, LateReads(u)) == Lone([b, b, b, b, b], start, LateLoad(u, before))
  {
    var b := map[u := before];
    var l0 := Load(u, 0, None, None, None);
    var l1 := l0.(identity := Some(Read(before.identity, 1)));
    var l2 := l1.(devices := Some(Read(before.devices, 2)));
    var e1 := [] + [Begin(0, u)];
    var e2 := e1 + [ReadIdentity(0)];
    var e3 := e2 + [ReadDevices(0)];
    RunAppend(ttlMs, b, start, [], Begin(0, u));
    assert Run(ttlMs, b, start, e1) == Lone([b] + [b], start, l0);
    RunAppend(ttlMs, b, start, e1, ReadIdentity(0));
    LoneReads(ttlMs, [b], b, start, l0);
    assert [b] + [b, b] == [b, b] + [b];
    RunAppend(ttlMs, b, start, e2, ReadDevices(0));
    LoneReads(ttlMs, [b, b], b, start, l1);
    assert [b, b] + [b, b] == [b, b, b] + [b];
    RunAppend(ttlMs, b, start, e3, ReadVerifications(0));
    LoneReads(ttlMs, [b, b, b], b, start, l2);
    assert [b, b, b] + [b, b] == [b, b, b, b, b];
    assert LateReads(u) == e3 + [ReadVerifications(0)];
  }

  lemma LateStoreInvalidates(ttlMs: int, u: string, before: View, after: View, start: int)
    ensures var b, b', l, es := map[u := before], map[u := after], LateLoad(u, before), LateReads(u);
            && Run(ttlMs, b, start, es + [Event.Change(u, after)]) == Lone([b, b, b, b, b, b'], start, l)
            && Run(ttlMs, b, start, es + [Event.Change(u, after)] + [Event.Invalidate(u)])
               == Lone([b, b, b, b, b, b', b'], start, l).(invalidated := map[u := 5])
  {
    var b, es, change := map[u := before], LateReads(u), Event.Change(u, after);
    LateStoreReads(ttlMs, u, before, start);
    RunAppend(ttlMs, b, start, es, change);
    assert b[u := after] == map[u := after];
    RunAppend(ttlMs, b, start, es + [change], Event.Invalidate(u));
  }

  /**
   * Without quiet it is false: the load stores what it read before the invalidation, and the settled user is
   * served the old base.
   */
  lemma LateStoreIsStale(ttlMs: int, u: string, before: View, after: View, start: int)
    ensures var s := Run(ttlMs, map[u := before], start, LateStore(u, after));
            && Settled(s, u)
            && ViewOf(Current(s), u) == after
            && Lookup(ttlMs, s.entries, u, s.now) == Some(BaseOf(before))
    ensures !Quiet(ttlMs, map[u := before], start, LateStore(u, after))
  {
    var b, b' := map[u := before], map[u := after];
    var es := LateReads(u) + [Event.Change(u, after)];
    var es' := es + [Event.Invalidate(u)];
    LateStoreInvalidates(ttlMs, u, before, after, start);
    RunAppend(ttlMs, b, start, es', Finish(0));
    FinishOnly(ttlMs, Run(ttlMs, b, start, es'), 0);
    var s := Run(ttlMs, b, start, LateStore(u, after));
    assert Assembled(LateLoad(u, before)) == before;
    assert s.past == [b, b, b, b, b, b', b', b'] && s.invalidated == map[u := 5];
    assert es'[..|es'| - 1] == es && LateStore(u, after)[..|LateStore(u, after)| - 1] == es';
    assert 0 in Run(ttlMs, b, start, es).loads;
    assert !Quiet(ttlMs, b, start, es');
  }
}
