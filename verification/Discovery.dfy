/**
 * Client peer discovery (client/src/lib/discovery.js): a bounded history per peer beside a cache of the
 * last metadata seen, and the loop that polls a discovery until it ends or a deadline passes.
 */
module Discovery {
  import opened Sequences

  const HISTORY_LIMIT: nat := 20

  datatype Metadata = Metadata(deviceIds: Option<seq<string>>, details: string)

  /** One remembered lookup. */
  datatype Entry = Entry(session: string, metadata: Option<Metadata>, at: int)

  /** What the server answers a lookup; a failed request is no reply. */
  datatype Reply = Reply(success: bool, session: string, metadata: Option<Metadata>)

  datatype Answer = Answer(session: Option<string>, metadata: Option<Metadata>)

  datatype Cache = Cache(metadataByPeer: map<string, Metadata>, historyByPeer: map<string, seq<Entry>>)

  function History(c: Cache, peer: string): seq<Entry> {
    if peer in c.historyByPeer then c.historyByPeer[peer] else []
  }

  function CachedMetadata(c: Cache, peer: string): Option<Metadata> {
    if peer in c.metadataByPeer then Some(c.metadataByPeer[peer]) else None
  }

  function Remembered(c: Cache, peer: string, e: Entry): Cache {
    Cache(if e.metadata.Some? then c.metadataByPeer[peer := e.metadata.value] else c.metadataByPeer,
          c.historyByPeer[peer := FirstN([e] + History(c, peer), HISTORY_LIMIT)])
  }

  /** The entry comes first, and of what was there before it the first 19 stay behind it. */
  predicate Prepended(before: seq<Entry>, e: Entry, after: seq<Entry>) {
    && |after| == (if |before| < 20 then |before| + 1 else 20)
    && after[0] == e
    && forall i :: 0 < i < |after| ==> after[i] == before[i - 1]
  }

  class DiscoveryClient {
    var metadataByPeer: map<string, Metadata>
    var historyByPeer: map<string, seq<Entry>>

    constructor ()
      ensures State() == Cache(map[], map[])
    {
      metadataByPeer, historyByPeer := map[], map[];
    }

    function State(): Cache
      reads this
    {
      Cache(metadataByPeer, historyByPeer)
    }

    method Remember(peer: string, session: string, metadata: Option<Metadata>, now: int)
      modifies this
      ensures State() == Remembered(old(State()), peer, Entry(session, metadata, now))
      ensures metadataByPeer == if metadata.Some? then old(metadataByPeer)[peer := metadata.value] else old(metadataByPeer)
      ensures peer in historyByPeer && historyByPeer == old(historyByPeer)[peer := historyByPeer[peer]]
      ensures Prepended(if peer in old(historyByPeer) then old(historyByPeer)[peer] else [],
                        Entry(session, metadata, now), historyByPeer[peer])
    {
      if metadata.Some? {
        metadataByPeer := metadataByPeer[peer := metadata.value];
      }
      var prior := [];
      if peer in historyByPeer {
        prior := historyByPeer[peer];
      }
      historyByPeer := historyByPeer[peer := FirstN([Entry(session, metadata, now)] + prior, HISTORY_LIMIT)];
    }

    /** The three lookups differ only in what they ask; only a successful reply is remembered. */
    method Lookup(peer: string, reply: Option<Reply>, now: int) returns (answer: Answer)
      modifies this
      ensures var accepted := reply.Some? && reply.value.success;
              && State() == (if accepted
                             then Remembered(old(State()), peer, Entry(reply.value.session, reply.value.metadata, now))
                             else old(State()))
              && answer == if accepted then Answer(Some(reply.value.session), reply.value.metadata) else Answer(None, None)
      ensures !(reply.Some? && reply.value.success) ==>
        metadataByPeer == old(metadataByPeer) && historyByPeer == old(historyByPeer)
    {
      if reply.Some? && reply.value.success {
        Remember(peer, reply.value.session, reply.value.metadata, now);
        return Answer(Some(reply.value.session), reply.value.metadata);
      }
      return Answer(None, None);
    }

    method GetCachedDeviceIds(peer: string) returns (ids: seq<string>)
      ensures ids == match CachedMetadata(State(), peer)
                     case Some(m) => m.deviceIds.GetOr([])
                     case None => []
      ensures ids == if peer in metadataByPeer && metadataByPeer[peer].deviceIds.Some?
                     then metadataByPeer[peer].deviceIds.value else []
    {
      ids := [];
      if peer in metadataByPeer && metadataByPeer[peer].deviceIds.Some? {
        ids := metadataByPeer[peer].deviceIds.value;
      }
    }

    method ClearDiscoveryCache()
      modifies this
      ensures State() == Cache(map[], map[])
    {
      metadataByPeer, historyByPeer := map[], map[];
    }
  }

  // ----- the cache agrees with the log --------------------------------------------------------------

  datatype Event = Looked(peer: string, entry: Entry) | Clear

  function Step(c: Cache, e: Event): Cache {
    match e
    case Looked(peer, entry) => Remembered(c, peer, entry)
    case Clear => Cache(map[], map[])
  }

  function Run(events: seq<Event>): Cache {
    if events == [] then Cache(map[], map[])
    else Step(Run(events[..|events| - 1]), events[|events| - 1])
  }

  /** All lookups of a peer since the last clear, newest first. */
  function LookupsOf(events: seq<Event>, peer: string): seq<Entry> {
    if events == [] then []
    else
      match events[|events| - 1]
      case Clear => []
      case Looked(p, entry) =>
        var before := LookupsOf(events[..|events| - 1], peer);
        if p == peer then [entry] + before else before
  }

  /** The metadata of the newest lookup that has any. */
  function NewestMetadata(entries: seq<Entry>): Option<Metadata> {
    if entries == [] then None
    else if entries[0].metadata.Some? then entries[0].metadata
    else NewestMetadata(entries[1..])
  }

  /** A peer's history is its last 20 lookups since the clear, newest first, and the cached metadata is that of
      the newest of all its lookups since the clear that has any. */
  lemma {:induction false} CacheAgreesWithLog(events: seq<Event>, peer: string)
    ensures History(Run(events), peer) == FirstN(LookupsOf(events, peer), HISTORY_LIMIT)
    ensures CachedMetadata(Run(events), peer) == NewestMetadata(LookupsOf(events, peer))
  {
    if events != [] {
      var front, e := events[..|events| - 1], events[|events| - 1];
      CacheAgreesWithLog(front, peer);
      if e.Looked? && e.peer == peer {
        FirstNPrepend(LookupsOf(front, peer), e.entry, HISTORY_LIMIT);
        assert ([e.entry] + LookupsOf(front, peer))[1..] == LookupsOf(front, peer);
      }
    }
  }

  /** What was looked up before a clear does not matter after it. */
  lemma {:induction false} ClearForgets(events: seq<Event>, more: seq<Event>)
    ensures Run(events + [Clear] + more) == Run(more)
    decreases |more|
  {
    var all := events + [Clear] + more;
    if more == [] {
      assert all[..|all| - 1] == events;
    } else {
      ClearForgets(events, more[..|more| - 1]);
      assert all[..|all| - 1] == events + [Clear] + more[..|more| - 1];
    }
  }

  /** The first entry that has metadata is the i-th. */
  predicate FirstWithMetadata(entries: seq<Entry>, i: int) {
    0 <= i < |entries| && entries[i].metadata.Some? && forall j :: 0 <= j < i ==> entries[j].metadata == None
  }

  /** Newest first, the newest metadata is that of the first entry that has any. */
  lemma {:induction false} NewestIsFirst(entries: seq<Entry>, i: int)
    requires FirstWithMetadata(entries, i)
    ensures NewestMetadata(entries) == entries[i].metadata
  {
    if i > 0 {
      assert entries[0].metadata == None;
      NewestIsFirst(entries[1..], i - 1);
    }
  }

  lemma {:induction false} NewestInWindow(entries: seq<Entry>, n: nat)
    ensures NewestMetadata(FirstN(entries, n)).Some? ==> NewestMetadata(FirstN(entries, n)) == NewestMetadata(entries)
    ensures NewestMetadata(entries) == None <==> forall e :: e in entries ==> e.metadata == None
    decreases |entries|
  {
    if entries != [] {
      NewestInWindow(entries[1..], if n > 0 then n - 1 else 0);
      assert entries == [entries[0]] + entries[1..];
      if n > 0 {
        assert FirstN(entries, n)[1..] == FirstN(entries[1..], n - 1);
      }
    }
  }

  /**
   * The window and the cache give the same metadata exactly when some entry in the window has metadata or no
   * lookup since the clear had any; otherwise the cache remembers more than the window shows.
   */
  lemma WindowAgreesExactlyWhen(events: seq<Event>, peer: string)
    ensures var c := Run(events);
            NewestMetadata(History(c, peer)) == CachedMetadata(c, peer)
            <==> || (exists e :: e in History(c, peer) && e.metadata.Some?)
                 || (forall e :: e in LookupsOf(events, peer) ==> e.metadata == None)
  {
    CacheAgreesWithLog(events, peer);
    var all := LookupsOf(events, peer);
    NewestInWindow(all, HISTORY_LIMIT);
    NewestInWindow(FirstN(all, HISTORY_LIMIT), HISTORY_LIMIT);
  }

  // ----- polling until a terminal state -------------------------------------------------------------

  const TERMINAL: set<string> := {"resolved", "failed", "expired", "cancelled", "completed"}

  predicate IsTerminal(state: Option<string>) {
    state.Some? && state.value in TERMINAL
  }

  predicate IsResolved(state: Option<string>) {
    state == Some("resolved") || state == Some("completed")
  }

  /** Each turn of the loop, with its poll and its sleep, takes at least `step`. */
  ghost predicate Advances(clock: nat -> int, step: int) {
    forall i: nat :: clock(i) + step <= clock(i + 1)
  }

  lemma {:induction false} ClockAfter(clock: nat -> int, step: int, n: nat)
    requires Advances(clock, step)
    ensures clock(0) + n * step <= clock(n)
  {
    if n > 0 {
      ClockAfter(clock, step, n - 1);
      assert clock(n - 1) + step <= clock(n - 1 + 1);
    }
  }

  /** Division rounded up, for a positive divisor; nothing to wait for takes no turn. */
  function TurnsWithin(timeoutMs: int, step: int): nat
    requires 0 < step
  {
    if timeoutMs <= 0 then 0 else (timeoutMs + step - 1) / step
  }

  lemma TurnsCover(timeoutMs: int, step: int)
    requires 0 < step
    ensures TurnsWithin(timeoutMs, step) * step >= timeoutMs
  {
    if timeoutMs > 0 {
      var q, r := (timeoutMs + step - 1) / step, (timeoutMs + step - 1) % step;
      assert timeoutMs + step - 1 == q * step + r;
    }
  }

  /**
   * The loop: `started` is the clock when the deadline is set, `clock(i)` when it is tested for the i-th
   * time, and `poll(i)` the state the i-th poll answers (None for a failed request). All it needs to end is that
   * the clock passes the deadline some time. It returns the first terminal state polled if there is one in time,
   * otherwise the last poll's answer.
   */
  method AwaitResolved(poll: nat -> Option<string>, started: int, clock: nat -> int, timeoutMs: int, ghost late: nat)
    returns (last: Option<string>, polls: nat)
    requires clock(late) >= started + timeoutMs
    ensures Polled(poll, started + timeoutMs, clock, polls)
    ensures forall i :: 0 <= i < polls ==> clock(i) < started + timeoutMs
    ensures forall i :: 0 <= i < polls - 1 ==> !IsTerminal(poll(i))
    ensures clock(polls) < started + timeoutMs ==> IsTerminal(last)
    ensures last == if polls == 0 then None else poll(polls - 1)
  {
    var deadline := started + timeoutMs;
    last, polls := None, 0;
    while clock(polls) < deadline
      invariant polls <= late
      invariant forall i :: 0 <= i < polls ==> clock(i) < deadline && !IsTerminal(poll(i))
      invariant last == if polls == 0 then None else poll(polls - 1)
      decreases late - polls
    {
      last := poll(polls);
      polls := polls + 1;
      if IsTerminal(last) {
        return;
      }
    }
  }

  /**
   * The loop may end after `polls` polls: all began before the deadline, only the last may have been terminal,
   * and either it was or the deadline has passed.
   */
  ghost predicate Polled(poll: nat -> Option<string>, deadline: int, clock: nat -> int, polls: nat) {
    && (forall i :: 0 <= i < polls ==> clock(i) < deadline)
    && (forall i :: 0 <= i < polls - 1 ==> !IsTerminal(poll(i)))
    && ((polls > 0 && IsTerminal(poll(polls - 1))) || clock(polls) >= deadline)
  }

  /** The loop ends after one number of polls only, so its answer is determined. */
  lemma AwaitResolvedIsDetermined(poll: nat -> Option<string>, deadline: int, clock: nat -> int, m: nat, n: nat)
    requires Polled(poll, deadline, clock, m) && Polled(poll, deadline, clock, n)
    ensures m == n
  {
  }

  /** When each turn takes at least a positive interval, the clock passes the deadline, within timeout / interval polls. */
  lemma PollsWithinTurns(poll: nat -> Option<string>, started: int, clock: nat -> int, timeoutMs: int, step: int,
                         polls: nat)
    requires 0 < step && Advances(clock, step) && started <= clock(0)
    ensures clock(TurnsWithin(timeoutMs, step)) >= started + timeoutMs
    ensures Polled(poll, started + timeoutMs, clock, polls) ==> polls <= TurnsWithin(timeoutMs, step)
    ensures Polled(poll, started + timeoutMs, clock, polls) ==> polls == 0 || (polls - 1) * step < timeoutMs
  {
    if polls > 0 {
      ClockAfter(clock, step, polls - 1);
    }
    ClockAfter(clock, step, TurnsWithin(timeoutMs, step));
    TurnsCover(timeoutMs, step);
  }

  /** A resolved discovery has ended; one that has ended unresolved failed, expired or was cancelled. */
  lemma ResolvedIsTerminal(state: Option<string>)
    ensures IsResolved(state) ==> IsTerminal(state)
    ensures IsResolved(state) <==> state == Some("resolved") || state == Some("completed")
    ensures IsTerminal(state) && !IsResolved(state) <==>
      state == Some("failed") || state == Some("expired") || state == Some("cancelled")
  {
  }
}
