/**
 * The receiving ratchet of the message-key manager (server/message-keys/manager/messageKeyManager.js and
 * server/message-keys/cache/messageKeyCache.js).
 *
 * Message n is opened with a key derived from the chain key at index n. A message ahead of the chain makes
 * the receiver derive and cache the keys it skips; a message behind it must find its key in that cache. The
 * cache is bounded in size and age. Keys are symbolic: a chain key is known by how it was reached.
 */
module MessageKeyRatchet {
  import opened Sequences

  /**
   * The chain key after `index` advances in one generation of a session's chain. The sender's sending chain is
   * the receiver's receiving chain; the other direction is an independent chain and is not looked at.
   */
  datatype ChainKey = ChainKey(session: string, generation: nat, index: nat)

  /** The key derived from a chain key for a message number. */
  datatype MessageKey = MessageKey(chainKey: ChainKey, number: nat)

  datatype Slot = Slot(session: string, generation: nat, number: nat)

  datatype Cached = Cached(slot: Slot, key: MessageKey, at: int)

  datatype Chain = Chain(generation: nat, index: nat)

  datatype Config = Config(limit: nat, ttlMs: int, maxSkip: nat)

  datatype Outcome =
    | Key(key: MessageKey, fromCache: bool)
    | Malformed
    | NoChain
    | GenerationMismatch
    | AlreadyConsumed
    | TooManySkipped

  // ----- the skipped-key cache ----------------------------------------------------------------------

  /** Where the entries hold a slot, or their number. Entries are in insertion order. */
  function IndexOf(entries: seq<Cached>, slot: Slot): (k: nat)
    ensures k <= |entries|
    ensures k < |entries| ==> entries[k].slot == slot
    ensures forall i :: 0 <= i < k ==> entries[i].slot != slot
  {
    if entries == [] || entries[0].slot == slot then 0 else 1 + IndexOf(entries[1..], slot)
  }

  function Without(entries: seq<Cached>, slot: Slot): seq<Cached> {
    var k := IndexOf(entries, slot);
    if k < |entries| then entries[..k] + entries[k + 1..] else entries
  }

  /** A put replaces in place or appends. */
  function With(entries: seq<Cached>, e: Cached): seq<Cached> {
    var k := IndexOf(entries, e.slot);
    if k < |entries| then entries[k := e] else entries + [e]
  }

  /** It drops the oldest entry when that exceeds the limit. */
  function Adding(limit: nat, entries: seq<Cached>, e: Cached): seq<Cached> {
    var next := With(entries, e);
    if |next| > limit then next[1..] else next
  }

  /** The entries that have not reached the time to live. */
  function Unexpired(ttlMs: int, entries: seq<Cached>, now: int): seq<Cached> {
    if entries == [] then []
    else
      var rest, last := Unexpired(ttlMs, entries[..|entries| - 1], now), entries[|entries| - 1];
      if now - last.at >= ttlMs then rest else rest + [last]
  }

  /** The entries of other sessions. */
  function OfOthers(entries: seq<Cached>, session: string): seq<Cached> {
    if entries == [] then []
    else
      var rest, last := OfOthers(entries[..|entries| - 1], session), entries[|entries| - 1];
      if last.slot.session == session then rest else rest + [last]
  }

  /** Pruning keeps exactly the entries put less than the time to live ago, in their order. */
  lemma {:induction false} UnexpiredKeeps(ttlMs: int, entries: seq<Cached>, now: int)
    ensures Keeps(entries, Unexpired(ttlMs, entries, now), set k: nat | k < |entries| && now - entries[k].at < ttlMs)
  {
    var at := set k: nat | k < |entries| && now - entries[k].at < ttlMs;
    if entries == [] {
      KeepsNothing(entries, at);
    } else {
      var front := entries[..|entries| - 1];
      UnexpiredKeeps(ttlMs, front, now);
      assert at - {|front|} == set k: nat | k < |front| && now - front[k].at < ttlMs;
      KeepsLast(entries, Unexpired(ttlMs, front, now), at);
    }
  }

  /** A teardown keeps exactly the other sessions' entries, in their order. */
  lemma {:induction false} OfOthersKeeps(entries: seq<Cached>, session: string)
    ensures Keeps(entries, OfOthers(entries, session), set k: nat | k < |entries| && entries[k].slot.session != session)
  {
    var at := set k: nat | k < |entries| && entries[k].slot.session != session;
    if entries == [] {
      KeepsNothing(entries, at);
    } else {
      var front := entries[..|entries| - 1];
      OfOthersKeeps(front, session);
      assert at - {|front|} == set k: nat | k < |front| && front[k].slot.session != session;
      KeepsLast(entries, OfOthers(front, session), at);
    }
  }

  /** By the entries themselves. */
  lemma UnexpiredEntries(ttlMs: int, entries: seq<Cached>, now: int)
    ensures forall e :: e in Unexpired(ttlMs, entries, now) <==> e in entries && now - e.at < ttlMs
  {
    UnexpiredKeeps(ttlMs, entries, now);
    KeepsValues(entries, Unexpired(ttlMs, entries, now), set k: nat | k < |entries| && now - entries[k].at < ttlMs);
  }

  lemma OfOthersEntries(entries: seq<Cached>, session: string)
    ensures forall e :: e in OfOthers(entries, session) <==> e in entries && e.slot.session != session
  {
    OfOthersKeeps(entries, session);
    KeepsValues(entries, OfOthers(entries, session), set k: nat | k < |entries| && entries[k].slot.session != session);
  }

  /** A put replaces its slot's entry or comes last; above the limit the first entry goes, and is answered. */
  predicate PutResult(limit: nat, before: seq<Cached>, e: Cached, after: seq<Cached>, evicted: Option<Cached>) {
    var k := IndexOf(before, e.slot);
    var all := if k < |before| then before[k := e] else before + [e];
    if |all| <= limit then evicted == None && after == all else evicted == Some(all[0]) && after == all[1..]
  }

  class MessageKeyCache {
    const limit: nat
    const ttlMs: int
    var entries: seq<Cached>

    constructor (limit: nat, ttlMs: int)
      ensures this.limit == limit && this.ttlMs == ttlMs && entries == []
    {
      this.limit, this.ttlMs, entries := limit, ttlMs, [];
    }

    method Put(e: Cached) returns (evicted: Option<Cached>)
      modifies this
      ensures entries == Adding(limit, old(entries), e)
      ensures PutResult(limit, old(entries), e, entries, evicted)
    {
      var k := IndexOf(entries, e.slot);
      if k < |entries| {
        entries := entries[k := e];
      } else {
        entries := entries + [e];
      }
      evicted := None;
      if |entries| > limit {
        evicted := Some(entries[0]);
        entries := entries[1..];
      }
    }

    method Take(slot: Slot) returns (key: Option<MessageKey>)
      modifies this
      ensures entries == Without(old(entries), slot)
      ensures var k := IndexOf(old(entries), slot);
              if k < |old(entries)|
              then key == Some(old(entries)[k].key) && entries == old(entries)[..k] + old(entries)[k + 1..]
              else key == None && entries == old(entries)
    {
      var k := IndexOf(entries, slot);
      if k == |entries| {
        return None;
      }
      key := Some(entries[k].key);
      entries := entries[..k] + entries[k + 1..];
    }

    method PruneExpired(now: int) returns (destroyed: nat)
      modifies this
      ensures entries == Unexpired(ttlMs, old(entries), now)
      ensures Keeps(old(entries), entries,
                    set k: nat | k < |old(entries)| && now - old(entries)[k].at < ttlMs)
      ensures forall e :: e in entries <==> e in old(entries) && now - e.at < ttlMs
      ensures destroyed == |old(entries)| - |entries|
    {
      UnexpiredKeeps(ttlMs, entries, now);
      UnexpiredEntries(ttlMs, entries, now);
      var all, kept := entries, [];
      destroyed := 0;
      for i := 0 to |all|
        invariant kept == Unexpired(ttlMs, all[..i], now)
        invariant destroyed == i - |kept|
        invariant entries == old(entries)
      {
        assert all[..i + 1][..i] == all[..i];
        if now - all[i].at >= ttlMs {
          destroyed := destroyed + 1;
        } else {
          kept := kept + [all[i]];
        }
      }
      assert all[..|all|] == all;
      entries := kept;
    }

    method DestroySession(session: string) returns (count: nat)
      modifies this
      ensures entries == OfOthers(old(entries), session)
      ensures Keeps(old(entries), entries,
                    set k: nat | k < |old(entries)| && old(entries)[k].slot.session != session)
      ensures count == |old(entries)| - |entries|
    {
      OfOthersKeeps(entries, session);
      var all, kept := entries, [];
      count := 0;
      for i := 0 to |all|
        invariant kept == OfOthers(all[..i], session)
        invariant count == i - |kept|
        invariant entries == old(entries)
      {
        assert all[..i + 1][..i] == all[..i];
        if all[i].slot.session == session {
          count := count + 1;
        } else {
          kept := kept + [all[i]];
        }
      }
      assert all[..|all|] == all;
      entries := kept;
    }
  }

  // ----- opening one message ------------------------------------------------------------------------

  datatype Ratchet = Ratchet(chains: map<string, Chain>, entries: seq<Cached>)

  function Skipped(session: string, generation: nat, number: nat, now: int): Cached {
    Cached(Slot(session, generation, number),
           MessageKey(ChainKey(session, generation, number), number), now)
  }

  /** The cache after deriving and caching the keys for [from, upTo) as the chain advances past them. */
  function SkipTo(limit: nat, entries: seq<Cached>, session: string, generation: nat, from: nat, upTo: nat, now: int)
    : seq<Cached>
    decreases upTo
  {
    if upTo <= from then entries
    else Adding(limit, SkipTo(limit, entries, session, generation, from, upTo - 1, now),
             Skipped(session, generation, upTo - 1, now))
  }

  /** What opening (generation, number) answers. */
  function Opening(cfg: Config, s: Ratchet, session: string, generation: int, number: int): Outcome {
    if number < 0 || generation < 0 then Malformed
    else if session !in s.chains then NoChain
    else
      var chain := s.chains[session];
      if generation != chain.generation then GenerationMismatch
      else if number < chain.index then
        var k := IndexOf(s.entries, Slot(session, chain.generation, number));
        if k < |s.entries| then Key(s.entries[k].key, true) else AlreadyConsumed
      else if number - chain.index > cfg.maxSkip then TooManySkipped
      else Key(MessageKey(ChainKey(session, chain.generation, number), number), false)
  }

  /** The chains and the cache after that. */
  function Opened(cfg: Config, s: Ratchet, session: string, generation: int, number: int, now: int): Ratchet {
    var outcome := Opening(cfg, s, session, generation, number);
    if !outcome.Key? then s
    else
      var chain := s.chains[session];
      if outcome.fromCache then s.(entries := Without(s.entries, Slot(session, chain.generation, number)))
      else Ratchet(s.chains[session := Chain(chain.generation, number + 1)],
                 SkipTo(cfg.limit, s.entries, session, chain.generation, chain.index, number, now))
  }

  class MessageKeyManager {
    const cache: MessageKeyCache
    const maxSkip: nat
    /** The receiving chains, and on the sending side of a session the sending chains. */
    var chains: map<string, Chain>
    var sending: map<string, Chain>

    constructor (chains: map<string, Chain>, sending: map<string, Chain>, limit: nat, ttlMs: int, maxSkip: nat)
      ensures fresh(cache) && cache.limit == limit && cache.ttlMs == ttlMs && this.maxSkip == maxSkip
      ensures cache.entries == [] && this.chains == chains && this.sending == sending
    {
      cache := new MessageKeyCache(limit, ttlMs);
      this.maxSkip := maxSkip;
      this.chains, this.sending := chains, sending;
    }

    /** The key one seal is given; the chain advances only when the seal function did not throw. */
    method SealMessage(session: string, sealed: bool) returns (key: Option<MessageKey>)
      modifies this`sending
      ensures session !in old(sending) ==> key == None && sending == old(sending)
      ensures session in old(sending) ==>
        var chain := old(sending)[session];
        && key == Some(MessageKey(ChainKey(session, chain.generation, chain.index), chain.index))
        && sending == old(sending)[session := Chain(chain.generation, SealedIndex(chain.index, sealed))]
        && (sealed ==> sending[session].index == chain.index + 1)
        && (!sealed ==> sending == old(sending))
    {
      if session !in sending {
        return None;
      }
      var chain := sending[session];
      key := Some(MessageKey(ChainKey(session, chain.generation, chain.index), chain.index));
      if sealed {
        chain := chain.(index := chain.index + 1);
      }
      sending := sending[session := chain];
    }

    function State(): Ratchet
      reads this, cache
    {
      Ratchet(chains, cache.entries)
    }

    /** The key at the chain's current index; the number goes into the derivation as well. */
    function Derive(session: string, number: nat): MessageKey
      requires session in chains
      reads this
    {
      MessageKey(ChainKey(session, chains[session].generation, chains[session].index), number)
    }

    method AdvanceReceivingChain(session: string)
      requires session in chains
      modifies this`chains
      ensures chains == old(chains)[session := Chain(old(chains)[session].generation, old(chains)[session].index + 1)]
    {
      chains := chains[session := Chain(chains[session].generation, chains[session].index + 1)];
    }

    /** Derives, or takes from the cache, the key that opens (generation, number). */
    method OpenMessage(session: string, generation: int, number: int, now: int) returns (outcome: Outcome)
      modifies this`chains, cache
      ensures var cfg := Config(cache.limit, cache.ttlMs, maxSkip);
              && outcome == Opening(cfg, old(State()), session, generation, number)
              && State() == Opened(cfg, old(State()), session, generation, number, now)
      ensures outcome.Key? && !outcome.fromCache ==>
        chains == old(chains)[session := Chain(old(chains)[session].generation, number + 1)]
      ensures !(outcome.Key? && !outcome.fromCache) ==> chains == old(chains)
      ensures !outcome.Key? ==> cache.entries == old(cache.entries)
    {
      if number < 0 || generation < 0 {
        return Malformed;
      }
      if session !in chains {
        return NoChain;
      }
      if generation != chains[session].generation {
        return GenerationMismatch;
      }
      var r := chains[session].index;
      if number < r {
        var cached := cache.Take(Slot(session, generation, number));
        if cached == None {
          return AlreadyConsumed;
        }
        return Key(cached.value, true);
      }
      if number - r > maxSkip {
        return TooManySkipped;
      }
      var key := DeriveAhead(session, number, now);
      return Key(key, false);
    }

    /** Caches the keys the chain skips, advancing past each, then derives the target's and advances past it. */
    method DeriveAhead(session: string, number: nat, now: int) returns (key: MessageKey)
      requires session in chains && chains[session].index <= number
      modifies this`chains, cache
      ensures var chain := old(chains)[session];
              && key == MessageKey(ChainKey(session, chain.generation, number), number)
              && chains == old(chains)[session := Chain(chain.generation, number + 1)]
              && cache.entries
                 == SkipTo(cache.limit, old(cache.entries), session, chain.generation, chain.index, number, now)
    {
      var chain := chains[session];
      for i := chain.index to number
        invariant session in chains && chains == old(chains)[session := Chain(chain.generation, i)]
        invariant cache.entries
               == SkipTo(cache.limit, old(cache.entries), session, chain.generation, chain.index, i, now)
      {
        var skipped := Derive(session, i);
        var evicted := cache.Put(Cached(Slot(session, chain.generation, i), skipped, now));
        AdvanceReceivingChain(session);
      }
      key := Derive(session, number);
      AdvanceReceivingChain(session);
    }

    method PruneCache(now: int) returns (expired: nat)
      modifies cache
      ensures cache.entries == Unexpired(cache.ttlMs, old(cache.entries), now)
      ensures forall e :: e in cache.entries <==> e in old(cache.entries) && now - e.at < cache.ttlMs
      ensures expired == |old(cache.entries)| - |cache.entries|
    {
      expired := cache.PruneExpired(now);
    }
  }

  // ----- whole runs ---------------------------------------------------------------------------------

  datatype Event =
    | Open(session: string, generation: int, number: int)
    | Reroot(session: string, next: nat)
    | Prune
    | DestroySession(session: string)
    | Tick(ms: nat)

  /**
   * `used` lists the keys handed out so far, whether or not the message then opened; `dropped` the slots
   * whose cached key was evicted, expired or torn down.
   */
  datatype System = System(now: int, ratchet: Ratchet, used: seq<MessageKey>, dropped: set<Slot>)

  function Slots(entries: seq<Cached>): set<Slot> {
    set e | e in entries :: e.slot
  }

  function SlotOf(k: MessageKey): Slot {
    Slot(k.chainKey.session, k.chainKey.generation, k.number)
  }

  function SlotRange(session: string, generation: nat, from: nat, upTo: nat): set<Slot> {
    set n: nat | from <= n < upTo :: Slot(session, generation, n)
  }

  function Start(generations: map<string, nat>, now: int): System {
    System(now, Ratchet(map u | u in generations :: Chain(generations[u], 0), []), [], {})
  }

  /** A re-root must move to a later generation; its chain starts at index 0. */
  function Step(cfg: Config, s: System, e: Event): System {
    match e
    case Open(session, generation, number) =>
      var outcome := Opening(cfg, s.ratchet, session, generation, number);
      if !outcome.Key? then s
      else
        var after := Opened(cfg, s.ratchet, session, generation, number, s.now);
        var skipped := if outcome.fromCache then {}
                       else SlotRange(session, generation, s.ratchet.chains[session].index, number);
        s.(ratchet := after, used := s.used + [outcome.key],
           dropped := s.dropped + (Slots(s.ratchet.entries) + skipped - Slots(after.entries) - {SlotOf(outcome.key)}))
    case Reroot(session, generation) =>
      if session !in s.ratchet.chains || generation <= s.ratchet.chains[session].generation then s
      else s.(ratchet := s.ratchet.(chains := s.ratchet.chains[session := Chain(generation, 0)]))
    case Prune =>
      var kept := Unexpired(cfg.ttlMs, s.ratchet.entries, s.now);
      s.(ratchet := s.ratchet.(entries := kept), dropped := s.dropped + (Slots(s.ratchet.entries) - Slots(kept)))
    case DestroySession(session) =>
      var kept := OfOthers(s.ratchet.entries, session);
      s.(ratchet := s.ratchet.(entries := kept), dropped := s.dropped + (Slots(s.ratchet.entries) - Slots(kept)))
    case Tick(ms) => s.(now := s.now + ms)
  }

  function Run(cfg: Config, generations: map<string, nat>, now: int, events: seq<Event>): System {
    if events == [] then Start(generations, now)
    else Step(cfg, Run(cfg, generations, now, events[..|events| - 1]), events[|events| - 1])
  }

  /** The chain has moved past this slot. */
  predicate Past(chains: map<string, Chain>, slot: Slot) {
    && slot.session in chains
    && (slot.generation < chains[slot.session].generation
        || (slot.generation == chains[slot.session].generation && slot.number < chains[slot.session].index))
  }

  /** A message key derived from the chain key at its own number. */
  predicate RightKey(k: MessageKey) {
    k.chainKey.index == k.number
  }

  /** Cached keys are right for their slots, the chain has passed them, and no slot is cached twice. */
  ghost predicate EntriesInv(chains: map<string, Chain>, entries: seq<Cached>) {
    && (forall i :: 0 <= i < |entries| ==>
          RightKey(entries[i].key) && SlotOf(entries[i].key) == entries[i].slot && Past(chains, entries[i].slot))
    && (forall i, j :: 0 <= i < j < |entries| ==> entries[i].slot != entries[j].slot)
  }

  ghost predicate UsedInv(chains: map<string, Chain>, used: seq<MessageKey>) {
    && (forall i :: 0 <= i < |used| ==> RightKey(used[i]) && Past(chains, SlotOf(used[i])))
    && (forall i, j :: 0 <= i < j < |used| ==> SlotOf(used[i]) != SlotOf(used[j]))
  }

  function UsedSlots(used: seq<MessageKey>): set<Slot> {
    set k | k in used :: SlotOf(k)
  }

  /** Used, cached and dropped slots never meet, and every slot a current chain has passed is one of them. */
  ghost predicate Partition(chains: map<string, Chain>, used: set<Slot>, cached: set<Slot>, dropped: set<Slot>) {
    && used !! cached && used !! dropped && cached !! dropped
    && (forall slot :: slot in dropped ==> Past(chains, slot))
    && (forall slot: Slot :: Past(chains, slot) && slot.generation == chains[slot.session].generation ==>
          slot in used || slot in cached || slot in dropped)
  }

  ghost predicate Inv(cfg: Config, s: System) {
    && |s.ratchet.entries| <= cfg.limit
    && EntriesInv(s.ratchet.chains, s.ratchet.entries)
    && UsedInv(s.ratchet.chains, s.used)
    && Partition(s.ratchet.chains, UsedSlots(s.used), Slots(s.ratchet.entries), s.dropped)
  }

  // ----- the cache operations, by their slots -------------------------------------------------------

  lemma WithoutKeepsInv(chains: map<string, Chain>, entries: seq<Cached>, slot: Slot)
    requires EntriesInv(chains, entries)
    ensures EntriesInv(chains, Without(entries, slot)) && |Without(entries, slot)| <= |entries|
  {
    var k, rest := IndexOf(entries, slot), Without(entries, slot);
    if k < |entries| {
      assert forall i :: 0 <= i < |rest| ==> rest[i] == entries[if i < k then i else i + 1];
    }
  }

  lemma IndexOfSlots(entries: seq<Cached>, slot: Slot)
    ensures IndexOf(entries, slot) < |entries| <==> slot in Slots(entries)
  {
    var k := IndexOf(entries, slot);
    if k < |entries| {
      assert entries[k] in entries;
    }
  }

  lemma SlotsConcat(a: seq<Cached>, b: seq<Cached>)
    ensures Slots(a + b) == Slots(a) + Slots(b)
  {
    forall e | e in a + b
      ensures e in a || e in b
    {
    }
    assert forall e :: e in a || e in b ==> e in a + b;
  }

  /** The slots around position k, which holds a slot of its own. */
  lemma SlotsAround(chains: map<string, Chain>, entries: seq<Cached>, k: nat)
    requires EntriesInv(chains, entries) && k < |entries|
    ensures Slots(entries) == Slots(entries[..k]) + {entries[k].slot} + Slots(entries[k + 1..])
    ensures entries[k].slot !in Slots(entries[..k]) && entries[k].slot !in Slots(entries[k + 1..])
  {
    SlotsConcat(entries[..k], entries[k..]);
    SlotsConcat([entries[k]], entries[k + 1..]);
    assert entries == entries[..k] + entries[k..] && entries[k..] == [entries[k]] + entries[k + 1..];
    assert Slots([entries[k]]) == {entries[k].slot};
  }

  lemma WithoutSlots(chains: map<string, Chain>, entries: seq<Cached>, slot: Slot)
    requires EntriesInv(chains, entries)
    ensures EntriesInv(chains, Without(entries, slot)) && |Without(entries, slot)| <= |entries|
    ensures Slots(Without(entries, slot)) == Slots(entries) - {slot}
    ensures IndexOf(entries, slot) < |entries| <==> slot in Slots(entries)
  {
    WithoutKeepsInv(chains, entries, slot);
    IndexOfSlots(entries, slot);
    var k := IndexOf(entries, slot);
    if k < |entries| {
      SlotsAround(chains, entries, k);
      SlotsConcat(entries[..k], entries[k + 1..]);
    }
  }

  lemma AddingFresh(limit: nat, chains: map<string, Chain>, entries: seq<Cached>, e: Cached)
    requires |entries| <= limit && EntriesInv(chains, entries) && e.slot !in Slots(entries)
    requires RightKey(e.key) && SlotOf(e.key) == e.slot && Past(chains, e.slot)
    ensures EntriesInv(chains, Adding(limit, entries, e))
    ensures |Adding(limit, entries, e)| == if |entries| < limit then |entries| + 1 else limit
    ensures Slots(Adding(limit, entries, e)) <= Slots(entries) + {e.slot}
    ensures |entries| < limit ==> Slots(Adding(limit, entries, e)) == Slots(entries) + {e.slot}
  {
    var k := IndexOf(entries, e.slot);
    assert k == |entries|;
    var all := entries + [e];
    assert With(entries, e) == all;
    assert forall i, j :: 0 <= i < j < |all| ==> all[i].slot != all[j].slot by {
      assert forall i :: 0 <= i < |entries| ==> entries[i].slot in Slots(entries);
    }
    assert Slots(all) == Slots(entries) + {e.slot} by {
      assert forall i :: 0 <= i < |entries| ==> all[i] == entries[i];
      assert all[|entries|] == e;
    }
  }

  lemma {:induction false} UnexpiredSlots(chains: map<string, Chain>, entries: seq<Cached>, ttlMs: int, now: int)
    requires EntriesInv(chains, entries)
    ensures EntriesInv(chains, Unexpired(ttlMs, entries, now))
    ensures |Unexpired(ttlMs, entries, now)| <= |entries|
    ensures Slots(Unexpired(ttlMs, entries, now)) <= Slots(entries)
  {
    if entries != [] {
      var front, last := entries[..|entries| - 1], entries[|entries| - 1];
      UnexpiredSlots(chains, front, ttlMs, now);
      KeepLast(chains, front, last, Unexpired(ttlMs, front, now));
      assert entries == front + [last];
    }
  }

  lemma {:induction false} OfOthersSlots(chains: map<string, Chain>, entries: seq<Cached>, session: string)
    requires EntriesInv(chains, entries)
    ensures EntriesInv(chains, OfOthers(entries, session))
    ensures |OfOthers(entries, session)| <= |entries|
    ensures Slots(OfOthers(entries, session)) <= Slots(entries)
  {
    if entries != [] {
      var front, last := entries[..|entries| - 1], entries[|entries| - 1];
      OfOthersSlots(chains, front, session);
      KeepLast(chains, front, last, OfOthers(front, session));
      assert entries == front + [last];
    }
  }

  /** Some of the front, with or without the last entry. */
  lemma KeepLast(chains: map<string, Chain>, front: seq<Cached>, last: Cached, kept: seq<Cached>)
    requires EntriesInv(chains, front + [last])
    requires EntriesInv(chains, kept) && Slots(kept) <= Slots(front)
    ensures EntriesInv(chains, front)
    ensures EntriesInv(chains, kept + [last])
    ensures Slots(kept + [last]) <= Slots(front + [last]) && Slots(kept) <= Slots(front + [last])
  {
    var all := front + [last];
    assert all[|front|] == last;
    assert forall i :: 0 <= i < |front| ==> all[i] == front[i];
    assert last.slot !in Slots(front);
    assert forall i :: 0 <= i < |kept| ==> kept[i].slot in Slots(kept);
  }

  lemma {:induction false} SkipToSlots(limit: nat, chains: map<string, Chain>, entries: seq<Cached>, session: string,
                                       generation: nat, from: nat, upTo: nat, now: int)
    requires |entries| <= limit && EntriesInv(chains, entries) && from <= upTo
    requires SlotRange(session, generation, from, upTo) !! Slots(entries)
    requires session in chains && chains[session].generation == generation && upTo <= chains[session].index
    ensures var after := SkipTo(limit, entries, session, generation, from, upTo, now);
            && EntriesInv(chains, after)
            && |after| <= limit
            && Slots(after) <= Slots(entries) + SlotRange(session, generation, from, upTo)
            && (|entries| + (upTo - from) <= limit ==>
                  && |after| == |entries| + (upTo - from)
                  && Slots(after) == Slots(entries) + SlotRange(session, generation, from, upTo))
    decreases upTo
  {
    if upTo > from {
      var last := Slot(session, generation, upTo - 1);
      assert SlotRange(session, generation, from, upTo) == SlotRange(session, generation, from, upTo - 1) + {last};
      assert last !in SlotRange(session, generation, from, upTo - 1);
      SkipToSlots(limit, chains, entries, session, generation, from, upTo - 1, now);
      var before := SkipTo(limit, entries, session, generation, from, upTo - 1, now);
      AddingFresh(limit, chains, before, Skipped(session, generation, upTo - 1, now));
    } else {
      assert SlotRange(session, generation, from, upTo) == {};
    }
  }

  /** The entries, followed by the keys from one number up to another, cached now. */
  function FollowedBy(entries: seq<Cached>, session: string, generation: nat, from: nat, upTo: nat, now: int)
    : (all: seq<Cached>)
    requires from <= upTo
    ensures |all| == |entries| + (upTo - from)
    ensures forall i :: 0 <= i < |entries| ==> all[i] == entries[i]
    ensures forall i :: |entries| <= i < |all| ==>
      var n := from + (i - |entries|);
      all[i] == Cached(Slot(session, generation, n), MessageKey(ChainKey(session, generation, n), n), now)
    decreases upTo
  {
    if upTo == from then entries
    else
      var front := FollowedBy(entries, session, generation, from, upTo - 1, now);
      front + [Skipped(session, generation, upTo - 1, now)]
  }

  /** A new slot's entry comes last. */
  lemma AddingLast(limit: nat, kept: seq<Cached>, e: Cached)
    requires |kept| <= limit && forall i :: 0 <= i < |kept| ==> kept[i].slot != e.slot
    ensures Adding(limit, kept, e) == LastN(kept + [e], limit)
  {
    assert With(kept, e) == kept + [e];
  }

  lemma AddingToLatest(limit: nat, all: seq<Cached>, e: Cached)
    requires var kept := LastN(all, limit); |kept| <= limit && forall i :: 0 <= i < |kept| ==> kept[i].slot != e.slot
    ensures Adding(limit, LastN(all, limit), e) == LastN(all + [e], limit)
  {
    AddingLast(limit, LastN(all, limit), e);
    LastNAppend(all, e, limit);
  }

  /** The slot is of another chain, or of an earlier number. */
  predicate IsBefore(slot: Slot, session: string, generation: nat, from: nat) {
    slot.session == session && slot.generation == generation ==> slot.number < from
  }

  /** None of these entries is for the next number. */
  lemma FollowedApart(entries: seq<Cached>, session: string, generation: nat, from: nat, number: nat, now: int,
                      limit: nat)
    requires from <= number && forall i :: 0 <= i < |entries| ==> IsBefore(entries[i].slot, session, generation, from)
    ensures var kept := LastN(FollowedBy(entries, session, generation, from, number, now), limit);
            |kept| <= limit && forall i :: 0 <= i < |kept| ==> kept[i].slot != Slot(session, generation, number)
  {
    var all := FollowedBy(entries, session, generation, from, number, now);
    forall i | 0 <= i < |all|
      ensures all[i].slot != Slot(session, generation, number)
    {
      if i < |entries| {
        assert all[i] == entries[i];
      }
    }
  }

  /** A full cache gives up its oldest keys: skipping leaves the latest `limit` of what it held and what is skipped. */
  lemma {:induction false} SkippingKeepsLatest(limit: nat, entries: seq<Cached>, session: string, generation: nat,
                                               from: nat, upTo: nat, now: int)
    requires |entries| <= limit && from <= upTo
    requires forall i :: 0 <= i < |entries| ==> IsBefore(entries[i].slot, session, generation, from)
    ensures SkipTo(limit, entries, session, generation, from, upTo, now)
            == LastN(FollowedBy(entries, session, generation, from, upTo, now), limit)
    decreases upTo
  {
    if upTo > from {
      var all, last := FollowedBy(entries, session, generation, from, upTo - 1, now), Skipped(session, generation, upTo - 1, now);
      assert SkipTo(limit, entries, session, generation, from, upTo - 1, now) == LastN(all, limit) by {
        SkippingKeepsLatest(limit, entries, session, generation, from, upTo - 1, now);
      }
      assert Adding(limit, LastN(all, limit), last) == LastN(all + [last], limit) by {
        FollowedApart(entries, session, generation, from, upTo - 1, now, limit);
        AddingToLatest(limit, all, last);
      }
    }
  }

  // ----- every step keeps the invariant -------------------------------------------------------------

  /** The chains only move forward. */
  ghost predicate Forward(before: map<string, Chain>, after: map<string, Chain>) {
    forall slot: Slot :: Past(before, slot) ==> Past(after, slot)
  }

  lemma InvFollowsChains(before: map<string, Chain>, after: map<string, Chain>, entries: seq<Cached>,
                         used: seq<MessageKey>)
    requires Forward(before, after) && EntriesInv(before, entries) && UsedInv(before, used)
    ensures EntriesInv(after, entries) && UsedInv(after, used)
  {
  }

  lemma UseOne(chains: map<string, Chain>, used: seq<MessageKey>, k: MessageKey)
    requires UsedInv(chains, used) && RightKey(k) && Past(chains, SlotOf(k)) && SlotOf(k) !in UsedSlots(used)
    ensures UsedInv(chains, used + [k]) && UsedSlots(used + [k]) == UsedSlots(used) + {SlotOf(k)}
  {
    assert forall i :: 0 <= i < |used| ==> SlotOf(used[i]) in UsedSlots(used);
    forall slot | slot in UsedSlots(used) + {SlotOf(k)}
      ensures slot in UsedSlots(used + [k])
    {
      if slot in UsedSlots(used) {
        var u :| u in used && SlotOf(u) == slot;
        assert u in used + [k];
      } else {
        assert (used + [k])[|used|] == k;
      }
    }
  }

  lemma OpenFromCacheKeepsInv(cfg: Config, s: System, session: string, generation: int, number: int)
    requires Inv(cfg, s)
    requires var outcome := Opening(cfg, s.ratchet, session, generation, number); outcome.Key? && outcome.fromCache
    ensures Inv(cfg, Step(cfg, s, Open(session, generation, number)))
  {
    var chain := s.ratchet.chains[session];
    var slot := Slot(session, chain.generation, number);
    var k := IndexOf(s.ratchet.entries, slot);
    WithoutSlots(s.ratchet.chains, s.ratchet.entries, slot);
    UseOne(s.ratchet.chains, s.used, s.ratchet.entries[k].key);
    assert Step(cfg, s, Open(session, generation, number)).dropped == s.dropped;
  }

  /** What opening ahead of the chain does to the slots. */
  lemma OpenAheadKeepsPartition(before: map<string, Chain>, session: string, number: nat, used: set<Slot>,
                                cached: set<Slot>, cached': set<Slot>, dropped: set<Slot>)
    requires session in before && before[session].index <= number
    requires Partition(before, used, cached, dropped)
    requires forall slot :: slot in used || slot in cached ==> Past(before, slot)
    requires var g := before[session].generation;
             cached' <= cached + SlotRange(session, g, before[session].index, number)
    ensures var g := before[session].generation;
            var slot := Slot(session, g, number);
            var all := cached + SlotRange(session, g, before[session].index, number);
            Partition(before[session := Chain(g, number + 1)], used + {slot}, cached',
                      dropped + (all - cached' - {slot}))
  {
    var g, from := before[session].generation, before[session].index;
    var range := SlotRange(session, g, from, number);
    var after := before[session := Chain(g, number + 1)];
    assert forall slot :: slot in range ==> !Past(before, slot) && Past(after, slot);
    forall slot: Slot | Past(after, slot) && slot.generation == after[slot.session].generation && !Past(before, slot)
      ensures slot in range || slot == Slot(session, g, number)
    {
    }
  }

  lemma OpenAheadKeepsInv(cfg: Config, s: System, session: string, generation: int, number: int)
    requires Inv(cfg, s)
    requires var outcome := Opening(cfg, s.ratchet, session, generation, number); outcome.Key? && !outcome.fromCache
    ensures Inv(cfg, Step(cfg, s, Open(session, generation, number)))
  {
    var before := s.ratchet.chains;
    var g, from := before[session].generation, before[session].index;
    var after := before[session := Chain(g, number + 1)];
    var key := MessageKey(ChainKey(session, g, number), number);
    assert !Past(before, SlotOf(key));
    InvFollowsChains(before, after, s.ratchet.entries, s.used);
    SkipToSlots(cfg.limit, after, s.ratchet.entries, session, g, from, number, s.now);
    UseOne(after, s.used, key);
    OpenAheadKeepsPartition(before, session, number, UsedSlots(s.used), Slots(s.ratchet.entries),
                            Slots(SkipTo(cfg.limit, s.ratchet.entries, session, g, from, number, s.now)), s.dropped);
  }

  lemma RerootKeepsInv(cfg: Config, s: System, session: string, next: nat)
    requires Inv(cfg, s)
    ensures Inv(cfg, Step(cfg, s, Reroot(session, next)))
  {
    var s' := Step(cfg, s, Reroot(session, next));
    assert Forward(s.ratchet.chains, s'.ratchet.chains);
    InvFollowsChains(s.ratchet.chains, s'.ratchet.chains, s.ratchet.entries, s.used);
  }

  lemma StepKeepsInv(cfg: Config, s: System, e: Event)
    requires Inv(cfg, s)
    ensures Inv(cfg, Step(cfg, s, e))
  {
    match e
    case Open(session, generation, number) =>
      var outcome := Opening(cfg, s.ratchet, session, generation, number);
      if outcome.Key? {
        if outcome.fromCache {
          OpenFromCacheKeepsInv(cfg, s, session, generation, number);
        } else {
          OpenAheadKeepsInv(cfg, s, session, generation, number);
        }
      }
    case Reroot(session, next) =>
      RerootKeepsInv(cfg, s, session, next);
    case Prune =>
      UnexpiredSlots(s.ratchet.chains, s.ratchet.entries, cfg.ttlMs, s.now);
    case DestroySession(session) =>
      OfOthersSlots(s.ratchet.chains, s.ratchet.entries, session);
    case Tick(ms) =>
  }

  lemma {:induction false} RunKeepsInv(cfg: Config, generations: map<string, nat>, now: int, events: seq<Event>)
    ensures Inv(cfg, Run(cfg, generations, now, events))
  {
    if events != [] {
      RunKeepsInv(cfg, generations, now, events[..|events| - 1]);
      StepKeepsInv(cfg, Run(cfg, generations, now, events[..|events| - 1]), events[|events| - 1]);
    }
  }

  // ----- what a run guarantees ----------------------------------------------------------------------

  /**
   * Over every run of opens, re-roots, prunes and teardowns, no key is ever handed out twice, every key
   * handed out was derived from the chain key at its own message number, and the cache stays bounded.
   */
  lemma KeysAreUsedAtMostOnce(cfg: Config, generations: map<string, nat>, now: int, events: seq<Event>)
    ensures var s := Run(cfg, generations, now, events);
            && Distinct(s.used)
            && (forall k :: k in s.used ==> RightKey(k))
            && |s.ratchet.entries| <= cfg.limit
  {
    RunKeepsInv(cfg, generations, now, events);
  }

  /**
   * Exactly which messages open: the current generation's, not too far ahead, and when behind the chain
   * neither used before nor dropped from the cache; and they open with the key of their own number.
   */
  lemma ExactlyWhatOpens(cfg: Config, generations: map<string, nat>, now: int, events: seq<Event>,
                         session: string, generation: int, number: int)
    ensures var s := Run(cfg, generations, now, events);
            var outcome := Opening(cfg, s.ratchet, session, generation, number);
            && (outcome.Key? <==>
                  && 0 <= number && 0 <= generation
                  && session in s.ratchet.chains && generation == s.ratchet.chains[session].generation
                  && (if number >= s.ratchet.chains[session].index
                      then number - s.ratchet.chains[session].index <= cfg.maxSkip
                      else Slot(session, generation, number) !in UsedSlots(s.used)
                           && Slot(session, generation, number) !in s.dropped))
            && (outcome.Key? ==> outcome.key == MessageKey(ChainKey(session, generation, number), number))
  {
    RunKeepsInv(cfg, generations, now, events);
    var s := Run(cfg, generations, now, events);
    if 0 <= number && 0 <= generation && session in s.ratchet.chains
       && generation == s.ratchet.chains[session].generation && number < s.ratchet.chains[session].index {
      var slot := Slot(session, generation, number);
      assert Past(s.ratchet.chains, slot);
      WithoutSlots(s.ratchet.chains, s.ratchet.entries, slot);
    }
  }

  /** Why a message gets no key, case by case; one behind the chain gets its key from the cache. */
  lemma ExactlyWhyRefused(cfg: Config, generations: map<string, nat>, now: int, events: seq<Event>,
                          session: string, generation: int, number: int)
    ensures var s := Run(cfg, generations, now, events);
            var outcome := Opening(cfg, s.ratchet, session, generation, number);
            var wellFormed := 0 <= number && 0 <= generation;
            var known := wellFormed && session in s.ratchet.chains;
            var current := known && generation == s.ratchet.chains[session].generation;
            && (outcome == Malformed <==> !wellFormed)
            && (outcome == NoChain <==> wellFormed && !known)
            && (outcome == GenerationMismatch <==> known && !current)
            && (outcome == TooManySkipped <==> current && number > s.ratchet.chains[session].index + cfg.maxSkip)
            && (outcome == AlreadyConsumed <==>
                  current && number < s.ratchet.chains[session].index
                  && (Slot(session, generation, number) in UsedSlots(s.used)
                      || Slot(session, generation, number) in s.dropped))
            && (outcome.Key? ==> (outcome.fromCache <==> number < s.ratchet.chains[session].index))
  {
    ExactlyWhatOpens(cfg, generations, now, events, session, generation, number);
  }

  /** A message that has opened never opens again, whatever happens in between. */
  lemma ReplaysAreRefused(cfg: Config, generations: map<string, nat>, now: int, events: seq<Event>, k: MessageKey)
    requires k in Run(cfg, generations, now, events).used
    ensures var s := Run(cfg, generations, now, events);
            !Opening(cfg, s.ratchet, k.chainKey.session, k.chainKey.generation, k.number).Key?
  {
    RunKeepsInv(cfg, generations, now, events);
    ExactlyWhatOpens(cfg, generations, now, events, k.chainKey.session, k.chainKey.generation, k.number);
    assert SlotOf(k) in UsedSlots(Run(cfg, generations, now, events).used);
  }

  // ----- what each event does to later opens ---------------------------------------------------------

  /** A re-root to a later generation opens that generation from its first message on, and no other. */
  lemma RerootSwitchesGeneration(cfg: Config, s: System, session: string, next: nat, generation: int, number: int)
    requires session in s.ratchet.chains && 0 <= generation && 0 <= number
    ensures var s' := Step(cfg, s, Reroot(session, next));
            var outcome := Opening(cfg, s'.ratchet, session, generation, number);
            if next <= s.ratchet.chains[session].generation
            then outcome == Opening(cfg, s.ratchet, session, generation, number)
            else outcome == if generation != next then GenerationMismatch
                            else if number > cfg.maxSkip then TooManySkipped
                            else Key(MessageKey(ChainKey(session, next, number), number), false)
  {
  }

  /** After a teardown no message behind that session's chain opens; nothing else changes. */
  lemma TeardownForgets(cfg: Config, s: System, torn: string, session: string, generation: int, number: int)
    requires Inv(cfg, s)
    ensures var before := Opening(cfg, s.ratchet, session, generation, number);
            var after := Opening(cfg, Step(cfg, s, DestroySession(torn)).ratchet, session, generation, number);
            after == if session == torn && before.Key? && before.fromCache then AlreadyConsumed else before
  {
    if 0 <= number && 0 <= generation {
      OfOthersSlots(s.ratchet.chains, s.ratchet.entries, torn);
      OfOthersEntries(s.ratchet.entries, torn);
      SameKeyIfKept(s.ratchet.chains, s.ratchet.entries, OfOthers(s.ratchet.entries, torn),
                    Slot(session, generation, number));
    }
  }

  /** A slot's entry, in the whole cache and in the part of it that is kept. */
  lemma SameKeyIfKept(chains: map<string, Chain>, all: seq<Cached>, kept: seq<Cached>, slot: Slot)
    requires EntriesInv(chains, all) && forall e :: e in kept ==> e in all
    ensures var i, j := IndexOf(all, slot), IndexOf(kept, slot);
            && (j < |kept| <==> i < |all| && all[i] in kept)
            && (j < |kept| ==> all[i] == kept[j])
  {
    var i, j := IndexOf(all, slot), IndexOf(kept, slot);
    if j < |kept| {
      assert kept[j] in all;
      var n :| 0 <= n < |all| && all[n] == kept[j];
      assert n == i;
    }
    if i < |all| && all[i] in kept {
      var n :| 0 <= n < |kept| && kept[n] == all[i];
    }
  }

  /** How much time the ticks of a run add up to. */
  function Elapsed(events: seq<Event>): nat {
    if events == [] then 0
    else
      var last := events[|events| - 1];
      Elapsed(events[..|events| - 1]) + if last.Tick? then last.ms else 0
  }

  lemma {:induction false} ClockAdds(cfg: Config, generations: map<string, nat>, now: int, events: seq<Event>)
    ensures Run(cfg, generations, now, events).now == now + Elapsed(events)
  {
    if events != [] {
      ClockAdds(cfg, generations, now, events[..|events| - 1]);
    }
  }

  /** The event at this place of the run moved the chain past the slot. */
  predicate Passes(cfg: Config, generations: map<string, nat>, now: int, events: seq<Event>, n: nat, slot: Slot)
    requires n < |events|
  {
    !Past(Run(cfg, generations, now, events[..n]).ratchet.chains, slot)
    && Past(Run(cfg, generations, now, events[..n + 1]).ratchet.chains, slot)
  }

  lemma StepMovesForward(cfg: Config, s: System, e: Event)
    ensures Forward(s.ratchet.chains, Step(cfg, s, e).ratchet.chains)
  {
  }

  lemma AddingEntries(limit: nat, entries: seq<Cached>, e: Cached)
    ensures forall x :: x in Adding(limit, entries, e) ==> x == e || x in entries
  {
    var k := IndexOf(entries, e.slot);
    forall x | x in With(entries, e)
      ensures x == e || x in entries
    {
      var j :| 0 <= j < |With(entries, e)| && With(entries, e)[j] == x;
      assert j < |entries| && j != k ==> entries[j] == x;
    }
  }

  lemma {:induction false} SkipToEntries(limit: nat, entries: seq<Cached>, session: string, generation: nat, from: nat,
                                         upTo: nat, now: int)
    ensures forall x :: x in SkipTo(limit, entries, session, generation, from, upTo, now) ==>
      x in entries || (x.at == now && x.slot in SlotRange(session, generation, from, upTo))
    decreases upTo
  {
    if upTo > from {
      SkipToEntries(limit, entries, session, generation, from, upTo - 1, now);
      AddingEntries(limit, SkipTo(limit, entries, session, generation, from, upTo - 1, now),
                    Skipped(session, generation, upTo - 1, now));
    }
  }

  /** An entry is there before an event, or the event passes its slot and caches it at that time. */
  lemma EntryIsNewOrOld(cfg: Config, s: System, e: Event, x: Cached)
    requires x in Step(cfg, s, e).ratchet.entries
    ensures x in s.ratchet.entries
            || (x.at == s.now && !Past(s.ratchet.chains, x.slot) && Past(Step(cfg, s, e).ratchet.chains, x.slot))
  {
    match e
    case Open(session, generation, number) =>
      var outcome := Opening(cfg, s.ratchet, session, generation, number);
      if outcome.Key? && !outcome.fromCache {
        var chain := s.ratchet.chains[session];
        SkipToEntries(cfg.limit, s.ratchet.entries, session, chain.generation, chain.index, number, s.now);
      }
    case Prune => UnexpiredEntries(cfg.ttlMs, s.ratchet.entries, s.now);
    case DestroySession(session) => OfOthersEntries(s.ratchet.entries, session);
    case _ =>
  }

  /** Every cached key was cached by the event that moved the chain past its slot, at that event's time. */
  lemma {:induction false} CachedWhenPassed(cfg: Config, generations: map<string, nat>, now: int, events: seq<Event>,
                                            x: Cached)
    returns (n: nat)
    requires x in Run(cfg, generations, now, events).ratchet.entries
    ensures n < |events| && Passes(cfg, generations, now, events, n, x.slot)
    ensures x.at == now + Elapsed(events[..n])
  {
    var front, e := events[..|events| - 1], events[|events| - 1];
    var s := Run(cfg, generations, now, front);
    EntryIsNewOrOld(cfg, s, e, x);
    if x in s.ratchet.entries {
      n := CachedWhenPassed(cfg, generations, now, front, x);
      assert events[..n] == front[..n] && events[..n + 1] == front[..n + 1];
    } else {
      n := |front|;
      ClockAdds(cfg, generations, now, front);
      assert events[..n] == front && events[..n + 1] == events;
    }
  }

  lemma {:induction false} PastStays(cfg: Config, generations: map<string, nat>, now: int, events: seq<Event>, n: nat,
                                     slot: Slot)
    requires n <= |events| && Past(Run(cfg, generations, now, events[..n]).ratchet.chains, slot)
    ensures Past(Run(cfg, generations, now, events).ratchet.chains, slot)
  {
    if n < |events| {
      var front := events[..|events| - 1];
      assert events[..n] == front[..n];
      PastStays(cfg, generations, now, front, n, slot);
      StepMovesForward(cfg, Run(cfg, generations, now, front), events[|events| - 1]);
    } else {
      assert events[..n] == events;
    }
  }

  /** A chain passes a slot once. */
  lemma PassedOnce(cfg: Config, generations: map<string, nat>, now: int, events: seq<Event>, m: nat, n: nat, slot: Slot)
    requires m < n < |events|
    requires Passes(cfg, generations, now, events, m, slot)
    ensures !Passes(cfg, generations, now, events, n, slot)
  {
    assert events[..n][..m + 1] == events[..m + 1];
    PastStays(cfg, generations, now, events[..n], m + 1, slot);
  }

  /**
   * Over every run, after a prune a message that the chain passed at some event gets a key exactly if it would have
   * got one before and less than the time to live has passed since that event.
   */
  lemma PruneLeavesYoung(cfg: Config, generations: map<string, nat>, now: int, events: seq<Event>, session: string,
                         number: nat, n: nat)
    requires var s := Run(cfg, generations, now, events);
             session in s.ratchet.chains && number < s.ratchet.chains[session].index
    requires var generation := Run(cfg, generations, now, events).ratchet.chains[session].generation;
             n < |events| && Passes(cfg, generations, now, events, n, Slot(session, generation, number))
    ensures var s := Run(cfg, generations, now, events);
            var generation := s.ratchet.chains[session].generation;
            var before := Opening(cfg, s.ratchet, session, generation, number);
            var after := Opening(cfg, Step(cfg, s, Prune).ratchet, session, generation, number);
            && (after.Key? <==> before.Key? && Elapsed(events) - Elapsed(events[..n]) < cfg.ttlMs)
            && (after.Key? ==> after == before)
  {
    var s := Run(cfg, generations, now, events);
    var slot := Slot(session, s.ratchet.chains[session].generation, number);
    var entries, kept := s.ratchet.entries, Unexpired(cfg.ttlMs, s.ratchet.entries, s.now);
    RunKeepsInv(cfg, generations, now, events);
    ClockAdds(cfg, generations, now, events);
    UnexpiredEntries(cfg.ttlMs, entries, s.now);
    SameKeyIfKept(s.ratchet.chains, entries, kept, slot);
    var k := IndexOf(entries, slot);
    if k < |entries| {
      var m := CachedWhenPassed(cfg, generations, now, events, entries[k]);
      if m < n {
        PassedOnce(cfg, generations, now, events, m, n, slot);
      } else if n < m {
        PassedOnce(cfg, generations, now, events, n, m, slot);
      }
    }
  }

  /** Opening ahead of the chain caches the keys it skips behind what the cache held, and gives up the oldest. */
  lemma OpenCachesSkipped(cfg: Config, generations: map<string, nat>, now: int, events: seq<Event>, session: string,
                          number: nat)
    requires var s := Run(cfg, generations, now, events);
             session in s.ratchet.chains && s.ratchet.chains[session].index <= number
             && number - s.ratchet.chains[session].index <= cfg.maxSkip
    ensures var s := Run(cfg, generations, now, events);
            var chain := s.ratchet.chains[session];
            var s' := Step(cfg, s, Open(session, chain.generation, number));
            && s'.ratchet.chains == s.ratchet.chains[session := Chain(chain.generation, number + 1)]
            && s'.ratchet.entries
               == LastN(FollowedBy(s.ratchet.entries, session, chain.generation, chain.index, number, s.now), cfg.limit)
  {
    RunKeepsInv(cfg, generations, now, events);
    AheadCachesSkipped(cfg, Run(cfg, generations, now, events), session, number);
  }

  lemma AheadCachesSkipped(cfg: Config, s: System, session: string, number: nat)
    requires Inv(cfg, s) && session in s.ratchet.chains && s.ratchet.chains[session].index <= number
    ensures var chain := s.ratchet.chains[session];
            SkipTo(cfg.limit, s.ratchet.entries, session, chain.generation, chain.index, number, s.now)
            == LastN(FollowedBy(s.ratchet.entries, session, chain.generation, chain.index, number, s.now), cfg.limit)
  {
    var chain := s.ratchet.chains[session];
    SkippingKeepsLatest(cfg.limit, s.ratchet.entries, session, chain.generation, chain.index, number, s.now);
  }

  // ----- messages in any order ----------------------------------------------------------------------

  function OpenAll(session: string, generation: nat, numbers: seq<nat>): seq<Event> {
    Map((n: nat) => Open(session, generation, n), numbers)
  }

  function KeyFor(session: string, generation: nat, n: nat): MessageKey {
    MessageKey(ChainKey(session, generation, n), n)
  }

  /** The chain is within the window and the cache holds only this session's passed and unused numbers. */
  ghost predicate WindowInv(s: System, session: string, generation: nat, top: nat) {
    && session in s.ratchet.chains && s.ratchet.chains[session].generation == generation
    && s.ratchet.chains[session].index <= top + 1
    && s.dropped == {}
    && Slots(s.ratchet.entries) <= SlotRange(session, generation, 0, s.ratchet.chains[session].index)
  }

  lemma {:induction false} RangeCardinality(session: string, generation: nat, n: nat)
    ensures |SlotRange(session, generation, 0, n)| == n
  {
    if n == 0 {
      assert SlotRange(session, generation, 0, 0) == {};
    } else {
      RangeCardinality(session, generation, n - 1);
      assert SlotRange(session, generation, 0, n)
          == SlotRange(session, generation, 0, n - 1) + {Slot(session, generation, n - 1)};
      assert Slot(session, generation, n - 1) !in SlotRange(session, generation, 0, n - 1);
    }
  }

  lemma EntriesCardinality(chains: map<string, Chain>, entries: seq<Cached>)
    requires EntriesInv(chains, entries)
    ensures |Slots(entries)| == |entries|
  {
    var slots := Map((e: Cached) => e.slot, entries);
    DistinctCardinality(slots);
    assert Elements(slots) == Slots(entries) by {
      forall e | e in entries
        ensures e.slot in slots
      {
        var i :| 0 <= i < |entries| && entries[i] == e;
        assert slots[i] == e.slot;
      }
    }
  }

  lemma OpenBehindWithinWindow(cfg: Config, s: System, session: string, generation: nat, number: nat, top: nat)
    requires Inv(cfg, s) && WindowInv(s, session, generation, top)
    requires number < s.ratchet.chains[session].index
    requires Slot(session, generation, number) !in UsedSlots(s.used)
    ensures var s' := Step(cfg, s, Open(session, generation, number));
            WindowInv(s', session, generation, top) && s'.used == s.used + [KeyFor(session, generation, number)]
  {
    var slot := Slot(session, generation, number);
    WithoutSlots(s.ratchet.chains, s.ratchet.entries, slot);
    assert Past(s.ratchet.chains, slot);
    assert slot in Slots(s.ratchet.entries);
  }

  lemma RangeJoins(session: string, generation: nat, a: nat, b: nat)
    requires a <= b
    ensures SlotRange(session, generation, 0, a) + SlotRange(session, generation, a, b)
            == SlotRange(session, generation, 0, b)
  {
  }

  lemma WindowHolds(cfg: Config, s: System, session: string, generation: nat, top: nat)
    requires Inv(cfg, s) && WindowInv(s, session, generation, top)
    ensures |s.ratchet.entries| <= s.ratchet.chains[session].index
  {
    var range := SlotRange(session, generation, 0, s.ratchet.chains[session].index);
    RangeCardinality(session, generation, s.ratchet.chains[session].index);
    EntriesCardinality(s.ratchet.chains, s.ratchet.entries);
    assert range == Slots(s.ratchet.entries) + (range - Slots(s.ratchet.entries));
  }

  lemma OpenAheadWithinWindow(cfg: Config, s: System, session: string, generation: nat, number: nat, top: nat)
    requires Inv(cfg, s) && WindowInv(s, session, generation, top)
    requires s.ratchet.chains[session].index <= number <= top <= cfg.limit && top <= cfg.maxSkip
    ensures var s' := Step(cfg, s, Open(session, generation, number));
            WindowInv(s', session, generation, top) && s'.used == s.used + [KeyFor(session, generation, number)]
  {
    var chains, entries, from := s.ratchet.chains, s.ratchet.entries, s.ratchet.chains[session].index;
    var after := chains[session := Chain(generation, number + 1)];
    assert EntriesInv(after, entries) by {
      InvFollowsChains(chains, after, entries, s.used);
    }
    WindowHolds(cfg, s, session, generation, top);
    SkipToSlots(cfg.limit, after, entries, session, generation, from, number, s.now);
    RangeJoins(session, generation, from, number);
    RangeJoins(session, generation, number, number + 1);
    var s' := Step(cfg, s, Open(session, generation, number));
    assert Slots(s'.ratchet.entries) == Slots(entries) + SlotRange(session, generation, from, number);
    assert s'.dropped == {};
  }

  /** Opening an unused number within the window succeeds and drops nothing. */
  lemma OpenWithinWindow(cfg: Config, s: System, session: string, generation: nat, number: nat, top: nat)
    requires Inv(cfg, s) && WindowInv(s, session, generation, top)
    requires number <= top <= cfg.limit && top <= cfg.maxSkip
    requires Slot(session, generation, number) !in UsedSlots(s.used)
    ensures var s' := Step(cfg, s, Open(session, generation, number));
            WindowInv(s', session, generation, top) && s'.used == s.used + [KeyFor(session, generation, number)]
  {
    if number < s.ratchet.chains[session].index {
      OpenBehindWithinWindow(cfg, s, session, generation, number, top);
    } else {
      OpenAheadWithinWindow(cfg, s, session, generation, number, top);
    }
  }

  /**
   * Whatever the order of arrival, distinct messages numbered within the cache limit and the skip bound all
   * open, each once and with its own key.
   */
  lemma {:induction false} AnyOrderOpens(cfg: Config, session: string, generation: nat, now: int, numbers: seq<nat>,
                                         top: nat)
    requires Distinct(numbers) && top <= cfg.limit && top <= cfg.maxSkip
    requires forall i :: 0 <= i < |numbers| ==> numbers[i] <= top
    ensures var s := Run(cfg, map[session := generation], now, OpenAll(session, generation, numbers));
            && s.used == Map((n: nat) => KeyFor(session, generation, n), numbers)
            && WindowInv(s, session, generation, top)
  {
    var keyOf := (n: nat) => KeyFor(session, generation, n);
    var events := OpenAll(session, generation, numbers);
    if numbers != [] {
      var front, last := numbers[..|numbers| - 1], numbers[|numbers| - 1];
      assert numbers == front + [last];
      AnyOrderOpens(cfg, session, generation, now, front, top);
      assert events[..|events| - 1] == OpenAll(session, generation, front);
      RunKeepsInv(cfg, map[session := generation], now, OpenAll(session, generation, front));
      var s := Run(cfg, map[session := generation], now, OpenAll(session, generation, front));
      assert Slot(session, generation, last) !in UsedSlots(s.used);
      OpenWithinWindow(cfg, s, session, generation, last, top);
      assert Map(keyOf, numbers) == Map(keyOf, front) + [keyOf(last)];
    }
  }

  // ----- sealing ------------------------------------------------------------------------------------

  /** Where one seal leaves the sending chain. */
  function SealedIndex(index: nat, sealed: bool): nat {
    if sealed then index + 1 else index
  }

  /** The sending chain's index after some seals. */
  function SendingIndex(seals: seq<bool>): nat {
    if seals == [] then 0 else SealedIndex(SendingIndex(seals[..|seals| - 1]), seals[|seals| - 1])
  }

  /** The key the k-th seal is given. */
  function SealKey(session: string, generation: nat, seals: seq<bool>, k: nat): MessageKey
    requires k < |seals|
  {
    KeyFor(session, generation, SendingIndex(seals[..k]))
  }

  /** A seal is given the key at the number of seals that succeeded before it. */
  lemma {:induction false} SealKeyCountsSuccesses(session: string, generation: nat, seals: seq<bool>, k: nat)
    requires k < |seals|
    ensures var n := |set i: nat | i < k && seals[i]|;
            SealKey(session, generation, seals, k) == MessageKey(ChainKey(session, generation, n), n)
  {
    if k > 0 {
      SealKeyCountsSuccesses(session, generation, seals, k - 1);
      assert seals[..k][..k - 1] == seals[..k - 1];
      assert (set i: nat | i < k && seals[i])
          == (set i: nat | i < k - 1 && seals[i]) + if seals[k - 1] then {k - 1} else {};
    }
  }

  lemma {:induction false} SendingIndexGrows(seals: seq<bool>, i: nat, j: nat)
    requires i <= j <= |seals|
    ensures SendingIndex(seals[..i]) <= SendingIndex(seals[..j])
    ensures SendingIndex(seals[..i]) == SendingIndex(seals[..j]) <==> forall k :: i <= k < j ==> !seals[k]
    decreases j
  {
    if i < j {
      SendingIndexGrows(seals, i, j - 1);
      assert seals[..j][..j - 1] == seals[..j - 1];
    }
  }

  /**
   * Two attempts to seal are given the same key exactly when every attempt from the first up to the second
   * failed; so no two successful seals share a key, and each key is the one the receiver derives.
   */
  lemma SealsShareKeysOnlyAfterFailure(session: string, generation: nat, seals: seq<bool>, i: nat, j: nat)
    requires i < j < |seals|
    ensures SealKey(session, generation, seals, i) == SealKey(session, generation, seals, j)
            <==> forall k :: i <= k < j ==> !seals[k]
    ensures RightKey(SealKey(session, generation, seals, i))
  {
    SendingIndexGrows(seals, i, j);
  }
}
