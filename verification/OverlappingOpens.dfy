/**
 * Opening messages step by step (server/message-keys/manager/messageKeyManager.js and
 * server/key-hierarchy/manager/chainManager.js).
 *
 * An open reads the session's record, and from then on derives one key after another, waiting each time for the
 * chain to advance. A lock keeps two opens of one session apart, but not the opens of different sessions, which
 * share the cache, and not a re-root, which first replaces the keys and later the record. An open keeps the
 * generation it read at the beginning, so a re-root can land inside it.
 */
module OverlappingOpens {
  import opened Sequences
  import opened MessageKeyRatchet

  /**
   * Where an open is: its context read; a key for number i derived and the chain not advanced yet; or advanced.
   */
  datatype Phase = Matched | Advancing(i: nat, key: MessageKey) | Advanced(i: nat, key: MessageKey)

  /**
   * `began` and `derived` are the steps of its beginning and its latest derivation; `midway` says that it began
   * between the two steps of a re-root.
   */
  datatype InFlight = InFlight(generation: nat, number: nat, began: nat, midway: bool, derived: nat, phase: Phase)

  /** A key given to an open function; `derived` is the step at which it was derived, or taken from the cache. */
  datatype Handed = Handed(session: string, generation: nat, number: nat, key: MessageKey, fromCache: bool,
                           midway: bool, began: nat, derived: nat)

  /**
   * `chains` is the key store, `records` the generation of each stored record, `rerooting` the re-roots between
   * their two steps, and `rerooted` the steps at which a session's keys were replaced.
   */
  datatype State = State(step: nat, now: int, chains: map<string, Chain>, records: map<string, nat>,
                         rerooting: map<string, nat>, rerooted: set<(string, nat)>, entries: seq<Cached>,
                         opens: map<string, InFlight>, handed: seq<Handed>)

  datatype Action =
    | Begin(session: string, generation: int, number: int)
    | Proceed(session: string)
    | RerootKeys(session: string, next: nat)
    | RerootRecord(session: string)
    | PruneCache
    | Teardown(session: string)
    | Wait(ms: nat)

  function Initial(generations: map<string, nat>, now: int): State {
    State(0, now, map u | u in generations :: Chain(generations[u], 0), generations, map[], {}, [], map[], [])
  }

  /** The key at the chain's current index, for number i. */
  function LiveKey(s: State, u: string, i: nat): MessageKey
    requires u in s.chains
  {
    MessageKey(ChainKey(u, s.chains[u].generation, s.chains[u].index), i)
  }

  /** Derives for number i; a key short of the open's own number goes to the cache. */
  function DeriveNext(cfg: Config, s: State, u: string, i: nat): State
    requires u in s.opens && u in s.chains
  {
    var o, key := s.opens[u], LiveKey(s, u, i);
    s.(opens := s.opens[u := o.(phase := Advancing(i, key), derived := s.step)],
       entries := if i < o.number then Adding(cfg.limit, s.entries, Cached(Slot(u, o.generation, i), key, s.now))
                  else s.entries)
  }

  function HandOut(s: State, u: string, key: MessageKey, fromCache: bool, derived: nat): State
    requires u in s.opens
  {
    var o := s.opens[u];
    s.(opens := s.opens - {u},
       handed := s.handed + [Handed(u, o.generation, o.number, key, fromCache, o.midway, o.began, derived)])
  }

  /** With the context read: a past number is looked for in the cache, one too far ahead is refused. */
  function Resolve(cfg: Config, s: State, u: string): State
    requires u in s.opens && u in s.chains
  {
    var o, index := s.opens[u], s.chains[u].index;
    if o.number < index then
      var slot := Slot(u, o.generation, o.number);
      var k := IndexOf(s.entries, slot);
      if k < |s.entries| then HandOut(s.(entries := Without(s.entries, slot)), u, s.entries[k].key, true, s.step)
      else s.(opens := s.opens - {u})
    else if o.number - index > cfg.maxSkip then s.(opens := s.opens - {u})
    else DeriveNext(cfg, s, u, index)
  }

  /** The next step of the session's open. */
  function Proceeded(cfg: Config, s: State, u: string): State
    requires u in s.opens && u in s.chains
  {
    var o, chain := s.opens[u], s.chains[u];
    match o.phase
    case Matched => Resolve(cfg, s, u)
    case Advancing(i, key) =>
      s.(chains := s.chains[u := Chain(chain.generation, chain.index + 1)],
         opens := s.opens[u := o.(phase := Advanced(i, key))])
    case Advanced(i, key) =>
      if i < o.number then DeriveNext(cfg, s, u, i + 1) else HandOut(s, u, key, false, o.derived)
  }

  function Act(cfg: Config, s: State, a: Action): State {
    match a
    case Begin(u, generation, number) =>
      if number < 0 || generation < 0 || u !in s.records || u in s.opens || generation != s.records[u] then s
      else s.(opens := s.opens[u := InFlight(generation, number, s.step, u in s.rerooting, s.step, Matched)])
    case Proceed(u) => if u !in s.opens || u !in s.chains then s else Proceeded(cfg, s, u)
    case RerootKeys(u, next) =>
      if u !in s.chains || u !in s.records || u in s.rerooting || next <= s.records[u] then s
      else s.(chains := s.chains[u := Chain(next, 0)], rerooting := s.rerooting[u := next],
              rerooted := s.rerooted + {(u, s.step)})
    case RerootRecord(u) =>
      if u !in s.rerooting then s
      else s.(records := s.records[u := s.rerooting[u]], rerooting := s.rerooting - {u})
    case PruneCache => s.(entries := Unexpired(cfg.ttlMs, s.entries, s.now))
    case Teardown(u) => s.(entries := OfOthers(s.entries, u))
    case Wait(ms) => s.(now := s.now + ms)
  }

  function Next(cfg: Config, s: State, a: Action): State {
    var s' := Act(cfg, s, a);
    s'.(step := s.step + 1)
  }

  function Runs(cfg: Config, generations: map<string, nat>, now: int, actions: seq<Action>): State {
    if actions == [] then Initial(generations, now)
    else Next(cfg, Runs(cfg, generations, now, actions[..|actions| - 1]), actions[|actions| - 1])
  }

  // ----- which keys are right -----------------------------------------------------------------------

  /** The session's keys were replaced at a step strictly between these. */
  ghost predicate RerootedBetween(rerooted: set<(string, nat)>, u: string, from: nat, upTo: nat) {
    exists t: nat :: from < t < upTo && (u, t) in rerooted
  }

  /** A re-root has landed inside this open, up to this step. */
  ghost predicate Disturbed(s: State, u: string, midway: bool, began: nat, upTo: nat) {
    midway || RerootedBetween(s.rerooted, u, began, upTo)
  }

  /** The record follows the key store, one re-root behind at most. */
  ghost predicate RecordsInv(s: State) {
    && s.chains.Keys == s.records.Keys && s.rerooting.Keys <= s.chains.Keys
    && (forall u :: u in s.chains ==>
          if u in s.rerooting then s.records[u] < s.chains[u].generation == s.rerooting[u]
          else s.records[u] == s.chains[u].generation)
    && (forall u, t :: (u, t) in s.rerooted ==> t < s.step)
  }

  /** While undisturbed, an open and the chain agree on the generation and on the number. */
  ghost predicate OpenInv(s: State, u: string, o: InFlight) {
    && u in s.chains && o.began < s.step && o.derived < s.step
    && (if Disturbed(s, u, o.midway, o.began, s.step) then o.generation < s.chains[u].generation
        else o.generation == s.chains[u].generation
             && (o.phase.Advancing? ==> s.chains[u].index == o.phase.i)
             && (o.phase.Advanced? ==> s.chains[u].index == o.phase.i + 1))
    && (o.phase.Advancing? || o.phase.Advanced? ==>
          && o.phase.i <= o.number && o.phase.key.number == o.phase.i
          && (o.phase.key == KeyFor(u, o.generation, o.phase.i) <==> !Disturbed(s, u, o.midway, o.began, o.derived)))
  }

  /** A cached key labelled with the chain's own generation is right; no label is from a later one. */
  ghost predicate EntryInv(chains: map<string, Chain>, e: Cached) {
    && e.slot.session in chains && e.slot.generation <= chains[e.slot.session].generation
    && (e.slot.generation == chains[e.slot.session].generation ==>
          e.key == KeyFor(e.slot.session, e.slot.generation, e.slot.number))
  }

  /** Derived keys are right exactly when undisturbed; so are cached ones at least then. */
  ghost predicate HandedInv(s: State, h: Handed) {
    && h.derived < s.step
    && (!Disturbed(s, h.session, h.midway, h.began, h.derived) ==> h.key == KeyFor(h.session, h.generation, h.number))
    && (!h.fromCache && Disturbed(s, h.session, h.midway, h.began, h.derived) ==>
          h.key != KeyFor(h.session, h.generation, h.number))
  }

  ghost predicate RightInv(s: State) {
    && RecordsInv(s)
    && (forall u :: u in s.opens ==> OpenInv(s, u, s.opens[u]))
    && (forall e :: e in s.entries ==> EntryInv(s.chains, e))
    && (forall h :: h in s.handed ==> HandedInv(s, h))
  }

  /** Time passes, and other sessions' keys may be replaced. */
  ghost predicate Later(s: State, s': State, u: string) {
    && s.step < s'.step
    && (u in s.chains ==> u in s'.chains && s'.chains[u] == s.chains[u])
    && s.rerooted <= s'.rerooted
    && (forall t :: (u, t) in s'.rerooted ==> (u, t) in s.rerooted)
  }

  lemma OpenOutlives(s: State, s': State, u: string, o: InFlight)
    requires RecordsInv(s) && OpenInv(s, u, o) && Later(s, s', u)
    ensures OpenInv(s', u, o)
  {
    assert Disturbed(s', u, o.midway, o.began, s'.step) <==> Disturbed(s, u, o.midway, o.began, s.step);
    assert Disturbed(s', u, o.midway, o.began, o.derived) <==> Disturbed(s, u, o.midway, o.began, o.derived);
  }

  /** What was said about a step that has passed stays true. */
  lemma HandedOutlives(s: State, s': State, h: Handed)
    requires HandedInv(s, h) && s.step < s'.step && s.rerooted <= s'.rerooted
    requires forall u, t :: (u, t) in s'.rerooted && (u, t) !in s.rerooted ==> t >= s.step
    ensures HandedInv(s', h)
  {
    assert Disturbed(s', h.session, h.midway, h.began, h.derived) <==> Disturbed(s, h.session, h.midway, h.began, h.derived);
  }

  /** The chains only move on. */
  ghost predicate ChainsForward(before: map<string, Chain>, after: map<string, Chain>) {
    forall u :: u in before ==> u in after && (after[u].generation == before[u].generation || after[u].generation > before[u].generation)
  }

  lemma EntryOutlives(before: map<string, Chain>, after: map<string, Chain>, e: Cached)
    requires EntryInv(before, e) && ChainsForward(before, after)
    ensures EntryInv(after, e)
  {
  }

  /** What a derivation leaves alone. */
  lemma DerivesAlone(cfg: Config, s: State, u: string, i: nat)
    requires u in s.opens && u in s.chains
    ensures var s' := DeriveNext(cfg, s, u, i);
            && s' == s.(entries := s'.entries, opens := s'.opens) && s'.opens.Keys == s.opens.Keys
            && (forall v :: v in s.opens && v != u ==> s'.opens[v] == s.opens[v])
  {
  }

  lemma ResolvesAlone(cfg: Config, s: State, u: string)
    requires u in s.opens && u in s.chains
    ensures var s' := Resolve(cfg, s, u);
            && s' == s.(entries := s'.entries, opens := s'.opens, handed := s'.handed) && s'.opens.Keys <= s.opens.Keys
            && (forall v :: v in s.opens && v != u ==> v in s'.opens && s'.opens[v] == s.opens[v])
  {
    DerivesAlone(cfg, s, u, s.chains[u].index);
  }

  /** A step of one session's open leaves everything about other sessions but the cache, and all re-roots. */
  lemma ProceedsAlone(cfg: Config, s: State, u: string)
    requires u in s.opens && u in s.chains
    ensures var s', chain := Proceeded(cfg, s, u), s.chains[u];
            && s'.step == s.step && s'.now == s.now
            && s'.records == s.records && s'.rerooting == s.rerooting && s'.rerooted == s.rerooted
            && s'.chains == s.chains[u := Chain(chain.generation,
                                                chain.index + if s.opens[u].phase.Advancing? then 1 else 0)]
            && s'.opens.Keys <= s.opens.Keys
            && (forall v :: v in s.opens && v != u ==> v in s'.opens && s'.opens[v] == s.opens[v])
  {
    match s.opens[u].phase
    case Matched => ResolvesAlone(cfg, s, u);
    case Advancing(i, key) =>
    case Advanced(i, key) => DerivesAlone(cfg, s, u, i + 1);
  }

  /** The parts of a state that re-roots and steps of opens change. */
  lemma RecordsOutlive(s: State, s': State)
    requires RecordsInv(s) && s'.step == s.step + 1 && s'.rerooted == s.rerooted
    requires s'.records == s.records && s'.rerooting == s.rerooting && s'.chains.Keys == s.chains.Keys
    requires forall u :: u in s.chains ==> s'.chains[u].generation == s.chains[u].generation
    ensures RecordsInv(s') && ChainsForward(s.chains, s'.chains)
  {
  }

  lemma RerootKeysKeepsRecords(cfg: Config, s: State, u: string, next: nat)
    requires RecordsInv(s)
    ensures RecordsInv(Next(cfg, s, RerootKeys(u, next)))
    ensures ChainsForward(s.chains, Next(cfg, s, RerootKeys(u, next)).chains)
  {
  }

  lemma RerootRecordKeepsRecords(cfg: Config, s: State, u: string)
    requires RecordsInv(s)
    ensures RecordsInv(Next(cfg, s, RerootRecord(u)))
    ensures ChainsForward(s.chains, Next(cfg, s, RerootRecord(u)).chains)
  {
  }

  lemma NextKeepsRecords(cfg: Config, s: State, a: Action)
    requires RecordsInv(s) && forall u :: u in s.opens ==> u in s.chains
    ensures RecordsInv(Next(cfg, s, a))
    ensures ChainsForward(s.chains, Next(cfg, s, a).chains)
  {
    match a
    case RerootKeys(u, next) => RerootKeysKeepsRecords(cfg, s, u, next);
    case RerootRecord(u) => RerootRecordKeepsRecords(cfg, s, u);
    case Proceed(u) =>
      if u in s.opens {
        ProceedsAlone(cfg, s, u);
      }
      RecordsOutlive(s, Next(cfg, s, a));
    case _ => RecordsOutlive(s, Next(cfg, s, a));
  }

  // ----- one step of an open keeps keys right -------------------------------------------------------

  /** A key has just been derived for the next number, from the live chain. */
  lemma DeriveKeepsOpen(cfg: Config, s: State, u: string, i: nat)
    requires RecordsInv(s) && u in s.opens && OpenInv(s, u, s.opens[u]) && i <= s.opens[u].number
    requires !Disturbed(s, u, s.opens[u].midway, s.opens[u].began, s.step) ==> s.chains[u].index == i
    ensures var s' := DeriveNext(cfg, s, u, i);
            OpenInv(s'.(step := s.step + 1), u, s'.opens[u])
  {
    var o, s' := s.opens[u], DeriveNext(cfg, s, u, i).(step := s.step + 1);
    var o' := s'.opens[u];
    assert Disturbed(s', u, o'.midway, o'.began, s'.step) <==> Disturbed(s, u, o.midway, o.began, s.step);
    assert Disturbed(s', u, o'.midway, o'.began, o'.derived) <==> Disturbed(s, u, o.midway, o.began, s.step);
  }

  lemma DeriveKeepsEntries(cfg: Config, s: State, u: string, i: nat)
    requires u in s.opens && OpenInv(s, u, s.opens[u])
    requires !Disturbed(s, u, s.opens[u].midway, s.opens[u].began, s.step) ==> s.chains[u].index == i
    requires forall e :: e in s.entries ==> EntryInv(s.chains, e)
    ensures forall e :: e in DeriveNext(cfg, s, u, i).entries ==> EntryInv(s.chains, e)
  {
    AddingEntries(cfg.limit, s.entries, Cached(Slot(u, s.opens[u].generation, i), LiveKey(s, u, i), s.now));
  }

  lemma WithoutEntries(entries: seq<Cached>, slot: Slot)
    ensures forall x :: x in Without(entries, slot) ==> x in entries
  {
  }

  lemma {:induction false} KeptEntries(ttlMs: int, entries: seq<Cached>, now: int, session: string)
    ensures forall x :: x in Unexpired(ttlMs, entries, now) ==> x in entries
    ensures forall x :: x in OfOthers(entries, session) ==> x in entries
  {
    if entries != [] {
      KeptEntries(ttlMs, entries[..|entries| - 1], now, session);
    }
  }

  /** What a step of an open hands out, if anything, and whether it is right. */
  lemma ProceedHandsRight(cfg: Config, s: State, u: string)
    requires RightInv(s) && u in s.opens
    ensures var s' := Proceeded(cfg, s, u);
            s'.handed == s.handed
            || (|s'.handed| == |s.handed| + 1 && s'.handed[..|s.handed|] == s.handed
                && HandedInv(s'.(step := s.step + 1), s'.handed[|s.handed|]))
  {
    var o, s' := s.opens[u], Proceeded(cfg, s, u);
    if o.phase.Matched? && o.number < s.chains[u].index {
      var slot := Slot(u, o.generation, o.number);
      var k := IndexOf(s.entries, slot);
      if k < |s.entries| {
        var h := s'.handed[|s.handed|];
        assert EntryInv(s.chains, s.entries[k]);
        assert Disturbed(s', u, h.midway, h.began, h.derived) <==> Disturbed(s, u, o.midway, o.began, s.step);
      }
    } else if o.phase.Advanced? && o.phase.i == o.number {
      var h := s'.handed[|s.handed|];
      assert Disturbed(s', u, h.midway, h.began, h.derived) <==> Disturbed(s, u, o.midway, o.began, o.derived);
    }
  }

  lemma ProceedKeepsOpen(cfg: Config, s: State, u: string)
    requires RightInv(s) && u in s.opens
    ensures var s' := Proceeded(cfg, s, u); u in s'.opens ==> OpenInv(s'.(step := s.step + 1), u, s'.opens[u])
  {
    var o, s' := s.opens[u], Proceeded(cfg, s, u).(step := s.step + 1);
    match o.phase
    case Matched =>
      if s.chains[u].index <= o.number {
        DeriveKeepsOpen(cfg, s, u, s.chains[u].index);
      }
    case Advancing(i, key) =>
      assert Disturbed(s', u, o.midway, o.began, s'.step) <==> Disturbed(s, u, o.midway, o.began, s.step);
      assert Disturbed(s', u, o.midway, o.began, o.derived) <==> Disturbed(s, u, o.midway, o.began, o.derived);
    case Advanced(i, key) =>
      if i < o.number {
        DeriveKeepsOpen(cfg, s, u, i + 1);
      }
  }

  lemma ResolveKeepsEntries(cfg: Config, s: State, u: string)
    requires u in s.opens && OpenInv(s, u, s.opens[u]) && s.opens[u].phase.Matched?
    requires forall e :: e in s.entries ==> EntryInv(s.chains, e)
    ensures forall e :: e in Resolve(cfg, s, u).entries ==> EntryInv(s.chains, e)
  {
    if s.opens[u].number < s.chains[u].index {
      WithoutEntries(s.entries, Slot(u, s.opens[u].generation, s.opens[u].number));
    } else {
      DeriveKeepsEntries(cfg, s, u, s.chains[u].index);
    }
  }

  lemma ProceedKeepsEntries(cfg: Config, s: State, u: string)
    requires u in s.opens && OpenInv(s, u, s.opens[u])
    requires forall e :: e in s.entries ==> EntryInv(s.chains, e)
    ensures forall e :: e in Proceeded(cfg, s, u).entries ==> EntryInv(s.chains, e)
  {
    if s.opens[u].phase.Matched? {
      ResolveKeepsEntries(cfg, s, u);
    } else if s.opens[u].phase.Advanced? && s.opens[u].phase.i < s.opens[u].number {
      DeriveKeepsEntries(cfg, s, u, s.opens[u].phase.i + 1);
    }
  }

  // ----- every step keeps keys right ----------------------------------------------------------------

  lemma NextKeepsEntries(cfg: Config, s: State, a: Action)
    requires RightInv(s)
    ensures forall e :: e in Next(cfg, s, a).entries ==> EntryInv(Next(cfg, s, a).chains, e)
  {
    var s' := Next(cfg, s, a);
    NextKeepsRecords(cfg, s, a);
    forall e | e in s'.entries
      ensures EntryInv(s'.chains, e)
    {
      match a
      case Proceed(u) =>
        if u in s.opens {
          ProceedKeepsEntries(cfg, s, u);
        }
      case PruneCache => KeptEntries(cfg.ttlMs, s.entries, s.now, "");
      case Teardown(u) => KeptEntries(cfg.ttlMs, s.entries, s.now, u);
      case _ =>
      EntryOutlives(s.chains, s'.chains, e);
    }
  }

  lemma NextKeepsHanded(cfg: Config, s: State, a: Action)
    requires RightInv(s)
    ensures forall h :: h in Next(cfg, s, a).handed ==> HandedInv(Next(cfg, s, a), h)
  {
    var s' := Next(cfg, s, a);
    if a.Proceed? && a.session in s.opens {
      ProceedsAlone(cfg, s, a.session);
      ProceedHandsRight(cfg, s, a.session);
    }
    forall h | h in s'.handed
      ensures HandedInv(s', h)
    {
      if h in s.handed {
        HandedOutlives(s, s', h);
      }
    }
  }

  /** A re-root landing on this open disturbs it. */
  lemma RerootDisturbs(cfg: Config, s: State, u: string, next: nat)
    requires RightInv(s) && u in s.opens && u !in s.rerooting && s.records[u] < next
    ensures OpenInv(Next(cfg, s, RerootKeys(u, next)), u, s.opens[u])
  {
    var o, s' := s.opens[u], Next(cfg, s, RerootKeys(u, next));
    assert (u, s.step) in s'.rerooted;
    assert RerootedBetween(s'.rerooted, u, o.began, s'.step);
    assert Disturbed(s', u, o.midway, o.began, o.derived) <==> Disturbed(s, u, o.midway, o.began, o.derived);
  }

  lemma BeginsRight(cfg: Config, s: State, u: string, generation: int, number: int)
    requires RightInv(s) && u !in s.opens && u in Next(cfg, s, Begin(u, generation, number)).opens
    ensures var s' := Next(cfg, s, Begin(u, generation, number)); OpenInv(s', u, s'.opens[u])
  {
    var s' := Next(cfg, s, Begin(u, generation, number));
    assert !RerootedBetween(s'.rerooted, u, s.step, s'.step);
  }

  /** An action on another session, or none on this one's open or keys, leaves both alone. */
  lemma NextLater(cfg: Config, s: State, a: Action, u: string)
    requires RecordsInv(s) && u in s.opens && a != Proceed(u) && (forall v :: v in s.opens ==> v in s.chains)
    requires !(a.RerootKeys? && a.session == u && u !in s.rerooting && s.records[u] < a.next)
    ensures var s' := Next(cfg, s, a); Later(s, s', u) && u in s'.opens && s'.opens[u] == s.opens[u]
  {
    if a.Proceed? && a.session in s.opens {
      ProceedsAlone(cfg, s, a.session);
    }
  }

  /** Only a beginning adds an open. */
  lemma OnlyBeginOpens(cfg: Config, s: State, a: Action, u: string)
    requires u !in s.opens && u in Next(cfg, s, a).opens
    ensures a.Begin? && a.session == u
  {
    if a.Proceed? && a.session in s.opens && a.session in s.chains {
      ProceedsAlone(cfg, s, a.session);
    }
  }

  lemma NextKeepsOpens(cfg: Config, s: State, a: Action, u: string)
    requires RightInv(s) && u in Next(cfg, s, a).opens
    ensures OpenInv(Next(cfg, s, a), u, Next(cfg, s, a).opens[u])
  {
    if a == Proceed(u) && u in s.opens {
      ProceedKeepsOpen(cfg, s, u);
    } else if u !in s.opens {
      OnlyBeginOpens(cfg, s, a, u);
      BeginsRight(cfg, s, u, a.generation, a.number);
    } else if a.RerootKeys? && a.session == u && u !in s.rerooting && s.records[u] < a.next {
      RerootDisturbs(cfg, s, u, a.next);
    } else {
      NextLater(cfg, s, a, u);
      OpenOutlives(s, Next(cfg, s, a), u, s.opens[u]);
    }
  }

  lemma NextKeepsRight(cfg: Config, s: State, a: Action)
    requires RightInv(s)
    ensures RightInv(Next(cfg, s, a))
  {
    NextKeepsRecords(cfg, s, a);
    NextKeepsEntries(cfg, s, a);
    NextKeepsHanded(cfg, s, a);
    forall u | u in Next(cfg, s, a).opens
      ensures OpenInv(Next(cfg, s, a), u, Next(cfg, s, a).opens[u])
    {
      NextKeepsOpens(cfg, s, a, u);
    }
  }

  lemma {:induction false} RunsKeepRight(cfg: Config, generations: map<string, nat>, now: int, actions: seq<Action>)
    ensures RightInv(Runs(cfg, generations, now, actions))
  {
    if actions != [] {
      RunsKeepRight(cfg, generations, now, actions[..|actions| - 1]);
      NextKeepsRight(cfg, Runs(cfg, generations, now, actions[..|actions| - 1]), actions[|actions| - 1]);
    }
  }

  /** No re-root landed inside the open that was given this key, before the key was derived or taken. */
  ghost predicate Undisturbed(s: State, h: Handed) {
    !h.midway && !RerootedBetween(s.rerooted, h.session, h.began, h.derived)
  }

  /**
   * In every interleaving of opens, re-roots, prunes and teardowns, a key derived from the live chain is the key
   * of its own message exactly when no re-root landed inside the open: none was between its two steps as the
   * open began, and none replaced the keys before the derivation.
   */
  lemma DerivedKeyIsRightExactlyWhen(cfg: Config, generations: map<string, nat>, now: int, actions: seq<Action>, k: nat)
    requires k < |Runs(cfg, generations, now, actions).handed|
    requires !Runs(cfg, generations, now, actions).handed[k].fromCache
    ensures var s := Runs(cfg, generations, now, actions);
            var h := s.handed[k];
            h.key == KeyFor(h.session, h.generation, h.number) <==> Undisturbed(s, h)
  {
    RunsKeepRight(cfg, generations, now, actions);
    var s := Runs(cfg, generations, now, actions);
    assert HandedInv(s, s.handed[k]);
  }

  /** Every undisturbed open is given the key of its own message, from the chain or from the cache. */
  lemma UndisturbedKeysAreRight(cfg: Config, generations: map<string, nat>, now: int, actions: seq<Action>, h: Handed)
    requires h in Runs(cfg, generations, now, actions).handed && Undisturbed(Runs(cfg, generations, now, actions), h)
    ensures h.key == KeyFor(h.session, h.generation, h.number)
  {
    RunsKeepRight(cfg, generations, now, actions);
    assert HandedInv(Runs(cfg, generations, now, actions), h);
  }

  // ----- no key is handed out twice -----------------------------------------------------------------

  /** The chain has advanced past this chain key, or is about to. */
  predicate Spent(s: State, ck: ChainKey) {
    && ck.session in s.chains
    && (|| ck.generation < s.chains[ck.session].generation
        || (ck.generation == s.chains[ck.session].generation && ck.index < s.chains[ck.session].index)
        || (ck == LiveKey(s, ck.session, 0).chainKey
            && ck.session in s.opens && s.opens[ck.session].phase.Advancing?))
  }

  /** The open holds its own key, not yet handed out. */
  predicate Holds(o: InFlight) {
    !o.phase.Matched? && o.phase.i == o.number
  }

  predicate IsCached(entries: seq<Cached>, ck: ChainKey) {
    exists i :: 0 <= i < |entries| && entries[i].key.chainKey == ck
  }

  predicate IsHanded(handed: seq<Handed>, ck: ChainKey) {
    exists i :: 0 <= i < |handed| && handed[i].key.chainKey == ck
  }

  ghost predicate CachedApart(entries: seq<Cached>) {
    forall i, j :: 0 <= i < j < |entries| ==> entries[i].key.chainKey != entries[j].key.chainKey
  }

  ghost predicate HandedApart(handed: seq<Handed>) {
    forall i, j :: 0 <= i < j < |handed| ==> handed[i].key.chainKey != handed[j].key.chainKey
  }

  ghost predicate HeldInv(s: State, u: string, o: InFlight) {
    !o.phase.Matched? ==>
      && o.phase.key.chainKey.session == u && Spent(s, o.phase.key.chainKey)
      && (Holds(o) ==> !IsCached(s.entries, o.phase.key.chainKey) && !IsHanded(s.handed, o.phase.key.chainKey))
  }

  /** Every key that was derived and not destroyed is spent, and is in one place only. */
  ghost predicate ApartInv(s: State) {
    && CachedApart(s.entries) && HandedApart(s.handed)
    && (forall ck: ChainKey :: IsCached(s.entries, ck) ==> Spent(s, ck) && !IsHanded(s.handed, ck))
    && (forall ck: ChainKey :: IsHanded(s.handed, ck) ==> Spent(s, ck))
    && (forall u :: u in s.opens ==> HeldInv(s, u, s.opens[u]))
  }

  /** What was spent stays spent. */
  ghost predicate StaysSpent(s: State, s': State) {
    forall ck: ChainKey :: Spent(s, ck) ==> Spent(s', ck)
  }

  lemma NextStaysSpent(cfg: Config, s: State, a: Action)
    requires RecordsInv(s)
    ensures StaysSpent(s, Next(cfg, s, a))
  {
    if a.Proceed? && a.session in s.opens && a.session in s.chains {
      ProceedsAlone(cfg, s, a.session);
    }
  }

  /** Some of the entries, in order. */
  ghost predicate Fewer(entries: seq<Cached>, entries': seq<Cached>) {
    && (CachedApart(entries) ==> CachedApart(entries'))
    && (forall ck: ChainKey :: IsCached(entries', ck) ==> IsCached(entries, ck))
    && |entries'| <= |entries|
  }

  /** Removing the k-th entry. */
  lemma RemovingFewer(entries: seq<Cached>, k: nat)
    requires k < |entries|
    ensures Fewer(entries, entries[..k] + entries[k + 1..])
    ensures CachedApart(entries) ==> !IsCached(entries[..k] + entries[k + 1..], entries[k].key.chainKey)
  {
    var rest := entries[..k] + entries[k + 1..];
    forall i | 0 <= i < |rest|
      ensures rest[i] == entries[if i < k then i else i + 1]
    {
    }
    forall ck: ChainKey | IsCached(rest, ck)
      ensures IsCached(entries, ck)
    {
      var i :| 0 <= i < |rest| && rest[i].key.chainKey == ck;
      assert rest[i] == entries[if i < k then i else i + 1];
    }
  }

  lemma FewerSnoc(front: seq<Cached>, kept: seq<Cached>, last: Cached)
    requires Fewer(front, kept)
    ensures Fewer(front + [last], kept) && Fewer(front + [last], kept + [last])
  {
    var all, some := front + [last], kept + [last];
    assert forall i :: 0 <= i < |front| ==> all[i] == front[i];
    assert forall i :: 0 <= i < |kept| ==> IsCached(kept, some[i].key.chainKey);
    forall ck: ChainKey | IsCached(front, ck) || ck == last.key.chainKey
      ensures IsCached(all, ck)
    {
      if IsCached(front, ck) {
        var i :| 0 <= i < |front| && front[i].key.chainKey == ck;
        assert all[i].key.chainKey == ck;
      } else {
        assert all[|front|] == last;
      }
    }
    if CachedApart(all) {
      assert CachedApart(front);
      assert !IsCached(front, last.key.chainKey) by {
        assert all[|front|] == last;
      }
    }
  }

  lemma {:induction false} KeptFewer(ttlMs: int, entries: seq<Cached>, now: int, session: string)
    ensures Fewer(entries, Unexpired(ttlMs, entries, now))
    ensures Fewer(entries, OfOthers(entries, session))
  {
    if entries != [] {
      var front, last := entries[..|entries| - 1], entries[|entries| - 1];
      KeptFewer(ttlMs, front, now, session);
      assert entries == front + [last];
      FewerSnoc(front, Unexpired(ttlMs, front, now), last);
      FewerSnoc(front, OfOthers(front, session), last);
    }
  }

  /** An open that goes on holding what it held. */
  predicate HoldsSame(o: InFlight, o': InFlight) {
    o'.phase.Matched? || (!o.phase.Matched? && o'.number == o.number && o'.phase.i == o.phase.i
                          && o'.phase.key == o.phase.key)
  }

  /** A step that derives nothing and hands out nothing. */
  lemma QuietKeepsApart(s: State, s': State)
    requires ApartInv(s) && StaysSpent(s, s') && Fewer(s.entries, s'.entries) && s'.handed == s.handed
    requires forall u :: u in s'.opens ==> s'.opens[u].phase.Matched? || (u in s.opens && HoldsSame(s.opens[u], s'.opens[u]))
    ensures ApartInv(s')
  {
  }

  lemma LiveKeyIsNew(s: State, u: string, i: nat)
    requires u in s.chains && ApartInv(s) && u in s.opens && !s.opens[u].phase.Advancing?
    ensures var ck := LiveKey(s, u, i).chainKey;
            !IsCached(s.entries, ck) && !IsHanded(s.handed, ck)
            && (forall v :: v in s.opens && !s.opens[v].phase.Matched? ==> s.opens[v].phase.key.chainKey != ck)
  {
    assert !Spent(s, LiveKey(s, u, i).chainKey);
  }

  /** Adding an entry with a new key. */
  lemma AddingApart(limit: nat, entries: seq<Cached>, e: Cached)
    requires CachedApart(entries) && !IsCached(entries, e.key.chainKey)
    ensures CachedApart(Adding(limit, entries, e))
    ensures forall ck: ChainKey :: IsCached(Adding(limit, entries, e), ck) ==> ck == e.key.chainKey || IsCached(entries, ck)
  {
    var k, all, kept := IndexOf(entries, e.slot), With(entries, e), Adding(limit, entries, e);
    forall i | 0 <= i < |entries| && i != k
      ensures all[i] == entries[i] && all[i].key.chainKey != e.key.chainKey
    {
    }
    assert all[k] == e && CachedApart(all);
    forall i | 0 <= i < |kept|
      ensures kept[i].key.chainKey == e.key.chainKey || IsCached(entries, kept[i].key.chainKey)
    {
      var j := if |all| > limit then i + 1 else i;
      assert kept[i] == all[j] && (j != k ==> all[j] == entries[j]);
    }
  }

  lemma DeriveKeepsApart(cfg: Config, s: State, u: string, i: nat)
    requires u in s.chains && ApartInv(s) && u in s.opens && !s.opens[u].phase.Advancing? && i <= s.opens[u].number
    ensures ApartInv(DeriveNext(cfg, s, u, i))
  {
    var o, s' := s.opens[u], DeriveNext(cfg, s, u, i);
    LiveKeyIsNew(s, u, i);
    AddingApart(cfg.limit, s.entries, Cached(Slot(u, o.generation, i), LiveKey(s, u, i), s.now));
    assert StaysSpent(s, s');
    assert Spent(s', LiveKey(s, u, i).chainKey);
  }

  lemma HandedSnoc(handed: seq<Handed>, h: Handed)
    requires HandedApart(handed) && !IsHanded(handed, h.key.chainKey)
    ensures HandedApart(handed + [h])
    ensures forall ck: ChainKey :: IsHanded(handed + [h], ck) ==> ck == h.key.chainKey || IsHanded(handed, ck)
  {
    var all := handed + [h];
    assert forall i :: 0 <= i < |handed| ==> all[i] == handed[i] && IsHanded(handed, all[i].key.chainKey);
  }

  /** A key leaves its place and is handed out. */
  lemma HandOutKeepsApart(s: State, u: string, key: MessageKey, fromCache: bool, derived: nat)
    requires ApartInv(s) && u in s.opens && !s.opens[u].phase.Advancing?
    requires Spent(s, key.chainKey) && !IsCached(s.entries, key.chainKey) && !IsHanded(s.handed, key.chainKey)
    requires forall v :: v in s.opens && v != u && Holds(s.opens[v]) ==> s.opens[v].phase.key.chainKey != key.chainKey
    ensures ApartInv(HandOut(s, u, key, fromCache, derived))
  {
    var s' := HandOut(s, u, key, fromCache, derived);
    assert StaysSpent(s, s');
    HandedSnoc(s.handed, s'.handed[|s.handed|]);
  }

  lemma TakeKeepsApart(s: State, u: string, slot: Slot)
    requires ApartInv(s) && u in s.opens && s.opens[u].phase.Matched? && IndexOf(s.entries, slot) < |s.entries|
    ensures ApartInv(HandOut(s.(entries := Without(s.entries, slot)), u, s.entries[IndexOf(s.entries, slot)].key, true,
                             s.step))
  {
    var k, rest := IndexOf(s.entries, slot), s.(entries := Without(s.entries, slot));
    var key := s.entries[k].key;
    RemovingFewer(s.entries, k);
    assert StaysSpent(s, rest);
    QuietKeepsApart(s, rest);
    assert IsCached(s.entries, key.chainKey);
    HandOutKeepsApart(rest, u, key, true, s.step);
  }

  lemma ResolveKeepsApart(cfg: Config, s: State, u: string)
    requires ApartInv(s) && u in s.opens && u in s.chains && s.opens[u].phase.Matched?
    ensures ApartInv(Resolve(cfg, s, u))
  {
    var o, s' := s.opens[u], Resolve(cfg, s, u);
    var slot := Slot(u, o.generation, o.number);
    if s.chains[u].index <= o.number <= s.chains[u].index + cfg.maxSkip {
      DeriveKeepsApart(cfg, s, u, s.chains[u].index);
    } else if o.number < s.chains[u].index && IndexOf(s.entries, slot) < |s.entries| {
      TakeKeepsApart(s, u, slot);
    } else {
      assert s' == s.(opens := s.opens - {u});
      assert StaysSpent(s, s');
      QuietKeepsApart(s, s');
    }
  }

  lemma AdvanceKeepsApart(cfg: Config, s: State, u: string)
    requires ApartInv(s) && u in s.opens && u in s.chains && s.opens[u].phase.Advancing?
    ensures ApartInv(Proceeded(cfg, s, u))
  {
    var s' := Proceeded(cfg, s, u);
    assert StaysSpent(s, s');
    QuietKeepsApart(s, s');
  }

  lemma FinishKeepsApart(s: State, u: string)
    requires ApartInv(s) && u in s.opens && s.opens[u].phase.Advanced? && Holds(s.opens[u])
    ensures ApartInv(HandOut(s, u, s.opens[u].phase.key, false, s.opens[u].derived))
  {
    var key := s.opens[u].phase.key;
    assert HeldInv(s, u, s.opens[u]);
    forall v | v in s.opens && v != u && Holds(s.opens[v])
      ensures s.opens[v].phase.key.chainKey != key.chainKey
    {
      assert HeldInv(s, v, s.opens[v]);
    }
    HandOutKeepsApart(s, u, key, false, s.opens[u].derived);
  }

  /** The same state by another name. */
  lemma SameApart(s: State, s': State)
    requires s == s' && ApartInv(s)
    ensures ApartInv(s')
  {
  }

  lemma DeriveAgainKeepsApart(cfg: Config, s: State, u: string)
    requires ApartInv(s) && u in s.opens && u in s.chains && s.opens[u].phase.Advanced?
    requires s.opens[u].phase.i < s.opens[u].number
    ensures ApartInv(Proceeded(cfg, s, u))
  {
    DeriveKeepsApart(cfg, s, u, s.opens[u].phase.i + 1);
    SameApart(DeriveNext(cfg, s, u, s.opens[u].phase.i + 1), Proceeded(cfg, s, u));
  }

  lemma EndKeepsApart(cfg: Config, s: State, u: string)
    requires ApartInv(s) && u in s.opens && u in s.chains && s.opens[u].phase.Advanced? && Holds(s.opens[u])
    ensures ApartInv(Proceeded(cfg, s, u))
  {
    FinishKeepsApart(s, u);
    SameApart(HandOut(s, u, s.opens[u].phase.key, false, s.opens[u].derived), Proceeded(cfg, s, u));
  }

  lemma ProceedKeepsApart(cfg: Config, s: State, u: string)
    requires ApartInv(s) && u in s.opens && u in s.chains
    requires s.opens[u].phase.Matched? || s.opens[u].phase.i <= s.opens[u].number
    ensures ApartInv(Proceeded(cfg, s, u))
  {
    if s.opens[u].phase.Matched? {
      ResolveKeepsApart(cfg, s, u);
      SameApart(Resolve(cfg, s, u), Proceeded(cfg, s, u));
    } else if s.opens[u].phase.Advancing? {
      AdvanceKeepsApart(cfg, s, u);
    } else if s.opens[u].phase.i < s.opens[u].number {
      DeriveAgainKeepsApart(cfg, s, u);
    } else {
      EndKeepsApart(cfg, s, u);
    }
  }

  /** Time passing. */
  lemma TimeKeepsApart(s: State, s': State)
    requires ApartInv(s) && s' == s.(step := s'.step)
    ensures ApartInv(s')
  {
  }

  /** Any action but a step of an open derives nothing and hands out nothing. */
  lemma OthersAreQuiet(cfg: Config, s: State, a: Action)
    requires !(a.Proceed? && a.session in s.opens)
    ensures var s' := Next(cfg, s, a);
            && Fewer(s.entries, s'.entries) && s'.handed == s.handed
            && (forall u :: u in s'.opens ==> s'.opens[u].phase.Matched? || (u in s.opens && HoldsSame(s.opens[u], s'.opens[u])))
  {
    match a
    case PruneCache => KeptFewer(cfg.ttlMs, s.entries, s.now, "");
    case Teardown(u) => KeptFewer(cfg.ttlMs, s.entries, s.now, u);
    case _ =>
  }

  lemma NextKeepsApart(cfg: Config, s: State, a: Action)
    requires RecordsInv(s) && ApartInv(s)
    requires a.Proceed? && a.session in s.opens ==>
      && a.session in s.chains
      && (s.opens[a.session].phase.Matched? || s.opens[a.session].phase.i <= s.opens[a.session].number)
    ensures ApartInv(Next(cfg, s, a))
  {
    if a.Proceed? && a.session in s.opens {
      ProceedKeepsApart(cfg, s, a.session);
      TimeKeepsApart(Proceeded(cfg, s, a.session), Next(cfg, s, a));
    } else {
      NextStaysSpent(cfg, s, a);
      OthersAreQuiet(cfg, s, a);
      QuietKeepsApart(s, Next(cfg, s, a));
    }
  }

  lemma OpensWithinNumber(s: State)
    requires RightInv(s)
    ensures RecordsInv(s)
    ensures forall u :: u in s.opens ==> u in s.chains && (s.opens[u].phase.Matched? || s.opens[u].phase.i <= s.opens[u].number)
  {
    forall u | u in s.opens
      ensures u in s.chains && (s.opens[u].phase.Matched? || s.opens[u].phase.i <= s.opens[u].number)
    {
      assert OpenInv(s, u, s.opens[u]);
    }
  }

  lemma {:induction false} RunsKeepApart(cfg: Config, generations: map<string, nat>, now: int, actions: seq<Action>)
    ensures ApartInv(Runs(cfg, generations, now, actions))
  {
    if actions != [] {
      RunsKeepRight(cfg, generations, now, actions[..|actions| - 1]);
      RunsKeepApart(cfg, generations, now, actions[..|actions| - 1]);
      OpensWithinNumber(Runs(cfg, generations, now, actions[..|actions| - 1]));
      NextKeepsApart(cfg, Runs(cfg, generations, now, actions[..|actions| - 1]), actions[|actions| - 1]);
    }
  }

  /**
   * In every interleaving, even when re-roots land inside opens, no chain key's message key is handed out twice,
   * and none that is handed out is still cached.
   */
  lemma NoKeyIsHandedOutTwice(cfg: Config, generations: map<string, nat>, now: int, actions: seq<Action>)
    ensures var s := Runs(cfg, generations, now, actions);
            && (forall i, j :: 0 <= i < j < |s.handed| ==> s.handed[i].key.chainKey != s.handed[j].key.chainKey)
            && (forall h, e :: h in s.handed && e in s.entries ==> h.key.chainKey != e.key.chainKey)
  {
    RunsKeepApart(cfg, generations, now, actions);
    var s := Runs(cfg, generations, now, actions);
    forall h, e | h in s.handed && e in s.entries
      ensures h.key.chainKey != e.key.chainKey
    {
      assert IsHanded(s.handed, h.key.chainKey) && IsCached(s.entries, e.key.chainKey);
    }
  }

  // ----- which messages lose their key --------------------------------------------------------------

  /** The message that this action derives a key for, by the open's own label. */
  function DerivedFor(cfg: Config, s: State, a: Action): set<Slot> {
    var s' := Next(cfg, s, a);
    if a.Proceed? && a.session in s.opens && !s.opens[a.session].phase.Advancing?
       && a.session in s'.opens && s'.opens[a.session].phase.Advancing?
    then {Slot(a.session, s'.opens[a.session].generation, s'.opens[a.session].phase.i)} else {}
  }

  /** The number of the current generation that this action, of an open of an older one, moves the chain past. */
  function LostTo(s: State, a: Action): set<Slot> {
    if a.Proceed? && a.session in s.opens && a.session in s.chains && s.opens[a.session].phase.Advancing?
       && s.opens[a.session].generation != s.chains[a.session].generation
    then {Slot(a.session, s.chains[a.session].generation, s.chains[a.session].index)} else {}
  }

  /** All messages a key was ever derived for. */
  function AllDerived(cfg: Config, generations: map<string, nat>, now: int, actions: seq<Action>): set<Slot> {
    if actions == [] then {}
    else
      var front := actions[..|actions| - 1];
      AllDerived(cfg, generations, now, front) + DerivedFor(cfg, Runs(cfg, generations, now, front), actions[|actions| - 1])
  }

  /** All numbers that an open of an older generation moved the chain past. */
  function AllLost(cfg: Config, generations: map<string, nat>, now: int, actions: seq<Action>): set<Slot> {
    if actions == [] then {}
    else
      var front := actions[..|actions| - 1];
      AllLost(cfg, generations, now, front) + LostTo(Runs(cfg, generations, now, front), actions[|actions| - 1])
  }

  /** The number an undisturbed open has derived for and the chain is about to pass. */
  predicate AtFront(s: State, slot: Slot) {
    && slot.session in s.opens && slot.session in s.chains && s.opens[slot.session].phase.Advancing?
    && s.opens[slot.session].generation == s.chains[slot.session].generation == slot.generation
    && slot.number == s.chains[slot.session].index
  }

  /** Of the numbers the current chains have passed, each was derived for or lost, and not both. */
  ghost predicate LossInv(s: State, derived: set<Slot>, lost: set<Slot>) {
    && (forall slot :: slot in derived ==> slot.session in s.chains && (Past(s.chains, slot) || AtFront(s, slot)))
    && (forall slot :: slot in lost ==> slot.session in s.chains && Past(s.chains, slot))
    && (forall slot: Slot :: Past(s.chains, slot) && slot.generation == s.chains[slot.session].generation ==>
          (slot in derived <==> slot !in lost))
    && (forall slot: Slot :: AtFront(s, slot) ==> slot in derived)
  }

  /** Deriving adds the front, or a slot of an older generation. */
  lemma DerivingKeepsLoss(cfg: Config, s: State, u: string, derived: set<Slot>, lost: set<Slot>)
    requires RightInv(s) && LossInv(s, derived, lost) && u in s.opens && !s.opens[u].phase.Advancing?
    requires var s' := Next(cfg, s, Proceed(u)); u in s'.opens && s'.opens[u].phase.Advancing?
    ensures var s' := Next(cfg, s, Proceed(u)); LossInv(s', derived + DerivedFor(cfg, s, Proceed(u)), lost)
  {
    var s' := Next(cfg, s, Proceed(u));
    var slot := Slot(u, s'.opens[u].generation, s'.opens[u].phase.i);
    NextKeepsOpens(cfg, s, Proceed(u), u);
    ProceedsAlone(cfg, s, u);
    assert s'.chains == s.chains by {
      assert s.chains[u := s.chains[u]] == s.chains;
    }
    assert OpenInv(s', u, s'.opens[u]);
    assert Past(s'.chains, slot) || AtFront(s', slot);
    forall other: Slot
      ensures AtFront(s', other) ==> other == slot || AtFront(s, other)
      ensures AtFront(s, other) ==> AtFront(s', other)
    {
      if other.session != u && other.session in s.opens {
        assert s'.opens[other.session] == s.opens[other.session];
      }
    }
  }

  /** Advancing passes the front, or loses a number of the new chain. */
  lemma AdvancingKeepsLoss(cfg: Config, s: State, u: string, derived: set<Slot>, lost: set<Slot>)
    requires RightInv(s) && LossInv(s, derived, lost) && u in s.opens && s.opens[u].phase.Advancing?
    ensures LossInv(Next(cfg, s, Proceed(u)), derived, lost + LostTo(s, Proceed(u)))
  {
    var s', g, n := Next(cfg, s, Proceed(u)), s.chains[u].generation, s.chains[u].index;
    var slot := Slot(u, g, n);
    assert OpenInv(s, u, s.opens[u]);
    ProceedsAlone(cfg, s, u);
    assert s'.chains == s.chains[u := Chain(g, n + 1)];
    assert !Past(s.chains, slot) && Past(s'.chains, slot);
    forall other: Slot
      ensures AtFront(s', other) ==> AtFront(s, other) && other.session != u
      ensures Past(s'.chains, other) <==> Past(s.chains, other) || other == slot
      ensures AtFront(s, other) ==> AtFront(s', other) || other == slot
    {
      if other.session != u && other.session in s.opens {
        assert s'.opens[other.session] == s.opens[other.session];
      }
    }
  }

  /** Anything else derives and loses nothing. */
  lemma OthersKeepLoss(s: State, s': State, derived: set<Slot>, lost: set<Slot>)
    requires LossInv(s, derived, lost) && s'.chains == s.chains
    requires forall slot: Slot :: AtFront(s', slot) <==> AtFront(s, slot)
    ensures LossInv(s', derived, lost)
  {
  }

  lemma RerootKeepsLoss(cfg: Config, s: State, u: string, next: nat, derived: set<Slot>, lost: set<Slot>)
    requires RightInv(s) && LossInv(s, derived, lost)
    requires u in s.chains && u !in s.rerooting && s.records[u] < next
    ensures LossInv(Next(cfg, s, RerootKeys(u, next)), derived, lost)
  {
    var s' := Next(cfg, s, RerootKeys(u, next));
    assert s.chains[u].generation == s.records[u];
    forall slot: Slot
      ensures Past(s.chains, slot) || AtFront(s, slot) ==> Past(s'.chains, slot) || (AtFront(s', slot) && slot.session != u)
      ensures Past(s'.chains, slot) && slot.session == u ==> slot.generation < next
      ensures slot.session != u ==> (AtFront(s', slot) <==> AtFront(s, slot))
      ensures AtFront(s', slot) ==> slot.session != u
    {
      if u in s.opens {
        assert OpenInv(s, u, s.opens[u]);
      }
    }
  }

  lemma FrontsStay(cfg: Config, s: State, a: Action, slot: Slot)
    requires !(a.RerootKeys? && a.session in s.chains && a.session in s.records && a.session !in s.rerooting
               && s.records[a.session] < a.next)
    requires a.Proceed? && a.session in s.opens && a.session in s.chains ==>
      && !s.opens[a.session].phase.Advancing?
      && (a.session in Next(cfg, s, a).opens ==> !Next(cfg, s, a).opens[a.session].phase.Advancing?)
    ensures Next(cfg, s, a).chains == s.chains
    ensures AtFront(Next(cfg, s, a), slot) <==> AtFront(s, slot)
  {
    if a.Proceed? && a.session in s.opens && a.session in s.chains {
      ProceedsAlone(cfg, s, a.session);
      assert s.chains[a.session := s.chains[a.session]] == s.chains;
    }
  }

  lemma NextKeepsLoss(cfg: Config, s: State, a: Action, derived: set<Slot>, lost: set<Slot>)
    requires RightInv(s) && LossInv(s, derived, lost)
    ensures LossInv(Next(cfg, s, a), derived + DerivedFor(cfg, s, a), lost + LostTo(s, a))
  {
    var s' := Next(cfg, s, a);
    if a.Proceed? && a.session in s.opens {
      assert OpenInv(s, a.session, s.opens[a.session]);
    }
    if a.Proceed? && a.session in s.opens && s.opens[a.session].phase.Advancing? {
      AdvancingKeepsLoss(cfg, s, a.session, derived, lost);
      assert derived + DerivedFor(cfg, s, a) == derived;
    } else if a.Proceed? && a.session in s.opens && a.session in s'.opens && s'.opens[a.session].phase.Advancing? {
      DerivingKeepsLoss(cfg, s, a.session, derived, lost);
      assert lost + LostTo(s, a) == lost;
    } else {
      assert derived + DerivedFor(cfg, s, a) == derived && lost + LostTo(s, a) == lost;
      if a.RerootKeys? && a.session in s.chains && a.session !in s.rerooting && s.records[a.session] < a.next {
        RerootKeepsLoss(cfg, s, a.session, a.next, derived, lost);
      } else {
        forall slot: Slot
          ensures AtFront(s', slot) <==> AtFront(s, slot)
        {
          FrontsStay(cfg, s, a, slot);
        }
        FrontsStay(cfg, s, a, Slot("", 0, 0));
        OthersKeepLoss(s, s', derived, lost);
      }
    }
  }

  lemma {:induction false} RunsKeepLoss(cfg: Config, generations: map<string, nat>, now: int, actions: seq<Action>)
    ensures LossInv(Runs(cfg, generations, now, actions), AllDerived(cfg, generations, now, actions),
                    AllLost(cfg, generations, now, actions))
  {
    if actions != [] {
      var front := actions[..|actions| - 1];
      RunsKeepLoss(cfg, generations, now, front);
      RunsKeepRight(cfg, generations, now, front);
      NextKeepsLoss(cfg, Runs(cfg, generations, now, front), actions[|actions| - 1],
                    AllDerived(cfg, generations, now, front), AllLost(cfg, generations, now, front));
    }
  }

  /** Whatever is cached, held or handed out was derived for its message. */
  ghost predicate LabelsInv(s: State, derived: set<Slot>) {
    && (forall i :: 0 <= i < |s.entries| ==> s.entries[i].slot in derived)
    && (forall i :: 0 <= i < |s.handed| ==> Slot(s.handed[i].session, s.handed[i].generation, s.handed[i].number) in derived)
    && (forall u :: u in s.opens && Holds(s.opens[u]) ==> Slot(u, s.opens[u].generation, s.opens[u].number) in derived)
  }

  /** Entries come from before, or are the one just derived. */
  lemma EntriesFrom(cfg: Config, s: State, a: Action, e: Cached)
    requires RecordsInv(s) && (forall u :: u in s.opens ==> u in s.chains) && e in Next(cfg, s, a).entries
    ensures e in s.entries || e.slot in DerivedFor(cfg, s, a)
  {
    match a
    case PruneCache => KeptEntries(cfg.ttlMs, s.entries, s.now, "");
    case Teardown(u) => KeptEntries(cfg.ttlMs, s.entries, s.now, u);
    case Proceed(u) =>
      if u in s.opens {
        var o := s.opens[u];
        if o.phase.Matched? && o.number < s.chains[u].index {
          WithoutEntries(s.entries, Slot(u, o.generation, o.number));
        } else if !o.phase.Advancing? {
          var i := if o.phase.Matched? then s.chains[u].index else o.phase.i + 1;
          AddingEntries(cfg.limit, s.entries, Cached(Slot(u, o.generation, i), LiveKey(s, u, i), s.now));
        }
      }
    case _ =>
  }

  /** What is handed out was held, or cached under the same label. */
  lemma HandedFrom(cfg: Config, s: State, u: string)
    requires u in s.opens && u in s.chains
    ensures var s', o := Next(cfg, s, Proceed(u)), s.opens[u];
            s'.handed == s.handed
            || (|s'.handed| == |s.handed| + 1 && s'.handed[..|s.handed|] == s.handed
                && s'.handed[|s.handed|].session == u && s'.handed[|s.handed|].generation == o.generation
                && s'.handed[|s.handed|].number == o.number
                && ((!o.phase.Matched? && o.number <= o.phase.i)
                    || exists i :: 0 <= i < |s.entries| && s.entries[i].slot == Slot(u, o.generation, o.number)))
  {
  }

  lemma HeldFrom(cfg: Config, s: State, a: Action, u: string)
    requires u in Next(cfg, s, a).opens && Holds(Next(cfg, s, a).opens[u])
    requires forall v :: v in s.opens ==> v in s.chains
    ensures var o := Next(cfg, s, a).opens[u];
            || (u in s.opens && Holds(s.opens[u]) && s.opens[u].generation == o.generation && s.opens[u].number == o.number)
            || Slot(u, o.generation, o.number) in DerivedFor(cfg, s, a)
  {
    if a.Proceed? && a.session in s.opens {
      ProceedsAlone(cfg, s, a.session);
    }
  }

  lemma NextKeepsLabels(cfg: Config, s: State, a: Action, derived: set<Slot>)
    requires RightInv(s) && LabelsInv(s, derived)
    ensures LabelsInv(Next(cfg, s, a), derived + DerivedFor(cfg, s, a))
  {
    var s' := Next(cfg, s, a);
    forall u | u in s.opens
      ensures u in s.chains && (s.opens[u].phase.Matched? || s.opens[u].phase.i <= s.opens[u].number)
    {
      assert OpenInv(s, u, s.opens[u]);
    }
    forall i | 0 <= i < |s'.entries|
      ensures s'.entries[i].slot in derived + DerivedFor(cfg, s, a)
    {
      EntriesFrom(cfg, s, a, s'.entries[i]);
    }
    forall u | u in s'.opens && Holds(s'.opens[u])
      ensures Slot(u, s'.opens[u].generation, s'.opens[u].number) in derived + DerivedFor(cfg, s, a)
    {
      HeldFrom(cfg, s, a, u);
    }
    if a.Proceed? && a.session in s.opens {
      HandedFrom(cfg, s, a.session);
    }
  }

  lemma {:induction false} RunsKeepLabels(cfg: Config, generations: map<string, nat>, now: int, actions: seq<Action>)
    ensures LabelsInv(Runs(cfg, generations, now, actions), AllDerived(cfg, generations, now, actions))
  {
    if actions != [] {
      var front := actions[..|actions| - 1];
      RunsKeepLabels(cfg, generations, now, front);
      RunsKeepRight(cfg, generations, now, front);
      NextKeepsLabels(cfg, Runs(cfg, generations, now, front), actions[|actions| - 1],
                      AllDerived(cfg, generations, now, front));
    }
  }

  /** A key for this message is cached, held by its open, or handed out. */
  ghost predicate HasKey(s: State, slot: Slot) {
    || (exists i :: 0 <= i < |s.entries| && s.entries[i].slot == slot)
    || (exists i :: 0 <= i < |s.handed| && Slot(s.handed[i].session, s.handed[i].generation, s.handed[i].number) == slot)
    || (slot.session in s.opens && Holds(s.opens[slot.session]) && s.opens[slot.session].generation == slot.generation
        && s.opens[slot.session].number == slot.number)
  }

  /**
   * In every interleaving, of the numbers that the current chain has passed, no key was ever derived for exactly
   * those that an open of an older generation moved the chain past. Such a message is refused though it was never
   * opened and no key of it was ever dropped.
   */
  lemma NumberLostExactlyWhen(cfg: Config, generations: map<string, nat>, now: int, actions: seq<Action>, slot: Slot)
    requires var s := Runs(cfg, generations, now, actions);
             Past(s.chains, slot) && slot.generation == s.chains[slot.session].generation
    ensures var s := Runs(cfg, generations, now, actions);
            var lost := slot in AllLost(cfg, generations, now, actions);
            && (lost <==> slot !in AllDerived(cfg, generations, now, actions))
            && (lost ==> !HasKey(s, slot)
                         && Opening(cfg, Ratchet(s.chains, s.entries), slot.session, slot.generation, slot.number)
                            == AlreadyConsumed)
  {
    RunsKeepLoss(cfg, generations, now, actions);
    RunsKeepLabels(cfg, generations, now, actions);
  }

  // ----- an open with nothing in between ------------------------------------------------------------

  /** One step of one session's open. */
  function Mover(cfg: Config, u: string): State -> State {
    (t: State) => Next(cfg, t, Proceed(u))
  }

  /** So many steps of it. */
  function Solo(cfg: Config, s: State, u: string, steps: nat): State {
    Iterate(Mover(cfg, u), s, steps)
  }

  /** An open ahead of the chain, with the chain's own generation, about to derive. */
  predicate Ahead(cfg: Config, s: State, u: string) {
    && u in s.opens && u in s.chains && s.opens[u].phase == Matched
    && s.opens[u].generation == s.chains[u].generation
    && s.chains[u].index <= s.opens[u].number <= s.chains[u].index + cfg.maxSkip
  }

  /** Nothing has changed but one session's open and chain, and the cache. */
  ghost predicate OnlyMoved(s: State, t: State, u: string, o: InFlight, index: nat)
    requires u in s.chains
  {
    && t.now == s.now && t.records == s.records && t.handed == s.handed
    && t.chains == s.chains[u := Chain(s.chains[u].generation, index)] && t.opens == s.opens[u := o]
  }

  /** The open is like the one in `s`, with this phase. */
  predicate Reached(s: State, u: string, o: InFlight, phase: Phase)
    requires u in s.opens
  {
    o == s.opens[u].(phase := phase, derived := o.derived)
  }

  /** `t` is `s` when its open has just derived for number j. */
  ghost predicate JustDerived(cfg: Config, s: State, t: State, u: string, j: nat) {
    Ahead(cfg, s, u) &&
    var o, g, from := s.opens[u], s.chains[u].generation, s.chains[u].index;
    && u in t.opens && Reached(s, u, t.opens[u], Advancing(j, KeyFor(u, g, j)))
    && OnlyMoved(s, t, u, t.opens[u], j)
    && t.entries == SkipTo(cfg.limit, s.entries, u, g, from, if j < o.number then j + 1 else j, s.now)
  }

  /** `t` is `s` when the chain has then moved past j. */
  ghost predicate JustAdvanced(cfg: Config, s: State, t: State, u: string, j: nat)
    requires Ahead(cfg, s, u)
  {
    var o, g, from := s.opens[u], s.chains[u].generation, s.chains[u].index;
    && u in t.opens && Reached(s, u, t.opens[u], Advanced(j, KeyFor(u, g, j)))
    && OnlyMoved(s, t, u, t.opens[u], j + 1)
    && t.entries == SkipTo(cfg.limit, s.entries, u, g, from, if j < o.number then j + 1 else j, s.now)
  }

  lemma FirstDerives(cfg: Config, s: State, u: string)
    requires Ahead(cfg, s, u)
    ensures JustDerived(cfg, s, Next(cfg, s, Proceed(u)), u, s.chains[u].index)
  {
    assert s.chains[u := s.chains[u]] == s.chains;
  }

  lemma ThenAdvances(cfg: Config, s: State, t: State, u: string, j: nat)
    requires Ahead(cfg, s, u) && JustDerived(cfg, s, t, u, j)
    ensures JustAdvanced(cfg, s, Next(cfg, t, Proceed(u)), u, j)
  {
    var t' := Next(cfg, t, Proceed(u));
    assert t'.chains == t.chains[u := Chain(s.chains[u].generation, j + 1)];
    assert t'.opens == t.opens[u := t'.opens[u]];
  }

  lemma ThenDerives(cfg: Config, s: State, t: State, u: string, j: nat)
    requires Ahead(cfg, s, u) && JustAdvanced(cfg, s, t, u, j) && s.chains[u].index <= j < s.opens[u].number
    ensures JustDerived(cfg, s, Next(cfg, t, Proceed(u)), u, j + 1)
  {
    var t' := Next(cfg, t, Proceed(u));
    assert t' == DeriveNext(cfg, t, u, j + 1).(step := t'.step);
    assert t'.opens == t.opens[u := t'.opens[u]];
  }

  lemma DerivesAgain(cfg: Config, s: State, t: State, u: string, j: nat)
    requires Ahead(cfg, s, u) && JustDerived(cfg, s, t, u, j) && s.chains[u].index <= j < s.opens[u].number
    ensures JustDerived(cfg, s, Mover(cfg, u)(Mover(cfg, u)(t)), u, j + 1)
  {
    ThenAdvances(cfg, s, t, u, j);
    ThenDerives(cfg, s, Next(cfg, t, Proceed(u)), u, j);
  }

  /** Two of these steps take the open from each derivation to the next. */
  ghost predicate Carries(cfg: Config, s: State, u: string, step: State -> State)
    requires Ahead(cfg, s, u)
  {
    forall j: nat, t: State :: s.chains[u].index <= j < s.opens[u].number && JustDerived(cfg, s, t, u, j) ==>
      JustDerived(cfg, s, step(step(t)), u, j + 1)
  }

  lemma MoverCarries(cfg: Config, s: State, u: string)
    requires Ahead(cfg, s, u)
    ensures Carries(cfg, s, u, Mover(cfg, u))
  {
    forall j: nat, t: State | s.chains[u].index <= j < s.opens[u].number && JustDerived(cfg, s, t, u, j)
      ensures JustDerived(cfg, s, Mover(cfg, u)(Mover(cfg, u)(t)), u, j + 1)
    {
      DerivesAgain(cfg, s, t, u, j);
    }
  }

  lemma CarriedToTheEnd(cfg: Config, s: State, first: State, u: string, step: State -> State)
    requires Ahead(cfg, s, u) && JustDerived(cfg, s, first, u, s.chains[u].index) && Carries(cfg, s, u, step)
    ensures JustDerived(cfg, s, Iterate(step, first, 2 * (s.opens[u].number - s.chains[u].index)), u, s.opens[u].number)
  {
    var derived := (j: nat, t: State) => JustDerived(cfg, s, t, u, j);
    IterateCarries(step, first, derived, s.chains[u].index, s.opens[u].number);
  }

  /** What the open hands out, and the chains and the cache after it. */
  ghost predicate Delivers(before: State, after: State, u: string, outcome: Outcome, r: Ratchet) {
    && after.chains == r.chains && after.entries == r.entries
    && after.opens == before.opens && after.records == before.records && after.now == before.now
    && (if outcome.Key?
        then |after.handed| == |before.handed| + 1 && after.handed[..|before.handed|] == before.handed
             && after.handed[|before.handed|].session == u && after.handed[|before.handed|].key == outcome.key
             && after.handed[|before.handed|].fromCache == outcome.fromCache
        else after.handed == before.handed)
  }

  lemma ThenHandsOut(cfg: Config, s: State, t: State, u: string)
    requires Ahead(cfg, s, u) && JustAdvanced(cfg, s, t, u, s.opens[u].number)
    ensures var t', o := Next(cfg, t, Proceed(u)), s.opens[u];
            var r := Ratchet(t.chains, t.entries);
            Delivers(s.(opens := s.opens - {u}), t', u, Key(KeyFor(u, o.generation, o.number), false), r)
  {
    var t' := Next(cfg, t, Proceed(u));
    assert t' == HandOut(t, u, t.opens[u].phase.key, false, t.opens[u].derived).(step := t'.step);
    assert t'.opens == s.opens - {u};
  }

  lemma EndsAfterDeriving(cfg: Config, s: State, t: State, u: string)
    requires Ahead(cfg, s, u) && JustDerived(cfg, s, t, u, s.opens[u].number)
    ensures var o := s.opens[u];
            Delivers(s.(opens := s.opens - {u}), Mover(cfg, u)(Mover(cfg, u)(t)), u,
                     Key(KeyFor(u, o.generation, o.number), false),
                     Opened(cfg, Ratchet(s.chains, s.entries), u, o.generation, o.number, s.now))
  {
    ThenAdvances(cfg, s, t, u, s.opens[u].number);
    ThenHandsOut(cfg, s, Next(cfg, t, Proceed(u)), u);
  }

  /** The whole open, from its first derivation. */
  lemma SoloEnds(cfg: Config, s: State, u: string) returns (steps: nat)
    requires Ahead(cfg, s, u)
    ensures var o := s.opens[u];
            Delivers(s.(opens := s.opens - {u}), Solo(cfg, s, u, steps), u,
                     Key(KeyFor(u, o.generation, o.number), false),
                     Opened(cfg, Ratchet(s.chains, s.entries), u, o.generation, o.number, s.now))
  {
    var n := 2 * (s.opens[u].number - s.chains[u].index);
    var t := LastDerived(cfg, s, u, n);
    EndsAfterDeriving(cfg, s, t, u);
    steps := n + 3;
  }

  lemma LastDerived(cfg: Config, s: State, u: string, n: nat) returns (t: State)
    requires Ahead(cfg, s, u) && n == 2 * (s.opens[u].number - s.chains[u].index)
    ensures JustDerived(cfg, s, t, u, s.opens[u].number)
    ensures Solo(cfg, s, u, n + 3) == Mover(cfg, u)(Mover(cfg, u)(t))
  {
    var step := Mover(cfg, u);
    FirstDerives(cfg, s, u);
    MoverCarries(cfg, s, u);
    CarriedToTheEnd(cfg, s, step(s), u, step);
    t := Iterate(step, step(s), n);
    IterateAround(step, s, n);
  }

  lemma BeginsMatched(cfg: Config, s: State, u: string, generation: nat, number: nat)
    requires u !in s.opens && u in s.records && s.records[u] == generation
    ensures Next(cfg, s, Begin(u, generation, number))
            == s.(step := s.step + 1,
                  opens := s.opens[u := InFlight(generation, number, s.step, u in s.rerooting, s.step, Matched)])
  {
  }

  /** Ahead of the chain, within the bound. */
  lemma SoloAhead(cfg: Config, s: State, begun: State, u: string, generation: nat, number: nat) returns (steps: nat)
    requires u in s.chains && u !in s.opens && s.chains[u].generation == generation
    requires s.chains[u].index <= number <= s.chains[u].index + cfg.maxSkip
    requires begun == s.(step := begun.step, opens := begun.opens) && u in begun.opens && begun.opens - {u} == s.opens
    requires begun.opens[u].phase == Matched
    requires begun.opens[u].generation == generation && begun.opens[u].number == number
    ensures var before := Ratchet(s.chains, s.entries);
            Delivers(s, Solo(cfg, begun, u, steps), u,
                     Opening(cfg, before, u, generation, number), Opened(cfg, before, u, generation, number, s.now))
  {
    steps := SoloEnds(cfg, begun, u);
  }

  /** Behind the chain, or too far ahead of it, one step decides. */
  lemma SoloElsewhere(cfg: Config, s: State, u: string, generation: nat, number: nat)
    requires u in s.chains && u !in s.opens && u in s.records && s.records[u] == s.chains[u].generation == generation
    requires !(s.chains[u].index <= number <= s.chains[u].index + cfg.maxSkip)
    ensures var before := Ratchet(s.chains, s.entries);
            Delivers(s, Next(cfg, Next(cfg, s, Begin(u, generation, number)), Proceed(u)), u,
                     Opening(cfg, before, u, generation, number), Opened(cfg, before, u, generation, number, s.now))
  {
    var begun := Next(cfg, s, Begin(u, generation, number));
    assert begun.opens - {u} == s.opens;
  }

  /**
   * An open that nothing interrupts, begun while no re-root is between its steps, ends, and does to the chains
   * and the cache what the one-step open does, and is given the same key or none.
   */
  lemma SoloOpenIsAtomic(cfg: Config, s: State, u: string, generation: int, number: int) returns (steps: nat)
    requires RecordsInv(s) && u !in s.opens && u !in s.rerooting
    ensures var before := Ratchet(s.chains, s.entries);
            Delivers(s, Solo(cfg, Next(cfg, s, Begin(u, generation, number)), u, steps), u,
                     Opening(cfg, before, u, generation, number), Opened(cfg, before, u, generation, number, s.now))
  {
    var begun := Next(cfg, s, Begin(u, generation, number));
    if number < 0 || generation < 0 || u !in s.chains || generation != s.chains[u].generation {
      return 0;
    }
    if s.chains[u].index <= number <= s.chains[u].index + cfg.maxSkip {
      BeginsMatched(cfg, s, u, generation, number);
      assert begun.opens - {u} == s.opens;
      steps := SoloAhead(cfg, s, begun, u, generation, number);
      return;
    }
    SoloElsewhere(cfg, s, u, generation, number);
    assert Solo(cfg, begun, u, 1) == Mover(cfg, u)(begun);
    return 1;
  }

  // ----- a re-root inside an open -------------------------------------------------------------------

  // ----- the other steps ----------------------------------------------------------------------------

  /** An open begins exactly for a well-formed number and the stored record's generation, with none in flight. */
  lemma BeginsExactlyWhen(cfg: Config, s: State, u: string, generation: int, number: int)
    requires u !in s.opens
    ensures var s' := Next(cfg, s, Begin(u, generation, number));
            && (u in s'.opens <==> u in s.records && generation == s.records[u] && 0 <= number && 0 <= generation)
            && (u in s'.opens ==> s'.opens[u].generation == generation && s'.opens[u].number == number
                                  && (s'.opens[u].midway <==> u in s.rerooting))
            && s'.chains == s.chains && s'.entries == s.entries && s'.handed == s.handed
  {
  }

  /**
   * A re-root to a later generation replaces the keys first and the record last; in between the record still
   * admits opens of the old generation. One to no later generation does nothing.
   */
  lemma RerootsInTwoSteps(cfg: Config, s: State, u: string, next: nat)
    requires RecordsInv(s) && u in s.chains && u !in s.rerooting
    ensures var s1 := Next(cfg, s, RerootKeys(u, next));
            var s2 := Next(cfg, s1, RerootRecord(u));
            if next <= s.records[u] then s1 == s.(step := s.step + 1) && s2 == s.(step := s.step + 2)
            else
              && s1.chains == s.chains[u := Chain(next, 0)] && s1.records == s.records
              && s2.chains == s1.chains && s2.records == s.records[u := next] && u !in s2.rerooting
              && (u, s.step) in s1.rerooted
  {
  }

  /** A prune leaves the keys cached less than the time to live ago, a teardown those of the other sessions. */
  lemma PrunesAndTeardowns(cfg: Config, s: State, u: string)
    ensures forall e :: e in Next(cfg, s, PruneCache).entries <==> e in s.entries && s.now - e.at < cfg.ttlMs
    ensures forall e :: e in Next(cfg, s, Teardown(u)).entries <==> e in s.entries && e.slot.session != u
  {
    UnexpiredEntries(cfg.ttlMs, s.entries, s.now);
    OfOthersEntries(s.entries, u);
  }

  /** How much time the waits of a run add up to. */
  function Waited(actions: seq<Action>): nat {
    if actions == [] then 0
    else
      var last := actions[|actions| - 1];
      Waited(actions[..|actions| - 1]) + if last.Wait? then last.ms else 0
  }

  lemma {:induction false} RunsClock(cfg: Config, generations: map<string, nat>, now: int, actions: seq<Action>)
    ensures var s := Runs(cfg, generations, now, actions); s.step == |actions| && s.now == now + Waited(actions)
  {
    if actions != [] {
      var front := actions[..|actions| - 1];
      RunsClock(cfg, generations, now, front);
      RunsKeepRight(cfg, generations, now, front);
      var s := Runs(cfg, generations, now, front);
      match actions[|actions| - 1]
      case Proceed(u) =>
        if u in s.opens {
          ProceedsAlone(cfg, s, u);
        }
      case _ =>
    }
  }

  lemma RunsAppend(cfg: Config, generations: map<string, nat>, now: int, actions: seq<Action>, a: Action)
    ensures Runs(cfg, generations, now, actions + [a]) == Next(cfg, Runs(cfg, generations, now, actions), a)
  {
    assert (actions + [a])[..|actions + [a]| - 1] == actions;
  }

  /** An open of message 0, with its context read as a re-root to generation 1 replaces the keys. */
  function Interrupting(u: string): seq<Action> {
    [] + [Begin(u, 0, 0)] + [RerootKeys(u, 1)]
  }

  /** The open goes on and ends, and so does the re-root. */
  function Interrupted(u: string): seq<Action> {
    Interrupting(u) + [Proceed(u)] + [Proceed(u)] + [Proceed(u)] + [RerootRecord(u)]
  }

  lemma InterruptingState(cfg: Config, u: string, now: int)
    ensures var s := Runs(cfg, map[u := 0], now, Interrupting(u));
            && s.step == 2 && s.chains == map[u := Chain(1, 0)] && s.rerooting == map[u := 1] && s.handed == []
            && s.opens == map[u := InFlight(0, 0, 0, false, 0, Matched)] && s.entries == []
            && s.records == map[u := 0]
  {
    RunsAppend(cfg, map[u := 0], now, [], Begin(u, 0, 0));
    RunsAppend(cfg, map[u := 0], now, [] + [Begin(u, 0, 0)], RerootKeys(u, 1));
  }

  /** An open of message 0 under way by itself, with the chain at its first key. */
  lemma FirstMessageAlone(cfg: Config, s: State, u: string)
    requires s.chains == map[u := Chain(1, 0)] && s.opens == map[u := InFlight(0, 0, 0, false, 0, Matched)]
    requires s.handed == []
    ensures var s1 := Next(cfg, s, Proceed(u));
            var s2 := Next(cfg, s1, Proceed(u));
            var s3 := Next(cfg, s2, Proceed(u));
            && s3.handed == [Handed(u, 0, 0, KeyFor(u, 1, 0), false, false, 0, s.step)]
            && s3.chains == map[u := Chain(1, 1)] && s3.entries == s.entries && s3.opens == map[]
  {
    var s1 := Next(cfg, s, Proceed(u));
    assert s1 == DeriveNext(cfg, s, u, 0).(step := s1.step);
    var s2 := Next(cfg, s1, Proceed(u));
    assert s2.chains == map[u := Chain(1, 1)];
  }

  /**
   * The open is given the first key of the new chain for message 0 of the old one, and afterwards message 0 of the
   * new generation finds the chain past it.
   */
  lemma InterruptedExample(cfg: Config, u: string, now: int)
    ensures var s := Runs(cfg, map[u := 0], now, Interrupted(u));
            && s.handed == [Handed(u, 0, 0, KeyFor(u, 1, 0), false, false, 0, 2)]
            && Opening(cfg, Ratchet(s.chains, s.entries), u, 1, 0) == AlreadyConsumed
  {
    var g, as2 := map[u := 0], Interrupting(u);
    InterruptingState(cfg, u, now);
    FirstMessageAlone(cfg, Runs(cfg, g, now, as2), u);
    RunsAppend(cfg, g, now, as2, Proceed(u));
    RunsAppend(cfg, g, now, as2 + [Proceed(u)], Proceed(u));
    RunsAppend(cfg, g, now, as2 + [Proceed(u)] + [Proceed(u)], Proceed(u));
    RunsAppend(cfg, g, now, as2 + [Proceed(u)] + [Proceed(u)] + [Proceed(u)], RerootRecord(u));
  }
}
