/**
 * Sealing messages step by step (server/message-keys/manager/messageKeyManager.js and
 * server/key-hierarchy/manager/chainManager.js), for one session.
 *
 * A seal reads the session's record, derives a key from the sending chain, waits for the seal function, and
 * advances the chain. A lock keeps two seals apart, but not a re-root, which first replaces the keys and later the
 * record.
 */
module OverlappingSeals {
  import opened Sequences
  import opened MessageKeyRatchet

  /** Where a seal is: its context read; its key derived; or the seal function done and the chain not advanced. */
  datatype Phase = Begun | Derived | Sealed

  /**
   * `began` and `derived` are the steps of its beginning and its derivation; `midway` says that it began between
   * the two steps of a re-root. `key` is what was derived.
   */
  datatype Seal = Seal(generation: nat, began: nat, midway: bool, derived: nat, key: MessageKey, phase: Phase)

  /** A successful seal: what it sealed with, and the chain key its advance moved past, at which step. */
  datatype Sent = Sent(generation: nat, key: MessageKey, midway: bool, began: nat, derived: nat, advanced: nat,
                       passed: ChainKey)

  /** `rerooted` holds the steps at which the keys were replaced; `rerooting` a re-root between its steps. */
  datatype State = State(session: string, step: nat, chain: Chain, record: nat, rerooting: Option<nat>,
                         rerooted: set<nat>, seal: Option<Seal>, sent: seq<Sent>)

  datatype Action = Begin | Derive | Succeed | Fail | Advance | RerootKeys(next: nat) | RerootRecord

  function Initial(session: string, generation: nat): State {
    State(session, 0, Chain(generation, 0), generation, None, {}, None, [])
  }

  function LiveKey(s: State): MessageKey {
    KeyFor(s.session, s.chain.generation, s.chain.index)
  }

  function Act(s: State, a: Action): State {
    match a
    case Begin =>
      if s.seal.Some? then s
      else s.(seal := Some(Seal(s.record, s.step, s.rerooting.Some?, s.step, LiveKey(s), Begun)))
    case Derive =>
      if s.seal == None || s.seal.value.phase != Begun then s
      else s.(seal := Some(s.seal.value.(key := LiveKey(s), derived := s.step, phase := Derived)))
    case Succeed =>
      if s.seal == None || s.seal.value.phase != Derived then s
      else s.(seal := Some(s.seal.value.(phase := Sealed)))
    case Fail => if s.seal == None || s.seal.value.phase != Derived then s else s.(seal := None)
    case Advance =>
      if s.seal == None || s.seal.value.phase != Sealed then s
      else
        var o := s.seal.value;
        s.(chain := Chain(s.chain.generation, s.chain.index + 1), seal := None,
           sent := s.sent + [Sent(o.generation, o.key, o.midway, o.began, o.derived, s.step, LiveKey(s).chainKey)])
    case RerootKeys(next) =>
      if s.rerooting.Some? || next <= s.record then s
      else s.(chain := Chain(next, 0), rerooting := Some(next), rerooted := s.rerooted + {s.step})
    case RerootRecord =>
      if s.rerooting == None then s else s.(record := s.rerooting.value, rerooting := None)
  }

  function Next(s: State, a: Action): State {
    var s' := Act(s, a);
    s'.(step := s.step + 1)
  }

  function Runs(session: string, generation: nat, actions: seq<Action>): State {
    if actions == [] then Initial(session, generation)
    else Next(Runs(session, generation, actions[..|actions| - 1]), actions[|actions| - 1])
  }

  // ----- which keys are right -----------------------------------------------------------------------

  /** The keys were replaced at a step strictly between these. */
  ghost predicate RerootedBetween(rerooted: set<nat>, from: nat, upTo: nat) {
    exists t :: t in rerooted && from < t < upTo
  }

  ghost predicate Disturbed(rerooted: set<nat>, midway: bool, began: nat, upTo: nat) {
    midway || RerootedBetween(rerooted, began, upTo)
  }

  ghost predicate RecordInv(s: State) {
    && (if s.rerooting.Some? then s.record < s.chain.generation == s.rerooting.value
        else s.record == s.chain.generation)
    && (forall t :: t in s.rerooted ==> t < s.step)
  }

  /** While undisturbed, a seal and the chain agree on the generation; and, once derived, on the key. */
  ghost predicate SealInv(s: State, o: Seal) {
    && o.began < s.step && o.derived < s.step
    && (if Disturbed(s.rerooted, o.midway, o.began, s.step) then o.generation < s.chain.generation
        else o.generation == s.chain.generation)
    && (o.phase != Begun ==>
          && o.key == KeyFor(s.session, o.key.chainKey.generation, o.key.number)
          && (Disturbed(s.rerooted, o.midway, o.began, o.derived) <==> o.key.chainKey.generation != o.generation)
          && (if RerootedBetween(s.rerooted, o.derived, s.step)
              then o.key.chainKey.generation < s.chain.generation
              else o.key == LiveKey(s)))
  }

  ghost predicate SentInv(s: State, h: Sent) {
    && h.derived < h.advanced < s.step
    && h.key == KeyFor(s.session, h.key.chainKey.generation, h.key.number)
    && (Disturbed(s.rerooted, h.midway, h.began, h.derived) <==> h.key.chainKey.generation != h.generation)
    && (RerootedBetween(s.rerooted, h.derived, h.advanced) <==> h.key.chainKey != h.passed)
    && (RerootedBetween(s.rerooted, h.derived, h.advanced) ==> h.key.chainKey.generation < s.chain.generation)
  }

  ghost predicate RightInv(s: State) {
    && RecordInv(s)
    && (s.seal.Some? ==> SealInv(s, s.seal.value))
    && (forall i :: 0 <= i < |s.sent| ==> SentInv(s, s.sent[i]))
  }

  /** Intervals that have passed are not disturbed any more. */
  lemma PastIsSettled(s: State, s': State, from: nat, upTo: nat)
    requires upTo <= s.step && s.rerooted <= s'.rerooted && s'.rerooted <= s.rerooted + {s.step}
    ensures RerootedBetween(s'.rerooted, from, upTo) <==> RerootedBetween(s.rerooted, from, upTo)
  {
  }

  /** One more step disturbs what is under way exactly if it replaces the keys. */
  lemma OneMoreStep(s: State, s': State, from: nat)
    requires RecordInv(s) && from < s.step && s'.step == s.step + 1
    requires s.rerooted <= s'.rerooted && s'.rerooted <= s.rerooted + {s.step}
    ensures RerootedBetween(s'.rerooted, from, s'.step)
            <==> RerootedBetween(s.rerooted, from, s.step) || s.step in s'.rerooted
  {
    if s.step in s'.rerooted {
      assert from < s.step < s'.step;
    }
  }

  lemma SentStays(s: State, a: Action, h: Sent)
    requires RightInv(s) && SentInv(s, h)
    ensures SentInv(Next(s, a), h)
  {
    var s' := Next(s, a);
    PastIsSettled(s, s', h.began, h.derived);
    PastIsSettled(s, s', h.derived, h.advanced);
  }

  lemma AdvanceSends(s: State)
    requires RightInv(s) && s.seal.Some? && s.seal.value.phase == Sealed
    ensures var s' := Next(s, Advance);
            |s'.sent| == |s.sent| + 1 && s'.sent[..|s.sent|] == s.sent && SentInv(s', s'.sent[|s.sent|])
  {
    var o := s.seal.value;
    PastIsSettled(s, Next(s, Advance), o.began, o.derived);
    PastIsSettled(s, Next(s, Advance), o.derived, s.step);
  }

  lemma NextKeepsSent(s: State, a: Action)
    requires RightInv(s)
    ensures forall i :: 0 <= i < |Next(s, a).sent| ==> SentInv(Next(s, a), Next(s, a).sent[i])
  {
    var s' := Next(s, a);
    if a.Advance? && s.seal.Some? && s.seal.value.phase == Sealed {
      AdvanceSends(s);
    }
    forall i | 0 <= i < |s'.sent|
      ensures SentInv(s', s'.sent[i])
    {
      if i < |s.sent| {
        assert s'.sent[i] == s.sent[i];
        SentStays(s, a, s.sent[i]);
      }
    }
  }

  lemma NextKeepsSeal(s: State, a: Action)
    requires RightInv(s) && Next(s, a).seal.Some?
    ensures SealInv(Next(s, a), Next(s, a).seal.value)
  {
    var s' := Next(s, a);
    if s.seal.Some? {
      var o := s.seal.value;
      PastIsSettled(s, s', o.began, o.derived);
      OneMoreStep(s, s', o.began);
      OneMoreStep(s, s', o.derived);
      PastIsSettled(s, s', o.began, s.step);
    } else {
      assert !RerootedBetween(s'.rerooted, s.step, s'.step);
    }
    assert !RerootedBetween(s'.rerooted, s.step, s'.step);
  }

  lemma NextKeepsRight(s: State, a: Action)
    requires RightInv(s)
    ensures RightInv(Next(s, a))
  {
    NextKeepsSent(s, a);
    if Next(s, a).seal.Some? {
      NextKeepsSeal(s, a);
    }
  }

  lemma {:induction false} RunsKeepRight(session: string, generation: nat, actions: seq<Action>)
    ensures RightInv(Runs(session, generation, actions))
    ensures Runs(session, generation, actions).session == session
  {
    if actions != [] {
      RunsKeepRight(session, generation, actions[..|actions| - 1]);
      NextKeepsRight(Runs(session, generation, actions[..|actions| - 1]), actions[|actions| - 1]);
    }
  }

  /**
   * In every interleaving with re-roots, a message is sealed with the key of the generation it is labelled with
   * exactly when no re-root was between its steps as the seal began, and none replaced the keys before the
   * derivation.
   */
  lemma SealedKeyIsRightExactlyWhen(session: string, generation: nat, actions: seq<Action>, k: nat)
    requires k < |Runs(session, generation, actions).sent|
    ensures var s := Runs(session, generation, actions);
            var h := s.sent[k];
            h.key == KeyFor(session, h.generation, h.key.number)
            <==> !h.midway && !RerootedBetween(s.rerooted, h.began, h.derived)
  {
    RunsKeepRight(session, generation, actions);
    assert SentInv(Runs(session, generation, actions), Runs(session, generation, actions).sent[k]);
  }

  // ----- which keys are used, and which are skipped -------------------------------------------------

  /** One of these sends moved past this chain key. */
  predicate PassedIn(sent: seq<Sent>, ck: ChainKey) {
    exists i :: 0 <= i < |sent| && sent[i].passed == ck
  }

  /** Every index of the current chain was passed by one send, at its time; and all were passed in order. */
  ghost predicate PassedInv(s: State) {
    && (forall n: nat :: n < s.chain.index ==> PassedIn(s.sent, ChainKey(s.session, s.chain.generation, n)))
    && (forall i :: 0 <= i < |s.sent| ==> Behind(s, s.sent[i].passed) && Behind(s, s.sent[i].key.chainKey))
    && (s.seal.Some? && s.seal.value.phase != Begun ==>
          s.seal.value.key.chainKey == LiveKey(s).chainKey || Older(s, s.seal.value.key.chainKey))
    && (forall i, j :: 0 <= i < j < |s.sent| ==>
          s.sent[i].passed != s.sent[j].passed && s.sent[i].key.chainKey != s.sent[j].key.chainKey)
    && (s.seal.Some? && s.seal.value.phase != Begun ==>
          forall i :: 0 <= i < |s.sent| ==> s.sent[i].key.chainKey != s.seal.value.key.chainKey)
  }

  predicate Older(s: State, ck: ChainKey) {
    ck.generation < s.chain.generation
  }

  /** The chain has moved past this chain key. */
  predicate Behind(s: State, ck: ChainKey) {
    Older(s, ck) || (ck.generation == s.chain.generation && ck.index < s.chain.index)
  }

  lemma AdvancePasses(s: State)
    requires PassedInv(s) && s.seal.Some? && s.seal.value.phase == Sealed
    ensures PassedInv(Next(s, Advance))
  {
    var s' := Next(s, Advance);
    var last := |s.sent|;
    assert s'.sent[last].passed == LiveKey(s).chainKey;
    forall n: nat | n < s'.chain.index
      ensures PassedIn(s'.sent, ChainKey(s.session, s.chain.generation, n))
    {
      if n < s.chain.index {
        assert PassedIn(s.sent, ChainKey(s.session, s.chain.generation, n));
        var i :| 0 <= i < |s.sent| && s.sent[i].passed == ChainKey(s.session, s.chain.generation, n);
        assert s'.sent[i] == s.sent[i];
      }
    }
    assert forall i :: 0 <= i < |s.sent| ==> s'.sent[i] == s.sent[i];
  }

  lemma NextPasses(s: State, a: Action)
    requires PassedInv(s) && RecordInv(s)
    ensures PassedInv(Next(s, a))
  {
    if a.Advance? && s.seal.Some? && s.seal.value.phase == Sealed {
      AdvancePasses(s);
    } else {
      var s' := Next(s, a);
      assert s'.sent == s.sent && s'.session == s.session && (s'.chain == s.chain || s'.chain.index == 0);
    }
  }

  lemma {:induction false} RunsPass(session: string, generation: nat, actions: seq<Action>)
    ensures PassedInv(Runs(session, generation, actions))
  {
    if actions != [] {
      RunsKeepRight(session, generation, actions[..|actions| - 1]);
      RunsPass(session, generation, actions[..|actions| - 1]);
      NextPasses(Runs(session, generation, actions[..|actions| - 1]), actions[|actions| - 1]);
    }
  }

  /** In every interleaving no two messages are sealed from one chain key. */
  lemma NoKeySealsTwice(session: string, generation: nat, actions: seq<Action>, i: nat, j: nat)
    requires i < j < |Runs(session, generation, actions).sent|
    ensures var s := Runs(session, generation, actions); s.sent[i].key.chainKey != s.sent[j].key.chainKey
  {
    RunsPass(session, generation, actions);
  }

  /** Some message was sealed from the chain key at this index of the current generation. */
  ghost predicate SealedAt(s: State, n: nat) {
    exists i :: 0 <= i < |s.sent| && s.sent[i].key.chainKey == ChainKey(s.session, s.chain.generation, n)
  }

  /** The advance past this index came after a re-root that had landed since its seal derived. */
  ghost predicate PassedByOther(s: State, n: nat) {
    exists i :: 0 <= i < |s.sent| && s.sent[i].passed == ChainKey(s.session, s.chain.generation, n)
                && RerootedBetween(s.rerooted, s.sent[i].derived, s.sent[i].advanced)
  }

  /**
   * Of the indices the current chain has passed, exactly those are skipped, so that no message was sealed from them,
   * that were passed by a seal whose key was derived before the re-root.
   */
  lemma IndexSkippedExactlyWhen(session: string, generation: nat, actions: seq<Action>, n: nat)
    requires n < Runs(session, generation, actions).chain.index
    ensures var s := Runs(session, generation, actions); !SealedAt(s, n) <==> PassedByOther(s, n)
  {
    RunsKeepRight(session, generation, actions);
    RunsPass(session, generation, actions);
    var s := Runs(session, generation, actions);
    var ck := ChainKey(s.session, s.chain.generation, n);
    assert PassedIn(s.sent, ck);
    var i :| 0 <= i < |s.sent| && s.sent[i].passed == ck;
    assert SentInv(s, s.sent[i]);
    if SealedAt(s, n) {
      var j :| 0 <= j < |s.sent| && s.sent[j].key.chainKey == ck;
      assert SentInv(s, s.sent[j]);
      assert s.sent[j].passed == ck;
    }
  }

  // ----- a seal with nothing in between -------------------------------------------------------------

  /** What a seal changes when the seal function succeeds, or throws. */
  lemma SoloSealIsAtomic(s: State)
    requires RecordInv(s) && s.seal == None && s.rerooting == None
    ensures var derived := Next(Next(s, Begin), Derive);
            var done, failed := Next(Next(derived, Succeed), Advance), Next(derived, Fail);
            var key := MessageKey(ChainKey(s.session, s.record, s.chain.index), s.chain.index);
            && failed == s.(step := s.step + 3)
            && done == s.(step := s.step + 4, chain := Chain(s.record, s.chain.index + 1),
                          sent := s.sent + [Sent(s.record, key, false, s.step, s.step + 1, s.step + 3, key.chainKey)])
  {
  }

  /** The same change of the chain, and the same key, as when a seal is one step. */
  lemma SoloSealFollowsIndex(s: State, sealed: bool)
    requires RecordInv(s) && s.seal == None && s.rerooting == None
    ensures var derived := Next(Next(s, Begin), Derive);
            var after := if sealed then Next(Next(derived, Succeed), Advance) else Next(derived, Fail);
            after.chain == Chain(s.chain.generation, SealedIndex(s.chain.index, sealed)) && after.seal == None
  {
    SoloSealIsAtomic(s);
  }

  /** A re-root to a later generation replaces the keys first and the record last; any other does nothing. */
  lemma RerootsInTwoSteps(s: State, next: nat)
    requires s.rerooting == None
    ensures var s1 := Next(s, RerootKeys(next));
            var s2 := Next(s1, RerootRecord);
            if next <= s.record then s1 == s.(step := s.step + 1) && s2 == s.(step := s.step + 2)
            else
              && s1.chain == Chain(next, 0) && s1.record == s.record && s.step in s1.rerooted
              && s2 == s1.(step := s.step + 2, record := next, rerooting := None)
  {
  }

  lemma RunsAppend(session: string, generation: nat, actions: seq<Action>, a: Action)
    ensures Runs(session, generation, actions + [a]) == Next(Runs(session, generation, actions), a)
  {
    assert (actions + [a])[..|actions + [a]| - 1] == actions;
  }

  /** A re-root while the seal function runs: the advance skips the first index of the new chain. */
  lemma SkippedIndexExample(session: string)
    ensures var s := Runs(session, 0, [] + [Begin] + [Derive] + [RerootKeys(1)] + [Succeed] + [Advance]);
            s.chain == Chain(1, 1) && |s.sent| == 1 && s.sent[0].key == KeyFor(session, 0, 0) && !SealedAt(s, 0)
  {
    var a1 := [] + [Begin];
    var a2 := a1 + [Derive];
    var a3 := a2 + [RerootKeys(1)];
    var a4 := a3 + [Succeed];
    RunsAppend(session, 0, [], Begin);
    RunsAppend(session, 0, a1, Derive);
    RunsAppend(session, 0, a2, RerootKeys(1));
    RunsAppend(session, 0, a3, Succeed);
    RunsAppend(session, 0, a4, Advance);
  }
}
