/**
 * Message-key reports (server/controllers/messageKeyController.js).
 *
 * A device reports the metadata of each message it sealed or opened. The handler reads the session's
 * record, computes a patch from that snapshot, and writes the patch back in a later step, so reports on
 * one session interleave. The first part models one report and serial runs; the second part models
 * every interleaving and says exactly what is lost and what survives.
 */
module MessageKeyReports {
  import opened Sequences

  /** Both the message log and the audit trail keep this many entries. */
  const WINDOW: nat := 500

  datatype Direction = Sending | Receiving

  /** A report's request body; absent fields are None. */
  datatype Body = Body(direction: Option<string>, generation: Option<int>, messageNumber: int,
                       keyId: Option<string>, fingerprint: Option<string>, delivery: Option<string>)

  datatype Meta = Meta(reportId: nat, sessionId: string, direction: Direction, generation: int,
                       messageNumber: int, keyId: Option<string>, fingerprint: Option<string>, delivery: string)

  datatype AuditEntry = AuditEntry(action: string, direction: Direction, generation: int,
                                   messageNumber: int, keyId: Option<string>)

  datatype SendingCounters = SendingCounters(count: nat, lastNumber: int)

  datatype ReceivingCounters = ReceivingCounters(count: nat, lastNumber: int, highestNumber: int)

  datatype Summary = Summary(generation: int, sent: nat, received: nat, lastSentNumber: int,
                             lastReceivedNumber: int, highestReceivedNumber: int)

  datatype Record = Record(sessionId: string, generation: int, sending: SendingCounters,
                           receiving: ReceivingCounters, messages: seq<Meta>, audit: seq<AuditEntry>,
                           metadata: Summary)

  /** The fields one report overwrites; a None field keeps its stored value. */
  datatype Patch = Patch(messages: seq<Meta>, sending: Option<SendingCounters>,
                         receiving: Option<ReceivingCounters>, metadata: Summary, audit: seq<AuditEntry>)

  // ----- one report ---------------------------------------------------------------------------------

  function Max(x: int, y: int): int {
    if x < y then y else x
  }

  function Summarize(generation: int, sending: SendingCounters, receiving: ReceivingCounters): Summary {
    Summary(generation, sending.count, receiving.count, sending.lastNumber, receiving.lastNumber,
            receiving.highestNumber)
  }

  /** The metadata block speaks of the counters it is stored beside. */
  predicate MetadataAgrees(r: Record) {
    && r.metadata.generation == r.generation
    && r.metadata.sent == r.sending.count
    && r.metadata.received == r.receiving.count
    && r.metadata.lastSentNumber == r.sending.lastNumber
    && r.metadata.lastReceivedNumber == r.receiving.lastNumber
    && r.metadata.highestReceivedNumber == r.receiving.highestNumber
  }

  function FreshRecord(sessionId: string): Record {
    var sending := SendingCounters(0, -1);
    var receiving := ReceivingCounters(0, -1, -1);
    Record(sessionId, 0, sending, receiving, [], [], Summarize(0, sending, receiving))
  }

  /** Any direction other than the string "receiving" counts as sending. */
  function DirectionOf(body: Body): Direction {
    if body.direction == Some("receiving") then Receiving else Sending
  }

  function MetaFor(state: Record, reportId: nat, body: Body): Meta {
    var direction := DirectionOf(body);
    Meta(reportId, state.sessionId, direction, body.generation.GetOr(state.generation), body.messageNumber,
         body.keyId, body.fingerprint,
         body.delivery.GetOr(if direction == Sending then "encrypted" else "decrypted"))
  }

  function AuditOf(m: Meta): AuditEntry {
    AuditEntry(if m.direction == Sending then "message-encrypted" else "message-decrypted",
               m.direction, m.generation, m.messageNumber, m.keyId)
  }

  function BumpSending(c: SendingCounters, number: int): SendingCounters {
    SendingCounters(c.count + 1, number)
  }

  function BumpReceiving(c: ReceivingCounters, number: int): ReceivingCounters {
    ReceivingCounters(c.count + 1, number, Max(c.highestNumber, number))
  }

  /** The patch a report computes from its snapshot alone. */
  function PatchFor(state: Record, reportId: nat, body: Body): Patch {
    var meta := MetaFor(state, reportId, body);
    var sending := if meta.direction == Sending then BumpSending(state.sending, meta.messageNumber) else state.sending;
    var receiving := if meta.direction == Receiving then BumpReceiving(state.receiving, meta.messageNumber)
                     else state.receiving;
    Patch(LastN(state.messages + [meta], WINDOW),
          if meta.direction == Sending then Some(sending) else None,
          if meta.direction == Receiving then Some(receiving) else None,
          Summarize(state.generation, sending, receiving),
          LastN(state.audit + [AuditOf(meta)], WINDOW))
  }

  /** The repository's atomic update: patched fields are replaced, the others stay. */
  function Overwrite(store: Record, patch: Patch): Record {
    store.(messages := patch.messages, sending := patch.sending.GetOr(store.sending),
           receiving := patch.receiving.GetOr(store.receiving), metadata := patch.metadata, audit := patch.audit)
  }

  /** A report whose read and write are not separated. */
  function Report(state: Record, reportId: nat, body: Body): Record {
    Overwrite(state, PatchFor(state, reportId, body))
  }

  /** The report is of a received message. */
  predicate Receives(body: Body) {
    body.direction == Some("receiving")
  }

  /** What the log and the audit trail say of one report on this record. */
  predicate Tells(m: Meta, a: AuditEntry, state: Record, reportId: nat, body: Body) {
    && m.reportId == reportId && m.sessionId == state.sessionId
    && m.messageNumber == body.messageNumber && m.keyId == body.keyId && m.fingerprint == body.fingerprint
    && m.generation == (if body.generation.Some? then body.generation.value else state.generation)
    && m.direction == (if Receives(body) then Receiving else Sending)
    && m.delivery == (if body.delivery.Some? then body.delivery.value
                      else if Receives(body) then "decrypted" else "encrypted")
    && a == AuditEntry(if Receives(body) then "message-decrypted" else "message-encrypted",
                       m.direction, m.generation, m.messageNumber, m.keyId)
  }

  /** The report comes last in both windows, behind the latest 499 entries there were. */
  predicate Logged(before: Record, messages: seq<Meta>, audit: seq<AuditEntry>, reportId: nat, body: Body) {
    && messages != [] && audit != []
    && Tells(messages[|messages| - 1], audit[|audit| - 1], before, reportId, body)
    && messages[..|messages| - 1] == LastN(before.messages, 499)
    && audit[..|audit| - 1] == LastN(before.audit, 499)
  }

  lemma PatchLogs(state: Record, reportId: nat, body: Body)
    ensures var patch := PatchFor(state, reportId, body);
            Logged(state, patch.messages, patch.audit, reportId, body)
  {
    var meta, patch := MetaFor(state, reportId, body), PatchFor(state, reportId, body);
    assert patch.messages[|patch.messages| - 1] == meta && patch.audit[|patch.audit| - 1] == AuditOf(meta);
    assert patch.messages[..|patch.messages| - 1] == LastN(state.messages, 499);
    assert patch.audit[..|patch.audit| - 1] == LastN(state.audit, 499);
  }

  /** One report alone: its entry is logged, its direction is counted, and the metadata follows. */
  lemma ReportCounts(state: Record, reportId: nat, body: Body)
    ensures var after := Report(state, reportId, body);
            && Logged(state, after.messages, after.audit, reportId, body)
            && MetadataAgrees(after)
            && after.sessionId == state.sessionId && after.generation == state.generation
            && after.sending == (if Receives(body) then state.sending
                                 else SendingCounters(state.sending.count + 1, body.messageNumber))
            && (Receives(body) ==>
                  && after.receiving.count == state.receiving.count + 1
                  && after.receiving.lastNumber == body.messageNumber
                  && after.receiving.highestNumber
                     == if body.messageNumber > state.receiving.highestNumber then body.messageNumber
                        else state.receiving.highestNumber)
            && (!Receives(body) ==> after.receiving == state.receiving)
  {
    PatchLogs(state, reportId, body);
  }

  class MessageKeyController {
    var records: map<string, Record>

    constructor ()
      ensures records == map[]
    {
      records := map[];
    }

    method Ensure(sessionId: string) returns (state: Record)
      modifies this
      ensures records == if sessionId in old(records) then old(records)
                         else old(records)[sessionId := FreshRecord(sessionId)]
      ensures sessionId in records && state == records[sessionId]
      ensures sessionId !in old(records) ==>
        && state.sessionId == sessionId && state.generation == 0 && state.messages == [] && state.audit == []
        && state.sending == SendingCounters(0, -1) && state.receiving == ReceivingCounters(0, -1, -1)
        && MetadataAgrees(state)
    {
      if sessionId !in records {
        records := records[sessionId := FreshRecord(sessionId)];
      }
      state := records[sessionId];
    }

    /** The handler between its read and its write. */
    method BuildPatch(state: Record, reportId: nat, body: Body) returns (patch: Patch)
      ensures patch == PatchFor(state, reportId, body)
      ensures Logged(state, patch.messages, patch.audit, reportId, body)
      ensures patch.sending.Some? <==> !Receives(body)
      ensures patch.receiving.Some? <==> Receives(body)
    {
      PatchLogs(state, reportId, body);
      var direction := Sending;
      if body.direction == Some("receiving") {
        direction := Receiving;
      }
      var delivery := if direction == Sending then "encrypted" else "decrypted";
      if body.delivery.Some? {
        delivery := body.delivery.value;
      }
      var meta := Meta(reportId, state.sessionId, direction, body.generation.GetOr(state.generation),
                       body.messageNumber, body.keyId, body.fingerprint, delivery);
      patch := Patch(LastN(state.messages + [meta], WINDOW), None, None, state.metadata, state.audit);
      var merged := state;
      if direction == Sending {
        var sending := SendingCounters(state.sending.count + 1, meta.messageNumber);
        patch, merged := patch.(sending := Some(sending)), merged.(sending := sending);
      } else {
        var receiving := ReceivingCounters(state.receiving.count + 1, meta.messageNumber,
                                           Max(state.receiving.highestNumber, meta.messageNumber));
        patch, merged := patch.(receiving := Some(receiving)), merged.(receiving := receiving);
      }
      patch := patch.(metadata := Summarize(merged.generation, merged.sending, merged.receiving));
      patch := patch.(audit := LastN(state.audit + [AuditOf(meta)], WINDOW));
    }

    /** None stands for the not-found error. */
    method Update(sessionId: string, patch: Patch) returns (updated: Option<Record>)
      modifies this
      ensures sessionId !in old(records) ==> updated == None && records == old(records)
      ensures sessionId in old(records) ==>
        records == old(records)[sessionId := Overwrite(old(records)[sessionId], patch)]
        && updated == Some(records[sessionId])
      ensures sessionId in old(records) ==>
        var before, after := old(records)[sessionId], records[sessionId];
        && after.messages == patch.messages && after.audit == patch.audit && after.metadata == patch.metadata
        && after.sending == (if patch.sending.Some? then patch.sending.value else before.sending)
        && after.receiving == (if patch.receiving.Some? then patch.receiving.value else before.receiving)
        && after.sessionId == before.sessionId && after.generation == before.generation
    {
      updated := None;
      if sessionId in records {
        var store := records[sessionId];
        store := store.(messages := patch.messages, metadata := patch.metadata, audit := patch.audit);
        if patch.sending.Some? {
          store := store.(sending := patch.sending.value);
        }
        if patch.receiving.Some? {
          store := store.(receiving := patch.receiving.value);
        }
        records := records[sessionId := store];
        updated := Some(store);
      }
    }

    /** The whole handler with nothing in between; other sessions keep their records. */
    method ReportMessage(sessionId: string, reportId: nat, body: Body) returns (updated: Record)
      modifies this
      ensures var state := if sessionId in old(records) then old(records)[sessionId] else FreshRecord(sessionId);
              records == old(records)[sessionId := Report(state, reportId, body)] && updated == records[sessionId]
    {
      var state := Ensure(sessionId);
      var patch := BuildPatch(state, reportId, body);
      var result := Update(sessionId, patch);
      updated := result.value;
    }
  }

  // ----- serial runs --------------------------------------------------------------------------------

  datatype Request = Request(reportId: nat, body: Body)

  /** The record after the reports have run one after the other on a new session. */
  function Serial(sessionId: string, requests: seq<Request>): Record {
    if requests == [] then FreshRecord(sessionId)
    else
      var last := requests[|requests| - 1];
      Report(Serial(sessionId, requests[..|requests| - 1]), last.reportId, last.body)
  }

  function MetasOf(sessionId: string, requests: seq<Request>): seq<Meta> {
    Map((r: Request) => MetaFor(FreshRecord(sessionId), r.reportId, r.body), requests)
  }

  /** The reports in one direction, in order. */
  function Of(d: Direction, ms: seq<Meta>): seq<Meta> {
    if ms == [] then []
    else
      var rest, last := Of(d, ms[..|ms| - 1]), ms[|ms| - 1];
      if last.direction == d then rest + [last] else rest
  }

  function LastNumber(ms: seq<Meta>): int {
    if ms == [] then -1 else ms[|ms| - 1].messageNumber
  }

  function Highest(ms: seq<Meta>): int {
    if ms == [] then -1 else Max(Highest(ms[..|ms| - 1]), ms[|ms| - 1].messageNumber)
  }

  /** What the two counter blocks say of a list of reports in one direction. */
  function SendingOf(ms: seq<Meta>): SendingCounters {
    SendingCounters(|ms|, LastNumber(ms))
  }

  function ReceivingOf(ms: seq<Meta>): ReceivingCounters {
    ReceivingCounters(|ms|, LastNumber(ms), Highest(ms))
  }

  lemma {:induction false} HighestIsMaximum(ms: seq<Meta>)
    ensures forall m :: m in ms ==> m.messageNumber <= Highest(ms)
    ensures -1 <= Highest(ms)
    ensures Highest(ms) == -1 || exists m :: m in ms && m.messageNumber == Highest(ms)
    ensures LastNumber(ms) <= Highest(ms)
  {
    if ms != [] {
      HighestIsMaximum(ms[..|ms| - 1]);
      assert ms == ms[..|ms| - 1] + [ms[|ms| - 1]];
    }
  }

  lemma CountersAppend(ms: seq<Meta>, m: Meta)
    ensures SendingOf(ms + [m]) == BumpSending(SendingOf(ms), m.messageNumber)
    ensures ReceivingOf(ms + [m]) == BumpReceiving(ReceivingOf(ms), m.messageNumber)
  {
    assert (ms + [m])[..|ms + [m]| - 1] == ms;
  }

  lemma WindowsAppend(ms: seq<Meta>, m: Meta)
    ensures LastN(LastN(ms, WINDOW) + [m], WINDOW) == LastN(ms + [m], WINDOW)
    ensures LastN(LastN(Map(AuditOf, ms), WINDOW) + [AuditOf(m)], WINDOW) == LastN(Map(AuditOf, ms + [m]), WINDOW)
  {
    LastNAppend(ms, m, WINDOW);
    LastNAppend(Map(AuditOf, ms), AuditOf(m), WINDOW);
    assert Map(AuditOf, ms) + [AuditOf(m)] == Map(AuditOf, ms + [m]);
  }

  /** The record says exactly what `ms`, in this order, would make it say. */
  ghost predicate Recounts(r: Record, ms: seq<Meta>) {
    && r.messages == LastN(ms, WINDOW)
    && r.audit == LastN(Map(AuditOf, ms), WINDOW)
    && r.sending == SendingOf(Of(Sending, ms))
    && r.receiving == ReceivingOf(Of(Receiving, ms))
    && MetadataAgrees(r)
  }

  lemma OfAppend(d: Direction, ms: seq<Meta>, m: Meta)
    ensures Of(d, ms + [m]) == if m.direction == d then Of(d, ms) + [m] else Of(d, ms)
  {
    assert (ms + [m])[..|ms + [m]| - 1] == ms;
  }

  lemma ReportRecounts(r: Record, ms: seq<Meta>, reportId: nat, body: Body)
    requires Recounts(r, ms)
    ensures Recounts(Report(r, reportId, body), ms + [MetaFor(r, reportId, body)])
  {
    var meta, r' := MetaFor(r, reportId, body), Report(r, reportId, body);
    assert r'.messages == LastN(ms + [meta], WINDOW) && r'.audit == LastN(Map(AuditOf, ms + [meta]), WINDOW) by {
      WindowsAppend(ms, meta);
    }
    assert r'.sending == SendingOf(Of(Sending, ms + [meta]))
        && r'.receiving == ReceivingOf(Of(Receiving, ms + [meta])) by {
      OfAppend(Sending, ms, meta);
      OfAppend(Receiving, ms, meta);
      CountersAppend(Of(meta.direction, ms), meta);
    }
  }

  lemma MetasOfSnoc(sessionId: string, front: seq<Request>, last: Request)
    ensures MetasOf(sessionId, front + [last])
            == MetasOf(sessionId, front) + [MetaFor(FreshRecord(sessionId), last.reportId, last.body)]
  {
  }

  lemma FreshRecounts(sessionId: string)
    ensures Recounts(FreshRecord(sessionId), [])
  {
    assert LastN(Map(AuditOf, []), WINDOW) == [];
  }

  /** `r` recounts exactly these reports, each counted once. */
  ghost predicate RecountsSession(r: Record, sessionId: string, ms: seq<Meta>) {
    && r.sessionId == sessionId && r.generation == 0
    && Recounts(r, ms)
    && r.sending.count + r.receiving.count == |ms|
  }

  lemma ReportRecountsSession(r: Record, sessionId: string, ms: seq<Meta>, reportId: nat, body: Body)
    requires RecountsSession(r, sessionId, ms)
    ensures RecountsSession(Report(r, reportId, body), sessionId,
                            ms + [MetaFor(FreshRecord(sessionId), reportId, body)])
  {
    assert MetaFor(r, reportId, body) == MetaFor(FreshRecord(sessionId), reportId, body);
    ReportRecounts(r, ms, reportId, body);
  }

  /**
   * A serial run keeps exactly the last 500 reports in order, counts every report once, holds the latest
   * number in each direction and the maximum of -1 and all received numbers, and its metadata agrees.
   */
  lemma {:induction false} SerialRun(sessionId: string, requests: seq<Request>)
    ensures RecountsSession(Serial(sessionId, requests), sessionId, MetasOf(sessionId, requests))
  {
    if requests == [] {
      FreshRecounts(sessionId);
      assert MetasOf(sessionId, requests) == [];
    } else {
      var front, last := requests[..|requests| - 1], requests[|requests| - 1];
      SerialRun(sessionId, front);
      assert requests == front + [last];
      MetasOfSnoc(sessionId, front, last);
      ReportRecountsSession(Serial(sessionId, front), sessionId, MetasOf(sessionId, front), last.reportId, last.body);
    }
  }

  /** The latest report in this direction is the i-th. */
  predicate LatestIn(requests: seq<Request>, receiving: bool, i: int) {
    && 0 <= i < |requests| && Receives(requests[i].body) == receiving
    && forall j :: i < j < |requests| ==> Receives(requests[j].body) != receiving
  }

  /** This is the number of the latest report in this direction, or -1 if there is none. */
  ghost predicate IsLatestNumber(requests: seq<Request>, receiving: bool, number: int) {
    || (number == -1 && forall i :: 0 <= i < |requests| ==> Receives(requests[i].body) != receiving)
    || (exists i :: LatestIn(requests, receiving, i) && requests[i].body.messageNumber == number)
  }

  /** This is the greatest of -1 and the numbers of the received messages. */
  ghost predicate IsHighestNumber(requests: seq<Request>, number: int) {
    && number >= -1
    && (forall i :: 0 <= i < |requests| && Receives(requests[i].body) ==> requests[i].body.messageNumber <= number)
    && (number == -1
        || exists i :: 0 <= i < |requests| && Receives(requests[i].body) && requests[i].body.messageNumber == number)
  }

  /** One more request. */
  lemma NumbersAppend(front: seq<Request>, last: Request, receiving: bool, number: int)
    requires IsLatestNumber(front, receiving, number)
    ensures IsLatestNumber(front + [last], receiving,
                           if Receives(last.body) == receiving then last.body.messageNumber else number)
  {
    var all := front + [last];
    if Receives(last.body) == receiving {
      assert LatestIn(all, receiving, |front|) && all[|front|] == last;
    } else if i :| LatestIn(front, receiving, i) && front[i].body.messageNumber == number {
      assert LatestIn(all, receiving, i) && all[i] == front[i];
    }
  }

  lemma HighestAppend(front: seq<Request>, last: Request, number: int)
    requires IsHighestNumber(front, number)
    ensures IsHighestNumber(front + [last],
                            if Receives(last.body) && last.body.messageNumber > number then last.body.messageNumber
                            else number)
  {
    var all := front + [last];
    assert all[|front|] == last && forall i :: 0 <= i < |front| ==> all[i] == front[i];
    if number != -1 {
      var i :| 0 <= i < |front| && Receives(front[i].body) && front[i].body.messageNumber == number;
      assert all[i] == front[i];
    }
  }

  /** How many of the requests are in this direction. */
  function CountIn(requests: seq<Request>, receiving: bool): nat {
    |set i: nat | i < |requests| && Receives(requests[i].body) == receiving|
  }

  lemma CountAppend(front: seq<Request>, last: Request, receiving: bool)
    ensures CountIn(front + [last], receiving)
            == CountIn(front, receiving) + if Receives(last.body) == receiving then 1 else 0
  {
    var all := front + [last];
    var at := set i: nat | i < |all| && Receives(all[i].body) == receiving;
    assert at - {|front|} == set i: nat | i < |front| && Receives(front[i].body) == receiving;
  }

  /** The counters hold what the requests say. */
  ghost predicate CountersOf(r: Record, requests: seq<Request>) {
    && r.sending.count == CountIn(requests, false) && r.receiving.count == CountIn(requests, true)
    && IsLatestNumber(requests, false, r.sending.lastNumber) && IsLatestNumber(requests, true, r.receiving.lastNumber)
    && IsHighestNumber(requests, r.receiving.highestNumber)
  }

  lemma ReportKeepsCounters(r: Record, front: seq<Request>, last: Request)
    requires CountersOf(r, front)
    ensures CountersOf(Report(r, last.reportId, last.body), front + [last])
  {
    ReportCounts(r, last.reportId, last.body);
    CountAppend(front, last, false);
    CountAppend(front, last, true);
    NumbersAppend(front, last, false, r.sending.lastNumber);
    NumbersAppend(front, last, true, r.receiving.lastNumber);
    HighestAppend(front, last, r.receiving.highestNumber);
  }

  lemma {:induction false} SerialCounters(sessionId: string, requests: seq<Request>)
    ensures CountersOf(Serial(sessionId, requests), requests)
  {
    if requests != [] {
      var front, last := requests[..|requests| - 1], requests[|requests| - 1];
      SerialCounters(sessionId, front);
      ReportKeepsCounters(Serial(sessionId, front), front, last);
      assert requests == front + [last];
    }
  }

  /**
   * The six fields of a serial run's metadata, from the reports: how many there were in each direction, the latest
   * number in each, and the highest received one.
   */
  lemma SerialMetadata(sessionId: string, requests: seq<Request>)
    ensures var m := Serial(sessionId, requests).metadata;
            && m.generation == 0
            && m.sent == CountIn(requests, false) && m.received == CountIn(requests, true)
            && IsLatestNumber(requests, false, m.lastSentNumber)
            && IsLatestNumber(requests, true, m.lastReceivedNumber)
            && IsHighestNumber(requests, m.highestReceivedNumber)
  {
    SerialCounters(sessionId, requests);
    SerialRun(sessionId, requests);
  }

  /** Serially, the highest received number never falls. */
  lemma HighestNeverFallsSerially(sessionId: string, requests: seq<Request>, more: seq<Request>)
    ensures Serial(sessionId, requests).receiving.highestNumber
            <= Serial(sessionId, requests + more).receiving.highestNumber
    decreases |more|
  {
    if more == [] {
      assert requests + more == requests;
    } else {
      var front := more[..|more| - 1];
      HighestNeverFallsSerially(sessionId, requests, front);
      assert (requests + more)[..|requests + more| - 1] == requests + front;
    }
  }

  // ----- interleaved runs ---------------------------------------------------------------------------

  /** A report that has written, and how many reports had written when it took its snapshot. */
  datatype Completed = Completed(meta: Meta, seen: nat)

  /** For each stored field, which completed reports it still speaks of (indices into `completed`). */
  datatype Lineage = Lineage(messages: seq<nat>, sending: seq<nat>, receiving: seq<nat>)

  /** A handler between its read and its write. */
  datatype Pending = Pending(body: Body, snapshot: Record, seen: nat, lineage: Lineage)

  datatype System = System(store: Record, pending: map<nat, Pending>, completed: seq<Completed>, lineage: Lineage)

  datatype Action = Take(reportId: nat, body: Body) | Write(reportId: nat)

  function Start(sessionId: string): System {
    System(FreshRecord(sessionId), map[], [], Lineage([], [], []))
  }

  predicate Used(s: System, reportId: nat) {
    reportId in s.pending || exists i :: 0 <= i < |s.completed| && s.completed[i].meta.reportId == reportId
  }

  function TakeSnapshot(s: System, reportId: nat, body: Body): System {
    s.(pending := s.pending[reportId := Pending(body, s.store, |s.completed|, s.lineage)])
  }

  function WriteBack(s: System, reportId: nat): System
    requires reportId in s.pending
  {
    var p := s.pending[reportId];
    var meta := MetaFor(p.snapshot, reportId, p.body);
    var here := |s.completed|;
    System(Overwrite(s.store, PatchFor(p.snapshot, reportId, p.body)),
           s.pending - {reportId},
           s.completed + [Completed(meta, p.seen)],
           Lineage(p.lineage.messages + [here],
                   if meta.direction == Sending then p.lineage.sending + [here] else s.lineage.sending,
                   if meta.direction == Receiving then p.lineage.receiving + [here] else s.lineage.receiving))
  }

  /** Report ids are fresh random ids: taking a used id, or writing without a snapshot, cannot happen. */
  function Step(s: System, a: Action): System {
    match a
    case Take(id, body) => if Used(s, id) then s else TakeSnapshot(s, id, body)
    case Write(id) => if id in s.pending then WriteBack(s, id) else s
  }

  function Run(sessionId: string, actions: seq<Action>): System {
    if actions == [] then Start(sessionId)
    else Step(Run(sessionId, actions[..|actions| - 1]), actions[|actions| - 1])
  }

  /** Each listed report had written before the next one took its snapshot. */
  ghost predicate Chain(completed: seq<Completed>, line: seq<nat>) {
    && (forall i :: 0 <= i < |line| ==> line[i] < |completed|)
    && (forall i, j :: 0 <= i < j < |line| ==> line[i] < completed[line[j]].seen)
  }

  ghost predicate Towards(completed: seq<Completed>, line: seq<nat>, d: Direction) {
    forall i :: 0 <= i < |line| ==> line[i] < |completed| && completed[line[i]].meta.direction == d
  }

  function MetasAt(completed: seq<Completed>, line: seq<nat>): (ms: seq<Meta>)
    requires forall i :: 0 <= i < |line| ==> line[i] < |completed|
    ensures |ms| == |line| && forall i :: 0 <= i < |line| ==> ms[i] == completed[line[i]].meta
  {
    seq(|line|, i requires 0 <= i < |line| => completed[line[i]].meta)
  }

  ghost predicate ExplainsWindows(r: Record, completed: seq<Completed>, line: seq<nat>) {
    && Chain(completed, line)
    && r.messages == LastN(MetasAt(completed, line), WINDOW)
    && r.audit == LastN(Map(AuditOf, MetasAt(completed, line)), WINDOW)
  }

  ghost predicate ExplainsSending(c: SendingCounters, completed: seq<Completed>, line: seq<nat>) {
    Chain(completed, line) && Towards(completed, line, Sending) && c == SendingOf(MetasAt(completed, line))
  }

  ghost predicate ExplainsReceiving(c: ReceivingCounters, completed: seq<Completed>, line: seq<nat>) {
    Chain(completed, line) && Towards(completed, line, Receiving) && c == ReceivingOf(MetasAt(completed, line))
  }

  /** Every field of `r` is what a serial run of its own lineage would have stored. */
  ghost predicate Explains(r: Record, completed: seq<Completed>, l: Lineage) {
    && ExplainsWindows(r, completed, l.messages)
    && ExplainsSending(r.sending, completed, l.sending)
    && ExplainsReceiving(r.receiving, completed, l.receiving)
    && r.generation == 0
  }

  ghost predicate UniqueIds(s: System) {
    && (forall i, j :: 0 <= i < j < |s.completed| ==> s.completed[i].meta.reportId != s.completed[j].meta.reportId)
    && (forall i :: 0 <= i < |s.completed| ==> s.completed[i].meta.reportId !in s.pending)
  }

  ghost predicate PendingExplained(p: Pending, completed: seq<Completed>) {
    p.seen <= |completed| && Explains(p.snapshot, completed[..p.seen], p.lineage)
  }

  ghost predicate Inv(s: System) {
    && UniqueIds(s)
    && (forall i :: 0 <= i < |s.completed| ==> s.completed[i].seen <= i)
    && Explains(s.store, s.completed, s.lineage)
    && (forall id :: id in s.pending ==> PendingExplained(s.pending[id], s.completed))
  }

  lemma ExplainsPrefix(r: Record, completed: seq<Completed>, n: nat, l: Lineage)
    requires n <= |completed| && Explains(r, completed[..n], l)
    ensures Explains(r, completed, l)
  {
    assert MetasAt(completed[..n], l.messages) == MetasAt(completed, l.messages);
    assert MetasAt(completed[..n], l.sending) == MetasAt(completed, l.sending);
    assert MetasAt(completed[..n], l.receiving) == MetasAt(completed, l.receiving);
  }

  lemma ChainExtends(completed: seq<Completed>, line: seq<nat>, c: Completed)
    requires c.seen <= |completed| && Chain(completed[..c.seen], line)
    ensures Chain(completed + [c], line + [|completed|])
    ensures MetasAt(completed + [c], line + [|completed|]) == MetasAt(completed[..c.seen], line) + [c.meta]
  {
  }

  lemma TowardsExtends(completed: seq<Completed>, line: seq<nat>, c: Completed)
    requires c.seen <= |completed| && Towards(completed[..c.seen], line, c.meta.direction)
    ensures Towards(completed + [c], line + [|completed|], c.meta.direction)
  {
  }

  lemma WriteExplainsWindows(r: Record, completed: seq<Completed>, line: seq<nat>, c: Completed, r': Record)
    requires c.seen <= |completed| && ExplainsWindows(r, completed[..c.seen], line)
    requires r'.messages == LastN(r.messages + [c.meta], WINDOW)
    requires r'.audit == LastN(r.audit + [AuditOf(c.meta)], WINDOW)
    ensures ExplainsWindows(r', completed + [c], line + [|completed|])
  {
    ChainExtends(completed, line, c);
    WindowsAppend(MetasAt(completed[..c.seen], line), c.meta);
  }

  lemma WriteExplainsCounters(r: Record, completed: seq<Completed>, l: Lineage, c: Completed)
    requires c.seen <= |completed|
    requires ExplainsSending(r.sending, completed[..c.seen], l.sending)
    requires ExplainsReceiving(r.receiving, completed[..c.seen], l.receiving)
    ensures c.meta.direction == Sending ==>
      ExplainsSending(BumpSending(r.sending, c.meta.messageNumber), completed + [c], l.sending + [|completed|])
    ensures c.meta.direction == Receiving ==>
      ExplainsReceiving(BumpReceiving(r.receiving, c.meta.messageNumber), completed + [c], l.receiving + [|completed|])
  {
    if c.meta.direction == Sending {
      ChainExtends(completed, l.sending, c);
      TowardsExtends(completed, l.sending, c);
      CountersAppend(MetasAt(completed[..c.seen], l.sending), c.meta);
    } else {
      ChainExtends(completed, l.receiving, c);
      TowardsExtends(completed, l.receiving, c);
      CountersAppend(MetasAt(completed[..c.seen], l.receiving), c.meta);
    }
  }

  lemma WriteExplains(s: System, id: nat)
    requires id in s.pending && PendingExplained(s.pending[id], s.completed)
    requires Explains(s.store, s.completed, s.lineage)
    ensures var s' := WriteBack(s, id); Explains(s'.store, s'.completed, s'.lineage)
  {
    var p, s' := s.pending[id], WriteBack(s, id);
    var c := Completed(MetaFor(p.snapshot, id, p.body), p.seen);
    assert s'.completed == s.completed + [c];
    assert ExplainsWindows(s'.store, s'.completed, s'.lineage.messages) by {
      WriteExplainsWindows(p.snapshot, s.completed, p.lineage.messages, c, s'.store);
    }
    assert Explains(s.store, s'.completed, s.lineage) by {
      assert s'.completed[..|s.completed|] == s.completed;
      ExplainsPrefix(s.store, s'.completed, |s.completed|, s.lineage);
    }
    assert ExplainsSending(s'.store.sending, s'.completed, s'.lineage.sending)
        && ExplainsReceiving(s'.store.receiving, s'.completed, s'.lineage.receiving) by {
      WriteExplainsCounters(p.snapshot, s.completed, p.lineage, c);
    }
  }

  lemma TakeKeepsInv(s: System, id: nat, body: Body)
    requires Inv(s) && !Used(s, id)
    ensures Inv(TakeSnapshot(s, id, body))
  {
    assert s.completed[..|s.completed|] == s.completed;
  }

  lemma PendingStaysExplained(p: Pending, completed: seq<Completed>, c: Completed)
    requires PendingExplained(p, completed)
    ensures PendingExplained(p, completed + [c])
  {
    assert (completed + [c])[..p.seen] == completed[..p.seen];
  }

  lemma WriteKeepsUniqueIds(s: System, id: nat)
    requires UniqueIds(s) && id in s.pending
    ensures UniqueIds(WriteBack(s, id))
  {
  }

  lemma WriteKeepsInv(s: System, id: nat)
    requires Inv(s) && id in s.pending
    ensures Inv(WriteBack(s, id))
  {
    var p, s' := s.pending[id], WriteBack(s, id);
    WriteKeepsUniqueIds(s, id);
    WriteExplains(s, id);
    forall other | other in s'.pending
      ensures PendingExplained(s'.pending[other], s'.completed)
    {
      PendingStaysExplained(s.pending[other], s.completed, s'.completed[|s.completed|]);
    }
  }

  lemma StepKeepsInv(s: System, a: Action)
    requires Inv(s)
    ensures Inv(Step(s, a))
  {
    match a
    case Take(id, body) =>
      if !Used(s, id) {
        TakeKeepsInv(s, id, body);
      }
    case Write(id) =>
      if id in s.pending {
        WriteKeepsInv(s, id);
      }
  }

  /** No reports explain zeroed counters and empty windows. */
  lemma NothingExplains(r: Record, completed: seq<Completed>, line: seq<nat>)
    requires line == [] && r.generation == 0 && r.messages == [] && r.audit == []
    requires r.sending == SendingCounters(0, -1) && r.receiving == ReceivingCounters(0, -1, -1)
    ensures Explains(r, completed, Lineage(line, line, line))
  {
    var none := MetasAt(completed, line);
    assert none == [] && Map(AuditOf, none) == [] && Highest(none) == -1 && LastNumber(none) == -1;
  }

  lemma StartInv(sessionId: string)
    ensures Inv(Start(sessionId))
  {
    var s := Start(sessionId);
    NothingExplains(s.store, s.completed, s.lineage.messages);
  }

  lemma {:induction false} RunKeepsInv(sessionId: string, actions: seq<Action>)
    ensures Inv(Run(sessionId, actions))
  {
    if actions == [] {
      StartInv(sessionId);
    } else {
      RunKeepsInv(sessionId, actions[..|actions| - 1]);
      StepKeepsInv(Run(sessionId, actions[..|actions| - 1]), actions[|actions| - 1]);
    }
  }

  // ----- what survives ------------------------------------------------------------------------------

  /** Report `a` had written before report `b` took its snapshot. */
  ghost predicate WroteBefore(s: System, a: nat, b: nat) {
    exists i, j :: 0 <= i < |s.completed| && 0 <= j < |s.completed| && i < s.completed[j].seen
                   && s.completed[i].meta.reportId == a && s.completed[j].meta.reportId == b
  }

  ghost predicate ChainOfReports(s: System, ms: seq<Meta>) {
    forall i, j :: 0 <= i < j < |ms| ==>
      ms[i].reportId != ms[j].reportId && WroteBefore(s, ms[i].reportId, ms[j].reportId)
  }

  lemma LineIsChainOfReports(s: System)
    requires UniqueIds(s) && Chain(s.completed, s.lineage.messages)
    requires forall i :: 0 <= i < |s.completed| ==> s.completed[i].seen <= i
    ensures ChainOfReports(s, MetasAt(s.completed, s.lineage.messages))
  {
    var line, ms := s.lineage.messages, MetasAt(s.completed, s.lineage.messages);
    forall i, j | 0 <= i < j < |ms|
      ensures ms[i].reportId != ms[j].reportId && WroteBefore(s, ms[i].reportId, ms[j].reportId)
    {
      assert line[i] < s.completed[line[j]].seen <= line[j];
    }
  }

  lemma LastNMap<T, U>(f: T -> U, s: seq<T>, n: nat)
    ensures LastN(Map(f, s), n) == Map(f, LastN(s, n))
  {
  }

  /**
   * In every interleaving the message log is a duplicate-free chain of at most 500 completed reports:
   * each one had written before any later one took its snapshot. The audit trail tells the same story.
   */
  lemma MessagesFormChain(sessionId: string, actions: seq<Action>)
    ensures var s := Run(sessionId, actions);
            && |s.store.messages| <= WINDOW
            && s.store.audit == Map(AuditOf, s.store.messages)
            && ChainOfReports(s, s.store.messages)
  {
    RunKeepsInv(sessionId, actions);
    var s := Run(sessionId, actions);
    LineIsChainOfReports(s);
    LastNMap(AuditOf, MetasAt(s.completed, s.lineage.messages), WINDOW);
  }

  /** A report that `m` records. */
  function Resubmit(m: Meta): Request {
    Request(m.reportId, Body(Some(if m.direction == Receiving then "receiving" else "sending"), Some(m.generation),
                             m.messageNumber, m.keyId, m.fingerprint, Some(m.delivery)))
  }

  ghost predicate Labelled(s: System, sessionId: string) {
    && s.store.sessionId == sessionId
    && (forall i :: 0 <= i < |s.completed| ==> s.completed[i].meta.sessionId == sessionId)
    && (forall id :: id in s.pending ==> s.pending[id].snapshot.sessionId == sessionId)
  }

  lemma {:induction false} RunKeepsLabels(sessionId: string, actions: seq<Action>)
    ensures Labelled(Run(sessionId, actions), sessionId)
  {
    if actions != [] {
      RunKeepsLabels(sessionId, actions[..|actions| - 1]);
    }
  }

  lemma ResubmittedMetas(sessionId: string, ms: seq<Meta>)
    requires forall i :: 0 <= i < |ms| ==> ms[i].sessionId == sessionId
    ensures MetasOf(sessionId, Map(Resubmit, ms)) == ms
  {
  }

  lemma {:induction false} OneDirection(d: Direction, ms: seq<Meta>)
    requires forall i :: 0 <= i < |ms| ==> ms[i].direction == d
    ensures Of(d, ms) == ms
  {
    if ms != [] {
      OneDirection(d, ms[..|ms| - 1]);
      assert ms == ms[..|ms| - 1] + [ms[|ms| - 1]];
    }
  }

  /** The fields a serial run of `ms` stores. */
  lemma SerialFields(sessionId: string, ms: seq<Meta>)
    requires forall i :: 0 <= i < |ms| ==> ms[i].sessionId == sessionId
    ensures var r := Serial(sessionId, Map(Resubmit, ms));
            && r.messages == LastN(ms, WINDOW)
            && r.audit == LastN(Map(AuditOf, ms), WINDOW)
            && ((forall i :: 0 <= i < |ms| ==> ms[i].direction == Sending) ==> r.sending == SendingOf(ms))
            && ((forall i :: 0 <= i < |ms| ==> ms[i].direction == Receiving) ==> r.receiving == ReceivingOf(ms))
  {
    ResubmittedMetas(sessionId, ms);
    SerialRun(sessionId, Map(Resubmit, ms));
    if forall i :: 0 <= i < |ms| ==> ms[i].direction == Sending {
      OneDirection(Sending, ms);
    }
    if forall i :: 0 <= i < |ms| ==> ms[i].direction == Receiving {
      OneDirection(Receiving, ms);
    }
  }

  /** The serial run of the completed reports that `line` lists. */
  ghost function Replay(s: System, line: seq<nat>): Record
    requires Chain(s.completed, line)
  {
    Serial(s.store.sessionId, Map(Resubmit, MetasAt(s.completed, line)))
  }

  lemma ReplayedWindows(s: System)
    requires Labelled(s, s.store.sessionId) && ExplainsWindows(s.store, s.completed, s.lineage.messages)
    ensures s.store.messages == Replay(s, s.lineage.messages).messages
    ensures s.store.audit == Replay(s, s.lineage.messages).audit
  {
    SerialFields(s.store.sessionId, MetasAt(s.completed, s.lineage.messages));
  }

  lemma ReplayedSending(s: System)
    requires Labelled(s, s.store.sessionId) && ExplainsSending(s.store.sending, s.completed, s.lineage.sending)
    ensures s.store.sending == Replay(s, s.lineage.sending).sending
  {
    ReplayedSent(s, s.lineage.sending);
  }

  lemma ReplayedReceiving(s: System)
    requires Labelled(s, s.store.sessionId) && ExplainsReceiving(s.store.receiving, s.completed, s.lineage.receiving)
    ensures s.store.receiving == Replay(s, s.lineage.receiving).receiving
  {
    ReplayedReceived(s, s.lineage.receiving);
  }

  /** The summary of counters that two chains explain, one in each direction. */
  ghost predicate ExplainsMetadata(m: Summary, completed: seq<Completed>, sent: seq<nat>, received: seq<nat>) {
    && Chain(completed, sent) && Towards(completed, sent, Sending)
    && Chain(completed, received) && Towards(completed, received, Receiving)
    && m == Summarize(0, SendingOf(MetasAt(completed, sent)), ReceivingOf(MetasAt(completed, received)))
  }

  lemma SendingStaysExplained(counters: SendingCounters, completed: seq<Completed>, n: nat, line: seq<nat>, c: Completed)
    requires n <= |completed| && ExplainsSending(counters, completed[..n], line)
    ensures ExplainsSending(counters, completed + [c], line)
  {
    assert MetasAt(completed + [c], line) == MetasAt(completed[..n], line);
  }

  lemma ReceivingStaysExplained(counters: ReceivingCounters, completed: seq<Completed>, n: nat, line: seq<nat>,
                                c: Completed)
    requires n <= |completed| && ExplainsReceiving(counters, completed[..n], line)
    ensures ExplainsReceiving(counters, completed + [c], line)
  {
    assert MetasAt(completed + [c], line) == MetasAt(completed[..n], line);
  }

  /** The counters that a report's snapshot holds once the report is merged into it. */
  function MergedSending(r: Record, m: Meta): SendingCounters {
    if m.direction == Sending then BumpSending(r.sending, m.messageNumber) else r.sending
  }

  function MergedReceiving(r: Record, m: Meta): ReceivingCounters {
    if m.direction == Receiving then BumpReceiving(r.receiving, m.messageNumber) else r.receiving
  }

  /** The chains behind the merged counters. */
  lemma MergeSendingIsExplained(r: Record, completed: seq<Completed>, l: Lineage, c: Completed)
    requires c.seen <= |completed| && c.meta.direction == Sending
    requires ExplainsSending(r.sending, completed[..c.seen], l.sending)
    requires ExplainsReceiving(r.receiving, completed[..c.seen], l.receiving)
    ensures ExplainsMetadata(Summarize(0, MergedSending(r, c.meta), MergedReceiving(r, c.meta)), completed + [c],
                             l.sending + [|completed|], l.receiving)
  {
    WriteExplainsCounters(r, completed, l, c);
    ReceivingStaysExplained(r.receiving, completed, c.seen, l.receiving, c);
  }

  lemma MergeReceivingIsExplained(r: Record, completed: seq<Completed>, l: Lineage, c: Completed)
    requires c.seen <= |completed| && c.meta.direction == Receiving
    requires ExplainsSending(r.sending, completed[..c.seen], l.sending)
    requires ExplainsReceiving(r.receiving, completed[..c.seen], l.receiving)
    ensures ExplainsMetadata(Summarize(0, MergedSending(r, c.meta), MergedReceiving(r, c.meta)), completed + [c],
                             l.sending, l.receiving + [|completed|])
  {
    WriteExplainsCounters(r, completed, l, c);
    SendingStaysExplained(r.sending, completed, c.seen, l.sending, c);
  }

  lemma WriteExplainsMetadata(s: System, id: nat) returns (sent: seq<nat>, received: seq<nat>)
    requires id in s.pending && PendingExplained(s.pending[id], s.completed)
    ensures ExplainsMetadata(WriteBack(s, id).store.metadata, WriteBack(s, id).completed, sent, received)
  {
    var p := s.pending[id];
    var c := Completed(MetaFor(p.snapshot, id, p.body), p.seen);
    sent, received := p.lineage.sending, p.lineage.receiving;
    if c.meta.direction == Sending {
      MergeSendingIsExplained(p.snapshot, s.completed, p.lineage, c);
      sent := sent + [|s.completed|];
    } else {
      MergeReceivingIsExplained(p.snapshot, s.completed, p.lineage, c);
      received := received + [|s.completed|];
    }
  }

  lemma FreshMetadata(m: Summary, completed: seq<Completed>, line: seq<nat>)
    requires m == Summary(0, 0, 0, -1, -1, -1) && line == []
    ensures ExplainsMetadata(m, completed, line, line)
  {
    var none := MetasAt(completed, line);
    assert none == [] && Highest(none) == -1 && LastNumber(none) == -1;
  }

  /** A step that writes nothing keeps the metadata and the completed reports. */
  lemma OnlyWritesMatter(s: System, a: Action)
    requires !(a.Write? && a.reportId in s.pending)
    ensures Step(s, a).store == s.store && Step(s, a).completed == s.completed
  {
  }

  lemma {:induction false} MetadataIsExplained(sessionId: string, actions: seq<Action>)
    returns (sent: seq<nat>, received: seq<nat>)
    ensures var s := Run(sessionId, actions); ExplainsMetadata(s.store.metadata, s.completed, sent, received)
  {
    if actions == [] {
      sent, received := [], [];
      FreshMetadata(Run(sessionId, actions).store.metadata, [], sent);
      return;
    }
    var s, last := Run(sessionId, actions[..|actions| - 1]), actions[|actions| - 1];
    if last.Write? && last.reportId in s.pending {
      assert PendingExplained(s.pending[last.reportId], s.completed) by {
        RunKeepsInv(sessionId, actions[..|actions| - 1]);
      }
      sent, received := WriteExplainsMetadata(s, last.reportId);
    } else {
      sent, received := MetadataIsExplained(sessionId, actions[..|actions| - 1]);
      OnlyWritesMatter(s, last);
    }
  }

  lemma ReplayedSent(s: System, line: seq<nat>)
    requires Labelled(s, s.store.sessionId) && Chain(s.completed, line) && Towards(s.completed, line, Sending)
    ensures Replay(s, line).sending == SendingOf(MetasAt(s.completed, line))
  {
    SerialFields(s.store.sessionId, MetasAt(s.completed, line));
  }

  lemma ReplayedReceived(s: System, line: seq<nat>)
    requires Labelled(s, s.store.sessionId) && Chain(s.completed, line) && Towards(s.completed, line, Receiving)
    ensures Replay(s, line).receiving == ReceivingOf(MetasAt(s.completed, line))
  {
    SerialFields(s.store.sessionId, MetasAt(s.completed, line));
  }

  lemma ReplayedMetadata(s: System, sent: seq<nat>, received: seq<nat>)
    requires Labelled(s, s.store.sessionId) && ExplainsMetadata(s.store.metadata, s.completed, sent, received)
    ensures s.store.metadata == Summarize(0, Replay(s, sent).sending, Replay(s, received).receiving)
  {
    ReplayedSent(s, sent);
    ReplayedReceived(s, received);
  }

  /** The metadata summarizes the counters of two serial runs, of chains towards either direction. */
  ghost predicate MetadataIsSerial(s: System) {
    exists sent, received ::
      && Chain(s.completed, sent) && Towards(s.completed, sent, Sending)
      && Chain(s.completed, received) && Towards(s.completed, received, Receiving)
      && s.store.metadata == Summarize(0, Replay(s, sent).sending, Replay(s, received).receiving)
  }

  /**
   * Each field of the stored record is the field a serial run would have stored, for a serial run of
   * completed reports no two of which overlapped; the fields, and the two halves of the metadata, may
   * disagree about which reports those are.
   */
  lemma EachFieldIsSerial(sessionId: string, actions: seq<Action>)
    ensures var s := Run(sessionId, actions);
            && s.store.sessionId == sessionId && s.store.generation == 0
            && Chain(s.completed, s.lineage.messages)
            && Chain(s.completed, s.lineage.sending) && Towards(s.completed, s.lineage.sending, Sending)
            && Chain(s.completed, s.lineage.receiving) && Towards(s.completed, s.lineage.receiving, Receiving)
            && s.store.messages == Replay(s, s.lineage.messages).messages
            && s.store.audit == Replay(s, s.lineage.messages).audit
            && s.store.sending == Replay(s, s.lineage.sending).sending
            && s.store.receiving == Replay(s, s.lineage.receiving).receiving
            && MetadataIsSerial(s)
  {
    RunKeepsInv(sessionId, actions);
    RunKeepsLabels(sessionId, actions);
    ReplayedWindows(Run(sessionId, actions));
    ReplayedSending(Run(sessionId, actions));
    ReplayedReceiving(Run(sessionId, actions));
    var sent, received := MetadataIsExplained(sessionId, actions);
    ReplayedMetadata(Run(sessionId, actions), sent, received);
  }

  /** The last received number never exceeds the highest, which is -1 or some completed report's number. */
  lemma NumbersAreReported(sessionId: string, actions: seq<Action>)
    ensures var s := Run(sessionId, actions);
            && s.store.receiving.lastNumber <= s.store.receiving.highestNumber
            && -1 <= s.store.receiving.highestNumber
            && (s.store.receiving.highestNumber == -1
                || exists i :: 0 <= i < |s.completed| && s.completed[i].meta.direction == Receiving
                               && s.completed[i].meta.messageNumber == s.store.receiving.highestNumber)
  {
    RunKeepsInv(sessionId, actions);
    var s := Run(sessionId, actions);
    var ms := MetasAt(s.completed, s.lineage.receiving);
    HighestIsMaximum(ms);
    if s.store.receiving.highestNumber != -1 {
      var m :| m in ms && m.messageNumber == Highest(ms);
      var k :| 0 <= k < |ms| && ms[k] == m;
      assert s.completed[s.lineage.receiving[k]].meta == m;
    }
  }

  // ----- what is lost -------------------------------------------------------------------------------

  function Line(l: Lineage, d: Direction): seq<nat> {
    match d
    case Sending => l.sending
    case Receiving => l.receiving
  }

  /** The completed reports in one direction. */
  function ReportsIn(completed: seq<Completed>, d: Direction): set<nat> {
    set i: nat | i < |completed| && completed[i].meta.direction == d
  }

  /** No two of these reports were ever in flight together. */
  ghost predicate NoOverlap(completed: seq<Completed>, d: Direction) {
    forall i: nat, j: nat :: i < j && i in ReportsIn(completed, d) && j in ReportsIn(completed, d) ==>
      i < completed[j].seen
  }

  ghost predicate Remembered(completed: seq<Completed>, l: Lineage, d: Direction) {
    NoOverlap(completed, d) ==> forall i :: i in ReportsIn(completed, d) ==> i in Line(l, d)
  }

  ghost predicate AllRemembered(s: System, d: Direction) {
    && Remembered(s.completed, s.lineage, d)
    && (forall id :: id in s.pending ==>
          s.pending[id].seen <= |s.completed|
          && Remembered(s.completed[..s.pending[id].seen], s.pending[id].lineage, d))
  }

  lemma NoOverlapPrefix(completed: seq<Completed>, n: nat, d: Direction)
    requires n <= |completed| && NoOverlap(completed, d)
    ensures NoOverlap(completed[..n], d)
  {
    forall i: nat, j: nat | i < j && i in ReportsIn(completed[..n], d) && j in ReportsIn(completed[..n], d)
      ensures i < completed[..n][j].seen
    {
      assert i in ReportsIn(completed, d) && j in ReportsIn(completed, d);
    }
  }

  lemma ReportsInExtends(completed: seq<Completed>, c: Completed, d: Direction)
    ensures ReportsIn(completed + [c], d)
            == ReportsIn(completed, d) + if c.meta.direction == d then {|completed|} else {}
  {
  }

  lemma ReportsInPrefix(completed: seq<Completed>, n: nat, d: Direction, i: nat)
    requires n <= |completed| && i in ReportsIn(completed, d) && i < n
    ensures i in ReportsIn(completed[..n], d)
  {
  }

  lemma CoveredWriteRemembers(s: System, id: nat, d: Direction)
    requires AllRemembered(s, d) && id in s.pending && DirectionOf(s.pending[id].body) == d
    requires NoOverlap(WriteBack(s, id).completed, d)
    ensures forall i :: i in ReportsIn(s.completed, d) ==> i in Line(s.pending[id].lineage, d)
  {
    var p, all, here := s.pending[id], WriteBack(s, id).completed, |s.completed|;
    ReportsInExtends(s.completed, all[here], d);
    assert all == s.completed + [all[here]] && all[..p.seen] == s.completed[..p.seen];
    NoOverlapPrefix(all, p.seen, d);
    forall i | i in ReportsIn(s.completed, d)
      ensures i in Line(p.lineage, d)
    {
      assert i in ReportsIn(all, d) && here in ReportsIn(all, d);
      ReportsInPrefix(s.completed, p.seen, d, i);
    }
  }

  lemma OtherWriteRemembers(s: System, id: nat, d: Direction)
    requires AllRemembered(s, d) && id in s.pending && DirectionOf(s.pending[id].body) != d
    requires NoOverlap(WriteBack(s, id).completed, d)
    ensures forall i :: i in ReportsIn(s.completed, d) ==> i in Line(s.lineage, d)
  {
    var all, here := WriteBack(s, id).completed, |s.completed|;
    assert all[..here] == s.completed;
    NoOverlapPrefix(all, here, d);
  }

  lemma WriteRemembers(s: System, id: nat, d: Direction)
    requires AllRemembered(s, d) && id in s.pending
    ensures var s' := WriteBack(s, id); Remembered(s'.completed, s'.lineage, d)
  {
    var p, s' := s.pending[id], WriteBack(s, id);
    ReportsInExtends(s.completed, s'.completed[|s.completed|], d);
    if NoOverlap(s'.completed, d) {
      if DirectionOf(p.body) == d {
        CoveredWriteRemembers(s, id, d);
        assert Line(s'.lineage, d) == Line(p.lineage, d) + [|s.completed|];
      } else {
        OtherWriteRemembers(s, id, d);
        assert Line(s'.lineage, d) == Line(s.lineage, d);
      }
    }
  }

  lemma StepRemembers(s: System, a: Action, d: Direction)
    requires AllRemembered(s, d)
    ensures AllRemembered(Step(s, a), d)
  {
    match a
    case Take(id, body) =>
      assert s.completed[..|s.completed|] == s.completed;
    case Write(id) =>
      if id in s.pending {
        WriteRemembers(s, id, d);
        var s' := WriteBack(s, id);
        forall other | other in s'.pending
          ensures s'.completed[..s'.pending[other].seen] == s.completed[..s.pending[other].seen]
        {
        }
      }
  }

  lemma {:induction false} RunRemembers(sessionId: string, actions: seq<Action>, d: Direction)
    ensures AllRemembered(Run(sessionId, actions), d)
  {
    if actions != [] {
      RunRemembers(sessionId, actions[..|actions| - 1], d);
      StepRemembers(Run(sessionId, actions[..|actions| - 1]), actions[|actions| - 1], d);
    }
  }

  lemma SubsetOfSameSize<T>(a: set<T>, b: set<T>)
    requires a <= b
    ensures |a| <= |b| && (|a| == |b| ==> a == b)
  {
    assert b == a + (b - a);
  }

  lemma FullChainMeansNoOverlap(completed: seq<Completed>, line: seq<nat>, d: Direction)
    requires forall i :: 0 <= i < |completed| ==> completed[i].seen <= i
    requires Chain(completed, line) && Elements(line) == ReportsIn(completed, d)
    ensures NoOverlap(completed, d)
  {
    assert forall x, y :: 0 <= x < y < |line| ==> line[x] < completed[line[y]].seen <= line[y];
    forall i: nat, j: nat | i < j && i in ReportsIn(completed, d) && j in ReportsIn(completed, d)
      ensures i < completed[j].seen
    {
      assert i in Elements(line) && j in Elements(line);
      var a :| 0 <= a < |line| && line[a] == i;
      var b :| 0 <= b < |line| && line[b] == j;
    }
  }

  /** A direction's chain is as long as its completed reports exactly when no two of them overlapped. */
  lemma ChainCoversDirection(completed: seq<Completed>, l: Lineage, d: Direction)
    requires forall i :: 0 <= i < |completed| ==> completed[i].seen <= i
    requires Chain(completed, Line(l, d)) && Remembered(completed, l, d)
    requires forall k :: 0 <= k < |Line(l, d)| ==> Line(l, d)[k] in ReportsIn(completed, d)
    ensures |Line(l, d)| <= |ReportsIn(completed, d)|
    ensures |Line(l, d)| == |ReportsIn(completed, d)| <==> NoOverlap(completed, d)
  {
    var line := Line(l, d);
    var listed := Elements(line);
    assert Distinct(line) by {
      assert forall a, b :: 0 <= a < b < |line| ==> line[a] < completed[line[b]].seen <= line[b];
    }
    DistinctCardinality(line);
    SubsetOfSameSize(listed, ReportsIn(completed, d));
    assert |listed| == |line|;
    if NoOverlap(completed, d) {
      assert ReportsIn(completed, d) == listed;
    } else if listed == ReportsIn(completed, d) {
      FullChainMeansNoOverlap(completed, line, d);
    }
  }

  /**
   * A direction's count never exceeds the completed reports in that direction, and equals it exactly when
   * no two of them overlapped: every overlap loses at least one update.
   */
  lemma CountsLoseExactlyOverlaps(sessionId: string, actions: seq<Action>)
    ensures var s := Run(sessionId, actions);
            && s.store.sending.count <= |ReportsIn(s.completed, Sending)|
            && s.store.receiving.count <= |ReportsIn(s.completed, Receiving)|
            && (s.store.sending.count == |ReportsIn(s.completed, Sending)|
                <==> NoOverlap(s.completed, Sending))
            && (s.store.receiving.count == |ReportsIn(s.completed, Receiving)|
                <==> NoOverlap(s.completed, Receiving))
  {
    var s := Run(sessionId, actions);
    RunKeepsInv(sessionId, actions);
    RunRemembers(sessionId, actions, Sending);
    RunRemembers(sessionId, actions, Receiving);
    ChainCoversDirection(s.completed, s.lineage, Sending);
    ChainCoversDirection(s.completed, s.lineage, Receiving);
  }

  function AllMetas(completed: seq<Completed>): seq<Meta> {
    Map((c: Completed) => c.meta, completed)
  }

  /** Snapshots are taken before writes. */
  ghost predicate Ordered(completed: seq<Completed>) {
    forall i :: 0 <= i < |completed| ==> completed[i].seen <= i
  }

  /** The n-th report to write, after the one whose write its snapshot saw last, and so on back to the start. */
  ghost function LineOf(completed: seq<Completed>, n: nat): (line: seq<nat>)
    requires n <= |completed| && Ordered(completed)
    ensures |line| <= n && forall k :: 0 <= k < |line| ==> line[k] < n
    ensures n > 0 ==> line != [] && line[|line| - 1] == n - 1
  {
    if n == 0 then [] else LineOf(completed, completed[n - 1].seen) + [n - 1]
  }

  lemma {:induction false} LineOfAppend(completed: seq<Completed>, c: Completed, n: nat)
    requires n <= |completed| && Ordered(completed) && c.seen <= |completed|
    ensures LineOf(completed + [c], n) == LineOf(completed, n)
    decreases n
  {
    if n > 0 {
      LineOfAppend(completed, c, completed[n - 1].seen);
    }
  }

  /** This lineage of the log is found by following snapshots back from the n-th write. */
  ghost predicate FollowsFrom(completed: seq<Completed>, line: seq<nat>, n: nat) {
    Ordered(completed) && n <= |completed| && line == LineOf(completed, n)
  }

  ghost predicate FollowsBack(s: System) {
    && FollowsFrom(s.completed, s.lineage.messages, |s.completed|)
    && (forall id :: id in s.pending ==> FollowsFrom(s.completed, s.pending[id].lineage.messages, s.pending[id].seen))
  }

  lemma FollowsFromAppend(completed: seq<Completed>, line: seq<nat>, n: nat, c: Completed)
    requires FollowsFrom(completed, line, n) && c.seen <= |completed|
    ensures FollowsFrom(completed + [c], line, n)
  {
    LineOfAppend(completed, c, n);
  }

  lemma WriteFollowsBack(s: System, id: nat)
    requires FollowsBack(s) && id in s.pending
    ensures FollowsBack(WriteBack(s, id))
  {
    var p, s' := s.pending[id], WriteBack(s, id);
    var c := s'.completed[|s.completed|];
    assert FollowsFrom(s'.completed, s'.lineage.messages, |s'.completed|) by {
      FollowsFromAppend(s.completed, p.lineage.messages, p.seen, c);
    }
    forall other | other in s'.pending
      ensures FollowsFrom(s'.completed, s'.pending[other].lineage.messages, s'.pending[other].seen)
    {
      FollowsFromAppend(s.completed, s.pending[other].lineage.messages, s.pending[other].seen, c);
    }
  }

  lemma {:induction false} RunFollowsBack(sessionId: string, actions: seq<Action>)
    ensures FollowsBack(Run(sessionId, actions))
  {
    if actions != [] {
      var s, a := Run(sessionId, actions[..|actions| - 1]), actions[|actions| - 1];
      RunFollowsBack(sessionId, actions[..|actions| - 1]);
      if a.Write? && a.reportId in s.pending {
        WriteFollowsBack(s, a.reportId);
      }
    }
  }

  /** Each report of a line had seen exactly the writes up to the report before it. */
  lemma {:induction false} LineLinks(completed: seq<Completed>, n: nat, k: nat)
    requires n <= |completed| && Ordered(completed) && k < |LineOf(completed, n)|
    ensures var line := LineOf(completed, n);
            completed[line[k]].seen == if k == 0 then 0 else line[k - 1] + 1
    decreases n
  {
    var seen := completed[n - 1].seen;
    if k < |LineOf(completed, seen)| {
      LineLinks(completed, seen, k);
    }
  }

  /** No two of the last `k` reports to write were ever in flight together. */
  ghost predicate LastApart(completed: seq<Completed>, k: nat) {
    forall i: nat, j: nat :: i < j && InLast(completed, k, i) && InLast(completed, k, j) ==> i < completed[j].seen
  }

  predicate InLast(completed: seq<Completed>, k: nat, i: nat) {
    |completed| - k <= i < |completed|
  }

  lemma ApartAreAdjacent(completed: seq<Completed>, k: nat)
    requires Ordered(completed)
    ensures LastApart(completed, k)
            <==> forall j: nat :: 0 < j && InLast(completed, k, j) && InLast(completed, k, j - 1) ==> completed[j].seen == j
  {
    forall j: nat | LastApart(completed, k) && 0 < j && InLast(completed, k, j) && InLast(completed, k, j - 1)
      ensures completed[j].seen == j
    {
      assert j - 1 < completed[j].seen;
    }
    if forall j: nat :: 0 < j && InLast(completed, k, j) && InLast(completed, k, j - 1) ==> completed[j].seen == j {
      forall i: nat, j: nat | i < j && InLast(completed, k, i) && InLast(completed, k, j)
        ensures i < completed[j].seen
      {
        assert InLast(completed, k, j - 1);
      }
    }
  }

  /** The t-th place from the end of the line holds the t-th report from the end. */
  ghost predicate InPlace(line: seq<nat>, n: nat, t: nat) {
    t < |line| && t < n && line[|line| - 1 - t] == n - 1 - t
  }

  lemma {:induction false} ApartInPlace(completed: seq<Completed>, k: nat, t: nat)
    requires Ordered(completed) && LastApart(completed, k) && t < k && t < |completed|
    ensures InPlace(LineOf(completed, |completed|), |completed|, t)
  {
    var n, line := |completed|, LineOf(completed, |completed|);
    if t > 0 {
      ApartInPlace(completed, k, t - 1);
      ApartAreAdjacent(completed, k);
      assert InLast(completed, k, n - t) && InLast(completed, k, n - t - 1);
      LineLinks(completed, n, |line| - t);
    }
  }

  lemma InPlaceApart(completed: seq<Completed>, k: nat)
    requires Ordered(completed)
    requires forall t: nat :: t < k && t < |completed| ==> InPlace(LineOf(completed, |completed|), |completed|, t)
    ensures LastApart(completed, k)
  {
    var n, line := |completed|, LineOf(completed, |completed|);
    forall j: nat | 0 < j && InLast(completed, k, j) && InLast(completed, k, j - 1)
      ensures completed[j].seen == j
    {
      assert InPlace(line, n, n - 1 - j) && InPlace(line, n, n - j);
      LineLinks(completed, n, |line| - 1 - (n - 1 - j));
    }
    ApartAreAdjacent(completed, k);
  }

  ghost predicate DifferentIds(completed: seq<Completed>) {
    forall i, j :: 0 <= i < j < |completed| ==> completed[i].meta.reportId != completed[j].meta.reportId
  }

  lemma ShownInPlace(completed: seq<Completed>, line: seq<nat>, k: nat, t: nat)
    requires DifferentIds(completed) && forall i :: 0 <= i < |line| ==> line[i] < |completed|
    requires LastN(MetasAt(completed, line), k) == LastN(AllMetas(completed), k)
    requires t < k && t < |completed|
    ensures InPlace(line, |completed|, t)
  {
    SameWindowSameEnd(MetasAt(completed, line), AllMetas(completed), k, t);
    assert completed[line[|line| - 1 - t]].meta == completed[|completed| - 1 - t].meta;
  }

  lemma InPlaceShown(completed: seq<Completed>, line: seq<nat>, k: nat)
    requires |line| <= |completed| && forall i :: 0 <= i < |line| ==> line[i] < |completed|
    requires forall t: nat :: t < k && t < |completed| ==> InPlace(line, |completed|, t)
    ensures LastN(MetasAt(completed, line), k) == LastN(AllMetas(completed), k)
  {
    var a, b := MetasAt(completed, line), AllMetas(completed);
    forall t: nat | t < k && t < |completed|
      ensures SameFromEnd(a, b, t)
    {
      assert InPlace(line, |completed|, t);
    }
    LastNSameEnd(a, b, k);
  }

  /**
   * In every interleaving the message log is the last 500 reports to write exactly when no two of those were
   * ever in flight together; what happened before them does not matter.
   */
  lemma MessagesLoseExactlyOverlaps(sessionId: string, actions: seq<Action>)
    ensures var s := Run(sessionId, actions);
            s.store.messages == LastN(AllMetas(s.completed), WINDOW) <==> LastApart(s.completed, WINDOW)
  {
    var s := Run(sessionId, actions);
    RunKeepsInv(sessionId, actions);
    RunFollowsBack(sessionId, actions);
    var line, n := s.lineage.messages, |s.completed|;
    if LastApart(s.completed, WINDOW) {
      forall t: nat | t < WINDOW && t < n
        ensures InPlace(line, n, t)
      {
        ApartInPlace(s.completed, WINDOW, t);
      }
      InPlaceShown(s.completed, line, WINDOW);
    } else if s.store.messages == LastN(AllMetas(s.completed), WINDOW) {
      forall t: nat | t < WINDOW && t < n
        ensures InPlace(line, n, t)
      {
        ShownInPlace(s.completed, line, WINDOW, t);
      }
      InPlaceApart(s.completed, WINDOW);
    }
  }

  /** No completed receiving report carried a number above the stored highest. */
  ghost predicate HighestCoversAll(s: System) {
    forall i :: i in ReportsIn(s.completed, Receiving) ==>
      s.completed[i].meta.messageNumber <= s.store.receiving.highestNumber
  }

  /** The same requests, interleaved in the same way, with other message numbers. */
  function Renumbered(actions: seq<Action>, numbers: nat -> int): seq<Action> {
    Map((a: Action) => RenumberedAction(a, numbers), actions)
  }

  function RenumberedAction(a: Action, numbers: nat -> int): Action {
    if a.Take? then a.(body := a.body.(messageNumber := numbers(a.reportId))) else a
  }

  function RenumberedReport(c: Completed, numbers: nat -> int): Completed {
    c.(meta := c.meta.(messageNumber := numbers(c.meta.reportId)))
  }

  ghost predicate RenumberedPending(p: Pending, id: nat, p': Pending, numbers: nat -> int) {
    && p'.body == p.body.(messageNumber := numbers(id))
    && p'.seen == p.seen && p'.lineage == p.lineage
    && p'.snapshot.sessionId == p.snapshot.sessionId && p'.snapshot.generation == p.snapshot.generation
  }

  /** The two systems differ in nothing but numbers. */
  ghost predicate SameShape(s: System, s': System, numbers: nat -> int) {
    && s'.completed == Map((c: Completed) => RenumberedReport(c, numbers), s.completed)
    && s'.lineage == s.lineage
    && s'.store.sessionId == s.store.sessionId && s'.store.generation == s.store.generation
    && s'.pending.Keys == s.pending.Keys
    && (forall id :: id in s.pending ==> RenumberedPending(s.pending[id], id, s'.pending[id], numbers))
  }

  lemma WriteKeepsShape(s: System, s': System, numbers: nat -> int, id: nat)
    requires SameShape(s, s', numbers) && id in s.pending
    ensures SameShape(WriteBack(s, id), WriteBack(s', id), numbers)
  {
    var t, t' := WriteBack(s, id), WriteBack(s', id);
    var n := |s.completed|;
    assert t'.completed[n] == RenumberedReport(t.completed[n], numbers);
  }

  lemma StepKeepsShape(s: System, s': System, numbers: nat -> int, a: Action)
    requires SameShape(s, s', numbers)
    ensures SameShape(Step(s, a), Step(s', RenumberedAction(a, numbers)), numbers)
  {
    match a
    case Take(id, body) =>
      assert Used(s, id) <==> Used(s', id) by {
        assert forall i :: 0 <= i < |s.completed| ==> s'.completed[i].meta.reportId == s.completed[i].meta.reportId;
      }
    case Write(id) =>
      if id in s.pending {
        WriteKeepsShape(s, s', numbers, id);
      }
  }

  lemma {:induction false} RunKeepsShape(sessionId: string, actions: seq<Action>, numbers: nat -> int)
    ensures SameShape(Run(sessionId, actions), Run(sessionId, Renumbered(actions, numbers)), numbers)
  {
    if actions == [] {
      assert Renumbered(actions, numbers) == [];
    } else {
      var front, last := actions[..|actions| - 1], actions[|actions| - 1];
      RunKeepsShape(sessionId, front, numbers);
      StepKeepsShape(Run(sessionId, front), Run(sessionId, Renumbered(front, numbers)), numbers, last);
      assert Renumbered(actions, numbers)[..|actions| - 1] == Renumbered(front, numbers);
    }
  }

  lemma HighestCoversWithoutOverlap(sessionId: string, actions: seq<Action>)
    requires NoOverlap(Run(sessionId, actions).completed, Receiving)
    ensures HighestCoversAll(Run(sessionId, actions))
  {
    var s := Run(sessionId, actions);
    RunKeepsInv(sessionId, actions);
    RunRemembers(sessionId, actions, Receiving);
    var ms := MetasAt(s.completed, s.lineage.receiving);
    HighestIsMaximum(ms);
    forall i | i in ReportsIn(s.completed, Receiving)
      ensures s.completed[i].meta in ms
    {
      var k :| 0 <= k < |s.lineage.receiving| && s.lineage.receiving[k] == i;
      assert ms[k] == s.completed[i].meta;
    }
  }

  lemma ShapeKeepsOverlap(completed: seq<Completed>, numbers: nat -> int, d: Direction)
    ensures var completed' := Map((c: Completed) => RenumberedReport(c, numbers), completed);
            ReportsIn(completed', d) == ReportsIn(completed, d)
            && (NoOverlap(completed', d) <==> NoOverlap(completed, d))
  {
  }

  /** An overlap leaves out some receiving report of the run. */
  lemma OverlapForgetsOne(sessionId: string, actions: seq<Action>) returns (r: nat)
    requires !NoOverlap(Run(sessionId, actions).completed, Receiving)
    ensures var s := Run(sessionId, actions);
            r in ReportsIn(s.completed, Receiving) && r !in s.lineage.receiving
  {
    var s := Run(sessionId, actions);
    RunKeepsInv(sessionId, actions);
    if Elements(s.lineage.receiving) == ReportsIn(s.completed, Receiving) {
      FullChainMeansNoOverlap(s.completed, s.lineage.receiving, Receiving);
    }
    r :| r in ReportsIn(s.completed, Receiving) && r !in s.lineage.receiving;
  }

  lemma HighestBelow(ms: seq<Meta>, bound: int)
    requires -1 <= bound && forall m :: m in ms ==> m.messageNumber <= bound
    ensures Highest(ms) <= bound
  {
    HighestIsMaximum(ms);
  }

  /** With the forgotten report numbered 1 and the others 0, the stored highest is below 1. */
  lemma ForgottenIsHighest(sessionId: string, actions: seq<Action>, r: nat)
    requires var s := Run(sessionId, actions);
             r in ReportsIn(s.completed, Receiving) && r !in s.lineage.receiving
    ensures var forgotten := Run(sessionId, actions).completed[r].meta.reportId;
            !HighestCoversAll(Run(sessionId, Renumbered(actions, (id: nat) => if id == forgotten then 1 else 0)))
  {
    var s := Run(sessionId, actions);
    var forgotten := s.completed[r].meta.reportId;
    var numbers := (id: nat) => if id == forgotten then 1 else 0;
    var s' := Run(sessionId, Renumbered(actions, numbers));
    RunKeepsInv(sessionId, actions);
    RunKeepsInv(sessionId, Renumbered(actions, numbers));
    RunKeepsShape(sessionId, actions, numbers);
    ShapeKeepsOverlap(s.completed, numbers, Receiving);
    var line := s.lineage.receiving;
    var ms := MetasAt(s'.completed, line);
    forall k | 0 <= k < |ms|
      ensures ms[k].messageNumber <= 0
    {
      assert ms[k] == RenumberedReport(s.completed[line[k]], numbers).meta && line[k] != r;
    }
    HighestBelow(ms, 0);
    assert s'.completed[r].meta.messageNumber == 1;
  }

  /**
   * For one way of interleaving, the stored highest number is right whatever the message numbers are exactly
   * when no two receiving reports overlapped.
   */
  lemma HighestIsRightExactlyWhen(sessionId: string, actions: seq<Action>)
    ensures (forall numbers: nat -> int :: HighestCoversAll(Run(sessionId, Renumbered(actions, numbers))))
            <==> NoOverlap(Run(sessionId, actions).completed, Receiving)
  {
    var s := Run(sessionId, actions);
    if NoOverlap(s.completed, Receiving) {
      forall numbers: nat -> int
        ensures HighestCoversAll(Run(sessionId, Renumbered(actions, numbers)))
      {
        RunKeepsShape(sessionId, actions, numbers);
        ShapeKeepsOverlap(s.completed, numbers, Receiving);
        HighestCoversWithoutOverlap(sessionId, Renumbered(actions, numbers));
      }
    } else {
      var r := OverlapForgetsOne(sessionId, actions);
      ForgottenIsHighest(sessionId, actions, r);
    }
  }

  /**
   * After a write, the metadata block agrees with the counters exactly when the other direction's
   * counters had not changed between the report's snapshot and its write.
   */
  lemma MetadataDrifts(sessionId: string, actions: seq<Action>, reportId: nat)
    requires reportId in Run(sessionId, actions).pending
    ensures var s := Run(sessionId, actions);
            var p := s.pending[reportId];
            MetadataAgrees(WriteBack(s, reportId).store)
            <==> if DirectionOf(p.body) == Sending then p.snapshot.receiving == s.store.receiving
                 else p.snapshot.sending == s.store.sending
  {
    RunKeepsInv(sessionId, actions);
  }

  /** Two overlapping receive reports: one is not counted, and the highest number falls back from 9 to 4. */
  lemma OverlapExample()
    ensures var nine := Body(Some("receiving"), None, 9, None, None, None);
            var four := nine.(messageNumber := 4);
            var before := Run("s", [Take(0, nine), Take(1, four), Write(0)]);
            var after := Run("s", [Take(0, nine), Take(1, four), Write(0), Write(1)]);
            && before.store.receiving == ReceivingCounters(1, 9, 9)
            && |after.completed| == 2 && after.store.receiving == ReceivingCounters(1, 4, 4)
  {
    var nine := Body(Some("receiving"), None, 9, None, None, None);
    var four := nine.(messageNumber := 4);
    var s0 := Start("s");
    var s1 := TakeSnapshot(s0, 0, nine);
    var s2 := TakeSnapshot(s1, 1, four);
    var all := [Take(0, nine), Take(1, four), Write(0), Write(1)];
    assert all[..1][..0] == [];
    assert Run("s", all[..1]) == s1;
    assert all[..2][..1] == all[..1];
    assert Run("s", all[..2]) == s2;
    assert all[..3][..2] == all[..2] && all[..3] == [Take(0, nine), Take(1, four), Write(0)];
    assert Run("s", all[..3]) == WriteBack(s2, 0);
    assert all[..4] == all;
    assert Run("s", all) == WriteBack(WriteBack(s2, 0), 1);
  }
}
