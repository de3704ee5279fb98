/**
 * Group receipts (server/group-receipts): a message's receipt is kept as counters that move by a constant
 * amount per report, so that reading it never scans the members.
 *
 * The aggregate is proved equal to the scan it replaces, over every run of delivery and read reports from
 * any devices. What the blue tick says of the members is then decided exactly.
 */
module GroupReceipts {
  import opened Sequences

  datatype Status = Pending | Sent | Delivered | Expired | Failed

  datatype Policy = Policy(excludeSender: bool, readReceiptsEnabled: bool, requireAllDelivered: bool,
                           requireAllRead: bool)

  datatype Tick = Single | GreyDouble | BlueDouble

  datatype Device = Device(status: Status, read: bool, retries: nat)

  /** One member's receipt for one message, over all of the member's devices. */
  datatype Receipt = Receipt(devices: map<string, Device>, delivered: bool, read: bool,
                             firstDeliveredAt: Option<int>, firstReadAt: Option<int>,
                             deliveryLatencyMs: int, readLatencyMs: int)

  datatype Aggregate = Aggregate(members: seq<string>, readApplicableCount: nat, deliveredCount: nat, readCount: nat,
                                 failedCount: nat, deliveryLatencySumMs: int, readLatencySumMs: int,
                                 fullyDeliveredAt: Option<int>, fullyReadAt: Option<int>, tick: Tick,
                                 policy: Policy, sentAt: int)

  function Min(x: nat, y: nat): nat {
    if x < y then x else y
  }

  function NonNegative(x: int): int {
    if x < 0 then 0 else x
  }

  function Rank(s: Status): nat {
    match s
    case Pending => 0
    case Failed => 1
    case Expired => 1
    case Sent => 2
    case Delivered => 3
  }

  // ----- registration -------------------------------------------------------------------------------

  /** The members a message is delivered to, repetitions included. */
  function Kept(members: seq<string>, sender: string, excluded: set<string>, p: Policy): seq<string> {
    if members == [] then []
    else
      var rest, last := Kept(members[..|members| - 1], sender, excluded, p), members[|members| - 1];
      if (p.excludeSender && last == sender) || last in excluded then rest else rest + [last]
  }

  /** How many of these members' reads count, repetitions included. */
  function Allowed(members: seq<string>, readExcluded: set<string>): nat {
    if members == [] then 0
    else Allowed(members[..|members| - 1], readExcluded) + if members[|members| - 1] in readExcluded then 0 else 1
  }

  /** Each member once, in order of first appearance. */
  function Unique(members: seq<string>): seq<string> {
    if members == [] then []
    else
      var rest, last := Unique(members[..|members| - 1]), members[|members| - 1];
      if last in rest then rest else rest + [last]
  }

  datatype Reason = SenderItself | BusinessRule | ReadReceiptsOff

  datatype Exclusion = Exclusion(member: string, reason: Reason)

  /** The members left out of delivery, and why. */
  function Dropped(members: seq<string>, sender: string, excluded: set<string>, p: Policy): seq<Exclusion> {
    if members == [] then []
    else
      var rest, last := Dropped(members[..|members| - 1], sender, excluded, p), members[|members| - 1];
      if p.excludeSender && last == sender then rest + [Exclusion(last, SenderItself)]
      else if last in excluded then rest + [Exclusion(last, BusinessRule)]
      else rest
  }

  /** Of the members kept, those whose reads do not count. */
  function ReadDropped(members: seq<string>, readExcluded: set<string>): seq<Exclusion> {
    if members == [] then []
    else
      var rest, last := ReadDropped(members[..|members| - 1], readExcluded), members[|members| - 1];
      if last in readExcluded then rest + [Exclusion(last, ReadReceiptsOff)] else rest
  }

  /** Everyone is delivered to or left out, and every delivery's reads count or are left out. */
  lemma {:induction false} NobodyIsForgotten(members: seq<string>, sender: string, excluded: set<string>,
                                             readExcluded: set<string>, p: Policy)
    ensures |Kept(members, sender, excluded, p)| + |Dropped(members, sender, excluded, p)| == |members|
    ensures Allowed(members, readExcluded) + |ReadDropped(members, readExcluded)| == |members|
  {
    if members != [] {
      NobodyIsForgotten(members[..|members| - 1], sender, excluded, readExcluded, p);
    }
  }

  /** A message is delivered to this member. */
  predicate IsAddressed(m: string, sender: string, excluded: set<string>, p: Policy) {
    !(p.excludeSender && m == sender) && m !in excluded
  }

  /** The members kept are the addressed ones, in their order. */
  lemma {:induction false} KeptKeeps(members: seq<string>, sender: string, excluded: set<string>, p: Policy)
    ensures Keeps(members, Kept(members, sender, excluded, p),
                  set i: nat | i < |members| && IsAddressed(members[i], sender, excluded, p))
  {
    var at := set i: nat | i < |members| && IsAddressed(members[i], sender, excluded, p);
    if members == [] {
      KeepsNothing(members, at);
    } else {
      var front := members[..|members| - 1];
      KeptKeeps(front, sender, excluded, p);
      assert at - {|front|} == set i: nat | i < |front| && IsAddressed(front[i], sender, excluded, p);
      KeepsLast(members, Kept(front, sender, excluded, p), at);
    }
  }

  /** Deduplicating keeps the first appearances. */
  lemma {:induction false} UniqueKeepsFirst(members: seq<string>)
    ensures Keeps(members, Unique(members), set i: nat | i < |members| && members[i] !in members[..i])
  {
    var at := set i: nat | i < |members| && members[i] !in members[..i];
    if members == [] {
      KeepsNothing(members, at);
    } else {
      var front := members[..|members| - 1];
      UniqueKeepsFirst(front);
      UniqueMembers(front, {});
      assert forall i: nat :: i < |front| ==> front[..i] == members[..i];
      assert at - {|front|} == set i: nat | i < |front| && front[i] !in front[..i];
      KeepsLast(members, Unique(front), at);
    }
  }

  /** The reads counted are those of the addressed members not excluded from reading, repetitions included. */
  lemma {:induction false} AllowedOfKept(members: seq<string>, sender: string, excluded: set<string>, p: Policy,
                                         readExcluded: set<string>)
    ensures Allowed(Kept(members, sender, excluded, p), readExcluded)
            == |set i: nat | i < |members| && IsAddressed(members[i], sender, excluded, p)
                             && members[i] !in readExcluded|
  {
    var at := set i: nat | i < |members| && IsAddressed(members[i], sender, excluded, p) && members[i] !in readExcluded;
    if members != [] {
      var front, last := members[..|members| - 1], members[|members| - 1];
      AllowedOfKept(front, sender, excluded, p, readExcluded);
      var before := set i: nat | i < |front| && IsAddressed(front[i], sender, excluded, p)
                                 && front[i] !in readExcluded;
      assert at == before + if IsAddressed(last, sender, excluded, p) && last !in readExcluded then {|front|} else {};
      var rest := Kept(front, sender, excluded, p);
      assert (rest + [last])[..|rest|] == rest;
    }
  }

  lemma ApplicableMembers(members: seq<string>, sender: string, excluded: set<string>, p: Policy,
                          readExcluded: set<string>)
    ensures var kept := Kept(members, sender, excluded, p);
            && Distinct(Unique(kept))
            && (forall m :: m in Unique(kept) <==> m in members && IsAddressed(m, sender, excluded, p))
            && Allowed(kept, readExcluded)
               == |set i: nat | i < |members| && IsAddressed(members[i], sender, excluded, p)
                                && members[i] !in readExcluded|
  {
    var kept := Kept(members, sender, excluded, p);
    KeptKeeps(members, sender, excluded, p);
    KeepsValues(members, kept, set i: nat | i < |members| && IsAddressed(members[i], sender, excluded, p));
    UniqueMembers(kept, readExcluded);
    AllowedOfKept(members, sender, excluded, p, readExcluded);
  }

  function Names(exclusions: seq<Exclusion>): seq<string> {
    Map((e: Exclusion) => e.member, exclusions)
  }

  lemma {:induction false} DroppedReasons(members: seq<string>, sender: string, excluded: set<string>, p: Policy)
    ensures forall e :: e in Dropped(members, sender, excluded, p) ==>
      e.reason == if p.excludeSender && e.member == sender then SenderItself else BusinessRule
  {
    if members != [] {
      DroppedReasons(members[..|members| - 1], sender, excluded, p);
    }
  }

  lemma DroppedNames(members: seq<string>, sender: string, excluded: set<string>, p: Policy)
    requires members != []
    ensures var front, last := members[..|members| - 1], members[|members| - 1];
            Names(Dropped(members, sender, excluded, p))
            == Names(Dropped(front, sender, excluded, p)) + if IsAddressed(last, sender, excluded, p) then [] else [last]
  {
  }

  /** Whoever is left out of delivery is listed in order, the sender as such and the others by the business rule. */
  lemma {:induction false} DroppedKeeps(members: seq<string>, sender: string, excluded: set<string>, p: Policy)
    ensures Keeps(members, Names(Dropped(members, sender, excluded, p)),
                  set i: nat | i < |members| && !IsAddressed(members[i], sender, excluded, p))
    ensures forall e :: e in Dropped(members, sender, excluded, p) ==>
      e.reason == if p.excludeSender && e.member == sender then SenderItself else BusinessRule
  {
    var at := set i: nat | i < |members| && !IsAddressed(members[i], sender, excluded, p);
    DroppedReasons(members, sender, excluded, p);
    if members == [] {
      KeepsNothing(members, at);
    } else {
      var front := members[..|members| - 1];
      DroppedKeeps(front, sender, excluded, p);
      DroppedNames(members, sender, excluded, p);
      assert at - {|front|} == set i: nat | i < |front| && !IsAddressed(front[i], sender, excluded, p);
      KeepsLast(members, Names(Dropped(front, sender, excluded, p)), at);
    }
  }

  /** Of the members delivered to, those whose reads do not count are listed in order, as such. */
  lemma {:induction false} ReadDroppedKeeps(members: seq<string>, readExcluded: set<string>)
    ensures Keeps(members, Names(ReadDropped(members, readExcluded)),
                  set i: nat | i < |members| && members[i] in readExcluded)
    ensures forall e :: e in ReadDropped(members, readExcluded) ==> e.reason == ReadReceiptsOff
  {
    var at := set i: nat | i < |members| && members[i] in readExcluded;
    var all := ReadDropped(members, readExcluded);
    if members == [] {
      KeepsNothing(members, at);
      assert Names(all) == [];
    } else {
      var front, last := members[..|members| - 1], members[|members| - 1];
      var rest := ReadDropped(front, readExcluded);
      ReadDroppedKeeps(front, readExcluded);
      assert at - {|front|} == set i: nat | i < |front| && front[i] in readExcluded;
      KeepsLast(members, Names(rest), at);
      assert all != rest ==> Names(all) == Names(rest) + [last];
    }
  }

  /** `readExcluded` holds the members whose reads are not counted, by list or by the privacy hook. */
  method BuildApplicableSet(members: seq<string>, sender: string, excluded: set<string>, readExcluded: set<string>,
                            p: Policy)
    returns (applicable: seq<string>, readApplicableCount: nat, exclusions: seq<Exclusion>)
    ensures applicable == Unique(Kept(members, sender, excluded, p))
    ensures readApplicableCount
            == if p.readReceiptsEnabled then Allowed(Kept(members, sender, excluded, p), readExcluded) else 0
    ensures exclusions
            == Dropped(members, sender, excluded, p) + ReadDropped(Kept(members, sender, excluded, p), readExcluded)
    ensures Distinct(applicable)
    ensures forall m :: m in applicable <==> m in members && IsAddressed(m, sender, excluded, p)
    ensures readApplicableCount
            == if !p.readReceiptsEnabled then 0
               else |set i: nat | i < |members| && IsAddressed(members[i], sender, excluded, p)
                                  && members[i] !in readExcluded|
  {
    var kept := [];
    exclusions := [];
    for i := 0 to |members|
      invariant kept == Kept(members[..i], sender, excluded, p)
      invariant exclusions == Dropped(members[..i], sender, excluded, p)
    {
      assert members[..i + 1][..i] == members[..i];
      if p.excludeSender && members[i] == sender {
        exclusions := exclusions + [Exclusion(members[i], SenderItself)];
        continue;
      }
      if members[i] in excluded {
        exclusions := exclusions + [Exclusion(members[i], BusinessRule)];
        continue;
      }
      kept := kept + [members[i]];
    }
    assert members[..|members|] == members;
    readApplicableCount := 0;
    applicable := [];
    ghost var dropped := exclusions;
    for i := 0 to |kept|
      invariant readApplicableCount == Allowed(kept[..i], readExcluded)
      invariant applicable == Unique(kept[..i])
      invariant exclusions == dropped + ReadDropped(kept[..i], readExcluded)
    {
      assert kept[..i + 1][..i] == kept[..i];
      if kept[i] in readExcluded {
        exclusions := exclusions + [Exclusion(kept[i], ReadReceiptsOff)];
      } else {
        readApplicableCount := readApplicableCount + 1;
      }
      if kept[i] !in applicable {
        applicable := applicable + [kept[i]];
      }
    }
    assert kept[..|kept|] == kept;
    ApplicableMembers(members, sender, excluded, p, readExcluded);
    if !p.readReceiptsEnabled {
      readApplicableCount := 0;
    }
  }

  lemma {:induction false} UniqueMembers(members: seq<string>, readExcluded: set<string>)
    ensures Distinct(Unique(members))
    ensures forall m :: m in Unique(members) <==> m in members
    ensures Allowed(Unique(members), readExcluded) <= Allowed(members, readExcluded)
    ensures |Unique(members)| <= |members|
  {
    if members != [] {
      var front, last := members[..|members| - 1], members[|members| - 1];
      UniqueMembers(front, readExcluded);
      assert members == front + [last];
      assert (Unique(front) + [last])[..|Unique(front)|] == Unique(front);
    }
  }

  // ----- one report ---------------------------------------------------------------------------------

  function ComputeTick(a: Aggregate): Tick {
    if |a.members| == 0 then Single
    else if (if a.policy.requireAllDelivered then a.deliveredCount < |a.members| else a.deliveredCount == 0) then Single
    else if !a.policy.readReceiptsEnabled || a.readApplicableCount == 0 then GreyDouble
    else if (if a.policy.requireAllRead then a.readCount < a.readApplicableCount else a.readCount == 0) then GreyDouble
    else BlueDouble
  }

  function NewAggregate(members: seq<string>, readApplicableCount: nat, p: Policy, sentAt: int): Aggregate {
    var a := Aggregate(members, readApplicableCount, 0, 0, 0, 0, 0, None, None, Single, p, sentAt);
    a.(tick := ComputeTick(a))
  }

  function NewReceipt(): Receipt {
    Receipt(map[], false, false, None, None, 0, 0)
  }

  function FirstAt(first: Option<int>, at: int): Option<int> {
    if first.Some? then first else Some(at)
  }

  /** One device's delivery report; the member is delivered once any device is. */
  function ApplyDelivery(r: Receipt, sentAt: int, device: string, status: Status, at: int): Receipt {
    var prev := if device in r.devices then r.devices[device] else Device(Pending, false, 0);
    var next := Device(if Rank(status) >= Rank(prev.status) then status else prev.status, prev.read,
                       if status == Failed then prev.retries + 1 else prev.retries);
    var devices := r.devices[device := next];
    var delivered := r.delivered || exists d :: d in devices && devices[d].status == Delivered;
    var first := if r.firstDeliveredAt.Some? then r.firstDeliveredAt else if delivered then Some(at) else None;
    r.(devices := devices, delivered := delivered, firstDeliveredAt := first,
       deliveryLatencyMs := if delivered && !r.delivered then NonNegative(first.value - sentAt) else r.deliveryLatencyMs)
  }

  /** One device's read report; reading implies delivery, and only the first read of a member counts. */
  function ApplyRead(r: Receipt, sentAt: int, device: string, at: int): Receipt {
    var prev := if device in r.devices then r.devices[device] else Device(Pending, false, 0);
    var firstDelivered, firstRead := FirstAt(r.firstDeliveredAt, at), FirstAt(r.firstReadAt, at);
    Receipt(r.devices[device := prev.(status := Delivered, read := true)], true, true, firstDelivered, firstRead,
            if !r.delivered then NonNegative(firstDelivered.value - sentAt) else r.deliveryLatencyMs,
            if !r.read then NonNegative(firstRead.value - firstDelivered.value) else r.readLatencyMs)
  }

  function ApplyDeliveryDelta(a: Aggregate, latencyMs: int, at: int): Aggregate {
    var count := Min(|a.members|, a.deliveredCount + 1);
    var next := a.(deliveredCount := count, deliveryLatencySumMs := a.deliveryLatencySumMs + latencyMs,
                   fullyDeliveredAt := if a.fullyDeliveredAt.Some? || !(count >= |a.members| > 0)
                                       then a.fullyDeliveredAt else Some(at));
    next.(tick := ComputeTick(next))
  }

  function ApplyReadDelta(a: Aggregate, becameDelivered: bool, deliveryLatencyMs: int, readLatencyMs: int, at: int)
    : Aggregate
  {
    var a' := if becameDelivered then ApplyDeliveryDelta(a, deliveryLatencyMs, at) else a;
    var count := Min(a'.readApplicableCount, a'.readCount + 1);
    var next := a'.(readCount := count, readLatencySumMs := a'.readLatencySumMs + readLatencyMs,
                    fullyReadAt := if a'.fullyReadAt.Some? || !(count >= a'.readApplicableCount > 0)
                                   then a'.fullyReadAt else Some(at));
    next.(tick := ComputeTick(next))
  }

  /** The counters' own sanity check; when it fails the handler throws. */
  predicate WithinBounds(a: Aggregate) {
    a.deliveredCount <= |a.members| && a.readCount <= a.readApplicableCount
  }

  datatype Ledger = Ledger(aggregate: Aggregate, receipts: map<string, Receipt>)

  function ReceiptOf(receipts: map<string, Receipt>, member: string): Receipt {
    if member in receipts then receipts[member] else NewReceipt()
  }

  function Tracked(s: Ledger, member: string, device: string, status: Status, at: int): Ledger {
    var before := ReceiptOf(s.receipts, member);
    var after := ApplyDelivery(before, s.aggregate.sentAt, device, status, at);
    Ledger(if status == Failed && !after.delivered then s.aggregate.(failedCount := s.aggregate.failedCount + 1)
          else if after.delivered && !before.delivered
          then ApplyDeliveryDelta(s.aggregate, after.deliveryLatencyMs, at)
          else s.aggregate,
          s.receipts[member := after])
  }

  function TrackedRead(s: Ledger, member: string, device: string, at: int): Ledger {
    var before := ReceiptOf(s.receipts, member);
    var after := ApplyRead(before, s.aggregate.sentAt, device, at);
    Ledger(if before.read && before.delivered then s.aggregate
          else ApplyReadDelta(s.aggregate, !before.delivered, after.deliveryLatencyMs, after.readLatencyMs, at),
          s.receipts[member := after])
  }

  datatype Outcome = Done | MessageNotFound | NotApplicable

  /** The ledger a message is registered with. */
  function NewLedger(members: seq<string>, sender: string, excluded: set<string>, readExcluded: set<string>, p: Policy,
                     sentAt: int): Ledger
  {
    var kept := Kept(members, sender, excluded, p);
    Ledger(NewAggregate(Unique(kept), if p.readReceiptsEnabled then Allowed(kept, readExcluded) else 0, p, sentAt), map[])
  }

  /** The manager; per-message locks make each report one step. */
  class GroupReceiptManager {
    var ledgers: map<string, Ledger>

    constructor ()
      ensures ledgers == map[]
    {
      ledgers := map[];
    }

    /** A message already registered keeps its ledger. */
    method RegisterMessage(messageId: string, members: seq<string>, sender: string, excluded: set<string>,
                           readExcluded: set<string>, p: Policy, sentAt: int)
      returns (aggregate: Aggregate)
      modifies this
      ensures ledgers == if messageId in old(ledgers) then old(ledgers)
                         else old(ledgers)[messageId := NewLedger(members, sender, excluded, readExcluded, p, sentAt)]
      ensures aggregate == ledgers[messageId].aggregate
      ensures messageId !in old(ledgers) ==>
        && aggregate.policy == p && aggregate.sentAt == sentAt && aggregate.tick == Single
        && aggregate.deliveredCount == aggregate.readCount == aggregate.failedCount == 0
        && aggregate.deliveryLatencySumMs == aggregate.readLatencySumMs == 0
        && aggregate.fullyDeliveredAt == aggregate.fullyReadAt == None
        && ledgers[messageId].receipts == map[]
        && (forall m :: m in aggregate.members <==> m in members && IsAddressed(m, sender, excluded, p))
    {
      if messageId !in ledgers {
        var applicable, count, exclusions := BuildApplicableSet(members, sender, excluded, readExcluded, p);
        ledgers := ledgers[messageId := Ledger(NewAggregate(applicable, count, p, sentAt), map[])];
      }
      aggregate := ledgers[messageId].aggregate;
    }

    method TrackDelivery(messageId: string, member: string, device: string, status: Status, at: int)
      returns (outcome: Outcome)
      modifies this
      ensures outcome == MessageNotFound <==> messageId !in old(ledgers)
      ensures outcome == NotApplicable <==>
        messageId in old(ledgers) && member !in old(ledgers)[messageId].aggregate.members
      ensures outcome != Done ==> ledgers == old(ledgers)
      ensures outcome == Done ==>
        ledgers == old(ledgers)[messageId := Tracked(old(ledgers)[messageId], member, device, status, at)]
    {
      if messageId !in ledgers {
        return MessageNotFound;
      }
      var aggregate, receipts := ledgers[messageId].aggregate, ledgers[messageId].receipts;
      if member !in aggregate.members {
        return NotApplicable;
      }
      outcome := Done;
      var record := ReceiptOf(receipts, member);
      var next := ApplyDelivery(record, aggregate.sentAt, device, status, at);
      receipts := receipts[member := next];
      if status == Failed && !next.delivered {
        aggregate := aggregate.(failedCount := aggregate.failedCount + 1);
      } else if next.delivered && !record.delivered {
        aggregate := ApplyDeliveryDelta(aggregate, next.deliveryLatencyMs, at);
      }
      ledgers := ledgers[messageId := Ledger(aggregate, receipts)];
    }

    method TrackRead(messageId: string, member: string, device: string, at: int) returns (outcome: Outcome)
      modifies this
      ensures outcome == MessageNotFound <==> messageId !in old(ledgers)
      ensures outcome == NotApplicable <==>
        messageId in old(ledgers) && member !in old(ledgers)[messageId].aggregate.members
      ensures outcome != Done ==> ledgers == old(ledgers)
      ensures outcome == Done ==>
        ledgers == old(ledgers)[messageId := TrackedRead(old(ledgers)[messageId], member, device, at)]
    {
      if messageId !in ledgers {
        return MessageNotFound;
      }
      var aggregate, receipts := ledgers[messageId].aggregate, ledgers[messageId].receipts;
      if member !in aggregate.members {
        return NotApplicable;
      }
      outcome := Done;
      var record := ReceiptOf(receipts, member);
      var next := ApplyRead(record, aggregate.sentAt, device, at);
      receipts := receipts[member := next];
      if !record.read || !record.delivered {
        aggregate := ApplyReadDelta(aggregate, !record.delivered, next.deliveryLatencyMs, next.readLatencyMs, at);
      }
      ledgers := ledgers[messageId := Ledger(aggregate, receipts)];
    }
  }

  // ----- the scan the counters replace --------------------------------------------------------------

  datatype Measure = Deliveries | Reads | DeliveryLatency | ReadLatency

  function Weight(w: Measure, r: Receipt): int {
    match w
    case Deliveries => if r.delivered then 1 else 0
    case Reads => if r.read then 1 else 0
    case DeliveryLatency => r.deliveryLatencyMs
    case ReadLatency => r.readLatencyMs
  }

  /** What a scan of the members finds. */
  function Scan(w: Measure, members: seq<string>, receipts: map<string, Receipt>): int {
    if members == [] then 0
    else Scan(w, members[..|members| - 1], receipts) + Weight(w, ReceiptOf(receipts, members[|members| - 1]))
  }

  lemma {:induction false} ScanUnaffected(w: Measure, members: seq<string>, receipts: map<string, Receipt>, m: string,
                                          r: Receipt)
    requires m !in members
    ensures Scan(w, members, receipts[m := r]) == Scan(w, members, receipts)
  {
    if members != [] {
      ScanUnaffected(w, members[..|members| - 1], receipts, m, r);
    }
  }

  lemma {:induction false} ScanUpdate(w: Measure, members: seq<string>, receipts: map<string, Receipt>, m: string,
                                      r: Receipt)
    requires Distinct(members) && m in members
    ensures Scan(w, members, receipts[m := r])
            == Scan(w, members, receipts) - Weight(w, ReceiptOf(receipts, m)) + Weight(w, r)
  {
    var front, last := members[..|members| - 1], members[|members| - 1];
    assert members == front + [last];
    if m == last {
      ScanUnaffected(w, front, receipts, m, r);
    } else {
      ScanUpdate(w, front, receipts, m, r);
    }
  }

  lemma {:induction false} ScanCountBounds(w: Measure, members: seq<string>, receipts: map<string, Receipt>)
    requires w == Deliveries || w == Reads
    ensures 0 <= Scan(w, members, receipts) <= |members|
    ensures Scan(w, members, receipts) == |members|
            <==> forall m :: m in members ==> Weight(w, ReceiptOf(receipts, m)) == 1
  {
    if members != [] {
      var front, last := members[..|members| - 1], members[|members| - 1];
      ScanCountBounds(w, front, receipts);
      assert members == front + [last];
    }
  }

  // ----- every run ----------------------------------------------------------------------------------

  datatype Report = Delivery(member: string, device: string, status: Status, at: int)
                  | Reading(member: string, device: string, at: int)

  function Step(s: Ledger, e: Report): Ledger {
    if e.member !in s.aggregate.members then s
    else
      match e
      case Delivery(member, device, status, at) => Tracked(s, member, device, status, at)
      case Reading(member, device, at) => TrackedRead(s, member, device, at)
  }

  function Run(a: Aggregate, reports: seq<Report>): Ledger {
    if reports == [] then Ledger(a, map[])
    else Step(Run(a, reports[..|reports| - 1]), reports[|reports| - 1])
  }

  /** A member who has read has been delivered to; latencies belong to deliveries and reads. */
  ghost predicate ReceiptInv(r: Receipt) {
    && (r.read ==> r.delivered)
    && (!r.delivered ==> r.deliveryLatencyMs == 0 && forall d :: d in r.devices ==> r.devices[d].status != Delivered)
    && (!r.read ==> r.readLatencyMs == 0)
    && (r.delivered <==> r.firstDeliveredAt.Some?) && (r.read <==> r.firstReadAt.Some?)
  }

  ghost predicate AggregateInv(a: Aggregate) {
    && Distinct(a.members)
    && a.tick == ComputeTick(a)
    && (a.fullyDeliveredAt.Some? <==> a.deliveredCount >= |a.members| > 0)
    && (a.fullyReadAt.Some? <==> a.readCount >= a.readApplicableCount > 0)
  }

  function Capped(x: int, cap: nat): int {
    if x < cap then x else cap
  }

  /** The counters are what a scan would find, with reads capped at the number that may be counted. */
  ghost predicate MatchesScan(a: Aggregate, receipts: map<string, Receipt>) {
    && a.deliveredCount == Scan(Deliveries, a.members, receipts)
    && a.readCount == Capped(Scan(Reads, a.members, receipts), a.readApplicableCount)
    && a.deliveryLatencySumMs == Scan(DeliveryLatency, a.members, receipts)
    && a.readLatencySumMs == Scan(ReadLatency, a.members, receipts)
  }

  ghost predicate Inv(s: Ledger) {
    && AggregateInv(s.aggregate)
    && (forall m :: m in s.receipts ==> ReceiptInv(s.receipts[m]))
    && MatchesScan(s.aggregate, s.receipts)
  }

  lemma ApplyDeliveryKeepsReceipt(r: Receipt, sentAt: int, device: string, status: Status, at: int)
    requires ReceiptInv(r)
    ensures var r' := ApplyDelivery(r, sentAt, device, status, at);
            && ReceiptInv(r') && r'.read == r.read && r'.readLatencyMs == r.readLatencyMs
            && (r'.delivered <==> r.delivered || status == Delivered)
            && (r.delivered ==> r'.deliveryLatencyMs == r.deliveryLatencyMs)
  {
    var r' := ApplyDelivery(r, sentAt, device, status, at);
    if status == Delivered {
      assert device in r'.devices && r'.devices[device].status == Delivered;
    }
  }

  lemma ScansUpdate(a: Aggregate, receipts: map<string, Receipt>, m: string, r: Receipt)
    requires Distinct(a.members) && m in a.members
    ensures forall w :: Scan(w, a.members, receipts[m := r])
                        == Scan(w, a.members, receipts) - Weight(w, ReceiptOf(receipts, m)) + Weight(w, r)
  {
    forall w
      ensures Scan(w, a.members, receipts[m := r])
              == Scan(w, a.members, receipts) - Weight(w, ReceiptOf(receipts, m)) + Weight(w, r)
    {
      ScanUpdate(w, a.members, receipts, m, r);
    }
  }

  lemma DeliveryDeltaKeepsInv(a: Aggregate, latencyMs: int, at: int)
    requires AggregateInv(a) && WithinBounds(a) && a.deliveredCount < |a.members|
    ensures var a' := ApplyDeliveryDelta(a, latencyMs, at);
            && AggregateInv(a') && WithinBounds(a')
            && a' == a.(deliveredCount := a.deliveredCount + 1, deliveryLatencySumMs := a.deliveryLatencySumMs + latencyMs,
                        fullyDeliveredAt := a'.fullyDeliveredAt, tick := a'.tick)
  {
  }

  lemma ReadDeltaKeepsInv(a: Aggregate, latencyMs: int, at: int)
    requires AggregateInv(a) && WithinBounds(a)
    ensures var a' := ApplyReadDelta(a, false, 0, latencyMs, at);
            && AggregateInv(a') && WithinBounds(a')
            && a' == a.(readCount := Min(a.readApplicableCount, a.readCount + 1),
                        readLatencySumMs := a.readLatencySumMs + latencyMs, fullyReadAt := a'.fullyReadAt, tick := a'.tick)
  {
  }

  /** An undelivered member leaves room for one more delivery. */
  lemma RoomForOne(s: Ledger, m: string)
    requires Inv(s) && m in s.aggregate.members && !ReceiptOf(s.receipts, m).delivered
    ensures s.aggregate.deliveredCount < |s.aggregate.members|
  {
    ScanCountBounds(Deliveries, s.aggregate.members, s.receipts);
    assert Weight(Deliveries, ReceiptOf(s.receipts, m)) == 0;
  }

  lemma TrackedKeepsInv(s: Ledger, member: string, device: string, status: Status, at: int)
    requires Inv(s) && WithinBounds(s.aggregate) && member in s.aggregate.members
    ensures Inv(Tracked(s, member, device, status, at))
    ensures WithinBounds(Tracked(s, member, device, status, at).aggregate)
  {
    var before := ReceiptOf(s.receipts, member);
    var after := ApplyDelivery(before, s.aggregate.sentAt, device, status, at);
    ApplyDeliveryKeepsReceipt(before, s.aggregate.sentAt, device, status, at);
    ScansUpdate(s.aggregate, s.receipts, member, after);
    if after.delivered && !before.delivered {
      RoomForOne(s, member);
      DeliveryDeltaKeepsInv(s.aggregate, after.deliveryLatencyMs, at);
    }
  }

  /** The first read of a member already delivered to. */
  lemma LaterReadKeepsInv(s: Ledger, member: string, device: string, at: int)
    requires Inv(s) && WithinBounds(s.aggregate) && member in s.aggregate.members
    requires ReceiptOf(s.receipts, member).delivered
    ensures Inv(TrackedRead(s, member, device, at))
    ensures WithinBounds(TrackedRead(s, member, device, at).aggregate)
  {
    var after := ApplyRead(ReceiptOf(s.receipts, member), s.aggregate.sentAt, device, at);
    ScansUpdate(s.aggregate, s.receipts, member, after);
    ScanCountBounds(Reads, s.aggregate.members, s.receipts);
    ReadDeltaKeepsInv(s.aggregate, after.readLatencyMs, at);
  }

  /** A read that is also the member's first delivery. */
  lemma FirstReadKeepsInv(s: Ledger, member: string, device: string, at: int)
    requires Inv(s) && WithinBounds(s.aggregate) && member in s.aggregate.members
    requires !ReceiptOf(s.receipts, member).delivered
    ensures Inv(TrackedRead(s, member, device, at))
    ensures WithinBounds(TrackedRead(s, member, device, at).aggregate)
  {
    var after := ApplyRead(ReceiptOf(s.receipts, member), s.aggregate.sentAt, device, at);
    ScansUpdate(s.aggregate, s.receipts, member, after);
    ScanCountBounds(Reads, s.aggregate.members, s.receipts);
    RoomForOne(s, member);
    DeliveryDeltaKeepsInv(s.aggregate, after.deliveryLatencyMs, at);
    ReadDeltaKeepsInv(ApplyDeliveryDelta(s.aggregate, after.deliveryLatencyMs, at), after.readLatencyMs, at);
  }

  lemma TrackedReadKeepsInv(s: Ledger, member: string, device: string, at: int)
    requires Inv(s) && WithinBounds(s.aggregate) && member in s.aggregate.members
    ensures Inv(TrackedRead(s, member, device, at))
    ensures WithinBounds(TrackedRead(s, member, device, at).aggregate)
  {
    if ReceiptOf(s.receipts, member).delivered {
      LaterReadKeepsInv(s, member, device, at);
    } else {
      FirstReadKeepsInv(s, member, device, at);
    }
  }

  lemma {:induction false} FreshScan(w: Measure, members: seq<string>)
    ensures Scan(w, members, map[]) == 0
  {
    if members != [] {
      FreshScan(w, members[..|members| - 1]);
    }
  }

  lemma StepKeepsInv(s: Ledger, e: Report)
    requires Inv(s) && WithinBounds(s.aggregate)
    ensures var s' := Step(s, e);
            && Inv(s') && WithinBounds(s'.aggregate)
            && s'.aggregate.members == s.aggregate.members
            && s'.aggregate.readApplicableCount == s.aggregate.readApplicableCount
            && s'.aggregate.policy == s.aggregate.policy && s'.aggregate.sentAt == s.aggregate.sentAt
  {
    if e.member in s.aggregate.members {
      match e
      case Delivery(member, device, status, at) => TrackedKeepsInv(s, member, device, status, at);
      case Reading(member, device, at) => TrackedReadKeepsInv(s, member, device, at);
    }
  }

  /**
   * Over every run of reports from any devices, the counters, the latency sums and the tick are what a scan
   * of the members would give, every member counts once, and the handlers' sanity check never fails.
   */
  lemma {:induction false} AggregateMatchesScan(members: seq<string>, readApplicableCount: nat, p: Policy, sentAt: int,
                                                reports: seq<Report>)
    requires Distinct(members)
    ensures var s := Run(NewAggregate(members, readApplicableCount, p, sentAt), reports);
            && Inv(s) && WithinBounds(s.aggregate)
            && s.aggregate.members == members && s.aggregate.readApplicableCount == readApplicableCount
            && s.aggregate.policy == p && s.aggregate.sentAt == sentAt
  {
    if reports == [] {
      FreshScan(Deliveries, members);
      FreshScan(Reads, members);
      FreshScan(DeliveryLatency, members);
      FreshScan(ReadLatency, members);
    } else {
      var front := reports[..|reports| - 1];
      AggregateMatchesScan(members, readApplicableCount, p, sentAt, front);
      StepKeepsInv(Run(NewAggregate(members, readApplicableCount, p, sentAt), front), reports[|reports| - 1]);
    }
  }

  /** This report makes its member delivered, or read. */
  predicate Delivers(e: Report) {
    e.Reading? || e.status == Delivered
  }

  /** Some device of the member reported a delivery or a read. */
  predicate WasDelivered(reports: seq<Report>, m: string) {
    exists e :: e in reports && e.member == m && Delivers(e)
  }

  /** Some device of the member reported a read. */
  predicate WasRead(reports: seq<Report>, m: string) {
    exists e :: e in reports && e.member == m && e.Reading?
  }

  lemma StepReceipt(s: Ledger, e: Report, m: string)
    requires m in s.aggregate.members && ReceiptInv(ReceiptOf(s.receipts, m))
    ensures var r, r' := ReceiptOf(s.receipts, m), ReceiptOf(Step(s, e).receipts, m);
            && Step(s, e).aggregate.members == s.aggregate.members && ReceiptInv(r')
            && (r'.delivered <==> r.delivered || (e.member == m && Delivers(e)))
            && (r'.read <==> r.read || (e.member == m && e.Reading?))
  {
    if e.Delivery? && e.member == m {
      ApplyDeliveryKeepsReceipt(ReceiptOf(s.receipts, m), s.aggregate.sentAt, e.device, e.status, e.at);
    }
  }

  /**
   * A member counts as delivered exactly when some device of the member reported a delivery or a read, and as
   * read exactly when some device reported a read, however the reports of all devices are ordered.
   */
  lemma {:induction false} MembersCountExactlyWhen(a: Aggregate, reports: seq<Report>, m: string)
    requires m in a.members
    ensures var s := Run(a, reports);
            && s.aggregate.members == a.members && ReceiptInv(ReceiptOf(s.receipts, m))
            && (ReceiptOf(s.receipts, m).delivered <==> WasDelivered(reports, m))
            && (ReceiptOf(s.receipts, m).read <==> WasRead(reports, m))
  {
    if reports != [] {
      var front, e := reports[..|reports| - 1], reports[|reports| - 1];
      MembersCountExactlyWhen(a, front, m);
      StepReceipt(Run(a, front), e, m);
      assert reports == front + [e];
    }
  }

  // ----- when a member was reached, and how often a device failed ------------------------------------

  /** The member's first delivering report is the k-th. */
  predicate FirstDelivering(reports: seq<Report>, m: string, k: int) {
    && 0 <= k < |reports| && reports[k].member == m && Delivers(reports[k])
    && forall j :: 0 <= j < k ==> !(reports[j].member == m && Delivers(reports[j]))
  }

  /** The member's first read is the k-th report. */
  predicate FirstReading(reports: seq<Report>, m: string, k: int) {
    && 0 <= k < |reports| && reports[k].member == m && reports[k].Reading?
    && forall j :: 0 <= j < k ==> !(reports[j].member == m && reports[j].Reading?)
  }

  /** The first times are those of the first such reports, and the latencies follow from them. */
  ghost predicate TimesOf(reports: seq<Report>, m: string, sentAt: int, r: Receipt) {
    && (r.firstDeliveredAt.Some? <==> WasDelivered(reports, m))
    && (forall k :: FirstDelivering(reports, m, k) ==> r.firstDeliveredAt == Some(reports[k].at))
    && (r.firstReadAt.Some? <==> WasRead(reports, m))
    && (forall k :: FirstReading(reports, m, k) ==> r.firstReadAt == Some(reports[k].at))
    && (r.firstDeliveredAt.Some? ==>
          var latency := r.firstDeliveredAt.value - sentAt; r.deliveryLatencyMs == if latency > 0 then latency else 0)
    && (r.firstReadAt.Some? && r.firstDeliveredAt.Some? ==>
          var latency := r.firstReadAt.value - r.firstDeliveredAt.value;
          r.readLatencyMs == if latency > 0 then latency else 0)
  }

  /** What a report does to the times of its member. */
  lemma StepTimes(s: Ledger, e: Report, m: string)
    requires m in s.aggregate.members && ReceiptInv(ReceiptOf(s.receipts, m))
    ensures Step(s, e).aggregate.sentAt == s.aggregate.sentAt
    ensures var r, r' := ReceiptOf(s.receipts, m), ReceiptOf(Step(s, e).receipts, m);
            if e.member != m then r' == r
            else
              && r'.firstDeliveredAt == (if r.firstDeliveredAt == None && Delivers(e) then Some(e.at) else r.firstDeliveredAt)
              && r'.firstReadAt == (if r.firstReadAt == None && e.Reading? then Some(e.at) else r.firstReadAt)
              && r'.deliveryLatencyMs == (if !r.delivered && Delivers(e)
                                          then NonNegative(r'.firstDeliveredAt.value - s.aggregate.sentAt)
                                          else r.deliveryLatencyMs)
              && r'.readLatencyMs == (if !r.read && e.Reading?
                                      then NonNegative(r'.firstReadAt.value - r'.firstDeliveredAt.value)
                                      else r.readLatencyMs)
  {
    if e.Delivery? && e.member == m {
      var r := ReceiptOf(s.receipts, m);
      ApplyDeliveryKeepsReceipt(r, s.aggregate.sentAt, e.device, e.status, e.at);
    }
  }

  lemma TimesSnoc(front: seq<Report>, e: Report, m: string, sentAt: int, r: Receipt, r': Receipt)
    requires TimesOf(front, m, sentAt, r) && ReceiptInv(r)
    requires if e.member != m then r' == r
             else
               && r'.firstDeliveredAt == (if r.firstDeliveredAt == None && Delivers(e) then Some(e.at) else r.firstDeliveredAt)
               && r'.firstReadAt == (if r.firstReadAt == None && e.Reading? then Some(e.at) else r.firstReadAt)
               && r'.deliveryLatencyMs == (if !r.delivered && Delivers(e)
                                           then NonNegative(r'.firstDeliveredAt.value - sentAt) else r.deliveryLatencyMs)
               && r'.readLatencyMs == (if !r.read && e.Reading?
                                       then NonNegative(r'.firstReadAt.value - r'.firstDeliveredAt.value)
                                       else r.readLatencyMs)
    ensures TimesOf(front + [e], m, sentAt, r')
  {
    var reports := front + [e];
    assert reports[|front|] == e && forall k :: 0 <= k < |front| ==> reports[k] == front[k];
    assert forall x :: x in reports <==> x in front || x == e;
    forall k | FirstDelivering(reports, m, k)
      ensures r'.firstDeliveredAt == Some(reports[k].at)
    {
      if k < |front| {
        assert FirstDelivering(front, m, k);
      } else {
        assert !WasDelivered(front, m);
      }
    }
    forall k | FirstReading(reports, m, k)
      ensures r'.firstReadAt == Some(reports[k].at)
    {
      if k < |front| {
        assert FirstReading(front, m, k);
      } else {
        assert !WasRead(front, m);
      }
    }
  }

  /**
   * Over every run a member's first delivery and first read carry the times of the first such reports of any device,
   * and the latencies are the time from sending to delivery and from delivery to read, never negative.
   */
  lemma {:induction false} TimesAreFirstReports(a: Aggregate, reports: seq<Report>, m: string)
    requires m in a.members
    ensures var s := Run(a, reports);
            s.aggregate.sentAt == a.sentAt && TimesOf(reports, m, a.sentAt, ReceiptOf(s.receipts, m))
  {
    if reports != [] {
      var front, e := reports[..|reports| - 1], reports[|reports| - 1];
      var s := Run(a, front);
      TimesAreFirstReports(a, front, m);
      MembersCountExactlyWhen(a, front, m);
      StepTimes(s, e, m);
      assert reports == front + [e];
      TimesSnoc(front, e, m, a.sentAt, ReceiptOf(s.receipts, m), ReceiptOf(Step(s, e).receipts, m));
    }
  }

  /** The k-th report is a failure of this device. */
  predicate Fails(reports: seq<Report>, m: string, d: string, k: nat)
    requires k < |reports|
  {
    reports[k].Delivery? && From(reports[k], m, d) && reports[k].status == Failed
  }

  lemma StepRetries(s: Ledger, e: Report, m: string, d: string)
    requires m in s.aggregate.members
    ensures var before, after := ReceiptOf(s.receipts, m).devices, ReceiptOf(Step(s, e).receipts, m).devices;
            && Step(s, e).aggregate.members == s.aggregate.members
            && Retries(after, d) == Retries(before, d)
                                    + (if e.Delivery? && From(e, m, d) && e.status == Failed then 1 else 0)
            && (DeviceRead(after, d) <==> DeviceRead(before, d) || (e.Reading? && From(e, m, d)))
  {
  }

  function Retries(devices: map<string, Device>, d: string): nat {
    if d in devices then devices[d].retries else 0
  }

  predicate DeviceRead(devices: map<string, Device>, d: string) {
    d in devices && devices[d].read
  }

  /** How often this device reported a failure. */
  function FailuresOf(reports: seq<Report>, m: string, d: string): nat {
    |set k: nat | k < |reports| && Fails(reports, m, d, k)|
  }

  lemma FailuresOfSnoc(reports: seq<Report>, m: string, d: string)
    requires reports != []
    ensures var front, e := reports[..|reports| - 1], reports[|reports| - 1];
            FailuresOf(reports, m, d)
            == FailuresOf(front, m, d) + if e.Delivery? && From(e, m, d) && e.status == Failed then 1 else 0
  {
    var front := reports[..|reports| - 1];
    var failed := set k: nat | k < |front| && Fails(front, m, d, k);
    assert (set k: nat | k < |reports| && Fails(reports, m, d, k))
        == failed + if Fails(reports, m, d, |front|) then {|front|} else {};
  }

  /** A device has retried as often as it reported a failure, and is marked as read if it reported a read. */
  lemma {:induction false} RetriesAreFailures(a: Aggregate, reports: seq<Report>, m: string, d: string)
    requires m in a.members
    ensures var s := Run(a, reports);
            var devices := ReceiptOf(s.receipts, m).devices;
            && s.aggregate.members == a.members
            && Retries(devices, d) == FailuresOf(reports, m, d)
            && (DeviceRead(devices, d) <==> exists e :: e in reports && From(e, m, d) && e.Reading?)
  {
    if reports != [] {
      var front, e := reports[..|reports| - 1], reports[|reports| - 1];
      RetriesAreFailures(a, front, m, d);
      StepRetries(Run(a, front), e, m, d);
      FailuresOfSnoc(reports, m, d);
      assert reports == front + [e];
    }
  }

  /** This report is a failure that counts: of a member of the message who had not been delivered to before. */
  ghost predicate FailsNow(members: seq<string>, before: seq<Report>, e: Report) {
    e.Delivery? && e.status == Failed && e.member in members && !WasDelivered(before, e.member)
  }

  ghost predicate FailsUndelivered(members: seq<string>, reports: seq<Report>, k: nat)
    requires k < |reports|
  {
    FailsNow(members, reports[..k], reports[k])
  }

  ghost function FailuresBeforeDelivery(members: seq<string>, reports: seq<Report>): nat {
    |set k: nat | k < |reports| && FailsUndelivered(members, reports, k)|
  }

  lemma FailuresSnoc(members: seq<string>, reports: seq<Report>)
    requires reports != []
    ensures var front, e := reports[..|reports| - 1], reports[|reports| - 1];
            FailuresBeforeDelivery(members, reports)
            == FailuresBeforeDelivery(members, front)
               + if FailsNow(members, front, e) then 1 else 0
  {
    var front := reports[..|reports| - 1];
    var failed := set k: nat | k < |front| && FailsUndelivered(members, front, k);
    forall k: nat | k < |front|
      ensures FailsUndelivered(members, reports, k) <==> FailsUndelivered(members, front, k)
    {
      assert reports[..k] == front[..k];
    }
    assert FailsUndelivered(members, reports, |front|) <==>
      FailsNow(members, front, reports[|front|]) by {
      assert reports[..|front|] == front;
    }
    assert (set k: nat | k < |reports| && FailsUndelivered(members, reports, k))
        == failed + if FailsUndelivered(members, reports, |front|) then {|front|} else {};
  }

  lemma StepFailures(s: Ledger, e: Report)
    requires e.member in s.aggregate.members ==> ReceiptInv(ReceiptOf(s.receipts, e.member))
    ensures Step(s, e).aggregate.members == s.aggregate.members
    ensures Step(s, e).aggregate.failedCount
            == s.aggregate.failedCount
               + if e.Delivery? && e.status == Failed && e.member in s.aggregate.members
                    && !ReceiptOf(s.receipts, e.member).delivered then 1 else 0
  {
    if e.Delivery? && e.member in s.aggregate.members {
      ApplyDeliveryKeepsReceipt(ReceiptOf(s.receipts, e.member), s.aggregate.sentAt, e.device, e.status, e.at);
    }
  }

  /** The failures counted are those reported for members not delivered to before. */
  lemma {:induction false} FailuresAreCounted(a: Aggregate, reports: seq<Report>)
    ensures Run(a, reports).aggregate.members == a.members
    ensures Run(a, reports).aggregate.failedCount == a.failedCount + FailuresBeforeDelivery(a.members, reports)
  {
    if reports != [] {
      var front, e := reports[..|reports| - 1], reports[|reports| - 1];
      FailuresAreCounted(a, front);
      FailuresSnoc(a.members, reports);
      if e.member in a.members {
        MembersCountExactlyWhen(a, front, e.member);
      }
      StepFailures(Run(a, front), e);
    }
  }

  /** This report comes from the member's device. */
  predicate From(e: Report, m: string, d: string) {
    e.member == m && e.device == d
  }

  /** The status a report gives its device. */
  function Reported(e: Report): Status {
    if e.Reading? then Delivered else e.status
  }

  /** The status is one of the device's reports, and none of them ranks higher. */
  ghost predicate ShowsHighest(reports: seq<Report>, m: string, d: string, status: Status) {
    && (exists e :: e in reports && From(e, m, d) && Reported(e) == status)
    && (forall e :: e in reports && From(e, m, d) ==> Rank(Reported(e)) <= Rank(status))
  }

  /** A step changes one device of one member: to the reported status, unless the one it has ranks higher. */
  lemma StepDevice(s: Ledger, e: Report, m: string, d: string)
    requires m in s.aggregate.members
    ensures var before, after := ReceiptOf(s.receipts, m).devices, ReceiptOf(Step(s, e).receipts, m).devices;
            && Step(s, e).aggregate.members == s.aggregate.members
            && (d in after <==> d in before || From(e, m, d))
            && (d in after ==>
                  after[d].status == if !From(e, m, d) || (d in before && Rank(before[d].status) > Rank(Reported(e)))
                                     then before[d].status else Reported(e))
  {
  }

  /**
   * Over every run, a device is known exactly when it has reported, and its status is the highest-ranking one
   * it has reported: reports that arrive late or out of order never move a device back.
   */
  lemma {:induction false} DevicesShowHighestReport(a: Aggregate, reports: seq<Report>, m: string, d: string)
    requires m in a.members
    ensures var s := Run(a, reports);
            var devices := ReceiptOf(s.receipts, m).devices;
            && s.aggregate.members == a.members
            && (d in devices <==> exists e :: e in reports && From(e, m, d))
            && (d in devices ==> ShowsHighest(reports, m, d, devices[d].status))
  {
    if reports != [] {
      var front, e := reports[..|reports| - 1], reports[|reports| - 1];
      DevicesShowHighestReport(a, front, m, d);
      StepDevice(Run(a, front), e, m, d);
      assert reports == front + [e];
    }
  }

  /** The device reported this status; a read reports delivery. */
  ghost predicate ReportedAs(reports: seq<Report>, m: string, d: string, status: Status) {
    exists k :: 0 <= k < |reports| && From(reports[k], m, d) && Reported(reports[k]) == status
  }

  /** The device's latest report of a failure or an expiry is the k-th. */
  predicate LatestProblem(reports: seq<Report>, m: string, d: string, k: int) {
    && 0 <= k < |reports| && From(reports[k], m, d) && Reported(reports[k]) in {Failed, Expired}
    && forall j :: k < j < |reports| && From(reports[j], m, d) ==> Reported(reports[j]) !in {Failed, Expired}
  }

  /** Delivered once it was ever reported so; else sent if so; else the latest of failed and expired; else pending. */
  ghost predicate ShowsMostAdvanced(reports: seq<Report>, m: string, d: string, status: Status) {
    && (status == Delivered <==> ReportedAs(reports, m, d, Delivered))
    && (status == Sent <==> !ReportedAs(reports, m, d, Delivered) && ReportedAs(reports, m, d, Sent))
    && (forall k :: LatestProblem(reports, m, d, k) && status != Delivered && status != Sent ==>
          status == Reported(reports[k]))
    && (status == Pending <==> forall k :: 0 <= k < |reports| && From(reports[k], m, d) ==> Reported(reports[k]) == Pending)
  }

  lemma ReportedSnoc(front: seq<Report>, e: Report, m: string, d: string, status: Status)
    ensures ReportedAs(front + [e], m, d, status)
            <==> ReportedAs(front, m, d, status) || (From(e, m, d) && Reported(e) == status)
  {
    var reports := front + [e];
    assert reports[|front|] == e && forall k :: 0 <= k < |front| ==> reports[k] == front[k];
    if ReportedAs(front, m, d, status) {
      var k :| 0 <= k < |front| && From(front[k], m, d) && Reported(front[k]) == status;
      assert reports[k] == front[k];
    }
  }

  lemma MostAdvancedSnoc(front: seq<Report>, e: Report, m: string, d: string, known: bool, before: Status, after: Status)
    requires if known then ShowsMostAdvanced(front, m, d, before)
             else before == Pending && forall k :: 0 <= k < |front| ==> !From(front[k], m, d)
    requires after == if !From(e, m, d) || Rank(before) > Rank(Reported(e)) then before else Reported(e)
    ensures ShowsMostAdvanced(front + [e], m, d, after)
  {
    var reports := front + [e];
    assert reports[|front|] == e && forall k :: 0 <= k < |front| ==> reports[k] == front[k];
    ReportedSnoc(front, e, m, d, Delivered);
    ReportedSnoc(front, e, m, d, Sent);
    forall k | LatestProblem(reports, m, d, k) && after != Delivered && after != Sent
      ensures after == Reported(reports[k])
    {
      if k < |front| {
        assert LatestProblem(front, m, d, k);
      }
    }
    forall k | 0 <= k < |reports| && From(reports[k], m, d) && after == Pending
      ensures Reported(reports[k]) == Pending
    {
    }
  }

  /**
   * Over every run a device shows the most advanced status it has reported, pending before failed and expired, those
   * before sent, and sent before delivered; of failed and expired it shows the latest.
   */
  lemma {:induction false} DevicesShowMostAdvanced(a: Aggregate, reports: seq<Report>, m: string, d: string)
    requires m in a.members
    ensures var devices := ReceiptOf(Run(a, reports).receipts, m).devices;
            && (d in devices <==> exists k :: 0 <= k < |reports| && From(reports[k], m, d))
            && (d in devices ==> ShowsMostAdvanced(reports, m, d, devices[d].status))
  {
    if reports != [] {
      var front, e := reports[..|reports| - 1], reports[|reports| - 1];
      var s := Run(a, front);
      var before := ReceiptOf(s.receipts, m).devices;
      DevicesShowMostAdvanced(a, front, m, d);
      DevicesShowHighestReport(a, front, m, d);
      StepDevice(s, e, m, d);
      assert reports == front + [e] && reports[|front|] == e;
      assert forall k :: 0 <= k < |front| ==> reports[k] == front[k];
      var status := if d in before then before[d].status else Pending;
      if d in before || From(e, m, d) {
        MostAdvancedSnoc(front, e, m, d, d in before, status,
                         ReceiptOf(Run(a, reports).receipts, m).devices[d].status);
      }
    }
  }

  /**
   * Under every policy the tick never goes back, a milestone once stamped keeps its time, and with read
   * receipts disabled the tick is never blue.
   */
  lemma TickNeverFalls(members: seq<string>, readApplicableCount: nat, p: Policy, sentAt: int, reports: seq<Report>,
                       e: Report)
    requires Distinct(members)
    ensures var s := Run(NewAggregate(members, readApplicableCount, p, sentAt), reports);
            var a, a' := s.aggregate, Step(s, e).aggregate;
            && (a.tick == BlueDouble ==> a'.tick == BlueDouble)
            && (a.tick == GreyDouble ==> a'.tick != Single)
            && (a.fullyDeliveredAt.Some? ==> a'.fullyDeliveredAt == a.fullyDeliveredAt)
            && (a.fullyReadAt.Some? ==> a'.fullyReadAt == a.fullyReadAt)
            && (!p.readReceiptsEnabled ==> a.tick != BlueDouble)
  {
    AggregateMatchesScan(members, readApplicableCount, p, sentAt, reports);
  }

  /** A milestone is stamped with the time of the report that completes it, and never again. */
  lemma MilestonesAreStamped(members: seq<string>, readApplicableCount: nat, p: Policy, sentAt: int,
                             reports: seq<Report>, e: Report)
    requires Distinct(members)
    ensures var s := Run(NewAggregate(members, readApplicableCount, p, sentAt), reports);
            var a, a' := s.aggregate, Step(s, e).aggregate;
            var delivered, read := Scan(Deliveries, members, Step(s, e).receipts), Scan(Reads, members, Step(s, e).receipts);
            && a'.fullyDeliveredAt == (if a.fullyDeliveredAt.Some? then a.fullyDeliveredAt
                                       else if members != [] && delivered == |members| then Some(e.at) else None)
            && a'.fullyReadAt == (if a.fullyReadAt.Some? then a.fullyReadAt
                                  else if 0 < readApplicableCount <= read then Some(e.at) else None)
  {
    var s := Run(NewAggregate(members, readApplicableCount, p, sentAt), reports);
    AggregateMatchesScan(members, readApplicableCount, p, sentAt, reports);
    StepKeepsInv(s, e);
    ScanCountBounds(Deliveries, members, Step(s, e).receipts);
  }

  // ----- what the blue tick says --------------------------------------------------------------------

  /** What a message is registered with. */
  datatype Setup = Setup(members: seq<string>, sender: string, excluded: set<string>, readExcluded: set<string>,
                         policy: Policy)

  function Addressed(u: Setup): seq<string> {
    Kept(u.members, u.sender, u.excluded, u.policy)
  }

  /** How many reads are counted while read receipts are enabled. */
  function Counted(u: Setup): nat {
    Allowed(Addressed(u), u.readExcluded)
  }

  function Registered(u: Setup, sentAt: int): Aggregate {
    NewLedger(u.members, u.sender, u.excluded, u.readExcluded, u.policy, sentAt).aggregate
  }

  predicate HasRead(s: Ledger, m: string) {
    ReceiptOf(s.receipts, m).read
  }

  predicate HasReceived(s: Ledger, m: string) {
    ReceiptOf(s.receipts, m).delivered
  }

  /** This member's reads count. */
  predicate Counts(u: Setup, m: string) {
    m in Addressed(u) && m !in u.readExcluded
  }

  /** Enough of the members addressed have received it: all of them, or one. */
  ghost predicate DeliveredEnough(u: Setup, s: Ledger) {
    if u.policy.requireAllDelivered then forall m :: m in Addressed(u) ==> HasReceived(s, m)
    else exists m :: m in Addressed(u) && HasReceived(s, m)
  }

  /** Enough of the members whose reads count have read: all of them, or one. */
  ghost predicate ReadEnough(u: Setup, s: Ledger) {
    if u.policy.requireAllRead then forall m :: Counts(u, m) ==> HasRead(s, m)
    else exists m :: Counts(u, m) && HasRead(s, m)
  }

  /** The documented meaning of the blue tick, in one run: enough of those who count have read. */
  ghost predicate BlueIsTrue(u: Setup, sentAt: int, reports: seq<Report>) {
    var s := Run(Registered(u, sentAt), reports);
    s.aggregate.tick == BlueDouble ==> ReadEnough(u, s)
  }

  /** The converse, in one run: with read receipts enabled and someone counted, enough is enough. */
  ghost predicate BlueIsShown(u: Setup, sentAt: int, reports: seq<Report>) {
    var s := Run(Registered(u, sentAt), reports);
    && u.policy.readReceiptsEnabled
    && DeliveredEnough(u, s)
    && ReadEnough(u, s)
    && (exists m :: Counts(u, m))
    ==> s.aggregate.tick == BlueDouble
  }

  /** One report per member: a read from the readers, a delivery from the others. */
  function Pass(members: seq<string>, readers: set<string>): seq<Report> {
    Map((m: string) => PassReport(m, readers), members)
  }

  function PassReport(m: string, readers: set<string>): Report {
    if m in readers then Reading(m, "phone", 0) else Delivery(m, "phone", Delivered, 0)
  }

  lemma RunPass(a: Aggregate, front: seq<string>, last: string, readers: set<string>)
    ensures Run(a, Pass(front + [last], readers)) == Step(Run(a, Pass(front, readers)), PassReport(last, readers))
  {
    var reports := Pass(front + [last], readers);
    assert reports[..|reports| - 1] == Pass(front, readers);
  }

  lemma FirstReport(s: Ledger, e: Report)
    requires e.member in s.aggregate.members && e.member !in s.receipts && (e.Reading? || e.status == Delivered)
    ensures var s' := Step(s, e);
            && s'.aggregate.members == s.aggregate.members
            && s'.receipts.Keys == s.receipts.Keys + {e.member}
            && (forall m :: m in s.receipts ==> s'.receipts[m] == s.receipts[m])
            && HasReceived(s', e.member) && (HasRead(s', e.member) <==> e.Reading?)
  {
    StepReceipt(s, e, e.member);
  }

  /** Exactly these members have reported, all have received, and the readers have read. */
  ghost predicate Passed(s: Ledger, members: seq<string>, readers: set<string>) {
    && (forall m :: m in s.receipts <==> m in members)
    && (forall m :: m in members ==> HasReceived(s, m) && (HasRead(s, m) <==> m in readers))
  }

  lemma PassOne(s: Ledger, members: seq<string>, readers: set<string>, e: Report)
    requires Passed(s, members, readers) && e.member !in members && e.member in s.aggregate.members
    requires if e.member in readers then e.Reading? else e.Delivery? && e.status == Delivered
    ensures Step(s, e).aggregate.members == s.aggregate.members
    ensures Passed(Step(s, e), members + [e.member], readers)
  {
    FirstReport(s, e);
  }

  lemma {:induction false} PassResult(a: Aggregate, members: seq<string>, readers: set<string>)
    requires Distinct(members) && forall m :: m in members ==> m in a.members
    ensures var s := Run(a, Pass(members, readers));
            s.aggregate.members == a.members && Passed(s, members, readers)
  {
    if members != [] {
      var front, last := members[..|members| - 1], members[|members| - 1];
      assert members == front + [last];
      DistinctSnoc(front, last);
      PassResult(a, front, readers);
      RunPass(a, front, last, readers);
      PassOne(Run(a, Pass(front, readers)), front, readers, PassReport(last, readers));
    }
  }

  /** The reads a scan finds when exactly `readers` have read. */
  lemma {:induction false} ScanReaders(members: seq<string>, readers: set<string>, receipts: map<string, Receipt>)
    requires forall m :: m in members ==> (ReceiptOf(receipts, m).read <==> m in readers)
    ensures Scan(Reads, members, receipts) + Allowed(members, readers) == |members|
  {
    if members != [] {
      var front, last := members[..|members| - 1], members[|members| - 1];
      assert members == front + [last];
      ScanReaders(front, readers, receipts);
    }
  }

  lemma AllowedOne(members: seq<string>, x: string)
    requires Distinct(members) && x in members
    ensures Allowed(members, Elements(members) - {x}) == 1
  {
    AllowedExactly(members, Elements(members) - {x}, x);
  }

  lemma {:induction false} AllowedExactly(members: seq<string>, readers: set<string>, x: string)
    requires Distinct(members) && x !in readers && forall m :: m in members && m != x ==> m in readers
    ensures Allowed(members, readers) == if x in members then 1 else 0
  {
    if members != [] {
      var front, last := members[..|members| - 1], members[|members| - 1];
      assert members == front + [last];
      AllowedExactly(front, readers, x);
    }
  }

  lemma {:induction false} AllAllowed(members: seq<string>, readExcluded: set<string>)
    ensures Allowed(members, readExcluded) <= |members|
    ensures Allowed(members, readExcluded) == |members| <==> forall m :: m in members ==> m !in readExcluded
  {
    if members != [] {
      var front, last := members[..|members| - 1], members[|members| - 1];
      assert members == front + [last];
      AllAllowed(front, readExcluded);
    }
  }

  lemma {:induction false} NoneAllowed(members: seq<string>, readExcluded: set<string>)
    ensures Allowed(members, readExcluded) == 0 <==> forall m :: m in members ==> m in readExcluded
  {
    if members != [] {
      var front, last := members[..|members| - 1], members[|members| - 1];
      assert members == front + [last];
      NoneAllowed(front, readExcluded);
    }
  }

  lemma SomeAllowed(members: seq<string>, readExcluded: set<string>)
    ensures Allowed(members, readExcluded) > 0 <==> exists m :: m in members && m !in readExcluded
    ensures Allowed(members, readExcluded) == |members| <==> forall m :: m in members ==> m !in readExcluded
    ensures Allowed(members, readExcluded) <= |members|
  {
    AllAllowed(members, readExcluded);
    NoneAllowed(members, readExcluded);
  }

  lemma {:induction false} ScanFindsOne(w: Measure, members: seq<string>, receipts: map<string, Receipt>)
    requires w == Deliveries || w == Reads
    ensures Scan(w, members, receipts) > 0 <==> exists m :: m in members && Weight(w, ReceiptOf(receipts, m)) == 1
  {
    if members != [] {
      var front, last := members[..|members| - 1], members[|members| - 1];
      assert members == front + [last];
      ScanFindsOne(w, front, receipts);
      ScanCountBounds(w, front, receipts);
    }
  }

  /**
   * Under every policy, blue means that read receipts are enabled, someone is counted, enough members have it, and
   * as many readers as are waited for have read it, whoever they are.
   */
  lemma BlueCounts(u: Setup, sentAt: int, reports: seq<Report>)
    ensures var s := Run(Registered(u, sentAt), reports);
            var members := Unique(Addressed(u));
            var delivered, read := Scan(Deliveries, members, s.receipts), Scan(Reads, members, s.receipts);
            s.aggregate.tick == BlueDouble <==>
              && u.policy.readReceiptsEnabled && Counted(u) > 0
              && (if u.policy.requireAllDelivered then delivered == |members| else delivered > 0)
              && (if u.policy.requireAllRead then read >= Counted(u) else read > 0)
  {
    var members := Unique(Addressed(u));
    UniqueMembers(Addressed(u), u.readExcluded);
    AggregateMatchesScan(members, if u.policy.readReceiptsEnabled then Counted(u) else 0, u.policy, sentAt, reports);
    ScanCountBounds(Deliveries, members, Run(Registered(u, sentAt), reports).receipts);
    SomeAllowed(Addressed(u), u.readExcluded);
  }

  /**
   * Under every policy and in every run, from the scan: a single tick means that nobody is addressed or not enough
   * members have it, and a grey one that enough have it and not enough of them have read.
   */
  lemma TickCounts(u: Setup, sentAt: int, reports: seq<Report>)
    ensures var s := Run(Registered(u, sentAt), reports);
            var members := Unique(Addressed(u));
            var delivered, read := Scan(Deliveries, members, s.receipts), Scan(Reads, members, s.receipts);
            var enough := members != [] && if u.policy.requireAllDelivered then delivered == |members| else delivered > 0;
            && (s.aggregate.tick == Single <==> !enough)
            && (s.aggregate.tick == GreyDouble <==>
                  && enough
                  && !(u.policy.readReceiptsEnabled && Counted(u) > 0
                       && if u.policy.requireAllRead then read >= Counted(u) else read > 0))
  {
    var members := Unique(Addressed(u));
    UniqueMembers(Addressed(u), u.readExcluded);
    AggregateMatchesScan(members, if u.policy.readReceiptsEnabled then Counted(u) else 0, u.policy, sentAt, reports);
    ScanCountBounds(Deliveries, members, Run(Registered(u, sentAt), reports).receipts);
  }

  /** By the members: the tick is single exactly while nobody is addressed or not enough have received it. */
  lemma SingleUntilDelivered(u: Setup, sentAt: int, reports: seq<Report>)
    ensures var s := Run(Registered(u, sentAt), reports);
            s.aggregate.tick == Single <==> Addressed(u) == [] || !DeliveredEnough(u, s)
  {
    TickCounts(u, sentAt, reports);
    DeliveredEnoughIsCounted(u, Run(Registered(u, sentAt), reports));
    UniqueMembers(Addressed(u), u.readExcluded);
    if Unique(Addressed(u)) == [] && Addressed(u) != [] {
      assert Addressed(u)[0] in Unique(Addressed(u));
    }
    if Unique(Addressed(u)) != [] {
      assert Unique(Addressed(u))[0] in Addressed(u);
    }
  }

  /** The run in which everyone but `x` has read a message that everyone has received. */
  lemma AllButOne(u: Setup, sentAt: int, x: string)
    requires x in Addressed(u)
    ensures var members := Unique(Addressed(u));
            var s := Run(Registered(u, sentAt), Pass(members, Elements(members) - {x}));
            && Scan(Reads, members, s.receipts) == |members| - 1
            && Scan(Deliveries, members, s.receipts) == |members|
            && !HasRead(s, x)
  {
    var members := Unique(Addressed(u));
    var readers := Elements(members) - {x};
    UniqueMembers(Addressed(u), u.readExcluded);
    PassResult(Registered(u, sentAt), members, readers);
    var s := Run(Registered(u, sentAt), Pass(members, readers));
    ScanReaders(members, readers, s.receipts);
    AllowedOne(members, x);
    ScanCountBounds(Deliveries, members, s.receipts);
  }

  /** The run in which `x` alone has read a message that everyone has received. */
  lemma OnlyOne(u: Setup, sentAt: int, x: string)
    requires x in Addressed(u)
    ensures var members := Unique(Addressed(u));
            var s := Run(Registered(u, sentAt), Pass(members, {x}));
            && Scan(Reads, members, s.receipts) > 0
            && Scan(Deliveries, members, s.receipts) == |members| > 0
            && forall m :: m in members && HasRead(s, m) ==> m == x
  {
    var members := Unique(Addressed(u));
    UniqueMembers(Addressed(u), u.readExcluded);
    PassResult(Registered(u, sentAt), members, {x});
    var s := Run(Registered(u, sentAt), Pass(members, {x}));
    assert x in members && HasRead(s, x);
    assert Weight(Reads, ReceiptOf(s.receipts, x)) == 1;
    ScanFindsOne(Reads, members, s.receipts);
    ScanCountBounds(Deliveries, members, s.receipts);
  }

  /** No member whose reads do not count can be counted in the place of one who has not read. */
  predicate OthersDoNotStandIn(u: Setup) {
    if u.policy.requireAllRead then |Unique(Addressed(u))| <= Counted(u)
    else forall m :: m in Addressed(u) ==> m !in u.readExcluded
  }

  lemma BlueIsTrueWhenNobodyStandsIn(u: Setup, sentAt: int, reports: seq<Report>)
    requires !u.policy.readReceiptsEnabled || Counted(u) == 0 || OthersDoNotStandIn(u)
    ensures BlueIsTrue(u, sentAt, reports)
  {
    var members, s := Unique(Addressed(u)), Run(Registered(u, sentAt), reports);
    UniqueMembers(Addressed(u), u.readExcluded);
    BlueCounts(u, sentAt, reports);
    ScanCountBounds(Reads, members, s.receipts);
    if s.aggregate.tick == BlueDouble && !u.policy.requireAllRead {
      ScanFindsOne(Reads, members, s.receipts);
      var m :| m in members && Weight(Reads, ReceiptOf(s.receipts, m)) == 1;
      assert Counts(u, m) && HasRead(s, m);
    }
  }

  /** A run in which a member who is not counted stands in for one who is. */
  lemma BlueIsFalseWhenOneStandsIn(u: Setup, sentAt: int) returns (reports: seq<Report>)
    requires u.policy.readReceiptsEnabled && Counted(u) > 0 && !OthersDoNotStandIn(u)
    ensures !BlueIsTrue(u, sentAt, reports)
  {
    var members := Unique(Addressed(u));
    UniqueMembers(Addressed(u), u.readExcluded);
    SomeAllowed(Addressed(u), u.readExcluded);
    if u.policy.requireAllRead {
      var x :| x in Addressed(u) && x !in u.readExcluded;
      assert Counts(u, x);
      reports := Pass(members, Elements(members) - {x});
      AllButOne(u, sentAt, x);
      BlueCounts(u, sentAt, reports);
    } else {
      var x :| x in Addressed(u) && x in u.readExcluded;
      reports := Pass(members, {x});
      OnlyOne(u, sentAt, x);
      BlueCounts(u, sentAt, reports);
    }
  }

  /**
   * Under every policy, the blue tick means what it says in every run exactly when it is never shown (read receipts
   * disabled, or nobody counted) or no member who is not counted can stand in for one who is: with all reads
   * required, no fewer count than are addressed; with one required, everyone addressed counts.
   */
  lemma BlueIsTrueExactlyWhen(u: Setup, sentAt: int)
    ensures (forall reports :: BlueIsTrue(u, sentAt, reports))
            <==> !u.policy.readReceiptsEnabled || Counted(u) == 0 || OthersDoNotStandIn(u)
  {
    if !u.policy.readReceiptsEnabled || Counted(u) == 0 || OthersDoNotStandIn(u) {
      forall reports
        ensures BlueIsTrue(u, sentAt, reports)
      {
        BlueIsTrueWhenNobodyStandsIn(u, sentAt, reports);
      }
    } else {
      var reports := BlueIsFalseWhenOneStandsIn(u, sentAt);
    }
  }

  /** The scan of reads is at least the number of counted members who have read. */
  lemma {:induction false} CountedReadsAreFound(members: seq<string>, readExcluded: set<string>,
                                                receipts: map<string, Receipt>)
    requires forall m :: m in members && m !in readExcluded ==> ReceiptOf(receipts, m).read
    ensures Allowed(members, readExcluded) <= Scan(Reads, members, receipts)
  {
    if members != [] {
      var front, last := members[..|members| - 1], members[|members| - 1];
      assert members == front + [last];
      CountedReadsAreFound(front, readExcluded, receipts);
    }
  }

  /** The run in which exactly the members who count have read a message that everyone has received. */
  lemma ExactlyTheCounted(u: Setup, sentAt: int)
    ensures var members := Unique(Addressed(u));
            var s := Run(Registered(u, sentAt), Pass(members, Elements(members) - u.readExcluded));
            && Scan(Reads, members, s.receipts) == Allowed(members, u.readExcluded)
            && (forall m :: m in members ==> HasReceived(s, m) && (HasRead(s, m) <==> m !in u.readExcluded))
  {
    var members := Unique(Addressed(u));
    var readers := Elements(members) - u.readExcluded;
    UniqueMembers(Addressed(u), u.readExcluded);
    PassResult(Registered(u, sentAt), members, readers);
    var s := Run(Registered(u, sentAt), Pass(members, readers));
    ScanReaders(members, readers, s.receipts);
    AllowedComplement(members, readers, u.readExcluded);
  }

  lemma {:induction false} AllowedComplement(members: seq<string>, a: set<string>, b: set<string>)
    requires forall m :: m in members ==> (m in a <==> m !in b)
    ensures Allowed(members, a) + Allowed(members, b) == |members|
  {
    if members != [] {
      var front, last := members[..|members| - 1], members[|members| - 1];
      assert members == front + [last];
      AllowedComplement(front, a, b);
    }
  }

  /** The members of the list and of its deduplication are received and read alike. */
  lemma DeliveredEnoughIsCounted(u: Setup, s: Ledger)
    ensures var members := Unique(Addressed(u));
            var delivered := Scan(Deliveries, members, s.receipts);
            DeliveredEnough(u, s) <==> if u.policy.requireAllDelivered then delivered == |members| else delivered > 0
  {
    var members := Unique(Addressed(u));
    UniqueMembers(Addressed(u), u.readExcluded);
    ScanCountBounds(Deliveries, members, s.receipts);
    ScanFindsOne(Deliveries, members, s.receipts);
    assert forall m :: Weight(Deliveries, ReceiptOf(s.receipts, m)) == 1 <==> HasReceived(s, m);
  }

  /** Repeated names did not raise the number of reads waited for. */
  predicate RepetitionsDoNotCount(u: Setup) {
    u.policy.readReceiptsEnabled && u.policy.requireAllRead
    ==> Counted(u) == Allowed(Unique(Addressed(u)), u.readExcluded)
  }

  lemma BlueIsShownWhenCountsMatch(u: Setup, sentAt: int, reports: seq<Report>)
    requires RepetitionsDoNotCount(u)
    ensures BlueIsShown(u, sentAt, reports)
  {
    var members, s := Unique(Addressed(u)), Run(Registered(u, sentAt), reports);
    UniqueMembers(Addressed(u), u.readExcluded);
    SomeAllowed(Addressed(u), u.readExcluded);
    BlueCounts(u, sentAt, reports);
    DeliveredEnoughIsCounted(u, s);
    if u.policy.requireAllRead {
      if ReadEnough(u, s) {
        forall m | m in members && m !in u.readExcluded
          ensures HasRead(s, m)
        {
          assert Counts(u, m);
        }
        CountedReadsAreFound(members, u.readExcluded, s.receipts);
      }
    } else if m :| Counts(u, m) && HasRead(s, m) {
      assert m in members && Weight(Reads, ReceiptOf(s.receipts, m)) == 1;
      ScanFindsOne(Reads, members, s.receipts);
    }
  }

  /** Once everyone has received it and whoever counts has read, enough have, under every policy. */
  lemma AllIsEnough(u: Setup, s: Ledger)
    requires exists m :: Counts(u, m)
    requires forall m :: m in Addressed(u) ==> HasReceived(s, m) && (m !in u.readExcluded ==> HasRead(s, m))
    ensures DeliveredEnough(u, s) && ReadEnough(u, s)
  {
    var x :| Counts(u, x);
    assert HasReceived(s, x) && HasRead(s, x);
  }

  lemma BlueIsMissedWhenCountsDiffer(u: Setup, sentAt: int)
    requires !RepetitionsDoNotCount(u)
    ensures !BlueIsShown(u, sentAt, Pass(Unique(Addressed(u)), Elements(Unique(Addressed(u))) - u.readExcluded))
  {
    var members := Unique(Addressed(u));
    var reports := Pass(members, Elements(members) - u.readExcluded);
    UniqueMembers(Addressed(u), u.readExcluded);
    SomeAllowed(Addressed(u), u.readExcluded);
    ExactlyTheCounted(u, sentAt);
    BlueCounts(u, sentAt, reports);
    var x :| x in Addressed(u) && x !in u.readExcluded;
    assert Counts(u, x);
    AllIsEnough(u, Run(Registered(u, sentAt), reports));
  }

  /**
   * Under every policy, the blue tick is shown whenever it should be, in every run, exactly when repeated names in
   * the member list did not raise the number of reads waited for above the number of members who can give them.
   */
  lemma BlueIsShownExactlyWhen(u: Setup, sentAt: int)
    ensures (forall reports :: BlueIsShown(u, sentAt, reports)) <==> RepetitionsDoNotCount(u)
  {
    if RepetitionsDoNotCount(u) {
      forall reports
        ensures BlueIsShown(u, sentAt, reports)
      {
        BlueIsShownWhenCountsMatch(u, sentAt, reports);
      }
    } else {
      BlueIsMissedWhenCountsDiffer(u, sentAt);
    }
  }

  lemma {:induction false} KeptDistinct(members: seq<string>, sender: string, excluded: set<string>, p: Policy)
    requires Distinct(members)
    ensures Distinct(Kept(members, sender, excluded, p))
    ensures forall m :: m in Kept(members, sender, excluded, p) ==> m in members
  {
    if members != [] {
      var front, last := members[..|members| - 1], members[|members| - 1];
      assert members == front + [last];
      KeptDistinct(front, sender, excluded, p);
      assert last !in Kept(front, sender, excluded, p) by {
        assert last !in front;
      }
    }
  }

  lemma {:induction false} UniqueOfDistinct(members: seq<string>)
    requires Distinct(members)
    ensures Unique(members) == members
  {
    if members != [] {
      var front, last := members[..|members| - 1], members[|members| - 1];
      assert members == front + [last];
      UniqueOfDistinct(front);
    }
  }

  /** For a member list without repetitions and every policy, blue is always shown when due, and is true in every
      run exactly when read receipts are disabled, nobody addressed is read-excluded, or everybody is. */
  lemma BlueWithoutRepetitions(u: Setup, sentAt: int)
    requires Distinct(u.members)
    ensures forall reports :: BlueIsShown(u, sentAt, reports)
    ensures (forall reports :: BlueIsTrue(u, sentAt, reports))
            <==> !u.policy.readReceiptsEnabled
                 || (forall m :: m in Addressed(u) ==> m !in u.readExcluded)
                 || (forall m :: m in Addressed(u) ==> m in u.readExcluded)
  {
    KeptDistinct(u.members, u.sender, u.excluded, u.policy);
    UniqueOfDistinct(Addressed(u));
    BlueIsShownExactlyWhen(u, sentAt);
    BlueIsTrueExactlyWhen(u, sentAt);
    SomeAllowed(Addressed(u), u.readExcluded);
  }
}
