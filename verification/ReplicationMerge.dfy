/**
 * Merging replicated records (server/replication/merge/mergeEngine.js).
 *
 * Replicas of one entity are merged two at a time, by whichever devices meet. The merges of some records form a
 * tree with the records at its leaves; replication converges on them when every tree over the same records gives
 * the same record. For each strategy this is decided exactly; for metadata, over records in which each field, nested
 * ones too, keeps one kind of value.
 */
module ReplicationMerge {
  import opened Sequences

  /** One replica's version record of an entity. */
  datatype Record<M> = Record(version: nat, writer: string, updatedAt: nat, deleted: bool, meta: M)

  const MERGE_WRITER: string := "merge"

  function Max(x: nat, y: nat): nat {
    if x >= y then x else y
  }

  // ----- merge trees --------------------------------------------------------------------------------

  datatype Tree<X> = Leaf(record: X) | Node(left: Tree<X>, right: Tree<X>)

  function Leaves<X>(t: Tree<X>): (m: multiset<X>)
    ensures |m| > 0
  {
    match t
    case Leaf(x) => multiset{x}
    case Node(l, r) => Leaves(l) + Leaves(r)
  }

  /** What merging along the tree gives. */
  function Eval<X>(merge: (X, X) -> X, t: Tree<X>): X {
    match t
    case Leaf(x) => x
    case Node(l, r) => merge(Eval(merge, l), Eval(merge, r))
  }

  /** Every order and grouping of merging these records gives the same record. */
  ghost predicate Converges<X(!new)>(merge: (X, X) -> X, records: multiset<X>) {
    forall t, t' :: Leaves(t) == records && Leaves(t') == records ==> Eval(merge, t) == Eval(merge, t')
  }

  lemma {:induction false} SomeTree<X>(records: multiset<X>) returns (t: Tree<X>)
    requires |records| > 0
    ensures Leaves(t) == records
    decreases |records|
  {
    var x :| x in records;
    var rest := records - multiset{x};
    if |rest| == 0 {
      t := Leaf(x);
      assert records == multiset{x};
    } else {
      var r := SomeTree(rest);
      t := Node(Leaf(x), r);
      assert records == multiset{x} + rest;
    }
  }

  /** Trees over the same records are both leaves, of the same record, or neither is. */
  lemma LeavesAlike<X>(t: Tree<X>, t': Tree<X>)
    requires Leaves(t) == Leaves(t')
    ensures t.Leaf? <==> t'.Leaf?
    ensures t.Leaf? ==> t == t'
  {
    assert t.Leaf? ==> |Leaves(t)| == 1;
    assert t.Node? ==> |Leaves(t)| >= 2;
    assert t'.Node? ==> |Leaves(t')| >= 2;
    if t.Leaf? && t'.Leaf? {
      assert t.record in Leaves(t');
    }
  }

  // ----- keeping the first of the greatest ----------------------------------------------------------

  /** A reflexive, transitive and total comparison. */
  ghost predicate Ranks<V(!new)>(geq: (V, V) -> bool) {
    && (forall x, y :: geq(x, y) || geq(y, x))
    && (forall x, y, z :: geq(x, y) && geq(y, z) ==> geq(x, z))
  }

  /** The first of the greatest values along a tree. */
  function Picked<X, V>(geq: (V, V) -> bool, view: X -> V, t: Tree<X>): V {
    match t
    case Leaf(x) => view(x)
    case Node(l, r) =>
      var a, b := Picked(geq, view, l), Picked(geq, view, r);
      if geq(a, b) then a else b
  }

  /** No record's value ranks above this record's. */
  ghost predicate Greatest<X(!new), V(!new)>(geq: (V, V) -> bool, view: X -> V, records: multiset<X>, x: X) {
    x in records && forall y :: y in records ==> geq(view(x), view(y))
  }

  lemma {:induction false} PickedIsGreatest<X(!new), V(!new)>(geq: (V, V) -> bool, view: X -> V, t: Tree<X>)
    returns (x: X)
    requires Ranks(geq)
    ensures Greatest(geq, view, Leaves(t), x) && Picked(geq, view, t) == view(x)
  {
    match t
    case Leaf(y) =>
      x := y;
      assert geq(view(y), view(y)) || geq(view(y), view(y));
    case Node(l, r) =>
      var a := PickedIsGreatest(geq, view, l);
      var b := PickedIsGreatest(geq, view, r);
      x := if geq(view(a), view(b)) then a else b;
      forall y | y in Leaves(t)
        ensures geq(view(x), view(y))
      {
        assert y in Leaves(l) || y in Leaves(r);
      }
  }

  /** Merging a greatest record first picks its value. */
  lemma PickFirst<X(!new), V(!new)>(geq: (V, V) -> bool, view: X -> V, records: multiset<X>, x: X) returns (t: Tree<X>)
    requires Ranks(geq) && Greatest(geq, view, records, x)
    ensures Leaves(t) == records && Picked(geq, view, t) == view(x)
  {
    var rest := records - multiset{x};
    assert records == multiset{x} + rest;
    if |rest| == 0 {
      t := Leaf(x);
    } else {
      var r := SomeTree(rest);
      var y := PickedIsGreatest(geq, view, r);
      assert y in records;
      t := Node(Leaf(x), r);
    }
  }

  ghost predicate GreatestAgree<X(!new), V(!new)>(geq: (V, V) -> bool, view: X -> V, records: multiset<X>) {
    forall x, y :: Greatest(geq, view, records, x) && Greatest(geq, view, records, y) ==> view(x) == view(y)
  }

  /** A merge that agrees on two trees exactly when a pick does converges exactly when it does. */
  lemma ConvergesAsPicked<X(!new), V(!new)>(merge: (X, X) -> X, geq: (V, V) -> bool, view: X -> V, records: multiset<X>)
    requires Ranks(geq)
    requires forall t, t' :: Leaves(t) == records && Leaves(t') == records ==>
      (Eval(merge, t) == Eval(merge, t') <==> Picked(geq, view, t) == Picked(geq, view, t'))
    ensures Converges(merge, records) <==> GreatestAgree(geq, view, records)
  {
    PickConvergesExactlyWhen(geq, view, records);
  }

  ghost predicate PickConverges<X(!new), V(!new)>(geq: (V, V) -> bool, view: X -> V, records: multiset<X>) {
    forall t, t' :: Leaves(t) == records && Leaves(t') == records ==> Picked(geq, view, t) == Picked(geq, view, t')
  }

  /** Picking the first of the greatest converges exactly when the greatest are equal. */
  lemma PickConvergesExactlyWhen<X(!new), V(!new)>(geq: (V, V) -> bool, view: X -> V, records: multiset<X>)
    requires Ranks(geq)
    ensures PickConverges(geq, view, records)
            <==> GreatestAgree(geq, view, records)
  {
    if PickConverges(geq, view, records) {
      forall x, y | Greatest(geq, view, records, x) && Greatest(geq, view, records, y)
        ensures view(x) == view(y)
      {
        var t := PickFirst(geq, view, records, x);
        var t' := PickFirst(geq, view, records, y);
        assert Picked(geq, view, t) == Picked(geq, view, t');
      }
    }
    if GreatestAgree(geq, view, records) {
      forall t, t' | Leaves(t) == records && Leaves(t') == records
        ensures Picked(geq, view, t) == Picked(geq, view, t')
      {
        var x := PickedIsGreatest(geq, view, t);
        var y := PickedIsGreatest(geq, view, t');
      }
    }
  }

  // ----- values that follow the version -------------------------------------------------------------

  /** A value of a record and the version the record had. */
  datatype Stamped<V> = Stamped(version: nat, value: Option<V>)

  function OrElse<V>(x: Option<V>, y: Option<V>): Option<V> {
    if x.Some? then x else y
  }

  /** The later version's value, or else whichever there is; the merge carries the later version. */
  function Follow<V>(x: Stamped<V>, y: Stamped<V>): Stamped<V> {
    Stamped(Max(x.version, y.version), OrElse((if x.version < y.version then y else x).value, OrElse(x.value, y.value)))
  }

  function Followed<X, V>(view: X -> Stamped<V>, t: Tree<X>): Stamped<V> {
    match t
    case Leaf(x) => view(x)
    case Node(l, r) => Follow(Followed(view, l), Followed(view, r))
  }

  ghost predicate Latest<X(!new), V(!new)>(view: X -> Stamped<V>, records: multiset<X>, x: X) {
    x in records && forall y :: y in records ==> view(y).version <= view(x).version
  }

  /** Either all records that have a value have the same, or all latest records have one, the same. */
  ghost predicate Settled<X(!new), V(!new)>(view: X -> Stamped<V>, records: multiset<X>) {
    || (forall x, y :: x in records && y in records && view(x).value.Some? && view(y).value.Some? ==>
          view(x).value == view(y).value)
    || (forall x, y :: Latest(view, records, x) && Latest(view, records, y) ==>
          view(x).value.Some? && view(x).value == view(y).value)
  }

  /** The merge carries the latest version. */
  lemma {:induction false} FollowedVersion<X(!new), V(!new)>(view: X -> Stamped<V>, t: Tree<X>) returns (x: X)
    ensures Latest(view, Leaves(t), x) && view(x).version == Followed(view, t).version
  {
    match t
    case Leaf(y) => x := y;
    case Node(l, r) =>
      var a := FollowedVersion(view, l);
      var b := FollowedVersion(view, r);
      x := if view(a).version >= view(b).version then a else b;
      forall y | y in Leaves(t)
        ensures view(y).version <= view(x).version
      {
        assert y in Leaves(l) || y in Leaves(r);
      }
  }

  /** The value is some record's, and if there is none, no record has one. */
  lemma {:induction false} FollowedValue<X(!new), V(!new)>(view: X -> Stamped<V>, t: Tree<X>) returns (x: X)
    ensures x in Leaves(t) && view(x).value == Followed(view, t).value
    ensures Followed(view, t).value == None ==> forall y :: y in Leaves(t) ==> view(y).value == None
  {
    match t
    case Leaf(y) => x := y;
    case Node(l, r) =>
      var a := FollowedValue(view, l);
      var b := FollowedValue(view, r);
      x := if Followed(view, l).value == Followed(view, t).value then a else b;
      assert forall y :: y in Leaves(t) ==> y in Leaves(l) || y in Leaves(r);
  }

  /** With a value on every record of the latest version, the merge has it as soon as it has that version. */
  lemma {:induction false} LatestValueStays<X(!new), V(!new)>(view: X -> Stamped<V>, t: Tree<X>, latest: nat, value: V)
    requires forall x :: x in Leaves(t) ==>
      view(x).version <= latest && (view(x).version == latest ==> view(x).value == Some(value))
    ensures Followed(view, t).version <= latest
    ensures Followed(view, t).version == latest ==> Followed(view, t).value == Some(value)
  {
    if t.Node? {
      assert forall x :: x in Leaves(t) <==> x in Leaves(t.left) || x in Leaves(t.right);
      LatestValueStays(view, t.left, latest, value);
      LatestValueStays(view, t.right, latest, value);
    }
  }

  lemma SettledConverges<X(!new), V(!new)>(view: X -> Stamped<V>, records: multiset<X>, t: Tree<X>, t': Tree<X>)
    requires Settled(view, records) && Leaves(t) == records && Leaves(t') == records
    ensures Followed(view, t) == Followed(view, t')
  {
    var a := FollowedVersion(view, t);
    var b := FollowedVersion(view, t');
    if forall x, y :: Latest(view, records, x) && Latest(view, records, y) ==>
         view(x).value.Some? && view(x).value == view(y).value {
      forall x | x in records && view(x).version == view(a).version
        ensures view(x).value == view(a).value && view(x).value.Some?
      {
        assert Latest(view, records, x);
      }
      LatestValueStays(view, t, view(a).version, view(a).value.value);
      LatestValueStays(view, t', view(a).version, view(a).value.value);
    } else {
      var x := FollowedValue(view, t);
      var y := FollowedValue(view, t');
    }
  }

  /** A merge of the latest version that comes first keeps its value. */
  lemma LatestFirst<X(!new), V(!new)>(view: X -> Stamped<V>, records: multiset<X>, first: Tree<X>, x: X) returns (t: Tree<X>)
    requires Latest(view, records, x) && Leaves(first) <= records && Followed(view, first).version == view(x).version
    requires Followed(view, first).value.Some?
    ensures Leaves(t) == records && Followed(view, t).value == Followed(view, first).value
  {
    var rest := records - Leaves(first);
    assert records == Leaves(first) + rest;
    if |rest| == 0 {
      t := first;
    } else {
      var r := SomeTree(rest);
      var y := FollowedVersion(view, r);
      assert y in records;
      t := Node(first, r);
    }
  }

  /** A latest record without a value takes the value of whatever it is merged with. */
  lemma LatestAdopts<X(!new), V(!new)>(view: X -> Stamped<V>, records: multiset<X>, z: X, x: X) returns (t: Tree<X>)
    requires Latest(view, records, z) && view(z).value == None && x in records && view(x).value.Some?
    ensures Leaves(t) == records && Followed(view, t).value == view(x).value
  {
    var first := Node(Leaf(z), Leaf(x));
    assert multiset{z} + multiset{x} <= records;
    t := LatestFirst(view, records, first, z);
  }

  /** Unsettled records, merged in two ways, give two values. */
  lemma UnsettledDiverges<X(!new), V(!new)>(view: X -> Stamped<V>, records: multiset<X>) returns (t: Tree<X>, t': Tree<X>)
    requires !Settled(view, records)
    ensures Leaves(t) == records && Leaves(t') == records && Followed(view, t).value != Followed(view, t').value
  {
    var x, y :| x in records && y in records && view(x).value.Some? && view(y).value.Some?
                && view(x).value != view(y).value;
    var z, z' :| Latest(view, records, z) && Latest(view, records, z')
                 && !(view(z).value.Some? && view(z).value == view(z').value);
    if view(z).value.Some? && view(z').value.Some? {
      t := LatestFirst(view, records, Leaf(z), z);
      t' := LatestFirst(view, records, Leaf(z'), z');
    } else {
      var none := if view(z).value == None then z else z';
      t := LatestAdopts(view, records, none, x);
      t' := LatestAdopts(view, records, none, y);
    }
  }

  ghost predicate FollowConverges<X(!new), V(!new)>(view: X -> Stamped<V>, records: multiset<X>) {
    forall t, t' :: Leaves(t) == records && Leaves(t') == records ==> Followed(view, t) == Followed(view, t')
  }

  /** Values that follow the version converge exactly when they are settled. */
  lemma FollowConvergesExactlyWhen<X(!new), V(!new)>(view: X -> Stamped<V>, records: multiset<X>)
    ensures FollowConverges(view, records) <==> Settled(view, records)
  {
    if Settled(view, records) {
      forall t, t' | Leaves(t) == records && Leaves(t') == records
        ensures Followed(view, t) == Followed(view, t')
      {
        SettledConverges(view, records, t, t');
      }
    } else {
      var t, t' := UnsettledDiverges(view, records);
      assert Followed(view, t) != Followed(view, t');
    }
  }

  // ----- fields every merge has ---------------------------------------------------------------------

  function AtLeast(x: nat, y: nat): bool {
    x >= y
  }

  function VersionOf<M>(r: Record<M>): nat {
    r.version
  }

  function TimeOf<M>(r: Record<M>): nat {
    r.updatedAt
  }

  /** Numbers converge, whatever they are. */
  lemma NumbersConverge<X(!new)>(view: X -> nat, records: multiset<X>, t: Tree<X>, t': Tree<X>)
    requires Leaves(t) == records && Leaves(t') == records
    ensures Picked(AtLeast, view, t) == Picked(AtLeast, view, t')
  {
    var x := PickedIsGreatest(AtLeast, view, t);
    var y := PickedIsGreatest(AtLeast, view, t');
  }

  /** The record is a merge, of the latest version and time among these leaves. */
  ghost predicate MergedFrom<M>(r: Record<M>, t: Tree<Record<M>>) {
    && r.version == Picked(AtLeast, VersionOf, t) && r.updatedAt == Picked(AtLeast, TimeOf, t)
    && (t.Node? ==> r.writer == MERGE_WRITER && !r.deleted)
    && (t.Leaf? ==> r == t.record)
  }

  /** What is left to compare of two merges of the same records is their metadata. */
  lemma SameButMeta<M(!new)>(r: Record<M>, t: Tree<Record<M>>, r': Record<M>, t': Tree<Record<M>>)
    requires MergedFrom(r, t) && MergedFrom(r', t') && Leaves(t) == Leaves(t')
    ensures r == r' <==> r.meta == r'.meta
  {
    NumbersConverge(VersionOf, Leaves(t), t, t');
    NumbersConverge(TimeOf, Leaves(t), t, t');
    LeavesAlike(t, t');
  }

  /** The latest version and the latest time of these records, each of some record. */
  ghost predicate CarriesLatest<M(!new)>(version: nat, updatedAt: nat, records: multiset<Record<M>>) {
    && (forall r :: r in records ==> r.version <= version && r.updatedAt <= updatedAt)
    && (exists r :: r in records && r.version == version)
    && (exists r :: r in records && r.updatedAt == updatedAt)
  }

  lemma PickedLatest<M(!new)>(t: Tree<Record<M>>)
    ensures CarriesLatest(Picked(AtLeast, VersionOf, t), Picked(AtLeast, TimeOf, t), Leaves(t))
  {
    var x := PickedIsGreatest(AtLeast, VersionOf, t);
    var y := PickedIsGreatest(AtLeast, TimeOf, t);
    assert VersionOf(x) == x.version && TimeOf(y) == y.updatedAt;
    forall r | r in Leaves(t)
      ensures r.version <= x.version && r.updatedAt <= y.updatedAt
    {
      assert AtLeast(VersionOf(x), VersionOf(r)) && AtLeast(TimeOf(y), TimeOf(r));
    }
  }

  // ----- read receipts ------------------------------------------------------------------------------

  /** Readers and when they read. */
  type Readers = map<string, nat>

  function ReadAt(id: string): Record<Readers> -> Option<nat> {
    (r: Record<Readers>) => if id in r.meta then Some(r.meta[id]) else None
  }

  function LaterRead(x: Option<nat>, y: Option<nat>): bool {
    y == None || (x.Some? && x.value >= y.value)
  }

  function MergeReaders(a: Readers, b: Readers): Readers {
    map id | id in a.Keys + b.Keys ::
      if id !in b then a[id] else if id !in a then b[id] else Max(a[id], b[id])
  }

  function MergeReceipts(a: Record<Readers>, b: Record<Readers>): Record<Readers> {
    Record(Max(a.version, b.version), MERGE_WRITER, Max(a.updatedAt, b.updatedAt), false, MergeReaders(a.meta, b.meta))
  }

  lemma {:induction false} ReceiptsByField(t: Tree<Record<Readers>>, id: string)
    ensures var r := Eval(MergeReceipts, t);
            MergedFrom(r, t) && ReadAt(id)(r) == Picked(LaterRead, ReadAt(id), t)
  {
    if t.Node? {
      ReceiptsByField(t.left, id);
      ReceiptsByField(t.right, id);
    }
  }

  lemma SameReaders(a: Readers, b: Readers)
    requires forall id: string :: (id in a <==> id in b) && (id in a ==> a[id] == b[id])
    ensures a == b
  {
  }

  /** Nobody un-reads: a merge holds exactly the readers of its records, each with the latest time. */
  lemma MergesHoldLatestReads(t: Tree<Record<Readers>>, id: string)
    ensures var readers := Eval(MergeReceipts, t).meta;
            && (id in readers <==> exists r :: r in Leaves(t) && id in r.meta)
            && (id in readers ==> exists r :: r in Leaves(t) && id in r.meta && r.meta[id] == readers[id])
            && (forall r :: r in Leaves(t) && id in r.meta ==> r.meta[id] <= readers[id])
  {
    ReceiptsByField(t, id);
    var x := PickedIsGreatest(LaterRead, ReadAt(id), t);
    assert x in Leaves(t) && ReadAt(id)(Eval(MergeReceipts, t)) == ReadAt(id)(x);
    forall r | r in Leaves(t) && id in r.meta
      ensures id in x.meta && r.meta[id] <= x.meta[id]
    {
      assert LaterRead(ReadAt(id)(x), ReadAt(id)(r));
    }
  }

  lemma ReceiptsSame(t: Tree<Record<Readers>>, t': Tree<Record<Readers>>)
    requires Leaves(t) == Leaves(t')
    ensures Eval(MergeReceipts, t) == Eval(MergeReceipts, t')
  {
    var r, r' := Eval(MergeReceipts, t), Eval(MergeReceipts, t');
    forall id: string
      ensures (id in r.meta <==> id in r'.meta) && (id in r.meta ==> r.meta[id] == r'.meta[id])
    {
      MergesHoldLatestReads(t, id);
      MergesHoldLatestReads(t', id);
    }
    SameReaders(r.meta, r'.meta);
    ReceiptsByField(t, "");
    ReceiptsByField(t', "");
    SameButMeta(r, t, r', t');
  }

  /** Read receipts always converge. */
  lemma ReceiptsConverge(records: multiset<Record<Readers>>)
    ensures Converges(MergeReceipts, records)
  {
    forall t, t' | Leaves(t) == records && Leaves(t') == records
      ensures Eval(MergeReceipts, t) == Eval(MergeReceipts, t')
    {
      ReceiptsSame(t, t');
    }
  }

  // ----- delivery -----------------------------------------------------------------------------------

  /** A record without a state, or with none of the known ones, ranks as pending. */
  function StateRank(state: string): nat {
    if state == "read" then 3 else if state == "delivered" then 2 else if state == "sent" then 1 else 0
  }

  function StateOf(r: Record<Option<string>>): string {
    r.meta.GetOr("pending")
  }

  function RanksAs(x: string, y: string): bool {
    StateRank(x) >= StateRank(y)
  }

  function MergeDelivery(a: Record<Option<string>>, b: Record<Option<string>>): Record<Option<string>> {
    Record(Max(a.version, b.version), MERGE_WRITER, Max(a.updatedAt, b.updatedAt), false,
           Some(if StateRank(StateOf(a)) >= StateRank(StateOf(b)) then StateOf(a) else StateOf(b)))
  }

  lemma {:induction false} DeliveryByField(t: Tree<Record<Option<string>>>)
    ensures var r := Eval(MergeDelivery, t);
            MergedFrom(r, t) && StateOf(r) == Picked(RanksAs, StateOf, t) && (t.Node? ==> r.meta.Some?)
  {
    if t.Node? {
      DeliveryByField(t.left);
      DeliveryByField(t.right);
    }
  }

  lemma DeliverySame(t: Tree<Record<Option<string>>>, t': Tree<Record<Option<string>>>)
    requires Leaves(t) == Leaves(t')
    ensures Eval(MergeDelivery, t) == Eval(MergeDelivery, t')
            <==> Picked(RanksAs, StateOf, t) == Picked(RanksAs, StateOf, t')
  {
    var r, r' := Eval(MergeDelivery, t), Eval(MergeDelivery, t');
    DeliveryByField(t);
    DeliveryByField(t');
    SameButMeta(r, t, r', t');
    LeavesAlike(t, t');
  }

  /** The delivery states, in the order in which a message goes through them. */
  const PROGRESS: seq<string> := ["pending", "sent", "delivered", "read"]

  /** The record has this state; without one it is pending. */
  predicate IsIn(r: Record<Option<string>>, state: string) {
    r.meta == Some(state) || (r.meta == None && state == "pending")
  }

  ghost predicate SomeIn(records: multiset<Record<Option<string>>>, state: string) {
    exists r :: r in records && IsIn(r, state)
  }

  /** The merged state is some record's, and is the furthest of the known ones that any record has reached. */
  lemma MergesHoldFurthestState(t: Tree<Record<Option<string>>>, state: string)
    requires IsIn(Eval(MergeDelivery, t), state)
    ensures SomeIn(Leaves(t), state)
    ensures state == "read" <==> SomeIn(Leaves(t), "read")
    ensures state == "delivered" <==> !SomeIn(Leaves(t), "read") && SomeIn(Leaves(t), "delivered")
    ensures state == "sent" <==>
      !SomeIn(Leaves(t), "read") && !SomeIn(Leaves(t), "delivered") && SomeIn(Leaves(t), "sent")
  {
    DeliveryByField(t);
    RanksAsRanks();
    var x := PickedIsGreatest(RanksAs, StateOf, t);
    assert IsIn(x, state);
    forall r | r in Leaves(t)
      ensures StateRank(state) >= StateRank(StateOf(r)) && IsIn(r, StateOf(r))
      ensures forall s: string :: IsIn(r, s) ==> s == StateOf(r)
    {
      assert RanksAs(StateOf(x), StateOf(r));
    }
  }

  lemma RanksAsRanks()
    ensures Ranks(RanksAs)
  {
  }

  /** No merge moves a state back: every record's place in the order is at most the merged one's. */
  lemma StatesNeverMoveBack(t: Tree<Record<Option<string>>>, i: nat, j: nat, r: Record<Option<string>>)
    requires i < |PROGRESS| && j < |PROGRESS|
    requires r in Leaves(t) && IsIn(r, PROGRESS[i]) && IsIn(Eval(MergeDelivery, t), PROGRESS[j])
    ensures i <= j
  {
    MergesHoldFurthestState(t, PROGRESS[j]);
    assert SomeIn(Leaves(t), PROGRESS[i]);
  }

  /** Delivery states converge exactly when some record got past pending or they are all the same. */
  lemma DeliveryConvergesExactlyWhen(records: multiset<Record<Option<string>>>)
    ensures Converges(MergeDelivery, records)
            <==> || SomeIn(records, "read") || SomeIn(records, "delivered") || SomeIn(records, "sent")
                 || (forall a, b, x, y :: a in records && b in records && IsIn(a, x) && IsIn(b, y) ==> x == y)
  {
    forall t, t' | Leaves(t) == records && Leaves(t') == records
      ensures Eval(MergeDelivery, t) == Eval(MergeDelivery, t')
              <==> Picked(RanksAs, StateOf, t) == Picked(RanksAs, StateOf, t')
    {
      DeliverySame(t, t');
    }
    ConvergesAsPicked(MergeDelivery, RanksAs, StateOf, records);
    HighestStatesAgree(records);
  }

  lemma HighestStatesAgree(records: multiset<Record<Option<string>>>)
    ensures GreatestAgree(RanksAs, StateOf, records)
            <==> || SomeIn(records, "read") || SomeIn(records, "delivered") || SomeIn(records, "sent")
                 || (forall a, b, x, y :: a in records && b in records && IsIn(a, x) && IsIn(b, y) ==> x == y)
  {
    assert forall r: Record<Option<string>>, s: string :: IsIn(r, s) <==> s == StateOf(r);
    if SomeIn(records, "read") || SomeIn(records, "delivered") || SomeIn(records, "sent") {
      var best := if SomeIn(records, "read") then "read" else if SomeIn(records, "delivered") then "delivered" else "sent";
      var r :| r in records && IsIn(r, best);
      forall x | Greatest(RanksAs, StateOf, records, x)
        ensures StateOf(x) == best
      {
        assert RanksAs(StateOf(x), StateOf(r));
        assert IsIn(x, StateOf(x)) && SomeIn(records, StateOf(x));
      }
    } else {
      forall r | r in records
        ensures Greatest(RanksAs, StateOf, records, r)
      {
        assert forall y :: y in records ==> IsIn(y, StateOf(y)) && SomeIn(records, StateOf(y));
      }
      assert forall r :: r in records ==> IsIn(r, StateOf(r));
    }
  }

  // ----- opaque content -----------------------------------------------------------------------------

  /** JavaScript's `a >= b` for strings. */
  predicate TextAtLeast(a: string, b: string) {
    b == [] || (a != [] && (a[0] > b[0] || (a[0] == b[0] && TextAtLeast(a[1..], b[1..]))))
  }

  lemma {:induction false} TextIsTotal(a: string, b: string)
    ensures TextAtLeast(a, b) || TextAtLeast(b, a)
    ensures TextAtLeast(a, b) && TextAtLeast(b, a) ==> a == b
  {
    if a != [] && b != [] {
      TextIsTotal(a[1..], b[1..]);
      assert a == [a[0]] + a[1..] && b == [b[0]] + b[1..];
    }
  }

  /** The texts agree up to here, where the first has the greater character, or the second has ended. */
  ghost predicate FirstDifference(a: string, b: string, k: nat) {
    k <= |a| && k <= |b| && a[..k] == b[..k] && (k == |b| || (k < |a| && a[k] > b[k]))
  }

  /** Texts are compared by their first difference; a text comes after its beginnings. */
  lemma {:induction false} TextsCompareByCharacter(a: string, b: string)
    ensures TextAtLeast(a, b) <==> exists k: nat :: FirstDifference(a, b, k)
  {
    if b == [] {
      assert FirstDifference(a, b, 0);
    } else if a != [] {
      TextsCompareByCharacter(a[1..], b[1..]);
      if TextAtLeast(a, b) {
        if a[0] > b[0] {
          assert FirstDifference(a, b, 0);
        } else {
          var k: nat :| FirstDifference(a[1..], b[1..], k);
          assert a[..k + 1] == [a[0]] + a[1..][..k] && b[..k + 1] == [b[0]] + b[1..][..k];
          assert FirstDifference(a, b, k + 1);
        }
      }
      if k: nat :| FirstDifference(a, b, k) {
        if k > 0 {
          assert a[0] == a[..k][0] && b[0] == b[..k][0];
          assert a[1..][..k - 1] == a[..k][1..] && b[1..][..k - 1] == b[..k][1..];
          assert FirstDifference(a[1..], b[1..], k - 1);
        }
      }
    }
  }

  lemma {:induction false} TextIsTransitive(a: string, b: string, c: string)
    requires TextAtLeast(a, b) && TextAtLeast(b, c)
    ensures TextAtLeast(a, c)
  {
    if c != [] && a[0] == b[0] == c[0] {
      TextIsTransitive(a[1..], b[1..], c[1..]);
    }
  }

  /** Later, or as late and by a writer whose id is no smaller. `meta` stands for the opaque content. */
  predicate Newer(a: Record<string>, b: Record<string>) {
    a.updatedAt > b.updatedAt || (a.updatedAt == b.updatedAt && TextAtLeast(a.writer, b.writer))
  }

  lemma NewerRanks()
    ensures Ranks(Newer)
  {
    forall a: Record<string>, b: Record<string>
      ensures Newer(a, b) || Newer(b, a)
    {
      TextIsTotal(a.writer, b.writer);
    }
    forall a: Record<string>, b: Record<string>, c: Record<string> | Newer(a, b) && Newer(b, c)
      ensures Newer(a, c)
    {
      if a.updatedAt == c.updatedAt {
        TextIsTransitive(a.writer, b.writer, c.writer);
      }
    }
  }

  function MergeOpaque(a: Record<string>, b: Record<string>): Record<string> {
    var winner := if Newer(a, b) then a else b;
    Record(Max(a.version, b.version), winner.writer, Max(a.updatedAt, b.updatedAt), winner.deleted, winner.meta)
  }

  function Unversioned(r: Record<string>): Record<string> {
    r.(version := 0)
  }

  lemma {:induction false} OpaqueByField(t: Tree<Record<string>>)
    ensures var r := Eval(MergeOpaque, t);
            r.version == Picked(AtLeast, VersionOf, t) && Unversioned(r) == Picked(Newer, Unversioned, t)
  {
    if t.Node? {
      OpaqueByField(t.left);
      OpaqueByField(t.right);
    }
  }

  /** No record is later, or as late and by a greater writer. */
  ghost predicate IsNewest(r: Record<string>, records: multiset<Record<string>>) {
    && r in records
    && forall y :: y in records ==>
         y.updatedAt < r.updatedAt || (y.updatedAt == r.updatedAt && TextAtLeast(r.writer, y.writer))
  }

  lemma NewestIsGreatest(r: Record<string>, records: multiset<Record<string>>)
    ensures Greatest(Newer, Unversioned, records, r) <==> IsNewest(r, records)
  {
    forall y | y in records
      ensures Newer(Unversioned(r), Unversioned(y))
              <==> y.updatedAt < r.updatedAt || (y.updatedAt == r.updatedAt && TextAtLeast(r.writer, y.writer))
    {
    }
  }

  /** A merge has the content, writer and time of a newest record. */
  lemma MergesHoldNewest(t: Tree<Record<string>>) returns (x: Record<string>)
    ensures IsNewest(x, Leaves(t))
    ensures var r := Eval(MergeOpaque, t);
            && r.meta == x.meta && r.writer == x.writer && r.deleted == x.deleted && r.updatedAt == x.updatedAt
            && CarriesLatest(r.version, r.updatedAt, Leaves(t))
  {
    OpaqueByField(t);
    NewerRanks();
    x := PickedIsGreatest(Newer, Unversioned, t);
    NewestIsGreatest(x, Leaves(t));
    assert Unversioned(Eval(MergeOpaque, t)) == Unversioned(x);
    var v := PickedIsGreatest(AtLeast, VersionOf, t);
    assert VersionOf(v) == v.version;
    forall r | r in Leaves(t)
      ensures r.version <= v.version
    {
      assert AtLeast(VersionOf(v), VersionOf(r));
    }
  }

  /**
   * Last-write-wins converges exactly when the newest records, those of the latest time and its greatest writer,
   * have the same content.
   */
  lemma OpaqueConvergesExactlyWhen(records: multiset<Record<string>>)
    ensures Converges(MergeOpaque, records)
            <==> forall x, y :: IsNewest(x, records) && IsNewest(y, records) ==>
                   x.meta == y.meta && x.deleted == y.deleted
  {
    forall t, t' | Leaves(t) == records && Leaves(t') == records
      ensures Eval(MergeOpaque, t) == Eval(MergeOpaque, t')
              <==> Picked(Newer, Unversioned, t) == Picked(Newer, Unversioned, t')
    {
      OpaqueByField(t);
      OpaqueByField(t');
      NumbersConverge(VersionOf, records, t, t');
    }
    NewerRanks();
    ConvergesAsPicked(MergeOpaque, Newer, Unversioned, records);
    forall x, y | IsNewest(x, records) && IsNewest(y, records)
      ensures Unversioned(x) == Unversioned(y) <==> x.meta == y.meta && x.deleted == y.deleted
    {
      TextIsTotal(x.writer, y.writer);
    }
    forall x
      ensures Greatest(Newer, Unversioned, records, x) <==> IsNewest(x, records)
    {
      NewestIsGreatest(x, records);
    }
  }

  // ----- attachments --------------------------------------------------------------------------------

  /** Absent sizes count as 0. */
  datatype Attachment = Attachment(size: nat, chunkCount: nat, mimeType: Option<string>, checksum: Option<string>,
                                   thumbnailHash: Option<string>)

  /** The checksum is the dominating record's, the first one's unless the second has the greater version. */
  function MergeAttachments(a: Record<Attachment>, b: Record<Attachment>): Record<Attachment> {
    var later := if a.version < b.version then b else a;
    Record(Max(a.version, b.version), MERGE_WRITER, Max(a.updatedAt, b.updatedAt), false,
           Attachment(Max(a.meta.size, b.meta.size), Max(a.meta.chunkCount, b.meta.chunkCount),
                      OrElse(a.meta.mimeType, b.meta.mimeType),
                      OrElse(later.meta.checksum, OrElse(a.meta.checksum, b.meta.checksum)),
                      OrElse(a.meta.thumbnailHash, b.meta.thumbnailHash)))
  }

  function SizeOf(r: Record<Attachment>): nat {
    r.meta.size
  }

  function ChunksOf(r: Record<Attachment>): nat {
    r.meta.chunkCount
  }

  function MimeTypeOf(r: Record<Attachment>): Option<string> {
    r.meta.mimeType
  }

  function ThumbnailOf(r: Record<Attachment>): Option<string> {
    r.meta.thumbnailHash
  }

  function ChecksumOf(r: Record<Attachment>): Stamped<string> {
    Stamped(r.version, r.meta.checksum)
  }

  predicate Defined(x: Option<string>, y: Option<string>) {
    x.Some? || y == None
  }

  lemma {:induction false} AttachmentsByField(t: Tree<Record<Attachment>>)
    ensures var r := Eval(MergeAttachments, t);
            && MergedFrom(r, t)
            && SizeOf(r) == Picked(AtLeast, SizeOf, t) && ChunksOf(r) == Picked(AtLeast, ChunksOf, t)
            && MimeTypeOf(r) == Picked(Defined, MimeTypeOf, t) && ThumbnailOf(r) == Picked(Defined, ThumbnailOf, t)
            && ChecksumOf(r) == Followed(ChecksumOf, t)
  {
    if t.Node? {
      AttachmentsByField(t.left);
      AttachmentsByField(t.right);
    }
  }

  /** This is the greatest of the records' numbers. */
  ghost predicate IsGreatest<X(!new)>(n: nat, view: X -> nat, records: multiset<X>) {
    (forall r :: r in records ==> view(r) <= n) && exists r :: r in records && view(r) == n
  }

  /** This is some record's value, and there is none only if no record has one. */
  ghost predicate IsSome<X(!new)>(value: Option<string>, view: X -> Option<string>, records: multiset<X>) {
    && (exists r :: r in records && view(r) == value)
    && (value == None ==> forall r :: r in records ==> view(r) == None)
  }

  lemma PickedNumber<X(!new)>(view: X -> nat, t: Tree<X>)
    ensures IsGreatest(Picked(AtLeast, view, t), view, Leaves(t))
  {
    var x := PickedIsGreatest(AtLeast, view, t);
    forall r | r in Leaves(t)
      ensures view(r) <= view(x)
    {
      assert AtLeast(view(x), view(r));
    }
  }

  lemma PickedDefined<X(!new)>(view: X -> Option<string>, t: Tree<X>)
    ensures IsSome(Picked(Defined, view, t), view, Leaves(t))
  {
    var x := PickedIsGreatest(Defined, view, t);
    forall r | r in Leaves(t)
      ensures view(x) == None ==> view(r) == None
    {
      assert Defined(view(x), view(r));
    }
  }

  /**
   * However attachments are merged, nothing of them is lost: the greatest size and number of chunks, a type and a
   * thumbnail if any record has one, and a checksum if any has one, the latest version's if its records agree.
   */
  lemma MergesHoldAttachment(t: Tree<Record<Attachment>>)
    ensures var a, records := Eval(MergeAttachments, t).meta, Leaves(t);
            && IsGreatest(a.size, SizeOf, records) && IsGreatest(a.chunkCount, ChunksOf, records)
            && IsSome(a.mimeType, MimeTypeOf, records) && IsSome(a.thumbnailHash, ThumbnailOf, records)
            && IsSome(a.checksum, (r: Record<Attachment>) => r.meta.checksum, records)
  {
    AttachmentsByField(t);
    PickedNumber(SizeOf, t);
    PickedNumber(ChunksOf, t);
    PickedDefined(MimeTypeOf, t);
    PickedDefined(ThumbnailOf, t);
    var x := FollowedValue(ChecksumOf, t);
    assert ChecksumOf(x).value == x.meta.checksum;
    forall r | r in Leaves(t)
      ensures ChecksumOf(r).value == r.meta.checksum
    {
    }
  }

  /** With the same checksum on every record of the latest version, the merge has it. */
  lemma LatestChecksumStays(t: Tree<Record<Attachment>>, checksum: string)
    requires forall x :: x in Leaves(t) && (forall y :: y in Leaves(t) ==> y.version <= x.version) ==>
      x.meta.checksum == Some(checksum)
    ensures Eval(MergeAttachments, t).meta.checksum == Some(checksum)
  {
    AttachmentsByField(t);
    var a := FollowedVersion(ChecksumOf, t);
    forall x | x in Leaves(t)
      ensures ChecksumOf(x).version <= a.version
      ensures ChecksumOf(x).version == a.version ==> ChecksumOf(x).value == Some(checksum)
    {
      forall y | y in Leaves(t)
        ensures y.version <= a.version
      {
        assert ChecksumOf(y).version <= ChecksumOf(a).version;
      }
    }
    LatestValueStays(ChecksumOf, t, a.version, checksum);
  }

  /** Two trees pick the same values. */
  ghost predicate SamePicks<X(!new)>(first: X -> Option<string>, second: X -> Option<string>, third: X -> Stamped<string>,
                                     t: Tree<X>, t': Tree<X>)
  {
    && Picked(Defined, first, t) == Picked(Defined, first, t')
    && Picked(Defined, second, t) == Picked(Defined, second, t')
    && Followed(third, t) == Followed(third, t')
  }

  lemma AttachmentsSame(t: Tree<Record<Attachment>>, t': Tree<Record<Attachment>>)
    requires Leaves(t) == Leaves(t')
    ensures Eval(MergeAttachments, t) == Eval(MergeAttachments, t')
            <==> SamePicks(MimeTypeOf, ThumbnailOf, ChecksumOf, t, t')
  {
    var r, r' := Eval(MergeAttachments, t), Eval(MergeAttachments, t');
    AttachmentsByField(t);
    AttachmentsByField(t');
    NumbersConverge(VersionOf, Leaves(t), t, t');
    NumbersConverge(SizeOf, Leaves(t), t, t');
    NumbersConverge(ChunksOf, Leaves(t), t, t');
    SameButMeta(r, t, r', t');
  }

  /** Whoever has a value has the same. */
  ghost predicate DefinedAgree<X(!new)>(view: X -> Option<string>, records: multiset<X>) {
    forall x, y :: x in records && y in records && view(x).Some? && view(y).Some? ==> view(x) == view(y)
  }

  lemma DefinedConvergesExactlyWhen<X(!new)>(view: X -> Option<string>, records: multiset<X>)
    ensures PickConverges(Defined, view, records) <==> DefinedAgree(view, records)
  {
    PickConvergesExactlyWhen(Defined, view, records);
    forall x | x in records && view(x).Some?
      ensures Greatest(Defined, view, records, x)
    {
    }
  }

  /**
   * Attachments converge exactly when the media types agree wherever there are any, and the thumbnails, and the
   * checksums are settled: all the same, or on every record of the latest version, the same.
   */
  lemma AttachmentsConvergeExactlyWhen(records: multiset<Record<Attachment>>)
    ensures Converges(MergeAttachments, records)
            <==> && DefinedAgree(MimeTypeOf, records) && DefinedAgree(ThumbnailOf, records)
                 && Settled(ChecksumOf, records)
  {
    forall t, t' | Leaves(t) == records && Leaves(t') == records
      ensures Eval(MergeAttachments, t) == Eval(MergeAttachments, t')
              <==> SamePicks(MimeTypeOf, ThumbnailOf, ChecksumOf, t, t')
    {
      AttachmentsSame(t, t');
    }
    ConvergesTogether(MergeAttachments, MimeTypeOf, ThumbnailOf, ChecksumOf, records);
  }

  lemma ConvergesByParts<X(!new)>(merge: (X, X) -> X, first: X -> Option<string>, second: X -> Option<string>,
                                  third: X -> Stamped<string>, records: multiset<X>)
    requires forall t, t' :: Leaves(t) == records && Leaves(t') == records ==>
      (Eval(merge, t) == Eval(merge, t') <==> SamePicks(first, second, third, t, t'))
    ensures Converges(merge, records)
            <==> PickConverges(Defined, first, records) && PickConverges(Defined, second, records)
                 && FollowConverges(third, records)
  {
  }

  lemma ConvergesTogether<X(!new)>(merge: (X, X) -> X, first: X -> Option<string>, second: X -> Option<string>,
                                   third: X -> Stamped<string>, records: multiset<X>)
    requires forall t, t' :: Leaves(t) == records && Leaves(t') == records ==>
      (Eval(merge, t) == Eval(merge, t') <==> SamePicks(first, second, third, t, t'))
    ensures Converges(merge, records)
            <==> DefinedAgree(first, records) && DefinedAgree(second, records) && Settled(third, records)
  {
    ConvergesByParts(merge, first, second, third, records);
    assert PickConverges(Defined, first, records) <==> DefinedAgree(first, records) by {
      DefinedConvergesExactlyWhen(first, records);
    }
    assert PickConverges(Defined, second, records) <==> DefinedAgree(second, records) by {
      DefinedConvergesExactlyWhen(second, records);
    }
    assert FollowConverges(third, records) <==> Settled(third, records) by {
      FollowConvergesExactlyWhen(third, records);
    }
  }

  // ----- which of two equals is kept ----------------------------------------------------------------

  /** Of two records neither of which got past pending, a merge has the first one's state. */
  lemma FirstStateIsKept(a: Record<Option<string>>, b: Record<Option<string>>, x: string, y: string)
    requires IsIn(a, x) && IsIn(b, y)
    requires x !in {"sent", "delivered", "read"} && y !in {"sent", "delivered", "read"}
    ensures IsIn(MergeDelivery(a, b), x)
  {
  }

  /** Of two records of one time and writer, a merge has the first one's content. */
  lemma FirstContentIsKept(a: Record<string>, b: Record<string>)
    requires a.updatedAt == b.updatedAt && a.writer == b.writer
    ensures MergeOpaque(a, b).meta == a.meta && MergeOpaque(a, b).deleted == a.deleted
  {
    TextIsTotal(a.writer, b.writer);
  }

  /** A merge of two attachments has the first one's type and thumbnail, and the later version's checksum, the first
      one's at one version, if these have any. */
  lemma FirstAttachmentIsKept(a: Record<Attachment>, b: Record<Attachment>)
    ensures var m := MergeAttachments(a, b).meta;
            && (a.meta.mimeType.Some? ==> m.mimeType == a.meta.mimeType)
            && (a.meta.thumbnailHash.Some? ==> m.thumbnailHash == a.meta.thumbnailHash)
            && (a.version >= b.version && a.meta.checksum.Some? ==> m.checksum == a.meta.checksum)
            && (a.version < b.version && b.meta.checksum.Some? ==> m.checksum == b.meta.checksum)
  {
  }

  // ----- other metadata -----------------------------------------------------------------------------

  /** The items in order, each once. */
  ghost predicate Ordered(items: seq<string>) {
    forall i, j :: 0 <= i < j < |items| ==> TextAtLeast(items[j], items[i]) && items[i] != items[j]
  }

  /** An item put in its place, unless it is there. */
  function Inserted(item: string, items: seq<string>): seq<string> {
    if items == [] then [item]
    else if item == items[0] then items
    else if TextAtLeast(items[0], item) then [item] + items
    else [items[0]] + Inserted(item, items[1..])
  }

  /** JavaScript's `[...new Set(items)].sort()`. */
  function Canon(items: seq<string>): seq<string> {
    if items == [] then [] else Inserted(items[0], Canon(items[1..]))
  }

  lemma {:induction false} InsertedOrdered(item: string, items: seq<string>)
    requires Ordered(items)
    ensures Ordered(Inserted(item, items))
    ensures forall x :: x in Inserted(item, items) <==> x == item || x in items
  {
    if items != [] && item != items[0] {
      TextIsTotal(item, items[0]);
      if TextAtLeast(items[0], item) {
        forall j | 0 <= j < |items|
          ensures TextAtLeast(items[j], item) && items[j] != item
        {
          if j > 0 {
            TextIsTransitive(items[j], items[0], item);
            TextIsTotal(items[j], items[0]);
          }
        }
      } else {
        var rest := Inserted(item, items[1..]);
        InsertedOrdered(item, items[1..]);
        forall j | 0 <= j < |rest|
          ensures TextAtLeast(rest[j], items[0]) && rest[j] != items[0]
        {
          assert rest[j] in rest;
          if rest[j] != item {
            var k :| 0 <= k < |items[1..]| && items[1..][k] == rest[j];
            assert items[k + 1] == rest[j];
          }
        }
      }
    }
  }

  lemma {:induction false} CanonOrdered(items: seq<string>)
    ensures Ordered(Canon(items))
    ensures forall x :: x in Canon(items) <==> x in items
  {
    if items != [] {
      CanonOrdered(items[1..]);
      InsertedOrdered(items[0], Canon(items[1..]));
      assert items == [items[0]] + items[1..];
    }
  }

  /** Ordered lists of the same items are the same list. */
  lemma {:induction false} OrderedIsUnique(a: seq<string>, b: seq<string>)
    requires Ordered(a) && Ordered(b) && forall x :: x in a <==> x in b
    ensures a == b
  {
    assert a != [] ==> a[0] in a;
    assert b != [] ==> b[0] in b;
    if a != [] && b != [] {
      FirstIsLeast(a, b);
      assert forall x :: x in a[1..] <==> x in a && x != a[0] by {
        TailDropsFirst(a);
      }
      assert forall x :: x in b[1..] <==> x in b && x != b[0] by {
        TailDropsFirst(b);
      }
      OrderedIsUnique(a[1..], b[1..]);
      assert a == [a[0]] + a[1..] && b == [b[0]] + b[1..];
    }
  }

  lemma TailDropsFirst(a: seq<string>)
    requires Ordered(a) && a != []
    ensures forall x :: x in a[1..] <==> x in a && x != a[0]
  {
    assert a == [a[0]] + a[1..];
    forall x | x in a[1..]
      ensures x != a[0]
    {
      var k :| 0 <= k < |a[1..]| && a[1..][k] == x;
      assert a[k + 1] == x;
    }
  }

  lemma FirstIsLeast(a: seq<string>, b: seq<string>)
    requires Ordered(a) && Ordered(b) && a != [] && b != [] && forall x :: x in a <==> x in b
    ensures a[0] == b[0]
  {
    assert a[0] in b && b[0] in a;
    var i :| 0 <= i < |b| && b[i] == a[0];
    var j :| 0 <= j < |a| && a[j] == b[0];
    TextIsTotal(a[0], b[0]);
  }

  /** Only the items matter, not their order or repetitions. */
  lemma CanonByItems(a: seq<string>, b: seq<string>)
    requires forall x :: x in a <==> x in b
    ensures Canon(a) == Canon(b)
  {
    CanonOrdered(a);
    CanonOrdered(b);
    OrderedIsUnique(Canon(a), Canon(b));
  }

  lemma CanonTwice(items: seq<string>)
    ensures Canon(items + items) == items <==> Ordered(items)
  {
    CanonOrdered(items + items);
    if Ordered(items) {
      OrderedIsUnique(Canon(items + items), items);
    }
  }

  lemma CanonCommutes(a: seq<string>, b: seq<string>)
    ensures Canon(a + b) == Canon(b + a)
  {
    CanonByItems(a + b, b + a);
  }

  lemma CanonAssociates(a: seq<string>, b: seq<string>, c: seq<string>)
    ensures Canon(Canon(a + b) + c) == Canon(a + Canon(b + c))
  {
    CanonOrdered(a + b);
    CanonOrdered(b + c);
    CanonByItems(Canon(a + b) + c, a + Canon(b + c));
  }

  /** A metadata value; the items of a list are given by their texts. */
  datatype Json = Null | Flag(flag: bool) | Number(number: int) | Text(text: string) | List(items: seq<string>)
                | Object(fields: map<string, Json>)

  function Larger(x: int, y: int): int {
    if x >= y then x else y
  }

  /**
   * Numbers, lists and objects merge; of any other two values, the later record's is kept. What only one record has
   * is taken over as it is.
   */
  function MergeValues(a: Json, b: Json, second: bool): Json
    decreases a
  {
    match (a, b)
    case (Number(x), Number(y)) => Number(Larger(x, y))
    case (List(x), List(y)) => List(Canon(x + y))
    case (Object(x), Object(y)) => Object(map k | k in x.Keys + y.Keys ::
      if k !in x then y[k] else if k !in y then x[k] else MergeValues(x[k], y[k], second))
    case _ => if second then b else a
  }

  /** Values whose merge does not depend on which comes first. */
  predicate NoClash(a: Json, b: Json)
    decreases a
  {
    match (a, b)
    case (Number(x), Number(y)) => true
    case (List(x), List(y)) => true
    case (Object(x), Object(y)) => forall k :: k in x && k in y ==> NoClash(x[k], y[k])
    case _ => a == b
  }

  lemma {:induction false} ValuesCommuteExactlyWhen(a: Json, b: Json)
    ensures MergeValues(a, b, false) == MergeValues(b, a, false) <==> NoClash(a, b)
    decreases a
  {
    if a.List? && b.List? {
      CanonCommutes(a.items, b.items);
    }
    if a.Object? && b.Object? {
      var x, y := a.fields, b.fields;
      forall k | k in x && k in y
        ensures MergeValues(x[k], y[k], false) == MergeValues(y[k], x[k], false) <==> NoClash(x[k], y[k])
      {
        ValuesCommuteExactlyWhen(x[k], y[k]);
      }
      var m, m' := MergeValues(a, b, false).fields, MergeValues(b, a, false).fields;
      if NoClash(a, b) {
        assert m == m';
      } else {
        var k :| k in x && k in y && !NoClash(x[k], y[k]);
        assert m[k] != m'[k];
      }
    }
  }

  /** Whoever has the later version, both see it. */
  lemma {:induction false} VersionsDecide(a: Json, b: Json)
    ensures MergeValues(a, b, true) == MergeValues(b, a, false)
    decreases a
  {
    if a.List? && b.List? {
      CanonCommutes(a.items, b.items);
    }
    if a.Object? && b.Object? {
      var x, y := a.fields, b.fields;
      forall k | k in x && k in y
        ensures MergeValues(x[k], y[k], true) == MergeValues(y[k], x[k], false)
      {
        VersionsDecide(x[k], y[k]);
      }
      assert MergeValues(a, b, true).fields == MergeValues(b, a, false).fields;
    }
  }

  /** Every list in this value, nested ones too, is ordered and without repetitions. */
  ghost predicate ListsOrdered(j: Json)
    decreases j
  {
    match j
    case List(items) => Ordered(items)
    case Object(fields) => forall k :: k in fields ==> ListsOrdered(fields[k])
    case _ => true
  }

  /** Every list that this merge takes over whole from one side is. */
  ghost predicate TakenListsOrdered(a: Json, b: Json, second: bool)
    decreases a
  {
    match (a, b)
    case (Number(x), Number(y)) => true
    case (List(x), List(y)) => true
    case (Object(x), Object(y)) =>
      forall k :: k in x.Keys + y.Keys ==>
        if k !in x then ListsOrdered(y[k]) else if k !in y then ListsOrdered(x[k])
        else TakenListsOrdered(x[k], y[k], second)
    case _ => ListsOrdered(if second then b else a)
  }

  lemma {:induction false} MergedListsOrdered(a: Json, b: Json, second: bool)
    ensures ListsOrdered(MergeValues(a, b, second)) <==> TakenListsOrdered(a, b, second)
    decreases a
  {
    if a.List? && b.List? {
      CanonOrdered(a.items + b.items);
    } else if a.Object? && b.Object? {
      var x, y, m := a.fields, b.fields, MergeValues(a, b, second).fields;
      forall k | k in x && k in y
        ensures ListsOrdered(m[k]) <==> TakenListsOrdered(x[k], y[k], second)
      {
        MergedListsOrdered(x[k], y[k], second);
      }
      assert m.Keys == x.Keys + y.Keys;
      assert forall k :: k in m && k !in x ==> m[k] == y[k];
      assert forall k :: k in m && k !in y ==> m[k] == x[k];
    }
  }

  /** A value merged with itself stays as it is exactly when its lists are ordered. */
  lemma {:induction false} ValuesIdempotentExactlyWhen(a: Json, second: bool)
    ensures MergeValues(a, a, second) == a <==> ListsOrdered(a)
    ensures ListsOrdered(MergeValues(a, a, second))
    decreases a
  {
    if a.List? {
      CanonTwice(a.items);
      CanonOrdered(a.items + a.items);
    } else if a.Object? {
      var m := MergeValues(a, a, second).fields;
      forall k | k in a.fields
        ensures m[k] == a.fields[k] <==> ListsOrdered(a.fields[k])
        ensures ListsOrdered(m[k])
      {
        ValuesIdempotentExactlyWhen(a.fields[k], second);
      }
      assert m.Keys == a.fields.Keys;
      if ListsOrdered(a) {
        assert m == a.fields;
      } else {
        var k :| k in a.fields && !ListsOrdered(a.fields[k]);
        assert m[k] != a.fields[k];
      }
    }
  }

  type Metadata = Option<map<string, Json>>

  function MergeMetadata(a: Record<Metadata>, b: Record<Metadata>): Record<Metadata> {
    var merged := MergeValues(Object(a.meta.GetOr(map[])), Object(b.meta.GetOr(map[])), a.version < b.version);
    Record(Max(a.version, b.version), MERGE_WRITER, Max(a.updatedAt, b.updatedAt), a.deleted && b.deleted,
           if a.meta == None && b.meta == None then None else Some(merged.fields))
  }

  /**
   * Two records' metadata merge to the same either way exactly when their versions differ or no shared field holds
   * two values of which only one can be kept.
   */
  lemma MetadataCommutesExactlyWhen(a: Record<Metadata>, b: Record<Metadata>)
    ensures MergeMetadata(a, b) == MergeMetadata(b, a)
            <==> a.version != b.version || NoClash(Object(a.meta.GetOr(map[])), Object(b.meta.GetOr(map[])))
  {
    var x, y := Object(a.meta.GetOr(map[])), Object(b.meta.GetOr(map[]));
    if a.version < b.version {
      VersionsDecide(x, y);
    } else if b.version < a.version {
      VersionsDecide(y, x);
    } else {
      ValuesCommuteExactlyWhen(x, y);
    }
  }

  /** A record without metadata has no fields. */
  function Root(r: Record<Metadata>): Json {
    Object(r.meta.GetOr(map[]))
  }

  lemma RootOfMerge(a: Record<Metadata>, b: Record<Metadata>)
    ensures Root(MergeMetadata(a, b)) == MergeValues(Root(a), Root(b), a.version < b.version)
  {
    if a.meta == None && b.meta == None {
      assert MergeValues(Root(a), Root(b), a.version < b.version).fields == map[];
    }
  }

  /** What becomes of two values under one field. */
  ghost predicate MergedValue(x: Json, y: Json, z: Json, second: bool) {
    match (x, y)
    case (Number(m), Number(n)) => z.Number? && m <= z.number && n <= z.number && (z == x || z == y)
    case (List(xs), List(ys)) =>
      z.List? && Ordered(z.items) && forall item :: item in z.items <==> item in xs || item in ys
    case (Object(xs), Object(ys)) => z.Object? && z.fields.Keys == xs.Keys + ys.Keys
    case _ => z == if second then y else x
  }

  /**
   * Field by field: what only one record has is taken over; of two numbers the greater is kept, of two lists the
   * items of both, sorted; two objects are merged as records with those fields would be; and otherwise the value of
   * the record with the later version is kept, of the first at one version.
   */
  lemma MetadataMergesByField(a: Record<Metadata>, b: Record<Metadata>, k: string)
    requires a.meta.Some? && b.meta.Some?
    ensures var m := MergeMetadata(a, b);
            var x, y := a.meta.value, b.meta.value;
            && m.meta.Some? && m.meta.value.Keys == x.Keys + y.Keys
            && (k in x && k !in y ==> m.meta.value[k] == x[k])
            && (k !in x && k in y ==> m.meta.value[k] == y[k])
            && (k in x && k in y ==>
                  && MergedValue(x[k], y[k], m.meta.value[k], a.version < b.version)
                  && (x[k].Object? && y[k].Object? ==>
                        MergeMetadata(a.(meta := Some(x[k].fields)), b.(meta := Some(y[k].fields))).meta
                        == Some(m.meta.value[k].fields)))
  {
    var x, y, second := a.meta.value, b.meta.value, a.version < b.version;
    RootOfMerge(a, b);
    assert Object(MergeMetadata(a, b).meta.value) == MergeValues(Object(x), Object(y), second);
    if k in x && k in y {
      ValuesMerge(x[k], y[k], second);
      assert MergeMetadata(a, b).meta.value[k] == MergeValues(x[k], y[k], second);
    }
  }

  lemma ValuesMerge(x: Json, y: Json, second: bool)
    ensures MergedValue(x, y, MergeValues(x, y, second), second)
  {
    if x.List? && y.List? {
      CanonOrdered(x.items + y.items);
    }
  }

  /** A record without metadata adds none; a merge is deleted if both records are; and it carries the latest version
      and time. */
  lemma MetadataMergesBeside(a: Record<Metadata>, b: Record<Metadata>)
    ensures var m := MergeMetadata(a, b);
            && (m.meta == None <==> a.meta == None && b.meta == None)
            && (a.meta.Some? && b.meta == None ==> m.meta == a.meta)
            && (a.meta == None && b.meta.Some? ==> m.meta == b.meta)
            && (m.deleted <==> a.deleted && b.deleted)
            && m.writer == "merge"
            && CarriesLatest(m.version, m.updatedAt, multiset{a, b})
  {
    RootOfMerge(a, b);
    if a.meta.Some? && b.meta == None {
      assert MergeMetadata(a, b).meta.value == a.meta.value;
    }
    if a.meta == None && b.meta.Some? {
      assert MergeMetadata(a, b).meta.value == b.meta.value;
    }
    assert a in multiset{a, b} && b in multiset{a, b};
  }

  /**
   * Merging a merge with itself changes nothing exactly when every list that the merge took over whole, because the
   * other record has none at its place or another kind of value, was ordered and without repetitions.
   */
  lemma MetadataIsIdempotentExactlyWhen(a: Record<Metadata>, b: Record<Metadata>)
    ensures var m := MergeMetadata(a, b);
            MergeMetadata(m, m) == m <==> TakenListsOrdered(Root(a), Root(b), a.version < b.version)
  {
    var m := MergeMetadata(a, b);
    RootOfMerge(a, b);
    RootOfMerge(m, m);
    ValuesIdempotentExactlyWhen(Root(m), false);
    MergedListsOrdered(Root(a), Root(b), a.version < b.version);
    assert MergeMetadata(m, m) == m <==> Root(MergeMetadata(m, m)) == Root(m);
  }

  /** One more merge settles it: the second merge with itself changes nothing. */
  lemma SecondMergeSettles(m: Record<Metadata>)
    ensures var n := MergeMetadata(m, m); MergeMetadata(n, n) == n
  {
    var n := MergeMetadata(m, m);
    RootOfMerge(m, m);
    RootOfMerge(n, n);
    ValuesIdempotentExactlyWhen(Root(m), false);
    ValuesIdempotentExactlyWhen(Root(n), false);
    assert MergeMetadata(n, n) == n <==> Root(MergeMetadata(n, n)) == Root(n);
  }

  /** A list that only one record has is kept in its order, and sorted when the merge is merged with itself. */
  lemma RawListExample(field: string)
    ensures var a := Record(1, "w", 0, false, Some(map[field := List(["b", "a"])]));
            var b := Record(1, "w", 0, false, Some(map[]));
            var m := MergeMetadata(a, b);
            && m.meta == Some(map[field := List(["b", "a"])])
            && MergeMetadata(m, m).meta == Some(map[field := List(["a", "b"])])
  {
    var a: Record<Metadata> := Record(1, "w", 0, false, Some(map[field := List(["b", "a"])]));
    var b: Record<Metadata> := Record(1, "w", 0, false, Some(map[]));
    var m := MergeMetadata(a, b);
    assert m.meta.value == map[field := List(["b", "a"])];
    CanonOrdered(["b", "a"] + ["b", "a"]);
    assert "a"[0] != "b"[0];
    OrderedIsUnique(Canon(["b", "a"] + ["b", "a"]), ["a", "b"]);
    var twice := MergeMetadata(m, m).meta.value;
    assert twice.Keys == {field} && twice[field] == MergeValues(m.meta.value[field], m.meta.value[field], false);
    assert twice[field] == List(Canon(["b", "a"] + ["b", "a"]));
    assert MergeMetadata(m, m).meta.value == map[field := List(["a", "b"])];
  }

  /** Merges by the other strategies, merged with themselves, stay as they are. */
  lemma OtherMergesAreIdempotent(r: Record<Readers>, r': Record<Readers>, d: Record<Option<string>>,
                                 d': Record<Option<string>>, o: Record<string>, a: Record<Attachment>,
                                 a': Record<Attachment>)
    ensures var m := MergeReceipts(r, r'); MergeReceipts(m, m) == m
    ensures var m := MergeDelivery(d, d'); MergeDelivery(m, m) == m
    ensures MergeOpaque(o, o) == o
    ensures var m := MergeAttachments(a, a'); MergeAttachments(m, m) == m
  {
    var m := MergeReceipts(r, r');
    assert MergeReaders(m.meta, m.meta) == m.meta;
  }

  // ----- merging in any order, whatever does not clash ----------------------------------------------

  /** The combination of all records' values, along a tree. */
  function Combined<X, V>(join: (V, V) -> V, view: X -> V, t: Tree<X>): V {
    match t
    case Leaf(x) => view(x)
    case Node(l, r) => join(Combined(join, view, l), Combined(join, view, r))
  }

  /** An associative and commutative combination. */
  ghost predicate Joins<V(!new)>(join: (V, V) -> V) {
    && (forall x, y :: join(x, y) == join(y, x))
    && (forall x, y, z :: join(join(x, y), z) == join(x, join(y, z)))
  }

  lemma Regroup<V(!new)>(join: (V, V) -> V, a: V, b: V, c: V)
    requires Joins(join)
    ensures join(join(a, b), c) == join(a, join(b, c)) && join(b, join(a, c)) == join(a, join(b, c))
  {
    assert join(join(b, a), c) == join(b, join(a, c)) && join(b, a) == join(a, b);
  }

  lemma WithoutOne<X>(a: multiset<X>, b: multiset<X>, x: X)
    requires x in a
    ensures (a - multiset{x}) + b == (a + b) - multiset{x} && b + (a - multiset{x}) == (b + a) - multiset{x}
  {
  }

  /** Any record can be brought to the front. */
  lemma {:induction false} BringForward<X, V(!new)>(join: (V, V) -> V, view: X -> V, t: Tree<X>, x: X)
    returns (rest: Tree<X>)
    requires Joins(join) && x in Leaves(t) && t.Node?
    ensures Leaves(rest) == Leaves(t) - multiset{x}
    ensures Combined(join, view, t) == join(view(x), Combined(join, view, rest))
    decreases t
  {
    var l, r := t.left, t.right;
    if x in Leaves(l) {
      WithoutOne(Leaves(l), Leaves(r), x);
      if l.Leaf? {
        rest := r;
      } else {
        var l' := BringForward(join, view, l, x);
        rest := Node(l', r);
        Regroup(join, view(x), Combined(join, view, l'), Combined(join, view, r));
      }
    } else {
      WithoutOne(Leaves(r), Leaves(l), x);
      if r.Leaf? {
        rest := l;
      } else {
        var r' := BringForward(join, view, r, x);
        rest := Node(l, r');
        Regroup(join, view(x), Combined(join, view, l), Combined(join, view, r'));
      }
    }
  }

  /** Such a combination does not depend on the tree. */
  lemma {:induction false} CombinedConverges<X, V(!new)>(join: (V, V) -> V, view: X -> V, t: Tree<X>, t': Tree<X>)
    requires Joins(join) && Leaves(t) == Leaves(t')
    ensures Combined(join, view, t) == Combined(join, view, t')
    decreases |Leaves(t)|
  {
    LeavesAlike(t, t');
    if t.Node? {
      var x :| x in Leaves(t);
      var rest := BringForward(join, view, t, x);
      var rest' := BringForward(join, view, t', x);
      assert |Leaves(rest)| == |Leaves(t)| - 1;
      CombinedConverges(join, view, rest, rest');
    }
  }

  // ----- values by path -----------------------------------------------------------------------------

  type Path = seq<string>

  /** What stands at a path: a value, or an object without its fields. */
  function At(path: Path, j: Json): Option<Json> {
    if path == [] then Some(if j.Object? then Object(map[]) else j)
    else if j.Object? && path[0] in j.fields then At(path[1..], j.fields[path[0]])
    else None
  }

  datatype Kind = Scalar | Numeric | Listed | Nested

  function KindOf(j: Json): Kind {
    match j
    case Number(_) => Numeric
    case List(_) => Listed
    case Object(_) => Nested
    case _ => Scalar
  }

  /** A path that begins with a field goes on inside it. */
  lemma AtField(k: string, path: Path, j: Json)
    requires j.Object?
    ensures At([k] + path, j) == if k in j.fields then At(path, j.fields[k]) else None
  {
    assert ([k] + path)[1..] == path;
  }

  lemma FieldIsThere(k: string, j: Json)
    requires j.Object?
    ensures At([k], j).Some? <==> k in j.fields
  {
    AtField(k, [], j);
    assert [k] + [] == [k];
  }

  /** Values are equal that are equal at every path. */
  lemma {:induction false} SameEverywhere(a: Json, b: Json)
    requires forall path :: At(path, a) == At(path, b)
    ensures a == b
    decreases a
  {
    assert At([], a) == At([], b);
    if a.Object? {
      assert b.Object?;
      forall k
        ensures k in a.fields <==> k in b.fields
        ensures k in a.fields && k in b.fields ==> a.fields[k] == b.fields[k]
      {
        FieldIsThere(k, a);
        FieldIsThere(k, b);
        assert At([k], a) == At([k], b);
        if k in a.fields && k in b.fields {
          forall path
            ensures At(path, a.fields[k]) == At(path, b.fields[k])
          {
            AtField(k, path, a);
            AtField(k, path, b);
          }
          SameEverywhere(a.fields[k], b.fields[k]);
        }
      }
      assert a.fields == b.fields;
    }
  }

  /** Wherever both have a value, it is of the same kind. */
  ghost predicate Alike(a: Json, b: Json) {
    forall path :: At(path, a).Some? && At(path, b).Some? ==> KindOf(At(path, a).value) == KindOf(At(path, b).value)
  }

  /** How two values at one path merge. */
  function MergeAt(x: Option<Json>, y: Option<Json>, second: bool): Option<Json> {
    if x == None then y else if y == None then x else Some(MergeValues(x.value, y.value, second))
  }

  lemma AlikeBelow(a: Json, b: Json, k: string)
    requires Alike(a, b) && a.Object? && b.Object? && k in a.fields && k in b.fields
    ensures Alike(a.fields[k], b.fields[k])
  {
    forall path | At(path, a.fields[k]).Some? && At(path, b.fields[k]).Some?
      ensures KindOf(At(path, a.fields[k]).value) == KindOf(At(path, b.fields[k]).value)
    {
      assert ([k] + path)[1..] == path;
      assert At([k] + path, a).Some? && At([k] + path, b).Some?;
    }
  }

  /** Alike values merge path by path. */
  lemma {:induction false} MergesByPath(a: Json, b: Json, second: bool, path: Path)
    requires Alike(a, b)
    ensures At(path, MergeValues(a, b, second)) == MergeAt(At(path, a), At(path, b), second)
    decreases |path|
  {
    assert At([], a).Some? && At([], b).Some?;
    if path != [] && a.Object? {
      var k := path[0];
      if k in a.fields && k in b.fields {
        AlikeBelow(a, b, k);
        MergesByPath(a.fields[k], b.fields[k], second, path[1..]);
      }
    }
  }

  // ----- whole records ------------------------------------------------------------------------------

  /** Every path holds one kind of value over these records: scalars, numbers, lists or objects. */
  ghost predicate OneKindEach(records: multiset<Record<Metadata>>) {
    forall a, b :: a in records && b in records ==> Alike(Root(a), Root(b))
  }

  /** Whatever a merge has at a path is of the kind that some record has there. */
  ghost predicate KindsFrom(r: Record<Metadata>, records: multiset<Record<Metadata>>) {
    forall path :: At(path, Root(r)).Some? ==>
      exists a :: a in records && At(path, Root(a)).Some? && KindOf(At(path, Root(a)).value) == KindOf(At(path, Root(r)).value)
  }

  lemma KindsFromAlike(a: Record<Metadata>, b: Record<Metadata>, records: multiset<Record<Metadata>>)
    requires OneKindEach(records) && KindsFrom(a, records) && KindsFrom(b, records)
    ensures Alike(Root(a), Root(b))
  {
  }

  lemma MergedKind(x: Json, y: Json, second: bool)
    requires KindOf(x) == KindOf(y)
    ensures KindOf(MergeValues(x, y, second)) == KindOf(x)
  {
  }

  /** Merging records merges their roots, path by path. */
  lemma MergesRoots(a: Record<Metadata>, b: Record<Metadata>, path: Path)
    requires Alike(Root(a), Root(b))
    ensures At(path, Root(MergeMetadata(a, b))) == MergeAt(At(path, Root(a)), At(path, Root(b)), a.version < b.version)
  {
    RootOfMerge(a, b);
    MergesByPath(Root(a), Root(b), a.version < b.version, path);
  }

  lemma MergeKindsFrom(a: Record<Metadata>, b: Record<Metadata>, records: multiset<Record<Metadata>>)
    requires OneKindEach(records) && KindsFrom(a, records) && KindsFrom(b, records)
    ensures KindsFrom(MergeMetadata(a, b), records)
  {
    KindsFromAlike(a, b, records);
    forall path | At(path, Root(MergeMetadata(a, b))).Some?
      ensures exists c :: c in records && At(path, Root(c)).Some?
                && KindOf(At(path, Root(c)).value) == KindOf(At(path, Root(MergeMetadata(a, b))).value)
    {
      MergesRoots(a, b, path);
      var x, y := At(path, Root(a)), At(path, Root(b));
      if x.Some? && y.Some? {
        MergedKind(x.value, y.value, a.version < b.version);
      }
    }
  }

  lemma {:induction false} TreeKindsFrom(t: Tree<Record<Metadata>>, records: multiset<Record<Metadata>>)
    requires OneKindEach(records) && Leaves(t) <= records
    ensures KindsFrom(Eval(MergeMetadata, t), records)
  {
    match t
    case Leaf(r) => assert r in records;
    case Node(l, r) =>
      TreeKindsFrom(l, records);
      TreeKindsFrom(r, records);
      MergeKindsFrom(Eval(MergeMetadata, l), Eval(MergeMetadata, r), records);
  }

  /** At a path, one step of a tree merges what its two sides have there. */
  lemma NodeAt(t: Tree<Record<Metadata>>, records: multiset<Record<Metadata>>, path: Path)
    requires OneKindEach(records) && Leaves(t) <= records && t.Node?
    ensures var a, b := Eval(MergeMetadata, t.left), Eval(MergeMetadata, t.right);
            && At(path, Root(Eval(MergeMetadata, t)))
               == MergeAt(At(path, Root(a)), At(path, Root(b)), a.version < b.version)
            && (At(path, Root(a)).Some? && At(path, Root(b)).Some? ==>
                  KindOf(At(path, Root(a)).value) == KindOf(At(path, Root(b)).value))
  {
    TreeKindsFrom(t.left, records);
    TreeKindsFrom(t.right, records);
    KindsFromAlike(Eval(MergeMetadata, t.left), Eval(MergeMetadata, t.right), records);
    MergesRoots(Eval(MergeMetadata, t.left), Eval(MergeMetadata, t.right), path);
  }

  /** Every value these records have at this path is of this kind. */
  ghost predicate HasKind(path: Path, kind: Kind, records: multiset<Record<Metadata>>) {
    forall r :: r in records && At(path, Root(r)).Some? ==> KindOf(At(path, Root(r)).value) == kind
  }

  lemma KindAt(path: Path, records: multiset<Record<Metadata>>) returns (kind: Kind)
    requires OneKindEach(records)
    ensures HasKind(path, kind, records)
    ensures kind == Scalar ==> exists r :: r in records && At(path, Root(r)).Some?
  {
    kind := Nested;
    if r :| r in records && At(path, Root(r)).Some? {
      kind := KindOf(At(path, Root(r)).value);
      forall a | a in records && At(path, Root(a)).Some?
        ensures KindOf(At(path, Root(a)).value) == kind
      {
        assert Alike(Root(a), Root(r));
      }
    }
  }

  /** What a tree has at a path is of the records' kind there. */
  lemma TreeHasKind(t: Tree<Record<Metadata>>, records: multiset<Record<Metadata>>, path: Path, kind: Kind)
    requires OneKindEach(records) && Leaves(t) <= records && HasKind(path, kind, records)
    ensures var x := At(path, Root(Eval(MergeMetadata, t))); x.Some? ==> KindOf(x.value) == kind
  {
    TreeKindsFrom(t, records);
  }

  function ScalarAt(path: Path): Record<Metadata> -> Stamped<Json> {
    (r: Record<Metadata>) => Stamped(r.version, At(path, Root(r)))
  }

  lemma ScalarsMerge(x: Option<Json>, y: Option<Json>, v: nat, w: nat)
    requires x.Some? ==> KindOf(x.value) == Scalar
    requires y.Some? ==> KindOf(y.value) == Scalar
    ensures MergeAt(x, y, v < w) == Follow(Stamped(v, x), Stamped(w, y)).value
  {
  }

  /** Scalars follow the version. */
  lemma {:induction false} ScalarsFollow(t: Tree<Record<Metadata>>, records: multiset<Record<Metadata>>, path: Path)
    requires OneKindEach(records) && Leaves(t) <= records && HasKind(path, Scalar, records)
    ensures ScalarAt(path)(Eval(MergeMetadata, t)) == Followed(ScalarAt(path), t)
  {
    if t.Node? {
      ScalarsFollow(t.left, records, path);
      ScalarsFollow(t.right, records, path);
      NodeAt(t, records, path);
      TreeHasKind(t.left, records, path, Scalar);
      TreeHasKind(t.right, records, path, Scalar);
      var a, b := Eval(MergeMetadata, t.left), Eval(MergeMetadata, t.right);
      ScalarsMerge(At(path, Root(a)), At(path, Root(b)), a.version, b.version);
    }
  }

  /** The greatest number, among those there are. */
  function JoinNumbers(x: Option<Json>, y: Option<Json>): Option<Json> {
    if !(x.Some? && x.value.Number?) then if y.Some? && y.value.Number? then y else None
    else if !(y.Some? && y.value.Number?) then x
    else Some(Number(Larger(x.value.number, y.value.number)))
  }

  /** All items, of the lists there are; a single list as it is. */
  function JoinLists(x: Option<Json>, y: Option<Json>): Option<Json> {
    if !(x.Some? && x.value.List?) then if y.Some? && y.value.List? then y else None
    else if !(y.Some? && y.value.List?) then x
    else Some(List(Canon(x.value.items + y.value.items)))
  }

  /** An object, if there is one. */
  function JoinObjects(x: Option<Json>, y: Option<Json>): Option<Json> {
    if x == Some(Object(map[])) || y == Some(Object(map[])) then Some(Object(map[])) else None
  }

  function JoinOf(kind: Kind): (Option<Json>, Option<Json>) -> Option<Json>
    requires kind != Scalar
  {
    match kind
    case Numeric => JoinNumbers
    case Listed => JoinLists
    case Nested => JoinObjects
  }

  lemma NumbersJoin()
    ensures Joins(JoinNumbers)
  {
  }

  lemma ListsJoin()
    ensures Joins(JoinLists)
  {
    forall x: Option<Json>, y: Option<Json>
      ensures JoinLists(x, y) == JoinLists(y, x)
    {
      if x.Some? && x.value.List? && y.Some? && y.value.List? {
        CanonCommutes(x.value.items, y.value.items);
      }
    }
    forall x: Option<Json>, y: Option<Json>, z: Option<Json>
      ensures JoinLists(JoinLists(x, y), z) == JoinLists(x, JoinLists(y, z))
    {
      if x.Some? && x.value.List? && y.Some? && y.value.List? && z.Some? && z.value.List? {
        CanonAssociates(x.value.items, y.value.items, z.value.items);
      }
    }
  }

  lemma ObjectsJoin()
    ensures Joins(JoinObjects)
  {
  }

  lemma JoinsOfKind(kind: Kind)
    requires kind != Scalar
    ensures Joins(JoinOf(kind))
  {
    match kind
    case Numeric => NumbersJoin();
    case Listed => ListsJoin();
    case Nested => ObjectsJoin();
  }

  function ValueAt(path: Path): Record<Metadata> -> Option<Json> {
    (r: Record<Metadata>) => At(path, Root(r))
  }

  /** An object at a path is shown without its fields. */
  lemma {:induction false} ObjectsAreBare(path: Path, j: Json)
    ensures At(path, j).Some? && At(path, j).value.Object? ==> At(path, j) == Some(Object(map[]))
    decreases |path|
  {
    if path != [] && j.Object? && path[0] in j.fields {
      ObjectsAreBare(path[1..], j.fields[path[0]]);
    }
  }

  lemma MergeIsJoin(kind: Kind, x: Option<Json>, y: Option<Json>, second: bool)
    requires kind != Scalar
    requires x.Some? ==> KindOf(x.value) == kind && (x.value.Object? ==> x == Some(Object(map[])))
    requires y.Some? ==> KindOf(y.value) == kind && (y.value.Object? ==> y == Some(Object(map[])))
    ensures MergeAt(x, y, second) == JoinOf(kind)(x, y)
  {
    if kind == Nested && x.Some? && y.Some? {
      assert MergeValues(x.value, y.value, second).fields == map[];
    }
  }

  /** Numbers, lists and objects combine whatever the tree. */
  lemma {:induction false} OthersCombine(t: Tree<Record<Metadata>>, records: multiset<Record<Metadata>>, path: Path,
                                         kind: Kind)
    requires OneKindEach(records) && Leaves(t) <= records && HasKind(path, kind, records) && kind != Scalar
    ensures At(path, Root(Eval(MergeMetadata, t))) == Combined(JoinOf(kind), ValueAt(path), t)
  {
    if t.Node? {
      var a, b := Eval(MergeMetadata, t.left), Eval(MergeMetadata, t.right);
      OthersCombine(t.left, records, path, kind);
      OthersCombine(t.right, records, path, kind);
      NodeAt(t, records, path);
      TreeHasKind(t.left, records, path, kind);
      TreeHasKind(t.right, records, path, kind);
      ObjectsAreBare(path, Root(a));
      ObjectsAreBare(path, Root(b));
      MergeIsJoin(kind, At(path, Root(a)), At(path, Root(b)), a.version < b.version);
    }
  }

  /** The greatest of the numbers that these records hold at a path; none if none holds one. */
  ghost predicate IsGreatestNumber(z: Option<Json>, path: Path, records: multiset<Record<Metadata>>) {
    && (z == None <==> forall r :: r in records ==> At(path, Root(r)) == None)
    && (z.Some? ==>
          && z.value.Number?
          && (exists r :: r in records && At(path, Root(r)) == z)
          && forall r :: r in records ==> NoGreater(At(path, Root(r)), z.value.number))
  }

  predicate NoGreater(x: Option<Json>, n: int) {
    x.Some? && x.value.Number? ==> x.value.number <= n
  }

  lemma GreatestOfBoth(x: Option<Json>, y: Option<Json>, path: Path, a: multiset<Record<Metadata>>,
                       b: multiset<Record<Metadata>>)
    requires IsGreatestNumber(x, path, a) && IsGreatestNumber(y, path, b)
    ensures IsGreatestNumber(JoinNumbers(x, y), path, a + b)
  {
    var z := JoinNumbers(x, y);
    assert z == x || z == y;
    if z.Some? {
      if z == x {
        var r :| r in a && At(path, Root(r)) == z;
        assert r in a + b;
      } else {
        var r :| r in b && At(path, Root(r)) == z;
        assert r in a + b;
      }
    }
  }

  lemma {:induction false} JoinedNumbers(t: Tree<Record<Metadata>>, path: Path)
    requires HasKind(path, Numeric, Leaves(t))
    ensures IsGreatestNumber(Combined(JoinNumbers, ValueAt(path), t), path, Leaves(t))
  {
    if t.Node? {
      JoinedNumbers(t.left, path);
      JoinedNumbers(t.right, path);
      GreatestOfBoth(Combined(JoinNumbers, ValueAt(path), t.left), Combined(JoinNumbers, ValueAt(path), t.right), path,
                     Leaves(t.left), Leaves(t.right));
    } else {
      assert t.record in Leaves(t);
    }
  }

  /** Where the records hold numbers, however they are merged, the merge holds the greatest of them. */
  lemma MergesHoldGreatestNumber(t: Tree<Record<Metadata>>, path: Path)
    requires OneKindEach(Leaves(t)) && HasKind(path, Numeric, Leaves(t))
    ensures IsGreatestNumber(At(path, Root(Eval(MergeMetadata, t))), path, Leaves(t))
  {
    OthersCombine(t, Leaves(t), path, Numeric);
    JoinedNumbers(t, path);
  }

  /** The record's list at this path holds the item. */
  predicate ListsItem(r: Record<Metadata>, path: Path, item: string) {
    var x := At(path, Root(r));
    x.Some? && x.value.List? && item in x.value.items
  }

  lemma {:induction false} JoinedLists(t: Tree<Record<Metadata>>, path: Path, item: string)
    requires HasKind(path, Listed, Leaves(t))
    ensures var z := Combined(JoinLists, ValueAt(path), t);
            && (z.Some? ==> z.value.List?)
            && ((z.Some? && item in z.value.items) <==> exists r :: r in Leaves(t) && ListsItem(r, path, item))
  {
    if t.Node? {
      assert forall r :: r in Leaves(t) <==> r in Leaves(t.left) || r in Leaves(t.right);
      JoinedLists(t.left, path, item);
      JoinedLists(t.right, path, item);
      var a, b := Combined(JoinLists, ValueAt(path), t.left), Combined(JoinLists, ValueAt(path), t.right);
      if a.Some? && b.Some? {
        CanonOrdered(a.value.items + b.value.items);
      }
    } else {
      assert t.record in Leaves(t);
    }
  }

  /** Where the records hold lists, however they are merged, the merge lists exactly their items. */
  lemma MergesHoldAllItems(t: Tree<Record<Metadata>>, path: Path, item: string)
    requires OneKindEach(Leaves(t)) && HasKind(path, Listed, Leaves(t))
    ensures ListsItem(Eval(MergeMetadata, t), path, item) <==> exists r :: r in Leaves(t) && ListsItem(r, path, item)
  {
    OthersCombine(t, Leaves(t), path, Listed);
    JoinedLists(t, path, item);
  }

  function Both(x: bool, y: bool): bool {
    x && y
  }

  function Either(x: bool, y: bool): bool {
    x || y
  }

  function DeletedIn(r: Record<Metadata>): bool {
    r.deleted
  }

  function HasMetadata(r: Record<Metadata>): bool {
    r.meta.Some?
  }

  /** Everything but the fields. */
  lemma {:induction false} MetadataByField(t: Tree<Record<Metadata>>)
    ensures var r := Eval(MergeMetadata, t);
            && r.version == Picked(AtLeast, VersionOf, t) && r.updatedAt == Picked(AtLeast, TimeOf, t)
            && r.deleted == Combined(Both, DeletedIn, t) && r.meta.Some? == Combined(Either, HasMetadata, t)
            && (t.Node? ==> r.writer == MERGE_WRITER)
  {
    if t.Node? {
      MetadataByField(t.left);
      MetadataByField(t.right);
    }
  }

  lemma BothJoins()
    ensures Joins(Both)
  {
  }

  lemma EitherJoins()
    ensures Joins(Either)
  {
  }

  lemma SameDeleted(t: Tree<Record<Metadata>>, t': Tree<Record<Metadata>>)
    requires Leaves(t) == Leaves(t')
    ensures Combined(Both, DeletedIn, t) == Combined(Both, DeletedIn, t')
  {
    BothJoins();
    CombinedConverges(Both, DeletedIn, t, t');
  }

  lemma SamePresence(t: Tree<Record<Metadata>>, t': Tree<Record<Metadata>>)
    requires Leaves(t) == Leaves(t')
    ensures Combined(Either, HasMetadata, t) == Combined(Either, HasMetadata, t')
  {
    EitherJoins();
    CombinedConverges(Either, HasMetadata, t, t');
  }

  lemma SameStamps(t: Tree<Record<Metadata>>, t': Tree<Record<Metadata>>)
    requires Leaves(t) == Leaves(t')
    ensures Picked(AtLeast, VersionOf, t) == Picked(AtLeast, VersionOf, t')
    ensures Picked(AtLeast, TimeOf, t) == Picked(AtLeast, TimeOf, t')
  {
    NumbersConverge(VersionOf, Leaves(t), t, t');
    NumbersConverge(TimeOf, Leaves(t), t, t');
  }

  lemma {:induction false} AllDeleted(t: Tree<Record<Metadata>>)
    ensures Combined(Both, DeletedIn, t) <==> forall r :: r in Leaves(t) ==> r.deleted
  {
    if t.Node? {
      assert forall r :: r in Leaves(t) <==> r in Leaves(t.left) || r in Leaves(t.right);
      AllDeleted(t.left);
      AllDeleted(t.right);
    } else {
      assert t.record in Leaves(t);
    }
  }

  /** In whatever order records are merged, the merge carries their latest version and time and is marked as one. */
  lemma ReceiptsCarryLatest(t: Tree<Record<Readers>>)
    ensures var x := Eval(MergeReceipts, t);
            CarriesLatest(x.version, x.updatedAt, Leaves(t)) && (t.Node? ==> x.writer == "merge" && !x.deleted)
  {
    ReceiptsByField(t, "");
    PickedLatest<Readers>(t);
  }

  lemma DeliveryCarriesLatest(t: Tree<Record<Option<string>>>)
    ensures var x := Eval(MergeDelivery, t);
            CarriesLatest(x.version, x.updatedAt, Leaves(t)) && (t.Node? ==> x.writer == "merge" && !x.deleted)
  {
    DeliveryByField(t);
    PickedLatest(t);
  }

  lemma AttachmentsCarryLatest(t: Tree<Record<Attachment>>)
    ensures var x := Eval(MergeAttachments, t);
            CarriesLatest(x.version, x.updatedAt, Leaves(t)) && (t.Node? ==> x.writer == "merge" && !x.deleted)
  {
    AttachmentsByField(t);
    PickedLatest(t);
  }

  /** Merged metadata is deleted exactly if all its records are. */
  lemma MetadataCarriesLatest(t: Tree<Record<Metadata>>)
    ensures var x := Eval(MergeMetadata, t);
            && CarriesLatest(x.version, x.updatedAt, Leaves(t)) && (t.Node? ==> x.writer == "merge")
            && (x.deleted <==> forall r :: r in Leaves(t) ==> r.deleted)
  {
    MetadataByField(t);
    PickedLatest(t);
    AllDeleted(t);
  }

  /** Of two merges of the same records, everything but the fields is the same. */
  lemma SameButFields(t: Tree<Record<Metadata>>, t': Tree<Record<Metadata>>)
    requires Leaves(t) == Leaves(t')
    ensures var r, r' := Eval(MergeMetadata, t), Eval(MergeMetadata, t');
            && r.version == r'.version && r.updatedAt == r'.updatedAt && r.deleted == r'.deleted
            && r.meta.Some? == r'.meta.Some? && r.writer == r'.writer
  {
    LeavesAlike(t, t');
    MetadataByField(t);
    MetadataByField(t');
    SameStamps(t, t');
    SameDeleted(t, t');
    SamePresence(t, t');
  }

  lemma SameRecord(r: Record<Metadata>, r': Record<Metadata>)
    requires r.version == r'.version && r.updatedAt == r'.updatedAt && r.deleted == r'.deleted
    requires r.meta.Some? == r'.meta.Some? && r.writer == r'.writer && Root(r) == Root(r')
    ensures r == r'
  {
  }

  lemma SameMetadata(t: Tree<Record<Metadata>>, t': Tree<Record<Metadata>>)
    requires Leaves(t) == Leaves(t')
    requires forall path :: At(path, Root(Eval(MergeMetadata, t))) == At(path, Root(Eval(MergeMetadata, t')))
    ensures Eval(MergeMetadata, t) == Eval(MergeMetadata, t')
  {
    SameButFields(t, t');
    SameEverywhere(Root(Eval(MergeMetadata, t)), Root(Eval(MergeMetadata, t')));
    SameRecord(Eval(MergeMetadata, t), Eval(MergeMetadata, t'));
  }

  /** Wherever these records hold scalars, the scalars are settled. */
  ghost predicate ScalarsSettled(records: multiset<Record<Metadata>>) {
    forall path :: HasKind(path, Scalar, records) ==> Settled(ScalarAt(path), records)
  }

  lemma SettledAt(t: Tree<Record<Metadata>>, t': Tree<Record<Metadata>>, records: multiset<Record<Metadata>>, path: Path)
    requires OneKindEach(records) && Leaves(t) == records && Leaves(t') == records && ScalarsSettled(records)
    ensures At(path, Root(Eval(MergeMetadata, t))) == At(path, Root(Eval(MergeMetadata, t')))
  {
    var kind := KindAt(path, records);
    if kind == Scalar {
      ScalarsFollow(t, records, path);
      ScalarsFollow(t', records, path);
      SettledConverges(ScalarAt(path), records, t, t');
    } else {
      OthersCombine(t, records, path, kind);
      OthersCombine(t', records, path, kind);
      JoinsOfKind(kind);
      CombinedConverges(JoinOf(kind), ValueAt(path), t, t');
    }
  }

  /**
   * When every path, into nested objects too, holds one kind of value over the records, whole records merge to the
   * same in every order and grouping exactly when the scalars are settled at every path that holds scalars: all the
   * same wherever present, or present and the same on every record of the latest version. Numbers, lists, objects,
   * tombstones and missing metadata never matter.
   */
  lemma MetadataConvergesExactlyWhen(records: multiset<Record<Metadata>>)
    requires OneKindEach(records)
    ensures Converges(MergeMetadata, records) <==> ScalarsSettled(records)
  {
    if ScalarsSettled(records) {
      forall t, t' | Leaves(t) == records && Leaves(t') == records
        ensures Eval(MergeMetadata, t) == Eval(MergeMetadata, t')
      {
        forall path
          ensures At(path, Root(Eval(MergeMetadata, t))) == At(path, Root(Eval(MergeMetadata, t')))
        {
          SettledAt(t, t', records, path);
        }
        SameMetadata(t, t');
      }
    } else {
      var path :| HasKind(path, Scalar, records) && !Settled(ScalarAt(path), records);
      var t, t' := UnsettledDiverges(ScalarAt(path), records);
      ScalarsFollow(t, records, path);
      ScalarsFollow(t', records, path);
    }
  }

  /** A record with one text field, or without it. */
  function OneField(version: nat, field: string, text: Option<string>): Record<Metadata> {
    Record(version, "w", 0, false, Some(if text.Some? then map[field := Text(text.value)] else map[]))
  }

  /** Two texts at one version: each side keeps its own. */
  lemma ClashExample(field: string, p: string, q: string)
    requires p != q
    ensures var a, b := OneField(1, field, Some(p)), OneField(1, field, Some(q));
            MergeMetadata(a, b) != MergeMetadata(b, a)
  {
    var a, b := OneField(1, field, Some(p)), OneField(1, field, Some(q));
    MetadataCommutesExactlyWhen(a, b);
    var x, y := map[field := Text(p)], map[field := Text(q)];
    assert field in x && field in y && !NoClash(x[field], y[field]);
    assert !NoClash(Object(x), Object(y));
  }

  /** A record with one field. */
  function Holding(version: nat, field: string, value: Json): Record<Metadata> {
    Record(version, "w", 0, false, Some(map[field := value]))
  }

  lemma MergeOneField(a: Record<Metadata>, b: Record<Metadata>, field: string, x: Json, y: Json)
    requires a.meta == Some(map[field := x]) && b.meta == Some(map[field := y])
    ensures MergeMetadata(a, b).meta == Some(map[field := MergeValues(x, y, a.version < b.version)])
    ensures MergeMetadata(a, b).version == Max(a.version, b.version)
  {
    assert MergeMetadata(a, b).meta.value == map[field := MergeValues(x, y, a.version < b.version)];
  }

  /**
   * Three records of different versions, so any two of them merge the same either way; but the latest lacks the
   * field, and which text it ends up with depends on whom it meets first.
   */
  lemma GroupingExample(field: string, p: string, q: string)
    requires p != q
    ensures var a, b, c := OneField(3, field, None), OneField(2, field, Some(p)), OneField(1, field, Some(q));
            MergeMetadata(MergeMetadata(a, b), c) != MergeMetadata(MergeMetadata(a, c), b)
  {
    var a, b, c := OneField(3, field, None), OneField(2, field, Some(p)), OneField(1, field, Some(q));
    var ab, ac := MergeMetadata(a, b), MergeMetadata(a, c);
    assert ab.meta.value == map[field := Text(p)] && ac.meta.value == map[field := Text(q)];
    MergeOneField(ab, c, field, Text(p), Text(q));
    MergeOneField(ac, b, field, Text(q), Text(p));
    assert map[field := Text(p)][field] != map[field := Text(q)][field];
  }

  /**
   * Values of different kinds at one path, all at different versions, so any two of the records merge the same
   * either way; but the older number counts only if it meets the newer one before it meets the text.
   */
  lemma MixedKindsExample(field: string, text: string)
    ensures var a, b, c := Holding(3, field, Number(5)), Holding(2, field, Text(text)), Holding(1, field, Number(7));
            && MergeMetadata(MergeMetadata(a, c), b).meta == Some(map[field := Number(7)])
            && MergeMetadata(a, MergeMetadata(b, c)).meta == Some(map[field := Number(5)])
  {
    var a, b, c := Holding(3, field, Number(5)), Holding(2, field, Text(text)), Holding(1, field, Number(7));
    MergeOneField(a, c, field, Number(5), Number(7));
    MergeOneField(b, c, field, Text(text), Number(7));
    MergeOneField(MergeMetadata(a, c), b, field, Number(7), Text(text));
    MergeOneField(a, MergeMetadata(b, c), field, Number(5), Text(text));
  }
}
