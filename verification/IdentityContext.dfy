/**
 * The identity-context service (server/integration/identityContextService.js): a per-user cache with a
 * time to live in front of three managers, and the session decisions computed from the cached base.
 *
 * What the managers hold for a user is a `View`. The first part models one call; the second proves the
 * cached service equal to the uncached one when each load is one step. Loads that overlap are in
 * OverlappingLoads.dfy.
 */
module IdentityContext {
  import opened Sequences

  datatype Identity = Identity(identityId: string, algorithm: string, publicKey: string, fingerprint: string,
                               status: string)

  datatype Device = Device(deviceId: string, trustStatus: string, effectiveTrustStatus: string)

  datatype Verification = Verification(subjectUserId: string, effectiveTrustState: string, verifiedFingerprint: string)

  /** Everything the three managers answer for one user. */
  datatype View = View(identity: Option<Identity>, devices: seq<Device>, verifications: seq<Verification>)

  datatype Tally = Tally(total: nat, verified: nat, trusted: nat)

  datatype Base = Base(identity: Option<Identity>, devices: seq<Device>, provisioned: bool, verification: Tally)

  datatype Warning = Warning(kind: string, severity: string, message: string)

  datatype Context = Context(userId: string, provisioned: bool, identity: Option<Identity>, devices: seq<Device>,
                             deviceCount: nat, currentDevice: Option<Device>, verification: Tally,
                             sessionValid: bool, ready: bool, warnings: seq<Warning>)

  datatype Verdict = Valid | NoIdentity | UnknownDeviceId | BlockedDevice(status: string)

  const NOT_PROVISIONED := Warning("not-provisioned", "info", "Identity not yet established for this user")
  const UNKNOWN_DEVICE := Warning("unknown-device", "warn", "This device is not registered")

  function DeviceUntrusted(status: string): Warning {
    Warning("device-untrusted", "high", "Current device is " + status)
  }

  const USABLE_DEVICE_STATES: set<string> := {"trusted", "pending", "inactive", "expired"}
  const BLOCKING_DEVICE_STATES: set<string> := {"revoked", "blocked"}
  const VERIFIED_LIKE: set<string> := {"verified", "trusted"}

  // ----- verification summary -----------------------------------------------------------------------

  datatype DirectoryRow = DirectoryRow(subjectUserId: string, trustState: string, verifiedFingerprint: string)

  function VerificationDirectory(verifications: seq<Verification>): (rows: seq<DirectoryRow>)
    ensures |rows| == |verifications|
    ensures forall i :: 0 <= i < |rows| ==> rows[i].trustState == verifications[i].effectiveTrustState
  {
    Map((v: Verification) => DirectoryRow(v.subjectUserId, v.effectiveTrustState, v.verifiedFingerprint), verifications)
  }

  /** How many rows of a directory have a state in `states`. */
  function RowsIn(states: set<string>, rows: seq<DirectoryRow>): nat {
    if rows == [] then 0
    else RowsIn(states, rows[..|rows| - 1]) + if rows[|rows| - 1].trustState in states then 1 else 0
  }

  /** The summary, as counts over the directory the same service shows. */
  function TallyOf(verifications: seq<Verification>): Tally {
    var rows := VerificationDirectory(verifications);
    Tally(|rows|, RowsIn(VERIFIED_LIKE, rows), RowsIn({"trusted"}, rows))
  }

  lemma {:induction false} RowsAreCounted(states: set<string>, rows: seq<DirectoryRow>)
    ensures RowsIn(states, rows) == |set i: nat | i < |rows| && rows[i].trustState in states|
  {
    var at := set i: nat | i < |rows| && rows[i].trustState in states;
    if rows != [] {
      var front := rows[..|rows| - 1];
      RowsAreCounted(states, front);
      var before := set i: nat | i < |front| && front[i].trustState in states;
      assert at == before + if rows[|front|].trustState in states then {|front|} else {};
    }
  }

  /** How many of the verifications there are, how many are verified or trusted, and how many are trusted. */
  ghost predicate Counts(tally: Tally, verifications: seq<Verification>) {
    && tally.total == |verifications|
    && tally.verified == |set i: nat | i < |verifications| && (verifications[i].effectiveTrustState == "verified"
                                                               || verifications[i].effectiveTrustState == "trusted")|
    && tally.trusted == |set i: nat | i < |verifications| && verifications[i].effectiveTrustState == "trusted"|
  }

  lemma TallyCounts(verifications: seq<Verification>)
    ensures Counts(TallyOf(verifications), verifications)
  {
    var rows := VerificationDirectory(verifications);
    RowsAreCounted(VERIFIED_LIKE, rows);
    var trusted: set<string> := {"trusted"};
    RowsAreCounted(trusted, rows);
    assert (set i: nat | i < |rows| && rows[i].trustState in VERIFIED_LIKE)
        == set i: nat | i < |verifications| && (verifications[i].effectiveTrustState == "verified"
                                                || verifications[i].effectiveTrustState == "trusted");
    assert (set i: nat | i < |rows| && rows[i].trustState in trusted)
        == set i: nat | i < |verifications| && verifications[i].effectiveTrustState == "trusted";
  }

  /** One pass over the verifications counts what the directory shows. */
  method Summarize(verifications: seq<Verification>) returns (tally: Tally)
    ensures tally == TallyOf(verifications)
    ensures Counts(tally, verifications)
    ensures tally.trusted <= tally.verified <= tally.total
  {
    ghost var rows := VerificationDirectory(verifications);
    var verified, trusted := 0, 0;
    for i := 0 to |verifications|
      invariant verified == RowsIn(VERIFIED_LIKE, rows[..i])
      invariant trusted == RowsIn({"trusted"}, rows[..i])
      invariant trusted <= verified <= i
    {
      assert rows[..i + 1][..i] == rows[..i];
      if verifications[i].effectiveTrustState == "trusted" {
        trusted := trusted + 1;
      }
      if verifications[i].effectiveTrustState in VERIFIED_LIKE {
        verified := verified + 1;
      }
    }
    assert rows[..|rows|] == rows;
    tally := Tally(|verifications|, verified, trusted);
    TallyCounts(verifications);
  }

  lemma {:induction false} RowsInAppend(states: set<string>, a: seq<DirectoryRow>, b: seq<DirectoryRow>)
    ensures RowsIn(states, a + b) == RowsIn(states, a) + RowsIn(states, b)
  {
    if b == [] {
      assert a + b == a;
    } else {
      RowsInAppend(states, a, b[..|b| - 1]);
      assert (a + b)[..|a + b| - 1] == a + b[..|b| - 1];
    }
  }

  lemma RowsInMiddle(states: set<string>, a: seq<DirectoryRow>, row: DirectoryRow, b: seq<DirectoryRow>)
    ensures RowsIn(states, a + [row] + b) == RowsIn(states, a + b) + RowsIn(states, [row])
  {
    RowsInAppend(states, a, [row]);
    RowsInAppend(states, a + [row], b);
    RowsInAppend(states, a, b);
  }

  lemma DirectoryMiddle(verifications: seq<Verification>, k: nat)
    requires k < |verifications|
    ensures var rows := VerificationDirectory(verifications);
            && rows == rows[..k] + [rows[k]] + rows[k + 1..]
            && VerificationDirectory(verifications[..k] + verifications[k + 1..]) == rows[..k] + rows[k + 1..]
  {
  }

  lemma {:induction false} RowsInReordered(states: set<string>, a: seq<Verification>, b: seq<Verification>)
    requires multiset(a) == multiset(b)
    ensures |a| == |b| && RowsIn(states, VerificationDirectory(a)) == RowsIn(states, VerificationDirectory(b))
    decreases |a|
  {
    if a == [] {
      assert |multiset(b)| == 0;
    } else {
      var last := |a| - 1;
      var k := SameLast(a, b);
      RowsInReordered(states, a[..last], b[..k] + b[k + 1..]);
      var rowsA, rowsB := VerificationDirectory(a), VerificationDirectory(b);
      DirectoryMiddle(a, last);
      DirectoryMiddle(b, k);
      assert a[..last] + a[last + 1..] == a[..last];
      RowsInMiddle(states, rowsA[..last], rowsA[last], rowsA[last + 1..]);
      RowsInMiddle(states, rowsB[..k], rowsB[k], rowsB[k + 1..]);
    }
  }

  /** The order in which the manager lists verifications does not matter. */
  lemma TallyIgnoresOrder(a: seq<Verification>, b: seq<Verification>)
    requires multiset(a) == multiset(b)
    ensures TallyOf(a) == TallyOf(b)
  {
    RowsInReordered(VERIFIED_LIKE, a, b);
    RowsInReordered({"trusted"}, a, b);
  }

  // ----- decisions from one base --------------------------------------------------------------------

  function BaseOf(v: View): Base {
    Base(v.identity, v.devices, v.identity.Some?, TallyOf(v.verifications))
  }

  /** The first device with this id is the k-th. */
  predicate FirstAt(devices: seq<Device>, deviceId: string, k: int) {
    && 0 <= k < |devices| && devices[k].deviceId == deviceId
    && forall i :: 0 <= i < k ==> devices[i].deviceId != deviceId
  }

  /** The first device with this id, as `devices.find` answers it. */
  function Find(devices: seq<Device>, deviceId: string): (r: Option<Device>)
    ensures r.Some? ==> exists k :: FirstAt(devices, deviceId, k) && devices[k] == r.value
    ensures r == None <==> forall d :: d in devices ==> d.deviceId != deviceId
  {
    if devices == [] then None
    else if devices[0].deviceId == deviceId then
      assert FirstAt(devices, deviceId, 0);
      Some(devices[0])
    else
      var r := Find(devices[1..], deviceId);
      assert forall k :: FirstAt(devices[1..], deviceId, k) ==> FirstAt(devices, deviceId, k + 1);
      r
  }

  /** A device id that is absent or the empty string is no device id. */
  predicate Given(deviceId: Option<string>) {
    deviceId.Some? && deviceId.value != ""
  }

  function CurrentDevice(base: Base, deviceId: Option<string>): Option<Device> {
    if Given(deviceId) then Find(base.devices, deviceId.value) else None
  }

  predicate IsSessionValid(base: Base, deviceId: Option<string>, currentDevice: Option<Device>) {
    && base.provisioned
    && (Given(deviceId) ==>
          && currentDevice.Some?
          && currentDevice.value.effectiveTrustStatus in USABLE_DEVICE_STATES
          && currentDevice.value.trustStatus !in BLOCKING_DEVICE_STATES)
  }

  function Warnings(base: Base, deviceId: Option<string>, currentDevice: Option<Device>): seq<Warning> {
    (if base.provisioned then [] else [NOT_PROVISIONED])
    + (if Given(deviceId) && currentDevice == None then [UNKNOWN_DEVICE] else [])
    + (if currentDevice.Some? && currentDevice.value.effectiveTrustStatus in BLOCKING_DEVICE_STATES
       then [DeviceUntrusted(currentDevice.value.effectiveTrustStatus)] else [])
  }

  function ContextOf(userId: string, base: Base, deviceId: Option<string>): Context {
    var currentDevice := CurrentDevice(base, deviceId);
    var sessionValid := IsSessionValid(base, deviceId, currentDevice);
    Context(userId, base.provisioned, base.identity, base.devices, |base.devices|, currentDevice, base.verification,
            sessionValid, base.provisioned && sessionValid, Warnings(base, deviceId, currentDevice))
  }

  function VerdictOf(base: Base, deviceId: Option<string>): Verdict {
    if !base.provisioned then NoIdentity
    else if !Given(deviceId) then Valid
    else
      match Find(base.devices, deviceId.value)
      case None => UnknownDeviceId
      case Some(d) => if d.trustStatus in BLOCKING_DEVICE_STATES then BlockedDevice(d.trustStatus) else Valid
  }

  /**
   * The two session decisions agree except for a provisioned user with a registered device: `sessionValid`
   * implies `validateSession` and silence, and each converse fails exactly in the cases named here.
   */
  lemma DecisionsAgree(userId: string, base: Base, deviceId: Option<string>)
    ensures var c, d := ContextOf(userId, base, deviceId), CurrentDevice(base, deviceId);
            && c.ready == c.sessionValid
            && (c.sessionValid ==> VerdictOf(base, deviceId) == Valid && c.warnings == [])
            && (VerdictOf(base, deviceId) == Valid && !c.sessionValid <==>
                  && base.provisioned && d.Some?
                  && d.value.effectiveTrustStatus !in USABLE_DEVICE_STATES
                  && d.value.trustStatus !in BLOCKING_DEVICE_STATES)
            && (c.warnings == [] && !c.sessionValid <==>
                  && base.provisioned && d.Some?
                  && d.value.effectiveTrustStatus !in BLOCKING_DEVICE_STATES
                  && (d.value.effectiveTrustStatus !in USABLE_DEVICE_STATES
                      || d.value.trustStatus in BLOCKING_DEVICE_STATES))
  {
  }

  /** A device id was asked about: the empty string is none. */
  predicate Asks(deviceId: Option<string>, id: string) {
    deviceId == Some(id) && id != ""
  }

  /**
   * What the managers hold decides the verdict: no identity; or an identity and an asked device that none of the
   * devices is; or the first device with that id is revoked or blocked; or none of these.
   */
  lemma VerdictFromView(v: View, deviceId: Option<string>)
    ensures var verdict := VerdictOf(BaseOf(v), deviceId);
            && (verdict == NoIdentity <==> v.identity == None)
            && (verdict == UnknownDeviceId <==>
                  v.identity.Some? && exists id :: Asks(deviceId, id) && forall k :: !FirstAt(v.devices, id, k))
            && (forall status :: verdict == BlockedDevice(status) <==>
                  && v.identity.Some? && (status == "revoked" || status == "blocked")
                  && exists id, k :: Asks(deviceId, id) && FirstAt(v.devices, id, k) && v.devices[k].trustStatus == status)
  {
    if Given(deviceId) {
      assert Asks(deviceId, deviceId.value);
      FindsFirst(v.devices, deviceId.value);
    }
  }

  /** Find answers the first device with the id, and there is only one first. */
  lemma FindsFirst(devices: seq<Device>, deviceId: string)
    ensures Find(devices, deviceId) == None <==> forall k :: !FirstAt(devices, deviceId, k)
    ensures forall k :: FirstAt(devices, deviceId, k) ==> Find(devices, deviceId) == Some(devices[k])
  {
    var r := Find(devices, deviceId);
    if r.Some? {
      var n :| FirstAt(devices, deviceId, n) && devices[n] == r.value;
      assert forall k :: FirstAt(devices, deviceId, k) ==> k == n;
    } else {
      forall k
        ensures !FirstAt(devices, deviceId, k)
      {
        if 0 <= k < |devices| {
          assert devices[k] in devices;
        }
      }
    }
  }

  /** What the managers hold is in the context, and decides whether the session is valid. */
  lemma ContextFromView(userId: string, v: View, deviceId: Option<string>)
    ensures var c := ContextOf(userId, BaseOf(v), deviceId);
            && c.userId == userId && c.identity == v.identity && (c.provisioned <==> v.identity.Some?)
            && c.devices == v.devices && c.deviceCount == |v.devices| && Counts(c.verification, v.verifications)
            && (c.currentDevice == None <==> forall id, k :: Asks(deviceId, id) ==> !FirstAt(v.devices, id, k))
            && (forall id, k :: Asks(deviceId, id) && FirstAt(v.devices, id, k) ==> c.currentDevice == Some(v.devices[k]))
  {
    TallyCounts(v.verifications);
    if Given(deviceId) {
      FindsFirst(v.devices, deviceId.value);
      assert Asks(deviceId, deviceId.value);
    }
  }

  /**
   * A session is valid for a user with an identity, if the device asked about is registered, has a usable effective
   * state and is neither revoked nor blocked; and each shortcoming has its own warning.
   */
  lemma SessionFromView(userId: string, v: View, deviceId: Option<string>)
    ensures var c, asked := ContextOf(userId, BaseOf(v), deviceId), deviceId.Some? && deviceId.value != "";
            && (c.ready <==> c.sessionValid)
            && (c.sessionValid <==>
                  && v.identity.Some?
                  && (asked ==>
                        && c.currentDevice.Some?
                        && c.currentDevice.value.effectiveTrustStatus in {"trusted", "pending", "inactive", "expired"}
                        && c.currentDevice.value.trustStatus !in {"revoked", "blocked"}))
            && (forall w :: w in c.warnings <==>
                  || (w == Warning("not-provisioned", "info", "Identity not yet established for this user")
                      && v.identity == None)
                  || (w == Warning("unknown-device", "warn", "This device is not registered")
                      && asked && c.currentDevice == None)
                  || (c.currentDevice.Some? && c.currentDevice.value.effectiveTrustStatus in {"revoked", "blocked"}
                      && w == Warning("device-untrusted", "high",
                                      "Current device is " + c.currentDevice.value.effectiveTrustStatus)))
            && |c.warnings| <= 2
  {
  }

  // ----- the cache ----------------------------------------------------------------------------------

  datatype Entry = Entry(value: Base, expiresAt: int)

  type Entries = map<string, Entry>

  /** With a TTL that is not positive, entries never expire. */
  predicate Expired(ttlMs: int, e: Entry, now: int) {
    ttlMs > 0 && now >= e.expiresAt
  }

  function Lookup(ttlMs: int, entries: Entries, key: string, now: int): Option<Base> {
    if key in entries && !Expired(ttlMs, entries[key], now) then Some(entries[key].value) else None
  }

  /** The entries after a lookup, which drops the entry it finds expired. */
  function Swept(ttlMs: int, entries: Entries, key: string, now: int): Entries {
    if key in entries && Expired(ttlMs, entries[key], now) then entries - {key} else entries
  }

  class TtlCache {
    const ttlMs: int
    var entries: Entries

    constructor (ttlMs: int)
      ensures this.ttlMs == ttlMs && entries == map[]
    {
      this.ttlMs := ttlMs;
      entries := map[];
    }

    method Get(key: string, now: int) returns (value: Option<Base>)
      modifies this
      ensures value == Lookup(ttlMs, old(entries), key, now)
      ensures entries == Swept(ttlMs, old(entries), key, now)
      ensures value.Some? <==> key in old(entries) && (ttlMs > 0 ==> now < old(entries)[key].expiresAt)
      ensures value.Some? ==> value.value == old(entries)[key].value && entries == old(entries)
      ensures value == None ==> entries == old(entries) - {key}
    {
      if key !in entries {
        return None;
      }
      var entry := entries[key];
      if ttlMs > 0 && now >= entry.expiresAt {
        entries := entries - {key};
        return None;
      }
      return Some(entry.value);
    }

    method Set(key: string, value: Base, now: int)
      modifies this
      ensures entries == old(entries)[key := Entry(value, now + ttlMs)]
    {
      entries := entries[key := Entry(value, now + ttlMs)];
    }

    method Delete(key: string) returns (found: bool)
      modifies this
      ensures found == (key in old(entries))
      ensures entries == old(entries) - {key}
    {
      found := key in entries;
      entries := entries - {key};
    }
  }

  /** The entries after a load of `key` that reads `view` from the managers on a miss. */
  function Loaded(ttlMs: int, entries: Entries, key: string, view: View, now: int, later: int): Entries {
    match Lookup(ttlMs, entries, key, now)
    case Some(base) => entries
    case None => entries[key := Entry(BaseOf(view), later + ttlMs)]
  }

  /** The base such a load answers. */
  function Answer(ttlMs: int, entries: Entries, key: string, view: View, now: int): Base {
    Lookup(ttlMs, entries, key, now).GetOr(BaseOf(view))
  }

  /** `view` is what the managers answer during the call; the clock reads `now` and, after them, `later`. */
  class IdentityContextService {
    const cache: TtlCache

    constructor (cacheTtlMs: int)
      ensures fresh(cache) && cache.ttlMs == cacheTtlMs && cache.entries == map[]
    {
      cache := new TtlCache(cacheTtlMs);
    }

    method LoadBase(userId: string, view: View, now: int, later: int) returns (base: Base)
      modifies cache
      ensures base == Answer(cache.ttlMs, old(cache.entries), userId, view, now)
      ensures cache.entries == Loaded(cache.ttlMs, old(cache.entries), userId, view, now, later)
      ensures if userId in old(cache.entries) && (cache.ttlMs > 0 ==> now < old(cache.entries)[userId].expiresAt)
              then base == old(cache.entries)[userId].value && cache.entries == old(cache.entries)
              else
                && base.identity == view.identity && base.devices == view.devices
                && (base.provisioned <==> view.identity.Some?) && Counts(base.verification, view.verifications)
                && cache.entries == old(cache.entries)[userId := Entry(base, later + cache.ttlMs)]
    {
      var cached := cache.Get(userId, now);
      if cached.Some? {
        return cached.value;
      }
      var verification := Summarize(view.verifications);
      base := Base(view.identity, view.devices, view.identity.Some?, verification);
      cache.Set(userId, base, later);
      assert cache.entries == old(cache.entries)[userId := Entry(base, later + cache.ttlMs)];
    }

    method LoadContext(userId: string, deviceId: Option<string>, view: View, now: int, later: int)
      returns (context: Context)
      modifies cache
      ensures context == ContextOf(userId, Answer(cache.ttlMs, old(cache.entries), userId, view, now), deviceId)
      ensures cache.entries == Loaded(cache.ttlMs, old(cache.entries), userId, view, now, later)
    {
      var base := LoadBase(userId, view, now, later);
      var currentDevice := None;
      if Given(deviceId) {
        currentDevice := Find(base.devices, deviceId.value);
      }
      var sessionValid := IsSessionValid(base, deviceId, currentDevice);
      var warnings := [];
      if !base.provisioned {
        warnings := warnings + [NOT_PROVISIONED];
      }
      if Given(deviceId) && currentDevice == None {
        warnings := warnings + [UNKNOWN_DEVICE];
      }
      if currentDevice.Some? && currentDevice.value.effectiveTrustStatus in BLOCKING_DEVICE_STATES {
        warnings := warnings + [DeviceUntrusted(currentDevice.value.effectiveTrustStatus)];
      }
      context := Context(userId, base.provisioned, base.identity, base.devices, |base.devices|, currentDevice,
                         base.verification, sessionValid, base.provisioned && sessionValid, warnings);
    }

    method ValidateSession(userId: string, deviceId: Option<string>, view: View, now: int, later: int)
      returns (verdict: Verdict)
      modifies cache
      ensures verdict == VerdictOf(Answer(cache.ttlMs, old(cache.entries), userId, view, now), deviceId)
      ensures cache.entries == Loaded(cache.ttlMs, old(cache.entries), userId, view, now, later)
    {
      var base := LoadBase(userId, view, now, later);
      if !base.provisioned {
        return NoIdentity;
      }
      if !Given(deviceId) {
        return Valid;
      }
      var device := Find(base.devices, deviceId.value);
      if device == None {
        return UnknownDeviceId;
      }
      if device.value.trustStatus in BLOCKING_DEVICE_STATES {
        return BlockedDevice(device.value.trustStatus);
      }
      return Valid;
    }

    method Invalidate(userId: string)
      modifies cache
      ensures cache.entries == old(cache.entries) - {userId}
    {
      var found := cache.Delete(userId);
    }
  }

  // ----- the cached service refines the uncached one ------------------------------------------------

  type Backend = map<string, View>

  function ViewOf(backend: Backend, userId: string): View {
    if userId in backend then backend[userId] else View(None, [], [])
  }

  datatype Call =
    | Change(userId: string, view: View)
    | Invalidate(userId: string)
    | LoadContext(userId: string, deviceId: Option<string>, now: int, later: int)
    | ValidateSession(userId: string, deviceId: Option<string>, now: int, later: int)

  datatype Output = ContextOut(context: Context) | VerdictOut(verdict: Verdict) | Nothing

  /** `dirty` lists the users whose view changed since their last invalidation. */
  datatype Service = Service(backend: Backend, entries: Entries, dirty: set<string>)

  function Respond(call: Call, base: Base): Output {
    match call
    case Change(_, _) => Nothing
    case Invalidate(_) => Nothing
    case LoadContext(userId, deviceId, _, _) => ContextOut(ContextOf(userId, base, deviceId))
    case ValidateSession(_, deviceId, _, _) => VerdictOut(VerdictOf(base, deviceId))
  }

  function After(ttlMs: int, s: Service, call: Call): Service {
    match call
    case Change(userId, view) => s.(backend := s.backend[userId := view], dirty := s.dirty + {userId})
    case Invalidate(userId) => s.(entries := s.entries - {userId}, dirty := s.dirty - {userId})
    case LoadContext(userId, _, now, later) =>
      s.(entries := Loaded(ttlMs, s.entries, userId, ViewOf(s.backend, userId), now, later))
    case ValidateSession(userId, _, now, later) =>
      s.(entries := Loaded(ttlMs, s.entries, userId, ViewOf(s.backend, userId), now, later))
  }

  function CachedOutput(ttlMs: int, s: Service, call: Call): Output {
    if call.LoadContext? || call.ValidateSession?
    then Respond(call, Answer(ttlMs, s.entries, call.userId, ViewOf(s.backend, call.userId), call.now))
    else Nothing
  }

  function UncachedOutput(backend: Backend, call: Call): Output {
    Respond(call, BaseOf(ViewOf(backend, call.userId)))
  }

  /** Without a cache, each call is answered from what the managers hold for its user now. */
  lemma UncachedAnswers(backend: Backend, u: string, deviceId: Option<string>, now: int, later: int)
    ensures var view := if u in backend then backend[u] else View(None, [], []);
            && UncachedOutput(backend, LoadContext(u, deviceId, now, later))
               == ContextOut(ContextOf(u, BaseOf(view), deviceId))
            && UncachedOutput(backend, ValidateSession(u, deviceId, now, later))
               == VerdictOut(VerdictOf(BaseOf(view), deviceId))
  {
  }

  /** Everything the service with a cache answers over a run. */
  function CachedRun(ttlMs: int, s: Service, calls: seq<Call>): seq<Output>
    decreases |calls|
  {
    if calls == [] then []
    else [CachedOutput(ttlMs, s, calls[0])] + CachedRun(ttlMs, After(ttlMs, s, calls[0]), calls[1..])
  }

  /** Everything the service without a cache answers over the same run. */
  function UncachedRun(backend: Backend, calls: seq<Call>): seq<Output>
    decreases |calls|
  {
    if calls == [] then []
    else
      var backend' := if calls[0].Change? then backend[calls[0].userId := calls[0].view] else backend;
      [UncachedOutput(backend, calls[0])] + UncachedRun(backend', calls[1..])
  }

  /** Every change of a user's view is followed by an invalidation before that user's next load. */
  predicate Disciplined(dirty: set<string>, calls: seq<Call>)
    decreases |calls|
  {
    calls == [] ||
    match calls[0]
    case Change(userId, _) => Disciplined(dirty + {userId}, calls[1..])
    case Invalidate(userId) => Disciplined(dirty - {userId}, calls[1..])
    case LoadContext(userId, _, _, _) => userId !in dirty && Disciplined(dirty, calls[1..])
    case ValidateSession(userId, _, _, _) => userId !in dirty && Disciplined(dirty, calls[1..])
  }

  ghost predicate CleanEntriesCurrent(s: Service) {
    forall u :: u in s.entries && u !in s.dirty ==> s.entries[u].value == BaseOf(ViewOf(s.backend, u))
  }

  /** For every TTL, every clock and every disciplined run, the cache changes no output. */
  lemma {:induction false} CacheIsTransparent(ttlMs: int, s: Service, calls: seq<Call>)
    requires CleanEntriesCurrent(s) && Disciplined(s.dirty, calls)
    ensures CachedRun(ttlMs, s, calls) == UncachedRun(s.backend, calls)
    decreases |calls|
  {
    if calls != [] {
      CacheIsTransparent(ttlMs, After(ttlMs, s, calls[0]), calls[1..]);
    }
  }

  /** In particular from an empty cache. */
  lemma CacheIsTransparentFromStart(ttlMs: int, backend: Backend, calls: seq<Call>)
    requires Disciplined({}, calls)
    ensures CachedRun(ttlMs, Service(backend, map[], {}), calls) == UncachedRun(backend, calls)
  {
    CacheIsTransparent(ttlMs, Service(backend, map[], {}), calls);
  }

  /**
   * Without the discipline it can be false: one load, a change, another load within the TTL. The cached
   * answer differs exactly when the change changed the answer. TransparentExactlyWhen decides every order of calls.
   */
  lemma UndisciplinedRunIsStale(ttlMs: int, u: string, before: View, after: View, deviceId: Option<string>, now: int)
    requires 0 < ttlMs
    ensures var calls := [LoadContext(u, deviceId, now, now), Change(u, after), LoadContext(u, deviceId, now, now)];
            var backend := map[u := before];
            CachedRun(ttlMs, Service(backend, map[], {}), calls) == UncachedRun(backend, calls)
            <==> ContextOf(u, BaseOf(before), deviceId) == ContextOf(u, BaseOf(after), deviceId)
  {
    var l := LoadContext(u, deviceId, now, now);
    var c := Change(u, after);
    var backend := map[u := before];
    var s0 := Service(backend, map[], {});
    var s1 := After(ttlMs, s0, l);
    var s2 := After(ttlMs, s1, c);
    assert [l, c, l][1..] == [c, l] && [c, l][1..] == [l] && [l][1..] == [];
    var backend' := backend[u := after];
    assert s2.backend == backend' && ViewOf(backend', u) == after;
    assert CachedRun(ttlMs, s2, [l]) == [CachedOutput(ttlMs, s2, l)];
    assert CachedRun(ttlMs, s1, [c, l]) == [Nothing, CachedOutput(ttlMs, s2, l)];
    assert CachedRun(ttlMs, s0, [l, c, l])[2] == ContextOut(ContextOf(u, BaseOf(before), deviceId));
    assert UncachedRun(backend', [l]) == [UncachedOutput(backend', l)];
    assert UncachedRun(backend, [c, l]) == [Nothing, UncachedOutput(backend', l)];
    assert UncachedRun(backend, [l, c, l])[2] == ContextOut(ContextOf(u, BaseOf(after), deviceId));
  }

  // ----- exactly when the cache is transparent ------------------------------------------------------

  /** When the entries expire, and which of them were stored before their user's latest change. */
  datatype Ages = Ages(expiresAt: map<string, int>, aged: set<string>)

  /** A load at `now` would find an unexpired entry. */
  predicate Hits(ttlMs: int, a: Ages, u: string, now: int) {
    u in a.expiresAt && !(ttlMs > 0 && now >= a.expiresAt[u])
  }

  function Aged(ttlMs: int, a: Ages, call: Call): Ages {
    match call
    case Change(u, _) => a.(aged := if u in a.expiresAt then a.aged + {u} else a.aged)
    case Invalidate(u) => Ages(a.expiresAt - {u}, a.aged - {u})
    case LoadContext(u, _, now, later) =>
      if Hits(ttlMs, a, u, now) then a else Ages(a.expiresAt[u := later + ttlMs], a.aged - {u})
    case ValidateSession(u, _, now, later) =>
      if Hits(ttlMs, a, u, now) then a else Ages(a.expiresAt[u := later + ttlMs], a.aged - {u})
  }

  predicate IsLoad(call: Call) {
    call.LoadContext? || call.ValidateSession?
  }

  /** This call finds an unexpired entry stored before its user's latest change. */
  predicate HitsOld(ttlMs: int, a: Ages, call: Call) {
    IsLoad(call) && call.userId in a.aged && Hits(ttlMs, a, call.userId, call.now)
  }

  /** No call does. What the views are does not matter. */
  predicate NeverHitsOld(ttlMs: int, a: Ages, calls: seq<Call>)
    decreases |calls|
  {
    calls == [] || (!HitsOld(ttlMs, a, calls[0]) && NeverHitsOld(ttlMs, Aged(ttlMs, a, calls[0]), calls[1..]))
  }

  /** The same calls, with other views: `views(i)` for the change that is the i-th call from the end. */
  function WithViews(calls: seq<Call>, views: nat -> View): seq<Call> {
    if calls == [] then []
    else
      [if calls[0].Change? then Change(calls[0].userId, views(|calls|)) else calls[0]] + WithViews(calls[1..], views)
  }

  /** These ages are the entries'. */
  ghost predicate AgesOf(a: Ages, s: Service) {
    && a.expiresAt.Keys == s.entries.Keys && a.aged <= s.entries.Keys
    && (forall u :: u in s.entries ==> s.entries[u].expiresAt == a.expiresAt[u])
  }

  lemma AgesFollow(ttlMs: int, a: Ages, s: Service, call: Call)
    requires AgesOf(a, s)
    ensures AgesOf(Aged(ttlMs, a, call), After(ttlMs, s, call))
  {
  }

  lemma {:induction false} ViewsDoNotAge(ttlMs: int, a: Ages, calls: seq<Call>, views: nat -> View)
    ensures NeverHitsOld(ttlMs, a, WithViews(calls, views)) <==> NeverHitsOld(ttlMs, a, calls)
    decreases |calls|
  {
    if calls != [] {
      var calls' := WithViews(calls, views);
      assert calls'[1..] == WithViews(calls[1..], views);
      assert Aged(ttlMs, a, calls'[0]) == Aged(ttlMs, a, calls[0]);
      ViewsDoNotAge(ttlMs, Aged(ttlMs, a, calls[0]), calls[1..], views);
    }
  }

  /** Entries that are not old hold what the managers hold. */
  ghost predicate YoungEntriesCurrent(a: Ages, s: Service) {
    forall u :: u in s.entries && u !in a.aged ==> s.entries[u].value == BaseOf(ViewOf(s.backend, u))
  }

  lemma YoungCall(ttlMs: int, a: Ages, s: Service, call: Call)
    requires AgesOf(a, s) && YoungEntriesCurrent(a, s) && !HitsOld(ttlMs, a, call)
    ensures CachedOutput(ttlMs, s, call) == UncachedOutput(s.backend, call)
    ensures YoungEntriesCurrent(Aged(ttlMs, a, call), After(ttlMs, s, call))
  {
  }

  lemma {:induction false} YoungHitsAreTransparent(ttlMs: int, a: Ages, s: Service, calls: seq<Call>)
    requires AgesOf(a, s) && YoungEntriesCurrent(a, s) && NeverHitsOld(ttlMs, a, calls)
    ensures CachedRun(ttlMs, s, calls) == UncachedRun(s.backend, calls)
    decreases |calls|
  {
    if calls != [] {
      AgesFollow(ttlMs, a, s, calls[0]);
      YoungCall(ttlMs, a, s, calls[0]);
      YoungHitsAreTransparent(ttlMs, Aged(ttlMs, a, calls[0]), After(ttlMs, s, calls[0]), calls[1..]);
    }
  }

  /** A view that differs from a base in whether there is an identity. */
  function Opposite(base: Base): View {
    View(if base.provisioned then None else Some(Identity("", "", "", "", "")), [], [])
  }

  /** The view a change is given: the opposite of what the cache holds for its user. */
  function Contrary(s: Service, u: string): View {
    if u in s.entries then Opposite(s.entries[u].value) else View(None, [], [])
  }

  /** The calls, with each change contrary to the cache. */
  function ContraryCalls(ttlMs: int, s: Service, calls: seq<Call>): seq<Call>
    decreases |calls|
  {
    if calls == [] then []
    else
      var call := if calls[0].Change? then Change(calls[0].userId, Contrary(s, calls[0].userId)) else calls[0];
      [call] + ContraryCalls(ttlMs, After(ttlMs, s, call), calls[1..])
  }

  /** Bases are what some view gives, and old entries differ from what the managers hold in having an identity. */
  ghost predicate OldEntriesOpposed(a: Ages, s: Service) {
    && (forall u :: u in s.entries ==> s.entries[u].value.provisioned == s.entries[u].value.identity.Some?)
    && (forall u :: u in a.aged && u in s.entries ==>
          s.entries[u].value.provisioned != BaseOf(ViewOf(s.backend, u)).provisioned)
  }

  lemma ContraryStep(ttlMs: int, a: Ages, s: Service, call: Call)
    requires AgesOf(a, s) && OldEntriesOpposed(a, s)
    requires call.Change? ==> call.view == Contrary(s, call.userId)
    ensures OldEntriesOpposed(Aged(ttlMs, a, call), After(ttlMs, s, call))
  {
  }

  /** Whether there is an identity shows in every answer. */
  lemma OpposedAnswersDiffer(call: Call, base: Base, base': Base)
    requires IsLoad(call) && base.provisioned != base'.provisioned
    ensures Respond(call, base) != Respond(call, base')
  {
  }

  lemma {:induction false} OldHitsShow(ttlMs: int, a: Ages, s: Service, calls: seq<Call>)
    requires AgesOf(a, s) && OldEntriesOpposed(a, s) && !NeverHitsOld(ttlMs, a, calls)
    ensures CachedRun(ttlMs, s, ContraryCalls(ttlMs, s, calls))
            != UncachedRun(s.backend, ContraryCalls(ttlMs, s, calls))
    decreases |calls|
  {
    var contrary := ContraryCalls(ttlMs, s, calls);
    var call := contrary[0];
    assert contrary[1..] == ContraryCalls(ttlMs, After(ttlMs, s, call), calls[1..]);
    var cached, uncached := CachedRun(ttlMs, s, contrary), UncachedRun(s.backend, contrary);
    if HitsOld(ttlMs, a, calls[0]) {
      OpposedAnswersDiffer(call, s.entries[call.userId].value, BaseOf(ViewOf(s.backend, call.userId)));
      assert cached[0] != uncached[0];
    } else {
      assert Aged(ttlMs, a, call) == Aged(ttlMs, a, calls[0]);
      AgesFollow(ttlMs, a, s, call);
      ContraryStep(ttlMs, a, s, call);
      OldHitsShow(ttlMs, Aged(ttlMs, a, call), After(ttlMs, s, call), calls[1..]);
      assert cached[1..] != uncached[1..];
    }
  }

  /** The views that make the calls contrary. */
  lemma {:induction false} ContraryViews(ttlMs: int, s: Service, calls: seq<Call>) returns (views: nat -> View)
    ensures WithViews(calls, views) == ContraryCalls(ttlMs, s, calls)
    decreases |calls|
  {
    views := n => View(None, [], []);
    if calls != [] {
      var call := ContraryCalls(ttlMs, s, calls)[0];
      var rest := ContraryViews(ttlMs, After(ttlMs, s, call), calls[1..]);
      views := (n: nat) => if n == |calls| then Contrary(s, calls[0].userId) else rest(n);
      SameViews(calls[1..], rest, views);
    }
  }

  lemma {:induction false} SameViews(calls: seq<Call>, views: nat -> View, views': nat -> View)
    requires forall n :: 0 < n <= |calls| ==> views(n) == views'(n)
    ensures WithViews(calls, views) == WithViews(calls, views')
  {
    if calls != [] {
      SameViews(calls[1..], views, views');
    }
  }

  /**
   * For every order of calls, clock readings and TTL, from an empty cache: the cached outputs equal the uncached
   * ones, whatever the changes are, exactly when no load finds an unexpired entry stored before its user's latest
   * change.
   */
  lemma TransparentExactlyWhen(ttlMs: int, backend: Backend, calls: seq<Call>)
    ensures (forall views: nat -> View ::
               CachedRun(ttlMs, Service(backend, map[], {}), WithViews(calls, views))
               == UncachedRun(backend, WithViews(calls, views)))
            <==> NeverHitsOld(ttlMs, Ages(map[], {}), calls)
  {
    var a, s := Ages(map[], {}), Service(backend, map[], {});
    if NeverHitsOld(ttlMs, a, calls) {
      forall views: nat -> View
        ensures CachedRun(ttlMs, s, WithViews(calls, views)) == UncachedRun(backend, WithViews(calls, views))
      {
        ViewsDoNotAge(ttlMs, a, calls, views);
        YoungHitsAreTransparent(ttlMs, a, s, WithViews(calls, views));
      }
    } else {
      OldHitsShow(ttlMs, a, s, calls);
      var views := ContraryViews(ttlMs, s, calls);
    }
  }
}
