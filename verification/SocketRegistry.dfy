/**
 * The online-socket registry (server/lib/redis.js) and the connection events that drive it
 * (server/server.js): one stored socket id per user, under the key "user:" followed by the user id.
 */
module SocketRegistry {
  import opened Sequences

  // ----- keys ---------------------------------------------------------------------------------------

  const PREFIX: string := "user:"

  function Key(userId: string): string {
    PREFIX + userId
  }

  /** JavaScript's `s.split(c)` for a one-character separator. */
  function Split(s: string, c: char): (parts: seq<string>)
    ensures parts != []
  {
    if s == [] then [""]
    else
      var rest := Split(s[1..], c);
      if s[0] == c then [""] + rest else [[s[0]] + rest[0]] + rest[1..]
  }

  function Join(parts: seq<string>, c: char): string
    requires parts != []
  {
    if |parts| == 1 then parts[0] else parts[0] + [c] + Join(parts[1..], c)
  }

  /** Splitting loses nothing, and no part holds the separator. */
  lemma {:induction false} SplitRoundTrip(s: string, c: char)
    ensures Join(Split(s, c), c) == s
    ensures forall i :: 0 <= i < |Split(s, c)| ==> c !in Split(s, c)[i]
  {
    if s != [] {
      SplitRoundTrip(s[1..], c);
      var rest := Split(s[1..], c);
      if s[0] != c && |rest| > 1 {
        assert ([[s[0]] + rest[0]] + rest[1..])[1..] == rest[1..];
      }
    }
  }

  /** The part of a user id before its first colon. */
  function BeforeColon(s: string): string {
    if s == [] || s[0] == ':' then "" else [s[0]] + BeforeColon(s[1..])
  }

  lemma {:induction false} BeforeColonWhole(s: string)
    ensures BeforeColon(s) == s <==> ':' !in s
    ensures Split(s, ':')[0] == BeforeColon(s)
    ensures BeforeColon(s) <= s && ':' !in BeforeColon(s)
    ensures BeforeColon(s) == s || s[|BeforeColon(s)|] == ':'
  {
    if s != [] {
      BeforeColonWhole(s[1..]);
    }
  }

  /** `getOnlineUsers` reads this back from a key. */
  function UserOf(key: string): string
    requires |Split(key, ':')| > 1
  {
    Split(key, ':')[1]
  }

  lemma {:induction false} SplitFirst(first: string, c: char, rest: string)
    requires c !in first
    ensures Split(first + [c] + rest, c) == [first] + Split(rest, c)
  {
    if first == [] {
      assert (first + [c] + rest)[1..] == rest;
    } else {
      SplitFirst(first[1..], c, rest);
      assert (first + [c] + rest)[1..] == first[1..] + [c] + rest;
      assert [first[0]] + first[1..] == first;
    }
  }

  /** The user id read back from a key is the part before its first colon: the whole id exactly when it has none. */
  lemma KeyReadsBack(userId: string)
    ensures |Split(Key(userId), ':')| > 1 && Split(Key(userId), ':')[0] == "user"
    ensures UserOf(Key(userId)) == BeforeColon(userId)
    ensures UserOf(Key(userId)) == userId <==> ':' !in userId
  {
    BeforeColonWhole(userId);
    KeySplits(userId);
  }

  lemma KeySplits(userId: string)
    ensures Split(Key(userId), ':') == ["user"] + Split(userId, ':')
  {
    SplitFirst("user", ':', userId);
    assert "user" + [':'] + userId == Key(userId);
  }

  lemma KeyInjective(a: string, b: string)
    requires Key(a) == Key(b)
    ensures a == b
  {
    assert Key(a)[|PREFIX|..] == a && Key(b)[|PREFIX|..] == b;
  }

  // ----- the store ----------------------------------------------------------------------------------

  type Store = map<string, string>

  /** Every key in the store belongs to some user. */
  ghost predicate OnlyUserKeys(store: Store) {
    forall k :: k in store ==> exists u: string :: k == Key(u)
  }

  ghost predicate Registered(store: Store, userId: string) {
    Key(userId) in store
  }

  /** The answers are the parts of the registered ids before their first colons. */
  ghost predicate AnswersBeforeColon(store: Store, users: seq<string>) {
    forall u :: u in users <==> exists id :: Registered(store, id) && BeforeColon(id) == u
  }

  ghost predicate NoColons(store: Store) {
    forall id :: Registered(store, id) ==> ':' !in id
  }

  /** The answers are the registered ids, each once. */
  ghost predicate AnswersExactly(store: Store, users: seq<string>) {
    Distinct(users) && forall u :: u in users <==> Registered(store, u)
  }

  /**
   * The registry and the handlers; a connection without a user id is not registered. `listening` holds the sockets
   * whose disconnect handler has been attached.
   */
  class SocketRegistry {
    var store: Store
    var listening: set<string>

    constructor ()
      ensures store == map[] && listening == {}
    {
      store, listening := map[], {};
    }

    method CacheUserSocket(userId: string, socketId: string)
      modifies this`store
      ensures store == old(store)[Key(userId) := socketId]
    {
      store := store[Key(userId) := socketId];
    }

    method GetUserSocket(userId: string) returns (socketId: Option<string>)
      ensures socketId == if Key(userId) in store then Some(store[Key(userId)]) else None
    {
      if Key(userId) in store {
        return Some(store[Key(userId)]);
      }
      return None;
    }

    method RemoveUserSocket(userId: string)
      modifies this`store
      ensures store == old(store) - {Key(userId)}
    {
      store := store - {Key(userId)};
    }

    /** The connection handler's first step. */
    method OnConnection(userId: Option<string>, socketId: string)
      modifies this`store
      ensures store == if userId.GetOr("") == "" then old(store) else old(store)[Key(userId.value) := socketId]
    {
      if userId.Some? && userId.value != "" {
        CacheUserSocket(userId.value, socketId);
      }
    }

    /** Its last step, several awaits later. */
    method Listen(socketId: string)
      modifies this`listening
      ensures listening == old(listening) + {socketId}
    {
      listening := listening + {socketId};
    }

    /** A socket closes; without an attached handler nothing happens. */
    method OnDisconnect(userId: Option<string>, socketId: string)
      modifies this`store
      ensures store == if socketId !in listening || userId.GetOr("") == "" then old(store)
                       else old(store) - {Key(userId.value)}
    {
      if socketId in listening && userId.Some? && userId.value != "" {
        RemoveUserSocket(userId.value);
      }
    }

    /**
     * The store answers its keys in some order; each is answered as the part of the user id before its first
     * colon. When no registered id has a colon, these are exactly the registered users, each once.
     */
    method GetOnlineUsers() returns (users: seq<string>)
      requires OnlyUserKeys(store)
      ensures |users| == |store.Keys|
      ensures AnswersBeforeColon(store, users)
      ensures NoColons(store) ==> AnswersExactly(store, users)
    {
      users := [];
      var keys := store.Keys;
      ghost var ids: seq<string> := [];
      while keys != {}
        invariant Answering(store, keys, users, ids)
        invariant |users| + |keys| == |store.Keys|
        decreases |keys|
      {
        var key :| key in keys;
        KeyOfUser(store, key);
        ghost var id := AnswerOne(store, keys, users, ids, key);
        users := users + [UserOf(key)];
        ids := ids + [id];
        keys := keys - {key};
      }
      AnsweredUsers(store, users, ids);
    }
  }

  /** `ids` are the users whose keys have been answered, and `users` what was answered for them. */
  ghost predicate Answering(store: Store, keys: set<string>, users: seq<string>, ids: seq<string>) {
    && keys <= store.Keys
    && |ids| == |users| && Distinct(ids)
    && (forall i :: 0 <= i < |ids| ==> Registered(store, ids[i]) && Key(ids[i]) !in keys)
    && (forall i :: 0 <= i < |ids| ==> users[i] == BeforeColon(ids[i]))
    && (forall id :: Registered(store, id) ==> Key(id) in keys || id in ids)
  }

  lemma KeyOfUser(store: Store, key: string)
    requires OnlyUserKeys(store) && key in store
    ensures |Split(key, ':')| > 1
  {
    var id: string :| key == Key(id);
    KeyReadsBack(id);
  }

  lemma AnswerOne(store: Store, keys: set<string>, users: seq<string>, ids: seq<string>, key: string)
    returns (id: string)
    requires OnlyUserKeys(store) && Answering(store, keys, users, ids) && key in keys
    requires |Split(key, ':')| > 1
    ensures Answering(store, keys - {key}, users + [UserOf(key)], ids + [id])
  {
    id :| key == Key(id);
    KeyReadsBack(id);
    DistinctSnoc(ids, id);
    forall other | Registered(store, other)
      ensures Key(other) in keys - {key} || other in ids + [id]
    {
      if Key(other) == key {
        KeyInjective(other, id);
        assert (ids + [id])[|ids|] == other;
      }
    }
  }

  lemma AnsweredUsers(store: Store, users: seq<string>, ids: seq<string>)
    requires Answering(store, {}, users, ids)
    ensures AnswersBeforeColon(store, users)
    ensures NoColons(store) ==> AnswersExactly(store, users)
  {
    forall u | u in users
      ensures exists id :: Registered(store, id) && BeforeColon(id) == u
    {
      var i :| 0 <= i < |users| && users[i] == u;
      assert Registered(store, ids[i]);
    }
    forall id | Registered(store, id)
      ensures BeforeColon(id) in users
    {
      assert id in ids;
      var i :| 0 <= i < |ids| && ids[i] == id;
      assert users[i] == BeforeColon(id);
    }
    if NoColons(store) {
      forall i | 0 <= i < |ids|
        ensures users[i] == ids[i]
      {
        assert Registered(store, ids[i]);
        BeforeColonWhole(ids[i]);
      }
      assert users == ids;
    }
  }

  // ----- every run of connections -------------------------------------------------------------------

  /**
   * The events of users with an id: the connection handler registers the socket at its first step and attaches the
   * disconnect handler at its last. Socket ids are fresh, and a socket closes at most once.
   */
  datatype Event =
    | Connect(user: string, socket: string)
    | Attach(user: string, socket: string)
    | Close(user: string, socket: string)

  /** `live` holds the open sockets and whose they are; `seen` every socket id so far. */
  datatype System = System(store: Store, live: map<string, string>, attached: set<string>, seen: set<string>)

  predicate Possible(s: System, e: Event) {
    match e
    case Connect(_, socket) => socket !in s.seen
    case Attach(_, socket) => socket in s.seen
    case Close(user, socket) => socket in s.live && s.live[socket] == user
  }

  function Step(s: System, e: Event): System {
    match e
    case Connect(user, socket) =>
      s.(store := s.store[Key(user) := socket], live := s.live[socket := user], seen := s.seen + {socket})
    case Attach(user, socket) => s.(attached := s.attached + {socket})
    case Close(user, socket) =>
      s.(store := if socket in s.attached then s.store - {Key(user)} else s.store, live := s.live - {socket})
  }

  function Run(events: seq<Event>): System {
    if events == [] then System(map[], map[], {}, {})
    else Step(Run(events[..|events| - 1]), events[|events| - 1])
  }

  /** Every event could happen when it did. */
  predicate Legal(events: seq<Event>) {
    events == [] || (Legal(events[..|events| - 1]) && Possible(Run(events[..|events| - 1]), events[|events| - 1]))
  }

  /** This event sets or removes the user's entry. */
  predicate Writes(s: System, e: Event, u: string) {
    e.user == u && (e.Connect? || (e.Close? && e.socket in s.attached))
  }

  /** The latest event that set or removed the user's entry. */
  function Latest(events: seq<Event>, u: string): Option<Event> {
    if events == [] then None
    else if Writes(Run(events[..|events| - 1]), events[|events| - 1], u) then Some(events[|events| - 1])
    else Latest(events[..|events| - 1], u)
  }

  /** The socket closed before its disconnect handler was attached. */
  predicate ClosedEarly(events: seq<Event>, socket: string) {
    events != [] &&
    (var front, e := events[..|events| - 1], events[|events| - 1];
     ClosedEarly(front, socket) || (e.Close? && e.socket == socket && socket !in Run(front).attached))
  }

  ghost predicate Live(s: System, u: string) {
    exists socket :: socket in s.live && s.live[socket] == u
  }

  predicate Open(s: System, u: string, socket: string) {
    socket in s.live && s.live[socket] == u
  }

  /** A user is registered exactly when the latest write is a connect, and then with that connect's socket. */
  lemma {:induction false} RegistryIsLatestEvent(events: seq<Event>, u: string)
    ensures var store, latest := Run(events).store, Latest(events, u);
            && (Registered(store, u) <==> latest.Some? && latest.value.Connect?)
            && (Registered(store, u) ==> store[Key(u)] == latest.value.socket)
    ensures OnlyUserKeys(Run(events).store)
  {
    if events != [] {
      var front, e := events[..|events| - 1], events[|events| - 1];
      RegistryIsLatestEvent(front, u);
      if Key(e.user) == Key(u) {
        KeyInjective(e.user, u);
      }
    }
  }

  lemma {:induction false} LiveWasSeen(events: seq<Event>)
    ensures Run(events).live.Keys <= Run(events).seen
  {
    if events != [] {
      LiveWasSeen(events[..|events| - 1]);
    }
  }

  lemma {:induction false} ClosedWasSeen(events: seq<Event>, socket: string)
    requires Legal(events) && ClosedEarly(events, socket)
    ensures socket in Run(events).seen && socket !in Run(events).live
  {
    var front := events[..|events| - 1];
    LiveWasSeen(front);
    if ClosedEarly(front, socket) {
      ClosedWasSeen(front, socket);
    }
  }

  /** A user's entry is written by that user's own events only. */
  lemma OthersKeepEntry(s: System, e: Event, u: string)
    requires e.user != u
    ensures Registered(Step(s, e).store, u) <==> Registered(s.store, u)
    ensures Registered(s.store, u) ==> Step(s, e).store[Key(u)] == s.store[Key(u)]
  {
    if Key(e.user) == Key(u) {
      KeyInjective(e.user, u);
    }
  }

  lemma {:induction false} RegisteredWasSeen(events: seq<Event>, u: string)
    requires Registered(Run(events).store, u)
    ensures Run(events).store[Key(u)] in Run(events).seen
  {
    var front, e := events[..|events| - 1], events[|events| - 1];
    if e.user != u {
      OthersKeepEntry(Run(front), e, u);
      RegisteredWasSeen(front, u);
    } else if !e.Connect? {
      RegisteredWasSeen(front, u);
    }
  }

  /**
   * A registered socket is an open socket of that user exactly when it did not close before its disconnect handler
   * was attached.
   */
  lemma {:induction false} RegisteredSocketIsOpenExactlyWhen(events: seq<Event>, u: string)
    requires Legal(events) && Registered(Run(events).store, u)
    ensures var s := Run(events);
            Open(s, u, s.store[Key(u)]) <==> !ClosedEarly(events, s.store[Key(u)])
  {
    var front, e := events[..|events| - 1], events[|events| - 1];
    LiveWasSeen(front);
    if e.user != u {
      OthersKeepEntry(Run(front), e, u);
    }
    if e.user == u && e.Connect? {
      if ClosedEarly(front, e.socket) {
        ClosedWasSeen(front, e.socket);
      }
    } else {
      RegisteredSocketIsOpenExactlyWhen(front, u);
      RegisteredWasSeen(front, u);
    }
  }

  lemma Continues(front: seq<Event>, e: Event)
    requires Legal(front) && Possible(Run(front), e)
    ensures Legal(front + [e]) && Run(front + [e]) == Step(Run(front), e)
  {
    assert (front + [e])[..|front + [e]| - 1] == front;
  }

  /** A socket that closes at once stays registered for good. */
  lemma EarlyCloseExample(u: string, socket: string)
    ensures var events := [] + [Connect(u, socket)] + [Close(u, socket)];
            && Legal(events) && !Live(Run(events), u)
            && Registered(Run(events).store, u) && Run(events).store[Key(u)] == socket
  {
    Continues([], Connect(u, socket));
    Continues([] + [Connect(u, socket)], Close(u, socket));
  }

  // ----- when the registry is right about who is online ---------------------------------------------

  /** The registry is right about whether this user is online. */
  ghost predicate Agrees(s: System, u: string) {
    Registered(s.store, u) <==> Live(s, u)
  }

  /** The user has no open socket but this one. */
  predicate NoOtherSocket(s: System, u: string, socket: string) {
    forall other :: other in s.live && s.live[other] == u ==> other == socket
  }

  /** Whether the registry will be right about a user after an event, told before it. */
  ghost predicate WillAgree(s: System, e: Event, u: string) {
    if e.user != u || e.Attach? then Agrees(s, u)
    else e.Connect? || ((e.socket !in s.attached && Registered(s.store, u)) <==> !NoOtherSocket(s, u, e.socket))
  }

  /**
   * Others' events and an attachment change nothing, and a connect makes the registry right. The close of a socket
   * whose handler is attached does so exactly when it was the user's only one; the close of any other socket,
   * exactly when the user is registered and has another socket, or neither.
   */
  lemma OnlineExactlyWhen(events: seq<Event>, e: Event, u: string)
    requires Legal(events) && Possible(Run(events), e)
    ensures Agrees(Step(Run(events), e), u) <==> WillAgree(Run(events), e, u)
  {
    var s, s' := Run(events), Step(Run(events), e);
    LiveWasSeen(events);
    if e.user != u {
      OthersKeepEntry(s, e, u);
      assert forall socket :: Open(s, u, socket) <==> Open(s', u, socket);
      assert Live(s', u) <==> Live(s, u) by {
        LiveByOpen(s, s', u);
      }
    } else if e.Connect? {
      assert s'.live[e.socket] == u;
    } else if e.Close? {
      assert forall other :: Open(s', u, other) <==> Open(s, u, other) && other != e.socket;
      CloseLeavesOthers(s, s', u, e.socket);
    }
  }

  lemma LiveByOpen(s: System, s': System, u: string)
    requires forall socket :: Open(s, u, socket) <==> Open(s', u, socket)
    ensures Live(s', u) <==> Live(s, u)
  {
    if Live(s, u) {
      var socket :| socket in s.live && s.live[socket] == u;
      assert Open(s, u, socket);
    }
    if Live(s', u) {
      var socket :| socket in s'.live && s'.live[socket] == u;
      assert Open(s', u, socket);
    }
  }

  lemma CloseLeavesOthers(s: System, s': System, u: string, socket: string)
    requires forall other :: Open(s', u, other) <==> Open(s, u, other) && other != socket
    ensures Live(s', u) <==> !NoOtherSocket(s, u, socket)
  {
    if Live(s', u) {
      var other :| other in s'.live && s'.live[other] == u;
      assert Open(s', u, other);
    }
    if !NoOtherSocket(s, u, socket) {
      var other :| other in s.live && s.live[other] == u && other != socket;
      assert Open(s, u, other);
    }
  }

  lemma {:induction false} LatestIsWrite(events: seq<Event>, u: string)
    requires Latest(events, u).Some?
    ensures Latest(events, u).value.user == u && !Latest(events, u).value.Attach?
  {
    var front := events[..|events| - 1];
    if !Writes(Run(front), events[|events| - 1], u) {
      LatestIsWrite(front, u);
    }
  }

  lemma {:induction false} NoWriteNoSocket(events: seq<Event>, u: string)
    requires Latest(events, u) == None
    ensures !Live(Run(events), u)
  {
    if events != [] {
      NoWriteNoSocket(events[..|events| - 1], u);
    }
  }

  /**
   * The two ways to be wrong about a user: registered with a socket that closed early, none being open; or not
   * registered because a disconnect was handled, with another socket still open.
   */
  lemma WrongOnlyAfterClose(events: seq<Event>, u: string)
    requires Legal(events) && !Agrees(Run(events), u)
    ensures var s := Run(events);
            if Registered(s.store, u) then ClosedEarly(events, s.store[Key(u)]) && !Live(s, u)
            else Live(s, u) && Latest(events, u).Some? && Latest(events, u).value.Close?
  {
    RegistryIsLatestEvent(events, u);
    if Registered(Run(events).store, u) {
      RegisteredSocketIsOpenExactlyWhen(events, u);
    } else if Latest(events, u) == None {
      NoWriteNoSocket(events, u);
    } else {
      LatestIsWrite(events, u);
    }
  }

  // ----- one socket at a time -----------------------------------------------------------------------

  /** Users connect only when they have no open socket. */
  ghost predicate OneAtATime(events: seq<Event>) {
    events == [] ||
    (var front, e := events[..|events| - 1], events[|events| - 1];
     OneAtATime(front) && (e.Connect? ==> !Live(Run(front), e.user)))
  }

  /** A user's open socket is the one of the latest connect, and then the latest write is that connect. */
  lemma {:induction false} OpenSocketIsRegistered(events: seq<Event>, u: string, socket: string)
    requires Legal(events) && OneAtATime(events) && Open(Run(events), u, socket)
    ensures Registered(Run(events).store, u) && Run(events).store[Key(u)] == socket
  {
    var front, e := events[..|events| - 1], events[|events| - 1];
    if e.user != u {
      OthersKeepEntry(Run(front), e, u);
      OpenSocketIsRegistered(front, u, socket);
    } else if e.Close? {
      OpenSocketIsRegistered(front, u, socket);
      OpenSocketIsRegistered(front, u, e.socket);
    } else if e.Attach? || e.socket != socket {
      OpenSocketIsRegistered(front, u, socket);
      assert e.Attach?;
    }
  }

  /** The registry holds exactly the user's open socket, or nothing if there is none. */
  ghost predicate HoldsOpenSocket(s: System, u: string) {
    Agrees(s, u) && forall socket :: Open(s, u, socket) ==> Registered(s.store, u) && s.store[Key(u)] == socket
  }

  /**
   * In runs where each user has at most one open socket, the registry is the map of open sockets exactly for the
   * users whose registered socket did not close before its handler was attached.
   */
  lemma RegistryIsOpenSocketsExactlyWhen(events: seq<Event>, u: string)
    requires Legal(events) && OneAtATime(events)
    ensures var s := Run(events);
            HoldsOpenSocket(s, u) <==> !(Registered(s.store, u) && ClosedEarly(events, s.store[Key(u)]))
  {
    var s := Run(events);
    forall socket | Open(s, u, socket)
      ensures Registered(s.store, u) && s.store[Key(u)] == socket
    {
      OpenSocketIsRegistered(events, u, socket);
    }
    if Live(s, u) {
      var socket :| socket in s.live && s.live[socket] == u;
      assert Open(s, u, socket);
    }
    if Registered(s.store, u) {
      RegisteredSocketIsOpenExactlyWhen(events, u);
      if Open(s, u, s.store[Key(u)]) {
        assert Live(s, u);
      }
    }
  }

  /** A second socket whose user then closes the first is open but not registered. */
  lemma TwoSocketsExample(u: string, a: string, b: string)
    requires a != b
    ensures var events := [] + [Connect(u, a)] + [Connect(u, b)] + [Attach(u, a)] + [Close(u, a)];
            Legal(events) && Live(Run(events), u) && !Registered(Run(events).store, u)
  {
    var e1 := [] + [Connect(u, a)];
    var e2 := e1 + [Connect(u, b)];
    var e3 := e2 + [Attach(u, a)];
    Continues([], Connect(u, a));
    Continues(e1, Connect(u, b));
    Continues(e2, Attach(u, a));
    Continues(e3, Close(u, a));
    assert Open(Run(e3 + [Close(u, a)]), u, b);
  }
}
