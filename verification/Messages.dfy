/**
 * Direct messages (server/controllers/messageController.js): unread counts, a read that finds the conversation
 * and later marks it, and a send that creates the message, looks the receiver up in the socket registry, and
 * saves the new status later.
 */
module Messages {
  import opened Sequences
  import Registry = SocketRegistry

  datatype Status = Sent | Delivered | Read

  /** Group messages have no receiver. */
  datatype Message = Message(sender: string, receiver: Option<string>, status: Status)

  function Rank(s: Status): nat {
    match s
    case Sent => 0
    case Delivered => 1
    case Read => 2
  }

  predicate Unread(m: Message, from: string, me: string) {
    m.sender == from && m.receiver == Some(me) && m.status != Read
  }

  function CountUnread(messages: seq<Message>, from: string, me: string): nat {
    if messages == [] then 0
    else CountUnread(messages[..|messages| - 1], from, me)
         + if Unread(messages[|messages| - 1], from, me) then 1 else 0
  }

  function ReadMessage(m: Message, from: string, me: string): Message {
    if Unread(m, from, me) then m.(status := Read) else m
  }

  /** The bulk update of `getAllMessages`. */
  function MarkRead(messages: seq<Message>, from: string, me: string): (r: seq<Message>)
    ensures |r| == |messages|
  {
    Map((m: Message) => ReadMessage(m, from, me), messages)
  }

  /** Exactly the messages not read from the one to the other become read. */
  ghost predicate MarksUnread(before: seq<Message>, after: seq<Message>, from: string, me: string) {
    && |after| == |before|
    && forall i :: 0 <= i < |before| ==>
         after[i] == if i in UnreadFrom(before, from, me) then before[i].(status := Read) else before[i]
  }

  predicate Between(m: Message, a: string, b: string) {
    (m.sender == a && m.receiver == Some(b)) || (m.sender == b && m.receiver == Some(a))
  }

  /** The conversation of two users, in order. */
  function Conversation(messages: seq<Message>, a: string, b: string): seq<Message> {
    if messages == [] then []
    else
      var rest, last := Conversation(messages[..|messages| - 1], a, b), messages[|messages| - 1];
      if Between(last, a, b) then rest + [last] else rest
  }

  /** Where the conversation's messages stand. */
  function Places(messages: seq<Message>, a: string, b: string): seq<nat> {
    if messages == [] then []
    else
      var rest := Places(messages[..|messages| - 1], a, b);
      if Between(messages[|messages| - 1], a, b) then rest + [|messages| - 1] else rest
  }

  /** The positions of the messages that one of two users sent the other. */
  ghost function Exchanged(messages: seq<Message>, a: string, b: string): set<nat> {
    set i: nat | i < |messages| && ((messages[i].sender == a && messages[i].receiver == Some(b))
                                    || (messages[i].sender == b && messages[i].receiver == Some(a)))
  }

  /** A conversation holds exactly the messages either of the two sent the other, each once and in order. */
  lemma {:induction false} ConversationKeeps(messages: seq<Message>, a: string, b: string)
    ensures KeepsInOrder(messages, Conversation(messages, a, b), Exchanged(messages, a, b), Places(messages, a, b))
    ensures Keeps(messages, Conversation(messages, a, b), Exchanged(messages, a, b))
  {
    if messages != [] {
      var front, n := messages[..|messages| - 1], |messages| - 1;
      ConversationKeeps(front, a, b);
      assert Exchanged(messages, a, b)
          == Exchanged(front, a, b) + if Between(messages[n], a, b) then {n} else {};
      assert forall k :: k in Places(front, a, b) ==> k < n;
    }
    assert KeepsInOrder(messages, Conversation(messages, a, b), Exchanged(messages, a, b), Places(messages, a, b));
  }

  lemma {:induction false} UnreadIsCounted(messages: seq<Message>, from: string, me: string)
    ensures CountUnread(messages, from, me) == |UnreadFrom(messages, from, me)|
  {
    if messages != [] {
      var front, n := messages[..|messages| - 1], |messages| - 1;
      UnreadIsCounted(front, from, me);
      assert UnreadFrom(messages, from, me)
          == UnreadFrom(front, from, me) + if Unread(messages[n], from, me) then {n} else {};
    }
  }

  /** The positions of the messages from one user to the other that are not read. */
  ghost function UnreadFrom(messages: seq<Message>, from: string, me: string): set<nat> {
    set i: nat | i < |messages| && messages[i].sender == from && messages[i].receiver == Some(me)
                 && (messages[i].status == Sent || messages[i].status == Delivered)
  }

  /** Everyone but the caller, in order. */
  function Peers(users: seq<string>, me: string): seq<string> {
    if users == [] then []
    else
      var rest, last := Peers(users[..|users| - 1], me), users[|users| - 1];
      if last == me then rest else rest + [last]
  }

  lemma {:induction false} PeersKeep(users: seq<string>, me: string)
    ensures Keeps(users, Peers(users, me), set i: nat | i < |users| && users[i] != me)
  {
    var at := set i: nat | i < |users| && users[i] != me;
    if users == [] {
      KeepsNothing(users, at);
    } else {
      var front := users[..|users| - 1];
      PeersKeep(front, me);
      assert at - {|front|} == set i: nat | i < |front| && front[i] != me;
      KeepsLast(users, Peers(front, me), at);
    }
  }

  /** The `unseenMessages` object: an entry for each peer with unread messages. */
  function Unseen(messages: seq<Message>, peers: seq<string>, me: string): map<string, nat> {
    map u | u in peers && CountUnread(messages, u, me) > 0 :: CountUnread(messages, u, me)
  }

  /** A socket id that is absent or empty counts as offline. */
  predicate Online(socketId: Option<string>) {
    socketId.GetOr("") != ""
  }

  class MessageController {
    var messages: seq<Message>
    const registry: Registry.SocketRegistry

    constructor (registry: Registry.SocketRegistry)
      ensures this.registry == registry && messages == []
    {
      this.registry := registry;
      messages := [];
    }

    /** `users` are all users; each peer's messages are counted by one query. */
    method GetAllUsers(me: string, users: seq<string>) returns (peers: seq<string>, unseen: map<string, nat>)
      ensures peers == Peers(users, me)
      ensures unseen == Unseen(messages, peers, me)
      ensures Keeps(users, peers, set i: nat | i < |users| && users[i] != me)
      ensures forall u :: u in unseen <==> u in peers && UnreadFrom(messages, u, me) != {}
      ensures forall u :: u in unseen ==> unseen[u] == |UnreadFrom(messages, u, me)|
    {
      peers := [];
      for i := 0 to |users|
        invariant peers == Peers(users[..i], me)
      {
        assert users[..i + 1][..i] == users[..i];
        if users[i] != me {
          peers := peers + [users[i]];
        }
      }
      assert users[..|users|] == users;
      unseen := map[];
      for i := 0 to |peers|
        invariant unseen == Unseen(messages, peers[..i], me)
      {
        assert peers[..i + 1] == peers[..i] + [peers[i]];
        var count := CountUnread(messages, peers[i], me);
        if count > 0 {
          unseen := unseen[peers[i] := count];
        }
      }
      assert peers[..|peers|] == peers;
      PeersKeep(users, me);
      forall u
        ensures CountUnread(messages, u, me) == |UnreadFrom(messages, u, me)|
      {
        UnreadIsCounted(messages, u, me);
      }
    }

    /** The first step of a send: the message exists, sent, before the receiver is looked up. */
    method Create(sender: string, receiver: string) returns (id: nat)
      modifies this`messages
      ensures id == |old(messages)| && messages == old(messages) + [Message(sender, Some(receiver), Sent)]
    {
      id := |messages|;
      messages := messages + [Message(sender, Some(receiver), Sent)];
    }

    /** The last step, taken only when the lookup found the receiver online: the saved status overwrites. */
    method SaveDelivered(id: nat)
      requires id < |messages|
      modifies this`messages
      ensures messages == Saved(old(messages), id)
      ensures messages == old(messages)[id := old(messages)[id].(status := Delivered)]
    {
      messages := messages[id := messages[id].(status := Delivered)];
    }

    /** A send with nothing in between. */
    method SendMessage(sender: string, receiver: string) returns (id: nat)
      modifies this`messages
      ensures id == |old(messages)|
      ensures var socketId := if Registry.Key(receiver) in registry.store
                              then Some(registry.store[Registry.Key(receiver)]) else None;
              messages == old(messages)
                          + [Message(sender, Some(receiver), if Online(socketId) then Delivered else Sent)]
      ensures messages[id].status == Delivered
        <==> Registry.Key(receiver) in registry.store && registry.store[Registry.Key(receiver)] != ""
    {
      id := Create(sender, receiver);
      var socketId := registry.GetUserSocket(receiver);
      if Online(socketId) {
        SaveDelivered(id);
      }
    }

    /** The first step of a read: the conversation is found. */
    method FindConversation(user: string, me: string) returns (found: seq<Message>)
      ensures found == Conversation(messages, me, user)
      ensures Keeps(messages, found, Exchanged(messages, me, user))
    {
      ConversationKeeps(messages, me, user);
      found := [];
      for i := 0 to |messages|
        invariant found == Conversation(messages[..i], me, user)
      {
        assert messages[..i + 1][..i] == messages[..i];
        if Between(messages[i], me, user) {
          found := found + [messages[i]];
        }
      }
      assert messages[..|messages|] == messages;
    }

    /** The second step: whatever is then unread from the peer becomes read. */
    method MarkIncoming(user: string, me: string) returns (modified: nat)
      modifies this`messages
      ensures messages == MarkRead(old(messages), user, me)
      ensures modified == CountUnread(old(messages), user, me)
      ensures MarksUnread(old(messages), messages, user, me)
      ensures modified == |UnreadFrom(old(messages), user, me)|
    {
      UnreadIsCounted(messages, user, me);
      modified := 0;
      var updated := [];
      for i := 0 to |messages|
        invariant messages == old(messages)
        invariant updated == MarkRead(messages[..i], user, me)
        invariant modified == CountUnread(messages[..i], user, me)
      {
        assert messages[..i + 1][..i] == messages[..i];
        if Unread(messages[i], user, me) {
          modified := modified + 1;
        }
        updated := updated + [ReadMessage(messages[i], user, me)];
      }
      assert messages[..|messages|] == messages;
      messages := updated;
    }

    /** A read with nothing in between: it answers the conversation as it was before it marked it. */
    method GetAllMessages(user: string, me: string) returns (found: seq<Message>, modified: nat)
      modifies this`messages
      ensures found == Conversation(old(messages), me, user)
      ensures messages == MarkRead(old(messages), user, me)
      ensures modified == CountUnread(old(messages), user, me)
      ensures Keeps(old(messages), found, Exchanged(old(messages), me, user))
      ensures MarksUnread(old(messages), messages, user, me)
      ensures modified == |UnreadFrom(old(messages), user, me)|
      ensures forall i :: 0 <= i < |messages| && messages[i] != old(messages)[i] ==> old(messages)[i] in found
    {
      ghost var before := messages;
      ConversationKeeps(messages, me, user);
      KeepsValues(messages, Conversation(messages, me, user), Exchanged(messages, me, user));
      assert UnreadFrom(messages, user, me) <= Exchanged(messages, me, user);
      found := FindConversation(user, me);
      modified := MarkIncoming(user, me);
      forall i | 0 <= i < |messages| && messages[i] != before[i]
        ensures before[i] in found
      {
        assert i in UnreadFrom(before, user, me);
      }
    }
  }

  function Saved(messages: seq<Message>, id: nat): seq<Message>
    requires id < |messages|
  {
    messages[id := messages[id].(status := Delivered)]
  }

  // ----- unread counts ------------------------------------------------------------------------------

  function Total(unseen: map<string, nat>, peers: seq<string>): nat {
    if peers == [] then 0
    else
      var last := peers[|peers| - 1];
      Total(unseen, peers[..|peers| - 1]) + if last in unseen then unseen[last] else 0
  }

  /** Messages to `me`, not read, from any of `peers`. */
  function CountFromAny(messages: seq<Message>, peers: set<string>, me: string): nat {
    if messages == [] then 0
    else
      var last := messages[|messages| - 1];
      CountFromAny(messages[..|messages| - 1], peers, me)
      + if last.sender in peers && Unread(last, last.sender, me) then 1 else 0
  }

  lemma {:induction false} CountFromAnySplits(messages: seq<Message>, peers: set<string>, u: string, me: string)
    requires u !in peers
    ensures CountFromAny(messages, peers + {u}, me) == CountFromAny(messages, peers, me) + CountUnread(messages, u, me)
  {
    if messages != [] {
      CountFromAnySplits(messages[..|messages| - 1], peers, u, me);
    }
  }

  lemma {:induction false} CountFromNobody(messages: seq<Message>, me: string)
    ensures CountFromAny(messages, {}, me) == 0
  {
    if messages != [] {
      CountFromNobody(messages[..|messages| - 1], me);
    }
  }

  lemma {:induction false} TotalOfSome(messages: seq<Message>, peers: seq<string>, all: seq<string>, me: string)
    requires Distinct(peers) && forall u :: u in peers ==> u in all
    ensures Total(Unseen(messages, all, me), peers) == CountFromAny(messages, Elements(peers), me)
  {
    if peers == [] {
      CountFromNobody(messages, me);
      assert Elements(peers) == {};
    } else {
      var front, last := peers[..|peers| - 1], peers[|peers| - 1];
      assert peers == front + [last];
      DistinctSnoc(front, last);
      TotalOfSome(messages, front, all, me);
      CountFromAnySplits(messages, Elements(front), last, me);
      assert Elements(peers) == Elements(front) + {last};
    }
  }

  lemma {:induction false} PeersDistinct(users: seq<string>, me: string)
    ensures forall u :: u in Peers(users, me) <==> u in users && u != me
    ensures Distinct(users) ==> Distinct(Peers(users, me))
  {
    if users != [] {
      var front, last := users[..|users| - 1], users[|users| - 1];
      assert users == front + [last];
      PeersDistinct(front, me);
      DistinctSnoc(front, last);
      DistinctSnoc(Peers(front, me), last);
    }
  }

  /** The unread badges add up to the unread messages the caller has from existing users other than the caller. */
  lemma UnreadIsConserved(messages: seq<Message>, users: seq<string>, me: string)
    requires Distinct(users)
    ensures var peers := Peers(users, me);
            Total(Unseen(messages, peers, me), peers) == CountFromAny(messages, Elements(users) - {me}, me)
  {
    PeersDistinct(users, me);
    TotalOfSome(messages, Peers(users, me), Peers(users, me), me);
    assert Elements(Peers(users, me)) == Elements(users) - {me};
  }

  lemma {:induction false} MarkReadCounts(messages: seq<Message>, from: string, me: string, a: string, b: string)
    ensures CountUnread(MarkRead(messages, from, me), a, b)
            == if a == from && b == me then 0 else CountUnread(messages, a, b)
  {
    if messages != [] {
      var front := messages[..|messages| - 1];
      MarkReadCounts(front, from, me, a, b);
      assert MarkRead(messages, from, me)[..|messages| - 1] == MarkRead(front, from, me);
    }
  }

  lemma {:induction false} TotalWithout(unseen: map<string, nat>, peers: seq<string>, u: string)
    requires Distinct(peers)
    ensures Total(unseen - {u}, peers) + (if u in unseen && u in peers then unseen[u] else 0) == Total(unseen, peers)
  {
    if peers != [] {
      var front, last := peers[..|peers| - 1], peers[|peers| - 1];
      assert peers == front + [last];
      DistinctSnoc(front, last);
      TotalWithout(unseen, front, u);
    }
  }

  /**
   * Reading a peer's messages removes exactly that peer's badge, lowers the total by exactly its old value,
   * and changes no other pair's count or messages.
   */
  lemma ReadingClearsOneBadge(messages: seq<Message>, users: seq<string>, u: string, me: string)
    requires Distinct(users) && u in users && u != me
    ensures var peers, after := Peers(users, me), MarkRead(messages, u, me);
            && Unseen(after, peers, me) == Unseen(messages, peers, me) - {u}
            && Total(Unseen(after, peers, me), peers) + CountUnread(messages, u, me)
               == Total(Unseen(messages, peers, me), peers)
            && (forall a, b :: a != u || b != me ==> CountUnread(after, a, b) == CountUnread(messages, a, b))
            && (forall i :: 0 <= i < |messages| ==>
                  after[i] == if messages[i].sender == u && messages[i].receiver == Some(me)
                              then messages[i].(status := Read) else messages[i])
  {
    var peers, after := Peers(users, me), MarkRead(messages, u, me);
    PeersDistinct(users, me);
    forall a, b
      ensures CountUnread(after, a, b) == if a == u && b == me then 0 else CountUnread(messages, a, b)
    {
      MarkReadCounts(messages, u, me, a, b);
    }
    assert Unseen(after, peers, me) == Unseen(messages, peers, me) - {u};
    TotalWithout(Unseen(messages, peers, me), peers, u);
  }

  // ----- sends and reads interleaved ----------------------------------------------------------------

  /** Where a send handler is: before the lookup, between the lookup and the save, or finished. */
  datatype Phase = Created | Saving | Finished

  /** A read between its two steps: what it found, with the ids, when `known` messages existed. */
  datatype Reading = Reading(user: string, me: string, known: nat, ids: seq<nat>, found: seq<Message>)

  datatype System = System(messages: seq<Message>, phases: seq<Phase>, readers: map<nat, Reading>, store: Registry.Store)

  datatype Event =
    | Connect(user: string, socket: string)
    | Disconnect(user: string)
    | Create(sender: string, receiver: string)
    | Lookup(id: nat)
    | Save(id: nat)
    | Find(reader: nat, user: string, me: string)
    | Mark(reader: nat)

  function SocketOf(store: Registry.Store, receiver: Option<string>): Option<string> {
    if receiver.Some? && Registry.Key(receiver.value) in store then Some(store[Registry.Key(receiver.value)]) else None
  }

  predicate InPhase(s: System, id: nat, p: Phase) {
    id < |s.messages| && id < |s.phases| && s.phases[id] == p
  }

  function Step(s: System, e: Event): System {
    match e
    case Connect(user, socket) => s.(store := s.store[Registry.Key(user) := socket])
    case Disconnect(user) => s.(store := s.store - {Registry.Key(user)})
    case Create(sender, receiver) =>
      s.(messages := s.messages + [Message(sender, Some(receiver), Sent)], phases := s.phases + [Created])
    case Lookup(id) =>
      if !InPhase(s, id, Created) then s
      else s.(phases := s.phases[id := if Online(SocketOf(s.store, s.messages[id].receiver)) then Saving else Finished])
    case Save(id) =>
      if !InPhase(s, id, Saving) then s
      else s.(messages := Saved(s.messages, id), phases := s.phases[id := Finished])
    case Find(reader, user, me) =>
      if reader in s.readers then s
      else s.(readers := s.readers[reader := Reading(user, me, |s.messages|, Places(s.messages, me, user),
                                                            Conversation(s.messages, me, user))])
    case Mark(reader) =>
      if reader !in s.readers then s
      else s.(messages := MarkRead(s.messages, s.readers[reader].user, s.readers[reader].me), readers := s.readers - {reader})
  }

  function Run(events: seq<Event>): System {
    if events == [] then System([], [], map[], map[])
    else Step(Run(events[..|events| - 1]), events[|events| - 1])
  }

  /** The event is the second step of a read, and this message is from its peer. */
  predicate Covers(s: System, e: Event, m: Message) {
    e.Mark? && e.reader in s.readers && m.sender == s.readers[e.reader].user && m.receiver == Some(s.readers[e.reader].me)
  }

  /** Message `id` existed and was read at some event. */
  ghost predicate WasRead(events: seq<Event>, id: nat) {
    events != [] &&
    (var front, e := events[..|events| - 1], events[|events| - 1];
     var s := Run(front);
     WasRead(front, id) || (id < |s.messages| && Covers(s, e, s.messages[id])))
  }

  /** Message `id` was read at some event and has not been saved as delivered since. */
  ghost predicate ReadSinceSave(events: seq<Event>, id: nat) {
    events != [] &&
    (var front, e := events[..|events| - 1], events[|events| - 1];
     var s := Run(front);
     if id < |s.messages| && Covers(s, e, s.messages[id]) then true
     else ReadSinceSave(front, id) && !(e == Save(id) && InPhase(s, id, Saving)))
  }

  lemma {:induction false} OnePhaseEach(events: seq<Event>)
    ensures |Run(events).phases| == |Run(events).messages|
  {
    if events != [] {
      OnePhaseEach(events[..|events| - 1]);
    }
  }

  lemma {:induction false} NeverReadBeforeCreation(events: seq<Event>, id: nat)
    requires id >= |Run(events).messages|
    ensures !WasRead(events, id)
  {
    if events != [] {
      NeverReadBeforeCreation(events[..|events| - 1], id);
    }
  }

  lemma {:induction false} ReadSinceSaveWasRead(events: seq<Event>, id: nat)
    requires ReadSinceSave(events, id)
    ensures WasRead(events, id)
  {
    if ReadSinceSave(events[..|events| - 1], id) {
      ReadSinceSaveWasRead(events[..|events| - 1], id);
    }
  }

  /** What one event does to one message's status. */
  lemma StepStatus(s: System, e: Event, id: nat)
    requires |s.phases| == |s.messages| && id < |s.messages|
    ensures |Step(s, e).messages| >= |s.messages|
    ensures Step(s, e).messages[id] == s.messages[id].(status := Step(s, e).messages[id].status)
    ensures Step(s, e).messages[id].status
            == if Covers(s, e, s.messages[id]) then Read
               else if e == Save(id) && InPhase(s, id, Saving) then Delivered
               else s.messages[id].status
  {
  }

  /** A new message is sent, to one receiver. */
  lemma StepAdds(s: System, e: Event, id: nat)
    requires |s.phases| == |s.messages| <= id < |Step(s, e).messages|
    ensures e.Create? && Step(s, e).messages[id] == Message(e.sender, Some(e.receiver), Sent)
  {
  }

  /**
   * In every interleaving a message stands as read exactly when a read covered it after its creation and after
   * the save of its send, if that came.
   */
  lemma {:induction false} ReadExactlyWhen(events: seq<Event>, id: nat)
    requires id < |Run(events).messages|
    ensures Run(events).messages[id].status == Read <==> ReadSinceSave(events, id)
  {
    var front := events[..|events| - 1];
    OnePhaseEach(front);
    if id < |Run(front).messages| {
      ReadExactlyWhen(front, id);
      StepStatus(Run(front), events[|events| - 1], id);
    } else {
      StepAdds(Run(front), events[|events| - 1], id);
      if ReadSinceSave(front, id) {
        ReadSinceSaveWasRead(front, id);
        NeverReadBeforeCreation(front, id);
      }
    }
  }

  /** While its handler runs, a message is read exactly if a read covered it, and otherwise still sent. */
  lemma {:induction false} UnfinishedStatus(events: seq<Event>, id: nat)
    ensures |Run(events).phases| == |Run(events).messages|
    ensures var s := Run(events);
            id < |s.messages| && s.phases[id] != Finished ==>
              s.messages[id].status == if WasRead(events, id) then Read else Sent
  {
    if events != [] {
      UnfinishedStatus(events[..|events| - 1], id);
      if id >= |Run(events[..|events| - 1]).messages| {
        NeverReadBeforeCreation(events[..|events| - 1], id);
      }
    }
  }

  /** An event never removes a message or changes its parties, and once the handler has finished the status
      never moves backwards. */
  lemma FinishedNeverFalls(s: System, e: Event, id: nat)
    requires |s.phases| == |s.messages| && id < |s.messages|
    ensures var s' := Step(s, e);
            && id < |s'.messages|
            && s'.messages[id].sender == s.messages[id].sender && s'.messages[id].receiver == s.messages[id].receiver
            && (s.phases[id] == Finished ==>
                  && s'.phases[id] == Finished
                  && Rank(s.messages[id].status) <= Rank(s'.messages[id].status))
  {
  }

  /** The event moves message `id` back in sent < delivered < read. */
  ghost predicate Falls(events: seq<Event>, e: Event, id: nat) {
    var s := Run(events);
    id < |s.messages| && id < |Step(s, e).messages| && Rank(Step(s, e).messages[id].status) < Rank(s.messages[id].status)
  }

  /**
   * In every interleaving, an event moves a message's status back exactly when it is the save of a send whose
   * message was read since it was created: from read back to delivered.
   */
  lemma StatusFallsExactlyWhen(events: seq<Event>, e: Event, id: nat)
    ensures Falls(events, e, id) <==> e == Save(id) && InPhase(Run(events), id, Saving) && WasRead(events, id)
    ensures Falls(events, e, id) ==>
      && Run(events).messages[id].status == Read
      && Step(Run(events), e).messages[id].status == Delivered
  {
    UnfinishedStatus(events, id);
  }

  /** Such a save makes a message the receiver has read count as unread again; no other save changes a count. */
  lemma {:induction false} FallCountsAgain(messages: seq<Message>, id: nat, a: string, b: string)
    requires id < |messages|
    ensures CountUnread(Saved(messages, id), a, b)
            == CountUnread(messages, a, b)
               + if messages[id].status == Read && messages[id].sender == a && messages[id].receiver == Some(b)
                 then 1 else 0
  {
    var front := messages[..|messages| - 1];
    if id < |front| {
      FallCountsAgain(front, id, a, b);
      assert Saved(messages, id)[..|messages| - 1] == Saved(front, id);
    } else {
      assert Saved(messages, id)[..|messages| - 1] == front;
    }
  }

  /** No read covers a message whose send handler is still running. */
  ghost predicate SendsUndisturbed(events: seq<Event>) {
    events == [] ||
    (var front, e := events[..|events| - 1], events[|events| - 1];
     var s := Run(front);
     && SendsUndisturbed(front)
     && forall id: nat :: id < |s.messages| && id < |s.phases| && Covers(s, e, s.messages[id]) ==>
          s.phases[id] == Finished)
  }

  lemma {:induction false} UndisturbedNotRead(events: seq<Event>, id: nat)
    requires SendsUndisturbed(events)
    ensures id < |Run(events).phases| && Run(events).phases[id] != Finished ==> !WasRead(events, id)
  {
    if events != [] {
      var front := events[..|events| - 1];
      UndisturbedNotRead(front, id);
      UnfinishedStatus(front, id);
      if id >= |Run(front).messages| {
        NeverReadBeforeCreation(front, id);
      }
    }
  }

  /** When sends are not interrupted by reads of their message, a status is monotone over the whole life. */
  lemma UndisturbedSendsAreMonotone(events: seq<Event>, e: Event, id: nat)
    requires SendsUndisturbed(events)
    ensures !Falls(events, e, id)
  {
    StatusFallsExactlyWhen(events, e, id);
    UndisturbedNotRead(events, id);
  }

  lemma RunAppend(events: seq<Event>, e: Event)
    ensures Run(events + [e]) == Step(Run(events), e)
  {
    assert (events + [e])[..|events + [e]| - 1] == events;
  }

  /** A send up to its lookup, to a receiver who is online. */
  lemma LookedUp(a: string, b: string, socket: string)
    requires socket != ""
    ensures Run([Connect(b, socket)] + [Create(a, b)] + [Lookup(0)])
            == System([Message(a, Some(b), Sent)], [Saving], map[], map[Registry.Key(b) := socket])
  {
    var store := map[Registry.Key(b) := socket];
    RunAppend([], Connect(b, socket));
    assert [] + [Connect(b, socket)] == [Connect(b, socket)];
    assert Run([Connect(b, socket)]) == System([], [], map[], store);
    RunAppend([Connect(b, socket)], Create(a, b));
    RunAppend([Connect(b, socket)] + [Create(a, b)], Lookup(0));
  }

  /** A read of a looked-up message, in two steps. */
  lemma ReadWhileSaving(s: System, a: string, b: string)
    requires s.messages == [Message(a, Some(b), Sent)] && s.phases == [Saving] && s.readers == map[]
    ensures var s' := Step(Step(s, Find(0, a, b)), Mark(0));
            && s'.messages == [Message(a, Some(b), Read)] && s'.phases == [Saving]
            && Step(s', Save(0)).messages == [Message(a, Some(b), Delivered)]
  {
    var found := Step(s, Find(0, a, b));
    assert found.readers[0].user == a && found.readers[0].me == b && found.messages == s.messages;
  }

  /** A read whose second step comes between the lookup and the save: the message is read, then only delivered. */
  lemma InterruptedSendExample(a: string, b: string, socket: string)
    requires socket != ""
    ensures var events := [Connect(b, socket)] + [Create(a, b)] + [Lookup(0)] + [Find(0, a, b)] + [Mark(0)];
            && Run(events).messages == [Message(a, Some(b), Read)]
            && Run(events + [Save(0)]).messages == [Message(a, Some(b), Delivered)]
  {
    var looked := [Connect(b, socket)] + [Create(a, b)] + [Lookup(0)];
    LookedUp(a, b, socket);
    ReadWhileSaving(Run(looked), a, b);
    RunAppend(looked, Find(0, a, b));
    RunAppend(looked + [Find(0, a, b)], Mark(0));
    RunAppend(looked + [Find(0, a, b)] + [Mark(0)], Save(0));
  }

  // ----- delivered means that the receiver was online -----------------------------------------------

  /** The socket of the user's latest connect, unless the user disconnected after it. */
  function LatestSocket(events: seq<Event>, u: string): Option<string> {
    if events == [] then None
    else
      match events[|events| - 1]
      case Connect(user, socket) => if user == u then Some(socket) else LatestSocket(events[..|events| - 1], u)
      case Disconnect(user) => if user == u then None else LatestSocket(events[..|events| - 1], u)
      case _ => LatestSocket(events[..|events| - 1], u)
  }

  lemma {:induction false} StoreHoldsLatestSocket(events: seq<Event>, u: string)
    ensures SocketOf(Run(events).store, Some(u)) == LatestSocket(events, u)
  {
    if events != [] {
      var front, e := events[..|events| - 1], events[|events| - 1];
      StoreHoldsLatestSocket(front, u);
      if (e.Connect? || e.Disconnect?) && Registry.Key(e.user) == Registry.Key(u) {
        Registry.KeyInjective(e.user, u);
      }
    }
  }

  /** There is a socket, and its id is not empty. */
  predicate IsOnline(socket: Option<string>) {
    socket.Some? && socket.value != ""
  }

  lemma OnlineIsLatest(events: seq<Event>, receiver: string)
    ensures Online(SocketOf(Run(events).store, Some(receiver))) <==> IsOnline(LatestSocket(events, receiver))
  {
    StoreHoldsLatestSocket(events, receiver);
  }

  /** The n-th event is the one lookup of this send. */
  predicate LookedUpAt(events: seq<Event>, n: nat, id: nat) {
    n < |events| && events[n] == Lookup(id) && InPhase(Run(events[..n]), id, Created)
  }

  /** What one event does to one send's phase. */
  lemma StepPhase(s: System, e: Event, id: nat)
    requires |s.phases| == |s.messages| && id < |s.messages|
    ensures id < |Step(s, e).phases|
    ensures Step(s, e).phases[id]
            == if e == Lookup(id) && s.phases[id] == Created
               then if Online(SocketOf(s.store, s.messages[id].receiver)) then Saving else Finished
               else if e == Save(id) && s.phases[id] == Saving then Finished else s.phases[id]
  {
  }

  /** A lookup changes no message; the send goes on to its save exactly if the receiver is online at the lookup. */
  lemma LookupDecides(events: seq<Event>, id: nat, receiver: string)
    requires InPhase(Run(events), id, Created) && Run(events).messages[id].receiver == Some(receiver)
    ensures var s' := Step(Run(events), Lookup(id));
            && s'.messages == Run(events).messages
            && s'.phases[id] == if IsOnline(LatestSocket(events, receiver)) then Saving else Finished
  {
    OnePhaseEach(events);
    OnlineIsLatest(events, receiver);
    StepPhase(Run(events), Lookup(id), id);
  }

  /** A message is about to be saved, or stands as delivered, only if its receiver was online at its lookup. */
  lemma {:induction false} DeliveredOnlyIfOnline(events: seq<Event>, id: nat, receiver: string) returns (n: nat)
    requires id < |Run(events).messages| && Run(events).messages[id].receiver == Some(receiver)
    requires InPhase(Run(events), id, Saving) || Run(events).messages[id].status == Delivered
    ensures LookedUpAt(events, n, id) && IsOnline(LatestSocket(events[..n], receiver))
  {
    var front, e := events[..|events| - 1], events[|events| - 1];
    var s := Run(front);
    OnePhaseEach(front);
    if id >= |s.messages| {
      StepAdds(s, e, id);
      assert false;
    }
    StepStatus(s, e, id);
    StepPhase(s, e, id);
    if s.phases[id] == Saving || s.messages[id].status == Delivered {
      n := DeliveredOnlyIfOnline(front, id, receiver);
      assert events[..n] == front[..n];
    } else {
      n := |front|;
      OnlineIsLatest(front, receiver);
      assert events[..n] == front;
    }
  }

  // ----- a send and a read with nothing in between --------------------------------------------------

  /** A send alone: one more message, delivered if the registry holds a socket id that is not empty; else sent. */
  lemma SoloSendIsAtomic(s: System, sender: string, receiver: string)
    requires |s.phases| == |s.messages|
    ensures var id := |s.messages|;
            var s' := Step(Step(Step(s, Create(sender, receiver)), Lookup(id)), Save(id));
            var online := Registry.Key(receiver) in s.store && s.store[Registry.Key(receiver)] != "";
            && s'.messages == s.messages + [Message(sender, Some(receiver), if online then Delivered else Sent)]
            && s'.phases == s.phases + [Finished] && s'.store == s.store && s'.readers == s.readers
  {
  }

  /** A read alone: it answers the conversation, marks the peer's unread messages, and is over. */
  lemma SoloReadIsAtomic(s: System, reader: nat, user: string, me: string)
    requires reader !in s.readers
    ensures var s1 := Step(s, Find(reader, user, me));
            var s2 := Step(s1, Mark(reader));
            && reader in s1.readers && s1.readers[reader].user == user && s1.readers[reader].me == me
            && Keeps(s.messages, s1.readers[reader].found, Exchanged(s.messages, me, user))
            && MarksUnread(s.messages, s2.messages, user, me)
            && s2 == s.(messages := s2.messages)
  {
    ConversationKeeps(s.messages, me, user);
    assert s.readers[reader := Step(s, Find(reader, user, me)).readers[reader]] - {reader} == s.readers;
  }

  // ----- what a read answers and what it marks ------------------------------------------------------

  /** The message is from the peer whose conversation the read opens. */
  predicate FromPeer(m: Message, r: Reading) {
    m.sender == r.user && m.receiver == Some(r.me)
  }

  /** How many events had happened when the read in flight found the conversation. */
  function FoundAt(events: seq<Event>, reader: nat): (n: nat)
    requires reader in Run(events).readers
    ensures n < |events|
  {
    var front := events[..|events| - 1];
    if reader in Run(front).readers then FoundAt(front, reader) else |front|
  }

  /** A read in flight was in flight before the event, unchanged, or the event began it. */
  lemma ReadersFollow(s: System, e: Event, reader: nat)
    requires reader in Step(s, e).readers
    ensures var r := Step(s, e).readers[reader];
            if reader in s.readers then r == s.readers[reader]
            else e == Find(reader, r.user, r.me) && r.known == |s.messages|
                 && r.ids == Places(s.messages, r.me, r.user) && r.found == Conversation(s.messages, r.me, r.user)
  {
  }

  lemma MessagesOnlyGrow(s: System, e: Event)
    ensures |s.messages| <= |Step(s, e).messages|
  {
  }

  /**
   * A read in flight holds the conversation as it was when the read began: in order, exactly the messages either of the
   * two had sent the other, under their ids.
   */
  lemma {:induction false} FindsConversation(events: seq<Event>, reader: nat)
    requires reader in Run(events).readers
    ensures var r, then' := Run(events).readers[reader], FoundAt(events, reader);
            && then' < |events| && events[then'] == Find(reader, r.user, r.me)
            && r.known == |Run(events[..then']).messages| <= |Run(events).messages|
            && KeepsInOrder(Run(events[..then']).messages, r.found,
                            Exchanged(Run(events[..then']).messages, r.me, r.user), r.ids)
  {
    var front := events[..|events| - 1];
    ConversationKeeps(Run(front).messages, Run(events).readers[reader].me, Run(events).readers[reader].user);
    ReadersFollow(Run(front), events[|events| - 1], reader);
    MessagesOnlyGrow(Run(front), events[|events| - 1]);
    if reader in Run(front).readers {
      FindsConversation(front, reader);
      assert events[..FoundAt(front, reader)] == front[..FoundAt(front, reader)];
    }
  }

  /** Everything this read is about to mark is in the answer it found. */
  ghost predicate MarksOnlyFound(s: System, r: Reading) {
    forall i :: i in UnreadFrom(s.messages, r.user, r.me) ==> i in r.ids
  }

  /** Messages keep their parties. */
  lemma {:induction false} PartiesStay(events: seq<Event>, n: nat, i: nat)
    requires n <= |events| && i < |Run(events[..n]).messages|
    ensures i < |Run(events).messages|
    ensures Run(events).messages[i].sender == Run(events[..n]).messages[i].sender
    ensures Run(events).messages[i].receiver == Run(events[..n]).messages[i].receiver
  {
    if n == |events| {
      assert events[..n] == events;
    } else {
      var front := events[..|events| - 1];
      assert events[..n] == front[..n];
      PartiesStay(front, n, i);
      OnePhaseEach(front);
      StepStatus(Run(front), events[|events| - 1], i);
    }
  }

  /** Of the messages from the peer, the read found exactly those there were as it began. */
  lemma FoundIfKnown(events: seq<Event>, reader: nat, i: nat)
    requires reader in Run(events).readers && i < |Run(events).messages|
    requires FromPeer(Run(events).messages[i], Run(events).readers[reader])
    ensures i in Run(events).readers[reader].ids <==> i < Run(events).readers[reader].known
  {
    var r, n := Run(events).readers[reader], FoundAt(events, reader);
    FindsConversation(events, reader);
    if i < r.known {
      PartiesStay(events, n, i);
      assert i in Exchanged(Run(events[..n]).messages, r.me, r.user);
    }
  }

  /**
   * A read marks only messages it answers exactly when each message its peer sent since it began has been
   * read by another read, after the save of its send, if that came.
   */
  lemma MarksOnlyFoundExactlyWhen(events: seq<Event>, reader: nat)
    requires reader in Run(events).readers
    ensures var s := Run(events);
            var r := s.readers[reader];
            && r.known == |Run(events[..FoundAt(events, reader)]).messages|
            && (MarksOnlyFound(s, r)
                <==> forall i :: r.known <= i < |s.messages| && FromPeer(s.messages[i], r) ==> ReadSinceSave(events, i))
  {
    var s := Run(events);
    var r := s.readers[reader];
    FindsConversation(events, reader);
    forall i | 0 <= i < |s.messages|
      ensures s.messages[i].status == Read <==> ReadSinceSave(events, i)
      ensures FromPeer(s.messages[i], r) ==> (i in r.ids <==> i < r.known)
    {
      ReadExactlyWhen(events, i);
      if FromPeer(s.messages[i], r) {
        FoundIfKnown(events, reader, i);
      }
    }
    if MarksOnlyFound(s, r) {
      forall i | r.known <= i < |s.messages| && FromPeer(s.messages[i], r)
        ensures ReadSinceSave(events, i)
      {
        assert s.messages[i].status != Read ==> i in UnreadFrom(s.messages, r.user, r.me);
      }
    }
  }

  /** The peer sends nothing while the read is in flight. */
  predicate PeerSilent(events: seq<Event>, user: string, me: string) {
    forall i :: 0 <= i < |events| ==> events[i] != Create(user, me)
  }

  lemma {:induction false} SilentPeersAddNothing(before: seq<Event>, since: seq<Event>, user: string, me: string, i: nat)
    requires PeerSilent(since, user, me)
    requires |Run(before).messages| <= i < |Run(before + since).messages|
    ensures !(Run(before + since).messages[i].sender == user && Run(before + since).messages[i].receiver == Some(me))
    decreases |since|
  {
    assert since == [] ==> before + since == before;
    if since != [] {
      var front, e := since[..|since| - 1], since[|since| - 1];
      assert (before + since)[..|before + since| - 1] == before + front;
      OnePhaseEach(before + front);
      if i < |Run(before + front).messages| {
        SilentPeersAddNothing(before, front, user, me, i);
        StepStatus(Run(before + front), e, i);
      } else {
        StepAdds(Run(before + front), e, i);
      }
    }
  }

  lemma SilenceAddsNothing(events: seq<Event>, n: nat, user: string, me: string, i: nat)
    requires n <= |events| && PeerSilent(events[n..], user, me)
    requires |Run(events[..n]).messages| <= i < |Run(events).messages|
    ensures !(Run(events).messages[i].sender == user && Run(events).messages[i].receiver == Some(me))
  {
    assert events[..n] + events[n..] == events;
    SilentPeersAddNothing(events[..n], events[n..], user, me, i);
  }

  /** In particular when the peer sends nothing in between. */
  lemma SilentPeersAreAnswered(events: seq<Event>, reader: nat)
    requires reader in Run(events).readers
    requires var r := Run(events).readers[reader]; PeerSilent(events[FoundAt(events, reader)..], r.user, r.me)
    ensures MarksOnlyFound(Run(events), Run(events).readers[reader])
  {
    var r := Run(events).readers[reader];
    MarksOnlyFoundExactlyWhen(events, reader);
    forall i | r.known <= i < |Run(events).messages|
      ensures !FromPeer(Run(events).messages[i], r)
    {
      SilenceAddsNothing(events, FoundAt(events, reader), r.user, r.me, i);
    }
  }

  /** A message sent between the two steps of a read is marked read without having been answered. */
  lemma LateMessageExample(a: string, b: string)
    ensures var s := Run([] + [Find(0, a, b)] + [Create(a, b)]);
            && 0 in s.readers && s.readers[0].found == [] && !MarksOnlyFound(s, s.readers[0])
            && Step(s, Mark(0)).messages == [Message(a, Some(b), Read)]
  {
    RunAppend([], Find(0, a, b));
    RunAppend([] + [Find(0, a, b)], Create(a, b));
    var s := Run([] + [Find(0, a, b)] + [Create(a, b)]);
    assert s.messages == [Message(a, Some(b), Sent)] && s.readers[0] == Reading(a, b, 0, [], []);
    assert 0 in UnreadFrom(s.messages, a, b);
  }
}
