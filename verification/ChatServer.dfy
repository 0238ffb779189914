// The handlers of slack/main.go and slack/chat_server.cpp as they run: queries and inserts one after the
// other on the tables, row loops, and what is emitted on the way. Each method is held against the handler of
// module Chat.
module ChatServer {
  import opened Options
  import opened Pages
  import opened Chat
  import W = WsRegistry

  class Handlers {
    const server: Server
    var users: seq<User>
    var channels: seq<nat>
    var members: seq<Member>
    var messages: seq<Message>
    var nextUser: int
    var nextChannel: nat
    var nextMessage: nat
    var effects: seq<Effect>       // everything inserted into message or emitted, in order

    function Snapshot(): Tables
      reads this
    {
      Tables(users, channels, members, messages, nextUser, nextChannel, nextMessage)
    }

    ghost predicate Valid()
      reads this
    {
      Inv(Snapshot())
    }

    constructor (server: Server)
      ensures Valid() && Snapshot() == EMPTY && effects == [] && this.server == server
    {
      this.server := server;
      users, channels, members, messages, effects := [], [], [], [], [];
      nextUser, nextChannel, nextMessage := 1, 1, 1;
      new;
      EmptyInv();
    }

    /** The state after a handler is the one that module Chat computes, and the effects were added in order. */
    twostate predicate Handled(o: Outcome, reply: Reply)
      reads this
    {
      Snapshot() == o.tables && reply == o.reply && effects == old(effects) + o.effects
    }

    method CreateUser(user: Lookup, inserts: nat) returns (reply: Reply)
      requires Valid()
      modifies this
      ensures Valid() && Handled(HandleCreateUser(old(Snapshot()), user, inserts), reply)
    {
      HandleInv(Snapshot(), Request.CreateUser(user, inserts));
      var id := FindUser(users, user);
      var foundName := if id != 0 then user.name else "";
      if foundName == "" {
        if inserts == 0 {
          return Failed;
        }
        id := nextUser;
        users := users + [User(id, user.name)];
        nextUser := nextUser + 1;
      }
      reply := UserCreated(id);
    }

    /** Go scans every row of the join and keeps the last; C++ looks at the first only. 0 means no row. */
    method PickChannel(rows: seq<nat>) returns (ch: nat)
      requires forall c <- rows :: c > 0
      ensures ch == match Pick(server, rows) case Some(c) => c case None => 0
      ensures ch == 0 <==> rows == []
      ensures rows != [] ==> ch == if server == Go then rows[|rows| - 1] else rows[0]
    {
      ch := 0;
      assert rows != [] ==> rows[0] in rows && rows[|rows| - 1] in rows;
      if server.Cpp? {
        if rows != [] {
          ch := rows[0];
        }
      } else {
        for i := 0 to |rows|
          invariant ch == if i == 0 then 0 else rows[i - 1]
        {
          ch := rows[i];
        }
      }
    }

    method CreateChannel(sender: Lookup, receiver: Lookup, inserts: nat, now: nat) returns (reply: Reply)
      requires Valid()
      modifies this
      ensures Valid()
      ensures Handled(HandleCreateChannel(server, old(Snapshot()), sender, receiver, inserts, now), reply)
    {
      HandleInv(Snapshot(), Request.CreateChannel(server, sender, receiver, inserts, now));
      var senderId, receiverId := FindUser(users, sender), FindUser(users, receiver);
      var rows := Common(Snapshot(), senderId, receiverId);
      ghost var t := Snapshot();
      forall c | c in rows ensures c > 0 {
        JoinMeaning(members, members, senderId, receiverId, c);
      }
      var ch := PickChannel(rows);
      if ch != 0 {
        return History(ch);
      }
      reply := InsertChannel(sender, receiver, senderId, receiverId, inserts, now);
    }

    /** insert into message: the row is stored. */
    method InsertMessage(senderId: int, channelId: nat, text: string, now: nat)
      modifies this`messages, this`nextMessage, this`effects
      ensures Snapshot() == AddMessage(old(Snapshot()), senderId, channelId, text, now)
      ensures effects == old(effects) + [Persisted(Message(old(nextMessage), senderId, channelId, text, now))]
    {
      var message := Message(nextMessage, senderId, channelId, text, now);
      messages := messages + [message];
      nextMessage := nextMessage + 1;
      effects := effects + [Persisted(message)];
    }

    method InsertMember(channelId: nat, userId: int)
      modifies this`members
      ensures Snapshot() == AddMember(old(Snapshot()), channelId, userId)
    {
      members := members + [Member(channelId, userId)];
    }

    method EmitAll(users: seq<int>, payload: string)
      modifies this`effects
      ensures effects == old(effects) + EmitTo(users, payload)
    {
      for i := 0 to |users|
        invariant effects == old(effects) + EmitTo(users[..i], payload)
      {
        assert EmitTo(users[..i + 1], payload) == EmitTo(users[..i], payload) + [Emit(users[i], payload)];
        effects := effects + [Emit(users[i], payload)];
      }
      assert users[..|users|] == users;
    }

    /** The four inserts, each of which can be the one that fails. */
    method InsertChannel(sender: Lookup, receiver: Lookup, senderId: int, receiverId: int, inserts: nat,
            now: nat)
      returns (reply: Reply)
      requires senderId == FindUser(users, sender) && receiverId == FindUser(users, receiver)
      modifies this
      ensures Handled(OpenChannel(server, old(Snapshot()), sender, receiver, inserts, now), reply)
    {
      var senderExists, receiverExists := UserExists(Snapshot(), senderId), UserExists(Snapshot(), receiverId);
      if inserts == 0 {
        return Failed;
      }
      var channelId := nextChannel;
      channels := channels + [channelId];
      nextChannel := nextChannel + 1;
      if inserts == 1 || !senderExists {
        return Failed;
      }
      var text := CreatedText(receiver.name);
      InsertMessage(senderId, channelId, text, now);
      if server.Go? {
        EmitAll([receiverId], sender.name + ":" + text);
      }
      if inserts == 2 {
        return Failed;
      }
      InsertMember(channelId, senderId);
      if inserts == 3 || !receiverExists {
        return Failed;
      }
      InsertMember(channelId, receiverId);
      if server.Cpp? {
        EmitAll([receiverId], sender.name + ":" + text);
      }
      reply := Opened(channelId);
    }

    /** The members of the channel other than the sender. */
    method OtherMembers(channelId: nat, senderId: int) returns (others: seq<int>)
      ensures others == Except(UsersOf(members, channelId), senderId)
    {
      var rows := UsersOf(members, channelId);
      others := [];
      for i := 0 to |rows|
        invariant others == Except(rows[..i], senderId)
      {
        assert rows[..i + 1][..i] == rows[..i];
        if rows[i] != senderId {
          others := others + [rows[i]];
        }
      }
      assert rows[..|rows|] == rows;
    }

    method SendMessage(senderId: int, channelId: nat, text: string, inserts: nat, readOk: bool,
            now: nat) returns (reply: Reply)
      requires Valid()
      modifies this
      ensures Valid()
      ensures Handled(HandleSendMessage(server, old(Snapshot()), senderId, channelId, text, inserts, readOk, now),
                      reply)
    {
      HandleInv(Snapshot(), Request.SendMessage(server, senderId, channelId, text, inserts, readOk, now));
      reply := StoreThenEmit(senderId, channelId, text, inserts, readOk, now);
    }

    /** The database part of a heartbeat. The database numbers a row that is inserted with id 0. */
    method Upsert(uid: int, userName: string) returns (reply: Reply)
      requires Valid()
      modifies this
      ensures Valid() && Handled(HandleHeartbeat(old(Snapshot()), uid, userName), reply)
    {
      HandleInv(Snapshot(), Heartbeat(uid, userName));
      var id := if uid == 0 then nextUser else uid;
      if !UserExists(Snapshot(), id) {
        users := users + [User(id, userName)];
        if id >= nextUser {
          nextUser := id + 1;
        }
      }
      reply := Accepted;
    }

    method StoreThenEmit(senderId: int, channelId: nat, text: string, inserts: nat, readOk: bool,
            now: nat) returns (reply: Reply)
      modifies this`messages, this`nextMessage, this`effects
      ensures Handled(HandleSendMessage(server, old(Snapshot()), senderId, channelId, text, inserts, readOk, now),
                      reply)
    {
      if server.Cpp? && text == "" {
        return BadRequest;
      }
      if inserts == 0 || !UserExists(Snapshot(), senderId) || channelId !in channels {
        return Failed;
      }
      InsertMessage(senderId, channelId, text, now);
      if !readOk {
        return Failed;
      }
      var others := OtherMembers(channelId, senderId);
      var userName := NameOf(users, senderId, if server.Cpp? then "unknown" else "");
      EmitAll(others, userName + ":" + text);
      reply := Accepted;
    }
  }

  /** The C++ sendMessage down to the sockets: a message of a in the channel of a and b is tried once on each
      connection listed for b, and on no other. */
  lemma {:induction false} SentToTheOthersConnections(t: Tables, ws: W.ConnMap, c: nat, a: int, b: int, payload: string)
    requires Inv(t) && a != b && Shared(t.members, c, a, b)
    ensures W.CppBroadcast(ws, Except(UsersOf(t.members, c), a), payload) == W.ToAll(W.Listed(ws, b), payload)
  {
    OnlyTheOther(t, c, a, b);
    assert [b][..0] == [];
    assert W.CppBroadcast(ws, [], payload) == [];
  }

  /** The same of Go: it is sent once, on the connection of b's latest heartbeat, if b ever sent one, and
      otherwise not at all. */
  lemma {:induction false} SentToTheOthersLatest(t: Tables, trace: seq<W.Event>, c: nat, a: int, b: int,
          payload: string)
    requires Inv(t) && a != b && Shared(t.members, c, a, b)
    ensures var sent := W.GoBroadcast(W.GoMap(trace), Except(UsersOf(t.members, c), a), payload);
            && (forall i: nat :: W.LatestBeat(trace, b, i) ==> sent == [W.Sent(trace[i].conn, payload)])
            && ((forall i: nat :: !W.LatestBeat(trace, b, i)) ==> sent == [])
  {
    OnlyTheOther(t, c, a, b);
    W.GoKeepsLatest(trace, b);
    assert [b][..0] == [];
    assert W.GoBroadcast(W.GoMap(trace), [], payload) == [];
  }
}
