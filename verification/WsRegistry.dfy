// The websocket maps of slack/chat_server.cpp and slack/main.go, and sending over them.
//
// A heartbeat registers the connection it came on under the user id it names. C++ appends to a list per
// user and removes a connection from every list when it closes; Go keeps the latest connection per user and
// never removes one.
module WsRegistry {
  import opened Sums

  type UserId = int
  type Conn = nat

  datatype Event = Beat(conn: Conn, user: UserId) | Closed(conn: Conn)

  // ---------------------------------------------------------------------------------------------
  // What a trace of events means
  // ---------------------------------------------------------------------------------------------

  /** Just after the last close of this connection, or 0 when it never closed. */
  function OpenedAt(trace: seq<Event>, conn: Conn): (i: nat)
    ensures i <= |trace|
    ensures forall j :: i <= j < |trace| ==> trace[j] != Closed(conn)
    ensures i > 0 ==> trace[i - 1] == Closed(conn)
  {
    if trace == [] then 0
    else if trace[|trace| - 1] == Closed(conn) then |trace|
    else OpenedAt(trace[..|trace| - 1], conn)
  }

  function IsBeat(conn: Conn, user: UserId): Event -> nat {
    (e: Event) => if e == Beat(conn, user) then 1 else 0
  }

  /** The heartbeats for this user that came over this connection since it opened. */
  function BeatsSinceOpen(trace: seq<Event>, conn: Conn, user: UserId): nat {
    Sum(trace[OpenedAt(trace, conn)..], IsBeat(conn, user))
  }

  // ---------------------------------------------------------------------------------------------
  // The C++ map
  // ---------------------------------------------------------------------------------------------

  type ConnMap = map<UserId, seq<Conn>>

  /** The connections listed for a user. */
  function Listed(m: ConnMap, user: UserId): seq<Conn> {
    if user in m then m[user] else []
  }

  function Without(conns: seq<Conn>, conn: Conn): seq<Conn> {
    if conns == [] then []
    else (if conns[0] == conn then [] else [conns[0]]) + Without(conns[1..], conn)
  }

  function AfterClose(m: ConnMap, conn: Conn): ConnMap {
    map u | u in m && Without(m[u], conn) != [] :: Without(m[u], conn)
  }

  /** The connection is already gone from the lists of the users not in `todo`. */
  ghost function HalfClosed(m: ConnMap, todo: set<UserId>, conn: Conn): ConnMap {
    map u | u in m && (u in todo || Without(m[u], conn) != []) :: if u in todo then m[u] else Without(m[u], conn)
  }

  lemma {:induction false} SomeoneLeft(todo: set<UserId>)
    requires todo != {}
    ensures exists u :: u in todo
  {
    assert (forall u :: u !in todo) ==> todo == {};
  }

  lemma {:induction false} VisitOne(m: ConnMap, todo: set<UserId>, u: UserId, conn: Conn)
    requires u in todo && u in m
    ensures var half := HalfClosed(m, todo, conn);
            && u in half && half[u] == m[u]
            && HalfClosed(m, todo - {u}, conn)
            == if Without(m[u], conn) == [] then half - {u} else half[u := Without(m[u], conn)]
  {
  }

  function AfterEvent(m: ConnMap, e: Event): ConnMap {
    match e
    case Beat(conn, user) => m[user := Listed(m, user) + [conn]]
    case Closed(conn) => AfterClose(m, conn)
  }

  function CppMap(trace: seq<Event>): ConnMap {
    if trace == [] then map[] else AfterEvent(CppMap(trace[..|trace| - 1]), trace[|trace| - 1])
  }

  lemma {:induction false} WithoutCounts(conns: seq<Conn>, conn: Conn, x: Conn)
    ensures multiset(Without(conns, conn))[x] == if x == conn then 0 else multiset(conns)[x]
  {
    if conns != [] {
      WithoutCounts(conns[1..], conn, x);
      assert conns == [conns[0]] + conns[1..];
      var head: seq<Conn> := if conns[0] == conn then [] else [conns[0]];
      var rest: seq<Conn> := Without(conns[1..], conn);
      assert multiset(head + rest)[x] == multiset(head)[x] + multiset(rest)[x];
    }
  }

  lemma {:induction false} BeatStep(trace: seq<Event>, e: Event, conn: Conn, user: UserId)
    requires e != Closed(conn)
    ensures BeatsSinceOpen(trace + [e], conn, user)
         == BeatsSinceOpen(trace, conn, user) + if e == Beat(conn, user) then 1 else 0
  {
    var at := OpenedAt(trace, conn);
    assert (trace + [e])[..|trace|] == trace;
    assert (trace + [e])[at..] == trace[at..] + [e];
    SumSnoc(trace[at..], e, IsBeat(conn, user));
  }

  lemma {:induction false} CloseStep(trace: seq<Event>, conn: Conn, user: UserId)
    ensures BeatsSinceOpen(trace + [Closed(conn)], conn, user) == 0
  {
    assert (trace + [Closed(conn)])[|trace| + 1..] == [];
  }

  lemma {:induction false} ListedStep(m: ConnMap, e: Event, conn: Conn, user: UserId)
    ensures multiset(Listed(AfterEvent(m, e), user))[conn]
         == if e == Closed(conn) then 0
            else multiset(Listed(m, user))[conn] + if e == Beat(conn, user) then 1 else 0
  {
    match e
    case Beat(c, u) =>
      if u == user {
        assert multiset(Listed(m, user) + [c])[conn] == multiset(Listed(m, user))[conn] + multiset([c])[conn];
      }
    case Closed(c) => WithoutCounts(Listed(m, user), c, conn);
  }

  /** Over any run, a connection is listed under a user exactly as often as it sent heartbeats for that
      user since it opened. */
  lemma {:induction false} MultiplicityIsBeats(trace: seq<Event>, conn: Conn, user: UserId)
    ensures multiset(Listed(CppMap(trace), user))[conn] == BeatsSinceOpen(trace, conn, user)
  {
    if trace != [] {
      var before, last := trace[..|trace| - 1], trace[|trace| - 1];
      assert trace == before + [last];
      MultiplicityIsBeats(before, conn, user);
      ListedStep(CppMap(before), last, conn, user);
      if last == Closed(conn) {
        CloseStep(before, conn, user);
      } else {
        BeatStep(before, last, conn, user);
      }
    }
  }

  /** The connection of the trace's first event, if that is a heartbeat of the user and it did not close later. */
  function FirstIfOpen(trace: seq<Event>, user: UserId): seq<Conn>
    requires trace != []
  {
    if trace[0].Beat? && trace[0].user == user && Closed(trace[0].conn) !in trace[1..] then [trace[0].conn] else []
  }

  /** The connections of this user's heartbeats that have not closed since, in the order of the heartbeats. */
  function OpenBeats(trace: seq<Event>, user: UserId): seq<Conn> {
    if trace == [] then [] else FirstIfOpen(trace, user) + OpenBeats(trace[1..], user)
  }

  function Later(conns: seq<Conn>, e: Event, user: UserId): seq<Conn> {
    match e
    case Beat(conn, u) => conns + if u == user then [conn] else []
    case Closed(conn) => Without(conns, conn)
  }

  lemma {:induction false} FirstSnoc(trace: seq<Event>, e: Event, user: UserId, rest: seq<Conn>)
    requires trace != []
    ensures FirstIfOpen(trace + [e], user) + Later(rest, e, user) == Later(FirstIfOpen(trace, user) + rest, e, user)
  {
    assert (trace + [e])[1..] == trace[1..] + [e];
    var first := FirstIfOpen(trace, user);
    if first == [] {
      assert first + rest == rest;
    } else {
      assert (first + rest)[1..] == rest;
    }
  }

  lemma {:induction false} OpenBeatsSnoc(trace: seq<Event>, e: Event, user: UserId)
    ensures OpenBeats(trace + [e], user) == Later(OpenBeats(trace, user), e, user)
  {
    assert [e][1..] == [];
    if trace != [] {
      assert (trace + [e])[1..] == trace[1..] + [e];
      OpenBeatsSnoc(trace[1..], e, user);
      FirstSnoc(trace, e, user, OpenBeats(trace[1..], user));
    } else {
      assert trace + [e] == [e];
    }
  }

  /** C++ lists for a user exactly the connections of its heartbeats that have not closed since, in order and as
      often as they sent one. */
  lemma {:induction false} ListedInOrder(trace: seq<Event>, user: UserId)
    ensures Listed(CppMap(trace), user) == OpenBeats(trace, user)
  {
    if trace != [] {
      var before, last := trace[..|trace| - 1], trace[|trace| - 1];
      assert trace == before + [last];
      ListedInOrder(before, user);
      OpenBeatsSnoc(before, last, user);
    }
  }

  /** No list is ever empty. */
  lemma {:induction false} NoEmptyList(trace: seq<Event>, user: UserId)
    requires user in CppMap(trace)
    ensures CppMap(trace)[user] != []
  {
    if trace != [] && user in CppMap(trace[..|trace| - 1]) {
      NoEmptyList(trace[..|trace| - 1], user);
    }
  }

  /** A connection that closed and has not been heard of since is in no list. */
  lemma {:induction false} NoClosedConnection(trace: seq<Event>, conn: Conn)
    requires forall i, user :: OpenedAt(trace, conn) <= i < |trace| ==> trace[i] != Beat(conn, user)
    ensures forall user :: conn !in Listed(CppMap(trace), user)
  {
    forall user ensures conn !in Listed(CppMap(trace), user) {
      MultiplicityIsBeats(trace, conn, user);
      SumConstant(trace[OpenedAt(trace, conn)..], IsBeat(conn, user), 0);
    }
  }

  // ---------------------------------------------------------------------------------------------
  // The Go map
  // ---------------------------------------------------------------------------------------------

  function GoMap(trace: seq<Event>): map<UserId, Conn> {
    if trace == [] then map[]
    else
      var m := GoMap(trace[..|trace| - 1]);
      match trace[|trace| - 1]
      case Beat(conn, user) => m[user := conn]
      case Closed(_) => m
  }

  /** Position i holds the latest heartbeat for this user. */
  ghost predicate LatestBeat(trace: seq<Event>, user: UserId, i: nat) {
    && i < |trace| && trace[i].Beat? && trace[i].user == user
    && forall j :: i < j < |trace| && trace[j].Beat? ==> trace[j].user != user
  }

  /** Go lists a user exactly when a heartbeat named it, with the connection of the latest one. */
  lemma {:induction false} GoKeepsLatest(trace: seq<Event>, user: UserId)
    ensures user in GoMap(trace) <==> exists i: nat :: LatestBeat(trace, user, i)
    ensures forall i: nat :: LatestBeat(trace, user, i) ==> user in GoMap(trace) && GoMap(trace)[user] == trace[i].conn
  {
    if trace != [] {
      var n := |trace| - 1;
      GoKeepsLatest(trace[..n], user);
      if trace[n].Beat? && trace[n].user == user {
        assert LatestBeat(trace, user, n);
      } else {
        assert forall i: nat :: LatestBeat(trace, user, i) <==> LatestBeat(trace[..n], user, i);
      }
    }
  }

  /** Go's map has this connection for some user. */
  ghost predicate GoLists(trace: seq<Event>, conn: Conn) {
    exists user <- GoMap(trace) :: GoMap(trace)[user] == conn
  }

  /** The connection that Go lists for this user has closed since the user's latest heartbeat. */
  ghost predicate Stale(trace: seq<Event>, user: UserId) {
    exists i: nat :: LatestBeat(trace, user, i) && Closed(trace[i].conn) in trace[i..]
  }

  /** Every connection that Go lists is still open. */
  ghost predicate NothingStale(trace: seq<Event>) {
    forall user <- GoMap(trace) :: !Stale(trace, user)
  }

  lemma {:induction false} LatestBeatIsOne(trace: seq<Event>, user: UserId, i: nat, j: nat)
    requires LatestBeat(trace, user, i) && LatestBeat(trace, user, j)
    ensures i == j
  {
  }

  // What one more event does to a user whose latest heartbeat it is not.
  lemma {:induction false} StaleStep(trace: seq<Event>, e: Event, user: UserId)
    requires user in GoMap(trace) && !(e.Beat? && e.user == user)
    ensures Stale(trace + [e], user) <==> Stale(trace, user) || e == Closed(GoMap(trace)[user])
  {
    GoKeepsLatest(trace, user);
    var i: nat :| LatestBeat(trace, user, i);
    assert LatestBeat(trace + [e], user, i);
    assert (trace + [e])[i..] == trace[i..] + [e];
    if j: nat :| LatestBeat(trace + [e], user, j) {
      LatestBeatIsOne(trace + [e], user, i, j);
    }
    if j: nat :| LatestBeat(trace, user, j) && Closed(trace[j].conn) in trace[j..] {
      LatestBeatIsOne(trace, user, i, j);
    }
    if Closed(trace[i].conn) in trace[i..] + [e] {
      assert Stale(trace + [e], user);
    }
  }

  lemma {:induction false} NewBeatIsFresh(trace: seq<Event>, e: Event)
    requires e.Beat?
    ensures !Stale(trace + [e], e.user)
  {
    assert LatestBeat(trace + [e], e.user, |trace|);
    if j: nat :| LatestBeat(trace + [e], e.user, j) && Closed((trace + [e])[j].conn) in (trace + [e])[j..] {
      LatestBeatIsOne(trace + [e], e.user, |trace|, j);
      assert (trace + [e])[j..] == [e];
    }
  }

  /** One event leaves a closed connection in Go's map exactly when it closes a connection that is listed. */
  lemma {:induction false} StaleAfterExactly(trace: seq<Event>, e: Event)
    requires NothingStale(trace)
    ensures NothingStale(trace + [e]) <==> !(e.Closed? && GoLists(trace, e.conn))
  {
    assert (trace + [e])[..|trace|] == trace;
    forall user | user in GoMap(trace + [e])
      ensures Stale(trace + [e], user) <==> user in GoMap(trace) && e == Closed(GoMap(trace)[user])
    {
      if e.Beat? && e.user == user {
        NewBeatIsFresh(trace, e);
      } else {
        StaleStep(trace, e, user);
      }
    }
    if e.Closed? && GoLists(trace, e.conn) {
      var user :| user in GoMap(trace) && GoMap(trace)[user] == e.conn;
      assert Stale(trace + [e], user);
    }
  }

  /** At every moment of the trace, every connection that Go lists is still open. */
  ghost predicate NeverStale(trace: seq<Event>) {
    forall n :: 0 <= n <= |trace| ==> NothingStale(trace[..n])
  }

  /** The event at position j closes a connection that Go lists at that moment. */
  ghost predicate ClosesListed(trace: seq<Event>, j: nat)
    requires j < |trace|
  {
    trace[j].Closed? && GoLists(trace[..j], trace[j].conn)
  }

  /** Go never emits on a closed connection exactly when no listed connection ever closes: nothing else puts
      a closed connection in its map, and nothing takes one out but a new heartbeat of the user. */
  lemma {:induction false} GoNeverStaleExactly(trace: seq<Event>)
    ensures NeverStale(trace) <==> forall j :: 0 <= j < |trace| ==> !ClosesListed(trace, j)
  {
    if trace == [] {
      assert trace[..0] == [];
    } else {
      var init, last := trace[..|trace| - 1], trace[|trace| - 1];
      GoNeverStaleExactly(init);
      assert trace == init + [last] && trace[..|trace|] == trace;
      assert forall n :: 0 <= n <= |init| ==> trace[..n] == init[..n];
      assert init[..|init|] == init;
      assert NeverStale(trace) <==> NeverStale(init) && NothingStale(trace) by {
        assert forall n :: 0 <= n <= |init| ==> (NothingStale(trace[..n]) <==> NothingStale(init[..n]));
      }
      assert forall j :: 0 <= j < |init| ==> (ClosesListed(trace, j) <==> ClosesListed(init, j));
      if NeverStale(init) {
        assert NothingStale(init[..|init|]);
        StaleAfterExactly(init, last);
        assert ClosesListed(trace, |init|) <==> last.Closed? && GoLists(init, last.conn);
      }
    }
  }

  /** After a heartbeat and the close of its connection Go still lists the connection; C++ does not. */
  lemma {:induction false} GoListsAClosedConnection(conn: Conn, user: UserId)
    ensures var trace := [Beat(conn, user), Closed(conn)];
            && user in GoMap(trace) && GoMap(trace)[user] == conn && Stale(trace, user)
            && conn !in Listed(CppMap(trace), user)
  {
    var trace := [Beat(conn, user), Closed(conn)];
    assert LatestBeat(trace, user, 0) && trace[1] in trace[0..];
    GoKeepsLatest(trace, user);
    NoClosedConnection(trace, conn);
  }

  // ---------------------------------------------------------------------------------------------
  // Sending
  // ---------------------------------------------------------------------------------------------

  datatype Sent = Sent(conn: Conn, payload: string)

  function ToAll(conns: seq<Conn>, payload: string): (sent: seq<Sent>)
    ensures |sent| == |conns|
    ensures forall i :: 0 <= i < |conns| ==> sent[i] == Sent(conns[i], payload)
  {
    seq(|conns|, i requires 0 <= i < |conns| => Sent(conns[i], payload))
  }

  /** Every listed connection of every member, in order. */
  function CppBroadcast(m: ConnMap, members: seq<UserId>, payload: string): seq<Sent> {
    if members == [] then []
    else
      var last := |members| - 1;
      CppBroadcast(m, members[..last], payload) + ToAll(Listed(m, members[last]), payload)
  }

  function GoBroadcast(m: map<UserId, Conn>, members: seq<UserId>, payload: string): seq<Sent> {
    if members == [] then []
    else
      var last := |members| - 1;
      var user := members[last];
      GoBroadcast(m, members[..last], payload) + if user in m then [Sent(m[user], payload)] else []
  }

  function ListLength(m: ConnMap): UserId -> nat {
    (u: UserId) => |Listed(m, u)|
  }

  /** Member i's k-th connection is tried after those of the members before it. */
  ghost predicate TriedInPlace(m: ConnMap, members: seq<UserId>, payload: string, sent: seq<Sent>, i: nat, k: nat)
    requires i < |members| && k < |Listed(m, members[i])|
  {
    var j := Sum(members[..i], ListLength(m)) + k;
    j < |sent| && sent[j] == Sent(Listed(m, members[i])[k], payload)
  }

  /** One broadcast of C++ attempts exactly the sum of the members' list lengths, each listed connection of each
      member in its place. */
  lemma {:induction false} CppBroadcastExactly(m: ConnMap, members: seq<UserId>, payload: string)
    ensures |CppBroadcast(m, members, payload)| == Sum(members, ListLength(m))
    ensures forall i, k :: 0 <= i < |members| && 0 <= k < |Listed(m, members[i])| ==>
              TriedInPlace(m, members, payload, CppBroadcast(m, members, payload), i, k)
  {
    if members != [] {
      var last := |members| - 1;
      var before := members[..last];
      CppBroadcastExactly(m, before, payload);
      SumSnoc(before, members[last], ListLength(m));
      assert before + [members[last]] == members;
      forall i, k | 0 <= i < |members| && 0 <= k < |Listed(m, members[i])|
        ensures TriedInPlace(m, members, payload, CppBroadcast(m, members, payload), i, k)
      {
        if i < last {
          TriedStays(m, members, payload, i, k);
        }
      }
    }
  }

  lemma {:induction false} TriedStays(m: ConnMap, members: seq<UserId>, payload: string, i: nat, k: nat)
    requires i < |members| - 1 && k < |Listed(m, members[i])|
    requires var before := members[..|members| - 1];
             TriedInPlace(m, before, payload, CppBroadcast(m, before, payload), i, k)
    ensures TriedInPlace(m, members, payload, CppBroadcast(m, members, payload), i, k)
  {
    assert members[..|members| - 1][..i] == members[..i];
  }

  function IsListed(m: map<UserId, Conn>): UserId -> nat {
    (u: UserId) => if u in m then 1 else 0
  }

  /** One broadcast of Go makes one emit for each member in the map, in order, on the connection the map has for
      it. */
  lemma {:induction false} GoBroadcastExactly(m: map<UserId, Conn>, members: seq<UserId>, payload: string)
    ensures |GoBroadcast(m, members, payload)| == Sum(members, IsListed(m))
    ensures forall i :: 0 <= i < |members| && members[i] in m ==>
              var j := Sum(members[..i], IsListed(m));
              && j < |GoBroadcast(m, members, payload)|
              && GoBroadcast(m, members, payload)[j] == Sent(m[members[i]], payload)
  {
    if members != [] {
      var last := |members| - 1;
      var before := members[..last];
      GoBroadcastExactly(m, before, payload);
      SumSnoc(before, members[last], IsListed(m));
      assert before + [members[last]] == members;
      forall i | 0 <= i < |members| && members[i] in m
        ensures var j := Sum(members[..i], IsListed(m));
                && j < |GoBroadcast(m, members, payload)|
                && GoBroadcast(m, members, payload)[j] == Sent(m[members[i]], payload)
      {
        if i < last {
          assert before[..i] == members[..i] && before[i] == members[i];
        }
      }
    }
  }

  /** The map of the C++ server, changed in place; `trace` is what happened so far. */
  class WsMap {
    var wsMap: ConnMap
    ghost var trace: seq<Event>

    ghost predicate Valid()
      reads this
    {
      wsMap == CppMap(trace)
    }

    constructor ()
      ensures Valid() && trace == []
    {
      wsMap, trace := map[], [];
    }

    /** The wsMap part of a heartbeat: wsMap[uid].push_back(&conn). */
    method OnMessage(conn: Conn, uid: UserId)
      requires Valid()
      modifies this
      ensures Valid() && trace == old(trace) + [Beat(conn, uid)]
    {
      if uid !in wsMap {
        wsMap := wsMap[uid := []];
      }
      wsMap := wsMap[uid := wsMap[uid] + [conn]];
      trace := trace + [Beat(conn, uid)];
      assert trace[..|trace| - 1] == old(trace);
    }

    /** Visit every entry once, take the connection out of its list, and erase the entry if nothing is
        left. The order of the visits does not matter. */
    method OnClose(conn: Conn)
      requires Valid()
      modifies this
      ensures Valid() && trace == old(trace) + [Closed(conn)]
    {
      ghost var before := wsMap;
      var todo := wsMap.Keys;
      assert wsMap == HalfClosed(before, todo, conn);
      while todo != {}
        invariant todo <= before.Keys
        invariant wsMap == HalfClosed(before, todo, conn)
        invariant trace == old(trace)
        decreases |todo|
      {
        SomeoneLeft(todo);
        var u :| u in todo;
        VisitOne(before, todo, u, conn);
        var vec := Without(wsMap[u], conn);
        if vec == [] {
          wsMap := wsMap - {u};
        } else {
          wsMap := wsMap[u := vec];
        }
        todo := todo - {u};
      }
      assert wsMap == AfterClose(before, conn);
      trace := trace + [Closed(conn)];
      assert trace[..|trace| - 1] == old(trace);
    }

    /** One send attempt per member and listed connection; a send that throws is logged and skipped over. */
    method SendMessageOverWebSocket(members: seq<UserId>, msg: string, userName: string) returns (sent: seq<Sent>)
      requires Valid()
      ensures sent == CppBroadcast(wsMap, members, userName + ":" + msg)
      ensures |sent| == Sum(members, ListLength(wsMap))
    {
      var payload := userName + ":" + msg;
      sent := [];
      for i := 0 to |members|
        invariant sent == CppBroadcast(wsMap, members[..i], payload)
      {
        assert members[..i + 1][..i] == members[..i];
        var conns := Listed(wsMap, members[i]);
        ghost var before := sent;
        for j := 0 to |conns|
          invariant sent == before + ToAll(conns[..j], payload)
        {
          assert ToAll(conns[..j + 1], payload) == ToAll(conns[..j], payload) + [Sent(conns[j], payload)];
          sent := sent + [Sent(conns[j], payload)];
        }
        assert conns[..|conns|] == conns;
      }
      assert members[..|members|] == members;
      CppBroadcastExactly(wsMap, members, payload);
    }
  }

  /** The map of the Go server. */
  class GoWsMap {
    var wsMap: map<UserId, Conn>
    ghost var trace: seq<Event>

    ghost predicate Valid()
      reads this
    {
      wsMap == GoMap(trace)
    }

    constructor ()
      ensures Valid() && trace == []
    {
      wsMap, trace := map[], [];
    }

    method OnHeartbeat(conn: Conn, userId: UserId)
      requires Valid()
      modifies this
      ensures Valid() && trace == old(trace) + [Beat(conn, userId)]
    {
      wsMap := wsMap[userId := conn];
      trace := trace + [Beat(conn, userId)];
      assert trace[..|trace| - 1] == old(trace);
    }

    /** The handler only logs: the map keeps the connection. */
    method OnDisconnect(conn: Conn)
      requires Valid()
      modifies this`trace
      ensures Valid() && trace == old(trace) + [Closed(conn)]
    {
      trace := trace + [Closed(conn)];
      assert trace[..|trace| - 1] == old(trace);
    }

    /** At most one emit per member, on the connection of its latest heartbeat. */
    method SendMessageOverWebSocket(members: seq<UserId>, msg: string, userName: string) returns (sent: seq<Sent>)
      requires Valid()
      ensures sent == GoBroadcast(wsMap, members, userName + ":" + msg) && |sent| <= |members|
    {
      var payload := userName + ":" + msg;
      sent := [];
      for i := 0 to |members|
        invariant sent == GoBroadcast(wsMap, members[..i], payload) && |sent| <= i
      {
        assert members[..i + 1][..i] == members[..i];
        if members[i] in wsMap {
          sent := sent + [Sent(wsMap[members[i]], payload)];
        }
      }
      assert members[..|members|] == members;
    }
  }
}
