// The online test of slack/main.go and slack/chat_server.cpp.
//
// Clock readings are natural numbers of ticks, `tick` ticks to the second. C++ stores the time of the latest
// heartbeat or creation truncated to whole seconds and truncates the difference too; Go compares exact times.
module Presence {
  import opened Modular

  const WINDOW := 10   // seconds

  /** The time of a creation or heartbeat of a user. */
  datatype Beat = Beat(user: int, time: nat)

  /** timePointToSQL and back: whole seconds, in ticks. */
  function Truncated(tick: nat, time: nat): (t: nat)
    requires tick > 0
    ensures t <= time < t + tick
  {
    var seconds := time / tick;
    assert time == seconds * tick + time % tick;
    seconds * tick
  }

  /** The last_timestamp column after these beats. */
  function CppStored(tick: nat, trace: seq<Beat>): map<int, nat>
    requires tick > 0
  {
    if trace == [] then map[]
    else
      var last := trace[|trace| - 1];
      CppStored(tick, trace[..|trace| - 1])[last.user := Truncated(tick, last.time)]
  }

  function GoStored(trace: seq<Beat>): map<int, nat> {
    if trace == [] then map[]
    else GoStored(trace[..|trace| - 1])[trace[|trace| - 1].user := trace[|trace| - 1].time]
  }

  /** duration_cast to seconds, which truncates toward zero: a stored time may lie ahead of the clock. */
  function WholeSeconds(tick: nat, difference: int): int
    requires tick > 0
  {
    if difference >= 0 then difference / tick else -(-difference / tick)
  }

  predicate CppOnline(tick: nat, now: nat, stored: nat)
    requires tick > 0
  {
    WholeSeconds(tick, now - stored) <= WINDOW
  }

  predicate GoOnline(tick: nat, now: nat, stored: nat) {
    now - stored <= WINDOW * tick
  }

  /** The user's latest beat is the i-th. */
  ghost predicate Latest(trace: seq<Beat>, user: int, i: nat) {
    && i < |trace| && trace[i].user == user
    && forall j :: i < j < |trace| ==> trace[j].user != user
  }

  lemma {:induction false} StoredIsLatest(tick: nat, trace: seq<Beat>, user: int, i: nat)
    requires tick > 0 && Latest(trace, user, i)
    ensures user in CppStored(tick, trace) && CppStored(tick, trace)[user] == Truncated(tick, trace[i].time)
    ensures user in GoStored(trace) && GoStored(trace)[user] == trace[i].time
  {
    if i < |trace| - 1 {
      assert Latest(trace[..|trace| - 1], user, i);
      StoredIsLatest(tick, trace[..|trace| - 1], user, i);
    }
  }

  lemma {:induction false} WholeSecondsBelow(tick: nat, difference: int, n: nat)
    requires tick > 0
    ensures WholeSeconds(tick, difference) <= n <==> difference < (n + 1) * tick
  {
    MulMonotone(0, n + 1, tick);
    if difference < 0 {
      DivModUnique(-difference, tick, -difference / tick, -difference % tick);
    } else {
      var q := difference / tick;
      assert difference == q * tick + difference % tick;
      assert (q + 1) * tick == q * tick + tick;
      MulMonotone(q + 1, n + 1, tick);
      MulMonotone(n + 1, q, tick);
    }
  }

  /** Exactly when C++ says online: less than 11 seconds since the start of the second of the latest beat. */
  lemma {:induction false} CppOnlineExactly(tick: nat, trace: seq<Beat>, user: int, i: nat, now: nat)
    requires tick > 0 && Latest(trace, user, i)
    ensures var stored := CppStored(tick, trace);
            && user in stored
            && (CppOnline(tick, now, stored[user]) <==> now < Truncated(tick, trace[i].time) + 11 * tick)
  {
    StoredIsLatest(tick, trace, user, i);
    WholeSecondsBelow(tick, now - Truncated(tick, trace[i].time), WINDOW);
  }

  /** Over any run, whatever the clock does: a beat at most 10 s old is online on both servers, one 11 s old or
      more on neither, and online for Go means online for C++. */
  lemma {:induction false} StatusIsRight(tick: nat, trace: seq<Beat>, user: int, i: nat, now: nat)
    requires tick > 0 && Latest(trace, user, i)
    ensures var cpp, go := CppStored(tick, trace), GoStored(trace);
            && user in cpp && user in go
            && (now - trace[i].time <= 10 * tick ==> CppOnline(tick, now, cpp[user]))
            && (now - trace[i].time >= 11 * tick ==> !CppOnline(tick, now, cpp[user]))
            && (GoOnline(tick, now, go[user]) <==> now - trace[i].time <= 10 * tick)
            && (GoOnline(tick, now, go[user]) ==> CppOnline(tick, now, cpp[user]))
  {
    CppOnlineExactly(tick, trace, user, i, now);
    StoredIsLatest(tick, trace, user, i);
  }

  /** Between 10 and 11 seconds the two servers can differ, and which way depends on the fraction of the
      second in which the beat came. */
  lemma {:induction false} ServersDifferExactly(tick: nat, trace: seq<Beat>, user: int, i: nat, now: nat)
    requires tick > 0 && Latest(trace, user, i)
    ensures var cpp, go := CppStored(tick, trace), GoStored(trace);
            && user in cpp && user in go
            && (CppOnline(tick, now, cpp[user]) != GoOnline(tick, now, go[user])
            <==> trace[i].time + 10 * tick < now < Truncated(tick, trace[i].time) + 11 * tick)
  {
    CppOnlineExactly(tick, trace, user, i, now);
    StoredIsLatest(tick, trace, user, i);
  }

  // ---------------------------------------------------------------------------------------------
  // The status handlers
  // ---------------------------------------------------------------------------------------------

  datatype Row = Row(id: int, name: string, lastTimestamp: nat)

  /** The test of C++ (truncating) or of Go. */
  predicate Online(tick: nat, now: nat, stored: nat, truncating: bool)
    requires tick > 0
  {
    if truncating then CppOnline(tick, now, stored) else GoOnline(tick, now, stored)
  }

  function StatusOf(tick: nat, rows: seq<Row>, now: nat, truncating: bool): map<string, bool>
    requires tick > 0
  {
    if rows == [] then map[]
    else
      var last := rows[|rows| - 1];
      var before := StatusOf(tick, rows[..|rows| - 1], now, truncating);
      before[last.name := Online(tick, now, last.lastTimestamp, truncating)]
  }

  /** The row of this name that comes last. */
  ghost predicate LastRowNamed(rows: seq<Row>, name: string, i: nat) {
    && i < |rows| && rows[i].name == name
    && forall j :: i < j < |rows| ==> rows[j].name != name
  }

  lemma {:induction false} StatusOfLastRow(tick: nat, rows: seq<Row>, now: nat, truncating: bool, name: string)
    requires tick > 0
    ensures var status := StatusOf(tick, rows, now, truncating);
            && (name in status <==> exists i :: LastRowNamed(rows, name, i))
            && forall i: nat :: LastRowNamed(rows, name, i) ==>
                 name in status && status[name] == Online(tick, now, rows[i].lastTimestamp, truncating)
  {
    if rows != [] {
      var n := |rows| - 1;
      StatusOfLastRow(tick, rows[..n], now, truncating, name);
      if rows[n].name == name {
        assert LastRowNamed(rows, name, n);
      } else {
        assert forall i: nat :: LastRowNamed(rows, name, i) <==> LastRowNamed(rows[..n], name, i);
      }
    }
  }

  /** Of the rows with one name the last decides, and only names of rows are reported: online for Go when its time
      is at most 10 s ago, for C++ when it is less than 11 s ago. */
  lemma {:induction false} LastRowDecides(tick: nat, rows: seq<Row>, now: nat, name: string)
    requires tick > 0
    ensures var go, cpp := StatusOf(tick, rows, now, false), StatusOf(tick, rows, now, true);
            && (name in go <==> exists i :: LastRowNamed(rows, name, i))
            && (name in cpp <==> exists i :: LastRowNamed(rows, name, i))
            && forall i: nat :: LastRowNamed(rows, name, i) ==>
                 && name in go && (go[name] <==> now - rows[i].lastTimestamp <= 10 * tick)
                 && name in cpp && (cpp[name] <==> now - rows[i].lastTimestamp < 11 * tick)
  {
    StatusOfLastRow(tick, rows, now, false, name);
    StatusOfLastRow(tick, rows, now, true, name);
    forall i: nat | LastRowNamed(rows, name, i)
      ensures CppOnline(tick, now, rows[i].lastTimestamp) <==> now - rows[i].lastTimestamp < 11 * tick
    {
      WholeSecondsBelow(tick, now - rows[i].lastTimestamp, WINDOW);
    }
  }

  /** From beats to the answer: if the last row of a name has the time that the latest beat of its user stored, a
      user who beat at most 10 s ago is reported online, one who beat 11 s ago or earlier offline, by either
      server. */
  lemma {:induction false} ReportIsRight(tick: nat, trace: seq<Beat>, rows: seq<Row>, now: nat, name: string, i: nat,
          k: nat, truncating: bool)
    requires tick > 0 && LastRowNamed(rows, name, i) && Latest(trace, rows[i].id, k)
    requires var stored := if truncating then CppStored(tick, trace) else GoStored(trace);
             rows[i].id in stored && rows[i].lastTimestamp == stored[rows[i].id]
    ensures var status := StatusOf(tick, rows, now, truncating);
            && name in status
            && (now - trace[k].time <= 10 * tick ==> status[name])
            && (now - trace[k].time >= 11 * tick ==> !status[name])
  {
    LastRowDecides(tick, rows, now, name);
    StoredIsLatest(tick, trace, rows[i].id, k);
  }

  method FetchStatus(tick: nat, rows: seq<Row>, now: nat, truncating: bool) returns (output: map<string, bool>)
    requires tick > 0
    ensures output == StatusOf(tick, rows, now, truncating)
    ensures forall i :: 0 <= i < |rows| && LastRowNamed(rows, rows[i].name, i) ==>
              && rows[i].name in output
              && var age := now - rows[i].lastTimestamp;
                 output[rows[i].name] <==> if truncating then age < 11 * tick else age <= 10 * tick
  {
    output := map[];
    for i := 0 to |rows|
      invariant output == StatusOf(tick, rows[..i], now, truncating)
    {
      assert rows[..i + 1][..i] == rows[..i];
      if Online(tick, now, rows[i].lastTimestamp, truncating) {
        output := output[rows[i].name := true];
      } else {
        output := output[rows[i].name := false];
      }
    }
    assert rows[..|rows|] == rows;
    forall i | 0 <= i < |rows| && LastRowNamed(rows, rows[i].name, i)
      ensures rows[i].name in output
      ensures var age := now - rows[i].lastTimestamp;
              output[rows[i].name] <==> if truncating then age < 11 * tick else age <= 10 * tick
    {
      LastRowDecides(tick, rows, now, rows[i].name);
    }
  }
}
