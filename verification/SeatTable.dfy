// The seat table of airlineCheckin/main.go: what one booking after another does to it.
//
// Rows are indexed in ascending order of their id, the order of the locking read's ORDER BY.
// `names[r]` is the `name` column of row r, None standing for NULL.
module SeatTable {
  import opened Modular
  import opened Options

  type Names = seq<Option<string>>

  ghost predicate Ascending(ids: seq<int>) {
    forall i, j :: 0 <= i < j < |ids| ==> ids[i] < ids[j]
  }

  /** The first row from `from` on whose name is NULL, or the number of rows when there is none. */
  function FirstEmptyFrom(names: Names, from: nat): (r: nat)
    requires from <= |names|
    ensures from <= r <= |names|
    ensures forall i :: from <= i < r ==> names[i].Some?
    ensures r < |names| ==> names[r].None?
    decreases |names| - from
  {
    if from == |names| || names[from].None? then from else FirstEmptyFrom(names, from + 1)
  }

  function FirstEmpty(names: Names): (r: nat)
    ensures r <= |names|
    ensures forall i :: 0 <= i < r ==> names[i].Some?
    ensures r < |names| ==> names[r].None?
  {
    FirstEmptyFrom(names, 0)
  }

  /** All rows whose name is NULL, in ascending order. */
  function EmptyRowsFrom(names: Names, from: nat): (rows: seq<nat>)
    requires from <= |names|
    decreases |names| - from
  {
    if from == |names| then []
    else if names[from].None? then [from] + EmptyRowsFrom(names, from + 1)
    else EmptyRowsFrom(names, from + 1)
  }

  function EmptyRows(names: Names): seq<nat> {
    EmptyRowsFrom(names, 0)
  }

  ghost predicate ListsEmptyRows(names: Names, from: nat, rows: seq<nat>) {
    && (forall k :: 0 <= k < |rows| ==> from <= rows[k] < |names| && names[rows[k]].None?)
    && (forall j, k :: 0 <= j < k < |rows| ==> rows[j] < rows[k])
    && (forall r :: from <= r < |names| && names[r].None? ==> r in rows)
  }

  lemma {:induction false} EmptyRowsMeaning(names: Names, from: nat)
    requires from <= |names|
    ensures ListsEmptyRows(names, from, EmptyRowsFrom(names, from))
    decreases |names| - from
  {
    if from < |names| {
      EmptyRowsMeaning(names, from + 1);
      if names[from].None? {
        ListOneMore(names, from, EmptyRowsFrom(names, from + 1));
      }
    }
  }

  lemma {:induction false} ListOneMore(names: Names, from: nat, rest: seq<nat>)
    requires from < |names| && names[from].None? && ListsEmptyRows(names, from + 1, rest)
    ensures ListsEmptyRows(names, from, [from] + rest)
  {
    var rows := [from] + rest;
    assert forall k :: 0 < k < |rows| ==> rows[k] == rest[k - 1];
    forall r | from <= r < |names| && names[r].None? ensures r in rows {
      if r == from {
        assert rows[0] == r;
      } else {
        assert r in rest;
      }
    }
  }

  // ---------------------------------------------------------------------------------------------
  // The specification: give the first empty seat to this user, one user at a time
  // ---------------------------------------------------------------------------------------------

  datatype Booking = Booking(names: Names, rows: seq<Option<nat>>)

  /** The ideal allocator, which knows nothing of ids. */
  function Sequential(names: Names, users: seq<string>): Booking {
    if users == [] then Booking(names, [])
    else
      var b := Sequential(names, users[..|users| - 1]);
      var r := FirstEmpty(b.names);
      if r < |b.names| then Booking(b.names[r := Some(users[|users| - 1])], b.rows + [Some(r)])
      else Booking(b.names, b.rows + [None])
  }

  /** The allocator of the code: a selected id of 0 is taken for "no empty seat". */
  function SequentialById(ids: seq<int>, names: Names, users: seq<string>): (b: Booking)
    requires |ids| == |names|
    ensures |b.names| == |names| && |b.rows| == |users|
  {
    if users == [] then Booking(names, [])
    else
      var b := SequentialById(ids, names, users[..|users| - 1]);
      var r := FirstEmpty(b.names);
      if r < |b.names| && ids[r] != 0 then
        Booking(b.names[r := Some(users[|users| - 1])], b.rows + [Some(r)])
      else Booking(b.names, b.rows + [None])
  }

  // Filling the first empty row removes exactly that row from the list of empty rows.
  lemma {:induction false} FillFirstEmpty(names: Names, from: nat, name: string)
    requires from <= |names|
    ensures var r := FirstEmptyFrom(names, from);
            var rows := EmptyRowsFrom(names, from);
            if r < |names|
            then rows != [] && rows[0] == r && EmptyRowsFrom(names[r := Some(name)], from) == rows[1..]
            else rows == []
    decreases |names| - from
  {
    if from < |names| {
      if names[from].None? {
        SameTail(names, from, Some(name), from + 1);
      } else {
        FillFirstEmpty(names, from + 1, name);
      }
    }
  }

  lemma {:induction false} SameTail(names: Names, r: nat, x: Option<string>, from: nat)
    requires r < from <= |names|
    ensures EmptyRowsFrom(names[r := x], from) == EmptyRowsFrom(names, from)
    decreases |names| - from
  {
    if from < |names| {
      SameTail(names, r, x, from + 1);
    }
  }

  /** User k got the k-th empty row, while there was one, and nothing else changed. */
  ghost predicate KthUserInKthEmptyRow(names: Names, users: seq<string>, b: Booking) {
    var empty := EmptyRows(names);
    var booked := Min(|users|, |empty|);
    && |b.names| == |names| && |b.rows| == |users|
    && (forall k :: 0 <= k < booked ==> empty[k] < |names|)
    && (forall k :: 0 <= k < |users| ==> b.rows[k] == if k < |empty| then Some(empty[k]) else None)
    && (forall k :: 0 <= k < booked ==> b.names[empty[k]] == Some(users[k]))
    && (forall r :: 0 <= r < |names| && names[r].Some? ==> b.names[r] == names[r])
    && EmptyRows(b.names) == empty[booked..]
  }

  lemma {:induction false} BookOneMore(names: Names, users: seq<string>, b: Booking, name: string)
    requires KthUserInKthEmptyRow(names, users, b) && |users| < |EmptyRows(names)|
    ensures var r := FirstEmpty(b.names);
            && r < |b.names|
            && KthUserInKthEmptyRow(names, users + [name], Booking(b.names[r := Some(name)], b.rows + [Some(r)]))
  {
    FillFirstEmpty(b.names, 0, name);
    EmptyRowsMeaning(names, 0);
    var empty, n, r := EmptyRows(names), |users|, FirstEmpty(b.names);
    var users', names', rows' := users + [name], b.names[r := Some(name)], b.rows + [Some(r)];
    assert EmptyRows(b.names)[0] == empty[n];
    assert EmptyRows(names') == empty[n + 1..] by {
      assert empty[n..][1..] == empty[n + 1..];
    }
    forall k | 0 <= k < n + 1
      ensures rows'[k] == Some(empty[k]) && names'[empty[k]] == Some(users'[k])
    {
      if k < n {
        assert empty[k] < empty[n] == r;
      }
    }
    assert KthUserInKthEmptyRow(names, users', Booking(names', rows'));
  }

  /** What the ideal allocator computes. */
  lemma {:induction false} SequentialClosedForm(names: Names, users: seq<string>)
    ensures KthUserInKthEmptyRow(names, users, Sequential(names, users))
  {
    if users != [] {
      var n := |users| - 1;
      SequentialClosedForm(names, users[..n]);
      assert users[..n] + [users[n]] == users;
      var b := Sequential(names, users[..n]);
      FillFirstEmpty(b.names, 0, users[n]);
      if n < |EmptyRows(names)| {
        BookOneMore(names, users[..n], b, users[n]);
      } else {
        NobodyElse(names, users[..n], b, users[n]);
      }
    }
  }

  lemma {:induction false} NobodyElse(names: Names, users: seq<string>, b: Booking, name: string)
    requires KthUserInKthEmptyRow(names, users, b) && |users| >= |EmptyRows(names)|
    ensures FirstEmpty(b.names) == |b.names|
    ensures KthUserInKthEmptyRow(names, users + [name], Booking(b.names, b.rows + [None]))
  {
    FillFirstEmpty(b.names, 0, name);
  }

  /** The booked rows are a prefix, by id, of the initially empty ones, and no name is overwritten. */
  lemma {:induction false} SequentialFillsPrefix(names: Names, users: seq<string>)
    ensures var after := Sequential(names, users).names;
            && |after| == |names|
            && (forall r :: 0 <= r < |names| && names[r].Some? ==> after[r] == names[r])
            && (forall i, j :: 0 <= i < j < |names| && names[j].None? && after[j].Some? ==> after[i].Some?)
  {
    if users != [] {
      SequentialFillsPrefix(names, users[..|users| - 1]);
    }
  }

  // ---------------------------------------------------------------------------------------------
  // When the sentinel is harmless
  // ---------------------------------------------------------------------------------------------

  ghost predicate NoEmptySeatHasIdZero(ids: seq<int>, names: Names)
    requires |ids| == |names|
  {
    forall r :: 0 <= r < |names| && ids[r] == 0 ==> names[r].Some?
  }

  lemma {:induction false} ByIdIsIdeal(ids: seq<int>, names: Names, users: seq<string>)
    requires |ids| == |names| && NoEmptySeatHasIdZero(ids, names)
    ensures SequentialById(ids, names, users) == Sequential(names, users)
    ensures NoEmptySeatHasIdZero(ids, SequentialById(ids, names, users).names)
  {
    if users != [] {
      ByIdIsIdeal(ids, names, users[..|users| - 1]);
    }
  }

  lemma {:induction false} ByIdNeverFillsIdZero(ids: seq<int>, names: Names, users: seq<string>, z: nat)
    requires |ids| == |names| && z < |names| && ids[z] == 0 && names[z].None?
    ensures SequentialById(ids, names, users).names[z].None?
  {
    if users != [] {
      ByIdNeverFillsIdZero(ids, names, users[..|users| - 1], z);
    }
  }

  /** The code allocates like the ideal allocator for every list of users exactly when no empty seat
      has id 0. */
  lemma {:induction false} SentinelHarmlessExactly(ids: seq<int>, names: Names)
    requires |ids| == |names|
    ensures NoEmptySeatHasIdZero(ids, names)
        <==> forall users :: SequentialById(ids, names, users) == Sequential(names, users)
  {
    if NoEmptySeatHasIdZero(ids, names) {
      forall users ensures SequentialById(ids, names, users) == Sequential(names, users) {
        ByIdIsIdeal(ids, names, users);
      }
    } else {
      var z :| 0 <= z < |names| && ids[z] == 0 && names[z].None?;
      var users := seq(|names| + |EmptyRows(names)|, i => "passenger");
      SequentialClosedForm(names, users);
      EmptyRowsMeaning(names, 0);
      ByIdNeverFillsIdZero(ids, names, users, z);
      var k :| 0 <= k < |EmptyRows(names)| && EmptyRows(names)[k] == z;
      assert SequentialById(ids, names, users) != Sequential(names, users);
    }
  }

  // How far the code gets: to the empty seat with id 0, if there is one.
  ghost predicate StopsAt(names: Names, users: seq<string>, b: Booking, z: nat)
    requires z < |EmptyRows(names)|
  {
    var booked := Min(|users|, z);
    && b.names == Sequential(names, users[..booked]).names
    && |b.rows| == |users|
    && forall k :: 0 <= k < |users| ==> b.rows[k] == if k < z then Some(EmptyRows(names)[k]) else None
  }

  lemma {:induction false} NextRow(names: Names, users: seq<string>)
    requires |users| < |EmptyRows(names)|
    ensures var after := Sequential(names, users).names;
            |after| == |names| && FirstEmpty(after) == EmptyRows(names)[|users|] < |names|
  {
    SequentialClosedForm(names, users);
    EmptyRowsMeaning(names, 0);
    FillFirstEmpty(Sequential(names, users).names, 0, "");
  }

  lemma {:induction false} BookBeforeIdZero(names: Names, users: seq<string>, b: Booking, z: nat, name: string)
    requires z < |EmptyRows(names)| && |users| < z && StopsAt(names, users, b, z)
    ensures var r := FirstEmpty(b.names);
            && r < |b.names| == |names| && r == EmptyRows(names)[|users|]
            && StopsAt(names, users + [name], Booking(b.names[r := Some(name)], b.rows + [Some(r)]), z)
  {
    NextRow(names, users);
    assert users[..|users|] == users && (users + [name])[..|users| + 1] == users + [name];
  }

  lemma {:induction false} NobodyAfterIdZero(names: Names, users: seq<string>, b: Booking, z: nat, name: string)
    requires z < |EmptyRows(names)| && |users| >= z && StopsAt(names, users, b, z)
    ensures FirstEmpty(b.names) == EmptyRows(names)[z] < |b.names| == |names|
    ensures StopsAt(names, users + [name], Booking(b.names, b.rows + [None]), z)
  {
    NextRow(names, users[..z]);
    assert (users + [name])[..z] == users[..z];
  }

  /** With an empty seat of id 0 the code books the empty seats before it, in order, and after that nobody: every
      further user is told that all seats are booked. */
  lemma {:induction false} StopsAtIdZero(ids: seq<int>, names: Names, users: seq<string>, z: nat)
    requires Ascending(ids) && |ids| == |names|
    requires z < |EmptyRows(names)| && EmptyRows(names)[z] < |ids| && ids[EmptyRows(names)[z]] == 0
    ensures StopsAt(names, users, SequentialById(ids, names, users), z)
  {
    if users != [] {
      var n := |users| - 1;
      var b := SequentialById(ids, names, users[..n]);
      StopsAtIdZero(ids, names, users[..n], z);
      assert users == users[..n] + [users[n]];
      if n < z {
        BookBeforeIdZero(names, users[..n], b, z, users[n]);
        EmptyRowsMeaning(names, 0);
        assert EmptyRows(names)[n] < EmptyRows(names)[z];
      } else {
        NobodyAfterIdZero(names, users[..n], b, z, users[n]);
      }
    }
  }

  // ---------------------------------------------------------------------------------------------
  // The functions of the program, run without interference
  // ---------------------------------------------------------------------------------------------

  /** The database call of a transaction that returns an error, if any. */
  datatype Failure = NoFailure | QueryFails | ScanFails | UpdateFails | CommitFails

  /** What the transaction prints. */
  datatype Report = BookedSeat(id: int) | AllSeatsBooked | Error

  class Airline {
    const ids: seq<int>
    var names: Names

    ghost predicate Valid()
      reads this
    {
      Ascending(ids) && |ids| == |names|
    }

    constructor (ids: seq<int>, names: Names)
      requires Ascending(ids) && |ids| == |names|
      ensures Valid() && this.ids == ids && this.names == names
    {
      this.ids, this.names := ids, names;
    }

    /** One transaction: locking read, update, commit; any failing call rolls back. */
    method ReserveEmptyForUser(userName: string, failure: Failure) returns (report: Report)
      requires Valid()
      modifies this`names
      ensures Valid()
      ensures names == if failure.NoFailure? then SequentialById(ids, old(names), [userName]).names
                       else old(names)
      ensures report.Error? <==>
                match failure
                case NoFailure => false
                case CommitFails => false
                case QueryFails => true
                case ScanFails => exists r :: 0 <= r < |ids| && old(names)[r].None?
                case UpdateFails => SequentialById(ids, old(names), [userName]).rows[0].Some?
      ensures !report.Error? ==>
                match SequentialById(ids, old(names), [userName]).rows[0]
                case Some(row) => row < |ids| && report == BookedSeat(ids[row])
                case None => report == AllSeatsBooked
    {
      if failure.QueryFails? {
        return Error;
      }
      var emptySeatId := 0;
      var row := FirstEmpty(names);
      if row < |names| {
        if failure.ScanFails? {
          return Error;
        }
        emptySeatId := ids[row];
      }
      var pending := names;
      if emptySeatId != 0 {
        if failure.UpdateFails? {
          return Error;
        }
        pending := pending[row := Some(userName)];
        report := BookedSeat(emptySeatId);
      } else {
        report := AllSeatsBooked;
      }
      assert [userName][..0] == [];
      if failure.NoFailure? {
        names := pending;
      }
    }

    /** The users are read into a list, then each gets a transaction; here the transactions run one
        after the other. A user row that cannot be read means that nobody is booked. */
    method MakeBooking(rows: seq<Option<string>>) returns (users: seq<string>)
      requires Valid()
      modifies this`names
      ensures Valid()
      ensures None in rows ==> users == [] && names == old(names)
      ensures None !in rows ==> |users| == |rows| && forall i :: 0 <= i < |rows| ==> rows[i] == Some(users[i])
      ensures names == SequentialById(ids, old(names), users).names
    {
      users := [];
      for i := 0 to |rows|
        invariant |users| == i && forall j :: 0 <= j < i ==> rows[j] == Some(users[j])
      {
        match rows[i]
        case None => return [];
        case Some(name) => users := users + [name];
      }
      for i := 0 to |users|
        invariant Valid()
        invariant names == SequentialById(ids, old(names), users[..i]).names
      {
        ghost var before := names;
        var report := ReserveEmptyForUser(users[i], NoFailure);
        assert users[..i + 1][..i] == users[..i];
        assert [users[i]][..0] == [];
      }
      assert users[..|users|] == users;
    }
  }
}
