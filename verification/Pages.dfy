// The last ten messages of a channel, newest first: `order by created_at desc limit 10` in slack/main.go
// and slack/chat_server.cpp. Rows with equal created_at may come in any order, so a query has as many
// legal answers as the ties allow.
module Pages {
  import opened Modular
  import opened Sums

  const LIMIT := 10

  datatype Message = Message(id: nat, sender: int, channel: int, text: string, createdAt: nat)

  ghost predicate Distinct(s: seq<Message>) {
    forall i, j :: 0 <= i < j < |s| ==> s[i] != s[j]
  }

  ghost predicate NewestFirst(page: seq<Message>) {
    forall i, j :: 0 <= i < j < |page| ==> page[i].createdAt >= page[j].createdAt
  }

  /** An answer the database may give: ten of the rows (or all), newest first, none of the others newer. */
  ghost predicate LegalPage(rows: seq<Message>, page: seq<Message>) {
    && |page| == Min(LIMIT, |rows|)
    && Distinct(page)
    && (forall m <- page :: m in rows)
    && NewestFirst(page)
    && forall m <- rows, p <- page :: m !in page ==> m.createdAt <= p.createdAt
  }

  // ---------------------------------------------------------------------------------------------
  // Strictly increasing timestamps: one legal answer
  // ---------------------------------------------------------------------------------------------

  ghost predicate StrictlyIncreasing(rows: seq<Message>) {
    forall i, j :: 0 <= i < j < |rows| ==> rows[i].createdAt < rows[j].createdAt
  }

  function Newest(rows: seq<Message>): (page: seq<Message>)
    ensures |page| == Min(LIMIT, |rows|)
    ensures forall j :: 0 <= j < |page| ==> page[j] == rows[|rows| - 1 - j]
  {
    seq(Min(LIMIT, |rows|), j requires 0 <= j < Min(LIMIT, |rows|) => rows[|rows| - 1 - j])
  }

  ghost predicate FirstPlaces(rows: seq<Message>, page: seq<Message>, j: nat) {
    j <= |page| <= |rows| && forall i :: 0 <= i < j ==> page[i] == rows[|rows| - 1 - i]
  }

  // Place j holds none of the j newest rows.
  lemma {:induction false} NotOneOfTheNewest(rows: seq<Message>, page: seq<Message>, j: nat, k: nat)
    requires Distinct(page) && FirstPlaces(rows, page, j) && j < |page|
    requires k < |rows| && page[j] == rows[k]
    ensures k <= |rows| - 1 - j
  {
    var i := |rows| - 1 - k;
    assert i < j ==> page[i] == rows[k];
  }

  // The next newest row has no other place.
  lemma {:induction false} NoOtherPlace(rows: seq<Message>, page: seq<Message>, j: nat)
    requires StrictlyIncreasing(rows) && NewestFirst(page) && FirstPlaces(rows, page, j) && j < |page|
    requires page[j].createdAt < rows[|rows| - 1 - j].createdAt
    ensures rows[|rows| - 1 - j] !in page
  {
    forall i | 0 <= i < |page| ensures page[i] != rows[|rows| - 1 - j] {
      if i < j {
        assert page[i] == rows[|rows| - 1 - i];
      }
    }
  }

  lemma {:induction false} PlaceJ(rows: seq<Message>, page: seq<Message>, j: nat)
    requires StrictlyIncreasing(rows) && LegalPage(rows, page) && FirstPlaces(rows, page, j) && j < |page|
    ensures page[j] == rows[|rows| - 1 - j]
  {
    var x := rows[|rows| - 1 - j];
    assert page[j] in rows && x in rows;
    var k :| 0 <= k < |rows| && rows[k] == page[j];
    NotOneOfTheNewest(rows, page, j, k);
    if page[j].createdAt < x.createdAt {
      NoOtherPlace(rows, page, j);
    }
  }

  lemma {:induction false} PlacesUpTo(rows: seq<Message>, page: seq<Message>, j: nat)
    requires StrictlyIncreasing(rows) && LegalPage(rows, page) && j <= |page|
    ensures FirstPlaces(rows, page, j)
  {
    if j > 0 {
      PlacesUpTo(rows, page, j - 1);
      PlaceJ(rows, page, j - 1);
      forall i | 0 <= i < j ensures page[i] == rows[|rows| - 1 - i] {
        assert i < j - 1 || i == j - 1;
      }
    }
  }

  lemma {:induction false} NewestHas(rows: seq<Message>, k: nat)
    requires k < |rows|
    ensures |rows| - 1 - k < LIMIT ==> rows[k] in Newest(rows)
  {
    if |rows| - 1 - k < LIMIT {
      assert Newest(rows)[|rows| - 1 - k] == rows[k];
    }
  }

  lemma {:induction false} NewestIsLegal(rows: seq<Message>)
    requires StrictlyIncreasing(rows)
    ensures LegalPage(rows, Newest(rows))
  {
    var page := Newest(rows);
    forall m, p | m in rows && p in page && m !in page ensures m.createdAt <= p.createdAt {
      var k :| 0 <= k < |rows| && rows[k] == m;
      var j :| 0 <= j < |page| && page[j] == p;
      NewestHas(rows, k);
    }
  }

  /** With strictly increasing timestamps the ten latest inserted rows, latest first, are the one legal
      answer. */
  lemma {:induction false} OneLegalPage(rows: seq<Message>, page: seq<Message>)
    requires StrictlyIncreasing(rows)
    ensures LegalPage(rows, page) <==> page == Newest(rows)
  {
    if LegalPage(rows, page) {
      PlacesUpTo(rows, page, |page|);
    }
    NewestIsLegal(rows);
  }

  /** So a row is returned exactly until ten later ones have been inserted. */
  lemma {:induction false} ReturnedUntilTenNewer(rows: seq<Message>, i: nat, page: seq<Message>)
    requires StrictlyIncreasing(rows) && i < |rows| && LegalPage(rows, page)
    ensures rows[i] in page <==> |rows| - 1 - i < 10
  {
    OneLegalPage(rows, page);
    if |rows| - 1 - i < LIMIT {
      assert page[|rows| - 1 - i] == rows[i];
    }
  }

  // ---------------------------------------------------------------------------------------------
  // Any timestamps: what every legal answer contains
  // ---------------------------------------------------------------------------------------------

  function NotOlder(m: Message): Message -> nat {
    (x: Message) => if x != m && x.createdAt >= m.createdAt then 1 else 0
  }

  function Other(m: Message): Message -> nat {
    (x: Message) => if x != m then 1 else 0
  }

  // Distinct rows that all weigh something are no more than the total weight.
  lemma {:induction false} CountAtLeast(rows: seq<Message>, page: seq<Message>, f: Message -> nat)
    requires Distinct(page) && forall p <- page :: p in rows && f(p) >= 1
    ensures |page| <= Sum(rows, f)
    decreases |page|
  {
    if page != [] {
      assert page[0] in page;
      var k :| 0 <= k < |rows| && rows[k] == page[0];
      var rest := rows[..k] + rows[k + 1..];
      assert rows == rows[..k] + ([rows[k]] + rows[k + 1..]);
      SumConcat(rows[..k], [rows[k]] + rows[k + 1..], f);
      SumConcat([rows[k]], rows[k + 1..], f);
      SumConcat(rows[..k], rows[k + 1..], f);
      assert [rows[k]][1..] == [];
      forall p | p in page[1..] ensures p in rest && f(p) >= 1 {
        var i :| 0 <= i < |page[1..]| && page[1..][i] == p;
        assert page[i + 1] == p && p != page[0] && p in rows;
        assert p in rows[..k] || p in rows[k + 1..];
      }
      CountAtLeast(rest, page[1..], f);
    }
  }

  lemma {:induction false} InEveryPage(rows: seq<Message>, m: Message, page: seq<Message>)
    requires Distinct(rows) && m in rows && LegalPage(rows, page)
    requires Sum(rows, NotOlder(m)) < LIMIT
    ensures m in page
  {
    if m !in page {
      CountAtLeast(rows, page, NotOlder(m));
      CountAtLeast(rows, page, Other(m));
      var k :| 0 <= k < |rows| && rows[k] == m;
      SumStrictlyDominated(rows, k, Other(m), One);
      SumConstant(rows, One, 1);
    }
  }

  function Insert(x: Message, s: seq<Message>): seq<Message> {
    if s == [] || x.createdAt >= s[0].createdAt then [x] + s else [s[0]] + Insert(x, s[1..])
  }

  function SortNewestFirst(s: seq<Message>): seq<Message> {
    if s == [] then [] else Insert(s[0], SortNewestFirst(s[1..]))
  }

  lemma {:induction false} InsertKeeps(x: Message, s: seq<Message>)
    requires NewestFirst(s) && Distinct(s) && x !in s
    ensures var t := Insert(x, s);
            && |t| == |s| + 1 && NewestFirst(t) && Distinct(t)
            && forall y :: y in t <==> y == x || y in s
  {
    if s != [] && x.createdAt < s[0].createdAt {
      assert forall y :: y in s <==> y == s[0] || y in s[1..];
      InsertKeeps(x, s[1..]);
      Prepend(s[0], Insert(x, s[1..]));
    } else {
      Prepend(x, s);
    }
  }

  lemma {:induction false} Prepend(x: Message, s: seq<Message>)
    requires NewestFirst(s) && Distinct(s) && x !in s
    requires forall y <- s :: y.createdAt <= x.createdAt
    ensures NewestFirst([x] + s) && Distinct([x] + s)
    ensures forall y :: y in [x] + s <==> y == x || y in s
  {
  }

  lemma {:induction false} SortKeeps(s: seq<Message>)
    requires Distinct(s)
    ensures var t := SortNewestFirst(s);
            |t| == |s| && NewestFirst(t) && Distinct(t) && forall y :: y in t <==> y in s
  {
    if s != [] {
      SortKeeps(s[1..]);
      assert forall y :: y in s <==> y == s[0] || y in s[1..];
      assert forall i :: 0 <= i < |s[1..]| ==> s[1..][i] == s[i + 1] != s[0];
      InsertKeeps(s[0], SortNewestFirst(s[1..]));
    }
  }

  function NotOlderRows(rows: seq<Message>, m: Message): (r: seq<Message>)
    ensures forall x :: x in r <==> x in rows && NotOlder(m)(x) == 1
    ensures |r| == Sum(rows, NotOlder(m))
  {
    if rows == [] then []
    else (if NotOlder(m)(rows[0]) == 1 then [rows[0]] else []) + NotOlderRows(rows[1..], m)
  }

  lemma {:induction false} NotOlderRowsDistinct(rows: seq<Message>, m: Message)
    requires Distinct(rows)
    ensures Distinct(NotOlderRows(rows, m))
  {
    if rows != [] {
      NotOlderRowsDistinct(rows[1..], m);
      var rest := NotOlderRows(rows[1..], m);
      assert forall i :: 0 <= i < |rows[1..]| ==> rows[1..][i] == rows[i + 1] != rows[0];
      assert rows[0] !in rest;
      assert forall i :: 0 < i < |[rows[0]] + rest| ==> ([rows[0]] + rest)[i] == rest[i - 1];
    }
  }

  lemma {:induction false} PageWithout(rows: seq<Message>, m: Message) returns (page: seq<Message>)
    requires Distinct(rows) && m in rows && Sum(rows, NotOlder(m)) >= LIMIT
    ensures LegalPage(rows, page) && m !in page
  {
    NotOlderRowsDistinct(rows, m);
    SortKeeps(NotOlderRows(rows, m));
    SumDominated(rows, NotOlder(m), One);
    SumConstant(rows, One, 1);
    var sorted := SortNewestFirst(NotOlderRows(rows, m));
    page := sorted[..LIMIT];
  }

  /** A row is in every legal answer exactly when fewer than ten others are at least as new. */
  lemma {:induction false} AlwaysReturnedExactly(rows: seq<Message>, m: Message)
    requires Distinct(rows) && m in rows
    ensures (forall page :: LegalPage(rows, page) ==> m in page) <==> Sum(rows, NotOlder(m)) < 10
  {
    if Sum(rows, NotOlder(m)) < LIMIT {
      forall page | LegalPage(rows, page) ensures m in page {
        InEveryPage(rows, m, page);
      }
    } else {
      var page := PageWithout(rows, m);
    }
  }
}
