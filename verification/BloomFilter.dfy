// The Bloom filter of bloomFilter/main.go. Its hash functions are `byte sum + i`, so an item sets a cyclic
// window of cells that starts at its byte sum; what the filter answers can be said exactly.
module BloomFilter {
  import opened Bytes
  import opened Modular

  type Item = seq<Byte>

  function ByteSum(item: Item): nat {
    if item == [] then 0 else ByteSum(item[..|item| - 1]) + item[|item| - 1] as nat
  }

  /** The cell that hash function i assigns to an item with this byte sum. */
  function Cell(size: nat, sum: nat, i: nat): (c: nat)
    requires size > 0
    ensures c < size
  {
    (sum + i) % size
  }

  ghost predicate InWindow(size: nat, n: int, sum: nat, cell: nat)
    requires size > 0
  {
    exists i: nat :: i < n && Cell(size, sum, i) == cell
  }

  /** The cell belongs to the window of one of the items. */
  ghost predicate Set(size: nat, n: int, items: seq<Item>, cell: nat)
    requires size > 0
  {
    exists item <- items :: InWindow(size, n, ByteSum(item), cell)
  }

  /** What a filter that got these items answers: is x's window covered by theirs? */
  ghost predicate Accepts(size: nat, n: int, items: seq<Item>, x: Item)
    requires size > 0 || n <= 0
  {
    forall i: nat :: i < n ==> Set(size, n, items, Cell(size, ByteSum(x), i))
  }

  method Hash(item: Item, i: nat) returns (h: nat)
    ensures h == ByteSum(item) + i
  {
    var sum: nat := 0;
    for j := 0 to |item|
      invariant sum == ByteSum(item[..j])
    {
      sum := sum + item[j] as nat;
      assert item[..j + 1][..j] == item[..j];
    }
    assert item[..|item|] == item;
    h := sum + i;
  }

  class Filter {
    const nHashFunction: int
    const size: nat
    const bitArray: array<bool>
    ghost var items: seq<Item>        // everything added so far

    ghost predicate Valid()
      reads this, bitArray
    {
      && bitArray.Length == size
      && forall c: nat :: c < size ==> (bitArray[c] <==> Set(size, nHashFunction, items, c))
    }

    constructor (size: nat, nHashFunction: int)
      ensures Valid() && items == [] && this.size == size && this.nHashFunction == nHashFunction && fresh(bitArray)
    {
      this.size, this.nHashFunction, this.items := size, nHashFunction, [];
      bitArray := new bool[size](_ => false);
    }

    /** With a hash function to apply, the cells are found modulo the size. */
    method Add(item: Item)
      requires Valid() && (size > 0 || nHashFunction <= 0)
      modifies this`items, bitArray
      ensures Valid() && items == old(items) + [item]
    {
      ghost var sum := ByteSum(item);
      var i := 0;
      while i < nHashFunction
        invariant i == 0 || 0 < i <= nHashFunction
        invariant items == old(items)
        invariant forall c: nat :: c < size ==> (bitArray[c] <==> old(bitArray[c]) || InWindow(size, i, sum, c))
      {
        var hash := Hash(item, i);
        assert Cell(size, sum, i) == hash % size;
        bitArray[hash % size] := true;
        forall c: nat | c < size
          ensures InWindow(size, i + 1, sum, c) <==> InWindow(size, i, sum, c) || Cell(size, sum, i) == c
        {
        }
        i := i + 1;
      }
      items := items + [item];
      forall c: nat | c < size ensures bitArray[c] <==> Set(size, nHashFunction, items, c) {
        assert old(bitArray[c]) <==> Set(size, nHashFunction, old(items), c);
        assert InWindow(size, nHashFunction, sum, c) <==> InWindow(size, i, sum, c);
      }
    }

    method Contains(item: Item) returns (found: bool)
      requires Valid() && (size > 0 || nHashFunction <= 0)
      ensures found <==> Accepts(size, nHashFunction, items, item)
    {
      var i := 0;
      while i < nHashFunction
        invariant i == 0 || 0 < i <= nHashFunction
        invariant forall j: nat :: j < i ==> Set(size, nHashFunction, items, Cell(size, ByteSum(item), j))
      {
        var hash := Hash(item, i);
        assert Cell(size, ByteSum(item), i) == hash % size;
        if !bitArray[hash % size] {
          return false;
        }
        i := i + 1;
      }
      return true;
    }
  }

  // ---------------------------------------------------------------------------------------------
  // No false negatives, no answer taken back
  // ---------------------------------------------------------------------------------------------

  lemma {:induction false} AddedIsContained(size: nat, n: int, items: seq<Item>, x: Item)
    requires (size > 0 || n <= 0) && x in items
    ensures Accepts(size, n, items, x)
  {
    forall i: nat | i < n ensures Set(size, n, items, Cell(size, ByteSum(x), i)) {
      assert InWindow(size, n, ByteSum(x), Cell(size, ByteSum(x), i));
    }
  }

  lemma {:induction false} PositiveStaysPositive(size: nat, n: int, items: seq<Item>, more: seq<Item>, x: Item)
    requires (size > 0 || n <= 0) && Accepts(size, n, items, x)
    ensures Accepts(size, n, items + more, x)
  {
    forall i: nat | i < n ensures Set(size, n, items + more, Cell(size, ByteSum(x), i)) {
      assert Set(size, n, items, Cell(size, ByteSum(x), i));
      var item :| item in items && InWindow(size, n, ByteSum(item), Cell(size, ByteSum(x), i));
      assert item in items + more;
    }
  }

  // ---------------------------------------------------------------------------------------------
  // Only byte sums modulo size matter
  // ---------------------------------------------------------------------------------------------

  ghost predicate Congruent(size: nat, a: Item, b: Item)
    requires size > 0
  {
    ByteSum(a) % size == ByteSum(b) % size
  }

  /** Every byte sum of the items is, modulo size, one of the others'. */
  ghost predicate SumsAmong(size: nat, items: seq<Item>, others: seq<Item>)
    requires size > 0
  {
    forall a <- items :: exists b <- others :: Congruent(size, a, b)
  }

  lemma {:induction false} CongruentWindows(size: nat, n: int, a: Item, b: Item, cell: nat)
    requires size > 0 && Congruent(size, a, b)
    requires InWindow(size, n, ByteSum(a), cell)
    ensures InWindow(size, n, ByteSum(b), cell)
  {
    var i: nat :| i < n && Cell(size, ByteSum(a), i) == cell;
    ModAdd(ByteSum(a), ByteSum(b), i, size);
    assert Cell(size, ByteSum(b), i) == cell;
  }

  /** Two histories with the same byte sums modulo size leave the same bits: order, repetition and
      spelling do not matter. */
  lemma {:induction false} BitsDependOnSumsOnly(size: nat, n: int, items: seq<Item>, others: seq<Item>, cell: nat)
    requires size > 0
    requires SumsAmong(size, items, others) && SumsAmong(size, others, items)
    ensures Set(size, n, items, cell) <==> Set(size, n, others, cell)
  {
    if Set(size, n, items, cell) {
      SetTransfers(size, n, items, others, cell);
    }
    if Set(size, n, others, cell) {
      SetTransfers(size, n, others, items, cell);
    }
  }

  lemma {:induction false} SetTransfers(size: nat, n: int, items: seq<Item>, others: seq<Item>, cell: nat)
    requires size > 0 && Set(size, n, items, cell)
    requires SumsAmong(size, items, others)
    ensures Set(size, n, others, cell)
  {
    var a :| a in items && InWindow(size, n, ByteSum(a), cell);
    var b :| b in others && Congruent(size, a, b);
    CongruentWindows(size, n, a, b, cell);
  }

  lemma {:induction false} SumOfParts(a: Item, b: Item)
    ensures ByteSum(a + b) == ByteSum(a) + ByteSum(b)
  {
    if b == [] {
      assert a + b == a;
    } else {
      assert (a + b)[..|a + b| - 1] == a + b[..|b| - 1];
      SumOfParts(a, b[..|b| - 1]);
    }
  }

  lemma {:induction false} RemoveOne(b: Item, k: nat)
    requires k < |b|
    ensures var rest := b[..k] + b[k + 1..];
            ByteSum(b) == ByteSum(rest) + b[k] as nat && multiset(rest) == multiset(b) - multiset{b[k]}
  {
    assert b == b[..k] + [b[k]] + b[k + 1..];
    SumOfParts(b[..k], b[k + 1..]);
    SumOfParts(b[..k] + [b[k]], b[k + 1..]);
    SumOfParts(b[..k], [b[k]]);
    assert [b[k]][..0] == [];
  }

  /** The byte sum: that of the parts together, and of a single byte its value. */
  lemma {:induction false} ByteSumMeaning(a: Item, x: Byte, b: Item)
    ensures ByteSum([]) == 0 && ByteSum([x]) == x as nat
    ensures ByteSum(a + [x] + b) == ByteSum(a) + x as nat + ByteSum(b)
  {
    SumOfParts(a, [x]);
    SumOfParts(a + [x], b);
    assert [x][..0] == [];
  }

  /** Anagrams cannot be told apart. */
  lemma {:induction false} AnagramsCollide(a: Item, b: Item)
    requires multiset(a) == multiset(b)
    ensures ByteSum(a) == ByteSum(b)
    decreases |a|
  {
    assert |a| == |multiset(a)| == |multiset(b)| == |b|;
    if a != [] {
      assert a[0] in multiset(b);
      var k :| 0 <= k < |b| && b[k] == a[0];
      RemoveOne(a, 0);
      RemoveOne(b, k);
      AnagramsCollide(a[..0] + a[0 + 1..], b[..k] + b[k + 1..]);
    }
  }

  // ---------------------------------------------------------------------------------------------
  // False positives with one item
  // ---------------------------------------------------------------------------------------------

  lemma {:induction false} FullTurnCoversAll(size: nat, n: int, sum: nat, cell: nat)
    requires size > 0 && n >= size && cell < size
    ensures InWindow(size, n, sum, cell)
  {
    var r := sum % size;
    var i := if cell >= r then cell - r else cell + size - r;
    DivModPlus(sum, size, i);
    assert Cell(size, sum, i) == cell;
  }

  lemma {:induction false} CoveredMeansCongruent(size: nat, n: int, y: Item, x: Item)
    requires 0 < n < size && Accepts(size, n, [y], x)
    ensures Congruent(size, x, y)
  {
    var sx, sy := ByteSum(x), ByteSum(y);
    assert Set(size, n, [y], Cell(size, sx, 0));
    var j: nat :| j < n && Cell(size, sy, j) == Cell(size, sx, 0);
    if j > 0 {
      // Cell n of y's window would be hit from x, but it is just outside.
      var i := n - j;
      assert Set(size, n, [y], Cell(size, sx, i));
      var m: nat :| m < n && Cell(size, sy, m) == Cell(size, sx, i);
      ModAdd(sx, sy + j, i, size);
      assert sy + j + i == sy + n;
      ModApart(sy, m, n, size);
      assert false;
    }
  }

  /** After one item y was added, x is reported exactly when there is no hash function, the windows wrap
      all the way round, or the byte sums are congruent modulo size. */
  lemma {:induction false} OneItemExactly(size: nat, n: int, y: Item, x: Item)
    requires size > 0
    ensures Accepts(size, n, [y], x) <==> n <= 0 || n >= size || Congruent(size, x, y)
  {
    assert y in [y];
    if n >= size {
      forall i: nat | i < n ensures Set(size, n, [y], Cell(size, ByteSum(x), i)) {
        FullTurnCoversAll(size, n, ByteSum(y), Cell(size, ByteSum(x), i));
      }
    } else if n > 0 {
      if Congruent(size, x, y) {
        forall i: nat | i < n ensures Set(size, n, [y], Cell(size, ByteSum(x), i)) {
          assert InWindow(size, n, ByteSum(x), Cell(size, ByteSum(x), i));
          CongruentWindows(size, n, x, y, Cell(size, ByteSum(x), i));
        }
      }
      if Accepts(size, n, [y], x) {
        CoveredMeansCongruent(size, n, y, x);
      }
    }
  }
}
