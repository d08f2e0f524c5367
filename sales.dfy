/** The records the report pages receive from the backend, the running totals
    they show, the orders they sort tables into, and the numbered rows of those
    tables.  Money is counted in whole paise. */
module Sales {
  import opened Lists
  import opened Text

  /** One row of a sales response: `id`, `name`, `price`, `quantity` and
      `total_price`. */
  datatype Sale = Sale(id: int, name: string, price: int, quantity: int, totalPrice: int)

  /** One row of the products response: `id`, `product_name` and `price`. */
  datatype Product = Product(id: int, name: string, price: int)

  /** A value that may be absent: an unselected option, or `NaN` from `parseInt`. */
  datatype Option<T> = None | Some(value: T)

  /** The outcome of an awaited request: its `data`, or the error it threw. */
  datatype Reply<T> = Ok(data: T) | Failed

  /** One point of a chart series from the backend: its key (a day or month name) and its total. */
  datatype Point = Point(key: string, total: int)

  /** Reference definition: the sum of `total_price` over a list. */
  function SumTotals(s: seq<Sale>): int {
    if s == [] then 0 else s[0].totalPrice + SumTotals(s[1..])
  }

  /** `s.reduce((sum, sale) => sum + sale.total_price, acc)`: a left fold. */
  function ReduceTotals(s: seq<Sale>, acc: int): int {
    if s == [] then acc else ReduceTotals(s[1..], acc + s[0].totalPrice)
  }

  lemma {:induction false} ReduceIsSum(s: seq<Sale>, acc: int)
    ensures ReduceTotals(s, acc) == acc + SumTotals(s)
  {
    if s != [] {
      ReduceIsSum(s[1..], acc + s[0].totalPrice);
    }
  }

  /** A page's total: the fold started at 0.  It is the sum of the totals, so
      an empty list totals 0. */
  function Total(s: seq<Sale>): (r: int)
    ensures r == SumTotals(s)
    ensures s == [] ==> r == 0
  {
    ReduceIsSum(s, 0);
    ReduceTotals(s, 0)
  }

  /** Totals are additive over concatenation. */
  lemma {:induction false} SumConcat(a: seq<Sale>, b: seq<Sale>)
    ensures SumTotals(a + b) == SumTotals(a) + SumTotals(b)
  {
    if a == [] {
      assert a + b == b;
    } else {
      assert (a + b)[1..] == a[1..] + b;
      SumConcat(a[1..], b);
    }
  }

  /** Taking the element at `k` out of a list takes its amount out of the total. */
  lemma SumRemove(b: seq<Sale>, k: int)
    requires 0 <= k < |b|
    ensures SumTotals(b) == b[k].totalPrice + SumTotals(b[..k] + b[k + 1..])
  {
    assert b == b[..k] + [b[k]] + b[k + 1..];
    SumConcat(b[..k] + [b[k]], b[k + 1..]);
    SumConcat(b[..k], [b[k]]);
    SumConcat(b[..k], b[k + 1..]);
  }

  /** Taking the element at `k` out of a list takes one copy of it out of the multiset. */
  lemma MultisetRemove(b: seq<Sale>, k: int)
    requires 0 <= k < |b|
    ensures multiset(b[..k] + b[k + 1..]) == multiset(b) - multiset{b[k]}
  {
    assert b == b[..k] + [b[k]] + b[k + 1..];
  }

  /** Reordering a list does not change its total, so sorting a table leaves
      its footer total as it was. */
  lemma {:induction false} SumPermutation(a: seq<Sale>, b: seq<Sale>)
    requires multiset(a) == multiset(b)
    ensures SumTotals(a) == SumTotals(b)
    decreases |a|
  {
    if a == [] {
      assert |b| == |multiset(b)| == 0;
    } else {
      var x := a[0];
      assert x in b by {
        assert x in multiset(a);
      }
      var k :| 0 <= k < |b| && b[k] == x;
      var rest := b[..k] + b[k + 1..];
      assert multiset(a[1..]) == multiset(rest) by {
        MultisetRemove(b, k);
        assert a == [x] + a[1..];
      }
      SumPermutation(a[1..], rest);
      SumRemove(b, k);
    }
  }

  /** `(a, b) => b.total_price - a.total_price`: largest amount first. */
  function ByTotalDesc(a: Sale, b: Sale): int {
    b.totalPrice - a.totalPrice
  }

  /** `(a, b) => b.id - a.id`: newest sale first. */
  function ByIdDesc(a: Sale, b: Sale): int {
    b.id - a.id
  }

  /** `(a, b) => a.product_name.localeCompare(b.product_name)`. */
  function ByName(a: Product, b: Product): int {
    Compare(a.name, b.name)
  }

  lemma ByTotalDescIsComparator()
    ensures IsComparator(ByTotalDesc)
  {
    forall x: Sale, y: Sale, z: Sale
      ensures ComparatorLaws(ByTotalDesc, x, y, z)
    {
    }
  }

  lemma ByIdDescIsComparator()
    ensures IsComparator(ByIdDesc)
  {
    forall x: Sale, y: Sale, z: Sale
      ensures ComparatorLaws(ByIdDesc, x, y, z)
    {
    }
  }

  lemma ByNameIsComparator()
    ensures IsComparator(ByName)
  {
    forall x: Product, y: Product, z: Product
      ensures ComparatorLaws(ByName, x, y, z)
    {
      CompareAntisymmetric(x.name, y.name);
      if ByName(x, y) <= 0 && ByName(y, z) <= 0 {
        CompareTransitive(x.name, y.name, z.name);
      }
    }
  }

  /** A list sorted by ByTotalDesc lists amounts from largest to smallest. */
  lemma SortedByTotalDesc(s: seq<Sale>)
    ensures SortedBy(s, ByTotalDesc)
        <==> forall i, j :: 0 <= i < j < |s| ==> s[i].totalPrice >= s[j].totalPrice
  {
  }

  /** A list sorted by ByIdDesc whose ids are distinct has strictly decreasing ids. */
  lemma SortedByIdDescStrict(s: seq<Sale>)
    requires SortedBy(s, ByIdDesc)
    requires forall i, j :: 0 <= i < j < |s| ==> s[i].id != s[j].id
    ensures forall i, j :: 0 <= i < j < |s| ==> s[i].id > s[j].id
  {
  }

  /** A table row: the number in its `#` column and the sale it shows. */
  datatype Row = Row(number: int, sale: Sale)

  /** `list.map((sale, index) => ...)` with `index + 1` in the `#` column. */
  function NumberedRows(s: seq<Sale>): (rows: seq<Row>)
    ensures |rows| == |s|
    ensures forall i :: 0 <= i < |s| ==> rows[i].sale == s[i]
  {
    seq(|s|, i requires 0 <= i < |s| => Row(i + 1, s[i]))
  }

  /** The `#` column of a numbered table starts at 1, goes up by one per row
      and ends at the number of rows. */
  lemma NumberedRowsCount(s: seq<Sale>)
    ensures s != [] ==> NumberedRows(s)[0].number == 1 && NumberedRows(s)[|s| - 1].number == |s|
    ensures forall i :: 0 < i < |s| ==> NumberedRows(s)[i].number == NumberedRows(s)[i - 1].number + 1
  {
  }

  /** A report table: the list sorted in place by `b.total_price -
      a.total_price`, largest amount first, then numbered from 1.  The sort
      only reorders the list, so the footer total is unchanged. */
  method RankRows(a: array<Sale>) returns (rows: seq<Row>)
    modifies a
    ensures multiset(a[..]) == multiset(old(a[..]))
    ensures forall i, j :: 0 <= i < j < a.Length ==> a[i].totalPrice >= a[j].totalPrice
    ensures SameTieOrder(a[..], old(a[..]), ByTotalDesc)
    ensures rows == NumberedRows(a[..])
    ensures SumTotals(a[..]) == SumTotals(old(a[..]))
  {
    ByTotalDescIsComparator();
    SortInPlace(a, ByTotalDesc);
    SortedByTotalDesc(a[..]);
    SumPermutation(a[..], old(a[..]));
    rows := NumberedRows(a[..]);
  }
}
