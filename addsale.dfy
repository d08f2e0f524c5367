/** The add-sale page: the product picker's options, the sale a submit sends,
    today's total and the table of today's sales, newest first, with its
    search box. */
module AddSale {
  import opened DateText
  import opened Lists
  import opened Text
  import opened Sales
  import opened IstDates

  /** The number of decimal digits `s` starts with. */
  function DigitRun(s: string): (n: nat)
    ensures n <= |s| && AllDigits(s[..n])
    ensures n < |s| ==> !IsDigit(s[n])
  {
    if s == [] || !IsDigit(s[0]) then 0
    else
      var m := DigitRun(s[1..]);
      assert s[..1 + m] == [s[0]] + s[1..][..m];
      1 + m
  }

  /** A run of digits followed by something that is not a digit is read up to
      that point. */
  lemma {:induction false} DigitRunPrefix(a: string, rest: string)
    requires AllDigits(a)
    requires rest == [] || !IsDigit(rest[0])
    ensures DigitRun(a + rest) == |a|
  {
    if a != [] {
      assert (a + rest)[1..] == a[1..] + rest;
      DigitRunPrefix(a[1..], rest);
    }
  }

  /** `parseInt(s)` on text without leading white space: an optional sign,
      then the longest run of decimal digits; `NaN` (None) when no digit
      follows the sign. */
  function ParseInt(s: string): Option<int> {
    var signed := |s| > 0 && (s[0] == '-' || s[0] == '+');
    var body := if signed then s[1..] else s;
    var n := DigitRun(body);
    if n == 0 then None
    else
      var v: int := DigitsValue(body[..n]);
      Some(if signed && s[0] == '-' then -v else v)
  }

  /** `String(n)` for an integer: a minus sign for negatives, then the digits. */
  function IntText(n: int): string {
    if n < 0 then "-" + Digits(-n) else Digits(n)
  }

  /** `parseInt` reads the number back from its own text, and stops at the
      first character that is not a digit, so `"2.5"` and `"2e3"` read as 2. */
  lemma ParseIntPrefix(n: int, rest: string)
    requires rest == [] || !IsDigit(rest[0])
    ensures ParseInt(IntText(n) + rest) == Some(n)
  {
    var m := if n < 0 then -n else n;
    var digits := Digits(m);
    DigitRunPrefix(digits, rest);
    assert (digits + rest)[..|digits|] == digits;
    DigitsRoundTrip(m);
    if n < 0 {
      assert ("-" + digits + rest)[1..] == digits + rest;
    } else {
      assert (digits + rest)[0] == digits[0];
    }
  }

  /** The number `String(n)` shows parses back to `n`. */
  lemma ParseIntRoundTrip(n: int)
    ensures ParseInt(IntText(n)) == Some(n)
  {
    ParseIntPrefix(n, []);
    assert IntText(n) + [] == IntText(n);
  }

  /** A number input may hold `".5"`; `parseInt` reads no digit there and
      gives `NaN`. */
  lemma ParseIntLeadingPoint()
    ensures ParseInt(".5") == None
  {
    assert !IsDigit(".5"[0]);
  }

  /** One entry of the product picker: `{ value: p.id, label: p.product_name,
      price: p.price }`. */
  datatype ProductOption = ProductOption(value: int, caption: string, price: int)

  /** `products.map(p => ({ value, label, price }))`: one option per product,
      in the products' order. */
  function Options(s: seq<Product>): (r: seq<ProductOption>)
    ensures |r| == |s|
    ensures forall i :: 0 <= i < |s| ==> r[i] == ProductOption(s[i].id, s[i].name, s[i].price)
  {
    seq(|s|, i requires 0 <= i < |s| => ProductOption(s[i].id, s[i].name, s[i].price))
  }

  /** Options of a list in name order are in label order. */
  lemma OptionsInLabelOrder(s: seq<Product>)
    requires SortedBy(s, ByName)
    ensures var r := Options(s);
      forall i, j :: 0 <= i < j < |r| ==> Compare(r[i].caption, r[j].caption) <= 0
  {
    var r := Options(s);
    forall i, j | 0 <= i < j < |r|
      ensures Compare(r[i].caption, r[j].caption) <= 0
    {
      assert ByName(s[i], s[j]) <= 0;
    }
  }

  /** The body of the request a submit sends. */
  datatype SaleRequest = SaleRequest(
    name: string, productId: int, quantity: Option<int>, totalPrice: Option<int>, date: string)

  /** `saleData`: the selected option's label and id, the parsed quantity,
      the unit price times the parsed quantity (`NaN` when the quantity does
      not parse), and today's IST date. */
  function SaleData(option: ProductOption, quantity: string, now: int): (r: SaleRequest)
    ensures r.name == option.caption && r.productId == option.value
    ensures r.date == IstDateKey(now) && |r.date| == 10
    ensures r.quantity == ParseInt(quantity)
    ensures r.totalPrice.Some? <==> r.quantity.Some?
    ensures r.quantity.Some? ==> r.totalPrice.value == option.price * r.quantity.value
  {
    var q := ParseInt(quantity);
    var total := if q.Some? then Some(option.price * q.value) else None;
    SaleRequest(option.caption, option.value, q, total, IstDateKey(now))
  }

  /** A quantity typed as the digits of `q` gives a sale of `q` units
      totalling `q` times the unit price. */
  lemma SaleDataForQuantity(option: ProductOption, q: int, now: int)
    ensures var r := SaleData(option, IntText(q), now);
      r.quantity == Some(q) && r.totalPrice == Some(option.price * q)
  {
    ParseIntRoundTrip(q);
  }

  /** The alert shown when the form is submitted incomplete. */
  const MissingInput := "Please select product and quantity."

  /** The alert shown when the backend refuses the sale. */
  const AddFailed := "Failed to add product"

  /** The search filter: `sale.name.toLowerCase().includes(term.toLowerCase())`. */
  function Matches(term: string): Sale -> bool {
    (sale: Sale) => Includes(Lower(sale.name), Lower(term))
  }

  /** An empty search keeps every sale. */
  lemma MatchesEmpty(s: seq<Sale>)
    ensures Filter(s, Matches("")) == s
  {
    assert Lower("") == "";
    forall i | 0 <= i < |s|
      ensures Matches("")(s[i])
    {
      IncludesEmpty(Lower(s[i].name));
    }
    FilterKeepsAll(s, Matches(""));
  }

  /** The search keeps every copy of each matching sale and nothing else. */
  lemma SearchKeepsMatching(s: seq<Sale>, term: string)
    ensures forall x :: multiset(Filter(s, Matches(term)))[x]
                        == if Includes(Lower(x.name), Lower(term)) then multiset(s)[x] else 0
  {
    forall x
      ensures multiset(Filter(s, Matches(term)))[x]
        == if Includes(Lower(x.name), Lower(term)) then multiset(s)[x] else 0
    {
      FilterCount(s, Matches(term), x);
    }
  }

  /** "Goes first" for sales with strictly larger ids. */
  function NewerFirst(a: Sale, b: Sale): int {
    b.id - a.id + 1
  }

  /** A list in `b.id - a.id` order whose ids are distinct keeps strictly
      decreasing ids through any search. */
  lemma SearchKeepsNewestFirst(s: seq<Sale>, term: string)
    requires SortedBy(s, ByIdDesc)
    requires forall i, j :: 0 <= i < j < |s| ==> s[i].id != s[j].id
    ensures var f := Filter(s, Matches(term));
      forall i, j :: 0 <= i < j < |f| ==> f[i].id > f[j].id
  {
    SortedByIdDescStrict(s);
    assert SortedBy(s, NewerFirst);
    FilterSorted(s, Matches(term), NewerFirst);
  }

  /** `.map((sale, index) => ...)` with `salesList.length - index` in the `#`
      column: the count is that of the whole list, not of the rows shown. */
  function CountdownRows(s: seq<Sale>, n: int): (rows: seq<Row>)
    ensures |rows| == |s|
    ensures forall i :: 0 <= i < |s| ==> rows[i].sale == s[i]
  {
    seq(|s|, i requires 0 <= i < |s| => Row(n - i, s[i]))
  }

  /** The `#` column counts down one per row from the list's length, so its
      labels are distinct, and while the rows shown are no more than the list
      they stay between 1 and that length. */
  lemma CountdownLabels(s: seq<Sale>, n: int)
    requires |s| <= n
    ensures var rows := CountdownRows(s, n);
      (s != [] ==> rows[0].number == n)
      && (forall i, j :: 0 <= i < j < |s| ==> rows[i].number > rows[j].number)
      && (forall i :: 0 <= i < |s| ==> 1 <= rows[i].number <= n)
  {
  }

  /** The page's state: the fetched products and today's sales (both arrays
      that the render sorts in place), the picker's selection, the quantity
      field and the search box. */
  class SalePage {
    var products: array<Product>
    var salesList: array<Sale>
    var selected: Option<ProductOption>
    var quantity: string
    var searchTerm: string

    /** The page before its requests answer: nothing selected, empty fields. */
    constructor ()
      ensures products[..] == [] && salesList[..] == []
      ensures selected.None? && quantity == "" && searchTerm == ""
    {
      products := new Product[0];
      salesList := new Sale[0];
      selected := None;
      quantity := "";
      searchTerm := "";
    }

    /** `fetchProductsList`: the response is stored; a failed request leaves
        the list as it was. */
    method ApplyProducts(reply: Reply<seq<Product>>)
      modifies this
      ensures reply.Ok? ==> fresh(products) && products[..] == reply.data
      ensures reply.Failed? ==> products == old(products)
      ensures salesList == old(salesList) && selected == old(selected)
      ensures quantity == old(quantity) && searchTerm == old(searchTerm)
    {
      if reply.Ok? {
        var data := reply.data;
        products := new Product[|data|](i requires 0 <= i < |data| => data[i]);
      }
    }

    /** The date `fetchSalesList` asks for: today in India Standard Time. */
    function SalesQuery(now: int): (s: string)
      ensures |s| == 10
      ensures 0 <= IstDate(now).year <= 9999 ==> DateLayout(s, IstDate(now))
    {
      IstDateKey(now)
    }

    /** `fetchSalesList`'s answer: stored, or on failure the list is kept. */
    method ApplySales(reply: Reply<seq<Sale>>)
      modifies this
      ensures reply.Ok? ==> fresh(salesList) && salesList[..] == reply.data
      ensures reply.Failed? ==> salesList == old(salesList)
      ensures products == old(products) && selected == old(selected)
      ensures quantity == old(quantity) && searchTerm == old(searchTerm)
    {
      if reply.Ok? {
        var data := reply.data;
        salesList := new Sale[|data|](i requires 0 <= i < |data| => data[i]);
      }
    }

    /** `productOptions`: the products sorted in place by name, then one
        option per product in that order. */
    method ProductOptions() returns (options: seq<ProductOption>)
      modifies products
      ensures multiset(products[..]) == multiset(old(products[..]))
      ensures SortedBy(products[..], ByName)
      ensures SameTieOrder(products[..], old(products[..]), ByName)
      ensures options == Options(products[..])
      ensures forall i, j :: 0 <= i < j < |options| ==> Compare(options[i].caption, options[j].caption) <= 0
    {
      ByNameIsComparator();
      SortInPlace(products, ByName);
      options := Options(products[..]);
      OptionsInLabelOrder(products[..]);
    }

    /** `handleSaleSubmit`.  With no product selected or an empty quantity it
        alerts and sends nothing.  Otherwise it sends `saleData`; when the
        backend `accepted` it, the form is cleared and today's sales are
        reloaded, and when it threw, the form is kept and an alert shown. */
    method Submit(now: int, accepted: bool) returns (request: Option<SaleRequest>, alert: Option<string>, reload: bool)
      modifies this
      ensures old(selected).None? || old(quantity) == "" ==>
        request.None? && alert == Some(MissingInput) && !reload
        && selected == old(selected) && quantity == old(quantity)
      ensures old(selected).Some? && old(quantity) != "" ==>
        request == Some(SaleData(old(selected).value, old(quantity), now))
      ensures old(selected).Some? && old(quantity) != "" && accepted ==>
        selected.None? && quantity == "" && alert.None? && reload
      ensures old(selected).Some? && old(quantity) != "" && !accepted ==>
        selected == old(selected) && quantity == old(quantity) && alert == Some(AddFailed) && !reload
      ensures products == old(products) && salesList == old(salesList) && searchTerm == old(searchTerm)
    {
      if selected.None? || quantity == "" {
        return None, Some(MissingInput), false;
      }
      request := Some(SaleData(selected.value, quantity, now));
      alert, reload := Settle(accepted);
    }

    /** What follows `await addSale(saleData)`: on success the form is
        cleared and a reload of today's sales is started; when it threw, the
        form is kept and an alert shown. */
    method Settle(accepted: bool) returns (alert: Option<string>, reload: bool)
      modifies this
      ensures accepted ==> selected.None? && quantity == "" && alert.None? && reload
      ensures !accepted ==>
        selected == old(selected) && quantity == old(quantity) && alert == Some(AddFailed) && !reload
      ensures products == old(products) && salesList == old(salesList) && searchTerm == old(searchTerm)
    {
      if accepted {
        selected := None;
        quantity := "";
        alert, reload := None, true;
      } else {
        alert, reload := Some(AddFailed), false;
      }
    }

    /** `todayTotal`: the sum of the amounts, 0 for no sales. */
    function TodayTotal(): (r: int)
      reads this, salesList
      ensures r == SumTotals(salesList[..])
      ensures salesList.Length == 0 ==> r == 0
    {
      Total(salesList[..])
    }

    /** The table: the list sorted in place by `b.id - a.id`, the sales whose
        name contains the search term (ignoring case), labelled by counting
        down from the list's length.  The total is unchanged. */
    method TableRows() returns (rows: seq<Row>)
      modifies salesList
      ensures multiset(salesList[..]) == multiset(old(salesList[..]))
      ensures SortedBy(salesList[..], ByIdDesc)
      ensures SameTieOrder(salesList[..], old(salesList[..]), ByIdDesc)
      ensures forall i, j :: 0 <= i < j < salesList.Length ==> salesList[i].id >= salesList[j].id
      ensures rows == CountdownRows(Filter(salesList[..], Matches(searchTerm)), salesList.Length)
      ensures TodayTotal() == old(TodayTotal())
    {
      ByIdDescIsComparator();
      SortInPlace(salesList, ByIdDesc);
      SumPermutation(salesList[..], old(salesList[..]));
      rows := CountdownRows(Filter(salesList[..], Matches(searchTerm)), salesList.Length);
    }
  }
}
