/** The product catalogue page: the list kept in name order, adding a product
    and re-sorting, deleting one after confirmation with the backend's status
    deciding the outcome, and the search box over product names. */
module AddProducts {
  import opened Lists
  import opened Text
  import opened Sales

  /** `[...list].sort((a, b) => a.product_name.localeCompare(b.product_name))`:
      the elements of `s` put into name order in a fresh array. */
  method SortedByName(s: seq<Product>) returns (r: seq<Product>)
    ensures multiset(r) == multiset(s) && |r| == |s|
    ensures SortedBy(r, ByName)
    ensures SameTieOrder(r, s, ByName)
  {
    var a := new Product[|s|](i requires 0 <= i < |s| => s[i]);
    assert a[..] == s;
    ByNameIsComparator();
    SortInPlace(a, ByName);
    r := a[..];
    assert |multiset(r)| == |multiset(s)|;
  }

  /** The body of the add request: the name as typed and the price field's
      text, which the page converts with `parseFloat`. */
  datatype NewProduct = NewProduct(name: string, priceText: string)

  /** How the delete request ended: answered with an HTTP status, or thrown,
      with `error.response.status` when the error carries a response. */
  datatype DeleteReply = Status(code: int) | Threw(response: Option<int>)

  /** `p => p.id !== id`: the products that the delete keeps. */
  function Keeps(id: int): Product -> bool {
    (p: Product) => p.id != id
  }

  /** A delete removes every product with that id and no other, each other
      product keeping its number of copies. */
  lemma DeleteRemovesExactly(s: seq<Product>, id: int)
    ensures var r := Filter(s, Keeps(id));
      (forall i :: 0 <= i < |r| ==> r[i].id != id)
      && (forall p :: multiset(r)[p] == if p.id != id then multiset(s)[p] else 0)
  {
    var r := Filter(s, Keeps(id));
    forall i | 0 <= i < |r|
      ensures r[i].id != id
    {
      assert r[i] in r;
    }
    forall p
      ensures multiset(r)[p] == if p.id != id then multiset(s)[p] else 0
    {
      FilterCount(s, Keeps(id), p);
    }
  }

  /** A delete leaves a name-ordered list in name order. */
  lemma DeleteKeepsNameOrder(s: seq<Product>, id: int)
    requires SortedBy(s, ByName)
    ensures SortedBy(Filter(s, Keeps(id)), ByName)
  {
    FilterSorted(s, Keeps(id), ByName);
  }

  /** The search filter: `product_name.toLowerCase().includes(term.toLowerCase())`. */
  function NameMatches(term: string): Product -> bool {
    (p: Product) => Includes(Lower(p.name), Lower(term))
  }

  /** The search keeps every copy of each matching product and nothing else,
      and an empty search keeps the whole list. */
  lemma SearchKeepsMatching(s: seq<Product>, term: string)
    ensures forall p :: multiset(Filter(s, NameMatches(term)))[p]
                        == if Includes(Lower(p.name), Lower(term)) then multiset(s)[p] else 0
    ensures term == "" ==> Filter(s, NameMatches(term)) == s
  {
    forall p
      ensures multiset(Filter(s, NameMatches(term)))[p]
        == if Includes(Lower(p.name), Lower(term)) then multiset(s)[p] else 0
    {
      FilterCount(s, NameMatches(term), p);
    }
    if term == "" {
      assert Lower(term) == "";
      forall i | 0 <= i < |s|
        ensures NameMatches(term)(s[i])
      {
        IncludesEmpty(Lower(s[i].name));
      }
      FilterKeepsAll(s, NameMatches(term));
    }
  }

  /** A row of the product table: its `#` and the product. */
  datatype ProductRow = ProductRow(number: int, product: Product)

  /** `.map((product, index) => ...)` with `index + 1` in the `#` column. */
  function ProductRows(s: seq<Product>): (rows: seq<ProductRow>)
    ensures |rows| == |s|
    ensures forall i :: 0 <= i < |s| ==> rows[i] == ProductRow(i + 1, s[i])
  {
    seq(|s|, i requires 0 <= i < |s| => ProductRow(i + 1, s[i]))
  }

  /** The table's rows are numbered 1, 2, ... up to the number shown. */
  lemma ProductRowsNumbered(s: seq<Product>)
    ensures var rows := ProductRows(s);
      (forall i :: 0 <= i < |rows| ==> 1 <= rows[i].number <= |rows|)
      && (forall i, j :: 0 <= i < j < |rows| ==> rows[i].number < rows[j].number)
  {
  }

  /** The alerts the page shows. */
  const MissingInput := "Please enter product name and price."
  const AddFailed := "Failed to add product"
  const UsedInSales := "Cannot delete product. It is used in sales."
  const DeleteFailed := "Failed to delete product"

  /** The page's state: the product list and the form and search fields. */
  class ProductPage {
    var products: seq<Product>
    var productName: string
    var price: string
    var searchTerm: string

    constructor ()
      ensures products == [] && productName == "" && price == "" && searchTerm == ""
    {
      products := [];
      productName := "";
      price := "";
      searchTerm := "";
    }

    /** `fetchProductsList`: the response sorted by name and stored; a failed
        request leaves the list as it was. */
    method LoadProducts(reply: Reply<seq<Product>>)
      modifies this
      ensures reply.Ok? ==> multiset(products) == multiset(reply.data) && SortedBy(products, ByName)
      ensures reply.Ok? ==> SameTieOrder(products, reply.data, ByName)
      ensures reply.Failed? ==> products == old(products)
      ensures productName == old(productName) && price == old(price) && searchTerm == old(searchTerm)
    {
      if reply.Ok? {
        products := SortedByName(reply.data);
      }
    }

    /** `handleAddProduct`.  With an empty name or price it alerts and sends
        nothing.  Otherwise it sends the name and price; when the backend
        answers with the created product, that product joins the list, which
        is sorted by name again, and the fields are cleared; when it threw,
        the list and the fields are kept and an alert shown. */
    method AddProduct(reply: Reply<Product>) returns (request: Option<NewProduct>, alert: Option<string>)
      modifies this
      ensures old(productName) == "" || old(price) == "" ==>
        request.None? && alert == Some(MissingInput)
        && products == old(products) && productName == old(productName) && price == old(price)
      ensures old(productName) != "" && old(price) != "" ==>
        request == Some(NewProduct(old(productName), old(price)))
      ensures old(productName) != "" && old(price) != "" && reply.Ok? ==>
        multiset(products) == multiset(old(products)) + multiset{reply.data}
        && |products| == |old(products)| + 1
        && SortedBy(products, ByName)
        && SameTieOrder(products, old(products) + [reply.data], ByName)
        && productName == "" && price == "" && alert.None?
      ensures old(productName) != "" && old(price) != "" && reply.Failed? ==>
        products == old(products) && productName == old(productName) && price == old(price)
        && alert == Some(AddFailed)
      ensures searchTerm == old(searchTerm)
    {
      if productName == "" || price == "" {
        return None, Some(MissingInput);
      }
      request := Some(NewProduct(productName, price));
      if reply.Ok? {
        products := SortedByName(products + [reply.data]);
        productName := "";
        price := "";
        alert := None;
      } else {
        alert := Some(AddFailed);
      }
    }

    /** `handleDeleteProduct(id)`.  Declined confirmation: nothing happens.
        Status 200: every product with that id leaves the list.  Status 400,
        or a thrown error whose response has status 400: the product is used
        in sales and the list is kept.  Any other status: the list is kept
        without an alert.  Any other thrown error: the list is kept and the
        delete is reported as failed. */
    method DeleteProduct(id: int, confirmed: bool, reply: DeleteReply) returns (alert: Option<string>)
      modifies this
      ensures !confirmed ==> products == old(products) && alert.None?
      ensures confirmed && reply == Status(200) ==>
        products == Filter(old(products), Keeps(id)) && alert.None?
      ensures confirmed && (reply == Status(400) || reply == Threw(Some(400))) ==>
        products == old(products) && alert == Some(UsedInSales)
      ensures confirmed && reply.Status? && reply.code != 200 && reply.code != 400 ==>
        products == old(products) && alert.None?
      ensures confirmed && reply.Threw? && reply.response != Some(400) ==>
        products == old(products) && alert == Some(DeleteFailed)
      ensures productName == old(productName) && price == old(price) && searchTerm == old(searchTerm)
    {
      if !confirmed {
        return None;
      }
      match reply {
        case Status(code) =>
          if code == 200 {
            products := Filter(products, Keeps(id));
            alert := None;
          } else if code == 400 {
            alert := Some(UsedInSales);
          } else {
            alert := None;
          }
        case Threw(response) =>
          if response.Some? && response.value == 400 {
            alert := Some(UsedInSales);
          } else {
            alert := Some(DeleteFailed);
          }
      }
    }

    /** The table body: the products whose name contains the search term,
        ignoring case, numbered from 1. */
    function TableRows(): (rows: seq<ProductRow>)
      reads this
      ensures |rows| <= |products|
      ensures forall i :: 0 <= i < |rows| ==>
        rows[i].number == i + 1 && rows[i].product in products
        && Includes(Lower(rows[i].product.name), Lower(searchTerm))
      ensures forall p :: p in products && Includes(Lower(p.name), Lower(searchTerm)) ==>
        exists i :: 0 <= i < |rows| && rows[i].product == p
      ensures rows == ProductRows(Filter(products, NameMatches(searchTerm)))
    {
      var shown := Filter(products, NameMatches(searchTerm));
      assert forall i :: 0 <= i < |shown| ==> shown[i] in shown;
      ProductRows(shown)
    }
  }
}
