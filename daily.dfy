/** The daily report page: the IST date it asks the backend for, day-by-day
    navigation, the total, the pie chart of the five largest sales and the
    table sorted by amount. */
module DailySale {
  import opened DateText
  import opened EcmaDate
  import opened Lists
  import opened Sales
  import opened IstDates

  /** One slice of the pie chart: `{ name: sale.name, value: sale.total_price }`. */
  datatype PieSlice = PieSlice(name: string, value: int)

  /** `.map(sale => ({ name, value }))`. */
  function Slices(s: seq<Sale>): (r: seq<PieSlice>)
    ensures |r| == |s|
    ensures forall i :: 0 <= i < |s| ==> r[i] == PieSlice(s[i].name, s[i].totalPrice)
  {
    seq(|s|, i requires 0 <= i < |s| => PieSlice(s[i].name, s[i].totalPrice))
  }

  /** The page's state: the selected Date and the day's sales. */
  class DailyPage {
    const host: int
    var selectedDate: JsDate
    var salesList: array<Sale>

    /** The page as first rendered at instant `now`: an empty table. */
    constructor (now: int, host: int)
      ensures this.host == host
      ensures selectedDate.time == now
      ensures salesList[..] == []
    {
      this.host := host;
      selectedDate := new JsDate(now);
      salesList := new Sale[0];
    }

    /** The date the page requests for the selected Date: its IST calendar
        date as `YYYY-MM-DD` (for years 0..9999). */
    function Query(): (s: string)
      reads this, selectedDate
      ensures |s| == 10
      ensures var d := IstDate(selectedDate.time); 0 <= d.year <= 9999 ==> DateLayout(s, d)
    {
      IstDateKey(selectedDate.time)
    }

    /** `changeDate(days)`: a copy of the selected Date moved by `days` days,
        so the requested IST date moves by as many days. */
    method ChangeDate(days: int)
      modifies this
      ensures fresh(selectedDate)
      ensures selectedDate.time == old(selectedDate.time) + days * 86400000
      ensures Day(selectedDate.time + IstOffsetMs) == Day(old(selectedDate.time) + IstOffsetMs) + days
      ensures salesList == old(salesList)
    {
      var newDate := new JsDate.Copy(selectedDate);
      newDate.SetDate(selectedDate.GetDate(host) + days, host);
      DayShift(old(selectedDate.time) + IstOffsetMs, days);
      assert newDate.time + IstOffsetMs == old(selectedDate.time) + IstOffsetMs + days * 86400000;
      selectedDate := newDate;
    }

    /** The end of `fetchSalesList`: the response is stored, or, when the
        request threw, the table is emptied. */
    method ApplyFetch(sales: Reply<seq<Sale>>)
      modifies this
      ensures fresh(salesList)
      ensures sales.Ok? ==> salesList[..] == sales.data
      ensures sales.Failed? ==> salesList[..] == []
      ensures selectedDate == old(selectedDate)
    {
      if sales.Ok? {
        var data := sales.data;
        salesList := new Sale[|data|](i requires 0 <= i < |data| => data[i]);
      } else {
        salesList := new Sale[0];
      }
    }

    /** `totalSales`. */
    function TotalSales(): (r: int)
      reads this, salesList
      ensures r == SumTotals(salesList[..])
      ensures salesList.Length == 0 ==> r == 0
    {
      Total(salesList[..])
    }

    /** `topSalesData`: a copy of the list sorted by amount, its first five
        (fewer when there are fewer sales), as name/value slices.  The page's
        own list is left as it was.  `ranked` is the sorted copy. */
    method TopSales() returns (top: seq<PieSlice>, ghost ranked: seq<Sale>)
      ensures multiset(ranked) == multiset(salesList[..]) && |ranked| == salesList.Length
      ensures forall i, j :: 0 <= i < j < |ranked| ==> ranked[i].totalPrice >= ranked[j].totalPrice
      ensures SameTieOrder(ranked, salesList[..], ByTotalDesc)
      ensures |top| == if salesList.Length < 5 then salesList.Length else 5
      ensures top == Slices(ranked[..|top|])
      ensures forall i, j :: 0 <= i < j < |top| ==> top[i].value >= top[j].value
      ensures forall i, j :: 0 <= i < |top| <= j < |ranked| ==> top[i].value >= ranked[j].totalPrice
    {
      var data := salesList[..];
      var copy := new Sale[|data|](i requires 0 <= i < |data| => data[i]);
      assert copy[..] == data;
      ByTotalDescIsComparator();
      SortInPlace(copy, ByTotalDesc);
      SortedByTotalDesc(copy[..]);
      ranked := copy[..];
      var n := if copy.Length < 5 then copy.Length else 5;
      top := Slices(copy[..n]);
    }

    /** The table: the list sorted in place by amount and numbered from 1;
        the total is unchanged. */
    method TableRows() returns (rows: seq<Row>)
      modifies salesList
      ensures multiset(salesList[..]) == multiset(old(salesList[..]))
      ensures forall i, j :: 0 <= i < j < salesList.Length ==> salesList[i].totalPrice >= salesList[j].totalPrice
      ensures SameTieOrder(salesList[..], old(salesList[..]), ByTotalDesc)
      ensures rows == NumberedRows(salesList[..])
      ensures TotalSales() == old(TotalSales())
    {
      rows := RankRows(salesList);
    }
  }
}
