/** The yearly report page: the year it asks the backend for, year-by-year
    navigation, the total, the line chart's series and the table sorted by
    amount. */
module YearlySales {
  import opened EcmaDate
  import opened Lists
  import opened Sales

  /** The line chart's data: `yearlyGraph.length > 0 ? yearlyGraph : []`,
      which is the series itself whether or not it is empty. */
  function ChartData(graph: seq<Point>): (r: seq<Point>)
    ensures r == graph
  {
    if |graph| > 0 then graph else []
  }

  /** The page's state: the year shown, the table's rows and the chart series. */
  class YearlyPage {
    var currentYear: int
    var salesList: array<Sale>
    var yearlyGraph: seq<Point>

    /** The page as first rendered at instant `now`: the local year of `now`,
        an empty table and an empty chart. */
    constructor (now: int, host: int)
      ensures currentYear == LocalDate(now, host).year
      ensures salesList[..] == [] && yearlyGraph == []
    {
      var today := new JsDate(now);
      currentYear := today.GetFullYear(host);
      salesList := new Sale[0];
      yearlyGraph := [];
    }

    /** `changeYear(dir)`: the year moves by `dir`; nothing else changes. */
    method ChangeYear(dir: int)
      modifies this
      ensures currentYear == old(currentYear) + dir
      ensures salesList == old(salesList) && yearlyGraph == old(yearlyGraph)
    {
      currentYear := currentYear + dir;
    }

    /** The end of `fetchYearlySales`: both responses are stored, or, when
        either request threw, the table is emptied and the chart kept. */
    method ApplyFetch(sales: Reply<seq<Sale>>, graph: Reply<seq<Point>>)
      modifies this
      ensures fresh(salesList)
      ensures sales.Ok? && graph.Ok? ==> salesList[..] == sales.data && yearlyGraph == graph.data
      ensures !(sales.Ok? && graph.Ok?) ==> salesList[..] == [] && yearlyGraph == old(yearlyGraph)
      ensures currentYear == old(currentYear)
    {
      if sales.Ok? && graph.Ok? {
        var data := sales.data;
        salesList := new Sale[|data|](i requires 0 <= i < |data| => data[i]);
        yearlyGraph := graph.data;
      } else {
        salesList := new Sale[0];
      }
    }

    /** `totalYearlySales`. */
    function TotalYearlySales(): (r: int)
      reads this, salesList
      ensures r == SumTotals(salesList[..])
      ensures salesList.Length == 0 ==> r == 0
    {
      Total(salesList[..])
    }

    /** The table: the list sorted in place by amount and numbered from 1;
        the total is unchanged. */
    method TableRows() returns (rows: seq<Row>)
      modifies salesList
      ensures multiset(salesList[..]) == multiset(old(salesList[..]))
      ensures forall i, j :: 0 <= i < j < salesList.Length ==> salesList[i].totalPrice >= salesList[j].totalPrice
      ensures SameTieOrder(salesList[..], old(salesList[..]), ByTotalDesc)
      ensures rows == NumberedRows(salesList[..])
      ensures TotalYearlySales() == old(TotalYearlySales())
    {
      rows := RankRows(salesList);
    }
  }
}
