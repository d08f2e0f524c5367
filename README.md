# Chotu Dairy sales pages, modelled in Dafny

Chotu Dairy's frontend is a set of React pages. Staff use them to record the
shop's sales and to read sales reports. This project models the client-side
logic of six of those pages and proves properties about it:

- **Daily sales.** The page asks the backend for one day's sales. It sends the
  day's date in India Standard Time (IST) as `YYYY-MM-DD`. It steps the day
  with arrows and shows a total, a pie chart of the five largest sales, and
  the sales sorted by amount.
- **Weekly sales.** The page asks for a Sunday-to-Saturday range and steps it
  a week at a time. It shows a total, a bar chart and a sorted table. When the
  backend sends no chart series, the chart falls back to seven zero bars.
- **Monthly sales.** The page asks for the range from the first to the last
  day of a month. It also asks for the month's chart by year and month. It
  steps month by month and shows a total and the table in the backend's order.
- **Yearly sales.** The page asks for a year, steps year by year, and shows a
  total, a line chart and a sorted table.
- **Add sale.** The page offers a product picker sorted by name. A submit
  parses the quantity, prices the sale and stamps it with today's IST date.
  Below the form, today's sales appear newest first, with a search box. Rows
  are labelled by counting down from the number of sales.
- **Products.** The page keeps the catalogue in name order. It adds a product
  and re-sorts the list. It deletes a product after confirmation, and the
  backend's status decides the outcome. It also has a search box.

Dates follow the ECMAScript `Date` built-ins (section 21.4.1 of ECMA-262):

- A time value is a whole number of milliseconds since the epoch.
- Local getters read the host's time zone, which is modelled as a fixed
  offset `host` in milliseconds.
- `setDate` and `setMonth` rebuild the time value through MakeDay and
  MakeDate.
- Civil dates are proleptic Gregorian.

The modules are:

- `Calendar`: civil dates and day numbers.
- `EcmaDate`: the `Date` object as a class with a mutable time value.
- `DateText`: digit strings and the `YYYY-MM-DD` layouts.
- `IstDates`: the IST date key.
- `Text`: lower-casing, `includes` and `localeCompare`.
- `Lists`: `filter` and an in-place `sort`.
- `Sales`: records, totals, comparators and numbered rows.
- `MonthSteps`: month arithmetic.
- One module per page: `DailySale`, `WeeklySales`, `MonthlySales`,
  `YearlySales`, `AddSale` and `AddProducts`.

Each page is a class whose fields are the page's state variables. Its
methods are the event handlers and the end of each fetch. The lists the
render sorts in place are arrays.

Money is a whole number.

## Model

| member | source | states |
|---|---|---|
| `Calendar.CivilFromDays` | chotu_dairy/src/pages/WeeklySales.js:23-25 | the date the local getters read is the one valid date with that day number |
| `Calendar.CivilOfDayNumber` | chotu_dairy/src/pages/WeeklySales.js:23-25 | CivilFromDays inverts DayNumber on every valid date |
| `Calendar.DayNumberInjective` | chotu_dairy/src/pages/WeeklySales.js:23-25 | two valid dates with the same day number are the same date |
| `Calendar.CivilFromDaysInjective` | chotu_dairy/src/pages/DailySale.js:14-15 | two day numbers give the same date exactly when they are equal |
| `Calendar.DaysInMonth` | chotu_dairy/src/pages/MonthlySales.js:35 | month lengths are 28..31; February has 29 exactly in leap years; April, June, September and November have 30 |
| `Calendar.MonthLengths` | chotu_dairy/src/pages/MonthlySales.js:34-35 | January, March, May, July, August, October and December have 31 days; April, June, September and November 30; February 29 in leap years and 28 otherwise |
| `Calendar.NextDay` | chotu_dairy/src/pages/DailySale.js:30-34 | the day after a day number is the next calendar date, across month and year ends |
| `Calendar.NextDateNumber` | chotu_dairy/src/pages/DailySale.js:30-34 | the next calendar date has the next day number |
| `Calendar.WeekDayPeriodic` | chotu_dairy/src/pages/WeeklySales.js:31 | the weekday repeats every seven days |
| `Calendar.DayFromYearMonotone` | chotu_dairy/src/pages/WeeklySales.js:23 | later years start on later days |
| `EcmaDate.LocalDate` | chotu_dairy/src/pages/WeeklySales.js:23-25 | the local getters read a valid date whose day number is the local day of the time value |
| `EcmaDate.DayShift` | chotu_dairy/src/pages/WeeklySales.js:64 | moving a time value by n whole days moves its day by n and keeps its time of day |
| `EcmaDate.SetDateIsMakeDate` | chotu_dairy/src/pages/WeeklySales.js:33 | `setDate` is MakeDate(MakeDay(year, month, date), TimeWithinDay) on the local time, converted back |
| `EcmaDate.SetDateInMonth` | chotu_dairy/src/pages/WeeklySales.js:33 | `setDate(c)` with a day of the same month lands on that day at the same local time |
| `EcmaDate.SetMonthKeepsDay` | chotu_dairy/src/pages/MonthlySales.js:75 | `setMonth` keeps the day and time when the day exists in the target month |
| `EcmaDate.SetMonthOverflow` | chotu_dairy/src/pages/MonthlySales.js:75 | when the day does not exist in the target month, `setMonth` overflows into the next month by the excess |
| `EcmaDate.SetMonthDay` | chotu_dairy/src/pages/MonthlySales.js:75 | `setMonth` lands on MakeDay(year, month, day) and keeps the time of day |
| `EcmaDate.MakeDayInYear` | chotu_dairy/src/pages/MonthlySales.js:31 | for a 0-based month within 0..11, MakeDay is the day number of that calendar date |
| `EcmaDate.MonthOverflowNumber` | chotu_dairy/src/pages/MonthlySales.js:75 | days past a month's end count on into the next month |
| `EcmaDate.LocalPartsDate` | chotu_dairy/src/pages/MonthlySales.js:32-35 | `new Date(year, month, date)` is local midnight of MakeDay with years 0..99 read as 1900..1999 |
| `EcmaDate.LocalDateAt` | chotu_dairy/src/pages/MonthlySales.js:32 | a time value whose local day is a valid date's day number reads back as that date |
| `EcmaDate.TargetMonth` | chotu_dairy/src/pages/MonthlySales.js:75 | the month `setMonth` targets is always 1..12 |
| `EcmaDate.JsDate.constructor` | chotu_dairy/src/pages/WeeklySales.js:17 | `new Date(t)` holds t |
| `EcmaDate.JsDate.Copy` | chotu_dairy/src/pages/WeeklySales.js:32 | `new Date(other)` holds the other Date's time value |
| `EcmaDate.JsDate.FromLocalParts` | chotu_dairy/src/pages/MonthlySales.js:32 | `new Date(year, month, date)` holds local midnight of that date |
| `EcmaDate.JsDate.GetMonth` | chotu_dairy/src/pages/MonthlySales.js:29 | `getMonth` is 0..11 |
| `EcmaDate.JsDate.GetDate` | chotu_dairy/src/pages/WeeklySales.js:33 | `getDate` is 1..31 |
| `EcmaDate.JsDate.GetDay` | chotu_dairy/src/pages/WeeklySales.js:31 | `getDay` is 0..6 |
| `EcmaDate.JsDate.SetDate` | chotu_dairy/src/pages/WeeklySales.js:33 | `setDate` replaces the time value by SetDateValue of the old one |
| `EcmaDate.JsDate.SetMonth` | chotu_dairy/src/pages/MonthlySales.js:75 | `setMonth` replaces the time value by SetMonthValue of the old one |
| `DateText.DigitsRoundTrip` | chotu_dairy/src/pages/WeeklySales.js:26 | the decimal text of n is all digits and reads back as n |
| `DateText.DigitsLength` | chotu_dairy/src/pages/WeeklySales.js:26 | four-digit years have four-character texts, and numbers below 100 have at most two |
| `DateText.PadStart` | chotu_dairy/src/pages/WeeklySales.js:24 | `padStart` reaches the width, keeps the text at its end and fills only in front |
| `DateText.ZeroPaddedValue` | chotu_dairy/src/pages/WeeklySales.js:24-25 | zero-padding a digit string keeps it all digits and keeps its value |
| `DateText.Pad2` | chotu_dairy/src/pages/WeeklySales.js:24-25 | month and day render as exactly two digits that read back as the number |
| `DateText.IsoYear` | chotu_dairy/src/pages/DailySale.js:15 | the ISO year field is at least four characters |
| `DateText.IsoDateKey` | chotu_dairy/src/pages/DailySale.js:15 | `toISOString().slice(0, 10)` is ten characters |
| `DateText.YmdLayout` | chotu_dairy/src/pages/WeeklySales.js:26 | for four-digit years the template string is `YYYY-MM-DD` with the date's year, month and day in place |
| `DateText.YmdInjective` | chotu_dairy/src/pages/WeeklySales.js:20-27 | four-digit-year dates and their strings correspond one to one |
| `DateText.IsoYearFourDigits` | chotu_dairy/src/pages/DailySale.js:15 | for years 0..9999 the ISO year field is four digits with the year's value |
| `DateText.IsoDateKeyLayout` | chotu_dairy/src/pages/DailySale.js:15 | for years 0..9999 the ISO key is `YYYY-MM-DD` of the date |
| `DateText.IsoDateKeyIsYmd` | chotu_dairy/src/pages/DailySale.js:14-15 | for four-digit years the ISO key equals the template string |
| `DateText.IsoDateKeyInjective` | chotu_dairy/src/pages/DailySale.js:15 | dates of years 0..9999 and their ISO keys correspond one to one |
| `DateText.LayoutDetermines` | chotu_dairy/src/pages/DailySale.js:15 | a `YYYY-MM-DD` string determines its date |
| `DateText.SharedMonthPrefix` | chotu_dairy/src/pages/MonthlySales.js:38-45 | dates of one month have strings of length ten sharing their `YYYY-MM` prefix |
| `IstDates.IstDate` | chotu_dairy/src/pages/DailySale.js:14 | the IST date is the valid date of the day 5h30 after the time value |
| `IstDates.IstDateKey` | chotu_dairy/src/pages/AddSale.js:65-67 | the requested date is ten characters, and `YYYY-MM-DD` of the IST date for years 0..9999 |
| `IstDates.IstDateKeySameDay` | chotu_dairy/src/pages/DailySale.js:14-15 | two instants request the same date if and only if they share an IST day |
| `IstDates.IstDateNextDay` | chotu_dairy/src/pages/DailySale.js:30-34 | one day later requests the next calendar date |
| `IstDates.IstDateKeyIsLocalYmd` | chotu_dairy/src/pages/DailySale.js:14-15 | the daily key and the weekly page's `formatISTDate` on a UTC host agree for four-digit years |
| `Text.Slice` | chotu_dairy/src/pages/MonthlySales.js:53 | `slice(i, j)` is the substring when in range and never longer than the string |
| `Text.Lower` | chotu_dairy/src/pages/AddSale.js:241 | `toLowerCase` keeps the length and lowers each letter in place |
| `Text.Includes` | chotu_dairy/src/pages/AddSale.js:241 | `includes` holds exactly when the term occurs at some position |
| `Text.IncludesEmpty` | chotu_dairy/src/pages/AddSale.js:241 | every name includes the empty term |
| `Text.Compare` | chotu_dairy/src/pages/AddSale.js:88 | `localeCompare` gives -1, 0 or 1 |
| `Text.CompareAntisymmetric` | chotu_dairy/src/pages/AddSale.js:88 | swapping the names flips the sign |
| `Text.CompareZero` | chotu_dairy/src/pages/AddSale.js:88 | two names compare equal exactly when they are equal |
| `Text.CompareTransitive` | chotu_dairy/src/pages/AddSale.js:88 | "sorts no later than" is transitive |
| `Lists.Filter` | chotu_dairy/src/pages/AddSale.js:240-242 | `filter` is no longer than the list and holds exactly the elements that pass |
| `Lists.FilterCount` | chotu_dairy/src/pages/AddSale.js:240-242 | `filter` keeps every copy of a passing element and none of the others |
| `Lists.FilterConcat` | chotu_dairy/src/pages/AddProducts.js:155-159 | filtering works piecewise, so it keeps relative order |
| `Lists.FilterKeepsAll` | chotu_dairy/src/pages/AddProducts.js:155-159 | a filter that passes everything returns the list unchanged |
| `Lists.FilterSorted` | chotu_dairy/src/pages/AddSale.js:239-242 | filtering a sorted list leaves it sorted |
| `Lists.InsertAt` | chotu_dairy/src/pages/WeeklySales.js:132 | one insertion step extends the sorted prefix by one and only permutes |
| `Lists.SortInPlace` | chotu_dairy/src/pages/WeeklySales.js:132 | `sort(cmp)` leaves the array ordered by a consistent comparator, a permutation of its old contents, and stable: elements that compare equal keep their relative order |
| `Lists.SwapKeepsTies` | chotu_dairy/src/pages/WeeklySales.js:132 | swapping an adjacent out-of-order pair keeps the relative order of every group of mutually equal elements |
| `Sales.ReduceIsSum` | chotu_dairy/src/pages/WeeklySales.js:59 | the `reduce` fold from acc is acc plus the sum of the totals |
| `Sales.Total` | chotu_dairy/src/pages/WeeklySales.js:59 | a page total is the sum of `total_price`, and 0 for no sales |
| `Sales.SumConcat` | chotu_dairy/src/pages/WeeklySales.js:59 | totals add over concatenation |
| `Sales.SumRemove` | chotu_dairy/src/pages/WeeklySales.js:59 | taking one sale out takes its amount out of the total |
| `Sales.MultisetRemove` | chotu_dairy/src/pages/WeeklySales.js:132 | taking one sale out takes one copy out of the multiset |
| `Sales.SumPermutation` | chotu_dairy/src/pages/WeeklySales.js:131-132 | any reordering, sorting included, keeps the total |
| `Sales.ByTotalDescIsComparator` | chotu_dairy/src/pages/WeeklySales.js:132 | `b.total_price - a.total_price` is a consistent comparator |
| `Sales.ByIdDescIsComparator` | chotu_dairy/src/pages/AddSale.js:239 | `b.id - a.id` is a consistent comparator |
| `Sales.ByNameIsComparator` | chotu_dairy/src/pages/AddSale.js:88 | comparing `product_name` with `localeCompare` is a consistent comparator |
| `Sales.SortedByTotalDesc` | chotu_dairy/src/pages/WeeklySales.js:132 | in that order, amounts run from largest to smallest, and conversely |
| `Sales.SortedByIdDescStrict` | chotu_dairy/src/pages/AddSale.js:239 | with distinct ids, that order has strictly decreasing ids |
| `Sales.NumberedRows` | chotu_dairy/src/pages/WeeklySales.js:133-135 | one row per sale, in the list's order |
| `Sales.NumberedRowsCount` | chotu_dairy/src/pages/WeeklySales.js:135 | the `#` column starts at 1, rises by one per row and ends at the row count |
| `Sales.RankRows` | chotu_dairy/src/pages/WeeklySales.js:130-135 | the table sorts the list in place by amount (a permutation), numbers its rows from 1 and keeps the total; equal amounts keep their order |
| `WeeklySales.FormatISTDate` | chotu_dairy/src/pages/WeeklySales.js:20-27 | `formatISTDate` is `YYYY-MM-DD` of the local date 5h30 later, for four-digit years |
| `WeeklySales.FormatISTDateSameDay` | chotu_dairy/src/pages/WeeklySales.js:20-27 | two instants format alike if and only if they share the local day 5h30 later |
| `WeeklySales.WeekBounds` | chotu_dairy/src/pages/WeeklySales.js:31-35 | the Sunday Date is the anchor moved back by its local weekday, and the Saturday Date is six days on; both are fresh copies |
| `WeeklySales.GetWeekRange` | chotu_dairy/src/pages/WeeklySales.js:30-37 | the range as written is `formatISTDate` of those two Dates |
| `WeeklySales.WrittenWeekStartDay` | chotu_dairy/src/pages/WeeklySales.js:30-36 | the reported start is the day 5h30 later minus the local weekday |
| `WeeklySales.WrittenWeekSpan` | chotu_dairy/src/pages/WeeklySales.js:33-36 | the reported range is seven consecutive dates holding the anchor's day 5h30 later |
| `WeeklySales.IstDayOf` | chotu_dairy/src/pages/WeeklySales.js:22 | adding 5h30 stays on the same day before 18:30 and reaches the next day from 18:30 on |
| `WeeklySales.BackToSunday` | chotu_dairy/src/pages/WeeklySales.js:33 | stepping back by the weekday reaches a Sunday |
| `WeeklySales.WrittenWeekStartWeekday` | chotu_dairy/src/pages/WeeklySales.js:30-37 | the reported start is a Sunday only before 18:30 local time, and a Monday from 18:30 on |
| `WeeklySales.EleventhOfMarchNumber` | chotu_dairy/src/pages/WeeklySales.js:36 | 2024-03-11 is day 19793 |
| `WeeklySales.EleventhOfMarchText` | chotu_dairy/src/pages/WeeklySales.js:26 | 2024-03-11 renders as "2024-03-11" |
| `WeeklySales.SaturdayEveningStartsOnMonday` | chotu_dairy/src/pages/WeeklySales.js:30-37 | Saturday 16 March 2024 at 19:00 UTC on a UTC host reports a week starting on Monday "2024-03-11" |
| `WeeklySales.IstWeekStart` | chotu_dairy/src/pages/WeeklySales.js:29-37 | the week's start is a Sunday, and the instant's IST day lies within its seven days |
| `WeeklySales.IstWeekStartUnique` | chotu_dairy/src/pages/WeeklySales.js:29-37 | no other Sunday has the IST day within its seven days |
| `WeeklySales.IstWeekStartShift` | chotu_dairy/src/pages/WeeklySales.js:62-66 | moving the anchor by n weeks moves the week's start by exactly 7n days |
| `WeeklySales.IstWeekRangeStart` | chotu_dairy/src/pages/WeeklySales.js:36 | the range starts with `YYYY-MM-DD` of the week's Sunday |
| `WeeklySales.IstWeekRangeEnd` | chotu_dairy/src/pages/WeeklySales.js:36 | the range ends with `YYYY-MM-DD` of the date six days later |
| `WeeklySales.IstWeekEndsSaturday` | chotu_dairy/src/pages/WeeklySales.js:34-35 | the range's last day is a Saturday |
| `WeeklySales.WrittenWeekAgreesBeforeEvening` | chotu_dairy/src/pages/WeeklySales.js:30-37 | on a UTC host before 18:30 UTC, the written range is the IST week |
| `WeeklySales.ChartData` | chotu_dairy/src/pages/WeeklySales.js:93-101 | the chart shows the backend's series, or seven zero bars Sun..Sat when it is empty |
| `WeeklySales.FallbackFollowsWeek` | chotu_dairy/src/pages/WeeklySales.js:93-101 | fallback bar i carries the weekday of the week's i-th day |
| `WeeklySales.WeeklyPage.constructor` | chotu_dairy/src/pages/WeeklySales.js:14-17 | the first render anchors at now, with an empty table and chart |
| `WeeklySales.WeeklyPage.Range` | chotu_dairy/src/pages/WeeklySales.js:68 | the page requests and shows the IST week of its anchor |
| `WeeklySales.WeeklyPage.ChangeWeek` | chotu_dairy/src/pages/WeeklySales.js:62-66 | the anchor becomes a fresh Date 7 × weeks days on; the lists are kept |
| `WeeklySales.WeeklyPage.ApplyFetch` | chotu_dairy/src/pages/WeeklySales.js:39-53 | both responses are stored, or both lists are emptied when either request threw |
| `WeeklySales.WeeklyPage.TotalWeeklySales` | chotu_dairy/src/pages/WeeklySales.js:59 | the total is the sum of the amounts, and 0 with no sales |
| `WeeklySales.WeeklyPage.TableRows` | chotu_dairy/src/pages/WeeklySales.js:130-135 | the table sorts `salesList` in place by amount, largest first, numbers the rows from 1 and keeps the total; sales with equal amounts keep their order |
| `MonthlySales.FormatDate` | chotu_dairy/src/pages/MonthlySales.js:38-43 | `formatDate` is `YYYY-MM-DD` of the local date for four-digit years |
| `MonthlySales.GetMonthRange` | chotu_dairy/src/pages/MonthlySales.js:23-46 | the range is the first and last day of the local month 5h30 later, with years 0..99 read as 19xx |
| `MonthlySales.MonthRangeHoldsAnchor` | chotu_dairy/src/pages/MonthlySales.js:23-46 | the range holds the anchor's day 5h30 later, unless that year lies in 0..99 |
| `MonthlySales.MonthRangeStart` | chotu_dairy/src/pages/MonthlySales.js:31-32 | the range starts with `YYYY-MM-01` of that month |
| `MonthlySales.MonthRangeEnd` | chotu_dairy/src/pages/MonthlySales.js:34-35 | the range ends with `YYYY-MM-DD` of the month's last day |
| `MonthlySales.MonthRangeSameMonth` | chotu_dairy/src/pages/MonthlySales.js:38-45 | both ends are ten characters and share the `YYYY-MM` prefix |
| `MonthlySales.GraphQueryIsYearAndMonth` | chotu_dairy/src/pages/MonthlySales.js:53 | `start.slice(0, 4)` and `start.slice(5, 7)` are the four-digit year and the two-digit month |
| `MonthlySales.MoveMonth` | chotu_dairy/src/pages/MonthlySales.js:73-77 | the corrected month step on a Date: the time value becomes ShiftMonthValue of the old one (same day held to the target month, time of day kept) |
| `MonthlySales.WrittenMoveMonth` | chotu_dairy/src/pages/MonthlySales.js:73-77 | as written: the Date's time value becomes `setMonth(getMonth() + dir)` of the old one, WrittenChangeMonth |
| `MonthlySales.FebruaryEveningStaysInMarch` | chotu_dairy/src/pages/MonthlySales.js:23-27 | 28 February 2023 at 20:00 on a UTC host is requested as March, and after the written "next month" the date 5h30 later is 29 March, so March is requested again |
| `MonthlySales.SetHeldDate` | chotu_dairy/src/pages/MonthlySales.js:75 | `setDate` to the day held to the Date's own month |
| `MonthlySales.MonthlyPage.constructor` | chotu_dairy/src/pages/MonthlySales.js:15-17 | the first render anchors at now, with an empty table and chart |
| `MonthlySales.MonthlyPage.ChangeMonth` | chotu_dairy/src/pages/MonthlySales.js:73-77 | the anchor becomes a fresh Date whose IST wall clock took the corrected month step, so the requested month moves by exactly `dir`; the lists are kept |
| `MonthlySales.MonthlyPage.Range` | chotu_dairy/src/pages/MonthlySales.js:51 | the page requests `getMonthRange` of its anchor |
| `MonthlySales.MonthlyPage.ApplyFetch` | chotu_dairy/src/pages/MonthlySales.js:48-61 | both responses are stored; when either request threw, the table is emptied and the chart kept |
| `MonthlySales.MonthlyPage.TotalMonthlySales` | chotu_dairy/src/pages/MonthlySales.js:67-70 | the total is the sum of the amounts, and 0 with no sales |
| `MonthlySales.MonthlyPage.TableRows` | chotu_dairy/src/pages/MonthlySales.js:132-140 | the rows are the sales in the backend's order, numbered from 1, with no sort |
| `MonthSteps.MonthStartParts` | chotu_dairy/src/pages/MonthlySales.js:32 | `new Date(year, month, 1)` reads back as the first of the month |
| `MonthSteps.MonthEndParts` | chotu_dairy/src/pages/MonthlySales.js:35 | `new Date(year, month + 1, 0)` reads back as the month's last day, December included |
| `MonthSteps.WrittenChangeMonthKeepsDay` | chotu_dairy/src/pages/MonthlySales.js:73-77 | as written, when the day exists in the target month, the month moves by dir and day and time are kept |
| `MonthSteps.WrittenChangeMonthOvershoots` | chotu_dairy/src/pages/MonthlySales.js:73-77 | as written, when the day does not exist there, the page lands one month further |
| `MonthSteps.JanuaryThirtyFirst` | chotu_dairy/src/pages/MonthlySales.js:15 | time value 1706659200000 is 31 January 2024 on a UTC host |
| `MonthSteps.JanuaryThirtyFirstSkipsFebruary` | chotu_dairy/src/pages/MonthlySales.js:73-77 | from 31 January 2024 the written "next month" is 2 March 2024 |
| `MonthSteps.TargetMonthIndex` | chotu_dairy/src/pages/MonthlySales.js:75 | `setMonth`'s target is month steps after January of the year |
| `MonthSteps.ShiftMonth` | chotu_dairy/src/pages/MonthlySales.js:73-77 | the corrected step moves the month by n and keeps the day, held to the target month's last day |
| `MonthSteps.ShiftMonthRoundTrip` | chotu_dairy/src/pages/MonthlySales.js:73-77 | n months on and n back returns to the date when the day existed on the way |
| `MonthSteps.HeldDay` | chotu_dairy/src/pages/MonthlySales.js:75 | the held day is the day itself or the month's length, whichever is smaller |
| `MonthSteps.SetHeldDate` | chotu_dairy/src/pages/MonthlySales.js:75 | the held `setDate` lands on the held day of the same month at the same time of day |
| `MonthSteps.MonthThenHeldDay` | chotu_dairy/src/pages/MonthlySales.js:75 | from the 1st, `setMonth` then the held `setDate` land on the held day of the target month |
| `MonthSteps.ShiftMonthValueDate` | chotu_dairy/src/pages/MonthlySales.js:73-77 | the corrected step moves the local date by ShiftMonth and keeps the time of day |
| `MonthSteps.IstShiftMonthValueDate` | chotu_dairy/src/pages/MonthlySales.js:23-27 | the corrected step taken on the IST wall clock moves the IST date by ShiftMonth, so the month the range is built from moves by exactly `dir` |
| `DailySale.Slices` | chotu_dairy/src/pages/DailySale.js:48-51 | one `{ name, value }` slice per sale, in order |
| `DailySale.DailyPage.constructor` | chotu_dairy/src/pages/DailySale.js:7-8 | the first render selects now, with an empty table |
| `DailySale.DailyPage.Query` | chotu_dairy/src/pages/DailySale.js:14-15 | the requested date is `YYYY-MM-DD` of the selected instant's IST date |
| `DailySale.DailyPage.ChangeDate` | chotu_dairy/src/pages/DailySale.js:30-34 | the selection becomes a fresh Date `days` days on, so the IST day moves by exactly `days` |
| `DailySale.DailyPage.ApplyFetch` | chotu_dairy/src/pages/DailySale.js:11-24 | the response is stored, or the table is emptied when the request threw |
| `DailySale.DailyPage.TotalSales` | chotu_dairy/src/pages/DailySale.js:36 | the total is the sum of the amounts, and 0 with no sales |
| `DailySale.DailyPage.TopSales` | chotu_dairy/src/pages/DailySale.js:45-51 | the pie holds min(5, n) slices of a sorted copy, in decreasing value, none smaller than any sale left out; the page's list is untouched; the sorted copy keeps the order of equal amounts |
| `DailySale.DailyPage.TableRows` | chotu_dairy/src/pages/DailySale.js:120-125 | the table sorts the list in place by amount, numbers the rows from 1 and keeps the total; sales with equal amounts keep their order |
| `YearlySales.ChartData` | chotu_dairy/src/pages/YearlySales.js:76 | the chart's data is the series itself, empty or not |
| `YearlySales.YearlyPage.constructor` | chotu_dairy/src/pages/YearlySales.js:16-18 | the first render shows the local year of now, with an empty table and chart |
| `YearlySales.YearlyPage.ChangeYear` | chotu_dairy/src/pages/YearlySales.js:42-44 | the year moves by dir; the lists are kept |
| `YearlySales.YearlyPage.ApplyFetch` | chotu_dairy/src/pages/YearlySales.js:21-33 | both responses are stored; when either request threw, the table is emptied and the chart kept |
| `YearlySales.YearlyPage.TotalYearlySales` | chotu_dairy/src/pages/YearlySales.js:39 | the total is the sum of the amounts, and 0 with no sales |
| `YearlySales.YearlyPage.TableRows` | chotu_dairy/src/pages/YearlySales.js:111-116 | the table sorts the list in place by amount, numbers the rows from 1 and keeps the total; sales with equal amounts keep their order |
| `AddSale.DigitRun` | chotu_dairy/src/pages/AddSale.js:112 | the leading digit run is all digits and stops at the first non-digit |
| `AddSale.DigitRunPrefix` | chotu_dairy/src/pages/AddSale.js:112 | digits followed by a non-digit are read up to that point |
| `AddSale.ParseIntPrefix` | chotu_dairy/src/pages/AddSale.js:112 | `parseInt` reads an integer's text back, and stops before a following non-digit such as ".5" |
| `AddSale.ParseIntRoundTrip` | chotu_dairy/src/pages/AddSale.js:112 | `parseInt(String(n))` is n |
| `AddSale.ParseIntLeadingPoint` | chotu_dairy/src/pages/AddSale.js:112 | `parseInt(".5")` is NaN |
| `AddSale.Options` | chotu_dairy/src/pages/AddSale.js:89-93 | one `{ value, label, price }` option per product, in order |
| `AddSale.OptionsInLabelOrder` | chotu_dairy/src/pages/AddSale.js:87-93 | options of a name-sorted list are in label order |
| `AddSale.SaleData` | chotu_dairy/src/pages/AddSale.js:109-117 | the request carries the option's label and id, the parsed quantity, price × quantity (present exactly when the quantity parses) and today's IST date |
| `AddSale.SaleDataForQuantity` | chotu_dairy/src/pages/AddSale.js:112-113 | typing q's digits sends quantity q and total price × q |
| `AddSale.MatchesEmpty` | chotu_dairy/src/pages/AddSale.js:240-242 | an empty search keeps every sale |
| `AddSale.SearchKeepsMatching` | chotu_dairy/src/pages/AddSale.js:240-242 | the search keeps every copy of each sale whose name contains the term, ignoring case, and nothing else |
| `AddSale.SearchKeepsNewestFirst` | chotu_dairy/src/pages/AddSale.js:238-242 | with distinct ids, the searched rows keep strictly decreasing ids |
| `AddSale.CountdownRows` | chotu_dairy/src/pages/AddSale.js:243-245 | one row per shown sale, in order |
| `AddSale.CountdownLabels` | chotu_dairy/src/pages/AddSale.js:245 | labels count down from the whole list's length even when the search hides rows, strictly decrease and stay within 1..length |
| `AddSale.SalePage.constructor` | chotu_dairy/src/pages/AddSale.js:7-13 | the page starts with no products, no sales, no selection and empty fields |
| `AddSale.SalePage.ApplyProducts` | chotu_dairy/src/pages/AddSale.js:48-58 | the products are stored, or kept when the request threw |
| `AddSale.SalePage.SalesQuery` | chotu_dairy/src/pages/AddSale.js:65-67 | today's sales are asked for by today's IST date as `YYYY-MM-DD` |
| `AddSale.SalePage.ApplySales` | chotu_dairy/src/pages/AddSale.js:62-76 | today's sales are stored, or kept when the request threw |
| `AddSale.SalePage.ProductOptions` | chotu_dairy/src/pages/AddSale.js:87-93 | the products are sorted in place by name (a permutation), and the options follow in label order; products with equal names keep their order |
| `AddSale.SalePage.Submit` | chotu_dairy/src/pages/AddSale.js:98-133 | an incomplete form alerts and sends nothing; otherwise `saleData` is sent and the outcome is that of Settle |
| `AddSale.SalePage.Settle` | chotu_dairy/src/pages/AddSale.js:119-132 | success clears the form and reloads; failure keeps the form and alerts |
| `AddSale.SalePage.TodayTotal` | chotu_dairy/src/pages/AddSale.js:138-141 | the total is the sum of the amounts, and 0 with no sales |
| `AddSale.SalePage.TableRows` | chotu_dairy/src/pages/AddSale.js:238-245 | the list is sorted in place newest first (a permutation); the matching sales are shown with countdown labels; the total is unchanged; sales with equal ids keep their order |
| `AddProducts.SortedByName` | chotu_dairy/src/pages/AddProducts.js:18-20 | sorting by name yields the same products in name order; equal names keep their order |
| `AddProducts.DeleteRemovesExactly` | chotu_dairy/src/pages/AddProducts.js:72 | a delete removes every product with that id and keeps every other copy |
| `AddProducts.DeleteKeepsNameOrder` | chotu_dairy/src/pages/AddProducts.js:72 | a delete keeps a name-ordered list in order |
| `AddProducts.SearchKeepsMatching` | chotu_dairy/src/pages/AddProducts.js:154-159 | the search keeps exactly the products whose name contains the term, ignoring case; an empty term keeps all |
| `AddProducts.ProductRows` | chotu_dairy/src/pages/AddProducts.js:160-162 | one row per shown product, numbered from 1 |
| `AddProducts.ProductRowsNumbered` | chotu_dairy/src/pages/AddProducts.js:162 | row numbers lie within 1..count and rise strictly |
| `AddProducts.ProductPage.constructor` | chotu_dairy/src/pages/AddProducts.js:7-10 | the page starts with no products and empty fields |
| `AddProducts.ProductPage.LoadProducts` | chotu_dairy/src/pages/AddProducts.js:14-27 | the fetched products are stored in name order, or kept when the request threw; equal names keep the backend's order |
| `AddProducts.ProductPage.AddProduct` | chotu_dairy/src/pages/AddProducts.js:33-61 | an empty field alerts and sends nothing; a success adds exactly the new product, re-sorts and clears; a failure keeps everything and alerts; the re-sort keeps the order of equal names |
| `AddProducts.ProductPage.DeleteProduct` | chotu_dairy/src/pages/AddProducts.js:64-91 | declined: nothing; 200: the product leaves; 400 (answered or thrown): kept, with the used-in-sales alert; other status: kept silently; other error: kept, with the failure alert |
| `AddProducts.ProductPage.TableRows` | chotu_dairy/src/pages/AddProducts.js:154-162 | the rows are exactly the listed products whose lower-cased name contains the lower-cased term, in list order, numbered from 1 |

## Left out

- The React machinery is not modelled: rendering, hooks, `useEffect` re-fetching and the asynchrony of `await`.
- Each fetch is split in two. The request's arguments are a function (`Query`, `Range`, `SalesQuery`). The response, or the fact that the request threw, is an input to `ApplyFetch`, `ApplySales`, `ApplyProducts` and `LoadProducts`.
- The loading flags (`loading`, `adding`, `submitting`, `loadingProducts`, `loadingSales`) are not modelled. They only switch spinners.
- `alert` and `window.confirm` appear as an output value and a boolean input. `console` output is not modelled.
- The backend (`api.js`), the dashboard, the header and footer, the chart library's drawing and `COLORS` are not modelled. `api.js` is not part of this model.
- Display-only formatting is not modelled: `toLocaleString("en-IN")` of totals, `toLocaleDateString` and `toLocaleString("default", { month: "long" })`.
- The host's time zone is a fixed offset. Daylight saving, historical zone rules and TimeClip's range limit are not modelled.
- `toLocaleString("en-CA", { timeZone: "Asia/Kolkata" }).split(",")[0]` is modelled as the IST date key `IstDates.IstDateKey`. That key is `toISOString().slice(0, 10)` of the instant 5h30 later. The two agree only for four-digit years from 15 October 1945 on. Before that, the Asia/Kolkata zone had other offsets (+06:30 during parts of 1941-1945, and other offsets before 1906), and en-CA writes years below 1000 with fewer digits; neither is modelled.
- Money and quantities are integers. `parseFloat` of the product price is not evaluated, so `NewProduct` carries the price text as typed. `selectedProduct.price * parseInt(quantity)` is integer multiplication.
- Every sale is taken to carry a numeric `total_price`. With that, `sale.total_price || 0` and `Number(sale.total_price)` are identities. A missing or string amount is not modelled.
- `localeCompare` is modelled as lexicographic comparison by code unit. `toLowerCase` lowers ASCII letters only.
- `parseInt` is modelled without leading white space and without the `0x` hexadecimal prefix. A number input never holds either.
- `WeeklySales.IstWeekRangeStart`, `WeeklySales.IstWeekRangeEnd`, `WeeklySales.FormatISTDate`, `MonthlySales.FormatDate`, `MonthlySales.MonthRangeStart`, `MonthlySales.MonthRangeEnd`, `MonthlySales.MonthRangeSameMonth` and `MonthlySales.GraphQueryIsYearAndMonth` state the `YYYY-MM-DD` layout only for four-digit years. Other years render with fewer digits or a sign.
- IstDates.IstDateKey: states the `YYYY-MM-DD` layout only for years 0..9999, where `toISOString` writes a four-digit year.
- DailySale.DailyPage.Query: states the layout only for years 0..9999, for the same reason.
- AddSale.SalePage.SalesQuery: states the layout only for years 0..9999, for the same reason.
- MonthlySales.MoveMonth: models the corrected held-day step, not `setMonth(getMonth() + dir)` as written (see Findings). The step as written is `MonthlySales.WrittenMoveMonth`, specified by `MonthSteps.WrittenChangeMonth`.
- MonthlySales.MonthlyPage.ChangeMonth: models the corrected step taken on the IST wall clock (see Findings). The step as written moves the host-local date; it is `MonthlySales.WrittenMoveMonth`.
- WeeklySales.WeeklyPage.Range: models the corrected IST week (see Findings). The range as written is `WeeklySales.GetWeekRange`.

## Findings

The weekly page says, in a comment on `getWeekRange`
(chotu_dairy/src/pages/WeeklySales.js:29), that it takes the Sunday and
Saturday of a date in IST. The monthly page builds its range from the date
5h30 later, so in IST too (chotu_dairy/src/pages/MonthlySales.js:21-27), and
its arrows (chotu_dairy/src/pages/MonthlySales.js:72-77) step that month by
one. The rows below show inputs where the code does something else. Each
row's as-written member models the code as it stands. The page classes use
the corrected definitions: `WeeklyPage.Range` reports the IST week, and
`MonthlyPage.ChangeMonth` takes the held-day step on the IST wall clock.

| source | as written | input that shows it | evidently intended | confidence | as-written member | corrected member |
|---|---|---|---|---|---|---|
| chotu_dairy/src/pages/WeeklySales.js:30-37 | `getWeekRange` takes the weekday in host-local time but formats dates 5h30 later, so from 18:30 local time the reported week runs Monday to Sunday | Saturday 16 March 2024, 19:00 UTC, on a UTC host (time value 1710615600000): the range starts on Monday "2024-03-11" | the Sunday-to-Saturday IST week holding the instant: 2024-03-17 to 2024-03-23 | not executed; proved about the model | `WeeklySales.SaturdayEveningStartsOnMonday` | `WeeklySales.IstWeekStart` |
| chotu_dairy/src/pages/MonthlySales.js:73-77 | `changeMonth` calls `setMonth(getMonth() + dir)` on a copy, keeping the day of the month, so a day missing from the target month overflows into the next | 31 January 2024, 00:00 UTC, on a UTC host (time value 1706659200000), `changeMonth(1)`: the page lands on 2 March 2024 and skips February | the same day of the next month, held to its last day: 29 February 2024 | not executed; proved about the model | `MonthSteps.JanuaryThirtyFirstSkipsFebruary` | `MonthSteps.ShiftMonth` |
| chotu_dairy/src/pages/MonthlySales.js:73-77 | `changeMonth` moves the host-local date, while `getMonthRange` (lines 23-27) reads the month 5h30 later, so late in a month's last day the arrow can leave the requested month unchanged | 28 February 2023, 20:00 UTC, on a UTC host (time value 1677614400000): March is requested; `changeMonth(1)` moves to 28 March 20:00, which is 29 March in IST, so March is requested again | the requested (IST) month moves by exactly `dir`: April | not executed; proved about the model | `MonthlySales.FebruaryEveningStaysInMarch` | `MonthSteps.IstShiftMonthValueDate` |
