/** The coupon-usage history table (`src/Pages/CouponHistoryTable.js`): four
    filters applied one after another to the fetched rows, and the CSV export of
    whatever they leave. */
module CouponHistory {
  import opened Wrappers
  import opened Seqs
  import opened Text

  /** A field value as the API sends it: a string or `null`. */
  datatype JsValue = Str(text: string) | Null

  datatype Field = Field(key: string, value: JsValue)

  /** One history row: a JSON object, its fields in the order `Object.keys` lists
      them (for keys that are not integer-like, the insertion order). */
  datatype Row = Row(fields: seq<Field>)

  /** The four filter inputs; the empty string means "not set". */
  datatype HistoryFilters = HistoryFilters(customerId: string, couponId: string, fromDate: string, toDate: string)

  /** `new Date(text)` as a time value; `None` is an Invalid Date. Supplied by the
      caller, since parsing depends on the host. */
  type DateParser = string -> Option<int>

  const CustomerKey: string := "Customer_ID"
  const CouponKey: string := "Coupon_ID"
  const DateKey: string := "Coupon_Download_Date"

  /** `row[key]`: the value of the first field named `key`, if any. */
  function Lookup(row: Row, key: string): (r: Option<JsValue>)
    ensures r.Some? <==> exists i :: 0 <= i < |row.fields| && row.fields[i].key == key
    ensures r.Some? ==> Field(key, r.value) in row.fields
    decreases |row.fields|
  {
    if |row.fields| == 0 then None
    else if row.fields[0].key == key then Some(row.fields[0].value)
    else
      var r := Lookup(Row(row.fields[1..]), key);
      assert forall i :: 1 <= i < |row.fields| ==> row.fields[i] == row.fields[1..][i - 1];
      r
  }

  /** A row parsed from JSON names each key once. */
  predicate DistinctKeys(row: Row) {
    forall i, j :: 0 <= i < j < |row.fields| ==> row.fields[i].key != row.fields[j].key
  }

  /** On such a row `Lookup` is the object's property access: the value of the one
      field with that key. */
  lemma LookupDistinct(row: Row, key: string, i: nat)
    requires DistinctKeys(row) && i < |row.fields| && row.fields[i].key == key
    ensures Lookup(row, key) == Some(row.fields[i].value)
  {
  }

  /** `row[key]?.toLowerCase().includes(needle.toLowerCase())`: a missing or null
      field never matches. */
  predicate FieldContains(row: Row, key: string, needle: string) {
    var v := Lookup(row, key);
    v.Some? && v.value.Str? && Contains(ToLower(v.value.text), ToLower(needle))
  }

  /** `new Date(row.Coupon_Download_Date)`: a missing field is an Invalid Date and
      `null` is the epoch. */
  function DownloadTime(row: Row, parse: DateParser): Option<int> {
    match Lookup(row, DateKey)
    case None => None
    case Some(Null) => Some(0)
    case Some(Str(s)) => parse(s)
  }

  /** Date comparison: any comparison involving an Invalid Date (NaN) is false. */
  predicate AtLeast(x: Option<int>, y: Option<int>) { x.Some? && y.Some? && x.value >= y.value }

  predicate AtMost(x: Option<int>, y: Option<int>) { x.Some? && y.Some? && x.value <= y.value }

  datatype Criterion = ByCustomer | ByCoupon | FromDate | ToDate

  const AllCriteria: seq<Criterion> := [ByCustomer, ByCoupon, FromDate, ToDate]

  /** A criterion constrains only when its input is non-empty. */
  predicate Active(c: Criterion, f: HistoryFilters) {
    match c
    case ByCustomer => f.customerId != ""
    case ByCoupon => f.couponId != ""
    case FromDate => f.fromDate != ""
    case ToDate => f.toDate != ""
  }

  /** The test an active criterion applies to a row. */
  predicate Test(c: Criterion, f: HistoryFilters, parse: DateParser, row: Row) {
    match c
    case ByCustomer => FieldContains(row, CustomerKey, f.customerId)
    case ByCoupon => FieldContains(row, CouponKey, f.couponId)
    case FromDate => AtLeast(DownloadTime(row, parse), parse(f.fromDate))
    case ToDate => AtMost(DownloadTime(row, parse), parse(f.toDate))
  }

  predicate Holds(c: Criterion, f: HistoryFilters, parse: DateParser, row: Row) {
    !Active(c, f) || Test(c, f, parse, row)
  }

  /** The rows the history table should show: every criterion holds. */
  predicate KeepRow(f: HistoryFilters, parse: DateParser, row: Row) {
    && Holds(ByCustomer, f, parse, row)
    && Holds(ByCoupon, f, parse, row)
    && Holds(FromDate, f, parse, row)
    && Holds(ToDate, f, parse, row)
  }

  /** One `if (input) data = data.filter(...)` step. */
  function Step(data: seq<Row>, c: Criterion, f: HistoryFilters, parse: DateParser): seq<Row> {
    if Active(c, f) then Filter(data, d => Test(c, f, parse, d)) else data
  }

  /** The filter effect: customer id, coupon id, from-date, to-date, in that order. */
  function FilterHistory(history: seq<Row>, f: HistoryFilters, parse: DateParser): seq<Row> {
    var byCustomer := Step(history, ByCustomer, f, parse);
    var byCoupon := Step(byCustomer, ByCoupon, f, parse);
    var from := Step(byCoupon, FromDate, f, parse);
    Step(from, ToDate, f, parse)
  }

  /** The filters applied in any given order. */
  function ApplyInOrder(data: seq<Row>, order: seq<Criterion>, f: HistoryFilters, parse: DateParser): seq<Row>
    decreases |order|
  {
    if |order| == 0 then data else ApplyInOrder(Step(data, order[0], f, parse), order[1..], f, parse)
  }

  /** Every criterion of `order` holds of `row`. */
  predicate AllHold(order: seq<Criterion>, f: HistoryFilters, parse: DateParser, row: Row)
    decreases |order|
  {
    |order| == 0 || (Holds(order[0], f, parse, row) && AllHold(order[1..], f, parse, row))
  }

  lemma {:induction false} AllHoldEach(order: seq<Criterion>, f: HistoryFilters, parse: DateParser, row: Row)
    ensures AllHold(order, f, parse, row) <==> forall c :: c in order ==> Holds(c, f, parse, row)
    decreases |order|
  {
    if |order| > 0 {
      AllHoldEach(order[1..], f, parse, row);
      assert forall c :: c in order <==> c == order[0] || c in order[1..];
    }
  }

  /** A skipped step and a step with an always-true test are the same. */
  lemma StepIsFilter(data: seq<Row>, c: Criterion, f: HistoryFilters, parse: DateParser)
    ensures Step(data, c, f, parse) == Filter(data, d => Holds(c, f, parse, d))
  {
    if Active(c, f) {
      FilterCongruent(data, d => Test(c, f, parse, d), d => Holds(c, f, parse, d));
    } else {
      FilterAll(data, d => Holds(c, f, parse, d));
    }
  }

  /** Applying the criteria in a sequence keeps exactly the rows all of them accept. */
  lemma {:induction false} ApplyInOrderIsConjunction(data: seq<Row>, order: seq<Criterion>, f: HistoryFilters, parse: DateParser)
    ensures ApplyInOrder(data, order, f, parse) == Filter(data, d => AllHold(order, f, parse, d))
    decreases |order|
  {
    if |order| == 0 {
      FilterAll(data, d => AllHold(order, f, parse, d));
    } else {
      var c := order[0];
      var stepped := Step(data, c, f, parse);
      StepIsFilter(data, c, f, parse);
      ApplyInOrderIsConjunction(stepped, order[1..], f, parse);
      FilterTwice(data, d => Holds(c, f, parse, d), d => AllHold(order[1..], f, parse, d),
        d => AllHold(order, f, parse, d));
    }
  }

  /** The four filters combine by AND, whatever order they are applied in: any
      order that includes every criterion keeps exactly the rows `KeepRow` accepts. */
  lemma OrderDoesNotMatter(history: seq<Row>, order: seq<Criterion>, f: HistoryFilters, parse: DateParser)
    requires forall c: Criterion :: c in order
    ensures ApplyInOrder(history, order, f, parse) == Filter(history, d => KeepRow(f, parse, d))
  {
    ApplyInOrderIsConjunction(history, order, f, parse);
    forall d | d in history ensures AllHold(order, f, parse, d) == KeepRow(f, parse, d) {
      AllHoldEach(order, f, parse, d);
      assert ByCustomer in order && ByCoupon in order && FromDate in order && ToDate in order;
    }
    FilterCongruent(history, d => AllHold(order, f, parse, d), d => KeepRow(f, parse, d));
  }

  /** The effect as written is the criteria applied in the order of the source. */
  lemma FilterHistoryIsSourceOrder(history: seq<Row>, f: HistoryFilters, parse: DateParser)
    ensures FilterHistory(history, f, parse) == ApplyInOrder(history, AllCriteria, f, parse)
  {
    var d1 := Step(history, ByCustomer, f, parse);
    var d2 := Step(d1, ByCoupon, f, parse);
    var d3 := Step(d2, FromDate, f, parse);
    var d4 := Step(d3, ToDate, f, parse);
    assert AllCriteria[1..] == [ByCoupon, FromDate, ToDate];
    assert AllCriteria[1..][1..] == [FromDate, ToDate];
    assert AllCriteria[1..][1..][1..] == [ToDate];
    assert ApplyInOrder(d3, [ToDate], f, parse) == ApplyInOrder(d4, [], f, parse) == d4;
    assert ApplyInOrder(d2, [FromDate, ToDate], f, parse) == d4;
    assert ApplyInOrder(d1, [ByCoupon, FromDate, ToDate], f, parse) == d4;
  }

  /** The effect as written keeps exactly the rows `KeepRow` accepts. */
  lemma FilterHistoryIsConjunction(history: seq<Row>, f: HistoryFilters, parse: DateParser)
    ensures FilterHistory(history, f, parse) == Filter(history, d => KeepRow(f, parse, d))
  {
    FilterHistoryIsSourceOrder(history, f, parse);
    forall c: Criterion ensures c in AllCriteria {
      match c
      case ByCustomer => assert AllCriteria[0] == c;
      case ByCoupon => assert AllCriteria[1] == c;
      case FromDate => assert AllCriteria[2] == c;
      case ToDate => assert AllCriteria[3] == c;
    }
    OrderDoesNotMatter(history, AllCriteria, f, parse);
  }

  /** The table shows the subsequence of the history made of exactly the rows
      `KeepRow` accepts, in the original order. */
  lemma FilterHistoryKeepsMatchingRows(history: seq<Row>, f: HistoryFilters, parse: DateParser)
    ensures exists idx :: (SubsequenceBy(FilterHistory(history, f, parse), history, idx)
      && forall j :: 0 <= j < |history| ==> (j in idx <==> KeepRow(f, parse, history[j])))
  {
    FilterHistoryIsConjunction(history, f, parse);
    var p := d => KeepRow(f, parse, d);
    FilterPositions(history, p);
    var idx := KeptFrom(history, p, 0);
    assert SubsequenceBy(FilterHistory(history, f, parse), history, idx);
  }

  /** With every input empty the table shows the whole history. */
  lemma EmptyFiltersKeepAll(history: seq<Row>, parse: DateParser)
    ensures FilterHistory(history, HistoryFilters("", "", "", ""), parse) == history
  {
  }

  /** A set customer id keeps a row only if its `Customer_ID` is a string containing
      the input, ignoring case; the other criteria are then applied on top. */
  lemma CustomerFilterDropsMissing(history: seq<Row>, f: HistoryFilters, parse: DateParser, row: Row)
    requires f.customerId != "" && row in FilterHistory(history, f, parse)
    ensures row in history
    ensures Lookup(row, CustomerKey).Some? && Lookup(row, CustomerKey).value.Str?
    ensures Contains(ToLower(Lookup(row, CustomerKey).value.text), ToLower(f.customerId))
  {
    FilterHistoryIsConjunction(history, f, parse);
    FilterMembers(history, d => KeepRow(f, parse, d));
  }

  /** The date bounds are inclusive: a row dated exactly on `fromDate` and `toDate`
      passes both. */
  lemma DateBoundsInclusive(row: Row, f: HistoryFilters, parse: DateParser)
    requires f.fromDate != "" && f.toDate != ""
    requires DownloadTime(row, parse).Some? && DownloadTime(row, parse) == parse(f.fromDate) == parse(f.toDate)
    ensures Holds(FromDate, f, parse, row) && Holds(ToDate, f, parse, row)
  {
  }

  // ------------------------------------------------------------------ CSV export

  function Keys(row: Row): (r: seq<string>)
    ensures |r| == |row.fields|
    ensures forall i :: 0 <= i < |row.fields| ==> r[i] == row.fields[i].key
  {
    seq(|row.fields|, i requires 0 <= i < |row.fields| => row.fields[i].key)
  }

  /** `"${v ?? ""}"`: the value between double quotes, `null` as nothing. */
  function Quoted(v: JsValue): (r: string)
    ensures |r| >= 2 && r[0] == '"' && r[|r| - 1] == '"'
    ensures v.Null? ==> r == "\"\""
    ensures v.Str? ==> r[1..|r| - 1] == v.text
  {
    "\"" + (match v case Str(s) => s case Null => "") + "\""
  }

  function QuotedValues(row: Row): (r: seq<string>)
    ensures |r| == |row.fields|
    ensures forall i :: 0 <= i < |row.fields| ==> r[i] == Quoted(row.fields[i].value)
  {
    seq(|row.fields|, i requires 0 <= i < |row.fields| => Quoted(row.fields[i].value))
  }

  function RowLine(row: Row): string { Join(QuotedValues(row), ",") }

  /** `exportCSV`: nothing for an empty table; otherwise the first row's keys, then
      one line of quoted values per row, joined by newlines. */
  function HistoryCsv(filtered: seq<Row>): (r: Option<string>)
    ensures r.Some? <==> |filtered| > 0
  {
    if |filtered| == 0 then None
    else
      var lines := seq(|filtered|, i requires 0 <= i < |filtered| => RowLine(filtered[i]));
      Some(Join([Join(Keys(filtered[0]), ",")] + lines, "\n"))
  }

  predicate NoNewlines(row: Row) {
    forall i :: 0 <= i < |row.fields| ==>
      '\n' !in row.fields[i].key && (row.fields[i].value.Str? ==> '\n' !in row.fields[i].value.text)
  }

  /** When no key or value contains a newline, the export splits into the header
      line of the first row's keys followed by one line per row, in order. */
  lemma HistoryCsvLines(filtered: seq<Row>)
    requires |filtered| > 0
    requires forall i :: 0 <= i < |filtered| ==> NoNewlines(filtered[i])
    ensures var lines := Split(HistoryCsv(filtered).value, '\n');
      && |lines| == |filtered| + 1
      && lines[0] == Join(Keys(filtered[0]), ",")
      && forall i :: 0 <= i < |filtered| ==> lines[i + 1] == RowLine(filtered[i])
  {
    var rows := seq(|filtered|, i requires 0 <= i < |filtered| => RowLine(filtered[i]));
    var all := [Join(Keys(filtered[0]), ",")] + rows;
    LineFree(filtered[0]);
    forall i | 0 <= i < |filtered| ensures '\n' !in rows[i] {
      LineFree(filtered[i]);
    }
    SplitJoin(all, '\n');
  }

  /** A row without newlines gives a header line and a value line without them. */
  lemma LineFree(row: Row)
    requires NoNewlines(row)
    ensures '\n' !in Join(Keys(row), ",") && '\n' !in RowLine(row)
  {
    JoinFree(Keys(row), ",", '\n');
    forall j | 0 <= j < |row.fields| ensures '\n' !in QuotedValues(row)[j] {
      assert QuotedValues(row)[j] == Quoted(row.fields[j].value);
    }
    JoinFree(QuotedValues(row), ",", '\n');
  }
}
