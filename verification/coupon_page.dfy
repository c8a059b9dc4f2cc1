/** The coupon list page (`src/Pages/CouponPage.js`): the search/status/category
    filter, 5-per-page pagination with Previous/Next buttons, the CSV export, the
    required-field check of the edit dialog and the capitalised status label. */
module CouponPage {
  import opened Wrappers
  import opened Seqs
  import opened Text

  /** Rows per page (`PAGE_SIZE`). */
  const PageSize: nat := 5

  /** A coupon as returned by the vendor API; every field may be absent. Numeric
      fields are carried in their rendered text form. */
  datatype Coupon = Coupon(
    id: Option<string>,
    name: Option<string>,
    couponCode: Option<string>,
    category: Option<string>,
    status: Option<string>,
    discountPercentage: Option<string>,
    requiredCoins: Option<string>,
    validityDate: Option<string>)

  /** The search box and the two select boxes. */
  datatype Filters = Filters(search: string, status: string, category: string)

  /** The value of the "All Status" / "All Categories" options. */
  const AnyValue: string := "all"

  const InitialFilters: Filters := Filters("", AnyValue, AnyValue)

  // ---------------------------------------------------------------- filtering

  /** `field?.toLowerCase().includes(search.toLowerCase())`; an absent field never matches. */
  predicate FieldMatches(field: Option<string>, search: string) {
    field.Some? && Contains(ToLower(field.value), ToLower(search))
  }

  predicate MatchesSearch(c: Coupon, search: string) {
    FieldMatches(c.name, search) || FieldMatches(c.couponCode, search)
  }

  predicate MatchesStatus(c: Coupon, status: string) {
    status == AnyValue || c.status == Some(status)
  }

  predicate MatchesCategory(c: Coupon, category: string) {
    category == AnyValue || c.category == Some(category)
  }

  predicate Keep(f: Filters, c: Coupon) {
    MatchesSearch(c, f.search) && MatchesStatus(c, f.status) && MatchesCategory(c, f.category)
  }

  /** `filteredCoupons`: the coupons passing all three filters. */
  function FilteredCoupons(coupons: seq<Coupon>, f: Filters): (r: seq<Coupon>)
    ensures |r| <= |coupons|
    ensures forall k :: 0 <= k < |r| ==>
      r[k] in coupons && MatchesSearch(r[k], f.search) && MatchesStatus(r[k], f.status)
      && MatchesCategory(r[k], f.category)
    ensures forall i :: 0 <= i < |coupons| && MatchesSearch(coupons[i], f.search) ==>
      (MatchesStatus(coupons[i], f.status) && MatchesCategory(coupons[i], f.category) ==> coupons[i] in r)
  {
    FilterMembers(coupons, c => Keep(f, c));
    Filter(coupons, c => Keep(f, c))
  }

  /** The filtered list is the subsequence of `coupons` made of exactly the
      positions whose coupon passes the three filters, in the original order. */
  lemma FilteredCouponsArePositions(coupons: seq<Coupon>, f: Filters)
    ensures exists idx :: (SubsequenceBy(FilteredCoupons(coupons, f), coupons, idx)
      && forall j :: 0 <= j < |coupons| ==> (j in idx <==> Keep(f, coupons[j])))
  {
    var p := c => Keep(f, c);
    FilterPositions(coupons, p);
    var idx := KeptFrom(coupons, p, 0);
    assert FilteredCoupons(coupons, f) == Filter(coupons, p);
    assert forall j :: 0 <= j < |coupons| ==> (j in idx <==> Keep(f, coupons[j]));
  }

  /** An empty search matches every coupon that has a name or a code, and still
      excludes a coupon that has neither. */
  lemma EmptySearch(c: Coupon)
    ensures MatchesSearch(c, "") <==> c.name.Some? || c.couponCode.Some?
  {
    if c.name.Some? { ContainsEmpty(ToLower(c.name.value)); }
    if c.couponCode.Some? { ContainsEmpty(ToLower(c.couponCode.value)); }
  }

  /** The options of the category select: each category of the loaded coupons once,
      in order of first appearance (an absent category included). */
  function CategoryOptions(coupons: seq<Coupon>): (r: seq<Option<string>>)
    ensures NoDuplicates(r)
    ensures forall k :: 0 <= k < |r| ==> exists i :: 0 <= i < |coupons| && coupons[i].category == r[k]
    ensures forall i :: 0 <= i < |coupons| ==> coupons[i].category in r
  {
    var cats := seq(|coupons|, i requires 0 <= i < |coupons| => coupons[i].category);
    var r := Distinct(cats);
    assert forall k :: 0 <= k < |r| ==> exists i :: 0 <= i < |cats| && cats[i] == r[k];
    forall i | 0 <= i < |coupons| ensures coupons[i].category in r {
      assert cats[i] == coupons[i].category;
    }
    r
  }

  // --------------------------------------------------------------- pagination

  /** `Math.ceil(n / PAGE_SIZE)`; zero for an empty list. */
  function TotalPages(n: nat): (t: nat)
    ensures n <= t * PageSize
    ensures t > 0 ==> (t - 1) * PageSize < n
    ensures t == 0 <==> n == 0
  {
    (n + PageSize - 1) / PageSize
  }

  /** `filtered.slice((page - 1) * PAGE_SIZE, page * PAGE_SIZE)`. */
  function Paginate<T>(filtered: seq<T>, page: int): (r: seq<T>)
    ensures page >= 1 ==> |r| <= PageSize
    ensures page >= 1 && (page - 1) * PageSize < |filtered| ==>
      r == filtered[(page - 1) * PageSize..Min(page * PageSize, |filtered|)]
    ensures page >= 1 && (page - 1) * PageSize >= |filtered| ==> r == []
  {
    Slice(filtered, (page - 1) * PageSize, page * PageSize)
  }

  /** Pages 1..k laid end to end. */
  function PagesUpTo<T>(filtered: seq<T>, k: nat): seq<T>
  {
    if k == 0 then [] else PagesUpTo(filtered, k - 1) + Paginate(filtered, k)
  }

  lemma {:induction false} PagesUpToIsPrefix<T>(filtered: seq<T>, k: nat)
    ensures PagesUpTo(filtered, k) == filtered[..Min(k * PageSize, |filtered|)]
  {
    if k > 0 {
      PagesUpToIsPrefix(filtered, k - 1);
      var a := Min((k - 1) * PageSize, |filtered|);
      var b := Min(k * PageSize, |filtered|);
      assert filtered[..b] == filtered[..a] + filtered[a..b];
    }
  }

  /** Concatenating pages 1..TotalPages gives back exactly the filtered list. */
  lemma PagesCoverFiltered<T>(filtered: seq<T>)
    ensures PagesUpTo(filtered, TotalPages(|filtered|)) == filtered
  {
    PagesUpToIsPrefix(filtered, TotalPages(|filtered|));
  }

  // ------------------------------------------------------------ the page state

  /** What the page holds: the last fetch result, the filters and the page number. */
  datatype View = View(coupons: seq<Coupon>, filters: Filters, page: int)

  const InitialView: View := View([], InitialFilters, 1)

  function Filtered(v: View): seq<Coupon> { FilteredCoupons(v.coupons, v.filters) }

  function Total(v: View): nat { TotalPages(|Filtered(v)|) }

  /** The rows on screen. */
  function Shown(v: View): seq<Coupon> { Paginate(Filtered(v), v.page) }

  /** A completed fetch (initial load, Refresh, or after an update or delete)
      replaces the coupons and leaves the page number alone. */
  function Loaded(v: View, fetched: seq<Coupon>): (w: View)
    ensures w.coupons == fetched && w.filters == v.filters && w.page == v.page
  {
    v.(coupons := fetched)
  }

  /** Typing in the search box. */
  function SetSearch(v: View, search: string): (w: View)
    ensures w.filters.search == search && w.page == 1 && w.coupons == v.coupons
    ensures w.filters.status == v.filters.status && w.filters.category == v.filters.category
    ensures Shown(w) == Filtered(w)[..Min(PageSize, |Filtered(w)|)]
  {
    v.(filters := v.filters.(search := search), page := 1)
  }

  /** Choosing a status. */
  function SetStatusFilter(v: View, status: string): (w: View)
    ensures w.filters.status == status && w.page == 1 && w.coupons == v.coupons
    ensures w.filters.search == v.filters.search && w.filters.category == v.filters.category
    ensures Shown(w) == Filtered(w)[..Min(PageSize, |Filtered(w)|)]
  {
    v.(filters := v.filters.(status := status), page := 1)
  }

  /** Choosing a category. */
  function SetCategoryFilter(v: View, category: string): (w: View)
    ensures w.filters.category == category && w.page == 1 && w.coupons == v.coupons
    ensures w.filters.search == v.filters.search && w.filters.status == v.filters.status
    ensures Shown(w) == Filtered(w)[..Min(PageSize, |Filtered(w)|)]
  {
    v.(filters := v.filters.(category := category), page := 1)
  }

  /** The Previous/Next controls are rendered only when there is more than one page. */
  predicate PaginationShown(v: View) { Total(v) > 1 }

  predicate PrevDisabled(v: View) { v.page == 1 }

  /** The Next button's guard as written: `page === totalPages`. */
  predicate NextDisabledAsWritten(v: View) { v.page == Total(v) }

  /** The guard Next evidently needs: no page after the last one. */
  predicate NextDisabled(v: View) { v.page >= Total(v) }

  predicate PageInRange(v: View) { 1 <= v.page && (v.page <= Total(v) || v.page == 1) }

  /** Clicking Previous; a hidden or disabled button does nothing. */
  function ClickPrev(v: View): (w: View)
    ensures PageInRange(v) ==> PageInRange(w)
    ensures w.coupons == v.coupons && w.filters == v.filters
  {
    if PaginationShown(v) && !PrevDisabled(v) then v.(page := v.page - 1) else v
  }

  /** Clicking Next with the button as written: it stays enabled past the last page. */
  function ClickNextAsWritten(v: View): View
  {
    if PaginationShown(v) && !NextDisabledAsWritten(v) then v.(page := v.page + 1) else v
  }

  /** Clicking Next with the corrected guard. */
  function ClickNext(v: View): (w: View)
    ensures PageInRange(v) ==> PageInRange(w)
    ensures w.page > v.page ==> w.page <= Total(w)
    ensures w.coupons == v.coupons && w.filters == v.filters
  {
    if PaginationShown(v) && !NextDisabled(v) then v.(page := v.page + 1) else v
  }

  /** While the page number is in range the written guard and the corrected one agree. */
  lemma NextGuardsAgreeInRange(v: View)
    requires PageInRange(v) && PaginationShown(v)
    ensures NextDisabledAsWritten(v) <==> NextDisabled(v)
    ensures ClickNextAsWritten(v) == ClickNext(v)
  {
  }

  datatype PagerClick = PrevClick | NextClick

  /** A run of clicks on the (corrected) pager buttons, in order. */
  function Press(v: View, clicks: seq<PagerClick>): (w: View)
    ensures w.coupons == v.coupons && w.filters == v.filters
    decreases |clicks|
  {
    if |clicks| == 0 then v
    else Press(if clicks[0].PrevClick? then ClickPrev(v) else ClickNext(v), clicks[1..])
  }

  /** No run of pager clicks takes an in-range page out of range. */
  lemma {:induction false} PagerKeepsPageInRange(v: View, clicks: seq<PagerClick>)
    requires PageInRange(v)
    ensures PageInRange(Press(v, clicks))
    decreases |clicks|
  {
    if |clicks| > 0 {
      PagerKeepsPageInRange(if clicks[0].PrevClick? then ClickPrev(v) else ClickNext(v), clicks[1..]);
    }
  }

  /** A run of clicks with the Next button as written. */
  function PressAsWritten(v: View, clicks: seq<PagerClick>): View
    decreases |clicks|
  {
    if |clicks| == 0 then v
    else PressAsWritten(if clicks[0].PrevClick? then ClickPrev(v) else ClickNextAsWritten(v), clicks[1..])
  }

  /** From an in-range page the written guard never differs from the corrected one,
      so any run of clicks ends on the same view either way. */
  lemma {:induction false} PagerAsWrittenAgrees(v: View, clicks: seq<PagerClick>)
    requires PageInRange(v)
    ensures PressAsWritten(v, clicks) == Press(v, clicks)
    decreases |clicks|
  {
    if |clicks| > 0 {
      if PaginationShown(v) {
        NextGuardsAgreeInRange(v);
      }
      assert ClickNextAsWritten(v) == ClickNext(v);
      PagerAsWrittenAgrees(if clicks[0].PrevClick? then ClickPrev(v) else ClickNext(v), clicks[1..]);
    }
  }

  /** After any filter change, whatever the user then clicks on the pager, the page
      stays in range, with either Next guard: only a refetch can move the list under
      the page. */
  lemma FilterChangeThenPagerInRange(v: View, search: string, status: string, category: string, clicks: seq<PagerClick>)
    ensures PageInRange(Press(SetSearch(v, search), clicks))
    ensures PageInRange(Press(SetStatusFilter(v, status), clicks))
    ensures PageInRange(Press(SetCategoryFilter(v, category), clicks))
    ensures PageInRange(PressAsWritten(SetSearch(v, search), clicks))
    ensures PageInRange(PressAsWritten(SetStatusFilter(v, status), clicks))
    ensures PageInRange(PressAsWritten(SetCategoryFilter(v, category), clicks))
  {
    PagerKeepsPageInRange(SetSearch(v, search), clicks);
    PagerKeepsPageInRange(SetStatusFilter(v, status), clicks);
    PagerKeepsPageInRange(SetCategoryFilter(v, category), clicks);
    PagerAsWrittenAgrees(SetSearch(v, search), clicks);
    PagerAsWrittenAgrees(SetStatusFilter(v, status), clicks);
    PagerAsWrittenAgrees(SetCategoryFilter(v, category), clicks);
  }

  /** With the initial filters every coupon that has a name or a code is kept, so
      such a list is shown whole and in order. */
  lemma InitialKeepsNamed(coupons: seq<Coupon>)
    requires forall i :: 0 <= i < |coupons| ==> coupons[i].name.Some? || coupons[i].couponCode.Some?
    ensures FilteredCoupons(coupons, InitialFilters) == coupons
  {
    forall i | 0 <= i < |coupons| ensures Keep(InitialFilters, coupons[i]) {
      EmptySearch(coupons[i]);
    }
    FilterAll(coupons, c => Keep(InitialFilters, c));
  }

  /** A coupon with only a name; the initial filters keep it. */
  const Sample: Coupon := Coupon(None, Some("a"), None, None, None, None, None, None)

  function Copies(n: nat): seq<Coupon> { seq(n, _ => Sample) }

  lemma CopiesKept(n: nat)
    ensures FilteredCoupons(Copies(n), InitialFilters) == Copies(n)
  {
    assert forall i :: 0 <= i < n ==> Copies(n)[i].name.Some?;
    InitialKeepsNamed(Copies(n));
  }

  /** With 11 matching coupons the user pages to page 3 of 3; a refresh that
      returns 10 leaves the page at 3 of 2, where the written Next button is still
      enabled and moves on to page 4, an empty page beyond the list. */
  lemma NextEscapesAfterShrinkingRefresh()
    ensures var v := View(Copies(11), InitialFilters, 3);
      var w := Loaded(v, Copies(10));
      && PageInRange(v) && !PageInRange(w)
      && PaginationShown(w) && !NextDisabledAsWritten(w)
      && ClickNextAsWritten(w).page == 4 && Shown(ClickNextAsWritten(w)) == []
  {
    var v := View(Copies(11), InitialFilters, 3);
    var w := Loaded(v, Copies(10));
    CopiesKept(11);
    CopiesKept(10);
    assert |Filtered(v)| == 11;
    assert |Filtered(w)| == 10;
    assert Total(v) == 3 by { assert TotalPages(11) == 3; }
    assert Total(w) == 2 by { assert TotalPages(10) == 2; }
    var u := ClickNextAsWritten(w);
    assert u == w.(page := 4);
    assert Filtered(u) == Filtered(w);
    assert Shown(u) == Paginate(Filtered(w), 4);
  }

  // ------------------------------------------------------------------ CSV export

  const CsvHeaders: seq<string> := ["Name", "Category", "Discount %", "Coins", "Code", "Status", "Validity"]

  /** `Array.prototype.join` renders `null` and `undefined` as the empty string. */
  function Cell(v: Option<string>): string { v.GetOr("") }

  /** The seven cells of one coupon, each under its header; `localeDate` stands for
      `new Date(validityDate).toLocaleDateString()`. */
  function CsvCells(c: Coupon, localeDate: Option<string> -> string): (r: seq<string>)
    ensures |r| == |CsvHeaders|
    ensures CsvHeaders[0] == "Name" && r[0] == c.name.GetOr("")
    ensures CsvHeaders[1] == "Category" && r[1] == c.category.GetOr("")
    ensures CsvHeaders[2] == "Discount %" && r[2] == c.discountPercentage.GetOr("")
    ensures CsvHeaders[3] == "Coins" && r[3] == c.requiredCoins.GetOr("")
    ensures CsvHeaders[4] == "Code" && r[4] == c.couponCode.GetOr("")
    ensures CsvHeaders[5] == "Status" && r[5] == c.status.GetOr("")
    ensures CsvHeaders[6] == "Validity" && r[6] == localeDate(c.validityDate)
  {
    [Cell(c.name), Cell(c.category), Cell(c.discountPercentage), Cell(c.requiredCoins),
     Cell(c.couponCode), Cell(c.status), localeDate(c.validityDate)]
  }

  function CsvLine(c: Coupon, localeDate: Option<string> -> string): string {
    Join(CsvCells(c, localeDate), ",")
  }

  function CsvLines(filtered: seq<Coupon>, localeDate: Option<string> -> string): (r: seq<string>)
    ensures |r| == |filtered|
    ensures forall i :: 0 <= i < |filtered| ==> r[i] == Join(CsvCells(filtered[i], localeDate), ",")
  {
    seq(|filtered|, i requires 0 <= i < |filtered| => CsvLine(filtered[i], localeDate))
  }

  /** `exportCSV`'s text: the header line, a newline, then the rows separated by newlines. */
  function ExportCsv(filtered: seq<Coupon>, localeDate: Option<string> -> string): string {
    Join(CsvHeaders, ",") + "\n" + Join(CsvLines(filtered, localeDate), "\n")
  }

  predicate CellsFree(filtered: seq<Coupon>, localeDate: Option<string> -> string, c: char) {
    forall i, j :: 0 <= i < |filtered| && 0 <= j < |CsvHeaders| ==> c !in CsvCells(filtered[i], localeDate)[j]
  }

  /** When no cell contains a newline the text has one line per filtered coupon
      after the header, in order; with no coupons it is the header followed by an
      empty line. */
  lemma CsvHasOneLinePerCoupon(filtered: seq<Coupon>, localeDate: Option<string> -> string)
    requires CellsFree(filtered, localeDate, '\n')
    ensures |filtered| > 0 ==>
      Split(ExportCsv(filtered, localeDate), '\n') == [Join(CsvHeaders, ",")] + CsvLines(filtered, localeDate)
    ensures |filtered| == 0 ==> Split(ExportCsv(filtered, localeDate), '\n') == [Join(CsvHeaders, ","), ""]
  {
    var h := Join(CsvHeaders, ",");
    var lines := CsvLines(filtered, localeDate);
    HeaderLineFree();
    SplitAtFirst(h, '\n', Join(lines, "\n"));
    if |filtered| > 0 {
      CsvLinesFree(filtered, localeDate);
      SplitJoin(lines, '\n');
    }
  }

  /** The header line holds no newline. */
  lemma HeaderLineFree()
    ensures '\n' !in Join(CsvHeaders, ",")
  {
    JoinFree(CsvHeaders, ",", '\n');
  }

  /** No line of the export holds a newline when no cell does. */
  lemma CsvLinesFree(filtered: seq<Coupon>, localeDate: Option<string> -> string)
    requires CellsFree(filtered, localeDate, '\n')
    ensures forall i :: 0 <= i < |filtered| ==> '\n' !in CsvLines(filtered, localeDate)[i]
  {
    forall i | 0 <= i < |filtered| ensures '\n' !in CsvLines(filtered, localeDate)[i] {
      JoinFree(CsvCells(filtered[i], localeDate), ",", '\n');
    }
  }

  /** When no cell contains a comma each line splits back into the seven cells. */
  lemma CsvLineCells(c: Coupon, localeDate: Option<string> -> string)
    requires forall j :: 0 <= j < |CsvHeaders| ==> ',' !in CsvCells(c, localeDate)[j]
    ensures Split(CsvLine(c, localeDate), ',') == CsvCells(c, localeDate)
  {
    SplitJoin(CsvCells(c, localeDate), ',');
  }

  // ------------------------------------------------------------ the edit dialog

  datatype EditForm = EditForm(
    name: string,
    category: string,
    discountPercentage: string,
    requiredCoins: string,
    validityDate: string,
    couponCodeType: string,
    limitForSameUser: string,
    status: string)

  datatype UpdateOutcome =
    | NoCoupon                               // no coupon id: return silently
    | Refused(message: string)               // the alert; no request
    | Send(couponId: string, form: EditForm) // the PUT request

  const RequiredMessage: string := "Name, discount, and validity date are required"

  /** `handleUpdateCoupon` up to the request it sends. */
  function UpdateCoupon(current: Option<Coupon>, form: EditForm): (r: UpdateOutcome)
    ensures r.NoCoupon? <==> current.None? || current.value.id.None? || current.value.id.value == ""
    ensures r.Send? <==>
      (!r.NoCoupon? && form.name != "" && form.discountPercentage != "" && form.validityDate != "")
    ensures r.Refused? ==> r.message == RequiredMessage
    ensures r.Send? ==> Some(r.couponId) == current.value.id && r.form == form
  {
    if current.None? || current.value.id.None? || current.value.id.value == "" then NoCoupon
    else if form.name == "" || form.discountPercentage == "" || form.validityDate == "" then Refused(RequiredMessage)
    else Send(current.value.id.value, form)
  }

  // --------------------------------------------------------------- status badge

  /** `status?.charAt(0).toUpperCase() + status?.slice(1)`; for an absent status
      this is `undefined + undefined`, which renders as "NaN". */
  function StatusLabel(status: Option<string>): (r: string)
    ensures status.None? ==> r == "NaN"
    ensures status.Some? ==> |r| == |status.value|
    ensures status.Some? && |r| > 0 ==> r[1..] == status.value[1..]
    ensures status.Some? && |r| > 0 ==> r[0] == UpperChar(status.value[0]) && !IsLower(r[0])
  {
    match status
    case None => "NaN"
    case Some(s) => if |s| == 0 then "" else [UpperChar(s[0])] + s[1..]
  }

  /** For the lower-case status values the API uses, lower-casing the first letter of
      the label gives the status back. */
  lemma StatusLabelRoundTrip(s: string)
    requires |s| > 0 && IsLower(s[0])
    ensures [LowerChar(StatusLabel(Some(s))[0])] + StatusLabel(Some(s))[1..] == s
  {
    var c := s[0];
    assert LowerChar(UpperChar(c)) == c;
  }
}
