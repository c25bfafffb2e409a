/**
  The reports screen: sales between two dates grouped by a calendar bucket,
  a product or a payment method, with the period's grand total; the stock
  list under one of three filters, with the value of the whole stock; and the
  list of brands the stock filter offers.

  A grouped query is modelled as its meaning in SQL: one row per distinct
  value of the grouping expression over the matching sales, in ascending
  order of that value (NULL first, then numbers, then text in byte order),
  carrying the group's COUNT and SUMs.
*/
module Reports {
  import opened Wrappers
  import opened Text
  import opened Sorting
  import opened Calendar
  import opened Schema
  import opened Sales

  // ---------------------------------------------------------------------
  // Grouping choices and grouping keys
  // ---------------------------------------------------------------------

  /** The "Group By" choices of the sales report. */
  datatype Grouping = Day | Week | Month | Year | Product | Payment {
    function Text(): string {
      match this
      case Day => "Day"
      case Week => "Week"
      case Month => "Month"
      case Year => "Year"
      case Product => "Product"
      case Payment => "Payment Method"
    }

    predicate Calendrical() {
      this in {Day, Week, Month, Year}
    }
  }

  /** The grouping whose caption is `text`; the combobox is editable, so anything else may arrive. */
  function ParseGrouping(text: string): (r: Option<Grouping>)
    ensures forall g: Grouping :: r == Some(g) <==> text == g.Text()
  {
    if text == "Day" then Some(Day)
    else if text == "Week" then Some(Week)
    else if text == "Month" then Some(Month)
    else if text == "Year" then Some(Year)
    else if text == "Product" then Some(Product)
    else if text == "Payment Method" then Some(Payment)
    else None
  }

  /** A value of a grouping expression: NULL, an integer id or a text. */
  datatype GroupKey = NullKey | IntKey(n: int) | TextKey(t: string)

  function Rank(k: GroupKey): int {
    match k
    case NullKey => 0
    case IntKey(_) => 1
    case TextKey(_) => 2
  }

  /** SQLite's `ORDER BY` on mixed values: NULL, then integers numerically, then text by bytes. */
  predicate KeyLe(a: GroupKey, b: GroupKey) {
    if Rank(a) != Rank(b) then Rank(a) < Rank(b)
    else match (a, b)
      case (IntKey(x), IntKey(y)) => x <= y
      case (TextKey(x), TextKey(y)) => LexLe(x, y)
      case _ => true
  }

  lemma KeyLeTotalOrder()
    ensures TotalOrder(KeyLe)
  {
    LexLeTotalOrder();
    forall a: GroupKey, b: GroupKey
      ensures KeyLe(a, b) || KeyLe(b, a)
    {
      if a.TextKey? && b.TextKey? {
        assert LexLe(a.t, b.t) || LexLe(b.t, a.t);
      }
    }
    forall a: GroupKey, b: GroupKey, c: GroupKey | KeyLe(a, b) && KeyLe(b, c)
      ensures KeyLe(a, c)
    {
      if a.TextKey? && b.TextKey? && c.TextKey? {
        assert LexLe(a.t, b.t) && LexLe(b.t, c.t);
      }
    }
    forall a: GroupKey, b: GroupKey | KeyLe(a, b) && KeyLe(b, a)
      ensures a == b
    {
      if a.TextKey? && b.TextKey? {
        assert LexLe(a.t, b.t) && LexLe(b.t, a.t);
      }
    }
  }

  /** The bucket of a real date under a calendar grouping: `strftime` with `%Y-%m-%d`, `%Y-%W`, `%Y-%m` or `%Y`. */
  function CalendarKey(g: Grouping, d: Date): string
    requires g.Calendrical() && IsRealDate(d) && InFourDigitRange(d)
  {
    match g
    case Day => DayKey(d)
    case Week => WeekKey(d)
    case Month => MonthKey(d)
    case Year => YearKey(d)
  }

  /**
    The grouping expression evaluated on one sale: the date bucket, the joined
    phone's id (`p.id`, NULL once the phone is deleted), or the payment method.
  */
  function KeyOf(g: Grouping, phones: map<int, Phone>, sale: Sale): GroupKey {
    match g
    case Product => if sale.phoneId in phones then IntKey(sale.phoneId) else NullKey
    case Payment => if sale.payment.Some? then TextKey(sale.payment.value.Text()) else NullKey
    case _ =>
      match SqliteDate(sale.saleDate)
      case None => NullKey
      case Some(d) => TextKey(CalendarKey(g, d))
  }

  /**
    Which sales fall in the NULL group: those whose date SQLite cannot read
    (calendar groupings), whose phone row is gone (Product), or whose payment
    method is NULL (Payment Method); every other sale is grouped by its bucket,
    phone id or method.
  */
  lemma KeyOfMeaning(g: Grouping, phones: map<int, Phone>, sale: Sale)
    ensures var k := KeyOf(g, phones, sale);
      && (g.Calendrical() ==> (k == NullKey <==> SqliteDate(sale.saleDate).None?))
      && (g.Calendrical() && k != NullKey ==> k == TextKey(CalendarKey(g, SqliteDate(sale.saleDate).value)))
      && (g == Product ==> (k == NullKey <==> sale.phoneId !in phones))
      && (g == Product && k != NullKey ==> k == IntKey(sale.phoneId))
      && (g == Payment ==> (k == NullKey <==> sale.payment.None?))
      && (g == Payment && k != NullKey ==> k == TextKey(sale.payment.value.Text()))
  {
  }

  /** A sales row as a table scan returns it: its id and its columns. */
  type SaleEntry = (int, Sale)

  function KeyFn(g: Grouping, phones: map<int, Phone>): SaleEntry -> GroupKey {
    (row: SaleEntry) => KeyOf(g, phones, row.1)
  }

  /**
    The first column of a group's row. It is a function of the group's key:
    the bucket text, `'Week ' || %W || ' ' || %Y` for weeks, `brand || ' ' ||
    model` for products, and NULL for the NULL group.
  */
  function Caption(g: Grouping, phones: map<int, Phone>, k: GroupKey): Option<string> {
    match k
    case NullKey => None
    case IntKey(pid) => PhoneLabel(phones, pid)
    case TextKey(t) =>
      if g == Week && |t| == 7 then Some("Week " + t[5..] + " " + t[..4]) else Some(t)
  }

  function CaptionFn(g: Grouping, phones: map<int, Phone>): GroupKey -> Option<string> {
    (k: GroupKey) => Caption(g, phones, k)
  }

  // ---------------------------------------------------------------------
  // The grouped sales report
  // ---------------------------------------------------------------------

  datatype ReportRow = ReportRow(key: GroupKey, caption: Option<string>, count: int, quantity: int, total: int)

  datatype SalesSummary = SalesSummary(rows: seq<ReportRow>, grandTotal: int)

  datatype ReportError =
    | DateRangeMissing
    | UnknownGrouping
    | NoSuchColumn(name: string)

  function SaleCount(row: (int, Sale)): int { 1 }
  function SaleQuantity(row: (int, Sale)): int { row.1.quantity }
  function SaleTotal(row: (int, Sale)): int { row.1.totalPrice }

  function RowCount(r: ReportRow): int { r.count }
  function RowQuantity(r: ReportRow): int { r.quantity }
  function RowTotal(r: ReportRow): int { r.total }

  /** The sales `WHERE sale_date BETWEEN from AND to`, in table order. */
  function Matched(s: Store, from: string, to: string): seq<(int, Sale)> {
    Filter(Rows(s.sales, s.nextSaleId), DatedBetween(from, to))
  }

  /** The row of group `k`: its caption, `COUNT(*)`, `SUM(quantity)` and `SUM(total_price)` over its sales. */
  function RowOf(key: SaleEntry -> GroupKey, caption: GroupKey -> Option<string>, k: GroupKey, m: seq<SaleEntry>): ReportRow {
    ReportRow(k, caption(k), GroupSum(m, key, k, SaleCount), GroupSum(m, key, k, SaleQuantity), GroupSum(m, key, k, SaleTotal))
  }

  function GroupRows(key: SaleEntry -> GroupKey, caption: GroupKey -> Option<string>, keys: seq<GroupKey>, m: seq<SaleEntry>): (r: seq<ReportRow>)
    ensures |r| == |keys|
    ensures forall i :: 0 <= i < |keys| ==> r[i] == RowOf(key, caption, keys[i], m)
  {
    if |keys| == 0 then [] else [RowOf(key, caption, keys[0], m)] + GroupRows(key, caption, keys[1..], m)
  }

  lemma {:induction false} GroupRowsSums(key: SaleEntry -> GroupKey, caption: GroupKey -> Option<string>, keys: seq<GroupKey>, m: seq<SaleEntry>)
    ensures SumOf(GroupRows(key, caption, keys, m), RowCount) == GroupSums(keys, m, key, SaleCount)
    ensures SumOf(GroupRows(key, caption, keys, m), RowQuantity) == GroupSums(keys, m, key, SaleQuantity)
    ensures SumOf(GroupRows(key, caption, keys, m), RowTotal) == GroupSums(keys, m, key, SaleTotal)
  {
    if |keys| > 0 {
      var r := GroupRows(key, caption, keys, m);
      assert r[1..] == GroupRows(key, caption, keys[1..], m);
      GroupRowsSums(key, caption, keys[1..], m);
    }
  }

  lemma {:induction false} CountIsLength(m: seq<SaleEntry>)
    ensures SumOf(m, SaleCount) == |m|
  {
    if |m| > 0 {
      CountIsLength(m[1..]);
    }
  }

  /** Rows in strictly ascending key order: `ORDER BY` the grouping expression, one row per group. */
  predicate StrictlyAscending(rows: seq<ReportRow>) {
    forall i, j :: 0 <= i < j < |rows| ==> KeyLe(rows[i].key, rows[j].key) && rows[i].key != rows[j].key
  }

  /** The distinct keys of the sales `m`, ascending. */
  function GroupKeys(key: SaleEntry -> GroupKey, m: seq<SaleEntry>): (keys: seq<GroupKey>)
    ensures Sorted(keys, KeyLe) && Distinct(keys)
    ensures forall x :: x in keys <==> x in Map(m, key)
  {
    KeyLeTotalOrder();
    SortDistinct(Map(m, key), KeyLe)
  }

  /** Some sale of `m` has key `k`. */
  predicate Occurs(key: SaleEntry -> GroupKey, m: seq<SaleEntry>, k: GroupKey) {
    exists j :: 0 <= j < |m| && key(m[j]) == k
  }

  /** Every distinct key comes from some sale, and every sale's key is among them. */
  lemma GroupKeysCover(key: SaleEntry -> GroupKey, m: seq<SaleEntry>, keys: seq<GroupKey>)
    requires forall x :: x in keys <==> x in Map(m, key)
    ensures forall i :: 0 <= i < |keys| ==> Occurs(key, m, keys[i])
    ensures forall j :: 0 <= j < |m| ==> key(m[j]) in keys
  {
    var mapped := Map(m, key);
    forall i | 0 <= i < |keys|
      ensures Occurs(key, m, keys[i])
    {
      assert keys[i] in mapped;
      var j :| 0 <= j < |m| && mapped[j] == keys[i];
    }
    forall j | 0 <= j < |m|
      ensures key(m[j]) in keys
    {
      assert mapped[j] in mapped;
    }
  }

  /** A group some sale belongs to counts at least that sale. */
  lemma GroupRowsCounted(key: SaleEntry -> GroupKey, caption: GroupKey -> Option<string>, m: seq<SaleEntry>, keys: seq<GroupKey>)
    requires forall i :: 0 <= i < |keys| ==> Occurs(key, m, keys[i])
    ensures forall i :: 0 <= i < |keys| ==> GroupRows(key, caption, keys, m)[i].count >= 1
  {
    forall i | 0 <= i < |keys|
      ensures GroupRows(key, caption, keys, m)[i].count >= 1
    {
      var j :| 0 <= j < |m| && key(m[j]) == keys[i];
      GroupCountPositive(m, key, keys[i], SaleCount);
    }
  }

  /** Distinct keys that cover every sale partition the sales: the groups' sums add up. */
  lemma GroupRowsPartition(key: SaleEntry -> GroupKey, caption: GroupKey -> Option<string>, m: seq<SaleEntry>, keys: seq<GroupKey>)
    requires Distinct(keys)
    requires forall j :: 0 <= j < |m| ==> key(m[j]) in keys
    ensures SumOf(GroupRows(key, caption, keys, m), RowCount) == |m|
    ensures SumOf(GroupRows(key, caption, keys, m), RowQuantity) == SumOf(m, SaleQuantity)
    ensures SumOf(GroupRows(key, caption, keys, m), RowTotal) == SumOf(m, SaleTotal)
  {
    GroupRowsSums(key, caption, keys, m);
    PartitionSum(keys, m, key, SaleCount);
    PartitionSum(keys, m, key, SaleQuantity);
    PartitionSum(keys, m, key, SaleTotal);
    CountIsLength(m);
  }

  /** `GROUP BY e ORDER BY e` over the sales `m`, where `key` evaluates `e` and `caption` the first column. */
  function Grouped(key: SaleEntry -> GroupKey, caption: GroupKey -> Option<string>, m: seq<SaleEntry>): seq<ReportRow> {
    GroupRows(key, caption, GroupKeys(key, m), m)
  }

  /**
    What a grouped query returns: one row per distinct key, in key order;
    every group non-empty and every sale in exactly one group, so the groups'
    counts and sums add up to the totals over `m`.
  */
  lemma GroupedFacts(key: SaleEntry -> GroupKey, caption: GroupKey -> Option<string>, m: seq<SaleEntry>)
    ensures var rows := Grouped(key, caption, m); StrictlyAscending(rows)
    ensures var rows := Grouped(key, caption, m);
      forall i :: 0 <= i < |rows| ==> rows[i] == RowOf(key, caption, rows[i].key, m) && rows[i].count >= 1
    ensures var rows := Grouped(key, caption, m); forall i :: 0 <= i < |rows| ==> Occurs(key, m, rows[i].key)
    ensures var rows := Grouped(key, caption, m);
      forall j :: 0 <= j < |m| ==> exists i :: 0 <= i < |rows| && rows[i].key == key(m[j])
    ensures var rows := Grouped(key, caption, m); SumOf(rows, RowCount) == |m|
    ensures var rows := Grouped(key, caption, m); SumOf(rows, RowQuantity) == SumOf(m, SaleQuantity)
    ensures var rows := Grouped(key, caption, m); SumOf(rows, RowTotal) == SumOf(m, SaleTotal)
  {
    GroupedShape(key, caption, m);
    GroupedCovers(key, caption, m);
    GroupedSums(key, caption, m);
  }

  /** Grouped rows are ascending and distinct by key, each the non-empty row of a key that occurs. */
  lemma GroupedShape(key: SaleEntry -> GroupKey, caption: GroupKey -> Option<string>, m: seq<SaleEntry>)
    ensures var rows := Grouped(key, caption, m); StrictlyAscending(rows)
    ensures var rows := Grouped(key, caption, m);
      forall i :: 0 <= i < |rows| ==> rows[i] == RowOf(key, caption, rows[i].key, m) && rows[i].count >= 1
    ensures var rows := Grouped(key, caption, m); forall i :: 0 <= i < |rows| ==> Occurs(key, m, rows[i].key)
  {
    var keys := GroupKeys(key, m);
    var rows := Grouped(key, caption, m);
    assert forall i :: 0 <= i < |rows| ==> rows[i].key == keys[i];
    GroupKeysCover(key, m, keys);
    GroupRowsCounted(key, caption, m, keys);
  }

  /** Every sale's key has a row. */
  lemma GroupedCovers(key: SaleEntry -> GroupKey, caption: GroupKey -> Option<string>, m: seq<SaleEntry>)
    ensures var rows := Grouped(key, caption, m);
      forall j :: 0 <= j < |m| ==> exists i :: 0 <= i < |rows| && rows[i].key == key(m[j])
  {
    var keys := GroupKeys(key, m);
    var rows := Grouped(key, caption, m);
    GroupKeysCover(key, m, keys);
    forall j | 0 <= j < |m|
      ensures exists i :: 0 <= i < |rows| && rows[i].key == key(m[j])
    {
      var i :| 0 <= i < |keys| && keys[i] == key(m[j]);
      assert rows[i].key == keys[i];
    }
  }

  /** The rows' counts, quantities and totals add up to those of all the sales. */
  lemma GroupedSums(key: SaleEntry -> GroupKey, caption: GroupKey -> Option<string>, m: seq<SaleEntry>)
    ensures var rows := Grouped(key, caption, m); SumOf(rows, RowCount) == |m|
    ensures var rows := Grouped(key, caption, m); SumOf(rows, RowQuantity) == SumOf(m, SaleQuantity)
    ensures var rows := Grouped(key, caption, m); SumOf(rows, RowTotal) == SumOf(m, SaleTotal)
  {
    var keys := GroupKeys(key, m);
    GroupKeysCover(key, m, keys);
    GroupRowsPartition(key, caption, m, keys);
  }

  /**
    `generate_sales_report`: both dates are required and the grouping must be
    one of the six; the rows are the grouped query over the sales dated in the
    inclusive text range, and the grand total (`SUM(total_price)`, 0 when no
    sale matches) is what the rows' totals add up to.
  */
  function SalesReport(s: Store, from: string, to: string, groupBy: string): (r: Result<SalesSummary, ReportError>)
    ensures r.Err? <==> from == "" || to == "" || ParseGrouping(groupBy).None?
    ensures from == "" || to == "" ==> r == Err(DateRangeMissing)
    ensures r.Ok? ==> var g := ParseGrouping(groupBy).value;
      r.value.rows == Grouped(KeyFn(g, s.phones), CaptionFn(g, s.phones), Matched(s, from, to))
    ensures r.Ok? ==> r.value.grandTotal == SumOf(Matched(s, from, to), SaleTotal)
    ensures r.Ok? ==> SumOf(r.value.rows, RowTotal) == r.value.grandTotal
  {
    if from == "" || to == "" then Err(DateRangeMissing)
    else
      match ParseGrouping(groupBy)
      case None => Err(UnknownGrouping)
      case Some(g) => Ok(Summarize(KeyFn(g, s.phones), CaptionFn(g, s.phones), Matched(s, from, to)))
  }

  /** The grouped rows of the sales `m` and the sum of their totals. */
  function Summarize(key: SaleEntry -> GroupKey, caption: GroupKey -> Option<string>, m: seq<SaleEntry>): (r: SalesSummary)
    ensures r.rows == Grouped(key, caption, m)
    ensures SumOf(r.rows, RowTotal) == r.grandTotal
  {
    GroupedFacts(key, caption, m);
    SalesSummary(Grouped(key, caption, m), SumOf(m, SaleTotal))
  }

  /** A sale is in the report's range exactly when its date lies between the two dates as text. */
  lemma MatchedIsRange(s: Store, from: string, to: string)
    requires Valid(s)
    ensures forall id :: id in s.sales ==> ((id, s.sales[id]) in Matched(s, from, to) <==> Between(s.sales[id].saleDate, from, to))
    ensures forall row :: row in Matched(s, from, to) ==> row.0 in s.sales && s.sales[row.0] == row.1
  {
  }

  /** A range whose end sorts before its start yields no rows and a grand total of 0. */
  lemma InvertedRangeReportsNothing(s: Store, from: string, to: string, groupBy: string)
    requires from != "" && to != "" && LexLess(to, from) && ParseGrouping(groupBy).Some?
    ensures SalesReport(s, from, to, groupBy) == Ok(SalesSummary([], 0))
  {
    var m := Matched(s, from, to);
    if |m| > 0 {
      assert m[0] in m;
      InvertedRangeIsEmpty(m[0].1.saleDate, from, to);
      assert false;
    }
    var g := ParseGrouping(groupBy).value;
    GroupedFacts(KeyFn(g, s.phones), CaptionFn(g, s.phones), m);
  }

  /** Recording a sale appends it to the matched sales exactly when its date is in range. */
  lemma MatchedAfterInsert(s: Store, s': Store, from: string, to: string, sale: Sale)
    requires Valid(s)
    requires s'.sales == s.sales[s.nextSaleId := sale] && s'.nextSaleId == s.nextSaleId + 1
    ensures Matched(s', from, to) ==
      Matched(s, from, to) + (if Between(sale.saleDate, from, to) then [(s.nextSaleId, sale)] else [])
  {
    RowsAppend(s.sales, s.nextSaleId, sale);
    FilterAppend(Rows(s.sales, s.nextSaleId), (s.nextSaleId, sale), DatedBetween(from, to));
  }

  /** A sale dated outside the range changes nothing in the report. */
  lemma OutOfRangeSaleLeavesReport(s: Store, from: string, to: string, groupBy: string, sale: Sale)
    requires Valid(s) && !Between(sale.saleDate, from, to)
    ensures var s' := s.(sales := s.sales[s.nextSaleId := sale], nextSaleId := s.nextSaleId + 1);
      SalesReport(s', from, to, groupBy) == SalesReport(s, from, to, groupBy)
  {
    var s' := s.(sales := s.sales[s.nextSaleId := sale], nextSaleId := s.nextSaleId + 1);
    MatchedAfterInsert(s, s', from, to, sale);
    assert Matched(s', from, to) == Matched(s, from, to) + [] == Matched(s, from, to);
    assert s'.phones == s.phones;
  }

  /** A sale saved from the sales screen adds its total to the grand total of every report whose range holds its date. */
  lemma SavedSaleCountsInReport(s: Store, f: SaleForm, userId: int, from: string, to: string, groupBy: string)
    requires Valid(s) && SaveSale(s, f, userId).Ok?
    requires SalesReport(s, from, to, groupBy).Ok?
    ensures var (s', id) := SaveSale(s, f, userId).value;
      SalesReport(s', from, to, groupBy).Ok? &&
      SalesReport(s', from, to, groupBy).value.grandTotal ==
        SalesReport(s, from, to, groupBy).value.grandTotal + (if Between(f.saleDate, from, to) then f.totalPrice else 0)
  {
    var (s', id) := SaveSale(s, f, userId).value;
    var sale := s'.sales[id];
    assert sale.saleDate == f.saleDate && sale.totalPrice == f.totalPrice;
    MatchedAfterInsert(s, s', from, to, sale);
    SumOfConcat(Matched(s, from, to), if Between(sale.saleDate, from, to) then [(id, sale)] else [], SaleTotal);
  }

  // ---------------------------------------------------------------------
  // Ordering of the calendar buckets
  // ---------------------------------------------------------------------

  /** In strictly ascending rows, the key order is the row order. */
  lemma KeyOrderIsRowOrder(rows: seq<ReportRow>, i: int, j: int)
    requires StrictlyAscending(rows) && 0 <= i < |rows| && 0 <= j < |rows|
    requires KeyLe(rows[i].key, rows[j].key) && rows[i].key != rows[j].key
    ensures i < j
  {
    KeyLeTotalOrder();
  }

  /** Sales with no readable date form the first row of any calendar report. */
  lemma UndatedRowComesFirst(rows: seq<ReportRow>, i: int, j: int)
    requires StrictlyAscending(rows) && 0 <= i < |rows| && 0 <= j < |rows|
    requires rows[i].key == NullKey && rows[j].key != NullKey
    ensures i < j
  {
    KeyOrderIsRowOrder(rows, i, j);
  }

  /** The Day report lists days in calendar order. */
  lemma DayRowsChronological(rows: seq<ReportRow>, i: int, j: int, a: Date, b: Date)
    requires StrictlyAscending(rows) && 0 <= i < |rows| && 0 <= j < |rows|
    requires InFourDigitRange(a) && InFourDigitRange(b)
    requires rows[i].key == TextKey(DayKey(a)) && rows[j].key == TextKey(DayKey(b))
    ensures i < j <==> DateBefore(a, b)
  {
    DayKeyOrder(a, b);
    DayKeyOrder(b, a);
    if DateBefore(a, b) {
      KeyOrderIsRowOrder(rows, i, j);
    } else if DateBefore(b, a) {
      KeyOrderIsRowOrder(rows, j, i);
    }
  }

  /** The Week report lists weeks by year, then by `%W` week number. */
  lemma WeekRowsChronological(rows: seq<ReportRow>, i: int, j: int, a: Date, b: Date)
    requires StrictlyAscending(rows) && 0 <= i < |rows| && 0 <= j < |rows|
    requires IsRealDate(a) && InFourDigitRange(a) && IsRealDate(b) && InFourDigitRange(b)
    requires rows[i].key == TextKey(WeekKey(a)) && rows[j].key == TextKey(WeekKey(b))
    ensures i < j <==> a.year < b.year || (a.year == b.year && WeekOfYear(a) < WeekOfYear(b))
  {
    WeekKeyOrder(a, b);
    WeekKeyOrder(b, a);
    if LexLess(WeekKey(a), WeekKey(b)) {
      KeyOrderIsRowOrder(rows, i, j);
    } else if LexLess(WeekKey(b), WeekKey(a)) {
      KeyOrderIsRowOrder(rows, j, i);
    }
  }

  /** The Month report lists months by year, then month. */
  lemma MonthRowsChronological(rows: seq<ReportRow>, i: int, j: int, a: Date, b: Date)
    requires StrictlyAscending(rows) && 0 <= i < |rows| && 0 <= j < |rows|
    requires InFourDigitRange(a) && InFourDigitRange(b)
    requires rows[i].key == TextKey(MonthKey(a)) && rows[j].key == TextKey(MonthKey(b))
    ensures i < j <==> a.year < b.year || (a.year == b.year && a.month < b.month)
  {
    MonthKeyOrder(a, b);
    MonthKeyOrder(b, a);
    if LexLess(MonthKey(a), MonthKey(b)) {
      KeyOrderIsRowOrder(rows, i, j);
    } else if LexLess(MonthKey(b), MonthKey(a)) {
      KeyOrderIsRowOrder(rows, j, i);
    }
  }

  /** The Product report lists phones by id, not by brand or model. */
  lemma ProductRowsById(rows: seq<ReportRow>, i: int, j: int, a: int, b: int)
    requires StrictlyAscending(rows) && 0 <= i < |rows| && 0 <= j < |rows|
    requires rows[i].key == IntKey(a) && rows[j].key == IntKey(b)
    ensures i < j <==> a < b
  {
    if a < b {
      KeyOrderIsRowOrder(rows, i, j);
    } else if b < a {
      KeyOrderIsRowOrder(rows, j, i);
    }
  }

  /** Where a payment method's stored text sorts among the four. */
  function PaymentPosition(m: PaymentMethod): int {
    match m
    case BankTransfer => 0
    case Cash => 1
    case CreditCard => 2
    case Other => 3
  }

  lemma PaymentTextOrder(a: PaymentMethod, b: PaymentMethod)
    ensures LexLess(a.Text(), b.Text()) <==> PaymentPosition(a) < PaymentPosition(b)
  {
    assert "bank_transfer"[1..] == "ank_transfer";
    assert "cash"[1..] == "ash";
    assert "credit_card"[1..] == "redit_card";
  }

  /** The Payment Method report lists bank_transfer, cash, credit_card, other, in that order. */
  lemma PaymentRowsInTextOrder(rows: seq<ReportRow>, i: int, j: int, a: PaymentMethod, b: PaymentMethod)
    requires StrictlyAscending(rows) && 0 <= i < |rows| && 0 <= j < |rows|
    requires rows[i].key == TextKey(a.Text()) && rows[j].key == TextKey(b.Text())
    ensures i < j <==> PaymentPosition(a) < PaymentPosition(b)
  {
    PaymentTextOrder(a, b);
    PaymentTextOrder(b, a);
    if PaymentPosition(a) < PaymentPosition(b) {
      KeyOrderIsRowOrder(rows, i, j);
    } else if PaymentPosition(b) < PaymentPosition(a) {
      KeyOrderIsRowOrder(rows, j, i);
    }
  }

  /** The Week row's caption spells the `%W` week number, then the year. */
  lemma WeekLabel(phones: map<int, Phone>, d: Date)
    requires IsRealDate(d) && InFourDigitRange(d)
    ensures Caption(Week, phones, TextKey(WeekKey(d))) == Some("Week " + Pad(WeekOfYear(d), 2) + " " + Pad(d.year, 4))
  {
    var t := WeekKey(d);
    assert t[5..] == Pad(WeekOfYear(d), 2);
    assert t[..4] == Pad(d.year, 4);
  }

  // ---------------------------------------------------------------------
  // The Day grouping as the source writes it
  // ---------------------------------------------------------------------

  /**
    The report as written: the Day grouping selects a column `Date` that
    neither `sales` nor `phones` has, so SQLite rejects that query and the
    screen shows a database error instead of rows.
  */
  function SalesReportAsWritten(s: Store, from: string, to: string, groupBy: string): (r: Result<SalesSummary, ReportError>)
    ensures ParseGrouping(groupBy) != Some(Day) ==> r == SalesReport(s, from, to, groupBy)
  {
    if from != "" && to != "" && ParseGrouping(groupBy) == Some(Day) then Err(NoSuchColumn("Date"))
    else SalesReport(s, from, to, groupBy)
  }

  /** As written, no Day report is ever produced, whatever the data and the range. */
  lemma DayReportFailsAsWritten(s: Store, from: string, to: string)
    requires from != "" && to != ""
    ensures SalesReportAsWritten(s, from, to, "Day") == Err(NoSuchColumn("Date"))
    ensures SalesReport(s, from, to, "Day").Ok?
  {
  }

  /** The corrected Day report captions each row with its `YYYY-MM-DD` bucket. */
  lemma DayRowsCaptionedByDate(s: Store, from: string, to: string, i: int)
    requires SalesReport(s, from, to, "Day").Ok?
    requires 0 <= i < |SalesReport(s, from, to, "Day").value.rows|
    ensures var row := SalesReport(s, from, to, "Day").value.rows[i];
      row.key == NullKey ==> row.caption == None
    ensures var row := SalesReport(s, from, to, "Day").value.rows[i];
      row.key != NullKey ==> row.key.TextKey? && row.caption == Some(row.key.t) && |row.key.t| == 10
  {
    var r := SalesReport(s, from, to, "Day").value;
    var m := Matched(s, from, to);
    assert ParseGrouping("Day") == Some(Day);
    var key := KeyFn(Day, s.phones);
    GroupedFacts(key, CaptionFn(Day, s.phones), m);
    assert Occurs(key, m, r.rows[i].key);
    var j :| 0 <= j < |m| && key(m[j]) == r.rows[i].key;
    KeyOfMeaning(Day, s.phones, m[j].1);
  }

  // ---------------------------------------------------------------------
  // The stock report
  // ---------------------------------------------------------------------

  datatype StockFilter = AllPhones | LowStock | ByBrand(brand: string)

  /**
    The stock filter from its caption and the brand box: 'Low Stock (<5)',
    'By Brand' with a non-empty brand, and anything else (including 'By
    Brand' with no brand) lists every phone.
  */
  function ParseStockFilter(text: string, brand: string): (f: StockFilter)
    ensures f == LowStock <==> text == "Low Stock (<5)"
    ensures f.ByBrand? <==> text == "By Brand" && brand != ""
    ensures f.ByBrand? ==> f.brand == brand
  {
    if text == "Low Stock (<5)" then LowStock
    else if text == "By Brand" && brand != "" then ByBrand(brand)
    else AllPhones
  }

  predicate Selects(f: StockFilter, p: Phone) {
    match f
    case AllPhones => true
    case LowStock => p.quantity < 5
    case ByBrand(b) => p.brand == b
  }

  function SelectsRow(f: StockFilter): ((int, Phone)) -> bool {
    (row: (int, Phone)) => Selects(f, row.1)
  }

  datatype StockLine = StockLine(
    id: int, brand: string, model: string, imei: Option<string>, price: int, quantity: int, value: int)

  /** One line of the stock list; its value is `price * quantity`. */
  function LineOf(row: (int, Phone)): StockLine {
    StockLine(row.0, row.1.brand, row.1.model, row.1.imei, row.1.price, row.1.quantity, row.1.price * row.1.quantity)
  }

  function StockValue(row: (int, Phone)): int { row.1.price * row.1.quantity }
  function LineValue(l: StockLine): int { l.value }

  /** `ORDER BY brand, model` on stock lines. */
  predicate LineLe(a: StockLine, b: StockLine) {
    LexLess(a.brand, b.brand) || (a.brand == b.brand && LexLe(a.model, b.model))
  }

  datatype StockSummary = StockSummary(lines: seq<StockLine>, totalValue: int)

  lemma {:induction false} FilterKeepsDistinct<T(!new)>(s: seq<T>, keep: T -> bool)
    requires Distinct(s)
    ensures Distinct(Filter(s, keep))
  {
    if |s| > 0 {
      assert Distinct(s[1..]);
      FilterKeepsDistinct(s[1..], keep);
      assert s[0] !in s[1..];
      var rest := Filter(s[1..], keep);
      var r := Filter(s, keep);
      if keep(s[0]) {
        assert r == [s[0]] + rest;
        forall i, j | 0 <= i < j < |r|
          ensures r[i] != r[j]
        {
          if i == 0 {
            assert r[j] == rest[j - 1] && rest[j - 1] in rest;
          } else {
            assert r[i] == rest[i - 1] && r[j] == rest[j - 1];
          }
        }
      }
    }
  }

  lemma {:induction false} DistinctCountsOnce<T>(a: seq<T>, x: T)
    requires Distinct(a)
    ensures multiset(a)[x] <= 1
  {
    if |a| > 0 {
      assert a == [a[0]] + a[1..];
      assert Distinct(a[1..]);
      DistinctCountsOnce(a[1..], x);
      if a[0] == x {
        assert x !in a[1..];
      }
    }
  }

  lemma PermutationKeepsDistinct<T>(a: seq<T>, b: seq<T>)
    requires Distinct(a) && multiset(a) == multiset(b)
    ensures Distinct(b)
  {
    forall i, j | 0 <= i < j < |b|
      ensures b[i] != b[j]
    {
      if b[i] == b[j] {
        var x := b[i];
        assert b == b[..j] + b[j..];
        assert x in b[..j] && x in b[j..];
        assert multiset(b)[x] == multiset(b[..j])[x] + multiset(b[j..])[x];
        DistinctCountsOnce(a, x);
        assert false;
      }
    }
  }

  /** The table scan of the phones never lists a row twice. */
  lemma RowsDistinct(m: map<int, Phone>, n: int)
    ensures Distinct(Rows(m, n))
  {
    RowsAscending(m, n);
  }

  /** The selected phone rows in `ORDER BY brand, model` order. */
  function Selection(s: Store, f: StockFilter): (r: seq<(int, Phone)>)
    ensures Sorted(r, BrandModelLe)
    ensures multiset(r) == multiset(Filter(Rows(s.phones, s.nextPhoneId), SelectsRow(f)))
    ensures forall x :: x in r <==> x in Rows(s.phones, s.nextPhoneId) && Selects(f, x.1)
  {
    var selected := Filter(Rows(s.phones, s.nextPhoneId), SelectsRow(f));
    BrandModelTotalPreorder();
    var r := Sort(selected, BrandModelLe);
    assert forall x :: x in r <==> x in selected by {
      forall x
        ensures x in r <==> x in selected
      {
        assert x in r <==> x in multiset(r);
        assert x in selected <==> x in multiset(selected);
      }
    }
    r
  }

  /** No phone is selected twice. */
  lemma SelectionDistinct(s: Store, f: StockFilter)
    ensures forall i, j :: 0 <= i < j < |Selection(s, f)| ==> Selection(s, f)[i].0 != Selection(s, f)[j].0
  {
    var rows := Rows(s.phones, s.nextPhoneId);
    var sorted := Selection(s, f);
    RowsDistinct(s.phones, s.nextPhoneId);
    FilterKeepsDistinct(rows, SelectsRow(f));
    PermutationKeepsDistinct(Filter(rows, SelectsRow(f)), sorted);
    forall i, j | 0 <= i < j < |sorted|
      ensures sorted[i].0 != sorted[j].0
    {
      assert sorted[i] in sorted && sorted[j] in sorted;
    }
  }

  /** A phone has a stock line under filter `f` exactly when `f` selects it. */
  lemma StockLinesSelected(s: Store, f: StockFilter)
    ensures var lines := Map(Selection(s, f), LineOf);
      forall id :: id in s.phones && 1 <= id < s.nextPhoneId ==> (LineOf((id, s.phones[id])) in lines <==> Selects(f, s.phones[id]))
  {
    var sorted := Selection(s, f);
    var lines := Map(sorted, LineOf);
    forall id | id in s.phones && 1 <= id < s.nextPhoneId
      ensures LineOf((id, s.phones[id])) in lines <==> Selects(f, s.phones[id])
    {
      if Selects(f, s.phones[id]) {
        assert (id, s.phones[id]) in sorted;
        var i :| 0 <= i < |sorted| && sorted[i] == (id, s.phones[id]);
        assert lines[i] == LineOf((id, s.phones[id]));
      }
      if LineOf((id, s.phones[id])) in lines {
        var i :| 0 <= i < |lines| && lines[i] == LineOf((id, s.phones[id]));
        assert sorted[i] in sorted;
      }
    }
  }

  /** Every stock line is the line of a selected phone. */
  lemma StockLinesFromPhones(s: Store, f: StockFilter)
    ensures var lines := Map(Selection(s, f), LineOf);
      forall l :: l in lines ==> l.id in s.phones && l == LineOf((l.id, s.phones[l.id])) && Selects(f, s.phones[l.id])
  {
    var sorted := Selection(s, f);
    var lines := Map(sorted, LineOf);
    forall l | l in lines
      ensures l.id in s.phones && l == LineOf((l.id, s.phones[l.id])) && Selects(f, s.phones[l.id])
    {
      var i :| 0 <= i < |lines| && lines[i] == l;
      assert sorted[i] in sorted;
    }
  }

  /**
    `generate_stock_report`: the selected phones ordered by brand and model,
    each phone at most once, each line valued at price times quantity; the
    total value is that of the whole stock, whatever the filter.
  */
  function StockReport(s: Store, text: string, brand: string): (r: StockSummary)
    requires Valid(s)
    ensures Sorted(r.lines, LineLe)
    ensures forall id :: id in s.phones ==>
      (LineOf((id, s.phones[id])) in r.lines <==> Selects(ParseStockFilter(text, brand), s.phones[id]))
    ensures forall l :: l in r.lines ==>
      l.id in s.phones && l == LineOf((l.id, s.phones[l.id])) && Selects(ParseStockFilter(text, brand), s.phones[l.id])
    ensures forall i, j :: 0 <= i < j < |r.lines| ==> r.lines[i].id != r.lines[j].id
    ensures forall l :: l in r.lines ==> l.value == l.price * l.quantity
    ensures r.totalValue == SumOf(Rows(s.phones, s.nextPhoneId), StockValue)
  {
    var f := ParseStockFilter(text, brand);
    StockLinesSelected(s, f);
    StockLinesFromPhones(s, f);
    SelectionDistinct(s, f);
    StockSummary(Map(Selection(s, f), LineOf), SumOf(Rows(s.phones, s.nextPhoneId), StockValue))
  }

  /** With no filter, the lines' values add up to the total stock value. */
  lemma AllLinesAddUpToTotal(s: Store)
    requires Valid(s)
    ensures SumOf(StockReport(s, "All", "").lines, LineValue) == StockReport(s, "All", "").totalValue
  {
    var rows := Rows(s.phones, s.nextPhoneId);
    FilterAll(rows, SelectsRow(AllPhones));
    var sorted := Selection(s, AllPhones);
    SumOfMap(sorted, LineOf, LineValue, StockValue);
    SumOfPermutation(sorted, rows, StockValue);
  }

  /** `SELECT DISTINCT brand FROM phones ORDER BY brand`: the brands in the catalog, each once, in byte order. */
  function LoadBrands(s: Store): (r: seq<string>)
    requires Valid(s)
    ensures Sorted(r, LexLe) && Distinct(r)
    ensures forall b :: b in r <==> exists id :: id in s.phones && s.phones[id].brand == b
  {
    LexLeTotalOrder();
    var brands := Map(Rows(s.phones, s.nextPhoneId), BrandOf);
    MappedBrands(s, brands);
    SortDistinct(brands, LexLe)
  }

  function BrandOf(row: (int, Phone)): string {
    row.1.brand
  }

  /** The brand column of a full scan holds exactly the catalog's brands. */
  lemma MappedBrands(s: Store, brands: seq<string>)
    requires Valid(s) && brands == Map(Rows(s.phones, s.nextPhoneId), BrandOf)
    ensures forall b :: b in brands <==> exists id :: id in s.phones && s.phones[id].brand == b
  {
    var rows := Rows(s.phones, s.nextPhoneId);
    forall b
      ensures b in brands <==> exists id :: id in s.phones && s.phones[id].brand == b
    {
      if b in brands {
        var i :| 0 <= i < |brands| && brands[i] == b;
        assert rows[i] in rows;
      }
      if exists id :: id in s.phones && s.phones[id].brand == b {
        var id :| id in s.phones && s.phones[id].brand == b;
        assert (id, s.phones[id]) in rows;
        var i :| 0 <= i < |rows| && rows[i] == (id, s.phones[id]);
        assert brands[i] == b;
      }
    }
  }

  /** Every brand the brand box offers selects at least one phone in the stock report. */
  lemma OfferedBrandListsStock(s: Store, b: string)
    requires Valid(s) && b in LoadBrands(s)
    ensures |StockReport(s, "By Brand", b).lines| >= 1
  {
    var id :| id in s.phones && s.phones[id].brand == b;
    var r := StockReport(s, "By Brand", b);
    assert Selects(ParseStockFilter("By Brand", b), s.phones[id]);
    assert LineOf((id, s.phones[id])) in r.lines;
  }
}
