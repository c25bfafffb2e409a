/**
  The sales ledger of the point-of-sale screen (`src/sales_manager.py`): the
  sale form and its running total, recording a sale against stock, deleting a
  sale and giving its units back, the phone picker, the sales listing with its
  date filter, and the invoice projection.

  Each operation is one atomic transition of the `Store`, matching the single
  commit that closes it. Dialogs become inputs: `confirmed` is the answer to
  the "Are you sure" question, and the sale date is a field of the form.
*/
module Sales {
  import opened Wrappers
  import opened Text
  import opened Sorting
  import opened Schema

  /** Python truthiness of an optional id: `None` and `0` are both false. */
  predicate Chosen(id: Option<int>) {
    id.Some? && id.value != 0
  }

  // ---------------------------------------------------------------------
  // The sale form
  // ---------------------------------------------------------------------

  datatype SaleForm = SaleForm(
    saleDate: string,
    phone: Option<int>,
    client: Option<int>,
    quantity: int,
    unitPrice: int,
    totalPrice: int,
    payment: string,
    notes: string)

  /** The invariant the quantity trace keeps: the total shown is quantity times unit price. */
  predicate TotalMatches(f: SaleForm) {
    f.totalPrice == f.quantity * f.unitPrice
  }

  /** The form after `clear_form`: nothing chosen, one unit at price 0, first payment method. */
  function ClearedForm(today: string): (f: SaleForm)
    ensures !Chosen(f.phone) && !Chosen(f.client)
    ensures f.saleDate == today && f.quantity == 1 && f.unitPrice == 0 && f.notes == ""
    ensures ParsePaymentMethod(f.payment) == Some(Cash)
    ensures TotalMatches(f)
  {
    SaleForm(today, None, None, 1, 0, 0, "cash", "")
  }

  /** Typing a quantity: the trace on the quantity variable recomputes the total. */
  function SetQuantity(f: SaleForm, q: int): (r: SaleForm)
    ensures r.quantity == q && TotalMatches(r)
    ensures r == f.(quantity := q, totalPrice := r.totalPrice)
  {
    f.(quantity := q, totalPrice := q * f.unitPrice)
  }

  /**
    Choosing a phone in the picker. The selection is recorded before the
    catalog is read; the unit price is the catalog price at this moment.
  */
  function SelectPhone(f: SaleForm, phones: map<int, Phone>, id: int): (r: SaleForm)
    ensures r.phone == Some(id)
    ensures id in phones ==>
      && r.unitPrice == phones[id].price
      && TotalMatches(r)
      && r == f.(phone := Some(id), unitPrice := r.unitPrice, totalPrice := r.totalPrice)
    ensures id !in phones ==> r == f.(phone := Some(id))
  {
    if id in phones then
      var price := phones[id].price;
      f.(phone := Some(id), unitPrice := price, totalPrice := f.quantity * price)
    else f.(phone := Some(id))
  }

  /** Clearing, choosing a phone and typing a quantity all keep the total consistent. */
  lemma FormKeepsTotal(f: SaleForm, phones: map<int, Phone>, id: int, q: int)
    requires TotalMatches(f)
    ensures TotalMatches(SelectPhone(f, phones, id))
    ensures TotalMatches(SetQuantity(f, q))
  {
  }

  // ---------------------------------------------------------------------
  // Recording a sale
  // ---------------------------------------------------------------------

  datatype SaleError =
    | NoPhoneSelected
    | QuantityBelowOne
    | PhoneNotFound
    | NotEnoughStock(available: int)
    | Rejected(error: DbError)
    | NoSaleSelected
    | DatesMissing

  /** The columns `save_sale` binds into its INSERT for form `f`. */
  function SaleColumnsOf(f: SaleForm, userId: int): SaleColumns {
    SaleColumns(
      f.phone,
      if Chosen(f.client) then f.client else None,
      Some(userId),
      Some(f.quantity),
      Some(f.unitPrice),
      Some(f.totalPrice),
      Some(f.payment),
      f.saleDate,
      Some(Strip(f.notes)))
  }

  /**
    `save_sale`: check the form, check stock, insert one sale and take its
    units off the phone, all in one commit. A phone id that is no longer in
    the catalog makes the stock lookup fail, and nothing is written.
  */
  function SaveSale(s: Store, f: SaleForm, userId: int): (r: Result<(Store, int), SaleError>)
    requires Valid(s)
    ensures !Chosen(f.phone) ==> r == Err(NoPhoneSelected)
    ensures Chosen(f.phone) && f.quantity < 1 ==> r == Err(QuantityBelowOne)
    ensures Chosen(f.phone) && f.quantity >= 1 && f.phone.value !in s.phones ==> r == Err(PhoneNotFound)
    ensures Chosen(f.phone) && f.quantity >= 1 && f.phone.value in s.phones && s.phones[f.phone.value].quantity < f.quantity ==>
      r == Err(NotEnoughStock(s.phones[f.phone.value].quantity))
    ensures r.Ok? <==>
      && Chosen(f.phone) && f.quantity >= 1
      && f.phone.value in s.phones && f.quantity <= s.phones[f.phone.value].quantity
      && ParsePaymentMethod(f.payment).Some?
    ensures r.Ok? ==> Chosen(f.phone) && Recorded(s, f, userId, r.value.0, r.value.1)
  {
    if !Chosen(f.phone) then Err(NoPhoneSelected)
    else if f.quantity < 1 then Err(QuantityBelowOne)
    else if f.phone.value !in s.phones then Err(PhoneNotFound)
    else
      var current := s.phones[f.phone.value].quantity;
      if current < f.quantity then Err(NotEnoughStock(current))
      else RecordSale(s, f, userId)
  }

  /**
    What one recorded sale leaves behind: the sale under the next id, holding
    the form's phone, client (none when unchosen), user, quantity, prices,
    date, payment and stripped notes, and that phone's stock lowered by the
    quantity; nothing else changes.
  */
  predicate Recorded(s: Store, f: SaleForm, userId: int, s': Store, id: int)
    requires Valid(s) && f.phone.Some? && f.phone.value in s.phones
  {
    var pid := f.phone.value;
    && Valid(s')
    && id == s.nextSaleId && id !in s.sales && id in s'.sales
    && s' == s.(
         phones := s.phones[pid := s.phones[pid].(quantity := s.phones[pid].quantity - f.quantity)],
         sales := s.sales[id := s'.sales[id]],
         nextSaleId := id + 1)
    && pid in s'.phones && s'.phones[pid].quantity >= 0
    && s'.sales[id].phoneId == pid
    && s'.sales[id].userId == userId
    && s'.sales[id].quantity == f.quantity
    && s'.sales[id].unitPrice == f.unitPrice
    && s'.sales[id].totalPrice == f.totalPrice
    && s'.sales[id].saleDate == f.saleDate
    && s'.sales[id].payment == ParsePaymentMethod(f.payment)
    && s'.sales[id].clientId == (if Chosen(f.client) then f.client else None)
    && s'.sales[id].notes == Some(Strip(f.notes))
  }

  /** The INSERT and the stock UPDATE of `save_sale`, once its checks have passed. */
  function RecordSale(s: Store, f: SaleForm, userId: int): (r: Result<(Store, int), SaleError>)
    requires Valid(s) && f.phone.Some? && f.phone.value in s.phones
    requires 1 <= f.quantity <= s.phones[f.phone.value].quantity
    ensures r.Ok? <==> ParsePaymentMethod(f.payment).Some?
    ensures r.Ok? ==> Recorded(s, f, userId, r.value.0, r.value.1)
  {
    FormSaleRow(f, userId);
    match SaleRow(SaleColumnsOf(f, userId))
    case Err(e) => Err(Rejected(e))
    case Ok(sale) => Ok(Commit(s, f.phone.value, f.quantity, sale))
  }

  /** The sales row the INSERT builds from a form with a phone chosen. */
  lemma FormSaleRow(f: SaleForm, userId: int)
    requires f.phone.Some?
    ensures var r := SaleRow(SaleColumnsOf(f, userId));
      && (r.Ok? <==> ParsePaymentMethod(f.payment).Some?)
      && (r.Ok? ==>
        && r.value.phoneId == f.phone.value
        && r.value.userId == userId
        && r.value.quantity == f.quantity
        && r.value.unitPrice == f.unitPrice
        && r.value.totalPrice == f.totalPrice
        && r.value.saleDate == f.saleDate
        && r.value.payment == ParsePaymentMethod(f.payment)
        && r.value.clientId == (if Chosen(f.client) then f.client else None)
        && r.value.notes == Some(Strip(f.notes)))
  {
  }

  /** The writes of one successful `save_sale`: the new sales row and the phone's reduced stock. */
  function Commit(s: Store, pid: int, q: int, sale: Sale): (r: (Store, int))
    requires Valid(s) && pid in s.phones && q <= s.phones[pid].quantity
    ensures Valid(r.0)
    ensures r.1 == s.nextSaleId && r.1 !in s.sales
    ensures r.0 == s.(
      phones := s.phones[pid := s.phones[pid].(quantity := s.phones[pid].quantity - q)],
      sales := s.sales[r.1 := sale],
      nextSaleId := r.1 + 1)
    ensures r.0.phones[pid].quantity >= 0
  {
    var s' := SetStock(s, pid, s.phones[pid].quantity - q);
    (s'.(sales := s.sales[s.nextSaleId := sale], nextSaleId := s.nextSaleId + 1), s.nextSaleId)
  }

  /** `UPDATE phones SET quantity = q WHERE id = pid` on a phone that exists. */
  function SetStock(s: Store, pid: int, q: int): (r: Store)
    requires Valid(s) && pid in s.phones
    ensures Valid(r)
    ensures r == s.(phones := s.phones[pid := s.phones[pid].(quantity := q)])
  {
    s.(phones := s.phones[pid := s.phones[pid].(quantity := q)])
  }

  /** A recorded sale keeps the form's total, which is its quantity times the captured unit price. */
  lemma StoredTotalIsQuantityTimesUnitPrice(s: Store, f: SaleForm, userId: int)
    requires Valid(s) && TotalMatches(f) && SaveSale(s, f, userId).Ok?
    ensures var (s', id) := SaveSale(s, f, userId).value;
      s'.sales[id].totalPrice == s'.sales[id].quantity * s'.sales[id].unitPrice
  {
  }

  /**
    Clearing the form, choosing a phone and typing a quantity records the
    phone's catalog price of that moment as the unit price, and quantity times
    that price as the total.
  */
  lemma SaleCapturesCatalogPrice(s: Store, today: string, pid: int, q: int, userId: int)
    requires Valid(s) && pid in s.phones
    ensures var f := SetQuantity(SelectPhone(ClearedForm(today), s.phones, pid), q);
      SaveSale(s, f, userId).Ok? ==>
        var (s', id) := SaveSale(s, f, userId).value;
        && s'.sales[id].unitPrice == s.phones[pid].price
        && s'.sales[id].totalPrice == q * s.phones[pid].price
  {
  }

  // ---------------------------------------------------------------------
  // Deleting a sale
  // ---------------------------------------------------------------------

  /**
    `delete_sale`: give the sale's units back to its phone and remove the sale.
    No role is checked. A sale whose phone has been deleted cannot be removed:
    the stock lookup fails and nothing is written.
  */
  function DeleteSale(s: Store, current: Option<int>, confirmed: bool): (r: Result<Store, SaleError>)
    requires Valid(s)
    ensures !Chosen(current) ==> r == Err(NoSaleSelected)
    ensures Chosen(current) && (!confirmed || current.value !in s.sales) ==> r == Ok(s)
    ensures Chosen(current) && confirmed && current.value in s.sales && s.sales[current.value].phoneId !in s.phones ==>
      r == Err(PhoneNotFound)
    ensures r.Ok? ==> Valid(r.value)
    ensures Chosen(current) && confirmed && current.value in s.sales && s.sales[current.value].phoneId in s.phones ==>
      var id := current.value;
      var sale := s.sales[id];
      var phone := s.phones[sale.phoneId];
      && r.Ok?
      && r.value.sales == s.sales - {id}
      && r.value.phones == s.phones[sale.phoneId := phone.(quantity := phone.quantity + sale.quantity)]
      && r.value == s.(phones := r.value.phones, sales := r.value.sales)
  {
    if !Chosen(current) then Err(NoSaleSelected)
    else if !confirmed then Ok(s)
    else if current.value !in s.sales then Ok(s)
    else
      var sale := s.sales[current.value];
      if sale.phoneId !in s.phones then Err(PhoneNotFound)
      else
        var q := s.phones[sale.phoneId].quantity + sale.quantity;
        Ok(SetStock(s, sale.phoneId, q).(sales := s.sales - {current.value}))
  }

  /** Recording a sale and deleting it again restores every table; only the id counter has moved on. */
  lemma SaveThenDeleteRestores(s: Store, f: SaleForm, userId: int, s': Store, id: int)
    requires Valid(s) && SaveSale(s, f, userId) == Ok((s', id))
    ensures DeleteSale(s', Some(id), true) == Ok(s.(nextSaleId := s'.nextSaleId))
  {
    var sale := SavedShape(s, f, userId, s', id);
    UndoSale(s, s', f.phone.value, f.quantity, id, sale);
  }

  /** The store after a recorded sale: one new sales row, and the units taken off its phone. */
  lemma SavedShape(s: Store, f: SaleForm, userId: int, s': Store, id: int) returns (sale: Sale)
    requires Valid(s) && SaveSale(s, f, userId) == Ok((s', id))
    ensures Valid(s') && f.phone.Some? && f.phone.value in s.phones && id !in s.sales
    ensures sale.phoneId == f.phone.value && sale.quantity == f.quantity
    ensures s' == s.(
      phones := s.phones[f.phone.value := s.phones[f.phone.value].(quantity := s.phones[f.phone.value].quantity - f.quantity)],
      sales := s.sales[id := sale],
      nextSaleId := id + 1)
  {
    sale := s'.sales[id];
  }

  /** Removing a recorded sale and handing its units back undoes the recording. */
  lemma UndoSale(s: Store, s': Store, pid: int, n: int, id: int, sale: Sale)
    requires Valid(s) && Valid(s') && pid in s.phones && id !in s.sales
    requires sale.phoneId == pid && sale.quantity == n
    requires s' == s.(
      phones := s.phones[pid := s.phones[pid].(quantity := s.phones[pid].quantity - n)],
      sales := s.sales[id := sale],
      nextSaleId := id + 1)
    ensures DeleteSale(s', Some(id), true) == Ok(s.(nextSaleId := id + 1))
  {
    var r := DeleteSale(s', Some(id), true);
    assert s'.sales[id] == sale;
    assert r.value.phones == s.phones by {
      RestoreAfterTake(s.phones, pid, n);
    }
    assert r.value.sales == s.sales by {
      RemoveAfterInsert(s.sales, id, sale);
    }
  }

  /** Taking `n` units off a phone and adding them back gives back the phone table. */
  lemma RestoreAfterTake(phones: map<int, Phone>, pid: int, n: int)
    requires pid in phones
    ensures var q := phones[pid].quantity;
      var taken := phones[pid := phones[pid].(quantity := q - n)];
      taken[pid := taken[pid].(quantity := q)] == phones
  {
    var q := phones[pid].quantity;
    var taken := phones[pid := phones[pid].(quantity := q - n)];
    assert taken[pid].(quantity := q) == phones[pid];
  }

  /** Once a sale takes a phone's last units, the next sale of that phone is refused. */
  lemma SellingOutBlocksNextSale(s: Store, f: SaleForm, g: SaleForm, userId: int)
    requires Valid(s) && SaveSale(s, f, userId).Ok?
    requires f.quantity == s.phones[f.phone.value].quantity
    requires g.phone == f.phone && g.quantity >= 1
    ensures SaveSale(SaveSale(s, f, userId).value.0, g, userId) == Err(NotEnoughStock(0))
  {
  }

  /** Two sales of one unit each against a phone holding one unit: the first is recorded, the second refused. */
  lemma LastUnitSoldOnce(s: Store, f: SaleForm, userId: int)
    requires Valid(s) && Chosen(f.phone) && f.phone.value in s.phones
    requires s.phones[f.phone.value].quantity == 1 && f.quantity == 1 && f.payment == "cash"
    ensures SaveSale(s, f, userId).Ok?
    ensures SaveSale(SaveSale(s, f, userId).value.0, f, userId) == Err(NotEnoughStock(0))
  {
    SellingOutBlocksNextSale(s, f, f, userId);
  }

  // ---------------------------------------------------------------------
  // The ledger invariant
  // ---------------------------------------------------------------------

  /** No phone's stock is negative and every recorded sale is of at least one unit. */
  predicate LedgerSound(s: Store) {
    && (forall id :: id in s.phones ==> s.phones[id].quantity >= 0)
    && (forall id :: id in s.sales ==> s.sales[id].quantity >= 1)
  }

  lemma SaveSaleKeepsLedgerSound(s: Store, f: SaleForm, userId: int)
    requires Valid(s) && LedgerSound(s) && SaveSale(s, f, userId).Ok?
    ensures LedgerSound(SaveSale(s, f, userId).value.0)
  {
    var sale := SaleRow(SaleColumnsOf(f, userId)).value;
    assert SaveSale(s, f, userId) == Ok(Commit(s, f.phone.value, f.quantity, sale));
    CommitKeepsLedgerSound(s, f.phone.value, f.quantity, sale);
  }

  lemma CommitKeepsLedgerSound(s: Store, pid: int, q: int, sale: Sale)
    requires Valid(s) && LedgerSound(s) && pid in s.phones && q <= s.phones[pid].quantity
    requires sale.quantity == q && q >= 1
    ensures LedgerSound(Commit(s, pid, q, sale).0)
  {
  }

  lemma DeleteSaleKeepsLedgerSound(s: Store, current: Option<int>, confirmed: bool)
    requires Valid(s) && LedgerSound(s) && DeleteSale(s, current, confirmed).Ok?
    ensures LedgerSound(DeleteSale(s, current, confirmed).value)
  {
  }

  /** The units of phone `pid` that a sale row accounts for. */
  function UnitsOf(pid: int): ((int, Sale)) -> int {
    (row: (int, Sale)) => if row.1.phoneId == pid then row.1.quantity else 0
  }

  /** Σ quantity over the recorded sales of phone `pid`. */
  function UnitsSold(s: Store, pid: int): int {
    SumOf(Rows(s.sales, s.nextSaleId), UnitsOf(pid))
  }

  /**
    Units in stock plus units sold. Recording and deleting sales leave it
    unchanged; only a catalog edit of the quantity resets it.
  */
  function Baseline(s: Store, pid: int): int
    requires pid in s.phones
  {
    s.phones[pid].quantity + UnitsSold(s, pid)
  }

  lemma SaveSaleKeepsBaseline(s: Store, f: SaleForm, userId: int, pid: int)
    requires Valid(s) && SaveSale(s, f, userId).Ok? && pid in s.phones
    ensures pid in SaveSale(s, f, userId).value.0.phones
    ensures Baseline(SaveSale(s, f, userId).value.0, pid) == Baseline(s, pid)
  {
    var sale := SaleRow(SaleColumnsOf(f, userId)).value;
    assert SaveSale(s, f, userId) == Ok(Commit(s, f.phone.value, f.quantity, sale));
    CommitKeepsBaseline(s, f.phone.value, f.quantity, sale, pid);
  }

  lemma {:induction false} CommitKeepsBaseline(s: Store, seller: int, q: int, sale: Sale, pid: int)
    requires Valid(s) && seller in s.phones && q <= s.phones[seller].quantity
    requires sale.phoneId == seller && sale.quantity == q && pid in s.phones
    ensures pid in Commit(s, seller, q, sale).0.phones
    ensures Baseline(Commit(s, seller, q, sale).0, pid) == Baseline(s, pid)
  {
    var (s', id) := Commit(s, seller, q, sale);
    var rows := Rows(s.sales, s.nextSaleId);
    assert Rows(s'.sales, s'.nextSaleId) == rows + [(id, sale)] by {
      RowsAppend(s.sales, s.nextSaleId, sale);
    }
    assert UnitsSold(s', pid) == UnitsSold(s, pid) + UnitsOf(pid)((id, sale)) by {
      SumOfConcat(rows, [(id, sale)], UnitsOf(pid));
      assert SumOf([(id, sale)], UnitsOf(pid)) == UnitsOf(pid)((id, sale));
    }
  }

  lemma {:induction false} DeleteSaleKeepsBaseline(s: Store, current: Option<int>, confirmed: bool, pid: int)
    requires Valid(s) && DeleteSale(s, current, confirmed).Ok? && pid in s.phones
    ensures pid in DeleteSale(s, current, confirmed).value.phones
    ensures Baseline(DeleteSale(s, current, confirmed).value, pid) == Baseline(s, pid)
  {
    var s' := DeleteSale(s, current, confirmed).value;
    if s' != s {
      var id := current.value;
      RowsSumRemove(s.sales, s.nextSaleId, id, UnitsOf(pid));
    }
  }

  // ---------------------------------------------------------------------
  // Phone picker
  // ---------------------------------------------------------------------

  predicate InStock(row: (int, Phone)) {
    row.1.quantity > 0
  }

  /** `SELECT … FROM phones WHERE quantity > 0 ORDER BY brand, model`. */
  function PhonePicker(s: Store): (r: seq<(int, Phone)>)
    requires Valid(s)
    ensures Sorted(r, BrandModelLe)
    ensures multiset(r) == multiset(Filter(Rows(s.phones, s.nextPhoneId), InStock))
    ensures forall row :: row in r <==> row.0 in s.phones && s.phones[row.0] == row.1 && row.1.quantity > 0
  {
    BrandModelTotalPreorder();
    var r := Sort(Filter(Rows(s.phones, s.nextPhoneId), InStock), BrandModelLe);
    assert forall row :: row in r <==> row in multiset(r);
    r
  }

  // ---------------------------------------------------------------------
  // Sales listing and date filter
  // ---------------------------------------------------------------------

  /** A line of the sales list: the phone is NULL when it has been deleted, the client 'N/A' when absent. */
  datatype ListedSale = ListedSale(
    id: int,
    saleDate: string,
    phone: Option<string>,
    client: string,
    quantity: int,
    totalPrice: int,
    payment: Option<PaymentMethod>)

  /** `p.brand || ' ' || p.model` over a LEFT JOIN: NULL when the phone row is missing. */
  function PhoneLabel(phones: map<int, Phone>, pid: int): (r: Option<string>)
    ensures r.Some? <==> pid in phones
    ensures r.Some? ==> StartsWith(r.value, phones[pid].brand + " ")
  {
    if pid in phones then
      var text := phones[pid].brand + " " + phones[pid].model;
      assert text[..|phones[pid].brand + " "|] == phones[pid].brand + " ";
      Some(text)
    else None
  }

  /** `COALESCE(c.name, 'N/A')` over a LEFT JOIN on the sale's client. */
  function ClientName(clients: map<int, Client>, cid: Option<int>): (r: string)
    ensures cid.Some? && cid.value in clients ==> r == clients[cid.value].name
    ensures cid.None? || cid.value !in clients ==> r == "N/A"
  {
    if cid.Some? && cid.value in clients then clients[cid.value].name else "N/A"
  }

  function Listed(s: Store, row: (int, Sale)): (r: ListedSale)
    ensures r.id == row.0 && r.saleDate == row.1.saleDate
  {
    var sale := row.1;
    ListedSale(
      row.0, sale.saleDate, PhoneLabel(s.phones, sale.phoneId), ClientName(s.clients, sale.clientId),
      sale.quantity, sale.totalPrice, sale.payment)
  }

  /** `ORDER BY sale_date DESC`. */
  predicate LaterOrSame(a: ListedSale, b: ListedSale) {
    LexLe(b.saleDate, a.saleDate)
  }

  lemma LaterOrSameTotalPreorder()
    ensures TotalPreorder(LaterOrSame)
  {
    LexLeTotalOrder();
    forall a: ListedSale, b: ListedSale
      ensures LaterOrSame(a, b) || LaterOrSame(b, a)
    {
      assert LexLe(a.saleDate, b.saleDate) || LexLe(b.saleDate, a.saleDate);
    }
    forall a: ListedSale, b: ListedSale, c: ListedSale | LaterOrSame(a, b) && LaterOrSame(b, c)
      ensures LaterOrSame(a, c)
    {
      assert LexLe(c.saleDate, b.saleDate) && LexLe(b.saleDate, a.saleDate);
    }
  }

  /** No two rows carry the same sale id. */
  predicate IdsDistinct(rows: seq<(int, Sale)>) {
    forall i, j :: 0 <= i < j < |rows| ==> rows[i].0 != rows[j].0
  }

  /** The listing of the given sale rows, newest first. */
  function ListSales(s: Store, rows: seq<(int, Sale)>): (r: seq<ListedSale>)
    requires IdsDistinct(rows)
    ensures Sorted(r, LaterOrSame)
    ensures |r| == |rows| && Distinct(r)
    ensures forall i :: 0 <= i < |rows| ==> Listed(s, rows[i]) in r
    ensures forall x :: x in r ==> exists i :: 0 <= i < |rows| && x == Listed(s, rows[i])
  {
    LaterOrSameTotalPreorder();
    var listed := seq(|rows|, i requires 0 <= i < |rows| => Listed(s, rows[i]));
    var r := Sort(listed, LaterOrSame);
    assert |r| == |multiset(r)| == |multiset(listed)| == |listed|;
    assert Distinct(listed) by {
      forall i, j | 0 <= i < j < |listed|
        ensures listed[i] != listed[j]
      {
        assert listed[i].id == rows[i].0 && listed[j].id == rows[j].0;
      }
    }
    PermutationKeepsDistinct(listed, r);
    assert forall x :: x in r <==> x in listed by {
      forall x
        ensures x in r <==> x in listed
      {
        assert x in r <==> x in multiset(r);
        assert x in listed <==> x in multiset(listed);
      }
    }
    forall i | 0 <= i < |rows|
      ensures Listed(s, rows[i]) in r
    {
      assert listed[i] == Listed(s, rows[i]);
    }
    r
  }

  /** `load_sales`: every sale, newest first. */
  function LoadSales(s: Store): (r: seq<ListedSale>)
    requires Valid(s)
    ensures Sorted(r, LaterOrSame)
    ensures forall id :: id in s.sales ==> Listed(s, (id, s.sales[id])) in r
    ensures forall x :: x in r ==> x.id in s.sales && x == Listed(s, (x.id, s.sales[x.id]))
    ensures forall i, j :: 0 <= i < j < |r| ==> r[i].id != r[j].id
  {
    var rows := Rows(s.sales, s.nextSaleId);
    RowsAscending(s.sales, s.nextSaleId);
    var r := ListSales(s, rows);
    ScannedListing(s, rows, r);
    r
  }

  /** The listing of the whole scan shows every sale, each once. */
  lemma ScannedListing(s: Store, rows: seq<(int, Sale)>, r: seq<ListedSale>)
    requires Valid(s)
    requires forall row :: row in rows <==> row in Rows(s.sales, s.nextSaleId)
    requires forall i :: 0 <= i < |rows| ==> Listed(s, rows[i]) in r
    requires forall x :: x in r ==> exists i :: 0 <= i < |rows| && x == Listed(s, rows[i])
    requires Distinct(r)
    ensures forall id :: id in s.sales ==> Listed(s, (id, s.sales[id])) in r
    ensures forall x :: x in r ==> x.id in s.sales && x == Listed(s, (x.id, s.sales[x.id]))
    ensures forall i, j :: 0 <= i < j < |r| ==> r[i].id != r[j].id
  {
    forall id | id in s.sales
      ensures Listed(s, (id, s.sales[id])) in r
    {
      assert (id, s.sales[id]) in rows;
      var i :| 0 <= i < |rows| && rows[i] == (id, s.sales[id]);
    }
    forall x | x in r
      ensures x.id in s.sales && x == Listed(s, (x.id, s.sales[x.id]))
    {
      var i :| 0 <= i < |rows| && x == Listed(s, rows[i]);
      assert rows[i] in rows;
    }
    ListedOnce(s, r);
  }

  /** A listing without repeats, whose entries each show their own sale, names every sale at most once. */
  lemma ListedOnce(s: Store, r: seq<ListedSale>)
    requires Distinct(r)
    requires forall x :: x in r ==> x.id in s.sales && x == Listed(s, (x.id, s.sales[x.id]))
    ensures forall i, j :: 0 <= i < j < |r| ==> r[i].id != r[j].id
  {
    forall i, j | 0 <= i < j < |r|
      ensures r[i].id != r[j].id
    {
      assert r[i] in r && r[j] in r;
    }
  }

  /** Whether a sale row falls in `sale_date BETWEEN from AND to`. */
  function DatedBetween(from: string, to: string): ((int, Sale)) -> bool {
    (row: (int, Sale)) => Between(row.1.saleDate, from, to)
  }

  /** `filter_by_date`: both dates are required; the range is inclusive and compared as text. */
  function FilterByDate(s: Store, from: string, to: string): (r: Result<seq<ListedSale>, SaleError>)
    requires Valid(s)
    ensures r.Err? <==> from == "" || to == ""
    ensures r.Err? ==> r.error == DatesMissing
    ensures r.Ok? ==> Sorted(r.value, LaterOrSame)
    ensures r.Ok? ==> forall id :: id in s.sales ==>
      (Listed(s, (id, s.sales[id])) in r.value <==> Between(s.sales[id].saleDate, from, to))
    ensures r.Ok? ==> forall x :: x in r.value ==> x.id in s.sales && x == Listed(s, (x.id, s.sales[x.id]))
    ensures r.Ok? ==> forall i, j :: 0 <= i < j < |r.value| ==> r.value[i].id != r.value[j].id
  {
    if from == "" || to == "" then Err(DatesMissing)
    else
      var rows := Filter(Rows(s.sales, s.nextSaleId), DatedBetween(from, to));
      ScanIdsDistinct(s, DatedBetween(from, to));
      var r := ListSales(s, rows);
      FilteredListing(s, from, to, rows, r);
      Ok(r)
  }

  /** The listing of the sales dated in range shows exactly those sales, each once. */
  lemma FilteredListing(s: Store, from: string, to: string, rows: seq<(int, Sale)>, r: seq<ListedSale>)
    requires Valid(s)
    requires forall row :: row in rows <==> row in Rows(s.sales, s.nextSaleId) && Between(row.1.saleDate, from, to)
    requires forall i :: 0 <= i < |rows| ==> Listed(s, rows[i]) in r
    requires forall x :: x in r ==> exists i :: 0 <= i < |rows| && x == Listed(s, rows[i])
    requires Distinct(r)
    ensures forall id :: id in s.sales ==>
      (Listed(s, (id, s.sales[id])) in r <==> Between(s.sales[id].saleDate, from, to))
    ensures forall x :: x in r ==> x.id in s.sales && x == Listed(s, (x.id, s.sales[x.id]))
    ensures forall i, j :: 0 <= i < j < |r| ==> r[i].id != r[j].id
  {
    forall id | id in s.sales
      ensures Listed(s, (id, s.sales[id])) in r <==> Between(s.sales[id].saleDate, from, to)
    {
      if Between(s.sales[id].saleDate, from, to) {
        assert (id, s.sales[id]) in rows;
        var i :| 0 <= i < |rows| && rows[i] == (id, s.sales[id]);
      }
      if Listed(s, (id, s.sales[id])) in r {
        var i :| 0 <= i < |rows| && Listed(s, (id, s.sales[id])) == Listed(s, rows[i]);
        assert rows[i] in rows;
      }
    }
    forall x | x in r
      ensures x.id in s.sales && x == Listed(s, (x.id, s.sales[x.id]))
    {
      var i :| 0 <= i < |rows| && x == Listed(s, rows[i]);
      assert rows[i] in rows;
    }
    ListedOnce(s, r);
  }

  /** A filtered scan of the sales table names each sale id at most once. */
  lemma ScanIdsDistinct(s: Store, keep: ((int, Sale)) -> bool)
    ensures IdsDistinct(Filter(Rows(s.sales, s.nextSaleId), keep))
  {
    var scan := Rows(s.sales, s.nextSaleId);
    RowsAscending(s.sales, s.nextSaleId);
    FilterKeepsDistinct(scan, keep);
    var rows := Filter(scan, keep);
    forall i, j | 0 <= i < j < |rows|
      ensures rows[i].0 != rows[j].0
    {
      assert rows[i] in rows && rows[j] in rows;
    }
  }

  /** A range whose end sorts before its start lists nothing, and is not an error. */
  lemma InvertedDateRangeListsNothing(s: Store, from: string, to: string)
    requires Valid(s) && from != "" && to != "" && LexLess(to, from)
    ensures FilterByDate(s, from, to) == Ok([])
  {
    var r := FilterByDate(s, from, to).value;
    if |r| > 0 {
      assert r[0] in r;
      InvertedRangeIsEmpty(s.sales[r[0].id].saleDate, from, to);
    }
  }

  // ---------------------------------------------------------------------
  // Invoice projection
  // ---------------------------------------------------------------------

  /** The record `generate_invoice` hands to the PDF writer. */
  datatype Invoice = Invoice(
    invoiceId: int,
    date: string,
    quantity: int,
    unitPrice: int,
    totalPrice: int,
    payment: Option<PaymentMethod>,
    phoneBrand: Option<string>,
    phoneModel: Option<string>,
    phoneImei: Option<string>,
    clientName: string,
    clientPhone: string,
    clientAddress: string,
    sellerName: Option<string>,
    storeName: string,
    storeAddress: string,
    storePhone: string,
    storeEmail: Option<string>)

  /**
    `generate_invoice`: the sale joined with its phone, client and seller (LEFT
    JOINs) and the store row (CROSS JOIN). With no store row the join is empty
    and no invoice is produced.
  */
  function GenerateInvoice(s: Store, current: Option<int>): (r: Result<Option<Invoice>, SaleError>)
    ensures !Chosen(current) <==> r == Err(NoSaleSelected)
    ensures r.Ok? ==> (r.value.Some? <==> current.value in s.sales && s.storeInfo.Some?)
    ensures r.Ok? && r.value.Some? ==>
      var inv := r.value.value;
      var sale := s.sales[current.value];
      var hasClient := sale.clientId.Some? && sale.clientId.value in s.clients;
      && inv.invoiceId == current.value
      && inv.date == sale.saleDate
      && inv.quantity == sale.quantity
      && inv.unitPrice == sale.unitPrice
      && inv.totalPrice == sale.totalPrice
      && inv.payment == sale.payment
      && (inv.phoneBrand.Some? <==> sale.phoneId in s.phones)
      && (sale.phoneId in s.phones ==>
            && inv.phoneBrand == Some(s.phones[sale.phoneId].brand)
            && inv.phoneModel == Some(s.phones[sale.phoneId].model)
            && inv.phoneImei == s.phones[sale.phoneId].imei)
      && (sale.phoneId !in s.phones ==> inv.phoneModel.None? && inv.phoneImei.None?)
      && (!hasClient ==> inv.clientName == "N/A" && inv.clientPhone == "N/A" && inv.clientAddress == "N/A")
      && (hasClient ==>
            && inv.clientName == s.clients[sale.clientId.value].name
            && inv.clientPhone == s.clients[sale.clientId.value].phone.GetOr("N/A")
            && inv.clientAddress == s.clients[sale.clientId.value].address.GetOr("N/A"))
      && inv.sellerName == (if sale.userId in s.users then s.users[sale.userId].fullName else None)
      && inv.storeName == s.storeInfo.value.name
      && inv.storeAddress == s.storeInfo.value.address
      && inv.storePhone == s.storeInfo.value.phone
      && inv.storeEmail == s.storeInfo.value.email
  {
    if !Chosen(current) then Err(NoSaleSelected)
    else if current.value !in s.sales || s.storeInfo.None? then Ok(None)
    else
      var sale := s.sales[current.value];
      var store := s.storeInfo.value;
      var phone := if sale.phoneId in s.phones then Some(s.phones[sale.phoneId]) else None;
      var client := if sale.clientId.Some? && sale.clientId.value in s.clients then Some(s.clients[sale.clientId.value]) else None;
      var seller := if sale.userId in s.users then s.users[sale.userId].fullName else None;
      Ok(Some(Invoice(
        current.value, sale.saleDate, sale.quantity, sale.unitPrice, sale.totalPrice, sale.payment,
        if phone.Some? then Some(phone.value.brand) else None,
        if phone.Some? then Some(phone.value.model) else None,
        if phone.Some? then phone.value.imei else None,
        if client.Some? then client.value.name else "N/A",
        if client.Some? then client.value.phone.GetOr("N/A") else "N/A",
        if client.Some? then client.value.address.GetOr("N/A") else "N/A",
        seller,
        store.name, store.address, store.phone, store.email)))
  }

  /**
    The invoice of a sale just recorded gives back what the form held: its
    date, quantity, prices and payment, and the phone it was made for.
  */
  lemma InvoiceOfSavedSale(s: Store, f: SaleForm, userId: int, s': Store, id: int)
    requires Valid(s) && s.storeInfo.Some? && SaveSale(s, f, userId) == Ok((s', id))
    ensures var r := GenerateInvoice(s', Some(id));
      && r.Ok? && r.value.Some?
      && r.value.value.invoiceId == id
      && r.value.value.date == f.saleDate
      && r.value.value.quantity == f.quantity
      && r.value.value.unitPrice == f.unitPrice
      && r.value.value.totalPrice == f.totalPrice
      && r.value.value.payment == ParsePaymentMethod(f.payment)
      && r.value.value.phoneBrand == Some(s.phones[f.phone.value].brand)
      && r.value.value.phoneModel == Some(s.phones[f.phone.value].model)
  {
    var sale := SavedShape(s, f, userId, s', id);
    assert id >= 1 && id in s'.sales && s'.storeInfo == s.storeInfo;
    assert s'.phones[f.phone.value].brand == s.phones[f.phone.value].brand;
  }

  /** The invoice reads the amounts stored with the sale: a later catalog price change does not alter it. */
  lemma InvoiceIgnoresCatalogPrice(s: Store, current: Option<int>, pid: int, price: int)
    requires pid in s.phones
    ensures var s' := s.(phones := s.phones[pid := s.phones[pid].(price := price)]);
      GenerateInvoice(s', current) == GenerateInvoice(s, current)
  {
  }
}
