/**
  The SQLite schema of the phone store (`src/database.py`, `create_tables`)
  as typed rows, and the table-level rules the database enforces on every
  write: NOT NULL columns, column defaults, the CHECK enumerations, the UNIQUE
  IMEI, and the single-row `store_info` table. Also the start-up seeding of
  default users and store information.

  Money columns are REAL in the database; here they are integer cents so that
  every sum is exact. Row ids are the SQLite AUTOINCREMENT rowids: a table's
  `next…Id` counter is one more than the largest id it ever issued.

  Foreign keys are declared but never switched on (`PRAGMA foreign_keys` is
  not issued), so no write here checks that a referenced row exists.
*/
module Schema {
  import opened Wrappers
  import opened Text
  import opened Sorting

  // ---------------------------------------------------------------------
  // CHECK enumerations
  // ---------------------------------------------------------------------

  /** `users.role`: CHECK(role IN ('admin', 'seller')). */
  datatype Role = Admin | Seller {
    function Text(): string {
      match this
      case Admin => "admin"
      case Seller => "seller"
    }
  }

  /** `phones.condition`: CHECK(condition IN ('new', 'used', 'refurbished')). */
  datatype Condition = New | Used | Refurbished {
    function Text(): string {
      match this
      case New => "new"
      case Used => "used"
      case Refurbished => "refurbished"
    }
  }

  /** `sales.payment_method`: CHECK(payment_method IN ('cash', 'credit_card', 'bank_transfer', 'other')). */
  datatype PaymentMethod = Cash | CreditCard | BankTransfer | Other {
    function Text(): string {
      match this
      case Cash => "cash"
      case CreditCard => "credit_card"
      case BankTransfer => "bank_transfer"
      case Other => "other"
    }
  }

  function ParseRole(s: string): (r: Option<Role>)
    ensures forall role: Role :: r == Some(role) <==> s == role.Text()
  {
    if s == "admin" then Some(Admin)
    else if s == "seller" then Some(Seller)
    else None
  }

  function ParseCondition(s: string): (r: Option<Condition>)
    ensures forall c: Condition :: r == Some(c) <==> s == c.Text()
  {
    if s == "new" then Some(New)
    else if s == "used" then Some(Used)
    else if s == "refurbished" then Some(Refurbished)
    else None
  }

  function ParsePaymentMethod(s: string): (r: Option<PaymentMethod>)
    ensures forall m: PaymentMethod :: r == Some(m) <==> s == m.Text()
  {
    if s == "cash" then Some(Cash)
    else if s == "credit_card" then Some(CreditCard)
    else if s == "bank_transfer" then Some(BankTransfer)
    else if s == "other" then Some(Other)
    else None
  }

  // ---------------------------------------------------------------------
  // Rows
  // ---------------------------------------------------------------------

  datatype User = User(username: string, password: string, role: Role, fullName: Option<string>)

  datatype Phone = Phone(
    brand: string,
    model: string,
    imei: Option<string>,
    color: Option<string>,
    storage: Option<string>,
    ram: Option<string>,
    condition: Option<Condition>,
    price: int,
    costPrice: Option<int>,
    quantity: int,
    description: Option<string>)

  datatype Client = Client(name: string, phone: Option<string>, email: Option<string>, address: Option<string>)

  datatype Sale = Sale(
    phoneId: int,
    clientId: Option<int>,
    userId: int,
    quantity: int,
    unitPrice: int,
    totalPrice: int,
    payment: Option<PaymentMethod>,
    saleDate: string,
    notes: Option<string>)

  datatype StoreInfo = StoreInfo(
    name: string,
    address: string,
    phone: string,
    email: Option<string>,
    logoPath: Option<string>,
    taxNumber: Option<string>)

  /** The whole database. `storeInfo` is the one row `store_info` may hold; its id is 1. */
  datatype Store = Store(
    phones: map<int, Phone>,
    nextPhoneId: int,
    sales: map<int, Sale>,
    nextSaleId: int,
    clients: map<int, Client>,
    users: map<int, User>,
    nextUserId: int,
    storeInfo: Option<StoreInfo>)

  function EmptyStore(): Store {
    Store(map[], 1, map[], 1, map[], map[], 1, None)
  }

  /** Present IMEIs are pairwise different (UNIQUE lets any number of NULLs through). */
  predicate ImeiUnique(phones: map<int, Phone>) {
    forall i, j :: i in phones && j in phones && i != j && phones[i].imei.Some? ==> phones[i].imei != phones[j].imei
  }

  /** What AUTOINCREMENT guarantees of every reachable database: each id lies below its table's counter. */
  predicate Valid(s: Store) {
    && s.nextPhoneId >= 1 && s.nextSaleId >= 1 && s.nextUserId >= 1
    && (forall id :: id in s.phones ==> 1 <= id < s.nextPhoneId)
    && (forall id :: id in s.sales ==> 1 <= id < s.nextSaleId)
    && (forall id :: id in s.users ==> 1 <= id < s.nextUserId)
  }

  // ---------------------------------------------------------------------
  // Table scans
  // ---------------------------------------------------------------------

  /**
    The rows of a table whose ids lie in [1, n), in ascending id order: what a
    full scan of an AUTOINCREMENT table returns when the query has no ORDER BY.
  */
  function Rows<V(!new)>(m: map<int, V>, n: int): (r: seq<(int, V)>)
    ensures forall row :: row in r <==> row.0 in m && 1 <= row.0 < n && m[row.0] == row.1
    decreases n
  {
    if n <= 1 then []
    else if n - 1 in m then Rows(m, n - 1) + [(n - 1, m[n - 1])]
    else Rows(m, n - 1)
  }

  /** The scan lists ids in strictly ascending order, so no row appears twice. */
  lemma {:induction false} RowsAscending<V(!new)>(m: map<int, V>, n: int)
    ensures forall i, j :: 0 <= i < j < |Rows(m, n)| ==> Rows(m, n)[i].0 < Rows(m, n)[j].0
    decreases n
  {
    if n > 1 {
      RowsAscending(m, n - 1);
    }
  }

  /** Two tables that agree below `n` scan alike. */
  lemma {:induction false} RowsAgree<V(!new)>(m1: map<int, V>, m2: map<int, V>, n: int)
    requires forall k :: 1 <= k < n ==> (k in m1 <==> k in m2)
    requires forall k :: 1 <= k < n && k in m1 ==> m1[k] == m2[k]
    ensures Rows(m1, n) == Rows(m2, n)
    decreases n
  {
    if n > 1 {
      RowsAgree(m1, m2, n - 1);
    }
  }

  /** Inserting the next id appends one row to the scan. */
  lemma RowsAppend<V(!new)>(m: map<int, V>, n: int, v: V)
    requires n >= 1 && forall k :: k in m ==> k < n
    ensures Rows(m[n := v], n + 1) == Rows(m, n) + [(n, v)]
  {
    RowsAgree(m[n := v], m, n);
  }

  /** A sum over the scan below `n` adds the row at `n - 1`, if any, to the sum below `n - 1`. */
  lemma SumRowsStep<V(!new)>(m: map<int, V>, n: int, f: ((int, V)) -> int)
    requires n > 1
    ensures SumOf(Rows(m, n), f) == SumOf(Rows(m, n - 1), f) + (if n - 1 in m then f((n - 1, m[n - 1])) else 0)
  {
    if n - 1 in m {
      var last := [(n - 1, m[n - 1])];
      SumOfConcat(Rows(m, n - 1), last, f);
      assert SumOf(last, f) == f((n - 1, m[n - 1])) + SumOf(last[1..], f);
    }
  }

  /** Changing one row changes a sum over the scan by that row's difference. */
  lemma {:induction false} RowsSumUpdate<V(!new)>(m: map<int, V>, n: int, k: int, v: V, f: ((int, V)) -> int)
    requires k in m && 1 <= k < n
    ensures SumOf(Rows(m[k := v], n), f) == SumOf(Rows(m, n), f) - f((k, m[k])) + f((k, v))
    decreases n
  {
    var m' := m[k := v];
    var below, below' := SumOf(Rows(m, n - 1), f), SumOf(Rows(m', n - 1), f);
    var last := if n - 1 in m then f((n - 1, m[n - 1])) else 0;
    var last' := if n - 1 in m' then f((n - 1, m'[n - 1])) else 0;
    assert SumOf(Rows(m, n), f) == below + last by {
      SumRowsStep(m, n, f);
    }
    assert SumOf(Rows(m', n), f) == below' + last' by {
      SumRowsStep(m', n, f);
    }
    if k == n - 1 {
      assert below' == below by {
        RowsAgree(m', m, n - 1);
      }
    } else {
      assert below' == below - f((k, m[k])) + f((k, v)) by {
        RowsSumUpdate(m, n - 1, k, v, f);
      }
    }
  }
  /** Deleting one row takes its term out of a sum over the scan. */
  lemma {:induction false} RowsSumRemove<V(!new)>(m: map<int, V>, n: int, k: int, f: ((int, V)) -> int)
    requires k in m && 1 <= k < n
    ensures SumOf(Rows(m - {k}, n), f) == SumOf(Rows(m, n), f) - f((k, m[k]))
    decreases n
  {
    var m' := m - {k};
    var below, below' := SumOf(Rows(m, n - 1), f), SumOf(Rows(m', n - 1), f);
    var last := if n - 1 in m then f((n - 1, m[n - 1])) else 0;
    assert SumOf(Rows(m, n), f) == below + last by {
      SumRowsStep(m, n, f);
    }
    if k == n - 1 {
      assert SumOf(Rows(m', n), f) == below' by {
        SumRowsStep(m', n, f);
      }
      assert below' == below by {
        RowsAgree(m', m, n - 1);
      }
    } else {
      assert SumOf(Rows(m', n), f) == below' + last by {
        SumRowsStep(m', n, f);
      }
      assert below' == below - f((k, m[k])) by {
        RowsSumRemove(m, n - 1, k, f);
      }
    }
  }

  /** Deleting a row just inserted under a fresh id gives back the table. */
  lemma RemoveAfterInsert<V>(m: map<int, V>, k: int, v: V)
    requires k !in m
    ensures m[k := v] - {k} == m
  {
    var m' := m[k := v] - {k};
    assert m'.Keys == m.Keys;
    assert forall j :: j in m' ==> m'[j] == m[j];
  }

  /** `ORDER BY brand, model` on phone rows. */
  predicate BrandModelLe(a: (int, Phone), b: (int, Phone)) {
    LexLess(a.1.brand, b.1.brand) || (a.1.brand == b.1.brand && LexLe(a.1.model, b.1.model))
  }

  lemma BrandModelTotalPreorder()
    ensures TotalPreorder(BrandModelLe)
  {
    LexLeTotalOrder();
    forall a: (int, Phone), b: (int, Phone)
      ensures BrandModelLe(a, b) || BrandModelLe(b, a)
    {
      LexLessTotal(a.1.brand, b.1.brand);
    }
    forall a: (int, Phone), b: (int, Phone), c: (int, Phone) | BrandModelLe(a, b) && BrandModelLe(b, c)
      ensures BrandModelLe(a, c)
    {
      LexLessTransitive(a.1.brand, b.1.brand, c.1.brand);
    }
  }

  datatype DbError =
    | NotNull(column: string)
    | CheckFailed(column: string)
    | UniqueFailed(column: string)
    | PrimaryKeyConflict

  // ---------------------------------------------------------------------
  // phones: NOT NULL, DEFAULT, CHECK, UNIQUE
  // ---------------------------------------------------------------------

  /**
    The values an INSERT or UPDATE binds for `phones`; `None` is NULL. The
    catalog's statements bind every column, so no DEFAULT applies: `quantity`
    is always bound to a number.
  */
  datatype PhoneColumns = PhoneColumns(
    brand: Option<string>,
    model: Option<string>,
    imei: Option<string>,
    color: Option<string>,
    storage: Option<string>,
    ram: Option<string>,
    condition: Option<string>,
    price: Option<int>,
    costPrice: Option<int>,
    quantity: int,
    description: Option<string>)

  /** The row SQLite stores for `c`, or the constraint it violates. */
  function PhoneRow(c: PhoneColumns): (r: Result<Phone, DbError>)
    ensures r.Ok? <==>
      && c.brand.Some? && c.model.Some? && c.price.Some?
      && (c.condition.Some? ==> ParseCondition(c.condition.value).Some?)
    ensures r.Ok? ==>
      && r.value.brand == c.brand.value
      && r.value.model == c.model.value
      && r.value.price == c.price.value
      && r.value.imei == c.imei
      && r.value.costPrice == c.costPrice
      && r.value.quantity == c.quantity
      && (c.condition.Some? ==> r.value.condition.Some? && r.value.condition.value.Text() == c.condition.value)
  {
    if c.brand.None? then Err(NotNull("brand"))
    else if c.model.None? then Err(NotNull("model"))
    else if c.price.None? then Err(NotNull("price"))
    else if c.condition.Some? && ParseCondition(c.condition.value).None? then Err(CheckFailed("condition"))
    else
      var condition := if c.condition.Some? then ParseCondition(c.condition.value) else None;
      Ok(Phone(
        c.brand.value, c.model.value, c.imei, c.color, c.storage, c.ram, condition,
        c.price.value, c.costPrice, c.quantity, c.description))
  }

  /** Whether a phone other than `self` already holds the present IMEI `imei`. */
  predicate ImeiTaken(phones: map<int, Phone>, imei: Option<string>, self: int) {
    imei.Some? && exists id :: id in phones && id != self && phones[id].imei == imei
  }

  /** `INSERT INTO phones …`: the new row takes the next AUTOINCREMENT rowid. */
  function InsertPhone(s: Store, c: PhoneColumns): (r: Result<(Store, int), DbError>)
    requires Valid(s)
    ensures r.Ok? <==> PhoneRow(c).Ok? && !ImeiTaken(s.phones, c.imei, s.nextPhoneId)
    ensures r.Ok? ==>
      var (s', id) := r.value;
      && Valid(s')
      && (ImeiUnique(s.phones) ==> ImeiUnique(s'.phones))
      && id == s.nextPhoneId && id !in s.phones
      && s'.phones == s.phones[id := PhoneRow(c).value]
      && s' == s.(phones := s'.phones, nextPhoneId := id + 1)
  {
    var row :- PhoneRow(c);
    if ImeiTaken(s.phones, c.imei, s.nextPhoneId) then Err(UniqueFailed("imei"))
    else Ok((s.(phones := s.phones[s.nextPhoneId := row], nextPhoneId := s.nextPhoneId + 1), s.nextPhoneId))
  }

  /**
    `UPDATE phones SET … WHERE id = ?`: a statement that matches no row changes
    nothing and reports no error; on the matched row every constraint applies.
  */
  function UpdatePhone(s: Store, id: int, c: PhoneColumns): (r: Result<Store, DbError>)
    requires Valid(s)
    ensures id !in s.phones ==> r == Ok(s)
    ensures id in s.phones ==> (r.Ok? <==> PhoneRow(c).Ok? && !ImeiTaken(s.phones, c.imei, id))
    ensures r.Ok? ==> Valid(r.value)
    ensures r.Ok? && ImeiUnique(s.phones) ==> ImeiUnique(r.value.phones)
    ensures r.Ok? && id in s.phones ==> r.value == s.(phones := s.phones[id := PhoneRow(c).value])
  {
    if id !in s.phones then Ok(s)
    else
      var row :- PhoneRow(c);
      if ImeiTaken(s.phones, c.imei, id) then Err(UniqueFailed("imei"))
      else Ok(s.(phones := s.phones[id := row]))
  }

  // ---------------------------------------------------------------------
  // sales: NOT NULL, DEFAULT, CHECK
  // ---------------------------------------------------------------------

  /**
    The values an INSERT binds for `sales`; `None` is NULL. `save_sale` binds
    all nine columns, so no DEFAULT applies: `sale_date` is always bound to the
    text the form holds.
  */
  datatype SaleColumns = SaleColumns(
    phoneId: Option<int>,
    clientId: Option<int>,
    userId: Option<int>,
    quantity: Option<int>,
    unitPrice: Option<int>,
    totalPrice: Option<int>,
    payment: Option<string>,
    saleDate: string,
    notes: Option<string>)

  /** The row SQLite stores for `c`, or the constraint it violates. */
  function SaleRow(c: SaleColumns): (r: Result<Sale, DbError>)
    ensures r.Ok? <==>
      && c.phoneId.Some? && c.userId.Some? && c.quantity.Some? && c.unitPrice.Some? && c.totalPrice.Some?
      && (c.payment.Some? ==> ParsePaymentMethod(c.payment.value).Some?)
    ensures r.Ok? ==>
      && r.value.phoneId == c.phoneId.value
      && r.value.userId == c.userId.value
      && r.value.clientId == c.clientId
      && r.value.unitPrice == c.unitPrice.value
      && r.value.totalPrice == c.totalPrice.value
      && r.value.quantity == c.quantity.value
      && r.value.saleDate == c.saleDate
      && r.value.notes == c.notes
      && (c.payment.Some? <==> r.value.payment.Some?)
      && (c.payment.Some? ==> r.value.payment.value.Text() == c.payment.value)
  {
    if c.phoneId.None? then Err(NotNull("phone_id"))
    else if c.userId.None? then Err(NotNull("user_id"))
    else if c.quantity.None? then Err(NotNull("quantity"))
    else if c.unitPrice.None? then Err(NotNull("unit_price"))
    else if c.totalPrice.None? then Err(NotNull("total_price"))
    else if c.payment.Some? && ParsePaymentMethod(c.payment.value).None? then Err(CheckFailed("payment_method"))
    else
      var payment := if c.payment.Some? then ParsePaymentMethod(c.payment.value) else None;
      Ok(Sale(
        c.phoneId.value, c.clientId, c.userId.value, c.quantity.value,
        c.unitPrice.value, c.totalPrice.value, payment, c.saleDate, c.notes))
  }

  /** `INSERT INTO sales …`: the new row takes the next AUTOINCREMENT rowid. */
  function InsertSale(s: Store, c: SaleColumns): (r: Result<(Store, int), DbError>)
    requires Valid(s)
    ensures r.Ok? <==> SaleRow(c).Ok?
    ensures r.Ok? ==>
      var (s', id) := r.value;
      && Valid(s')
      && id == s.nextSaleId && id !in s.sales
      && s' == s.(sales := s.sales[id := SaleRow(c).value], nextSaleId := id + 1)
  {
    var row :- SaleRow(c);
    Ok((s.(sales := s.sales[s.nextSaleId := row], nextSaleId := s.nextSaleId + 1), s.nextSaleId))
  }

  // ---------------------------------------------------------------------
  // store_info: one row, id 1
  // ---------------------------------------------------------------------

  /**
    `INSERT INTO store_info …` with an optional explicit id (omitted means
    DEFAULT 1). The CHECK (id = 1) and the primary key together admit one row.
  */
  function InsertStoreInfo(table: Option<StoreInfo>, id: Option<int>, row: StoreInfo): (r: Result<Option<StoreInfo>, DbError>)
    ensures r.Ok? <==> table.None? && (id.None? || id.value == 1)
    ensures r.Ok? ==> r.value == Some(row)
  {
    if id.Some? && id.value != 1 then Err(CheckFailed("id"))
    else if table.Some? then Err(PrimaryKeyConflict)
    else Ok(Some(row))
  }

  /** Whatever was inserted first, a second insert into `store_info` always fails. */
  lemma StoreInfoHoldsOneRow(id1: Option<int>, row1: StoreInfo, id2: Option<int>, row2: StoreInfo)
    requires InsertStoreInfo(None, id1, row1).Ok?
    ensures InsertStoreInfo(InsertStoreInfo(None, id1, row1).value, id2, row2).Err?
  {
  }

  // ---------------------------------------------------------------------
  // Seeding
  // ---------------------------------------------------------------------

  const DefaultStoreInfo := StoreInfo(
    "My Phone Store", "123 Main St, City", "+1234567890", Some("store@example.com"), None, None)

  const DefaultAdmin := User("admin", "admin123", Admin, Some("Administrator"))
  const DefaultSeller := User("seller", "seller123", Seller, Some("Seller User"))

  /** When `users` is empty, add the default administrator and then the default seller. */
  function SeedUsers(s: Store): (r: Store)
    requires Valid(s)
    ensures Valid(r)
    ensures |s.users| > 0 ==> r == s
    ensures |s.users| == 0 ==>
      && r == s.(users := r.users, nextUserId := s.nextUserId + 2)
      && r.users.Keys == {s.nextUserId, s.nextUserId + 1}
      && r.users[s.nextUserId] == DefaultAdmin && r.users[s.nextUserId + 1] == DefaultSeller
  {
    if |s.users| > 0 then s
    else
      var users := s.users[s.nextUserId := DefaultAdmin][s.nextUserId + 1 := DefaultSeller];
      s.(users := users, nextUserId := s.nextUserId + 2)
  }

  /** When `store_info` is empty, insert the default store details. */
  function SeedStoreInfo(s: Store): (r: Store)
    ensures r.storeInfo.Some?
    ensures s.storeInfo.Some? ==> r == s
    ensures s.storeInfo.None? ==> r == s.(storeInfo := Some(DefaultStoreInfo))
  {
    if s.storeInfo.Some? then s
    else s.(storeInfo := InsertStoreInfo(None, None, DefaultStoreInfo).value)
  }

  /** The seeding `create_tables` performs after the tables exist. */
  function Initialize(s: Store): (r: Store)
    requires Valid(s)
    ensures Valid(r)
    ensures |r.users| > 0 && r.storeInfo.Some?
    ensures r.phones == s.phones && r.sales == s.sales && r.clients == s.clients
  {
    SeedStoreInfo(SeedUsers(s))
  }

  /** Starting the application again adds nothing: seeding is idempotent. */
  lemma InitializeIdempotent(s: Store)
    requires Valid(s)
    ensures Initialize(Initialize(s)) == Initialize(s)
  {
  }

  /** A fresh database is seeded with exactly one administrator and one seller. */
  lemma FreshDatabaseSeeded()
    ensures var s := Initialize(EmptyStore());
      && s.users == map[1 := DefaultAdmin, 2 := DefaultSeller]
      && s.storeInfo == Some(DefaultStoreInfo)
      && s.phones == map[] && s.sales == map[]
  {
  }
}
