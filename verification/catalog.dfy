/**
  The phone catalog screen: saving the form as a new phone or over the phone
  being edited, deleting a phone (administrators only), the phone list and its
  LIKE search, and the text the catalog encodes in a phone's QR label.

  The form's numeric fields arrive already classified (`NumEntry`): how Python's
  `float` and `int` read free text is not modelled, only that blank text takes
  the default and unreadable text aborts the save.
*/
module Catalog {
  import opened Wrappers
  import opened Text
  import opened Sorting
  import opened Schema
  import opened Sales

  // ---------------------------------------------------------------------
  // The phone form
  // ---------------------------------------------------------------------

  /** A numeric entry: left blank, a number, or text `float`/`int` reject. */
  datatype NumEntry = Blank | Number(value: int) | Malformed

  /** The catalog form as the user left it; text fields hold exactly what was typed. */
  datatype PhoneForm = PhoneForm(
    brand: string,
    model: string,
    imei: string,
    color: string,
    storage: string,
    ram: string,
    condition: string,
    price: NumEntry,
    costPrice: NumEntry,
    quantity: NumEntry,
    description: string)

  datatype CatalogError =
    | BrandModelRequired
    | InvalidNumber
    | Database(error: DbError)
    | NoCurrentPhone
    | NotAdmin
    | PhoneRowMissing

  /** `x or default`: a blank entry takes the default; unreadable text is no number at all. */
  function EntryValue(e: NumEntry, default: int): Option<int> {
    match e
    case Blank => Some(default)
    case Number(n) => Some(n)
    case Malformed => None
  }

  /** Every numeric entry reads as a number. */
  predicate Numeric(f: PhoneForm) {
    !f.price.Malformed? && !f.costPrice.Malformed? && !f.quantity.Malformed?
  }

  /** Blank text goes to the database as NULL. */
  function NullIfBlank(text: string): Option<string> {
    if text == "" then None else Some(text)
  }

  /** The condition column accepts the form's choice: none at all, or one of the three values. */
  predicate ConditionAccepted(f: PhoneForm) {
    f.condition == "" || ParseCondition(f.condition).Some?
  }

  /**
    The row a save is meant to write for form `f`: brand and model as typed, a
    blank IMEI or condition left NULL, price and cost 0 and quantity 1 when
    blank, and the description with surrounding whitespace removed.
  */
  function Entered(f: PhoneForm): Phone
    requires Numeric(f)
  {
    Phone(
      f.brand, f.model, NullIfBlank(f.imei), Some(f.color), Some(f.storage), Some(f.ram),
      if f.condition == "" then None else ParseCondition(f.condition),
      EntryValue(f.price, 0).value, Some(EntryValue(f.costPrice, 0).value),
      EntryValue(f.quantity, 1).value, Some(Strip(f.description)))
  }

  /** The columns a save binds, blank IMEI and condition sent as NULL. */
  function Columns(f: PhoneForm): PhoneColumns
    requires Numeric(f)
  {
    PhoneColumns(
      Some(f.brand), Some(f.model), NullIfBlank(f.imei), Some(f.color), Some(f.storage), Some(f.ram),
      NullIfBlank(f.condition), EntryValue(f.price, 0), EntryValue(f.costPrice, 0),
      EntryValue(f.quantity, 1).value, Some(Strip(f.description)))
  }

  /** The columns the source binds: every text field as typed, blank ones as empty text. */
  function ColumnsAsWritten(f: PhoneForm): PhoneColumns
    requires Numeric(f)
  {
    Columns(f).(imei := Some(f.imei), condition := Some(f.condition))
  }

  /**
    The database half of a save: UPDATE the current phone when there is one
    (an id that matches no row changes nothing), otherwise INSERT and make the
    new row current.
  */
  function Write(s: Store, current: Option<int>, c: PhoneColumns): (r: Result<(Store, Option<int>), CatalogError>)
    requires Valid(s)
    ensures r.Ok? ==> Valid(r.value.0)
    ensures r.Ok? && ImeiUnique(s.phones) ==> ImeiUnique(r.value.0.phones)
    ensures Chosen(current) && current.value !in s.phones ==> r == Ok((s, current))
    ensures
      var self := if Chosen(current) then current.value else s.nextPhoneId;
      (!Chosen(current) || current.value in s.phones) ==>
        (r.Ok? <==> PhoneRow(c).Ok? && !ImeiTaken(s.phones, c.imei, self))
    ensures r.Ok? && Chosen(current) && current.value in s.phones ==>
      r.value == (s.(phones := s.phones[current.value := PhoneRow(c).value]), current)
    ensures r.Ok? && !Chosen(current) ==>
      var id := s.nextPhoneId;
      r.value == (s.(phones := s.phones[id := PhoneRow(c).value], nextPhoneId := id + 1), Some(id))
  {
    if Chosen(current) then
      match UpdatePhone(s, current.value, c)
      case Ok(s') => Ok((s', current))
      case Err(e) => Err(Database(e))
    else
      match InsertPhone(s, c)
      case Ok((s', id)) => Ok((s', Some(id)))
      case Err(e) => Err(Database(e))
  }

  // ---------------------------------------------------------------------
  // Saving
  // ---------------------------------------------------------------------

  /**
    Save the form: brand and model must be filled in, the numbers must read,
    and the row must pass the table's constraints. Returns the new store and
    the phone now current.
  */
  function SavePhone(s: Store, current: Option<int>, f: PhoneForm): (r: Result<(Store, Option<int>), CatalogError>)
    requires Valid(s)
    ensures f.brand == "" || f.model == "" ==> r == Err(BrandModelRequired)
    ensures f.brand != "" && f.model != "" && !Numeric(f) ==> r == Err(InvalidNumber)
    ensures r.Ok? ==> f.brand != "" && f.model != "" && Numeric(f) && Valid(r.value.0)
    ensures r.Ok? && ImeiUnique(s.phones) ==> ImeiUnique(r.value.0.phones)
    ensures Chosen(current) && current.value !in s.phones && f.brand != "" && f.model != "" && Numeric(f) ==>
      r == Ok((s, current))
    ensures
      var self := if Chosen(current) then current.value else s.nextPhoneId;
      (!Chosen(current) || current.value in s.phones) ==>
        (r.Ok? <==>
          && f.brand != "" && f.model != "" && Numeric(f) && ConditionAccepted(f)
          && !ImeiTaken(s.phones, NullIfBlank(f.imei), self))
    ensures r.Ok? && Chosen(current) && current.value in s.phones ==>
      r.value == (s.(phones := s.phones[current.value := Entered(f)]), current)
    ensures r.Ok? && !Chosen(current) ==>
      var id := s.nextPhoneId;
      r.value == (s.(phones := s.phones[id := Entered(f)], nextPhoneId := id + 1), Some(id))
  {
    if f.brand == "" || f.model == "" then Err(BrandModelRequired)
    else if !Numeric(f) then Err(InvalidNumber)
    else
      ColumnsRow(f);
      Write(s, current, Columns(f))
  }

  /** The bound columns make a row exactly when the condition is accepted, and that row is the one intended. */
  lemma ColumnsRow(f: PhoneForm)
    requires Numeric(f)
    ensures PhoneRow(Columns(f)).Ok? <==> ConditionAccepted(f)
    ensures PhoneRow(Columns(f)).Ok? ==> PhoneRow(Columns(f)).value == Entered(f)
    ensures Columns(f).imei == NullIfBlank(f.imei)
  {
  }

  /** `save_phone` as the source writes it: blank IMEI and condition are stored as empty text. */
  function SavePhoneAsWritten(s: Store, current: Option<int>, f: PhoneForm): (r: Result<(Store, Option<int>), CatalogError>)
    requires Valid(s)
    ensures f.brand == "" || f.model == "" ==> r == Err(BrandModelRequired)
    ensures f.brand != "" && f.model != "" && !Numeric(f) ==> r == Err(InvalidNumber)
    ensures r.Ok? ==> Valid(r.value.0)
    ensures Numeric(f) && f.imei != "" && f.condition != "" ==> r == SavePhone(s, current, f)
  {
    if f.brand == "" || f.model == "" then Err(BrandModelRequired)
    else if !Numeric(f) then Err(InvalidNumber)
    else Write(s, current, ColumnsAsWritten(f))
  }

  /** A filled-in form for a new phone without IMEI, the shape of the two findings below. */
  function UnlabelledForm(condition: string): PhoneForm {
    PhoneForm("Nokia", "3310", "", "", "", "", condition, Number(2500), Blank, Blank, "")
  }

  /** As written, a second phone without IMEI is refused: both rows would hold the same empty text. */
  lemma SecondBlankImeiRefusedAsWritten()
    ensures SavePhoneAsWritten(EmptyStore(), None, UnlabelledForm("new")).Ok?
    ensures
      var s := SavePhoneAsWritten(EmptyStore(), None, UnlabelledForm("new")).value.0;
      SavePhoneAsWritten(s, None, UnlabelledForm("new")) == Err(Database(UniqueFailed("imei")))
  {
    var f := UnlabelledForm("new");
    var r := SavePhoneAsWritten(EmptyStore(), None, f);
    assert r.Ok?;
    var s := r.value.0;
    assert s.phones[1].imei == Some("");
    assert ImeiTaken(s.phones, Some(""), s.nextPhoneId);
  }

  /** Any number of phones without IMEI can be saved: NULL never clashes under UNIQUE. */
  lemma BlankImeiNeverClashes(s: Store, current: Option<int>, f: PhoneForm)
    requires Valid(s) && f.imei == ""
    ensures SavePhone(s, current, f) != Err(Database(UniqueFailed("imei")))
  {
  }

  /** As written, a phone whose condition was left blank is refused by the condition CHECK. */
  lemma BlankConditionRefusedAsWritten(s: Store, current: Option<int>, f: PhoneForm)
    requires Valid(s) && f.brand != "" && f.model != "" && Numeric(f) && f.condition == ""
    requires !Chosen(current) || current.value in s.phones
    ensures SavePhoneAsWritten(s, current, f) == Err(Database(CheckFailed("condition")))
  {
  }

  /** A blank condition is stored as NULL, which the CHECK accepts. */
  lemma BlankConditionAccepted(s: Store, f: PhoneForm)
    requires Valid(s) && f.brand != "" && f.model != "" && Numeric(f) && f.condition == ""
    requires !ImeiTaken(s.phones, NullIfBlank(f.imei), s.nextPhoneId)
    ensures SavePhone(s, None, f).Ok?
    ensures SavePhone(s, None, f).value.0.phones[s.nextPhoneId].condition == None
  {
  }

  /**
    Editing a phone's quantity in the catalog resets its ledger baseline to the
    new quantity plus the units already sold; every other phone keeps its
    baseline.
  */
  lemma UpdateResetsBaseline(s: Store, id: int, f: PhoneForm, pid: int)
    requires Valid(s) && id in s.phones && SavePhone(s, Some(id), f).Ok? && pid in s.phones
    ensures pid in SavePhone(s, Some(id), f).value.0.phones
    ensures
      var s' := SavePhone(s, Some(id), f).value.0;
      Baseline(s', pid) == if pid == id then EntryValue(f.quantity, 1).value + UnitsSold(s, pid) else Baseline(s, pid)
  {
    var s' := SavePhone(s, Some(id), f).value.0;
    assert UnitsSold(s', pid) == UnitsSold(s, pid) by {
      assert s'.sales == s.sales && s'.nextSaleId == s.nextSaleId;
    }
  }

  // ---------------------------------------------------------------------
  // Deleting
  // ---------------------------------------------------------------------

  /**
    Delete the current phone. Only an administrator may, and only after
    confirming; the sales that sold the phone stay behind, since nothing turns
    SQLite's foreign keys on. A current id that matches no row aborts the
    handler before anything is written. On success the form is cleared.
  */
  function DeletePhone(s: Store, current: Option<int>, role: string, confirmed: bool): (r: Result<(Store, Option<int>), CatalogError>)
    requires Valid(s)
    ensures !Chosen(current) ==> r == Err(NoCurrentPhone)
    ensures Chosen(current) && role != Admin.Text() ==> r == Err(NotAdmin)
    ensures r.Ok? && r.value.0 != s ==> Chosen(current) && role == Admin.Text() && confirmed
    ensures Chosen(current) && role == Admin.Text() && !confirmed ==> r == Ok((s, current))
    ensures Chosen(current) && role == Admin.Text() && confirmed ==>
      var id := current.value;
      && (id !in s.phones ==> r == Err(PhoneRowMissing))
      && (id in s.phones ==>
            && r.Ok? && Valid(r.value.0) && r.value.1 == None
            && r.value.0.phones.Keys == s.phones.Keys - {id}
            && (forall k :: k in r.value.0.phones ==> r.value.0.phones[k] == s.phones[k])
            && r.value.0.sales == s.sales
            && r.value.0 == s.(phones := r.value.0.phones))
  {
    if !Chosen(current) then Err(NoCurrentPhone)
    else if role != Admin.Text() then Err(NotAdmin)
    else if !confirmed then Ok((s, current))
    else if current.value !in s.phones then Err(PhoneRowMissing)
    else Ok((s.(phones := s.phones - {current.value}), None))
  }

  /**
    After its phone is deleted, a sale can no longer be deleted: the stock it
    would return has nowhere to go.
  */
  lemma OrphanedSaleStaysRecorded(s: Store, phoneId: int, saleId: int)
    requires Valid(s) && phoneId in s.phones && phoneId != 0
    requires saleId in s.sales && saleId != 0 && s.sales[saleId].phoneId == phoneId
    ensures DeletePhone(s, Some(phoneId), Admin.Text(), true).Ok?
    ensures
      var s' := DeletePhone(s, Some(phoneId), Admin.Text(), true).value.0;
      saleId in s'.sales && DeleteSale(s', Some(saleId), true) == Err(PhoneNotFound)
  {
  }

  /** A phone added after a deletion never takes the deleted phone's id (AUTOINCREMENT). */
  lemma DeletedIdNotReused(s: Store, id: int, role: string, f: PhoneForm)
    requires Valid(s) && DeletePhone(s, Some(id), role, true).Ok?
    requires SavePhone(DeletePhone(s, Some(id), role, true).value.0, None, f).Ok?
    ensures SavePhone(DeletePhone(s, Some(id), role, true).value.0, None, f).value.1 != Some(id)
  {
  }

  // ---------------------------------------------------------------------
  // The phone list and search
  // ---------------------------------------------------------------------

  /** `SELECT … FROM phones ORDER BY brand, model`. */
  function LoadPhones(s: Store): (r: seq<(int, Phone)>)
    requires Valid(s)
    ensures Sorted(r, BrandModelLe)
    ensures multiset(r) == multiset(Rows(s.phones, s.nextPhoneId))
    ensures forall row :: row in r <==> row.0 in s.phones && s.phones[row.0] == row.1
  {
    BrandModelTotalPreorder();
    var r := Sort(Rows(s.phones, s.nextPhoneId), BrandModelLe);
    assert forall row :: row in r <==> row in multiset(r);
    r
  }

  /** SQLite's LIKE folds ASCII letters only. */
  function Fold(c: char): char {
    if 'A' <= c <= 'Z' then (c as int + 32) as char else c
  }

  /** `s` with ASCII letters lower-cased. */
  function FoldAll(s: string): (r: string)
    ensures |r| == |s| && forall k :: 0 <= k < |s| ==> r[k] == Fold(s[k])
  {
    seq(|s|, k requires 0 <= k < |s| => Fold(s[k]))
  }

  /**
    `s LIKE p` without an ESCAPE clause: `%` matches any run of characters,
    `_` exactly one, any other character itself up to ASCII case.
  */
  function LikeMatch(s: string, p: string): bool
    decreases |s| + |p|
  {
    if |p| == 0 then |s| == 0
    else if p[0] == '%' then LikeMatch(s, p[1..]) || (|s| > 0 && LikeMatch(s[1..], p))
    else if |s| == 0 then false
    else if p[0] == '_' then LikeMatch(s[1..], p[1..])
    else Fold(s[0]) == Fold(p[0]) && LikeMatch(s[1..], p[1..])
  }

  /** The pattern `%term%` the search binds, with the term's own wildcards left live. */
  function Around(term: string): string {
    "%" + term + "%"
  }

  /** `brand LIKE ? OR model LIKE ? OR imei LIKE ?`; a NULL IMEI matches nothing. */
  predicate Hit(p: Phone, term: string) {
    || LikeMatch(p.brand, Around(term))
    || LikeMatch(p.model, Around(term))
    || (p.imei.Some? && LikeMatch(p.imei.value, Around(term)))
  }

  function HitBy(term: string): ((int, Phone)) -> bool {
    (row: (int, Phone)) => Hit(row.1, term)
  }

  /** The search box: phones whose brand, model or IMEI is LIKE `%term%`, by brand then model. */
  function SearchPhones(s: Store, term: string): (r: seq<(int, Phone)>)
    requires Valid(s)
    ensures Sorted(r, BrandModelLe)
    ensures multiset(r) == multiset(Filter(Rows(s.phones, s.nextPhoneId), HitBy(term)))
    ensures forall row :: row in r <==> row.0 in s.phones && s.phones[row.0] == row.1 && Hit(row.1, term)
  {
    BrandModelTotalPreorder();
    HitRows(s, term);
    var r := Sort(Filter(Rows(s.phones, s.nextPhoneId), HitBy(term)), BrandModelLe);
    assert forall row :: row in r <==> row in multiset(r);
    r
  }

  /** The rows the search keeps are the catalog's phones that match the term. */
  lemma HitRows(s: Store, term: string)
    requires Valid(s)
    ensures forall row :: row in Filter(Rows(s.phones, s.nextPhoneId), HitBy(term)) <==>
      row.0 in s.phones && s.phones[row.0] == row.1 && Hit(row.1, term)
  {
  }

  /** The term holds neither LIKE wildcard. */
  predicate Literal(term: string) {
    '%' !in term && '_' !in term
  }

  /** The term occurs in `s` once ASCII case is ignored. */
  predicate ContainsIgnoringCase(s: string, term: string) {
    Contains(FoldAll(s), FoldAll(term))
  }

  lemma {:induction false} PercentMatchesAll(s: string)
    ensures LikeMatch(s, "%")
  {
    assert "%"[1..] == "";
    if |s| > 0 {
      PercentMatchesAll(s[1..]);
    }
  }

  /** Some suffix of `s` matches `q`. */
  predicate SuffixMatches(s: string, q: string) {
    exists i :: 0 <= i <= |s| && LikeMatch(s[i..], q)
  }

  /** A leading `%` lets the rest of the pattern match any suffix. */
  lemma {:induction false} LeadingPercent(s: string, q: string)
    ensures LikeMatch(s, "%" + q) <==> SuffixMatches(s, q)
  {
    var p := "%" + q;
    assert p[1..] == q;
    assert s[0..] == s;
    if |s| > 0 {
      LeadingPercent(s[1..], q);
      if SuffixMatches(s[1..], q) {
        var j :| 0 <= j <= |s[1..]| && LikeMatch(s[1..][j..], q);
        assert s[1..][j..] == s[1 + j..];
      }
      if SuffixMatches(s, q) && !LikeMatch(s, q) {
        var i :| 0 <= i <= |s| && LikeMatch(s[i..], q);
        assert i > 0;
        assert s[1..][i - 1..] == s[i..];
        assert SuffixMatches(s[1..], q);
      }
    }
  }

  /** `s` starts with `t` up to ASCII case. */
  predicate StartsWithIgnoringCase(s: string, t: string) {
    |t| <= |s| && forall k :: 0 <= k < |t| ==> Fold(s[k]) == Fold(t[k])
  }

  /** A literal followed by `%` matches exactly the texts that start with the literal. */
  lemma {:induction false} LiteralThenPercent(s: string, t: string)
    requires Literal(t)
    ensures LikeMatch(s, t + "%") <==> StartsWithIgnoringCase(s, t)
    decreases |t|
  {
    if |t| == 0 {
      assert t + "%" == "%";
      PercentMatchesAll(s);
    } else {
      var p := t + "%";
      assert p[0] == t[0] && p[1..] == t[1..] + "%";
      assert Literal(t[1..]) by {
        assert forall c :: c in t[1..] ==> c in t;
      }
      if |s| > 0 {
        LiteralThenPercent(s[1..], t[1..]);
        assert StartsWithIgnoringCase(s, t) <==>
          Fold(s[0]) == Fold(t[0]) && StartsWithIgnoringCase(s[1..], t[1..]) by {
          if Fold(s[0]) == Fold(t[0]) && StartsWithIgnoringCase(s[1..], t[1..]) {
            forall k | 0 < k < |t|
              ensures Fold(s[k]) == Fold(t[k])
            {
              assert s[1..][k - 1] == s[k] && t[1..][k - 1] == t[k];
            }
          }
        }
      }
    }
  }

  lemma StartsWithIgnoringCaseAt(s: string, t: string, i: int)
    requires 0 <= i <= |s|
    ensures StartsWithIgnoringCase(s[i..], t) <==> OccursAt(FoldAll(s), FoldAll(t), i)
  {
    if StartsWithIgnoringCase(s[i..], t) {
      assert FoldAll(s)[i..i + |t|] == FoldAll(t) by {
        forall k | 0 <= k < |t|
          ensures FoldAll(s)[i..i + |t|][k] == FoldAll(t)[k]
        {
          assert s[i..][k] == s[i + k];
        }
      }
    }
    if OccursAt(FoldAll(s), FoldAll(t), i) {
      forall k | 0 <= k < |t|
        ensures Fold(s[i..][k]) == Fold(t[k])
      {
        assert FoldAll(s)[i..i + |t|][k] == FoldAll(s)[i + k];
      }
    }
  }

  /** For a term without wildcards, `LIKE '%term%'` is a substring test that ignores ASCII case. */
  lemma LikeIsSubstring(s: string, term: string)
    requires Literal(term)
    ensures LikeMatch(s, Around(term)) <==> ContainsIgnoringCase(s, term)
  {
    assert Around(term) == "%" + (term + "%");
    LeadingPercent(s, term + "%");
    if SuffixMatches(s, term + "%") {
      var i :| 0 <= i <= |s| && LikeMatch(s[i..], term + "%");
      LiteralThenPercent(s[i..], term);
      StartsWithIgnoringCaseAt(s, term, i);
    }
    if ContainsIgnoringCase(s, term) {
      var i :| 0 <= i <= |FoldAll(s)| - |FoldAll(term)| && OccursAt(FoldAll(s), FoldAll(term), i);
      StartsWithIgnoringCaseAt(s, term, i);
      LiteralThenPercent(s[i..], term);
      assert SuffixMatches(s, term + "%");
    }
  }

  /**
    Searching for a term without wildcards lists exactly the phones whose
    brand, model or IMEI contains it, ignoring ASCII case.
  */
  lemma SearchFindsSubstrings(s: Store, term: string)
    requires Valid(s) && Literal(term)
    ensures forall row :: row in SearchPhones(s, term) <==>
      && row.0 in s.phones && s.phones[row.0] == row.1
      && (|| ContainsIgnoringCase(row.1.brand, term)
          || ContainsIgnoringCase(row.1.model, term)
          || (row.1.imei.Some? && ContainsIgnoringCase(row.1.imei.value, term)))
  {
    forall p: Phone
      ensures Hit(p, term) <==>
        || ContainsIgnoringCase(p.brand, term)
        || ContainsIgnoringCase(p.model, term)
        || (p.imei.Some? && ContainsIgnoringCase(p.imei.value, term))
    {
      LikeIsSubstring(p.brand, term);
      LikeIsSubstring(p.model, term);
      if p.imei.Some? {
        LikeIsSubstring(p.imei.value, term);
      }
    }
  }

  /** An empty search box, or one holding only `%`, lists the whole catalog in list order. */
  lemma WildcardSearchListsAll(s: Store, term: string)
    requires Valid(s) && (term == "" || term == "%")
    ensures SearchPhones(s, term) == LoadPhones(s)
  {
    forall p: Phone
      ensures Hit(p, term)
    {
      assert Around(term)[1..] == (if term == "" then "%" else "%%");
      if term == "%" {
        assert Around(term)[1..][1..] == "%";
      }
      PercentMatchesAll(p.brand);
    }
    FilterAll(Rows(s.phones, s.nextPhoneId), HitBy(term));
  }

  // ---------------------------------------------------------------------
  // QR label text
  // ---------------------------------------------------------------------

  /** How an f-string prints an optional column: its text, or `None` for NULL. */
  function Shown(v: Option<string>): string {
    if v.Some? then v.value else "None"
  }

  /** `PHONE:<id>|<brand>|<model>|<imei>`, the text encoded in a phone's QR label. */
  function QrPayload(id: int, p: Phone): (r: string)
    ensures StartsWith(r, "PHONE:")
  {
    var r := "PHONE:" + IntToString(id) + "|" + p.brand + "|" + p.model + "|" + Shown(p.imei);
    assert r[..6] == "PHONE:";
    r
  }

  /** The label text for the current phone; none without a current phone or once its row is gone. */
  function GenerateQrPayload(s: Store, current: Option<int>): (r: Option<string>)
    ensures r.Some? <==> Chosen(current) && current.value in s.phones
    ensures r.Some? ==> r == Some(QrPayload(current.value, s.phones[current.value]))
  {
    if !Chosen(current) || current.value !in s.phones then None
    else Some(QrPayload(current.value, s.phones[current.value]))
  }

  /** The first `|`-separated field after the prefix gives back the phone id. */
  lemma QrPayloadNamesPhone(id: int, p: Phone)
    ensures ParseInteger(UpTo(QrPayload(id, p)[6..], '|')) == Some(id)
  {
    var rest := p.brand + "|" + p.model + "|" + Shown(p.imei);
    assert QrPayload(id, p)[6..] == IntToString(id) + ['|'] + rest;
    IntToStringCharacters(id);
    UpToField(IntToString(id), '|', rest);
    IntToStringRoundTrip(id);
  }

  /** When brand and model hold no `|`, the label's fields give back brand, model and IMEI text. */
  lemma QrPayloadFields(id: int, p: Phone)
    requires '|' !in p.brand && '|' !in p.model
    ensures
      var t := QrPayload(id, p)[|IntToString(id)| + 7..];
      && UpTo(t, '|') == p.brand
      && t[|p.brand| + 1..][..|p.model| + 1] == p.model + "|"
      && t[|p.brand| + |p.model| + 2..] == Shown(p.imei)
  {
    var t := QrPayload(id, p)[|IntToString(id)| + 7..];
    assert t == p.brand + ['|'] + (p.model + "|" + Shown(p.imei));
    UpToField(p.brand, '|', p.model + "|" + Shown(p.imei));
  }
}
