/**
  The QR scanner screen, after decoding: every scanned text is logged, a text
  of the form `PHONE_ID:<id>` looks the phone up, anything else is turned away.

  The id text is bound into `WHERE p.id = ?`; the id column's INTEGER affinity
  turns text that reads as an integer into that integer, and text that does
  not can equal no id.
*/
module QrScan {
  import opened Wrappers
  import opened Text
  import opened Schema
  import Catalog

  /** What the phone details panel shows. */
  datatype Panel = PhoneDetails(id: int, phone: Phone) | Notice(text: string)

  /** The outcome of one scan: the line appended to the results log and the panel's new contents. */
  datatype Scan = Scan(logLine: string, panel: Panel)

  const PhoneIdPrefix: string := "PHONE_ID:"
  const NotPhoneCode: string := "QR code doesn't contain phone information"
  const NoSuchPhone: string := "Phone not found in database"

  /** The phone whose id the text names, or the not-found notice. */
  function LookupPhoneDetails(s: Store, idText: string): (r: Panel)
    ensures r.PhoneDetails? <==> ParseInteger(idText).Some? && ParseInteger(idText).value in s.phones
    ensures r.PhoneDetails? ==> r.id == ParseInteger(idText).value && r.phone == s.phones[r.id]
    ensures r.Notice? ==> r.text == NoSuchPhone
  {
    match ParseInteger(idText)
    case Some(id) => if id in s.phones then PhoneDetails(id, s.phones[id]) else Notice(NoSuchPhone)
    case None => Notice(NoSuchPhone)
  }

  /** Handle a decoded QR text. */
  function ProcessQrData(s: Store, data: string): (r: Scan)
    ensures r.logLine == "Scanned QR Code: " + data
    ensures !StartsWith(data, PhoneIdPrefix) ==> r.panel == Notice(NotPhoneCode)
    ensures StartsWith(data, PhoneIdPrefix) ==> ':' in data && r.panel == LookupPhoneDetails(s, Strip(SecondField(data, ':')))
  {
    var log := "Scanned QR Code: " + data;
    if StartsWith(data, PhoneIdPrefix) then
      assert data[8] == PhoneIdPrefix[8] == ':';
      Scan(log, LookupPhoneDetails(s, Strip(SecondField(data, ':'))))
    else Scan(log, Notice(NotPhoneCode))
  }

  /** The id field of a `PHONE_ID:` text is everything between the first colon and the next one. */
  lemma {:induction false} PhoneIdField(idText: string, rest: string)
    requires ':' !in idText
    ensures StartsWith(PhoneIdPrefix + idText + rest, PhoneIdPrefix)
    ensures SecondField(PhoneIdPrefix + idText + rest, ':') == UpTo(idText + rest, ':')
  {
    var data := PhoneIdPrefix + idText + rest;
    assert data[..9] == PhoneIdPrefix;
    assert "PHONE_ID" + [':'] + (idText + rest) == data;
    UpToField("PHONE_ID", ':', idText + rest);
    assert data[9..] == idText + rest;
  }

  /** `str(id)` holds no colon and no surrounding whitespace, and reads back as `id`. */
  lemma IdText(id: int)
    ensures var t := IntToString(id);
      && ':' !in t && !IsSpace(t[0]) && !IsSpace(t[|t| - 1])
      && Strip(t) == t && ParseInteger(t) == Some(id)
  {
    var t := IntToString(id);
    IntToStringCharacters(id);
    assert t[0] in t && t[|t| - 1] in t;
    StripUnpadded(t);
    IntToStringRoundTrip(id);
  }

  /** A `PHONE_ID:` text looks up its stripped second field. */
  lemma ScanLooksUp(s: Store, data: string, idText: string)
    requires StartsWith(data, PhoneIdPrefix) && ':' in data && Strip(SecondField(data, ':')) == idText
    ensures ProcessQrData(s, data).panel == LookupPhoneDetails(s, idText)
  {
  }

  /** A `PHONE_ID:` text naming a catalog phone brings up exactly that phone. */
  lemma PhoneIdRoundTrip(s: Store, id: int)
    requires id in s.phones
    ensures ProcessQrData(s, PhoneIdPrefix + IntToString(id)).panel == PhoneDetails(id, s.phones[id])
  {
    var t := IntToString(id);
    IdText(id);
    BareField(t);
    ScanLooksUp(s, PhoneIdPrefix + t, t);
  }

  /** The id field of `PHONE_ID:<t>` is `t` itself. */
  lemma BareField(t: string)
    requires ':' !in t
    ensures var data := PhoneIdPrefix + t;
      StartsWith(data, PhoneIdPrefix) && ':' in data && SecondField(data, ':') == t
  {
    PhoneIdField(t, "");
    assert PhoneIdPrefix + t + "" == PhoneIdPrefix + t && t + "" == t;
    UpToWhole(t, ':');
  }

  /** The id field of `PHONE_ID:<a><t><b>:<tail>` is `t` with its two surrounding characters. */
  lemma PaddedField(a: char, t: string, b: char, tail: string)
    requires ':' !in t && a != ':' && b != ':'
    ensures var data := PhoneIdPrefix + [a] + t + [b] + ":" + tail;
      StartsWith(data, PhoneIdPrefix) && ':' in data && SecondField(data, ':') == [a] + t + [b]
  {
    var data := PhoneIdPrefix + [a] + t + [b] + ":" + tail;
    var field := [a] + t + [b];
    assert ':' !in field;
    assert data == PhoneIdPrefix + field + ([':'] + tail);
    PhoneIdField(field, [':'] + tail);
    assert field + ([':'] + tail) == field + [':'] + tail;
    UpToField(field, ':', tail);
  }

  /** One whitespace character either side of a text that is not itself padded is all `strip()` removes. */
  lemma StripOnePad(a: char, t: string, b: char)
    requires IsSpace(a) && IsSpace(b)
    requires |t| > 0 && !IsSpace(t[0]) && !IsSpace(t[|t| - 1])
    ensures Strip([a] + t + [b]) == t
  {
    assert ([a] + t + [b])[1..] == t + [b];
    assert StripLeft(t + [b]) == t + [b];
    assert (t + [b])[..|t|] == t;
    assert StripRight(t + [b]) == StripRight(t);
    StripUnpadded(t);
  }

  /**
    Whitespace around the id (any character `str.strip()` removes, such as a
    space or a no-break space) and anything after a second colon do not change
    the phone found.
  */
  lemma PaddedPhoneIdFindsPhone(s: Store, id: int, a: char, b: char, tail: string)
    requires id in s.phones && IsSpace(a) && IsSpace(b)
    ensures ProcessQrData(s, PhoneIdPrefix + [a] + IntToString(id) + [b] + ":" + tail).panel == PhoneDetails(id, s.phones[id])
  {
    IdText(id);
    PaddedTextFindsPhone(s, id, a, IntToString(id), b, tail);
  }

  /** The same for any id text that reads as `id` and holds no colon or surrounding whitespace. */
  lemma PaddedTextFindsPhone(s: Store, id: int, a: char, t: string, b: char, tail: string)
    requires id in s.phones && IsSpace(a) && IsSpace(b)
    requires ':' !in t && |t| > 0 && !IsSpace(t[0]) && !IsSpace(t[|t| - 1]) && ParseInteger(t) == Some(id)
    ensures ProcessQrData(s, PhoneIdPrefix + [a] + t + [b] + ":" + tail).panel == PhoneDetails(id, s.phones[id])
  {
    var data, field := PhoneIdPrefix + [a] + t + [b] + ":" + tail, [a] + t + [b];
    PaddedField(a, t, b, tail);
    StripOnePad(a, t, b);
    ScanLooksUp(s, data, t);
  }

  /** A single whitespace character before the id, such as the no-break space of `"PHONE_ID:\u00a012"`, is stripped too. */
  lemma LeadingPadFindsPhone(s: Store, id: int, a: char)
    requires id in s.phones && IsSpace(a)
    ensures ProcessQrData(s, PhoneIdPrefix + [a] + IntToString(id)).panel == PhoneDetails(id, s.phones[id])
  {
    IdText(id);
    LeadingPadTextFindsPhone(s, id, a, IntToString(id));
  }

  /** The same for any id text that reads as `id` and holds no colon or surrounding whitespace. */
  lemma LeadingPadTextFindsPhone(s: Store, id: int, a: char, t: string)
    requires id in s.phones && IsSpace(a)
    requires ':' !in t && |t| > 0 && !IsSpace(t[0]) && !IsSpace(t[|t| - 1]) && ParseInteger(t) == Some(id)
    ensures ProcessQrData(s, PhoneIdPrefix + [a] + t).panel == PhoneDetails(id, s.phones[id])
  {
    var field := [a] + t;
    assert ':' !in field;
    BareField(field);
    assert PhoneIdPrefix + field == PhoneIdPrefix + [a] + t;
    StripLeadingPad(a, t);
    ScanLooksUp(s, PhoneIdPrefix + field, t);
  }

  /** One leading whitespace character before a text that is not itself padded is all `strip()` removes. */
  lemma StripLeadingPad(a: char, t: string)
    requires IsSpace(a)
    requires |t| > 0 && !IsSpace(t[0]) && !IsSpace(t[|t| - 1])
    ensures Strip([a] + t) == t
  {
    assert ([a] + t)[1..] == t;
    assert StripLeft([a] + t) == StripLeft(t);
    StripUnpadded(t);
  }

  /**
    The text the catalog puts on a phone's QR label is never recognised as a
    phone code: `PHONE:` is not `PHONE_ID:`.
  */
  lemma CatalogLabelNotRecognised(s: Store, id: int, p: Phone)
    ensures ProcessQrData(s, Catalog.QrPayload(id, p)).panel == Notice(NotPhoneCode)
  {
    var data := Catalog.QrPayload(id, p);
    assert data[5] == "PHONE:"[5] != PhoneIdPrefix[5];
    assert !StartsWith(data, PhoneIdPrefix);
  }
}
