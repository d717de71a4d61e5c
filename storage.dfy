/** `storageAPI`: the app's PDF list and settings, kept as JSON text under two
    keys of the device's key-value store (AsyncStorage).

    The store is a map from key to what reading that key gives.  A JSON
    text is represented by the value it parses to, so `JSON.parse` is
    exact; `JSON.stringify` followed by `JSON.parse` is `RoundTrip`, which
    drops the object members whose value is `undefined` and turns an
    `undefined` array element into `null`. */
module Storage {
  import opened MuPdfEngine
  import T = TextUtil

  /** A JavaScript value as far as this file handles it.  Numbers are
      integers; objects are their own enumerable string-keyed members. */
  datatype Value =
    | Undefined
    | Null
    | Bool(b: bool)
    | Num(n: int)
    | Str(s: string)
    | Arr(elems: seq<Value>)
    | Obj(fields: map<string, Value>)

  /** What reading one key gives: the JSON text stored there (as the value
      it parses to), the empty string, or a read or parse that throws. */
  datatype Stored = Json(value: Value) | EmptyText | Unreadable

  const PdfListKey: string := "pdfs"
  const SettingsKey: string := "settings"

  /** `defaultSettings`. */
  const DefaultSettings: map<string, Value> := map["defaultLanguage" := Str("en"), "defaultSpeed" := Num(1)]

  /** The result of a call together with the store it leaves behind. */
  datatype Step<+R> = Step(result: Outcome<R>, slots: map<string, Stored>)

  /** JavaScript truthiness. */
  predicate Truthy(v: Value) {
    match v
    case Undefined => false
    case Null => false
    case Bool(b) => b
    case Num(n) => n != 0
    case Str(s) => s != ""
    case _ => true
  }

  /** `v.key` for the plain member names this file reads (`id`, `name`,
      `uri`, `type`): `None` when `v` is `null` or `undefined`, where the
      lookup throws a TypeError. */
  function Prop(v: Value, key: string): (r: Option<Value>)
    ensures r.None? <==> v.Null? || v.Undefined?
    ensures v.Obj? ==> r == Some(if key in v.fields then v.fields[key] else Undefined)
  {
    match v
    case Undefined => None
    case Null => None
    case Obj(f) => Some(if key in f then f[key] else Undefined)
    case _ => Some(Undefined)
  }

  /** Different numbers have different decimal representations. */
  lemma DecimalStringDistinct(i: nat, j: nat)
    requires i != j
    ensures T.DecimalString(i) != T.DecimalString(j)
  {
    T.DecimalStringRoundTrip(i);
    T.DecimalStringRoundTrip(j);
  }

  /** A string's characters, each as a one-character string. */
  function Chars(s: string): (r: seq<Value>)
    ensures |r| == |s| && forall i :: 0 <= i < |s| ==> r[i] == Str([s[i]])
  {
    seq(|s|, i requires 0 <= i < |s| => Str([s[i]]))
  }

  /** The members "0", "1", ... holding the given values. */
  function Indexed(vals: seq<Value>): map<string, Value> {
    if |vals| == 0 then map[]
    else Indexed(vals[..|vals| - 1])[T.DecimalString(|vals| - 1) := vals[|vals| - 1]]
  }

  /** Member `i` of the indexed members is element `i`. */
  lemma {:induction false} IndexedMembers(vals: seq<Value>)
    ensures forall i :: 0 <= i < |vals| ==> T.DecimalString(i) in Indexed(vals) && Indexed(vals)[T.DecimalString(i)] == vals[i]
  {
    if |vals| > 0 {
      var n := |vals| - 1;
      IndexedMembers(vals[..n]);
      forall i | 0 <= i < n
        ensures T.DecimalString(i) in Indexed(vals) && Indexed(vals)[T.DecimalString(i)] == vals[i]
      {
        DecimalStringDistinct(i, n);
      }
    }
  }

  /** Every indexed member holds one of the elements. */
  lemma {:induction false} IndexedValues(vals: seq<Value>)
    ensures forall k :: k in Indexed(vals) ==> Indexed(vals)[k] in vals
  {
    if |vals| > 0 {
      var n := |vals| - 1;
      IndexedValues(vals[..n]);
      assert forall x :: x in vals[..n] ==> x in vals;
    }
  }

  /** The members `{...v}` copies: an object's own members, the indexed
      elements of an array or characters of a string, nothing otherwise. */
  function Spread(v: Value): map<string, Value> {
    match v
    case Obj(f) => f
    case Arr(e) => Indexed(e)
    case Str(s) => Indexed(Chars(s))
    case _ => map[]
  }

  /** The elements `[...v]` iterates over; `None` when `v` is not iterable
      and the spread throws a TypeError. */
  function Elements(v: Value): (r: Option<seq<Value>>)
    ensures r.Some? <==> v.Arr? || v.Str?
    ensures v.Arr? ==> r == Some(v.elems)
    ensures v.Str? ==> r == Some(Chars(v.s))
  {
    match v
    case Arr(e) => Some(e)
    case Str(s) => Some(Chars(s))
    case _ => None
  }

  /** `undefined` nowhere inside: what a JSON text can parse to. */
  predicate IsJson(v: Value) {
    match v
    case Undefined => false
    case Arr(e) => forall i :: 0 <= i < |e| ==> IsJson(e[i])
    case Obj(f) => forall k :: k in f ==> IsJson(f[k])
    case _ => true
  }

  /** `JSON.parse(JSON.stringify(v))` for a value inside an array or an
      object (where `undefined` becomes `null` or disappears). */
  function RoundTrip(v: Value): (r: Value)
    ensures IsJson(r)
  {
    match v
    case Undefined => Null
    case Arr(e) => Arr(seq(|e|, i requires 0 <= i < |e| => RoundTrip(e[i])))
    case Obj(f) => Obj(map k | k in f && !f[k].Undefined? :: RoundTrip(f[k]))
    case _ => v
  }

  /** Serialising and parsing back changes nothing in a value that holds no
      `undefined`. */
  lemma {:induction false} RoundTripIdentity(v: Value)
    requires IsJson(v)
    ensures RoundTrip(v) == v
  {
    match v
    case Arr(e) =>
      forall i | 0 <= i < |e|
        ensures RoundTrip(e[i]) == e[i]
      {
        RoundTripIdentity(e[i]);
      }
      assert RoundTrip(v).elems == e;
    case Obj(f) =>
      forall k | k in f
        ensures RoundTrip(f[k]) == f[k]
      {
        RoundTripIdentity(f[k]);
      }
      assert RoundTrip(v).fields == f;
    case _ =>
  }

  /** What the store holds between calls: every JSON text parses to a value
      without `undefined`. */
  predicate StoreInv(slots: map<string, Stored>) {
    forall k :: k in slots && slots[k].Json? ==> IsJson(slots[k].value)
  }

  /** `getPDFs`: the parsed list, or `[]` when the key is absent, holds the
      empty string, or cannot be read or parsed. */
  function GetPDFs(slots: map<string, Stored>): (r: Value)
    ensures PdfListKey in slots && slots[PdfListKey].Json? ==> r == slots[PdfListKey].value
    ensures !(PdfListKey in slots && slots[PdfListKey].Json?) ==> r == Arr([])
  {
    if PdfListKey in slots && slots[PdfListKey].Json? then slots[PdfListKey].value else Arr([])
  }

  /** The record `savePDF` builds: the defaults (`id` from the clock, `name`
      and `uri` copied, `type` or "upload", `createdAt`), then every member
      of `pdf` on top.  `None` when `pdf` is `null` or `undefined`. */
  function NewRecord(pdf: Value, now: nat, createdAt: string): (r: Option<Value>)
    ensures r.None? <==> pdf.Null? || pdf.Undefined?
  {
    match (Prop(pdf, "name"), Prop(pdf, "uri"), Prop(pdf, "type"))
    case (Some(name), Some(uri), Some(kind)) =>
      var defaults := map[
        "id" := Str(T.DecimalString(now)),
        "name" := name,
        "uri" := uri,
        "type" := if Truthy(kind) then kind else Str("upload"),
        "createdAt" := Str(createdAt)];
      Some(Obj(defaults + Spread(pdf)))
    case _ => None
  }

  /** `savePDF`: append the new record to the stored list and return it;
      throw, leaving the store alone, when `pdf` is nullish or the stored
      list is not iterable. */
  function SavePDFStep(slots: map<string, Stored>, pdf: Value, now: nat, createdAt: string): Step<Value> {
    var existing := GetPDFs(slots);
    match (NewRecord(pdf, now, createdAt), Elements(existing))
    case (Some(record), Some(elems)) =>
      Step(Returned(record), slots[PdfListKey := Json(RoundTrip(Arr(elems + [record])))])
    case _ => Step(Threw, slots)
  }

  /** `pdf.id !== pdfId` for a stored record: an array or object read from
      storage is a fresh object, never identical to the argument. */
  predicate Matches(id: Value, pdfId: Value) {
    !id.Arr? && !id.Obj? && id == pdfId
  }

  /** `null` or `undefined`: reading a member of it throws. */
  predicate Nullish(v: Value) {
    v.Null? || v.Undefined?
  }

  /** `filter((pdf) => pdf.id !== pdfId)`: the records whose `id` is not
      `pdfId`, in order; `None` when some element is `null` or `undefined`. */
  function Filter(records: seq<Value>, pdfId: Value): (r: Option<seq<Value>>)
    ensures r.None? <==> exists x :: x in records && Nullish(x)
    ensures r.Some? ==> |r.value| <= |records|
  {
    if |records| == 0 then Some([])
    else
      var init := records[..|records| - 1];
      var last := records[|records| - 1];
      var rest := Filter(init, pdfId);
      assert forall x :: x in records <==> x in init || x == last;
      if rest.None? || Nullish(last) then None
      else
        var id := Prop(last, "id").value;
        Some(if Matches(id, pdfId) then rest.value else rest.value + [last])
  }

  /** `deletePDF`: store the list without the records whose `id` is
      `pdfId` and return true; throw, leaving the store alone, when the
      stored value has no `filter` (it is not an array) or an element is
      nullish. */
  function DeletePDFStep(slots: map<string, Stored>, pdfId: Value): Step<bool> {
    var existing := GetPDFs(slots);
    if !existing.Arr? then Step(Threw, slots)
    else
      match Filter(existing.elems, pdfId)
      case Some(kept) => Step(Returned(true), slots[PdfListKey := Json(RoundTrip(Arr(kept)))])
      case None => Step(Threw, slots)
  }

  /** `getSettings`: the defaults with the stored members on top, or the
      defaults alone when nothing readable is stored. */
  function GetSettings(slots: map<string, Stored>): (r: map<string, Value>)
    ensures forall k :: k in DefaultSettings ==> k in r
  {
    if SettingsKey in slots && slots[SettingsKey].Json? then DefaultSettings + Spread(slots[SettingsKey].value)
    else DefaultSettings
  }

  /** `updateSettings`: the current settings with `newSettings` on top,
      stored and returned. */
  function UpdateSettingsStep(slots: map<string, Stored>, newSettings: Value): Step<map<string, Value>> {
    var updated := GetSettings(slots) + Spread(newSettings);
    Step(Returned(updated), slots[SettingsKey := Json(RoundTrip(Obj(updated)))])
  }

  // ----- Properties -----

  /** `savePDF` succeeds exactly when `pdf` is not nullish and the stored
      list is iterable; it then stores the old list with exactly one record
      appended, and returns that record. */
  lemma SaveAppendsOne(slots: map<string, Stored>, pdf: Value, now: nat, createdAt: string)
    requires StoreInv(slots)
    ensures var s := SavePDFStep(slots, pdf, now, createdAt);
      s.result.Returned? <==> !pdf.Null? && !pdf.Undefined? && Elements(GetPDFs(slots)).Some?
    ensures var s := SavePDFStep(slots, pdf, now, createdAt);
      s.result.Returned? && GetPDFs(slots).Arr? ==>
        GetPDFs(s.slots) == Arr(GetPDFs(slots).elems + [RoundTrip(s.result.value)])
    ensures var s := SavePDFStep(slots, pdf, now, createdAt);
      s.result.Threw? ==> s.slots == slots
  {
    var s := SavePDFStep(slots, pdf, now, createdAt);
    var existing := GetPDFs(slots);
    if s.result.Returned? && existing.Arr? {
      var e := existing.elems;
      var record := s.result.value;
      assert IsJson(existing);
      forall i | 0 <= i < |e|
        ensures RoundTrip(e[i]) == e[i]
      {
        RoundTripIdentity(e[i]);
      }
      var stored := RoundTrip(Arr(e + [record]));
      assert stored.elems == e + [RoundTrip(record)];
    }
  }

  /** The members of the new record: the caller's members win, including
      `id`; missing ones take the defaults, `type` "upload" when the
      caller's is falsy. */
  lemma NewRecordFields(pdf: map<string, Value>, now: nat, createdAt: string)
    ensures var r := NewRecord(Obj(pdf), now, createdAt);
      r.Some? && r.value.Obj? &&
      (forall k :: k in pdf ==> k in r.value.fields && r.value.fields[k] == pdf[k]) &&
      ("id" !in pdf ==> r.value.fields["id"] == Str(T.DecimalString(now))) &&
      ("createdAt" !in pdf ==> r.value.fields["createdAt"] == Str(createdAt)) &&
      ("type" !in pdf ==> r.value.fields["type"] == Str("upload")) &&
      ("type" in pdf && Truthy(pdf["type"]) ==> r.value.fields["type"] == pdf["type"]) &&
      ("name" !in pdf ==> r.value.fields["name"] == Undefined) &&
      (forall k :: k in r.value.fields ==> k in pdf || k in {"id", "name", "uri", "type", "createdAt"})
  {
  }

  /** What `deletePDF` keeps, it keeps in order: filtering a concatenation
      filters each part. */
  lemma {:induction false} FilterAppend(a: seq<Value>, b: seq<Value>, pdfId: Value)
    requires Filter(a, pdfId).Some? && Filter(b, pdfId).Some?
    ensures Filter(a + b, pdfId) == Some(Filter(a, pdfId).value + Filter(b, pdfId).value)
    decreases |b|
  {
    if |b| == 0 {
      assert a + b == a;
      assert Filter(a, pdfId).value + [] == Filter(a, pdfId).value;
    } else {
      var b' := b[..|b| - 1];
      var last := b[|b| - 1];
      assert (a + b)[..|a + b| - 1] == a + b';
      assert b[..|b| - 1] == b';
      FilterAppend(a, b', pdfId);
      var fa := Filter(a, pdfId).value;
      var kept := Filter(b', pdfId).value;
      assert fa + kept + [last] == fa + (kept + [last]);
    }
  }

  /** A record survives `deletePDF` exactly when its `id` is not `pdfId`. */
  lemma {:induction false} FilterKeeps(records: seq<Value>, pdfId: Value)
    requires Filter(records, pdfId).Some?
    ensures forall x :: x in Filter(records, pdfId).value <==>
      x in records && Prop(x, "id").Some? && !Matches(Prop(x, "id").value, pdfId)
  {
    if |records| > 0 {
      var init := records[..|records| - 1];
      FilterKeeps(init, pdfId);
      assert records == init + [records[|records| - 1]];
    }
  }

  /** Filtering a list with no matching record gives it back unchanged. */
  lemma {:induction false} FilterNoMatch(records: seq<Value>, pdfId: Value)
    requires Filter(records, pdfId).Some?
    requires forall x :: x in records ==> Prop(x, "id").Some? && !Matches(Prop(x, "id").value, pdfId)
    ensures Filter(records, pdfId) == Some(records)
  {
    if |records| > 0 {
      var init := records[..|records| - 1];
      assert forall x :: x in init ==> x in records;
      FilterNoMatch(init, pdfId);
      assert init + [records[|records| - 1]] == records;
    }
  }

  /** `deletePDF` stores exactly the records whose `id` is not `pdfId`, in
      their order, and deleting the same id again changes nothing. */
  lemma DeleteIdempotent(slots: map<string, Stored>, pdfId: Value)
    requires StoreInv(slots)
    ensures var once := DeletePDFStep(slots, pdfId);
      once.result == Returned(true) ==>
        GetPDFs(once.slots) == Arr(Filter(GetPDFs(slots).elems, pdfId).value) &&
        DeletePDFStep(once.slots, pdfId) == once
  {
    var once := DeletePDFStep(slots, pdfId);
    if once.result == Returned(true) {
      var kept := Filter(GetPDFs(slots).elems, pdfId).value;
      assert IsJson(GetPDFs(slots));
      FilterKeeps(GetPDFs(slots).elems, pdfId);
      forall i | 0 <= i < |kept|
        ensures IsJson(kept[i])
      {
        assert kept[i] in GetPDFs(slots).elems;
      }
      RoundTripIdentity(Arr(kept));
      assert GetPDFs(once.slots) == Arr(kept);
      FilterNoMatch(kept, pdfId);
      assert once.slots[PdfListKey := Json(RoundTrip(Arr(kept)))] == once.slots;
    }
  }

  /** `getSettings`: every stored member wins; every default not stored is
      kept; with nothing readable stored it is exactly the defaults. */
  lemma SettingsMerge(slots: map<string, Stored>)
    ensures var r := GetSettings(slots);
      SettingsKey in slots && slots[SettingsKey].Json? ==>
        (forall k :: k in Spread(slots[SettingsKey].value) ==> r[k] == Spread(slots[SettingsKey].value)[k]) &&
        (forall k :: k in DefaultSettings && k !in Spread(slots[SettingsKey].value) ==> r[k] == DefaultSettings[k])
    ensures !(SettingsKey in slots && slots[SettingsKey].Json?) ==> GetSettings(slots) == DefaultSettings
  {
  }

  /** Settings read back after `updateSettings` are the ones it returned,
      when the new settings hold no `undefined` (which would be dropped on
      the way to storage, bringing back a default). */
  lemma UpdateThenGet(slots: map<string, Stored>, newSettings: Value)
    requires StoreInv(slots)
    requires forall k :: k in Spread(newSettings) ==> IsJson(Spread(newSettings)[k])
    ensures var u := UpdateSettingsStep(slots, newSettings);
      u.result.Returned? && GetSettings(u.slots) == u.result.value
  {
    var current := GetSettings(slots);
    var extra := Spread(newSettings);
    var updated := current + extra;
    SettingsAreJson(slots);
    JsonMerge(current, extra);
    RoundTripIdentity(Obj(updated));
    DefaultsUnderneath(current, extra);
  }

  /** The current settings' members are JSON values. */
  lemma SettingsAreJson(slots: map<string, Stored>)
    requires StoreInv(slots)
    ensures forall k :: k in GetSettings(slots) ==> IsJson(GetSettings(slots)[k])
  {
    if SettingsKey in slots && slots[SettingsKey].Json? {
      SpreadIsJson(slots[SettingsKey].value);
    }
  }

  /** Merging two maps of JSON values gives a JSON object. */
  lemma JsonMerge(a: map<string, Value>, b: map<string, Value>)
    requires forall k :: k in a ==> IsJson(a[k])
    requires forall k :: k in b ==> IsJson(b[k])
    ensures IsJson(Obj(a + b))
  {
  }

  /** Spreading the defaults under settings that already have their keys
      changes nothing. */
  lemma DefaultsUnderneath(current: map<string, Value>, extra: map<string, Value>)
    requires forall k :: k in DefaultSettings ==> k in current
    ensures DefaultSettings + (current + extra) == current + extra
  {
  }

  /** The members a JSON value spreads are JSON values. */
  lemma SpreadIsJson(v: Value)
    requires IsJson(v)
    ensures forall k :: k in Spread(v) ==> IsJson(Spread(v)[k])
  {
    match v {
      case Arr(e) =>
        IndexedValues(e);
      case Str(chars) =>
        IndexedValues(Chars(chars));
      case _ =>
    }
  }

  /** Every write keeps the store's JSON texts free of `undefined`. */
  lemma WritesKeepStoreInv(slots: map<string, Stored>, pdf: Value, now: nat, createdAt: string, pdfId: Value, newSettings: Value)
    requires StoreInv(slots)
    ensures StoreInv(SavePDFStep(slots, pdf, now, createdAt).slots)
    ensures StoreInv(DeletePDFStep(slots, pdfId).slots)
    ensures StoreInv(UpdateSettingsStep(slots, newSettings).slots)
  {
  }

  /** The device store, read and written by the `storageAPI` calls. */
  class AsyncStorage {
    var slots: map<string, Stored>

    ghost predicate Valid()
      reads this
    {
      StoreInv(slots)
    }

    constructor (initial: map<string, Stored>)
      requires StoreInv(initial)
      ensures Valid() && slots == initial
    {
      slots := initial;
    }

    method SavePDF(pdf: Value, now: nat, createdAt: string) returns (r: Outcome<Value>)
      requires Valid()
      modifies this`slots
      ensures Valid()
      ensures Step(r, slots) == SavePDFStep(old(slots), pdf, now, createdAt)
    {
      var existing := GetPDFs(slots);
      var record := NewRecord(pdf, now, createdAt);
      if record.None? {
        return Threw;
      }
      var elems := Elements(existing);
      if elems.None? {
        return Threw;
      }
      slots := slots[PdfListKey := Json(RoundTrip(Arr(elems.value + [record.value])))];
      return Returned(record.value);
    }

    method DeletePDF(pdfId: Value) returns (r: Outcome<bool>)
      requires Valid()
      modifies this`slots
      ensures Valid()
      ensures Step(r, slots) == DeletePDFStep(old(slots), pdfId)
    {
      var existing := GetPDFs(slots);
      if !existing.Arr? {
        return Threw;
      }
      var kept := Filter(existing.elems, pdfId);
      if kept.None? {
        return Threw;
      }
      slots := slots[PdfListKey := Json(RoundTrip(Arr(kept.value)))];
      return Returned(true);
    }

    method UpdateSettings(newSettings: Value) returns (r: Outcome<map<string, Value>>)
      requires Valid()
      modifies this`slots
      ensures Valid()
      ensures Step(r, slots) == UpdateSettingsStep(old(slots), newSettings)
    {
      var updated := GetSettings(slots) + Spread(newSettings);
      slots := slots[SettingsKey := Json(RoundTrip(Obj(updated)))];
      return Returned(updated);
    }
  }
}
