/** `TtsSpeechRates`: the fixed table of speech-rate presets, built once by
    inserting four entries into an insertion-ordered map, and the lookup with
    a default of normal speed.  The table is a sequence of entries in
    insertion order; the `Float` values are exact binary fractions and are
    modelled as reals. */
module SpeechRates {
  import opened MuPdfEngine

  datatype Entry = Entry(key: string, rate: real)

  /** An insertion-ordered map (`LinkedHashMap`) as its entry sequence. */
  type RateTable = seq<Entry>

  /** The keys of a table, in insertion order. */
  function Keys(t: RateTable): seq<string> {
    seq(|t|, i requires 0 <= i < |t| => t[i].key)
  }

  lemma KeysCons(t: RateTable)
    requires |t| > 0
    ensures Keys(t) == [t[0].key] + Keys(t[1..])
  {
  }

  /** `Map.get`: the value stored under `k`, `None` standing for `null`. */
  function Get(t: RateTable, k: string): (r: Option<real>)
    ensures r.Some? <==> k in Keys(t)
    ensures r.Some? ==> Entry(k, r.value) in t
  {
    if |t| == 0 then None
    else
      KeysCons(t);
      if t[0].key == k then Some(t[0].rate)
      else Get(t[1..], k)
  }

  /** `Map.getOrDefault`: the stored value when the key is present,
      otherwise the default. */
  function GetOrDefault(t: RateTable, k: string, d: real): real {
    if k in Keys(t) then Get(t, k).value else d
  }

  /** `Map.put`: replaces the value of a present key where it stands, or
      appends a new entry at the end of the insertion order. */
  function Put(t: RateTable, k: string, v: real): (r: RateTable)
    ensures Keys(r) == if k in Keys(t) then Keys(t) else Keys(t) + [k]
  {
    if |t| == 0 then [Entry(k, v)]
    else
      KeysCons(t);
      if t[0].key == k then
        KeysCons([Entry(k, v)] + t[1..]);
        [Entry(k, v)] + t[1..]
      else
        var r := [t[0]] + Put(t[1..], k, v);
        assert r[1..] == Put(t[1..], k, v);
        KeysCons(r);
        r
  }

  /** After `put(k, v)` the key maps to `v` and every other key keeps its
      value. */
  lemma {:induction false} PutGet(t: RateTable, k: string, v: real, k': string)
    ensures Get(Put(t, k, v), k') == if k' == k then Some(v) else Get(t, k')
    decreases |t|
  {
    if |t| > 0 && t[0].key != k {
      var r := Put(t, k, v);
      assert r[0] == t[0] && r[1..] == Put(t[1..], k, v);
      PutGet(t[1..], k, v, k');
    }
  }

  /** A new key goes to the end of the insertion order. */
  lemma {:induction false} PutNew(t: RateTable, k: string, v: real)
    requires k !in Keys(t)
    ensures Put(t, k, v) == t + [Entry(k, v)]
    decreases |t|
  {
    if |t| > 0 {
      KeysCons(t);
      PutNew(t[1..], k, v);
      calc {
        Put(t, k, v);
        [t[0]] + Put(t[1..], k, v);
        [t[0]] + (t[1..] + [Entry(k, v)]);
        { assert t == [t[0]] + t[1..]; }
        t + [Entry(k, v)];
      }
    }
  }

  /** The static initializer: four `put`s into an empty map. */
  function SpeechRatesTable(): RateTable {
    Put(Put(Put(Put([], "0.75x", 0.75), "1x", 1.0), "1.5x", 1.5), "2x", 2.0)
  }

  /** The four `put`s add four new keys, so the table holds the presets in
      insertion order. */
  lemma TableContents()
    ensures SpeechRatesTable() == [Entry("0.75x", 0.75), Entry("1x", 1.0), Entry("1.5x", 1.5), Entry("2x", 2.0)]
  {
    var e1, e2, e3, e4 := Entry("0.75x", 0.75), Entry("1x", 1.0), Entry("1.5x", 1.5), Entry("2x", 2.0);
    var t1 := Put([], "0.75x", 0.75);
    assert t1 == [e1];
    var t2 := Put(t1, "1x", 1.0);
    assert t2 == [e1, e2] by {
      assert Keys([e1]) == ["0.75x"];
      PutNew([e1], "1x", 1.0);
    }
    var t3 := Put(t2, "1.5x", 1.5);
    assert t3 == [e1, e2, e3] by {
      assert Keys([e1, e2]) == ["0.75x", "1x"];
      PutNew([e1, e2], "1.5x", 1.5);
    }
    assert Put(t3, "2x", 2.0) == [e1, e2, e3, e4] by {
      assert Keys([e1, e2, e3]) == ["0.75x", "1x", "1.5x"];
      PutNew([e1, e2, e3], "2x", 2.0);
    }
  }

  /** `getRates`: the one unmodifiable table. */
  function GetRates(): (t: RateTable)
    ensures Keys(t) == ["0.75x", "1x", "1.5x", "2x"]
    ensures t == [Entry("0.75x", 0.75), Entry("1x", 1.0), Entry("1.5x", 1.5), Entry("2x", 2.0)]
  {
    TableContents();
    var t := SpeechRatesTable();
    assert Keys(t) == ["0.75x", "1x", "1.5x", "2x"];
    t
  }

  /** The rate used when a key has no preset: normal speed. */
  const DefaultRate: real := 1.0

  /** `getRate`: on API level N and later through `getOrDefault`, before
      it through `get` and a null check. */
  function GetRate(key: string, sdkAtLeastN: bool): real {
    if sdkAtLeastN then GetOrDefault(GetRates(), key, DefaultRate)
    else
      var rate := Get(GetRates(), key);
      if rate.Some? then rate.value else DefaultRate
  }

  /** The two ways of looking up with a default agree on every table. */
  lemma GetOrDefaultIsGetWithNullCheck(t: RateTable, k: string, d: real)
    ensures GetOrDefault(t, k, d) == (if Get(t, k).Some? then Get(t, k).value else d)
  {
  }

  /** Both SDK branches of `getRate` give the same answer for every key. */
  lemma GetRateBranchesAgree(key: string)
    ensures GetRate(key, true) == GetRate(key, false)
  {
    GetOrDefaultIsGetWithNullCheck(GetRates(), key, DefaultRate);
  }

  /** A preset key yields its own rate. */
  lemma GetRatePresent(key: string, sdkAtLeastN: bool)
    requires key in Keys(GetRates())
    ensures Entry(key, GetRate(key, sdkAtLeastN)) in GetRates()
    ensures key == "0.75x" ==> GetRate(key, sdkAtLeastN) == 0.75
    ensures key == "1x" ==> GetRate(key, sdkAtLeastN) == 1.0
    ensures key == "1.5x" ==> GetRate(key, sdkAtLeastN) == 1.5
    ensures key == "2x" ==> GetRate(key, sdkAtLeastN) == 2.0
  {
  }

  /** Any other key yields the default. */
  lemma GetRateAbsent(key: string, sdkAtLeastN: bool)
    requires key !in Keys(GetRates())
    ensures GetRate(key, sdkAtLeastN) == DefaultRate
  {
  }
}
