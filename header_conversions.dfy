/**
 * The header conversions shared by the three HTTP layers (http_client,
 * forward_service and wakanda_http_service). Each layer wraps a
 * HashMap<String, String> in its own newtype (RequestHeaders,
 * ForwardServiceRequestHeaders, WakandaHttpServiceHeaders) and converts it
 * to and from a HeaderMap with textually identical code; here that map is
 * `Headers` and the conversions are written once.
 */
module HeaderConversions {
  import opened Wrappers
  import opened Http

  /** The map inside RequestHeaders and its two siblings. */
  type Headers = map<string, string>

  /** `Default` for the header newtypes: no entries. */
  const EMPTY_HEADERS: Headers := map[]

  function Keys<K, V>(pairs: seq<(K, V)>): set<K> {
    set i | 0 <= i < |pairs| :: pairs[i].0
  }

  /**
   * Iterator::collect into a HashMap: the pairs are inserted in order, so a
   * later pair overwrites an earlier one with the same key.
   */
  function Collect<K, V>(pairs: seq<(K, V)>): (m: map<K, V>)
    ensures m.Keys == Keys(pairs)
  {
    if pairs == [] then map[]
    else
      var init := pairs[..|pairs| - 1];
      assert Keys(pairs) == Keys(init) + {pairs[|pairs| - 1].0} by {
        assert forall i :: 0 <= i < |init| ==> init[i] == pairs[i];
      }
      Collect(init)[pairs[|pairs| - 1].0 := pairs[|pairs| - 1].1]
  }

  /** The value collected under a key is that of the last pair carrying it. */
  lemma {:induction false} CollectLastWins<K, V>(pairs: seq<(K, V)>, i: nat)
    requires i < |pairs|
    requires forall j :: i < j < |pairs| ==> pairs[j].0 != pairs[i].0
    ensures pairs[i].0 in Collect(pairs) && Collect(pairs)[pairs[i].0] == pairs[i].1
  {
    if i < |pairs| - 1 {
      var init := pairs[..|pairs| - 1];
      assert init[i] == pairs[i];
      CollectLastWins(init, i);
    }
  }

  /** Every collected entry is one of the pairs. */
  lemma {:induction false} CollectFromPairs<K, V>(pairs: seq<(K, V)>, k: K)
    requires k in Collect(pairs)
    ensures (k, Collect(pairs)[k]) in pairs
  {
    var last := pairs[|pairs| - 1];
    var init := pairs[..|pairs| - 1];
    if last.0 != k {
      CollectFromPairs(init, k);
      assert forall e :: e in init ==> e in pairs;
    }
  }

  /**
   * `From<[(String, String); N]>` for the header newtypes: with distinct keys
   * the headers hold exactly the given pairs.
   */
  lemma FromDistinctPairs(pairs: seq<(string, string)>)
    requires forall i, j :: 0 <= i < j < |pairs| ==> pairs[i].0 != pairs[j].0
    ensures Collect(pairs).Keys == Keys(pairs)
    ensures forall i :: 0 <= i < |pairs| ==> Collect(pairs)[pairs[i].0] == pairs[i].1
  {
    forall i | 0 <= i < |pairs| ensures Collect(pairs)[pairs[i].0] == pairs[i].1 {
      CollectLastWins(pairs, i);
    }
  }

  /** The `get` accessor of ForwardServiceRequestHeaders and WakandaHttpServiceHeaders. */
  function GetHeader(h: Headers, key: string): (r: Option<string>)
    ensures r.Some? <==> key in h
    ensures r.Some? ==> r.value == h[key]
  {
    if key in h then Some(h[key]) else None
  }

  lemma DefaultHeadersAreEmpty(key: string)
    ensures GetHeader(EMPTY_HEADERS, key) == None
  {
  }

  /**
   * The `filter_map` step: the entries whose value converts to a string, in
   * iteration order, each kept as often as it occurs.
   */
  function ValidEntries(hm: HeaderMap, rules: HeaderRules): (r: seq<(string, string)>)
    ensures forall e :: e in r <==> e in hm && rules.valueToStr(e.1)
    ensures forall e {:trigger multiset(r)[e]} ::
      multiset(r)[e] == if rules.valueToStr(e.1) then multiset(hm)[e] else 0
  {
    if hm == [] then []
    else
      var init := hm[..|hm| - 1];
      var last := hm[|hm| - 1];
      assert hm == init + [last];
      ValidEntries(init, rules) + if rules.valueToStr(last.1) then [last] else []
  }

  /**
   * `From<&HeaderMap>` and `From<HeaderMap>` for the header newtypes (the
   * borrowed and owned versions have the same body): the entries whose value
   * is a valid string, collected into a map. Every extracted value is a
   * valid string stored under its name in the header map.
   */
  function FromHeaderMap(hm: HeaderMap, rules: HeaderRules): (h: Headers)
    ensures forall k :: k in h ==> (k, h[k]) in hm && rules.valueToStr(h[k])
  {
    var entries := ValidEntries(hm, rules);
    assert forall k :: k in Collect(entries) ==> (k, Collect(entries)[k]) in entries by {
      forall k | k in Collect(entries) ensures (k, Collect(entries)[k]) in entries {
        CollectFromPairs(entries, k);
      }
    }
    Collect(entries)
  }

  /** A key is extracted exactly when some entry with that name has a valid value. */
  lemma FromHeaderMapKeys(hm: HeaderMap, rules: HeaderRules, key: string)
    ensures key in FromHeaderMap(hm, rules) <==> exists v :: (key, v) in hm && rules.valueToStr(v)
  {
    var entries := ValidEntries(hm, rules);
    if key in FromHeaderMap(hm, rules) {
      var i :| 0 <= i < |entries| && entries[i].0 == key;
      assert entries[i] in entries;
    }
  }

  /**
   * Entry `i` carries a valid value, and no later entry with the same name
   * does.
   */
  ghost predicate IsLastValid(hm: HeaderMap, rules: HeaderRules, i: nat) {
    && i < |hm|
    && rules.valueToStr(hm[i].1)
    && forall j :: i < j < |hm| && hm[j].0 == hm[i].0 ==> !rules.valueToStr(hm[j].1)
  }

  /** Extracting from a map with one more entry at the end. */
  lemma FromHeaderMapSnoc(hm: HeaderMap, rules: HeaderRules)
    requires hm != []
    ensures var init, last := hm[..|hm| - 1], hm[|hm| - 1];
      FromHeaderMap(hm, rules) ==
        if rules.valueToStr(last.1) then FromHeaderMap(init, rules)[last.0 := last.1]
        else FromHeaderMap(init, rules)
  {
    var init, last := hm[..|hm| - 1], hm[|hm| - 1];
    var front := ValidEntries(init, rules);
    if rules.valueToStr(last.1) {
      assert (front + [last])[..|front|] == front;
    } else {
      assert front + [] == front;
    }
  }

  /**
   * A name that occurs several times (two `set-cookie` headers, say) keeps
   * only one value: that of its last entry, in iteration order, whose value
   * is a valid string.
   */
  lemma {:induction false} FromHeaderMapLastValid(hm: HeaderMap, rules: HeaderRules, key: string) returns (i: nat)
    requires key in FromHeaderMap(hm, rules)
    ensures IsLastValid(hm, rules, i) && hm[i] == (key, FromHeaderMap(hm, rules)[key])
  {
    FromHeaderMapKeys(hm, rules, key);
    var init, last := hm[..|hm| - 1], hm[|hm| - 1];
    var before, after := FromHeaderMap(init, rules), FromHeaderMap(hm, rules);
    FromHeaderMapSnoc(hm, rules);
    if rules.valueToStr(last.1) && last.0 == key {
      assert after[key] == last.1;
      i := |hm| - 1;
    } else {
      assert key in before && after[key] == before[key];
      i := FromHeaderMapLastValid(init, rules, key);
      LastValidExtends(hm, rules, i);
    }
  }

  /** An entry that was last-valid before one more entry stays so unless the new one takes over. */
  lemma LastValidExtends(hm: HeaderMap, rules: HeaderRules, i: nat)
    requires hm != [] && IsLastValid(hm[..|hm| - 1], rules, i)
    requires hm[|hm| - 1].0 == hm[i].0 ==> !rules.valueToStr(hm[|hm| - 1].1)
    ensures IsLastValid(hm, rules, i) && hm[i] == hm[..|hm| - 1][i]
  {
    var init := hm[..|hm| - 1];
    assert hm[i] == init[i];
    forall j | i < j < |hm| && hm[j].0 == hm[i].0 ensures !rules.valueToStr(hm[j].1) {
      if j < |init| {
        assert hm[j] == init[j];
      }
    }
  }

  /** Conversely, the last entry of a name with a valid value is the one extracted. */
  lemma LastValidEntryWins(hm: HeaderMap, rules: HeaderRules, i: nat)
    requires IsLastValid(hm, rules, i)
    ensures GetHeader(FromHeaderMap(hm, rules), hm[i].0) == Some(hm[i].1)
  {
    var key := hm[i].0;
    assert (key, hm[i].1) in hm;
    FromHeaderMapKeys(hm, rules, key);
    var i' := FromHeaderMapLastValid(hm, rules, key);
    assert i' == i;
  }

  /** In a map with one entry per name every valid entry is extracted as it is. */
  lemma FromUniqueHeaderMap(hm: HeaderMap, rules: HeaderRules, name: HeaderName, value: HeaderValue)
    requires UniqueNames(hm)
    requires (name, value) in hm && rules.valueToStr(value)
    ensures GetHeader(FromHeaderMap(hm, rules), name) == Some(value)
  {
    FromHeaderMapKeys(hm, rules, name);
    var i :| 0 <= i < |hm| && hm[i] == (name, value);
    var j :| 0 <= j < |hm| && hm[j] == (name, FromHeaderMap(hm, rules)[name]);
    assert i == j;
  }

  /** Both conversions of HeaderMap::from_bytes and HeaderValue::from_str succeed. */
  predicate Insertable(key: string, value: string, rules: HeaderRules) {
    rules.nameFromBytes(key).Some? && rules.valueFromStr(value)
  }

  /**
   * What `From<Headers> for HeaderMap` produces from `h`: one entry per name,
   * a name present exactly when some insertable pair parses to it, and its
   * value that of such a pair.
   */
  ghost predicate BuiltFrom(hm: HeaderMap, h: Headers, rules: HeaderRules) {
    && UniqueNames(hm)
    && (forall n :: Get(hm, n).Some? <==>
          exists k :: k in h && Insertable(k, h[k], rules) && rules.nameFromBytes(k) == Some(n))
    && (forall n :: Get(hm, n).Some? ==>
          exists k :: k in h && Insertable(k, h[k], rules) && rules.nameFromBytes(k) == Some(n) && h[k] == Get(hm, n).value)
  }

  /**
   * `From<Headers> for HeaderMap`: iterate over the map in its (unspecified)
   * order and insert every pair whose name and value both convert.
   */
  method IntoHeaderMap(h: Headers, rules: HeaderRules) returns (hm: HeaderMap)
    ensures BuiltFrom(hm, h, rules)
  {
    hm := [];
    var remaining := h.Keys;
    while remaining != {}
      invariant remaining <= h.Keys
      invariant UniqueNames(hm)
      invariant forall n :: Get(hm, n).Some? <==>
        exists k :: k in h && k !in remaining && Insertable(k, h[k], rules) && rules.nameFromBytes(k) == Some(n)
      invariant forall n :: Get(hm, n).Some? ==>
        exists k :: k in h && k !in remaining && Insertable(k, h[k], rules) && rules.nameFromBytes(k) == Some(n) && h[k] == Get(hm, n).value
      decreases remaining
    {
      var k :| k in remaining;
      var name := rules.nameFromBytes(k);
      if name.Some? && rules.valueFromStr(h[k]) {
        hm := Insert(hm, name.value, h[k]);
      }
      remaining := remaining - {k};
    }
  }

  /**
   * With every name converting to itself and every value accepted both ways,
   * extracting headers from the built map gives back the original headers.
   */
  lemma IntoThenFromHeaderMap(h: Headers, hm: HeaderMap, rules: HeaderRules)
    requires BuiltFrom(hm, h, rules)
    requires forall k :: k in h ==> rules.nameFromBytes(k) == Some(k)
    requires forall k :: k in h ==> rules.valueFromStr(h[k]) && rules.valueToStr(h[k])
    ensures FromHeaderMap(hm, rules) == h
  {
    var r := FromHeaderMap(hm, rules);
    forall key | key in h ensures GetHeader(r, key) == Some(h[key]) {
      IdentityKeyIsExtracted(h, hm, rules, key);
    }
    forall key | key in r ensures key in h {
      ExtractedKeyIsOriginal(h, hm, rules, key);
    }
    SameEntries(r, h);
  }

  /** Two header maps that agree on every key of one and have no other keys are equal. */
  lemma SameEntries(r: Headers, h: Headers)
    requires forall key :: key in h ==> GetHeader(r, key) == Some(h[key])
    requires forall key :: key in r ==> key in h
    ensures r == h
  {
    assert r.Keys == h.Keys;
  }

  /** One direction of the round trip: an original key comes back with its value. */
  lemma IdentityKeyIsExtracted(h: Headers, hm: HeaderMap, rules: HeaderRules, key: string)
    requires BuiltFrom(hm, h, rules)
    requires forall k :: k in h ==> rules.nameFromBytes(k) == Some(k)
    requires key in h && rules.valueFromStr(h[key]) && rules.valueToStr(h[key])
    ensures GetHeader(FromHeaderMap(hm, rules), key) == Some(h[key])
  {
    assert Insertable(key, h[key], rules);
    assert Get(hm, key).Some?;
    var k :| k in h && Insertable(k, h[k], rules) && rules.nameFromBytes(k) == Some(key) && h[k] == Get(hm, key).value;
    assert k == key;
    assert (key, h[key]) in hm;
    FromUniqueHeaderMap(hm, rules, key, h[key]);
  }

  /** The other direction: every extracted key was an original key. */
  lemma ExtractedKeyIsOriginal(h: Headers, hm: HeaderMap, rules: HeaderRules, key: string)
    requires BuiltFrom(hm, h, rules)
    requires forall k :: k in h ==> rules.nameFromBytes(k) == Some(k)
    requires key in FromHeaderMap(hm, rules)
    ensures key in h
  {
    assert Get(hm, key).Some?;
    var k :| k in h && Insertable(k, h[k], rules) && rules.nameFromBytes(k) == Some(key);
  }

  /**
   * When distinct insertable keys convert to distinct names, the built map
   * holds every insertable pair under its converted name.
   */
  lemma BuiltFromInjective(hm: HeaderMap, h: Headers, rules: HeaderRules, key: string)
    requires BuiltFrom(hm, h, rules)
    requires forall a, b ::
      (a in h && b in h && Insertable(a, h[a], rules) && Insertable(b, h[b], rules) &&
       rules.nameFromBytes(a) == rules.nameFromBytes(b)) ==> a == b
    requires key in h && Insertable(key, h[key], rules)
    ensures Get(hm, rules.nameFromBytes(key).value) == Some(h[key])
  {
    var n := rules.nameFromBytes(key).value;
    assert Get(hm, n).Some?;
  }
}
