/** The pure helpers of the goods-received views: dropping a purchase order's
    `Item` list, projecting records onto chosen keys, and the required-key check
    that guards GRN creation. Python dicts are modelled as maps from string keys. */
module GrnViews {
  import opened Wrappers

  /** The KeyError Python raises for `d[key]` or `del d[key]` on a missing key. */
  datatype KeyError = KeyError(key: string)

  const ItemKey := "Item"

  // ---------------------------------------------------------------- delete_items

  /** `del po["Item"]`: the order without its line items; KeyError when it has none. */
  function DeleteItems<V>(po: map<string, V>): (r: Result<map<string, V>, KeyError>)
    ensures r.Success? <==> ItemKey in po
    ensures r.Failure? ==> r.error == KeyError(ItemKey)
    ensures r.Success? ==> ItemKey !in r.value && r.value.Keys == po.Keys - {ItemKey}
    ensures r.Success? ==> forall k :: k in r.value ==> r.value[k] == po[k]
  {
    if ItemKey in po then Success(po - {ItemKey}) else Failure(KeyError(ItemKey))
  }

  /** Putting the removed entry back gives the original order: nothing else was touched. */
  lemma DeleteItemsRestores<V>(po: map<string, V>)
    requires ItemKey in po
    ensures DeleteItems(po).value[ItemKey := po[ItemKey]] == po
  {
    var restored := DeleteItems(po).value[ItemKey := po[ItemKey]];
    assert restored.Keys == po.Keys;
    assert forall k :: k in po ==> restored[k] == po[k];
  }

  // ---------------------------------------------------------------- filter_objects

  /** `{key: obj[key] for key in keys if key in obj}`, built in the order the keys are listed. */
  function Project<V>(keys: seq<string>, obj: map<string, V>): (r: map<string, V>)
    ensures r.Keys == (set k | k in keys && k in obj)
    ensures forall k :: k in r ==> k in obj && r[k] == obj[k]
    decreases |keys|
  {
    if |keys| == 0 then map[]
    else
      var earlier := Project(keys[..|keys| - 1], obj);
      var key := keys[|keys| - 1];
      if key in obj then earlier[key := obj[key]] else earlier
  }

  /** The projection is the restriction of the object to the listed keys: a key that
      is listed but absent is skipped, never an error. */
  lemma ProjectIsRestriction<V>(keys: seq<string>, obj: map<string, V>)
    ensures Project(keys, obj) == map k | k in keys && k in obj :: obj[k]
  {
    var reference := map k | k in keys && k in obj :: obj[k];
    assert Project(keys, obj).Keys == reference.Keys;
  }

  /** `filter_objects`: one projected record per input record, in input order. */
  method FilterObjects<V>(keysToKeep: seq<string>, objects: seq<map<string, V>>)
    returns (filtered: seq<map<string, V>>)
    ensures |filtered| == |objects|
    ensures forall i :: 0 <= i < |objects| ==>
      filtered[i].Keys == (set k | k in keysToKeep && k in objects[i])
    ensures forall i, k :: 0 <= i < |objects| && k in filtered[i] ==>
      k in objects[i] && filtered[i][k] == objects[i][k]
  {
    filtered := [];
    var n := 0;
    while n < |objects|
      invariant n <= |objects|
      invariant |filtered| == n
      invariant forall i :: 0 <= i < n ==> filtered[i] == Project(keysToKeep, objects[i])
    {
      filtered := filtered + [Project(keysToKeep, objects[n])];
      n := n + 1;
    }
  }

  /** Projecting an order after `delete_items` is projecting it and then dropping
      `Item`, as the vendor search does for every purchase order. */
  lemma ProjectAfterDeleteItems<V>(keys: seq<string>, po: map<string, V>)
    requires ItemKey in po
    ensures Project(keys, DeleteItems(po).value) == Project(keys, po) - {ItemKey}
  {
    var lhs := Project(keys, DeleteItems(po).value);
    var rhs := Project(keys, po) - {ItemKey};
    assert lhs.Keys == rhs.Keys;
  }

  // ---------------------------------------------------------------- create_grn key check

  const Identifier := "PONumber"
  const ReceivedGoodsKey := "recievedGoods"
  const RequiredKeys := [Identifier, ReceivedGoodsKey]
  const PoIdKey := "po_id"

  /** Python's `needle in hay` on strings, scanning from the left. */
  function Contains(hay: string, needle: string): (b: bool)
    decreases |hay|
  {
    if |needle| <= |hay| && hay[..|needle|] == needle then true
    else if |hay| == 0 then false
    else Contains(hay[1..], needle)
  }

  /** `needle` occurs in `hay` starting at position `i`. */
  ghost predicate OccursAt(needle: string, hay: string, i: int) {
    0 <= i && i + |needle| <= |hay| && hay[i..i + |needle|] == needle
  }

  /** `needle` occurs at some position of `hay`. */
  ghost predicate IsSubstring(needle: string, hay: string) {
    exists i :: OccursAt(needle, hay, i)
  }

  lemma {:induction false} ContainsIsSubstring(hay: string, needle: string)
    ensures Contains(hay, needle) <==> IsSubstring(needle, hay)
    decreases |hay|
  {
    if |needle| <= |hay| && hay[..|needle|] == needle {
      assert OccursAt(needle, hay, 0);
    } else if |hay| == 0 {
    } else {
      ContainsIsSubstring(hay[1..], needle);
      if IsSubstring(needle, hay[1..]) {
        var i :| OccursAt(needle, hay[1..], i);
        assert hay[i + 1..i + 1 + |needle|] == hay[1..][i..i + |needle|];
        assert OccursAt(needle, hay, i + 1);
      }
      if IsSubstring(needle, hay) {
        var i :| OccursAt(needle, hay, i);
        assert i != 0;
        assert hay[1..][i - 1..i - 1 + |needle|] == hay[i..i + |needle|];
        assert OccursAt(needle, hay[1..], i - 1);
      }
    }
  }

  /** A request key that starts with the required key makes it present. */
  lemma KeyPresentWhenPrefix(required: string, key: string, keys: set<string>)
    requires key in keys && |required| <= |key| && key[..|required|] == required
    ensures KeyPresent(required, keys)
  {
    assert Contains(key, required);
  }

  /** A key present verbatim is present by substring. */
  lemma KeyPresentWhenExact(required: string, keys: set<string>)
    requires required in keys
    ensures KeyPresent(required, keys)
  {
    assert required[..|required|] == required;
    assert Contains(required, required);
  }

  /** `any(map(lambda x: r in x, keys))`: some request key contains `required`. */
  predicate KeyPresent(required: string, keys: set<string>) {
    exists k :: k in keys && Contains(k, required)
  }

  /** The request passes the required-key check: each required key is present by substring. */
  predicate AllRequiredPresent(keys: set<string>) {
    forall i :: 0 <= i < |RequiredKeys| ==> KeyPresent(RequiredKeys[i], keys)
  }

  /** Why GRN creation stops before saving: the check rejected the request (the
      message lists every required key, not only the missing ones), or the
      identifier lookup raised. */
  datatype GrnError = MissingRequiredKeys(listed: seq<string>) | Lookup(failure: KeyError)

  /** The start of `create_grn`: the substring check, then `po_id` copied from `PONumber`. */
  function CheckGrnRequest<V>(request: map<string, V>): (r: Result<map<string, V>, GrnError>)
    ensures r.Success? ==> Identifier in request && AllRequiredPresent(request.Keys)
    ensures r.Success? ==> r.value.Keys == request.Keys + {PoIdKey} && r.value[PoIdKey] == request[Identifier]
    ensures r.Success? ==> forall k :: k in request && k != PoIdKey ==> r.value[k] == request[k]
    ensures r.Failure? && r.error.MissingRequiredKeys? ==> r.error.listed == RequiredKeys
    ensures r.Failure? && r.error.Lookup? ==> r.error.failure == KeyError(Identifier)
    ensures AllRequiredPresent(request.Keys) && Identifier in request ==> r.Success?
    ensures !AllRequiredPresent(request.Keys) ==> r == Failure(MissingRequiredKeys(RequiredKeys))
  {
    if !AllRequiredPresent(request.Keys) then Failure(MissingRequiredKeys(RequiredKeys))
    else if Identifier !in request then Failure(Lookup(KeyError(Identifier)))
    else Success(request[PoIdKey := request[Identifier]])
  }

  /** A required key counts as present exactly when it occurs inside some request key. */
  lemma KeyPresentIsSubstring(required: string, keys: set<string>)
    ensures KeyPresent(required, keys) <==> exists k :: k in keys && IsSubstring(required, k)
  {
    forall k | k in keys {
      ContainsIsSubstring(k, required);
    }
  }

  /** The request is rejected exactly when some required key occurs in no request key. */
  lemma CheckGrnRejectsIff<V>(request: map<string, V>)
    ensures CheckGrnRequest(request).Failure? && CheckGrnRequest(request).error.MissingRequiredKeys? <==>
      !(exists k :: k in request && IsSubstring(Identifier, k))
      || !(exists k :: k in request && IsSubstring(ReceivedGoodsKey, k))
  {
    KeyPresentIsSubstring(Identifier, request.Keys);
    KeyPresentIsSubstring(ReceivedGoodsKey, request.Keys);
    assert AllRequiredPresent(request.Keys) <==>
      KeyPresent(Identifier, request.Keys) && KeyPresent(ReceivedGoodsKey, request.Keys)
    by {
      assert RequiredKeys[0] == Identifier && RequiredKeys[1] == ReceivedGoodsKey;
    }
  }

  /** The identifier lookup raises exactly when the check passed only through a key
      that contains `PONumber` without being it. */
  lemma CheckGrnLookupFailsIff<V>(request: map<string, V>)
    ensures CheckGrnRequest(request) == Failure(Lookup(KeyError(Identifier))) <==>
      AllRequiredPresent(request.Keys) && Identifier !in request
  {
  }

  /** A request carrying both required keys verbatim passes. */
  lemma CheckGrnAcceptsExactKeys<V>(request: map<string, V>)
    requires Identifier in request && ReceivedGoodsKey in request
    ensures CheckGrnRequest(request).Success?
  {
    KeyPresentWhenExact(Identifier, request.Keys);
    KeyPresentWhenExact(ReceivedGoodsKey, request.Keys);
    assert AllRequiredPresent(request.Keys);
  }

  /** As written, a key such as `PONumberRef` satisfies the substring check, and the
      following `request_data["PONumber"]` then raises. */
  lemma SubstringCheckAdmitsRenamedIdentifier()
    ensures CheckGrnRequest(map["PONumberRef" := 1, ReceivedGoodsKey := 2]) == Failure(Lookup(KeyError(Identifier)))
  {
    var request := map["PONumberRef" := 1, ReceivedGoodsKey := 2];
    assert "PONumberRef"[..|Identifier|] == Identifier;
    KeyPresentWhenPrefix(Identifier, "PONumberRef", request.Keys);
    KeyPresentWhenExact(ReceivedGoodsKey, request.Keys);
    assert AllRequiredPresent(request.Keys);
  }

  /** The check with exact key membership: it rejects with the same message whenever a
      required key is missing, and the identifier lookup can no longer raise. */
  function CheckGrnRequestExact<V>(request: map<string, V>): (r: Result<map<string, V>, GrnError>)
    ensures r.Success? <==> Identifier in request && ReceivedGoodsKey in request
    ensures r.Failure? ==> r.error == MissingRequiredKeys(RequiredKeys)
    ensures r.Success? ==> r.value.Keys == request.Keys + {PoIdKey} && r.value[PoIdKey] == request[Identifier]
    ensures r.Success? ==> forall k :: k in request && k != PoIdKey ==> r.value[k] == request[k]
  {
    if Identifier !in request || ReceivedGoodsKey !in request then
      Failure(MissingRequiredKeys(RequiredKeys))
    else
      Success(request[PoIdKey := request[Identifier]])
  }

  /** Every request the exact check accepts, the substring check accepts identically. */
  lemma ExactCheckRefinesSubstringCheck<V>(request: map<string, V>)
    requires CheckGrnRequestExact(request).Success?
    ensures CheckGrnRequest(request) == CheckGrnRequestExact(request)
  {
    CheckGrnAcceptsExactKeys(request);
  }
}
