/** The required-field allow-list validators of the order service
    (validators/orders.js). A validator walks a fixed, ordered list of
    property names; the first one that is not an own property of the request
    body stops the walk with a 400 error naming it, and otherwise each listed
    property is copied into a fresh object, so that the result holds exactly
    the listed properties and every other property of the body is dropped. */
module OrderValidators {
  import opened JsValues
  import opened Responses

  /** Status of the error thrown for a missing property. */
  const MissingStatus := 400

  /** Properties required to register an order, in the order they are checked. */
  const OrderRegisterKeys: seq<string> :=
    ["product_id", "user_id", "quantity", "sub_total", "stage"]

  /** Properties required to register a shipment, in the order they are
      checked. The two `carier_` names are spelt as the service expects them. */
  const ShipRegisterKeys: seq<string> :=
    ["order_id", "user_id", "carier_company", "carier_id", "tracking_id"]

  /** The message of the error thrown when `key` is missing. */
  function MissingMessage(key: string): string {
    key + " missing"
  }

  /** True when every listed property is an own property of the body. */
  predicate AllPresent(keys: seq<string>, body: JsObject) {
    forall j :: 0 <= j < |keys| ==> keys[j] in body
  }

  /** The position of the first listed property the body lacks, or `|keys|`
      when it lacks none. */
  function FirstMissing(keys: seq<string>, body: JsObject): (i: nat)
    ensures i <= |keys|
    ensures forall j :: 0 <= j < i ==> keys[j] in body
    ensures i < |keys| ==> keys[i] !in body
  {
    if keys == [] then 0
    else if keys[0] !in body then 0
    else 1 + FirstMissing(keys[1..], body)
  }

  /** The listed properties of the body, with the body's values. */
  function Picked(body: JsObject, keys: seq<string>): JsObject {
    map k | k in keys && k in body :: body[k]
  }

  /** What a validator over `keys` does with `body`: throw for the first
      missing property in list order, or return exactly the listed properties
      with the body's values. */
  function Validate(keys: seq<string>, body: JsObject): (r: Outcome<JsObject>)
    ensures r.Returned? <==> AllPresent(keys, body)
    ensures r.Returned? ==>
      (forall k :: k in r.value <==> k in keys) &&
      (forall k :: k in r.value ==> r.value[k] == body[k])
    ensures r.Thrown? ==>
      r.status == MissingStatus &&
      exists i :: 0 <= i < |keys| && keys[i] !in body &&
        (forall j :: 0 <= j < i ==> keys[j] in body) &&
        r.message == MissingMessage(keys[i])
  {
    var i := FirstMissing(keys, body);
    if i < |keys| then Thrown(MissingStatus, MissingMessage(keys[i]))
    else Returned(Picked(body, keys))
  }

  /** The loop shared by both validators: check each listed property in
      order, leave on the first missing one, copy the others into
      `bodyStruct`. The body is taken by value and is never written. */
  method ValidateFields(keys: seq<string>, body: JsObject) returns (r: Outcome<JsObject>)
    ensures r == Validate(keys, body)
  {
    var bodyStruct: JsObject := map[];
    var i := 0;
    while i < |keys|
      invariant 0 <= i <= |keys|
      invariant forall j :: 0 <= j < i ==> keys[j] in body
      invariant bodyStruct == Picked(body, keys[..i])
    {
      var item := keys[i];
      if item !in body {
        assert FirstMissing(keys, body) == i;
        return Thrown(MissingStatus, MissingMessage(item));
      }
      assert keys[..i + 1] == keys[..i] + [item];
      bodyStruct := bodyStruct[item := body[item]];
      i := i + 1;
    }
    assert keys[..i] == keys;
    return Returned(bodyStruct);
  }

  /** `validateOrderRegister`. */
  method ValidateOrderRegister(body: JsObject) returns (r: Outcome<JsObject>)
    ensures r == Validate(OrderRegisterKeys, body)
    ensures r.Returned? ==>
      r.value.Keys == {"product_id", "user_id", "quantity", "sub_total", "stage"}
    ensures r.Thrown? ==> r.status == 400
  {
    r := ValidateFields(OrderRegisterKeys, body);
  }

  /** `validateShipRegister`. */
  method ValidateShipRegister(body: JsObject) returns (r: Outcome<JsObject>)
    ensures r == Validate(ShipRegisterKeys, body)
    ensures r.Returned? ==>
      r.value.Keys == {"order_id", "user_id", "carier_company", "carier_id", "tracking_id"}
    ensures r.Thrown? ==> r.status == 400
  {
    r := ValidateFields(ShipRegisterKeys, body);
  }

  // ---------------------------------------------------------------------
  // Properties of the validators

  /** The error names the first missing property in list order, whichever
      properties come after it are missing too. */
  lemma FirstMissingIsReported(keys: seq<string>, body: JsObject, i: nat)
    requires i < |keys| && keys[i] !in body
    requires forall j :: 0 <= j < i ==> keys[j] in body
    ensures Validate(keys, body) == Thrown(400, keys[i] + " missing")
  {
  }

  /** A property the list does not name never reaches the result. */
  lemma ExtrasStripped(keys: seq<string>, body: JsObject, k: string)
    requires k !in keys
    ensures Validate(keys, body).Returned? ==> k !in Validate(keys, body).value
  {
  }

  /** Presence is a matter of the property existing, not of its value: the
      outcome's kind, and the error it throws, depend only on which
      properties the body has. */
  lemma OutcomeDependsOnlyOnPresence(keys: seq<string>, a: JsObject, b: JsObject)
    requires a.Keys == b.Keys
    ensures Validate(keys, a).Returned? == Validate(keys, b).Returned?
    ensures Validate(keys, a).Thrown? ==> Validate(keys, a) == Validate(keys, b)
  {
  }

  /** A listed property that is present with a falsy value (`null`,
      `undefined`, `false`, `0`, `""`) passes and is copied unchanged. */
  lemma FalsyValuePasses(keys: seq<string>, body: JsObject, k: string)
    requires AllPresent(keys, body)
    requires k in keys && Falsy(body[k])
    ensures Validate(keys, body).Returned?
    ensures k in Validate(keys, body).value && Validate(keys, body).value[k] == body[k]
  {
  }

  /** Validating a validator's own result gives that result back. */
  lemma Idempotent(keys: seq<string>, body: JsObject)
    requires Validate(keys, body).Returned?
    ensures Validate(keys, Validate(keys, body).value) == Validate(keys, body)
  {
    var out := Validate(keys, body).value;
    assert AllPresent(keys, out);
    assert Picked(out, keys) == out;
  }

  /** The result does not depend on the order of the list when nothing is
      missing: it is determined by the set of listed names. */
  lemma SuccessIgnoresListOrder(keys: seq<string>, other: seq<string>, body: JsObject)
    requires forall k :: k in keys <==> k in other
    requires AllPresent(keys, body)
    ensures Validate(other, body) == Validate(keys, body)
  {
    assert AllPresent(other, body) by {
      forall j | 0 <= j < |other| ensures other[j] in body {
        var k := other[j];
        assert k in keys;
        var i :| 0 <= i < |keys| && keys[i] == k;
      }
    }
    assert Validate(other, body).value == Validate(keys, body).value;
  }

  // ---------------------------------------------------------------------
  // The two validators on concrete requests

  /** A shipment missing only `tracking_id` is refused with that name. */
  lemma ShipRegisterMissingTrackingId(body: JsObject)
    requires "order_id" in body && "user_id" in body
    requires "carier_company" in body && "carier_id" in body
    requires "tracking_id" !in body
    ensures Validate(ShipRegisterKeys, body) == Thrown(400, "tracking_id missing")
  {
    FirstMissingIsReported(ShipRegisterKeys, body, 4);
  }

  /** A complete order comes back unchanged; without `stage` it is refused
      with "stage missing". */
  lemma OrderRegisterScenario()
    ensures
      var full := map["product_id" := Number(1.0), "user_id" := Number(2.0),
                      "quantity" := Number(3.0), "sub_total" := Number(30.0),
                      "stage" := Str("new")];
      Validate(OrderRegisterKeys, full) == Returned(full) &&
      Validate(OrderRegisterKeys, full - {"stage"}) == Thrown(400, "stage missing")
  {
    var full := map["product_id" := Number(1.0), "user_id" := Number(2.0),
                    "quantity" := Number(3.0), "sub_total" := Number(30.0),
                    "stage" := Str("new")];
    assert AllPresent(OrderRegisterKeys, full);
    assert Validate(OrderRegisterKeys, full).value == full;
    FirstMissingIsReported(OrderRegisterKeys, full - {"stage"}, 4);
  }
}
