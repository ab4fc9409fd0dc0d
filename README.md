# Order and shipment field validators

This project models the request validators of a small user/order service
(`validators/orders.js`). The order service checks each incoming request
body against a fixed allow-list before anything else touches it:

- `validateOrderRegister` requires `product_id`, `user_id`, `quantity`,
  `sub_total` and `stage`;
- `validateShipRegister` requires `order_id`, `user_id`, `carier_company`,
  `carier_id` and `tracking_id`. The two `carier_` names are kept exactly as
  the service spells them.

Both walk their list in order. The first name that is not an own property of
the body stops the walk, and the validator throws the error envelope
`errorResponse(400, "<name> missing")`. Otherwise each listed property is
copied into a fresh object `bodyStruct`. That object is returned, so it holds
exactly the listed properties with the body's values, and every other
property of the body is dropped.

Layout:

- `js_values.dfy` (module `JsValues`): a request body is a map from property
  name to `JsValue` (its own properties). A property whose value is
  `undefined` is still present. `Falsy` says which values JavaScript treats
  as false.
- `responses.dfy` (module `Responses`): `Outcome` is either `Returned(value)`
  or `Thrown(status, message)`. The second stands for the thrown
  `errorResponse(status, message)`.
- `orders.dfy` (module `OrderValidators`): `FirstMissing` and `Validate`
  specify the validators as functions. `ValidateFields` is the shared loop,
  written as a method that updates a local `bodyStruct` map. It is proved
  equal to `Validate`. The two exported validators are instances of it with
  their literal lists. The lemmas state the validators' properties.

The body is passed by value and `ValidateFields` has no `modifies` clause, so
the caller's body cannot be changed. The only thing written is the fresh
`bodyStruct`.

## Model

| member | source | states |
|---|---|---|
| OrderValidators.FirstMissing | validators/orders.js:10-12 | the walk stops at a position where every earlier listed name is present and the name there is absent; it runs to the end only when nothing is absent |
| OrderValidators.Validate | validators/orders.js:6-17 | returns exactly when every listed name is present, and then the result's names are exactly the listed ones, with the body's values; otherwise throws status 400 with "`<name>` missing" for a name that is absent while all names before it are present |
| OrderValidators.ValidateFields | validators/orders.js:7-16 | the in-order check-and-copy loop, leaving early on the first missing name, computes exactly `Validate` |
| OrderValidators.ValidateOrderRegister | validators/orders.js:6-17 | behaves as `Validate` over `product_id, user_id, quantity, sub_total, stage`; a success holds exactly those five names; a failure has status 400 |
| OrderValidators.ValidateShipRegister | validators/orders.js:19-30 | behaves as `Validate` over `order_id, user_id, carier_company, carier_id, tracking_id`; a success holds exactly those five names; a failure has status 400 |
| OrderValidators.FirstMissingIsReported | validators/orders.js:10-12 | when several names are missing, the error names the first missing one in list order |
| OrderValidators.ExtrasStripped | validators/orders.js:7-16 | a property the list does not name never appears in the result |
| OrderValidators.OutcomeDependsOnlyOnPresence | validators/orders.js:11-12 | two bodies with the same property names get the same verdict and the same error: presence is tested by existence, not by value |
| OrderValidators.FalsyValuePasses | validators/orders.js:11-13 | a listed property present with `null`, `undefined`, `false`, `0` or `""` passes and its value is copied unchanged |
| OrderValidators.Idempotent | validators/orders.js:10-16 | validating a successful result again returns that same result |
| OrderValidators.SuccessIgnoresListOrder | validators/orders.js:8-16 | when nothing is missing, the result depends only on the set of listed names, not on their order |
| OrderValidators.ShipRegisterMissingTrackingId | validators/orders.js:21-29 | a shipment body missing only `tracking_id` is refused with status 400 and "tracking_id missing" |
| OrderValidators.OrderRegisterScenario | validators/orders.js:8-16 | the order body `{product_id:1, user_id:2, quantity:3, sub_total:30, stage:"new"}` comes back unchanged; without `stage` it is refused with status 400 and "stage missing" |

## Left out

- The order of properties in the returned object: JavaScript keeps insertion order, which here is the list order. The model's result is a map, so it has no order.
- A body that is `null` or `undefined`, or one that has no usable `hasOwnProperty` (created with a null prototype, or with its own `hasOwnProperty` property). The source fails there with a `TypeError` rather than the 400 error. The model takes every body to be a plain object.
- Inherited properties: `hasOwnProperty` ignores the prototype chain. The model's body holds own properties only, so this is built in.
- The envelope built by `errorResponse` in `lib/response`: lib/response is not part of this model. Only its status and message arguments are kept.
- `JsValue` numbers are `real`: NaN, `-0` and floating-point rounding are not represented. Object and array values are kept as opaque references, and they are copied by reference just as `bodyStruct[item] = body[item]` does.
- The controller `controllers/users.js` (user registration, login, roles, permissions and token issue). It only sequences calls into a persistence layer and the bcrypt library, and neither is part of this model. Its validators (`validators/users`, `validators/common`) are not part of this model either. `createUserToken` calls a validator that does not exist, so it has no behaviour to model.
