# Goods-received quantity conversions (fc-vimp)

This project models, in Dafny, the quantity conversion rules of the fc-vimp
goods-received-note (GRN) service and the small pure helpers of its GRN views.

When a warehouse clerk records a received line, one of three conversion rules
turns packaging counts into a canonical `quantity_received`:

- `chicken_conversion`: bags × packets per bag;
- `cut9_conversion`: bags × packets per bag × pieces per packet;
- `nbc_products_volume_conversion`: containers counted (packs × units per pack),
  plus `extended_volume_received` in litres from a centilitre volume option.

The two bag rules read every input with Python's `float()`, so a missing input
raises (`float(None)` is a TypeError). The volume rule reads `float(v or 0.00)`,
so a missing, `None`, zero or empty input counts as 0. Each rule documents a form
schema (`min: 1`, `required`, select `options`) in its docstring. The rules never
read their docstring schemas.

The view helpers are `delete_items`, which drops a purchase order's `Item`
entry, and `filter_objects`, which projects each record onto a list of keys.
The model also covers the required-key check at the start of `create_grn`. That
check accepts a required key when it occurs as a substring of some request key.
It then copies `PONumber` into `po_id`.

Files and modules:

- `wrappers.dfy` (`Wrappers`): `Option` and `Result`. A Python exception becomes a `Failure`.
- `decimal_text.dfy` (`DecimalText`): the decimal literals `float(str)` accepts, their values, and the round trip from naturals.
- `real_arith.dfy` (`RealArith`): product bounds on reals, used by the bounds the schemas guarantee.
- `field_values.dfy` (`FieldValues`): raw form values (`Null`, `Number`, `Text`), `dict.get`, `float(v)`, truthiness, and `float(v or 0.00)`.
- `schemas.dfy` (`Schemas`): the three docstring schemas as constants, and what it means for inputs to conform to one.
- `converters.dfy` (`Converters`): the three rules.
- `converter_properties.dfy` (`ConverterProperties`): the formulas, the failure behaviour, the bounds the schemas guarantee, and worked examples.
- `grn_views.dfy` (`GrnViews`): `delete_items`, `filter_objects` and the `create_grn` key check.

What the code does, and so what the model does:

- Neither `egrn_service/converters.py` nor `egrn_service/views.py` calls or registers the three rules.
- The rules never validate their inputs against the schemas. A bag count of 0 converts to 0 (`ChickenIgnoresMinimum`).
- A failure is the exception `float()` raises.
- Nothing rejects a negative count or a negative result. One negative count, with the other counts positive, gives a negative quantity.

Quantities are exact `real`s. A result is a `map<string, real>` keyed by
`quantity_received` (and `extended_volume_received`).

## Model

| member | source | states |
|---|---|---|
| Converters.ChickenConversion | egrn_service/converters.py:38-55 | a result carries exactly the key `quantity_received`; a missing `number_of_bags` fails with the `float(None)` TypeError, and a missing `packets_per_bag` fails too |
| Converters.Cut9Conversion | egrn_service/converters.py:96-104 | a result carries exactly `quantity_received`; each of the three inputs, when missing, makes the rule fail, and a missing bag count fails with the TypeError |
| Converters.NbcProductsVolumeConversion | egrn_service/converters.py:148-159 | a result carries exactly `quantity_received` and `extended_volume_received`; it can fail only when some input is a string that is not a number |
| ConverterProperties.ChickenQuantity | egrn_service/converters.py:40-55 | when both inputs read as numbers, the result is the single entry `quantity_received = bags × packets` |
| ConverterProperties.ChickenFailsIffUnreadable | egrn_service/converters.py:38-41 | the bagged rule fails exactly when the bag count or the packet count is missing or not a number, and it reports the first such input in reading order |
| ConverterProperties.Cut9Quantity | egrn_service/converters.py:98-104 | when all three inputs read as numbers, the result is the single entry `quantity_received = bags × packets × pieces` |
| ConverterProperties.Cut9FailsIffUnreadable | egrn_service/converters.py:96-100 | the three-level rule fails exactly when one of its three inputs is missing or not a number |
| ConverterProperties.Cut9WithOnePieceIsChicken | egrn_service/converters.py:98-103 | with one piece per packet, the three-level rule equals the bagged rule on every input, errors included |
| ConverterProperties.ChickenUnderSchema | egrn_service/converters.py:17-55 | inputs meeting the bagged schema (both counts required, at least 1) convert, and the quantity is at least 1 and at least each factor |
| ConverterProperties.Cut9UnderSchema | egrn_service/converters.py:66-104 | inputs meeting the three-level schema convert, and the quantity is at least 1 and at least each of the three factors |
| ConverterProperties.ChickenIgnoresMinimum | egrn_service/converters.py:23-54 | the rule does not enforce the schema: a bag count of 0 violates `min: 1` yet converts to quantity 0 |
| ConverterProperties.NbcQuantities | egrn_service/converters.py:150-158 | on success, `quantity_received = packs × units per pack` and `extended_volume_received = quantity_received × centilitres / 100` |
| ConverterProperties.NbcFailsIffBadLiteral | egrn_service/converters.py:150-152 | the volume rule fails exactly when one of its inputs is a non-empty string that is not a number; missing, `None`, zero and empty inputs never make it fail |
| ConverterProperties.NbcMissingCountGivesZero | egrn_service/converters.py:150-157 | a missing pack count or units-per-pack gives zero containers and zero litres instead of an error |
| ConverterProperties.NbcAllMissing | egrn_service/converters.py:148-159 | with every input omitted, both outputs are 0 |
| ConverterProperties.VolumeOptionLitres | egrn_service/converters.py:140-152 | the option values "35", "50" and "100" read as 35, 50 and 100 centilitres, which are 0.35, 0.5 and 1 litre |
| ConverterProperties.AcceptedVolume | egrn_service/converters.py:134-152 | any volume the select field accepts reads as 35, 50 or 100 |
| ConverterProperties.NbcUnderSchema | egrn_service/converters.py:116-158 | inputs meeting the volume schema convert: at least one container, and 0.35, 0.5 or 1 litre per container |
| ConverterProperties.ChickenExample | egrn_service/converters.py:53-55 | 10 bags of 5 packets give 50 |
| ConverterProperties.Cut9Example | egrn_service/converters.py:102-104 | 2 bags × 3 packets × 4 pieces give 24 |
| ConverterProperties.NbcExample | egrn_service/converters.py:150-159 | 10 packs of 12 at "35" cl give 120 containers and 42 litres |
| FieldValues.Float | egrn_service/converters.py:40-41 | `float(None)` fails with the TypeError, a number reads as itself, a string reads as the value the decimal parser gives it, and a string the parser rejects fails with a ValueError naming that string |
| DecimalText.ParseFloat | egrn_service/converters.py:40-41 | only what its contract states: an accepted literal is non-empty, and without a leading '-' its value is non-negative; its values are stated by `DecimalText.ParseDecimal` and `DecimalText.ParseNatToDecimal` |
| DecimalText.ParseDecimal | egrn_service/converters.py:40-41 | a literal `w.f`, with `w` a natural number written without leading zeros and `f` any digits (possibly none), reads as `w` plus the digits `f` over 10 to the number of those digits; a leading '-' negates it and a leading '+' leaves it unchanged |
| DecimalText.ParseDecimalExamples | egrn_service/converters.py:98-100 | "1.25" reads as 1.25, "-0.5" as -0.5 and "5." as 5 |
| FieldValues.FloatOrZero | egrn_service/converters.py:150-152 | `float(v or 0.00)` is 0 for every falsy value, equals `float(v)` otherwise, and fails only on a non-empty non-numeric string |
| Schemas.ConformsGivesMinimum | egrn_service/converters.py:17-36 | a required numeric field with a `min` reads, in conforming inputs, as a number at least that `min` |
| DecimalText.ParseNatToDecimal | egrn_service/converters.py:141-152 | every natural number written in decimal parses back to itself, as the option values are parsed |
| GrnViews.DeleteItems | egrn_service/views.py:29-31 | succeeds exactly when `Item` is present; the result lacks `Item` and keeps every other entry unchanged; otherwise a KeyError on `Item` |
| GrnViews.DeleteItemsRestores | egrn_service/views.py:29-31 | putting the removed `Item` entry back gives the original order |
| GrnViews.Project | egrn_service/views.py:37 | the projected keys are exactly the listed keys present in the object, each mapped to its value in the object |
| GrnViews.ProjectIsRestriction | egrn_service/views.py:37 | the key-by-key projection equals the restriction of the object to the listed keys; listed keys that are absent are skipped |
| GrnViews.FilterObjects | egrn_service/views.py:33-40 | one output per input object, in the same order; each output has exactly the listed keys present in its object, with the object's values |
| GrnViews.ProjectAfterDeleteItems | egrn_service/views.py:74 | projecting an order after `delete_items` equals projecting it and then dropping `Item` |
| GrnViews.ContainsIsSubstring | egrn_service/views.py:120-124 | the left-to-right scan for `r in x` holds exactly when `r` occurs at some position of `x` |
| GrnViews.KeyPresentIsSubstring | egrn_service/views.py:120-124 | a required key counts as present exactly when it occurs inside some request key |
| GrnViews.CheckGrnRequest | egrn_service/views.py:113-129 | it succeeds exactly when both required keys occur in request keys and `PONumber` is itself a key; then `po_id` holds its value and every other entry is unchanged. A failed substring check is the rejection listing every required key, and the only lookup failure is the KeyError on `PONumber` |
| GrnViews.CheckGrnRejectsIff | egrn_service/views.py:116-127 | the request is rejected exactly when `PONumber` or `recievedGoods` occurs in no request key |
| GrnViews.CheckGrnLookupFailsIff | egrn_service/views.py:120-129 | the `request_data["PONumber"]` lookup raises exactly when the check passed but `PONumber` is not itself a key |
| GrnViews.CheckGrnAcceptsExactKeys | egrn_service/views.py:116-129 | a request with both required keys verbatim passes |
| GrnViews.SubstringCheckAdmitsRenamedIdentifier | egrn_service/views.py:120-129 | a request keyed `PONumberRef` and `recievedGoods` passes the check and then raises KeyError on `PONumber` |
| GrnViews.CheckGrnRequestExact | egrn_service/views.py:116-129 | with exact key membership, success holds exactly when both required keys are keys, every failure is the missing-keys rejection, and `po_id` is copied as before |
| GrnViews.ExactCheckRefinesSubstringCheck | egrn_service/views.py:116-129 | every request the exact check accepts, the substring check accepts with the same result |

## Left out

- Python `float()` on strings is modelled for an optional sign, digits and an optional fractional part. Surrounding whitespace, `_` separators, exponents, `inf` and `nan` are not modelled.
- Non-ASCII Unicode decimal digits are not modelled. Python's `float("٣٥")` is 35.0, but the model accepts only the digits '0' to '9'. Such inputs fail in all three rules here, while Python converts them.
- DecimalText.ParseFloat: no lemma gives the value of literals with leading zeros ("007") or without a whole part (".5"). Its values are proved only for the forms `DecimalText.ParseDecimal` and `DecimalText.ParseNatToDecimal` cover, because those are the forms the volume options and the worked examples use.
- IEEE double rounding is not modelled: quantities are exact reals. For example, 0.35 × 12 × 10 is exactly 42 here.
- Booleans, lists and other JSON values as form inputs are not modelled. Only `None`, numbers and strings are.
- `input_fields` missing from the keyword arguments (an AttributeError on `None.get`) is not modelled. The rules receive the inputs map directly.
- The commented-out weight-band logic in `chicken_conversion` is dead code and is not modelled.
- The docstring schemas are transcribed by hand, because their JSON is malformed.
- `delete_items` mutates its argument in place. The model returns a new map, so aliasing is not modelled.
- `create_grn` writes `po_id` into `request.data` in place at `egrn_service/views.py:129`. `GrnViews.CheckGrnRequest` treats `request.data` as a plain dict and returns a new map. An immutable `QueryDict` from a form-encoded POST raises AttributeError at that line. The model reports Success in that case.
- Python dict insertion order of the projected keys is not modelled, because maps are unordered.
- The vendor search, purchase-order lookup, GRN listing and weighted-average views are left out. They are database queries, ERP REST calls and aggregation.
- The rest of `create_grn` is left out: model save, serialization, template rendering and async email.
- The onboarding and invoice views in `api_service/views.py` are not part of this model.
- The DRF response wrapper and HTTP status codes are not modelled. The model stops at the `Result` of the check.

## Findings

| source | as written | input that shows it | evidently intended | confidence | as-written member | corrected member |
|---|---|---|---|---|---|---|
| egrn_service/views.py:120-129 | required keys are matched as substrings of request keys, then `request_data["PONumber"]` is read by exact key, outside the `try` | a request with keys `PONumberRef` and `recievedGoods` passes the check, then the lookup raises KeyError and gives a server error instead of the 400 rejection | a request without the exact keys `PONumber` and `recievedGoods` is rejected with the missing-keys message, as the comment at line 119 says the required keys must be present | medium, not executed | GrnViews.SubstringCheckAdmitsRenamedIdentifier | GrnViews.CheckGrnRequestExact |
