# Product form of the Hydrogen storefront, modelled in Dafny

This project models the logic inside the storefront's product-purchase form
(`src/components/product/ProductForm.client.jsx`), which sits on a hosted e-commerce framework.
The form has three pieces of logic, plus two display flags:

- **Numeric-id extraction.** `getFormattedId` splits a storefront global id such as
  `gid://shopify/ProductVariant/123` on `/` and reads the fifth segment as a number.
  Module `FormattedId` models it on top of a model of JavaScript's `split` and `Number`
  (module `JsStrings`).
- **Option/query-parameter synchroniser.** Module `OptionSync` holds a class `ProductForm`.
  Its fields are the form's `params` (a `URLSearchParams`), the framework's option selection,
  and a ghost trace of the URLs written with `history.replaceState`. Its methods are the
  load pass that runs once on mount and `handleChange`. Each method is proved equal to a pure
  step function (`LoadPass`, `Change`), and the lemmas about those functions state what the
  form promises. `URLSearchParams` is modelled in `SearchParams` as the ordered pair list of
  the WHATWG URL Standard. `encodeURIComponent` is modelled in `UriEncoding`: UTF-8
  (RFC 3629, section 3) written in percent-encoding (RFC 3986, section 2.1). Its injectivity
  is proved, not assumed. `toLowerCase` is in `JsStrings`.
- **Widget payload builder.** Module `WidgetPayload` covers `productHashJson`,
  `getVariantsForPayload` and `getSellingGroupsForPayload`. The payload is a datatype, not
  JSON text. Prices are kept as unevaluated `amount * 100` terms.
- **Display flags.** Module `ProductDisplay` covers `isOutOfStock` and the purchase controls
  it governs. It also covers the rule that an option with exactly one value gets no selector,
  and the rule that the widget container is rendered only when there is a payload.

The framework's inputs (variants, selling-plan groups, options) are datatypes in `Storefront`.
A field the form destructures with a default, or that may be missing, is an `Option`, where
`None` stands for `undefined`. A JavaScript `TypeError` is the `TypeError` case of
`Completion`.

The code behaves as follows at its edges, and the model does the same:

- An option that is missing from the URL and has no selection makes
  `selectedOptions[name].toLowerCase()` throw, because the selection is `undefined`.
  `LoadOption` returns `TypeError` there, and the pass stops.
- `productHashJson` is `null` exactly when there are no selling-plan groups. It throws when a
  variant has no `sellingPlanAllocations` connection: the default `[]` is taken, and
  `[].nodes.map` throws.
- `params.get(key) || null` treats a parameter with an empty value as missing (`PresentValue`).
- An id whose fifth segment is empty gives `Number('') = 0`. An id with no fifth segment gives
  `Number(undefined)`, which is NaN (`UndefinedNaN`).

## Model

| member | source | states |
|---|---|---|
| `JsStrings.Split` | src/components/product/ProductForm.client.jsx:15 | `split('/')` gives one more piece than there are slashes, and no piece contains a slash |
| `JsStrings.JoinSplit` | src/components/product/ProductForm.client.jsx:15 | joining the pieces of a split with the separator gives back the string |
| `JsStrings.SplitAppend` | src/components/product/ProductForm.client.jsx:15 | splitting `a + "/" + b` gives the pieces of `a` followed by the pieces of `b` |
| `JsStrings.Lower` | src/components/product/ProductForm.client.jsx:64 | `toLowerCase` keeps the length, turns each ASCII capital into its lower-case letter (code point plus 32), leaves no ASCII capital, and leaves every other character unchanged |
| `JsStrings.LowerIdempotent` | src/components/product/ProductForm.client.jsx:64 | lower-casing twice is the same as lower-casing once |
| `JsStrings.DecimalRoundTrip` | src/components/product/ProductForm.client.jsx:15 | reading the decimal digits of `n` back gives `n` |
| `JsStrings.StringToNumber` | src/components/product/ProductForm.client.jsx:15 | `Number` of an all-digit string is the value of its digits (0 for the empty string); any other string is kept unevaluated as `NotDecimal`; a string never gives the NaN of `undefined` |
| `JsStrings.ToNumber` | src/components/product/ProductForm.client.jsx:15 | `Number(x)` is the NaN of `undefined` (`UndefinedNaN`) exactly when `x` is `undefined` |
| `FormattedId.GetFormattedId` | src/components/product/ProductForm.client.jsx:14-16 | the result is `Number(undefined)`, i.e. NaN (`UndefinedNaN`), exactly when the id (default `''`) has fewer than four slashes, so that there is no fifth segment |
| `FormattedId.GlobalIdRoundTrip` | src/components/product/ProductForm.client.jsx:14-16 | for `gid://shopify/<Type>/<n>` the result is `n` |
| `FormattedId.ProductVariantExample` | src/components/product/ProductForm.client.jsx:14-16 | `gid://shopify/ProductVariant/123` gives 123 |
| `FormattedId.TrailingSegmentsIgnored` | src/components/product/ProductForm.client.jsx:14-16 | segments after the fifth do not change the result |
| `FormattedId.FifthSegmentIsRead` | src/components/product/ProductForm.client.jsx:14-16 | for `gid://shopify/<Type>/<text>` the result is `Number(text)`; text that is not all digits (such as `abc`) is not read as a decimal |
| `FormattedId.EmptyFifthSegmentIsZero` | src/components/product/ProductForm.client.jsx:14-16 | an id that ends right after its fourth slash gives 0 |
| `UriEncoding.Encode` | src/components/product/ProductForm.client.jsx:72-73 | `encodeURIComponent` never shortens a string; its injectivity, fixed points, length and concatenation are stated by `EncodeInjective`, `EncodeFixedIff`, `EncodeLengthIff` and `EncodeAppend` |
| `UriEncoding.Utf8Injective` | src/components/product/ProductForm.client.jsx:72-73 | different characters have different UTF-8 forms |
| `UriEncoding.EncodeCharPrefixFree` | src/components/product/ProductForm.client.jsx:72-73 | one character's encoding is never a proper prefix of another's, so reading from the left recovers each character |
| `UriEncoding.EncodeInjective` | src/components/product/ProductForm.client.jsx:67 | `encodeURIComponent` is injective |
| `UriEncoding.EncodeFixedIff` | src/components/product/ProductForm.client.jsx:72 | a string is its own encoding exactly when all its characters are unreserved |
| `UriEncoding.EncodeLengthIff` | src/components/product/ProductForm.client.jsx:72 | encoding keeps the length exactly when all characters are unreserved |
| `UriEncoding.EncodeAppend` | src/components/product/ProductForm.client.jsx:99-100 | encoding distributes over concatenation |
| `UriEncoding.EncodeSpace` | src/components/product/ProductForm.client.jsx:72 | a space is written `%20` |
| `SearchParams.Get` | src/components/product/ProductForm.client.jsx:64 | `params.get` answers the value of the first pair with that name, or nothing when no pair has it |
| `SearchParams.Set` | src/components/product/ProductForm.client.jsx:98-101 | `params.set(k, v)`; it has no ensures of its own, and its meaning is fixed by `SetThenGet`, `SetThenGetOther`, `SetKeepsOtherPairs`, `SetIdempotent` and `SetAsMap` |
| `SearchParams.SetThenGet` | src/components/product/ProductForm.client.jsx:71-74 | after `params.set(k, v)`, `params.get(k)` answers `v` |
| `SearchParams.SetThenGetOther` | src/components/product/ProductForm.client.jsx:98-101 | `params.set(k, v)` does not change `get` for any other name |
| `SearchParams.SetKeepsOtherPairs` | src/components/product/ProductForm.client.jsx:98-101 | `params.set(k, v)` keeps every pair of another name in order, and leaves exactly one pair named `k` |
| `SearchParams.SetIdempotent` | src/components/product/ProductForm.client.jsx:98-101 | setting the same pair twice is the same as setting it once |
| `SearchParams.AsMap` | src/components/product/ProductForm.client.jsx:21 | the map view holds each name with the value `get` answers for it |
| `SearchParams.SetAsMap` | src/components/product/ProductForm.client.jsx:98-101 | in the map view, `set(k, v)` writes entry `k` and leaves every other entry alone |
| `OptionSync.ParamKey` | src/components/product/ProductForm.client.jsx:72 | the key `encodeURIComponent(name.toLowerCase())`; no ensures of its own: `ParamKeyIsLowerIff` relates it to the looked-up key, and `SizeFitKey` gives an instance |
| `OptionSync.ParamValue` | src/components/product/ProductForm.client.jsx:73 | the value `encodeURIComponent(value.toLowerCase())`; no ensures of its own: `FirstMatchFindsValue` shows the value written for `v` is matched by `v` |
| `OptionSync.PresentValue` | src/components/product/ProductForm.client.jsx:64 | `params.get(key) \|\| null` is present exactly when the parameter exists and is not empty |
| `OptionSync.MatchingValues` | src/components/product/ProductForm.client.jsx:66-68 | the filter keeps only values of the option whose encoded lower-case form is the parameter, is empty exactly when no value has that form, and otherwise starts with the value at the first matching position |
| `OptionSync.FirstMatchIndex` | src/components/product/ProductForm.client.jsx:66-68 | the position of the first value whose encoded lower-case form is the parameter; no earlier value has it |
| `OptionSync.FirstMatch` | src/components/product/ProductForm.client.jsx:66-69 | `matchedValue[0]` is `undefined` exactly when no value of the option matches the parameter, and otherwise a value of the option whose written form is the parameter |
| `OptionSync.FirstMatchIsFirst` | src/components/product/ProductForm.client.jsx:66-69 | `values.filter(...)[0]` is the value at that first matching position, or `undefined` |
| `OptionSync.FirstMatchFindsValue` | src/components/product/ProductForm.client.jsx:66-69 | among values that differ after lower-casing, the parameter written for `v` matches `v` itself |
| `OptionSync.LoadOption` | src/components/product/ProductForm.client.jsx:62-80 | the callback throws exactly when the option's parameter is missing and the option has no choice (`selectedOptions[name]` is `undefined`); `LoadReadsPresentParameter` and `LoadWritesMissingParameter` give the new state in the other cases |
| `OptionSync.LoadPass` | src/components/product/ProductForm.client.jsx:61-83 | no ensures of its own: `ProductForm.LoadFromUrl` is proved equal to it, and the `LoadPass…` lemmas state what it reads, writes and keeps |
| `OptionSync.Change` | src/components/product/ProductForm.client.jsx:94-111 | no ensures of its own: `ProductForm.HandleChange` is proved equal to it, and `ChangeWritesOneParameter` and `ChangeIdempotent` state what it does |
| `OptionSync.ProductForm.constructor` | src/components/product/ProductForm.client.jsx:21 | the form starts with the parsed query parameters, the framework's selection, and an empty URL trace |
| `OptionSync.ProductForm.LoadFromUrl` | src/components/product/ProductForm.client.jsx:61-83 | the mount-time loop leaves exactly the state, and the throw flag, that `LoadPass` gives for the old state |
| `OptionSync.ProductForm.HandleChange` | src/components/product/ProductForm.client.jsx:94-111 | selects the value, sets the encoded parameter, and in a browser appends `pathname?params` to the URL trace; nothing else changes |
| `OptionSync.LoadReadsPresentParameter` | src/components/product/ProductForm.client.jsx:62-69 | when the option's parameter is present, the step leaves exactly the old state with the option set to the first value whose encoded lower-case form is the parameter (or `undefined`); parameters and URL are untouched |
| `OptionSync.LoadWritesMissingParameter` | src/components/product/ProductForm.client.jsx:70-79 | when the parameter is missing and the option has a choice, the step does not throw; the choice is written under the encoded key with `set`, every other parameter is kept, the URL is replaced with the result, and the selection does not change |
| `OptionSync.LoadPassStopsWithoutChoice` | src/components/product/ProductForm.client.jsx:61-80 | an option whose parameter is missing and which has no choice ends the pass with the throw flag set and the state reached so far |
| `OptionSync.LoadPassKeepsOtherParameters` | src/components/product/ProductForm.client.jsx:61-83 | the load pass changes no parameter except the options' encoded keys |
| `OptionSync.LoadPassKeepsOtherSelections` | src/components/product/ProductForm.client.jsx:61-83 | the load pass changes the choice of no option outside the option list |
| `OptionSync.LoadPassKeepsUrlInSync` | src/components/product/ProductForm.client.jsx:75-79 | after the load pass, the last URL written shows the parameters, and earlier entries stay |
| `OptionSync.LoadPassReadOnlyWhenAllPresent` | src/components/product/ProductForm.client.jsx:62-69 | when every option's parameter is present, the pass writes nothing, replaces no URL and does not throw |
| `OptionSync.ChangeWritesOneParameter` | src/components/product/ProductForm.client.jsx:94-111 | `handleChange(name, value)` selects `value` for `name` and no other option, writes `params[enc(lower(name))] = enc(lower(value))`, keeps every other parameter, and in a browser leaves the URL showing the parameters |
| `OptionSync.ChangeIdempotent` | src/components/product/ProductForm.client.jsx:94-111 | picking the same value twice leaves the same parameters and selection as picking it once |
| `OptionSync.ParamKeyIsLowerIff` | src/components/product/ProductForm.client.jsx:64-73 | the written key equals the looked-up key exactly when the lower-cased name has only unreserved characters |
| `OptionSync.RemountReadsBackAsWrittenIff` | src/components/product/ProductForm.client.jsx:64-74 | as written, after `handleChange` a remount reads back the chosen value without rewriting the URL (the whole state is unchanged) exactly when `enc(lower(name)) = lower(name)` |
| `OptionSync.RemountReadsBackEncodedLookup` | src/components/product/ProductForm.client.jsx:64-74 | when the lookup uses the written key, a remount always reads back the written choice and leaves parameters and URL alone |
| `OptionSync.SizeFitKey` | src/components/product/ProductForm.client.jsx:72 | the option `Size Fit` is written under `size%20fit` and looked up as `size fit` |
| `OptionSync.SizeFitChoiceLostOnRemount` | src/components/product/ProductForm.client.jsx:64-74 | after picking `M` for `Size Fit`, a remount as written keeps the default `S` and overwrites the parameter with `s` |
| `OptionSync.ChoiceKeptByEncodedLookup` | src/components/product/ProductForm.client.jsx:64-74 | with the lookup under the written key, a value picked on a form with no parameters is selected again after a remount, and its parameter keeps the written value |
| `OptionSync.SizeFitChoiceKeptByEncodedLookup` | src/components/product/ProductForm.client.jsx:64-74 | with the lookup under the written key, the same `Size Fit` remount restores `M` and keeps `size%20fit=m` |
| `WidgetPayload.AllocationsForPayload` | src/components/product/ProductForm.client.jsx:118-125 | one entry per allocation node, in order, each with `selling_plan_id = getFormattedId(sellingPlan.id)` and the charge amount |
| `WidgetPayload.VariantEntries` | src/components/product/ProductForm.client.jsx:113-128 | the builder completes exactly when every variant has allocation nodes; then it keeps length and order, and each entry's id is `getFormattedId(variant.id)` and its allocations are those of the variant |
| `WidgetPayload.VariantsForPayload` | src/components/product/ProductForm.client.jsx:113 | `getVariantsForPayload(variants = [])` is `VariantEntries` on the list with `undefined` taken as `[]`; no ensures of its own, `VariantEntries` carries the contract |
| `WidgetPayload.PlansForPayload` | src/components/product/ProductForm.client.jsx:137-143 | same length and order as the plans; name and description copied; id is `getFormattedId(plan.id)` |
| `WidgetPayload.GroupEntriesFrom` | src/components/product/ProductForm.client.jsx:131-146 | one entry per group, in order, with id equal to its list index; name copied; options default to `[]`; plans mapped, or left `undefined` |
| `WidgetPayload.SellingGroupsForPayload` | src/components/product/ProductForm.client.jsx:130-147 | the groups keep their length and order, and entry `i` has id `i` and the group's name |
| `WidgetPayload.ProductHashJson` | src/components/product/ProductForm.client.jsx:44-54 | null exactly when `sellingPlanGroups` is absent or empty; a `TypeError` exactly when there are groups and some variant lacks allocation nodes; otherwise a payload carrying the price and the flag, the variants built by `getVariantsForPayload` and the groups built by `getSellingGroupsForPayload` |
| `WidgetPayload.PayloadBuiltFromInputs` | src/components/product/ProductForm.client.jsx:44-54 | with groups present and every variant complete, the payload is built; variant `i` has `getFormattedId(id)`, its price times 100 and its selling-plan allocations; group `i` has id `i`, its name, its options and its mapped selling plans |
| `WidgetPayload.VariantIdExample` | src/components/product/ProductForm.client.jsx:113-116 | a variant with id `gid://shopify/ProductVariant/123` gets the payload id 123 |
| `ProductDisplay.IsOutOfStock` | src/components/product/ProductForm.client.jsx:31 | `!selectedVariant?.availableForSale \|\| false`; no ensures of its own: `PurchaseControlsFor` states the controls it governs |
| `ProductDisplay.PurchaseControlsFor` | src/components/product/ProductForm.client.jsx:31 | add-to-cart is enabled, the caption is "Add to bag", and Shop Pay is offered for the selected variant, exactly when a variant is selected and is for sale |
| `ProductDisplay.OptionSelectors` | src/components/product/ProductForm.client.jsx:154-157 | an option gets no selector exactly when it has one value; every other option is passed on unchanged, in order |
| `ProductDisplay.WidgetContainerFor` | src/components/product/ProductForm.client.jsx:178-184 | `productHashJson && <div …>` with currency `$`; no ensures of its own: `WidgetRenderedIffSellingPlans` states when the container is rendered |
| `ProductDisplay.WidgetRenderedIffSellingPlans` | src/components/product/ProductForm.client.jsx:178-184 | when the payload can be built, the widget container is rendered exactly when the product has selling-plan groups |

## Left out

- Injecting the widget script into `document.head` (lines 35-42) is a DOM side effect that loads a remote script. It is not modelled.
- React's hook machinery is not modelled: `useState`, `useEffect` scheduling, `useMemo` memoisation and `useCallback`. The effect that re-creates `params` (lines 56-59) never fires, because `params` is always a `URLSearchParams`. So `params` is always present, and the `!params` guards are left out.
- The load pass reads the selection captured by the render. `setSelectedOption` is modelled as an update of the framework's map that takes effect at once; the framework's own code is not part of this model.
- Price conversion (`amount * 100`, lines 117 and 121) and the `isOnSale` comparison (lines 32-34) are decimal or floating-point arithmetic. Amounts stay opaque, and the payload keeps `amount * 100` unevaluated (`Hundredfold`).
- `JSON.stringify` (line 46) is not modelled. The payload is a value, and since every function here is pure, computing it twice gives the same value.
- Parsing the query string (`new URLSearchParams(search)`) and `URLSearchParams.toString` are not modelled. The constructor takes the parsed pairs, and the URL trace records each `pathname` with the pair list. `Remount` assumes that parsing a serialised list gives the list back.
- `window.history.replaceState` is recorded as a ghost trace of entries. `isBrowser()` is a parameter of `HandleChange`.
- The hidden variant-id input and its synthetic `change` event (lines 85-92) are not modelled.
- JSX markup, the loader skeleton, and the vendor components `AddToCartButton`, `Money`, `ShopPayButton`, `ProductOptions` and `useProductOptions` (lines 149-333) are not part of this model. Only the decisions they receive are modelled (`PurchaseControlsFor`, `OptionSelectors`, `WidgetContainerFor`).
- JavaScript `null` in the framework's data is not modelled. The storefront API declares those fields non-null, and `null` would bypass the destructuring defaults.
- `JsStrings.Lower`: lower-cases ASCII letters only. JavaScript's `toLowerCase` also maps non-ASCII letters, and some of those mappings change the length of a string.
- `JsStrings.StringToNumber`: a string that is neither empty nor all decimal digits is kept as `NotDecimal`, which includes the strings JavaScript reads as NaN (say `abc`). The model does not evaluate signs, fractions, exponents, hexadecimal literals, `Infinity` or surrounding white space. Digit strings are read exactly, with no rounding to a double above 2^53.
- `encodeURIComponent` throws `URIError` on a lone surrogate. The model cannot represent that case, because Dafny characters are Unicode scalar values; in JavaScript a lone surrogate in an option name or value would make the call throw.

## Findings

| source | as written | input that shows it | evidently intended | confidence | as-written member | corrected member |
|---|---|---|---|---|---|---|
| src/components/product/ProductForm.client.jsx:64 | the load pass looks an option up under `name.toLowerCase()`, but lines 72 and 99 write it under `encodeURIComponent(name.toLowerCase())` | option `Size Fit` with values `S`, `M`: pick `M` (parameter `size%20fit=m`), then remount with the default `S`; the lookup of `size fit` misses, `S` stays selected, and the parameter is overwritten with `s` | look the option up under the key it is written under, so a choice in the URL survives a reload for any option name | not executed; proved on the model, which assumes that parsing the serialised query gives the written pairs back | `OptionSync.SizeFitChoiceLostOnRemount` | `OptionSync.RemountReadsBackEncodedLookup` |

`ProductForm.LoadFromUrl` takes the lookup rule as a parameter. `LowerCasedName` is the code as written. `EncodedName` is the corrected lookup, and it is the rule the read-back property is proved for.
