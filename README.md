# Flexibility context manager — a Dafny model

This project models the context manager of the UI framework's flexibility
library (`sap/ui/fl/context/ContextManager`). The manager decides three
things:

- whether a personalization change applies in the running session. A change
  with no `context` tag always applies. A tagged change applies only when its
  tag is among the active context ids.
- which context definitions are active. Two modes decide this:
  - **URL override**: the design-time URL parameter
    `sap-ui-flexDesignTimeContext` lists ids, separated by commas. The
    definitions named there are active, and the context providers are not
    asked.
  - **Parameter evaluation**: used when that list is empty. The providers are
    asked once for the distinct selectors of all definitions. A definition is
    active when every parameter (`EQ` / `NE` against the reported value)
    holds.
- what a context object sent to the layered repository looks like. The
  manager validates it, fills in defaults, and builds the URL and HTTP
  method.

The project has three modules:

- `Wrappers` (`wrappers.dfy`): `Option` and `Result`.
- `Js` (`js.dfy`): the JavaScript semantics the manager depends on:
  - runtime values and strict equality `===`;
  - truthiness of optional strings (`x || d`);
  - `Array.prototype.indexOf`;
  - `String.prototype.split` with a one-character separator, and its inverse
    `join`, with both round trips proved.
- `ContextManager` (`context_manager.dfy`): the manager itself.
  - The rules without state (`doesContextMatch`, `_checkEquals`,
    `_checkContextParameter`, `_getContextIdsFromUrl`) are functions.
  - The `forEach` / `every` loops that push into local arrays are methods with
    loop invariants. Each is proved equal to a specification function, and
    the properties are proved about those functions:
    - `SelectedIds` for both selection modes;
    - `Distinct(AllSelectors(...))` for the selector collection;
    - `IsActive` for a single definition.
  - `getActiveContexts` is a method proved against the function
    `ActiveContexts`.
  - `createOrUpdateContextObject` is a method proved against
    `ContextObjectRequest`.

Some parts of the source are outside the model and become inputs:

- The providers' asynchronous `getValue` call is a parameter
  `provider: seq<string> -> ProviderReply`. Its reply either resolves to a map
  from selector to value, or rejects.
- The URL parameter reader's result is a parameter `Option<string>`.
- The foreign defaults of a new context object are a `Defaults` record: the
  generated file name, the current layer and the current language.

## Model

| member | source | states |
|---|---|---|
| `ContextManager.DoesContextMatch` | resources/sap/ui/fl/context/ContextManager.js:6 | an absent or empty context tag always matches; a non-empty tag matches iff the active-id list is present and contains it |
| `ContextManager.ContextIdsFromUrl` | resources/sap/ui/fl/context/ContextManager.js:6 | no ids iff the URL value is absent or empty; otherwise a non-empty list of comma-free ids that joins back to the URL value |
| `ContextManager.UrlIdsRoundTrip` | resources/sap/ui/fl/context/ContextManager.js:6 | every non-empty list of comma-free ids written into the URL value is read back unchanged |
| `Js.StrictEquals` | resources/sap/ui/fl/context/ContextManager.js:6 | `===` holds iff the two values are the same value and not NaN |
| `Js.IndexOf` | resources/sap/ui/fl/context/ContextManager.js:6 | `indexOf` is -1 iff the element is absent, else the position of its first occurrence |
| `ContextManager.CheckEquals` | resources/sap/ui/fl/context/ContextManager.js:6 | a selector missing from the provider values equals only `undefined`; a reported value equals the parameter value iff they are identical and not NaN |
| `ContextManager.CheckContextParameter` | resources/sap/ui/fl/context/ContextManager.js:6 | `EQ` holds iff the reported value strictly equals the parameter value, `NE` iff it does not, and any other operator is false |
| `ContextManager.NotEqualNegatesEqual` | resources/sap/ui/fl/context/ContextManager.js:6 | for the same selector and value, `NE` is exactly the negation of `EQ` |
| `ContextManager.IsContextObjectActive` | resources/sap/ui/fl/context/ContextManager.js:6 | the short-circuiting `every` loop returns true iff every parameter holds; an empty parameter list is active |
| `ContextManager.SelectedIndicesExact` | resources/sap/ui/fl/context/ContextManager.js:6 | the selected positions increase, each position is a selected definition, and every selected definition's position is among them |
| `ContextManager.SelectedIdsAreSubsequence` | resources/sap/ui/fl/context/ContextManager.js:6 | the selected ids are exactly the ids at the selected positions, in input order |
| `ContextManager.SelectedIdsMembers` | resources/sap/ui/fl/context/ContextManager.js:6 | an id is in the result iff some definition with that id is selected |
| `ContextManager.AllSelectedKeepsEveryId` | resources/sap/ui/fl/context/ContextManager.js:6 | when every definition is selected the result is the full id list, duplicate ids kept |
| `ContextManager.ActiveContextsByApiParameters` | resources/sap/ui/fl/context/ContextManager.js:6 | the loop returns the ids of the definitions that are active under the provider values, in input order |
| `ContextManager.ActiveContextsByUrlParameters` | resources/sap/ui/fl/context/ContextManager.js:6 | the loop returns the ids of the definitions whose id is in the URL id list, in input order |
| `ContextManager.DistinctElements` | resources/sap/ui/fl/context/ContextManager.js:6 | order-preserving deduplication has no duplicates and exactly the elements of its input |
| `ContextManager.DistinctFirstSeen` | resources/sap/ui/fl/context/ContextManager.js:6 | deduplication lists elements in the order of their first occurrence |
| `ContextManager.FirstSeenOrderUnique` | resources/sap/ui/fl/context/ContextManager.js:6 | no duplicates, the same elements and first-seen order together determine the deduplicated list uniquely |
| `ContextManager.AllSelectorsReferenced` | resources/sap/ui/fl/context/ContextManager.js:6 | a selector occurs in the flattened selector list iff some parameter of some definition uses it |
| `ContextManager.AddParameterSelectors` | resources/sap/ui/fl/context/ContextManager.js:6 | the inner loop over one definition's parameters pushes exactly the selectors not seen before, keeping the list equal to the deduplication of everything seen |
| `ContextManager.ContextParametersFromApi` | resources/sap/ui/fl/context/ContextManager.js:6 | the nested loops collect every referenced selector once, no duplicates, in first-seen order |
| `ContextManager.GetActiveContexts` | resources/sap/ui/fl/context/ContextManager.js:6 | `getActiveContexts` computes `ActiveContexts`: URL override when the URL list is non-empty, otherwise the active definitions under the provider's answer for the distinct selectors, or the rejection |
| `ContextManager.UrlOverrideIgnoresProvider` | resources/sap/ui/fl/context/ContextManager.js:6 | with the URL parameter set the result is the URL selection and does not depend on the provider |
| `ContextManager.ParameterModeAsksForSelectors` | resources/sap/ui/fl/context/ContextManager.js:6 | without the URL parameter the result depends only on the provider's reply to the distinct selector list, and fails iff that reply is a rejection |
| `ContextManager.ActiveContextsAreDefinitionIds` | resources/sap/ui/fl/context/ContextManager.js:6 | every active id is the id of one of the given definitions |
| `ContextManager.SelectionReadsOnlyReferencedSelectors` | resources/sap/ui/fl/context/ContextManager.js:6 | provider values that agree on all referenced selectors give the same active definitions |
| `ContextManager.IsActiveReadsOnlyItsSelectors` | resources/sap/ui/fl/context/ContextManager.js:6 | whether a definition is active depends only on the reported values of its own selectors |
| `ContextManager.ContextObjectRequest` | resources/sap/ui/fl/context/ContextManager.js:6 | fails with "no reference" iff the reference is missing or empty, else with "no namespace" iff the namespace is; on success fileName equals id, fileType is "context", every field of the object (id, title, description, parameters, reference, namespace, packageName, creation, layer, originalLanguage, support with its generator default, validAppVersions) is the input value or its default, the method is PUT and the URL is content path + namespace + fileName + ".context?layer=" + layer |
| `ContextManager.CreateOrUpdateContextObject` | resources/sap/ui/fl/context/ContextManager.js:6 | the step-by-step construction of the object and URL computes `ContextObjectRequest` |
| `ContextManager.UpdateWithPreparedObjectIsStable` | resources/sap/ui/fl/context/ContextManager.js:6 | submitting an already prepared context object again gives back the same object and request |
| `ContextManager.UpdateIgnoresDefaultsOnceFilled` | resources/sap/ui/fl/context/ContextManager.js:6 | a prepared object with non-empty id, layer and language no longer depends on the foreign defaults |
| `ContextManager.ParameterExamples` | resources/sap/ui/fl/context/ContextManager.js:6 | `EQ`/`NE`/unknown operator on matching and non-matching values give true/false, false/true and false |
| `ContextManager.ParameterModeExample` | resources/sap/ui/fl/context/ContextManager.js:6 | a phone-only definition and an unconditional one are both active on a phone |
| `ContextManager.UrlOverrideExample` | resources/sap/ui/fl/context/ContextManager.js:6 | with the URL naming "B" only "B" is active, whatever the providers report |

## Left out

- The context provider instance and its device and switch providers are not modelled. Their asynchronous `getValue` is foreign code. It is the `provider` function parameter, which either resolves to a selector-to-value map or rejects.
- `LrepConnector.send` and its HTTP transport are not modelled. The model stops at the request it would send: URL, method and payload. The empty options object passed to `send` is not modelled.
- The `Log.info` diagnostic for an unknown operator is not modelled, because it is output only. The result stays `false`.
- Promise wrapping is replaced by a `Result`. A resolved promise is `Success`, and a rejected provider call is `Failure` carrying the rejection reason.
- `Utils.getUrlParameter` is not modelled, because it reads the browser URL. Its result for `sap-ui-flexDesignTimeContext` is an input.
- `Utils.createDefaultFileName`, `Utils.getCurrentLayer(false)` and `Utils.getCurrentLanguage` are not modelled. They are foreign, and their values are the `Defaults` input. The source calls them only when the property is falsy; the model takes all three values up front, which is invisible for helpers without side effects.
- JavaScript numbers are exact reals plus `NaN`. Infinity and rounding are not modelled, since they do not affect `===` comparisons among the values a provider reports. Objects are compared by reference identity.
- Provider values are treated as a plain dictionary. Property lookup through the prototype chain is not modelled: in JavaScript a selector such as `constructor` would find an inherited property.
- A context tag that is not a string, and an active-id argument that is a falsy value other than `undefined`, are not modelled. The tag is an optional string and the list is an optional sequence.
- DoesContextMatch: when the active-id list is absent the source returns `undefined` rather than `false`. The model returns `false`, which JavaScript treats the same in a condition.
- A context definition is assumed to have a `parameters` array. In the source a missing array makes the `forEach` throw a `TypeError`; that failure is not modelled.
- ActiveContextsByUrlParameters: the id list is a sequence, so the source's guard for an absent list is not modelled. The only caller always passes the array produced by `split`.
- In `createOrUpdateContextObject`, truthiness is modelled for string properties only. `support` is a fixed record of generator, service and user, and `validAppVersions` is a string map. Both are objects and always truthy when present.
- `resources/sap/ui/rta/appVariant/Feature-dbg.js` is not part of this model. It orchestrates dialogs, busy indicators, event-bus subscriptions and a chain of network calls over module-level globals, and every step calls foreign app-variant helpers.
- `resources/sap/ui/fl/read/api/ControlVariantReadAPI-dbg.js` and `resources/sap/ui/fl/read/api/ControlPersonalizationReadAPI-dbg.js` are not part of this model. They only forward their arguments to an older personalization API that is not shown, so they have no behaviour of their own.
