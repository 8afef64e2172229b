# drf-yasg `utils.py` in Dafny

A Dafny model of the core of `src/drf_yasg/utils.py` from drf-yasg, the
Swagger/OpenAPI generator for Django REST framework. It covers two parts:

- **Override registration.** This is the inner `decorator` of
  `swagger_auto_schema`. It builds the override record from the decorator's
  arguments. It finds out which HTTP methods the decorated view method
  serves: an `@api_view` class, an `@action` with `bind_to_methods` or
  `mapping`, or none. It checks the `method`/`methods` selector, then stores
  the record once per (view method, HTTP method), or once for a plain view
  method.
- **The stateless introspection helpers.** These are `is_list_view`,
  `guess_response_status`, `param_list_to_odict`, `filter_none`,
  `get_consumes`, `get_produces`, `decimal_as_float` and
  `get_serializer_ref_name`.

The Python decorator mutates a function object, and every `assert` in it is
a hard error. Here, registration is a pure function, `Registration.Decorate`.
It takes the call's arguments and a `Handler` value, and returns
`Result<Option<Handler>, Error>`:

- `Failure(e)` names the assertion that fired.
- `Success(None)` is the early `return` for an empty record.
- `Success(Some(h'))` is the handler with its new `_swagger_auto_schema` value.

`Decorate` builds the record, returns early when it is empty, and otherwise
hands the record to `Registration.Attach`, which models lines 124-172. The
selector and binding checks never look at the record's contents, so most of
the decorator's properties are stated for `Attach` with any record.
`DecorateAttaches` carries them to `Decorate` for a call that sets something
and uses no reserved key. Only the success condition, the no-overwrite
property and the second-registration property also have their own lemma
about the whole decorator.

Reflection becomes plain inputs:

- the view method's `bind_to_methods`, `mapping`, `__name__` and `cls`;
- the class's method names, its attributes, and which of them are already
  decorated;
- for the helpers, the facts a view, field or serializer would yield
  (`ViewFacts`, `DecimalFacts`, `SerializerFacts`).

`Registration.Call` holds the decorator's arguments, `**extra_overrides`
included. A keyword named like one of the decorator's fifteen parameters
binds to that parameter in Python, so it never reaches `**extra_overrides`.
The type itself admits such keys. `Registration.ExtrasWellFormed` singles
out the calls Python can make, and every property below holds for all calls
unless it says otherwise.

Modules, one per file:

| module | file | what |
|---|---|---|
| `Wrappers` | wrappers.dfy | `Option`, `Result` |
| `Seqs` | seqs.dfy | order-preserving filter (a list comprehension with `if`) |
| `Text` | text.dfy | `lower`, `strip`, `split`, `endswith`, `in` on strings |
| `Values` | values.dfy | Python values and `filter_none` |
| `OrderedDicts` | odicts.dfy | `OrderedDict` built from pairs |
| `Introspection` | introspection.dfy | the stateless helpers |
| `Registration` | registration.dfy | the decorator |
| `RegistrationProperties` | registration_props.dfy | what the decorator guarantees |

## Model

| member | source | states |
|---|---|---|
| `Values.FilterNone` | src/drf_yasg/utils.py:253-268 | None gives None. A dict loses exactly the items whose key or value is None, and a list or tuple loses exactly its None elements; order and container kind are kept. Anything else passes through. |
| `Values.FilterNoneUnchanged` | src/drf_yasg/utils.py:266-268 | The very object comes back exactly when it holds no None entry. |
| `Values.FilterNoneMembers` | src/drf_yasg/utils.py:262-265 | No None entry survives, and every entry that is not None does. |
| `Values.FilterNoneIdempotent` | src/drf_yasg/utils.py:253-268 | Filtering twice is the same as filtering once. |
| `Text.StripSpec` | src/drf_yasg/utils.py:221 | `path.strip('/')` is a contiguous block of the path; everything around it is `/`, and it neither starts nor ends with `/`. |
| `Text.JoinSplit` | src/drf_yasg/utils.py:221 | Joining the pieces of `split('/')` with `/` gives back the string. |
| `Text.LastPieceHas` | src/drf_yasg/utils.py:221-222 | A character is in the last `/`-piece exactly when it occurs with no `/` after it. |
| `Introspection.IsListView` | src/drf_yasg/utils.py:196-226 | The ordered rules: list markers give true, then detail markers give false, then a detail mixin gives false, then a parameterized last path component gives false; otherwise true. |
| `Introspection.IsListViewIgnoresMethod` | src/drf_yasg/utils.py:205-206 | The `method` argument never changes the answer, because it is overwritten before it is read. |
| `Introspection.IsListViewByPath` | src/drf_yasg/utils.py:220-226 | When the view says nothing, it is not a list view exactly when the slash-stripped path has a `{` with no `/` after it. |
| `Introspection.CollectionPathIsList` | src/drf_yasg/utils.py:220-226 | `/users/` is a list path. |
| `Introspection.InstancePathIsDetail` | src/drf_yasg/utils.py:220-223 | `/users/{id}/` is not. |
| `Introspection.GuessResponseStatus` | src/drf_yasg/utils.py:229-235 | A 2xx status: 201 exactly for `post`, 204 exactly for `delete`, 200 exactly otherwise. |
| `OrderedDicts.FromPairsDistinct` | src/drf_yasg/utils.py:248-249 | An `OrderedDict` built from pairs has one item per pair exactly when no key repeats, and then holds the pairs in order. |
| `Introspection.ParamListToOdict` | src/drf_yasg/utils.py:238-250 | Fails exactly when two parameters share a `(name, in_)` key. Otherwise there is one entry per parameter, keyed by `(name, in_)`, in input order. |
| `Introspection.ParamListToOdictExamples` | src/drf_yasg/utils.py:248-249 | `id` in query plus `id` in path is accepted; `id` twice in query is refused. |
| `Introspection.GetConsumes` | src/drf_yasg/utils.py:308-320 | An all-form list (the empty list included) comes back unchanged. Otherwise the result is exactly the non-form types, in order. |
| `Introspection.ConsumesNeverMixes` | src/drf_yasg/utils.py:315-320 | The answer is all form types or all non-form types, and is non-empty for a non-empty input. |
| `Introspection.ConsumesIdempotent` | src/drf_yasg/utils.py:308-320 | Feeding the answer back in returns it unchanged. |
| `Introspection.ConsumesExamples` | src/drf_yasg/utils.py:316-320 | Form-only parsers keep both form types; JSON plus multipart keeps JSON only. |
| `Introspection.GetProduces` | src/drf_yasg/utils.py:323-332 | Exactly the media types not containing `html`, in order; a list without `html` comes back unchanged. |
| `Introspection.ProducesConcatenates` | src/drf_yasg/utils.py:330-332 | Renderer lists that are concatenated give concatenated answers. |
| `Introspection.DecimalAsFloat` | src/drf_yasg/utils.py:335-344 | True only for a decimal field. For one, it is true exactly when its own `coerce_to_string` is false, or, without that attribute, when the global setting is false. |
| `Introspection.GetSerializerRefName` | src/drf_yasg/utils.py:347-366 | `Meta.ref_name` wins, even when it is None. Otherwise a ModelSerializer named `NestedSerializer` gives None. Otherwise the result is the class name with one trailing `Serializer` removed. |
| `Introspection.RefNameExamples` | src/drf_yasg/utils.py:355-366 | `UserSerializer` gives `User`. A model `NestedSerializer` gives None, and a plain one gives `Nested`. `ref_name = None` gives None. |
| `Registration.StandardData` | src/drf_yasg/utils.py:103-115 | A standard key is in the filtered dict literal exactly when its value is not None, and then maps to that value. |
| `Registration.BuildData` | src/drf_yasg/utils.py:103-118 | The record: extra overrides verbatim; `auto_schema` exactly when it is not `unset`; a standard key not overridden exactly when its value is not None. Every key comes from one of these three. `operation_summary` and `deprecated` only ever come from the extras. So for a call Python can make, where no extra is named like a parameter, they are never in the record. |
| `Registration.MappedMethods` | src/drf_yasg/utils.py:126 | A method is listed exactly when `mapping` maps it to the view method's name. |
| `Registration.ActionMethods` | src/drf_yasg/utils.py:124-127 | A method is an `@action` method exactly when it is in `bind_to_methods` or `mapping` maps it to the view method's name. |
| `Registration.ApiViewMethods` | src/drf_yasg/utils.py:130-131 | A method is an `@api_view` method exactly when there is a `cls`, and the method is one of its `http_method_names` and one of its attributes. |
| `Registration.AvailableMethods` | src/drf_yasg/utils.py:124-133 | The available methods are exactly the `@api_view` methods and the `@action` methods, that is, the class methods with an attribute, `bind_to_methods`, and the mapped methods. |
| `Registration.SelectTargets` | src/drf_yasg/utils.py:136-147 | A selector on a view method with no HTTP binding is refused as such. An accepted non-empty selection means there are bound methods. |
| `Registration.RecordNonEmpty` | src/drf_yasg/utils.py:102-121 | The record is empty, and the decorator returns early, exactly when the call sets no extra override, no `auto_schema` and no standard override other than None. |
| `Registration.PerMethod` | src/drf_yasg/utils.py:164 | Each target gets the record under its lower-cased name. An existing record that no target lower-cases to keeps its value. No other key appears. |
| `Registration.WholeHandler` | src/drf_yasg/utils.py:172 | The attribute has exactly the record's keys, each holding that override's value as a plain value. |
| `Registration.Bind` | src/drf_yasg/utils.py:149-172 | The binding checks never raise the reserved-key error, and a success always returns the view method with only `_swagger_auto_schema` changed. |
| `Registration.Attach` | src/drf_yasg/utils.py:124-172 | Once the record is built, the checks never raise the reserved-key error, and a success always returns the view method with only `_swagger_auto_schema` changed. |
| `Registration.Decorate` | src/drf_yasg/utils.py:101-174 | An HTTP method name among the extras is the first error, and only that case gives it. The record is empty exactly when the result is `Success(None)`. Only `_swagger_auto_schema` ever changes. |
| `Registration.Register` | src/drf_yasg/utils.py:101-174 | The corrected decorator (see Findings) gives the same result as the source for every view method whose available HTTP method names are all lower case. |
| `Registration.LookupsAgree` | src/drf_yasg/utils.py:159-164 | Once the record is built, the source's lookup and the lower-cased one give the same result on every view method whose available HTTP method names are all lower case. |
| `Registration.RegisterAsWritten` | src/drf_yasg/utils.py:101-174 | The decorator as the source writes it agrees with the corrected lookup on every view method whose available HTTP method names are all lower case. |
| `RegistrationProperties.SelectTargetsSpec` | src/drf_yasg/utils.py:136-147 | The selection is accepted exactly when the selector rules hold. It is then the lower-cased methods, and it is non-empty exactly when a selector was given. |
| `RegistrationProperties.BindSpec` | src/drf_yasg/utils.py:149-172 | The binding is accepted exactly when the binding rules hold. The result is then the per-method records or the whole-handler record. |
| `RegistrationProperties.AttachSucceedsIff` | src/drf_yasg/utils.py:124-172 | Binding a record succeeds exactly when every selector and binding check passes. It then writes one record per target, or the whole-handler record. |
| `RegistrationProperties.DecorateAttaches` | src/drf_yasg/utils.py:102-121 | A call without a reserved key that sets something goes on to the checks with the record it builds. |
| `RegistrationProperties.DecorateSucceedsIff` | src/drf_yasg/utils.py:101-174 | For such a call, the whole decorator succeeds exactly when every selector and binding check passes, and then writes one record per target or the whole-handler record. |
| `RegistrationProperties.AmbiguousBindingFails` | src/drf_yasg/utils.py:149-156 | Refused: several bound methods and no selector, or both an `@api_view` class and `@action` methods. |
| `RegistrationProperties.ConflictingBindingsReachable` | src/drf_yasg/utils.py:149-151 | The "this should never happen" assertion fires for a view method whose `cls` has a `get` attribute and whose `bind_to_methods` is `['get']`, when no selector is given. |
| `RegistrationProperties.PlainSelectorCaughtEarlier` | src/drf_yasg/utils.py:137-170 | The assertion of line 167 never fires; line 138 refuses the same calls first. |
| `RegistrationProperties.ImplicitSingleTarget` | src/drf_yasg/utils.py:157-164 | With one bound method and no selector, the record goes under that method, lower-cased. |
| `RegistrationProperties.PlainHandlerRecord` | src/drf_yasg/utils.py:166-172 | An unbound view method stores the record itself, and only if it had none and no selector was given. |
| `RegistrationProperties.RecordsAccumulate` | src/drf_yasg/utils.py:161-165 | On a bound view method: no target was decorated on the class, each target gets the record under its lower-cased name, and every other record stays. |
| `RegistrationProperties.AttachNeverOverwrites` | src/drf_yasg/utils.py:147-172 | With line 163 looking up the lower-cased target (the correction under ## Findings), binding a non-empty record keeps every earlier record unchanged and adds at least one. |
| `RegistrationProperties.RegisterNeverOverwrites` | src/drf_yasg/utils.py:101-174 | With line 163 looking up the lower-cased target (the correction under ## Findings), the same for the whole decorator. |
| `RegistrationProperties.SecondAttachFails` | src/drf_yasg/utils.py:147-171 | With line 163 looking up the lower-cased target (the correction under ## Findings), a second record for an HTTP method that already has one is refused, through `method`, `methods` or the implicit target. So is a second record for a plain view method. |
| `RegistrationProperties.SecondRegistrationFails` | src/drf_yasg/utils.py:101-174 | With line 163 looking up the lower-cased target (the correction under ## Findings), the same for the whole decorator: the second registration never stores a second record. It can still return `Success(None)` when its own record is empty. |
| `RegistrationProperties.BodyOnlyCalls` | src/drf_yasg/utils.py:103-118 | Two calls that set only different request bodies store different, non-empty records, with no selector and no reserved key. |
| `RegistrationProperties.SecondAttachAsWritten` | src/drf_yasg/utils.py:159-164 | As written, an action with `bind_to_methods == ['POST']` that already has a record under `post` accepts a second selector-free record and replaces the first. |
| `RegistrationProperties.AttachUpperCaseAgain` | src/drf_yasg/utils.py:159-164 | When line 163 looks up the lower-cased name, that second record is refused. |
| `RegistrationProperties.AsWrittenOverwrites` | src/drf_yasg/utils.py:159-164 | As written, decorating that action twice without a selector succeeds both times, and the second record replaces the first under `post`. |
| `RegistrationProperties.LowerCasedRefusesSecond` | src/drf_yasg/utils.py:159-164 | With the lower-cased lookup, the first decoration succeeds and the second is refused. |

Behaviours of the code the model keeps:

- `operation_summary` and `deprecated` are documented overrides, but the
  code never puts them in the record.
- A call whose record ends up empty returns None, so the decorated name
  becomes None. It does not return the view method unchanged.
- A class named exactly `Serializer` gets the reference name `""`, not a
  non-empty name.
- `ConflictingBindings` ("this should never happen") is reachable. It
  fires for a view method whose `cls` has an attribute for at least one of
  its `http_method_names` and that also has a non-empty `bind_to_methods`
  or a `mapping` entry for its name.
- With `bind_to_methods == ['POST']`, a `method='post'` selector is refused
  as "not bound". Line 146 compares the lower-cased selection with the
  bindings as they are.

## Left out

- `get_field_default`, `force_real_str`, `force_serializer_instance`,
  `get_serializer_class` and `swagger_serializer_method`. They are foreign
  calls into Django and DRF, floating point and JSON, class reflection, or
  a one-line attribute stash.
- Logging, and the `setattr` on the function object. The new attribute
  value is returned inside the `Handler` instead.
- `is_form_media_type` is the function parameter `isForm` of `GetConsumes`.
  The mixin `isinstance` tests of `is_list_view` and the `DecimalField`
  tests of `decimal_as_float` are boolean inputs. Parsers and renderers are
  given by their `media_type` strings.
- The values of overrides (schemas, serializers, responses) are opaque
  `Obj` values; only their None-ness matters to this code.
- `Text.Lower`: only ASCII letters are lower-cased, unlike Python's
  Unicode `str.lower`; HTTP method names are ASCII.
- `Introspection.IsListView`: a view whose `action` is None is not
  modelled. It makes `getattr(view, None)` raise `TypeError`. `action` is a
  string, `""` when absent.
- `Registration.Decorate`: a `bind_to_methods` or `cls` attribute that is
  not a list or class is not modelled.

## Findings

| source | as written | input that shows it | evidently intended | confidence | as-written member | corrected member |
|---|---|---|---|---|---|---|
| src/drf_yasg/utils.py:163 | The implicit target is looked up in the existing records as written in `bind_to_methods`, while line 164 stores it lower-cased. | An `@action`/`detail_route` with `bind_to_methods == ['POST']` (Django REST framework before 3.8 keeps it as given), decorated twice without `method`. The second record silently replaces the first under `post`. | The second decoration is refused with "swagger_auto_schema applied twice to method", as for every other way of decorating twice. | not executed; medium | `RegistrationProperties.AsWrittenOverwrites` | `RegistrationProperties.LowerCasedRefusesSecond` |

`Registration.Decorate` and `Registration.Attach` take the lookup as a
parameter. `RegisterAsWritten` uses the source's lookup. `Register` uses
the corrected lookup, and it is what `RegisterNeverOverwrites` and
`SecondRegistrationFails` are about.
