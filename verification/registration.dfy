/** The decorator returned by `swagger_auto_schema` (src/drf_yasg/utils.py,
    lines 101-174): it works out which HTTP methods a view method serves,
    checks the `method`/`methods` selector, and records the overrides on the
    view method, at most once per (view method, HTTP method). The Python code
    mutates the function object; here the decorator returns the new value of
    its `_swagger_auto_schema` attribute as part of an updated `Handler`. */
module Registration {
  import opened Wrappers
  import opened Seqs
  import opened Text
  import opened Values

  /** `APIView.http_method_names`: the names no extra override may use. */
  const HttpMethodNames: seq<string> := ["get", "post", "put", "patch", "delete", "head", "options", "trace"]

  /** The named parameters of `swagger_auto_schema`, in declaration order. A
      keyword argument with one of these names binds to the parameter, so it
      can never be a key of `**extra_overrides`. */
  const ParameterNames: seq<string> := [
    "method", "methods", "auto_schema", "request_body", "query_serializer",
    "manual_parameters", "operation_id", "operation_description", "operation_summary",
    "security", "deprecated", "responses", "field_inspectors", "filter_inspectors",
    "paginator_inspectors"]

  /** One override record: override name to value. */
  type Overrides = map<string, Py>

  /** One entry of a view method's `_swagger_auto_schema` dict. A method bound
      to HTTP methods keeps one record per HTTP method (`ForMethod`); a plain
      view method keeps the record itself, one `Value` per override name. */
  datatype Slot = Value(value: Py) | ForMethod(overrides: Overrides)

  /** The `cls` of an `@api_view` function: its `http_method_names`, the names
      of the attributes it has, and the names of those attributes that carry
      their own `_swagger_auto_schema`. */
  datatype ViewClass = ViewClass(httpMethodNames: seq<string>, attributes: set<string>, decorated: set<string>)

  /** What the decorator reads from and writes to the view method:
      `__name__`, `bind_to_methods` ([] when absent), the items of `mapping`
      ({} when absent), `cls` and `_swagger_auto_schema` (empty when absent:
      the decorator never stores an empty dict). */
  datatype Handler = Handler(
    name: string,
    bindToMethods: seq<string>,
    mapping: seq<(string, string)>,
    cls: Option<ViewClass>,
    schema: map<string, Slot>)

  /** A parameter whose default is the `unset` sentinel. */
  datatype Arg<T> = Unset | Given(value: T)

  /** The `methods` argument: None, a str (a caller mistake), or a list. */
  datatype MethodsArg = NoMethods | MethodsString(s: string) | MethodsList(items: seq<string>)

  /** The arguments of one `swagger_auto_schema(...)` call (`singleMethod` is
      `method`). The inspector
      lists are their items, `[]` standing for None or an empty list;
      `extra` is `**extra_overrides`. */
  datatype Call = Call(
    singleMethod: Option<string>,
    methods: MethodsArg,
    autoSchema: Arg<Py>,
    requestBody: Py,
    querySerializer: Py,
    manualParameters: Py,
    operationId: Py,
    operationDescription: Py,
    operationSummary: Py,
    security: Py,
    deprecated: Py,
    responses: Py,
    fieldInspectors: seq<Py>,
    filterInspectors: seq<Py>,
    paginatorInspectors: seq<Py>,
    extra: Overrides)

  /** The calls Python can make: no extra override shares its name with a
      named parameter. */
  predicate ExtrasWellFormed(c: Call) {
    forall k :: k in c.extra ==> k !in ParameterNames
  }

  /** The AssertionErrors the decorator raises, by the rule they enforce. */
  datatype Error =
    | HttpMethodAsOverride    // an extra override is named after an HTTP method
    | SelectorWithoutBinding  // `method`/`methods` on a view method bound to no HTTP method
    | MethodAndMethods        // both `method` and `methods`
    | MethodsIsString         // `methods` given as a str
    | MethodNotBound          // a selected method the view method does not serve
    | DefinedMultipleTimes    // a selected method that already has a record
    | ConflictingBindings     // both an `@api_view` class and `@action` methods
    | AmbiguousMethod         // several HTTP methods and no selector
    | AppliedTwiceOnClass     // the class attribute for a target method has its own record
    | AppliedTwice            // the view method already has a record for the target
    | SelectorOnPlainHandler  // a selector survived on a view method with no binding

  // ------------------------------------------------------------------ the data

  /** The keys of the dict literal built before `filter_none`, in source order. */
  const StandardKeys: seq<string> := [
    "request_body", "query_serializer", "manual_parameters", "operation_id", "operation_description",
    "security", "responses", "filter_inspectors", "paginator_inspectors", "field_inspectors"]

  /** `list(x) if x else None` for an inspector argument. */
  function InspectorList(xs: seq<Py>): Py {
    if |xs| > 0 then PyList(xs) else PyNone
  }

  /** The value the dict literal gives to a standard key; `operation_summary`
      and `deprecated` are accepted by the decorator but never put in it. */
  function StandardValue(c: Call, key: string): Py {
    if key == "request_body" then c.requestBody
    else if key == "query_serializer" then c.querySerializer
    else if key == "manual_parameters" then c.manualParameters
    else if key == "operation_id" then c.operationId
    else if key == "operation_description" then c.operationDescription
    else if key == "security" then c.security
    else if key == "responses" then c.responses
    else if key == "filter_inspectors" then InspectorList(c.filterInspectors)
    else if key == "paginator_inspectors" then InspectorList(c.paginatorInspectors)
    else if key == "field_inspectors" then InspectorList(c.fieldInspectors)
    else PyNone
  }

  /** The dict literal of lines 103-114. */
  function StandardDict(c: Call): Py {
    PyDict(seq(|StandardKeys|, i requires 0 <= i < |StandardKeys| => (Str(StandardKeys[i]), StandardValue(c, StandardKeys[i]))))
  }

  /** The str-keyed items of a dict, as a map. */
  function StrKeyed(es: seq<(Py, Py)>): Overrides {
    if es == [] then map[]
    else
      var m := StrKeyed(es[..|es| - 1]);
      var e := es[|es| - 1];
      if e.0.Str? then m[e.0.s := e.1] else m
  }

  lemma {:induction false} StrKeyedSpec(es: seq<(Py, Py)>)
    ensures forall e :: e in es && e.0.Str? ==> e.0.s in StrKeyed(es)
    ensures forall k :: k in StrKeyed(es) ==> exists e :: e in es && e.0 == Str(k) && StrKeyed(es)[k] == e.1
  {
    if es != [] {
      var init := es[..|es| - 1];
      StrKeyedSpec(init);
      assert es == init + [es[|es| - 1]];
    }
  }


  /** What survives `filter_none` of the dict literal: a standard key is
      present exactly when its value is not None, and then maps to it. */
  lemma {:induction false} FilteredStandard(c: Call)
    ensures FilterNone(StandardDict(c)).PyDict?
    ensures var d := StrKeyed(FilterNone(StandardDict(c)).entries);
            forall k :: k in d <==> k in StandardKeys && !StandardValue(c, k).PyNone?
    ensures var d := StrKeyed(FilterNone(StandardDict(c)).entries);
            forall k :: k in d ==> d[k] == StandardValue(c, k)
  {
    var es := StandardDict(c).entries;
    var kept := FilterNone(StandardDict(c)).entries;
    var d := StrKeyed(kept);
    FilterNoneMembers(StandardDict(c));
    StrKeyedSpec(kept);
    forall k | k in d
      ensures k in StandardKeys && !StandardValue(c, k).PyNone? && d[k] == StandardValue(c, k)
    {
      var e :| e in kept && e.0 == Str(k) && d[k] == e.1;
      var j :| 0 <= j < |es| && es[j] == e;
    }
    forall k | k in StandardKeys && !StandardValue(c, k).PyNone?
      ensures k in d
    {
      var i :| 0 <= i < |StandardKeys| && StandardKeys[i] == k;
      assert es[i] in kept;
    }
  }

  /** Lines 102-114: the dict literal through `filter_none`, as a map. */
  function StandardData(c: Call): (d: Overrides)
    ensures forall k :: k in d <==> k in StandardKeys && !StandardValue(c, k).PyNone?
    ensures forall k :: k in d ==> d[k] == StandardValue(c, k)
  {
    FilteredStandard(c);
    StrKeyed(FilterNone(StandardDict(c)).entries)
  }

  /** The names the record takes from elsewhere are not standard keys. */
  lemma OtherKeysNotStandard()
    ensures "auto_schema" !in StandardKeys && "operation_summary" !in StandardKeys && "deprecated" !in StandardKeys
  {
    forall k | k in StandardKeys
      ensures |k| != |"auto_schema"| && |k| != |"deprecated"| && (|k| != |"operation_summary"| || k[0] != 'o')
    {
    }
  }

  /** The record a call stores (lines 102-118): the standard overrides without
      their None values, then `auto_schema` unless it is `unset`, then the
      extra overrides verbatim (None included), later entries winning. */
  function BuildData(c: Call): (d: Overrides)
    ensures forall k :: k in c.extra ==> k in d && d[k] == c.extra[k]
    ensures "auto_schema" !in c.extra ==> ("auto_schema" in d <==> c.autoSchema.Given?)
    ensures "auto_schema" !in c.extra && c.autoSchema.Given? ==> d["auto_schema"] == c.autoSchema.value
    ensures forall k :: k in StandardKeys && k !in c.extra ==>
              (k in d <==> !StandardValue(c, k).PyNone?) && (k in d ==> d[k] == StandardValue(c, k))
    ensures forall k :: k in d ==> k in c.extra || k == "auto_schema" || k in StandardKeys
    ensures "operation_summary" in d ==> "operation_summary" in c.extra
    ensures "deprecated" in d ==> "deprecated" in c.extra
    ensures ExtrasWellFormed(c) ==> "operation_summary" !in d && "deprecated" !in d
  {
    OtherKeysNotStandard();
    var d0 := StandardData(c);
    var d1 := if c.autoSchema.Given? then d0["auto_schema" := c.autoSchema.value] else d0;
    d1 + c.extra
  }

  /** Whether the call sets anything at all: an extra override, an
      `auto_schema`, or a standard override that is not None. */
  predicate SetsSomething(c: Call) {
    || |c.extra| > 0
    || c.autoSchema.Given?
    || exists k :: k in StandardKeys && !StandardValue(c, k).PyNone?
  }

  /** Line 119: the record is empty exactly when the call sets nothing. */
  lemma RecordNonEmpty(c: Call)
    ensures |BuildData(c)| > 0 <==> SetsSomething(c)
  {
    var d := BuildData(c);
    if |d| > 0 {
      var k :| k in d;
    }
    if |c.extra| > 0 {
      var k :| k in c.extra;
      assert k in d;
    } else if c.autoSchema.Given? {
      assert "auto_schema" in d;
    } else if exists k :: k in StandardKeys && !StandardValue(c, k).PyNone? {
      var k :| k in StandardKeys && !StandardValue(c, k).PyNone?;
      assert k in d;
    }
  }

  // ------------------------------------------------------------------ binding

  /** `bool(method)`. */
  predicate MethodGiven(c: Call) {
    c.singleMethod.Some? && |c.singleMethod.value| > 0
  }

  /** `bool(methods)`. */
  predicate MethodsGiven(c: Call) {
    match c.methods
    case NoMethods => false
    case MethodsString(s) => |s| > 0
    case MethodsList(ms) => |ms| > 0
  }

  /** `methods or method`. */
  predicate SelectorGiven(c: Call) {
    MethodGiven(c) || MethodsGiven(c)
  }

  /** The HTTP methods that the viewset's `mapping` routes to a method of
      this name. */
  function MappedMethods(mapping: seq<(string, string)>, name: string): (r: seq<string>)
    ensures forall m :: m in r <==> (m, name) in mapping
  {
    if mapping == [] then []
    else
      assert forall p :: p in mapping <==> p == mapping[0] || p in mapping[1..];
      (if mapping[0].1 == name then [mapping[0].0] else []) + MappedMethods(mapping[1..], name)
  }

  /** `action_http_methods`: the methods an `@action` is bound to, either
      directly or through the viewset's mapping. */
  function ActionMethods(h: Handler): (r: seq<string>)
    ensures forall m :: m in r <==> m in h.bindToMethods || (m, h.name) in h.mapping
  {
    h.bindToMethods + MappedMethods(h.mapping, h.name)
  }

  /** `api_view_http_methods`: the class's method names it has attributes for. */
  function ApiViewMethods(h: Handler): (r: seq<string>)
    ensures forall m :: m in r <==> h.cls.Some? && m in h.cls.value.httpMethodNames && m in h.cls.value.attributes
  {
    match h.cls
    case None => []
    case Some(vc) =>
      var has := m => m in vc.attributes;
      KeepMembers(vc.httpMethodNames, has);
      Keep(vc.httpMethodNames, has)
  }

  /** `available_http_methods`: every HTTP method the view method serves,
      whether through an `@api_view` class or as an `@action`. */
  function AvailableMethods(h: Handler): (r: seq<string>)
    ensures forall m :: m in r <==> m in ApiViewMethods(h) || m in ActionMethods(h)
    ensures forall m :: m in r <==>
              || (h.cls.Some? && m in h.cls.value.httpMethodNames && m in h.cls.value.attributes)
              || m in h.bindToMethods
              || (m, h.name) in h.mapping
  {
    ApiViewMethods(h) + ActionMethods(h)
  }

  /** Whether the class attribute for `m` already carries a record of its
      own, left there by an earlier application of the decorator. */
  predicate MarkedOnClass(h: Handler, m: string) {
    h.cls.Some? && m in h.cls.value.attributes && m in h.cls.value.decorated
  }

  function LowerAll(ms: seq<string>): (r: seq<string>)
    ensures |r| == |ms|
    ensures forall i :: 0 <= i < |ms| ==> r[i] == Lower(ms[i])
  {
    seq(|ms|, i requires 0 <= i < |ms| => Lower(ms[i]))
  }

  /** Lines 136-147: with a selector, the lower-cased methods it names once
      they are validated; without one, []. */
  function SelectTargets(c: Call, available: seq<string>, existing: map<string, Slot>): (r: Result<seq<string>, Error>)
    ensures r.Failure? ==> r.error != HttpMethodAsOverride && r.error != SelectorOnPlainHandler
    ensures r.Success? && |r.value| > 0 ==> |available| > 0
    ensures SelectorGiven(c) && |available| == 0 ==> r == Failure(SelectorWithoutBinding)
  {
    if !SelectorGiven(c) then Success([])
    else if |available| == 0 then Failure(SelectorWithoutBinding)
    else if MethodGiven(c) == MethodsGiven(c) then Failure(MethodAndMethods)
    else if c.methods.MethodsString? then Failure(MethodsIsString)
    else
      var selected := if MethodGiven(c) then [Lower(c.singleMethod.value)] else LowerAll(c.methods.items);
      if exists t :: t in selected && t !in available then Failure(MethodNotBound)
      else if exists t :: t in selected && t in existing then Failure(DefinedMultipleTimes)
      else Success(selected)
  }

  /** How line 163 looks a target up among the existing records: as the
      source does, with the target as it is, or lower-cased like the keys
      that line 164 writes. */
  datatype DuplicateCheck = AsWritten | LowerCased

  predicate AlreadyRecorded(check: DuplicateCheck, targets: seq<string>, existing: map<string, Slot>) {
    match check
    case AsWritten => exists t :: t in targets && t in existing
    case LowerCased => exists t :: t in targets && Lower(t) in existing
  }

  lemma LowerAllMembers(ms: seq<string>)
    ensures forall k :: k in LowerAll(ms) <==> exists t :: t in ms && Lower(t) == k
  {
    forall t | t in ms
      ensures Lower(t) in LowerAll(ms)
    {
      var i :| 0 <= i < |ms| && ms[i] == t;
      assert LowerAll(ms)[i] == Lower(t);
    }
    forall k | k in LowerAll(ms)
      ensures exists t :: t in ms && Lower(t) == k
    {
      var i :| 0 <= i < |ms| && LowerAll(ms)[i] == k;
      assert ms[i] in ms;
    }
  }

  /** Line 164: every target gets the record under its lower-cased name; an
      existing record keeps its value unless a target lower-cases to its key;
      no other key appears. */
  function PerMethod(existing: map<string, Slot>, targets: seq<string>, data: Overrides): (r: map<string, Slot>)
    ensures r.Keys == existing.Keys + (set t | t in targets :: Lower(t))
    ensures forall t :: t in targets ==> r[Lower(t)] == ForMethod(data)
    ensures forall k :: k in existing && (forall t :: t in targets ==> Lower(t) != k) ==> r[k] == existing[k]
  {
    LowerAllMembers(targets);
    existing + map t | t in LowerAll(targets) :: ForMethod(data)
  }

  /** Line 172: the record itself stored as the attribute, one plain value
      per override and nothing per HTTP method. */
  function WholeHandler(data: Overrides): (r: map<string, Slot>)
    ensures r.Keys == data.Keys
    ensures forall k :: k in r ==> r[k].Value? && r[k].value == data[k]
  {
    map k | k in data :: Value(data[k])
  }

  predicate ReservedKeyUsed(c: Call) {
    exists i :: 0 <= i < |HttpMethodNames| && HttpMethodNames[i] in c.extra
  }

  /** Lines 149-172: the binding checks and the write, given the validated
      selection (or [] without a selector). */
  function Bind(h: Handler, data: Overrides, selected: seq<string>, check: DuplicateCheck): (r: Result<Option<Handler>, Error>)
    ensures r.Failure? ==> r.error != HttpMethodAsOverride
    ensures r.Success? ==> r.value.Some? && r.value.value == h.(schema := r.value.value.schema)
  {
    var available := AvailableMethods(h);
    if |available| > 0 then
      if |ApiViewMethods(h)| > 0 && |ActionMethods(h)| > 0 then Failure(ConflictingBindings)
      else if |available| > 1 && |selected| == 0 then Failure(AmbiguousMethod)
      else
        var targets := if |selected| > 0 then selected else available;
        if exists t :: t in targets && MarkedOnClass(h, t) then Failure(AppliedTwiceOnClass)
        else if AlreadyRecorded(check, targets, h.schema) then Failure(AppliedTwice)
        else Success(Some(h.(schema := PerMethod(h.schema, targets, data))))
    else if |selected| > 0 then Failure(SelectorOnPlainHandler)
    else if |h.schema| > 0 then Failure(AppliedTwice)
    else Success(Some(h.(schema := WholeHandler(data))))
  }

  /** Lines 124-172, once the record is built and known to be non-empty:
      validate the selector, then bind the record. No check looks at the
      record's contents. */
  function Attach(c: Call, data: Overrides, h: Handler, check: DuplicateCheck): (r: Result<Option<Handler>, Error>)
    ensures r.Failure? ==> r.error != HttpMethodAsOverride
    ensures r.Success? ==> r.value.Some? && r.value.value == h.(schema := r.value.value.schema)
  {
    var selected :- SelectTargets(c, AvailableMethods(h), h.schema);
    Bind(h, data, selected, check)
  }

  /** The decorator applied to `h`. `Success(None)` is the source's early
      `return` for an empty record, which replaces the view method by None. */
  function Decorate(c: Call, h: Handler, check: DuplicateCheck): (r: Result<Option<Handler>, Error>)
    ensures ReservedKeyUsed(c) <==> r == Failure(HttpMethodAsOverride)
    ensures r == Success(None) <==> !ReservedKeyUsed(c) && |BuildData(c)| == 0
    ensures r.Success? && r.value.Some? ==> r.value.value == h.(schema := r.value.value.schema)
  {
    if ReservedKeyUsed(c) then Failure(HttpMethodAsOverride)
    else
      var data := BuildData(c);
      if |data| == 0 then Success(None) else Attach(c, data, h, check)
  }

  /** The two lookups of line 163 disagree only on a target that is not
      already lower case; every target is an available method. */
  lemma {:induction false} LookupsAgree(c: Call, data: Overrides, h: Handler)
    ensures (forall m :: m in AvailableMethods(h) ==> Lower(m) == m) ==>
              Attach(c, data, h, AsWritten) == Attach(c, data, h, LowerCased)
  {
    var sel := SelectTargets(c, AvailableMethods(h), h.schema);
    if (forall m :: m in AvailableMethods(h) ==> Lower(m) == m) && sel.Success? {
      var selected := sel.value;
      var targets := if |selected| > 0 then selected else AvailableMethods(h);
      assert forall t :: t in targets ==> t in AvailableMethods(h);
      assert AlreadyRecorded(AsWritten, targets, h.schema) == AlreadyRecorded(LowerCased, targets, h.schema);
    }
  }

  /** The registration the rest of the model uses: line 163 looks the
      lower-cased target up. It differs from the source only for a view
      method bound to an HTTP method name that is not lower case. */
  function Register(c: Call, h: Handler): (r: Result<Option<Handler>, Error>)
    ensures (forall m :: m in AvailableMethods(h) ==> Lower(m) == m) ==> r == Decorate(c, h, AsWritten)
  {
    LookupsAgree(c, BuildData(c), h);
    Decorate(c, h, LowerCased)
  }

  /** The registration exactly as the source writes it. It agrees with the
      corrected lookup for a view method bound only to lower-case names. */
  function RegisterAsWritten(c: Call, h: Handler): (r: Result<Option<Handler>, Error>)
    ensures (forall m :: m in AvailableMethods(h) ==> Lower(m) == m) ==> r == Decorate(c, h, LowerCased)
  {
    LookupsAgree(c, BuildData(c), h);
    Decorate(c, h, AsWritten)
  }
}
