/** The stateless introspection helpers of src/drf_yasg/utils.py. Reflection
    on Django REST framework objects is replaced by the facts it would read. */
module Introspection {
  import opened Wrappers
  import opened Seqs
  import opened Text
  import opened Values
  import opened OrderedDicts

  // ---------------------------------------------------------------- is_list_view

  /** What `is_list_view` reads from a view.
      `action`: `view.action`, or "" when the view has none.
      `detail`: the `detail` attribute of the view's method named `action`
        when it is `True` or `False`; `None` when absent or anything else.
      `suffix`: `view.suffix`, if any.
      `isDetailMixin`: the view is a RetrieveModelMixin, UpdateModelMixin or
        DestroyModelMixin instance. */
  datatype ViewFacts = ViewFacts(action: string, detail: Option<bool>, suffix: Option<string>, isDetailMixin: bool)

  /** First rule: the view says it serves a collection. */
  predicate MarkedAsList(v: ViewFacts) {
    v.action == "list" || v.action == "create" || v.detail == Some(false) || v.suffix == Some("List")
  }

  /** Second rule: the view says it serves a single instance. */
  predicate MarkedAsDetail(v: ViewFacts) {
    || v.action == "retrieve" || v.action == "update" || v.action == "partial_update" || v.action == "destroy"
    || v.detail == Some(true) || v.suffix == Some("Instance")
  }

  /** Fourth rule: the last `/`-separated component of the path, with outer
      slashes stripped, holds a `{` placeholder. */
  predicate ParameterizedTail(path: string) {
    '{' in LastPiece(Strip(path, '/'), '/')
  }

  /** `is_list_view(path, method, view)`: an ordered list of rules, the first
      that applies decides. The `method` argument (here `httpMethod`) is overwritten before it is
      read, so it never influences the answer. `str.split` never returns an
      empty list, so the emptiness test on the path components always passes. */
  function IsListView(path: string, httpMethod: string, view: ViewFacts): (r: bool)
    ensures MarkedAsList(view) ==> r
    ensures !MarkedAsList(view) && MarkedAsDetail(view) ==> !r
    ensures !MarkedAsList(view) && !MarkedAsDetail(view) && view.isDetailMixin ==> !r
    ensures !MarkedAsList(view) && !MarkedAsDetail(view) && !view.isDetailMixin ==>
              (r <==> !ParameterizedTail(path))
  {
    if MarkedAsList(view) then true
    else if MarkedAsDetail(view) then false
    else if view.isDetailMixin then false
    else if ParameterizedTail(path) then false
    else true
  }

  /** The HTTP method passed in never changes the answer. */
  lemma IsListViewIgnoresMethod(path: string, m1: string, m2: string, view: ViewFacts)
    ensures IsListView(path, m1, view) == IsListView(path, m2, view)
  {
  }

  /** When the view itself says nothing, the answer is decided by the path
      alone: not a list view exactly when a `{` occurs in the slash-stripped
      path with no `/` after it. */
  lemma IsListViewByPath(path: string, httpMethod: string, view: ViewFacts)
    requires !MarkedAsList(view) && !MarkedAsDetail(view) && !view.isDetailMixin
    ensures var s := Strip(path, '/');
            !IsListView(path, httpMethod, view) <==> exists i :: 0 <= i < |s| && s[i] == '{' && '/' !in s[i..]
  {
    LastPieceHas(Strip(path, '/'), '/', '{');
  }

  /** A view that says nothing about itself, on the collection path
      `/users/`, is a list view. */
  lemma CollectionPathIsList(path: string, httpMethod: string, view: ViewFacts)
    requires path == "/users/"
    requires !MarkedAsList(view) && !MarkedAsDetail(view) && !view.isDetailMixin
    ensures IsListView(path, httpMethod, view)
  {
    StripOneEach(path, '/');
    assert '{' !in path;
    LastPieceHas(Strip(path, '/'), '/', '{');
  }

  /** The same view on the instance path `/users/{id}/` is not. */
  lemma InstancePathIsDetail(path: string, httpMethod: string, view: ViewFacts)
    requires path == "/users/{id}/"
    requires !MarkedAsList(view) && !MarkedAsDetail(view) && !view.isDetailMixin
    ensures !IsListView(path, httpMethod, view)
  {
    StripOneEach(path, '/');
    var s := Strip(path, '/');
    assert s[6] == '{' && '/' !in s[6..] by {
      assert s[6..] == path[7..11];
    }
    LastPieceHas(s, '/', '{');
  }

  // ------------------------------------------------------- guess_response_status

  const HTTP_200_OK: int := 200
  const HTTP_201_CREATED: int := 201
  const HTTP_204_NO_CONTENT: int := 204

  /** `guess_response_status(method)`: the success status a method most likely answers with. */
  function GuessResponseStatus(httpMethod: string): (r: int)
    ensures 200 <= r < 300
    ensures r == HTTP_201_CREATED <==> httpMethod == "post"
    ensures r == HTTP_204_NO_CONTENT <==> httpMethod == "delete"
    ensures r == HTTP_200_OK <==> httpMethod != "post" && httpMethod != "delete"
  {
    if httpMethod == "post" then HTTP_201_CREATED
    else if httpMethod == "delete" then HTTP_204_NO_CONTENT
    else HTTP_200_OK
  }

  // --------------------------------------------------------- param_list_to_odict

  /** An OpenAPI Parameter object: `info` stands for all of its other attributes. */
  datatype Parameter = Parameter(name: string, location: string, info: Py)

  /** A parameter's identity, the `(name, in_)` tuple. */
  function ParamKey(p: Parameter): (string, string) {
    (p.name, p.location)
  }

  datatype ParamError = DuplicateParameters

  /** No two parameters share a `(name, in_)` key. */
  predicate DistinctParameters(parameters: seq<Parameter>) {
    forall i, j :: 0 <= i < j < |parameters| ==> ParamKey(parameters[i]) != ParamKey(parameters[j])
  }

  /** The `(key, parameter)` pairs the OrderedDict is built from. */
  function ParamPairs(parameters: seq<Parameter>): (r: seq<((string, string), Parameter)>)
    ensures |r| == |parameters|
    ensures forall i :: 0 <= i < |parameters| ==> r[i] == (ParamKey(parameters[i]), parameters[i])
    ensures DistinctKeys(r) <==> DistinctParameters(parameters)
  {
    var r := seq(|parameters|, i requires 0 <= i < |parameters| => (ParamKey(parameters[i]), parameters[i]));
    assert forall i :: 0 <= i < |r| ==> r[i].0 == ParamKey(parameters[i]);
    r
  }

  /** `param_list_to_odict(parameters)`: an OrderedDict keyed by `(name, in_)`;
      an AssertionError when two parameters share a key. */
  function ParamListToOdict(parameters: seq<Parameter>): (r: Result<seq<((string, string), Parameter)>, ParamError>)
    ensures r.Success? <==> DistinctParameters(parameters)
    ensures r.Success? ==> |r.value| == |parameters|
    ensures r.Success? ==> forall i :: 0 <= i < |parameters| ==> r.value[i] == (ParamKey(parameters[i]), parameters[i])
  {
    var pairs := ParamPairs(parameters);
    var result := FromPairs(pairs);
    FromPairsDistinct(pairs);
    if |result| == |parameters| then Success(result) else Failure(DuplicateParameters)
  }

  /** The two cases spelled out: `id` in the query and `id` in the path may
      coexist; `id` twice in the query may not. */
  lemma ParamListToOdictExamples()
    ensures ParamListToOdict([Parameter("id", "query", PyNone), Parameter("id", "path", PyNone)]).Success?
    ensures ParamListToOdict([Parameter("id", "query", PyNone), Parameter("id", "query", Obj("other"))]).Failure?
  {
    var ps := [Parameter("id", "query", PyNone), Parameter("id", "query", Obj("other"))];
    assert ParamKey(ps[0]) == ParamKey(ps[1]);
  }

  // --------------------------------------------------- get_consumes, get_produces

  /** `get_consumes(parser_classes)` over the parsers' media types (`None`
      for a missing parser list). `isForm` is Django REST framework's
      `is_form_media_type`: if every type is a form type, the list is returned
      as it is; otherwise only the non-form types remain, in order. */
  function GetConsumes(parserMediaTypes: Option<seq<string>>, isForm: string -> bool): (r: seq<string>)
    ensures var ts := parserMediaTypes.GetOr([]);
            (forall i :: 0 <= i < |ts| ==> isForm(ts[i])) ==> r == ts
    ensures var ts := parserMediaTypes.GetOr([]);
            (exists i :: 0 <= i < |ts| && !isForm(ts[i])) ==>
              r == Keep(ts, t => !isForm(t)) && forall t :: t in r <==> t in ts && !isForm(t)
  {
    var mediaTypes := parserMediaTypes.GetOr([]);
    if forall i :: 0 <= i < |mediaTypes| ==> isForm(mediaTypes[i]) then mediaTypes
    else KeepMembers(mediaTypes, t => !isForm(t)); Keep(mediaTypes, t => !isForm(t))
  }

  /** Form and body media types are never mixed in the answer, and a
      non-empty parser list never yields an empty one. */
  lemma ConsumesNeverMixes(parserMediaTypes: Option<seq<string>>, isForm: string -> bool)
    ensures var r := GetConsumes(parserMediaTypes, isForm);
            (forall i :: 0 <= i < |r| ==> isForm(r[i])) || (forall i :: 0 <= i < |r| ==> !isForm(r[i]))
    ensures |parserMediaTypes.GetOr([])| > 0 ==> |GetConsumes(parserMediaTypes, isForm)| > 0
  {
    var ts := parserMediaTypes.GetOr([]);
    if exists i :: 0 <= i < |ts| && !isForm(ts[i]) {
      var i :| 0 <= i < |ts| && !isForm(ts[i]);
      KeepMembers(ts, t => !isForm(t));
      assert ts[i] in Keep(ts, t => !isForm(t));
    }
  }

  /** Feeding the answer back in changes nothing. */
  lemma ConsumesIdempotent(parserMediaTypes: Option<seq<string>>, isForm: string -> bool)
    ensures var r := GetConsumes(parserMediaTypes, isForm);
            GetConsumes(Some(r), isForm) == r
  {
    var r := GetConsumes(parserMediaTypes, isForm);
    ConsumesNeverMixes(parserMediaTypes, isForm);
    if !(forall i :: 0 <= i < |r| ==> isForm(r[i])) {
      KeepNothingRemoved(r, t => !isForm(t));
    }
  }

  /** The two cases spelled out, for any form predicate that recognises the
      two form types and not JSON. */
  lemma ConsumesExamples(isForm: string -> bool)
    requires isForm("application/x-www-form-urlencoded") && isForm("multipart/form-data")
    requires !isForm("application/json")
    ensures GetConsumes(Some(["application/x-www-form-urlencoded", "multipart/form-data"]), isForm)
            == ["application/x-www-form-urlencoded", "multipart/form-data"]
    ensures GetConsumes(Some(["application/json", "multipart/form-data"]), isForm) == ["application/json"]
  {
    var ts := ["application/json", "multipart/form-data"];
    assert !isForm(ts[0]);
    assert Keep(ts, t => !isForm(t)) == [ts[0]] + Keep(ts[1..], t => !isForm(t));
    assert Keep(ts[1..], t => !isForm(t)) == [] + Keep(ts[2..], t => !isForm(t));
  }

  /** A renderer media type is kept unless it mentions `html`. */
  predicate NotHtml(mediaType: string) {
    !Contains(mediaType, "html")
  }

  /** `get_produces(renderer_classes)` over the renderers' media types (`None`
      for a missing renderer list): exactly the types not containing `html`,
      in their original order. */
  function GetProduces(rendererMediaTypes: Option<seq<string>>): (r: seq<string>)
    ensures forall t :: t in r <==> t in rendererMediaTypes.GetOr([]) && NotHtml(t)
    ensures forall i :: 0 <= i < |r| ==> !Contains(r[i], "html")
    ensures (forall i :: 0 <= i < |rendererMediaTypes.GetOr([])| ==> NotHtml(rendererMediaTypes.GetOr([])[i]))
            ==> r == rendererMediaTypes.GetOr([])
  {
    var mediaTypes := rendererMediaTypes.GetOr([]);
    KeepMembers(mediaTypes, NotHtml);
    KeepNothingRemoved(mediaTypes, NotHtml);
    Keep(mediaTypes, NotHtml)
  }

  /** Renderers listed one after the other contribute in that order. */
  lemma ProducesConcatenates(a: seq<string>, b: seq<string>)
    ensures GetProduces(Some(a + b)) == GetProduces(Some(a)) + GetProduces(Some(b))
  {
    KeepAppend(a, b, NotHtml);
  }

  // ------------------------------------------------------------ decimal_as_float

  /** What `decimal_as_float` reads from a field: whether it is a serializer or
      model `DecimalField`, and the truth value of its own `coerce_to_string`
      attribute when it has one. */
  datatype DecimalFacts = DecimalFacts(isDecimalField: bool, coerceToString: Option<bool>)

  /** `decimal_as_float(field)`, with `coerceSetting` the
      COERCE_DECIMAL_TO_STRING setting: a decimal field is rendered as a float
      when string coercion is off, the field's own attribute taking precedence
      over the setting. */
  function DecimalAsFloat(field: DecimalFacts, coerceSetting: bool): (r: bool)
    ensures r ==> field.isDecimalField
    ensures field.isDecimalField && field.coerceToString.Some? ==> (r <==> !field.coerceToString.value)
    ensures field.isDecimalField && field.coerceToString.None? ==> (r <==> !coerceSetting)
  {
    if field.isDecimalField then !field.coerceToString.GetOr(coerceSetting) else false
  }

  // ----------------------------------------------------- get_serializer_ref_name

  /** The `ref_name` attribute of a serializer's `Meta`: absent (also when
      there is no `Meta`), or present with a name or None. */
  datatype RefNameAttr = NoRefName | RefName(value: Option<string>)

  /** What `get_serializer_ref_name` reads from a serializer. */
  datatype SerializerFacts = SerializerFacts(className: string, metaRefName: RefNameAttr, isModelSerializer: bool)

  const SerializerSuffix: string := "Serializer"

  /** `get_serializer_ref_name(serializer)`: the name under which the
      serializer's schema is shared, `None` meaning "always inline".
      `Meta.ref_name` wins even when it is None; otherwise a ModelSerializer
      class named `NestedSerializer` is inlined; otherwise it is the class name
      less one trailing `Serializer`. */
  function GetSerializerRefName(s: SerializerFacts): (r: Option<string>)
    ensures s.metaRefName.RefName? ==> r == s.metaRefName.value
    ensures s.metaRefName.NoRefName? && s.className == "NestedSerializer" && s.isModelSerializer ==> r == None
    ensures s.metaRefName.NoRefName? && !(s.className == "NestedSerializer" && s.isModelSerializer) ==>
              r.Some? && (if EndsWith(s.className, SerializerSuffix) then r.value + SerializerSuffix == s.className
                          else r.value == s.className)
  {
    match s.metaRefName
    case RefName(v) => v
    case NoRefName =>
      if s.className == "NestedSerializer" && s.isModelSerializer then None
      else if EndsWith(s.className, SerializerSuffix) then
        var stem := s.className[..|s.className| - |SerializerSuffix|];
        assert s.className == stem + SerializerSuffix;
        Some(stem)
      else Some(s.className)
  }

  /** The cases spelled out: `UserSerializer` is shared as `User`, a model
      `NestedSerializer` is inlined, a plain `NestedSerializer` is `Nested`. */
  lemma RefNameExamples()
    ensures GetSerializerRefName(SerializerFacts("UserSerializer", NoRefName, false)) == Some("User")
    ensures GetSerializerRefName(SerializerFacts("NestedSerializer", NoRefName, true)) == None
    ensures GetSerializerRefName(SerializerFacts("NestedSerializer", NoRefName, false)) == Some("Nested")
    ensures GetSerializerRefName(SerializerFacts("UserSerializer", RefName(None), false)) == None
  {
    assert EndsWith("UserSerializer", SerializerSuffix);
    assert "UserSerializer"[..4] == "User";
    assert EndsWith("NestedSerializer", SerializerSuffix);
    assert "NestedSerializer"[..6] == "Nested";
  }
}
