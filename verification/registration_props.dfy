/** Properties of the `swagger_auto_schema` decorator (src/drf_yasg/utils.py,
    lines 101-174) as modelled in `Registration`. */
module RegistrationProperties {
  import opened Wrappers
  import opened Text
  import opened Values
  import opened Registration

  /** The HTTP methods a call attaches its record to: the lower-cased
      selection, or every available method when there is no selector. */
  function Targets(c: Call, h: Handler): seq<string> {
    if !SelectorGiven(c) then AvailableMethods(h)
    else if MethodGiven(c) then [Lower(c.singleMethod.value)]
    else if c.methods.MethodsList? then LowerAll(c.methods.items)
    else []
  }

  /** The selector checks of lines 137-147 hold for every call that is
      validated against them. */
  predicate SelectorValid(c: Call, h: Handler) {
    SelectorGiven(c) ==>
      && |AvailableMethods(h)| > 0
      && MethodGiven(c) != MethodsGiven(c)
      && !c.methods.MethodsString?
      && (forall t :: t in Targets(c, h) ==> t in AvailableMethods(h))
      && (forall t :: t in Targets(c, h) ==> t !in h.schema)
  }

  /** The binding checks of lines 149-171. */
  predicate BindingValid(c: Call, h: Handler, check: DuplicateCheck) {
    if |AvailableMethods(h)| > 0 then
      && !(|ApiViewMethods(h)| > 0 && |ActionMethods(h)| > 0)
      && (|AvailableMethods(h)| > 1 ==> SelectorGiven(c))
      && (forall t :: t in Targets(c, h) ==> !MarkedOnClass(h, t))
      && !AlreadyRecorded(check, Targets(c, h), h.schema)
    else
      !SelectorGiven(c) && |h.schema| == 0
  }

  /** Lines 136-147 on their own: the selection is accepted exactly when the
      selector checks pass, and is then the lower-cased targets. */
  lemma SelectTargetsSpec(c: Call, h: Handler)
    ensures var sel := SelectTargets(c, AvailableMethods(h), h.schema);
            && (sel.Success? <==> SelectorValid(c, h))
            && (sel.Success? ==> sel.value == (if SelectorGiven(c) then Targets(c, h) else []))
            && (sel.Success? ==> (|sel.value| > 0 <==> SelectorGiven(c)))
  {
  }

  /** Lines 149-172 on their own, for a given selection. */
  lemma BindSpec(h: Handler, data: Overrides, selected: seq<string>, check: DuplicateCheck)
    ensures var targets := if |selected| > 0 then selected else AvailableMethods(h);
            var r := Bind(h, data, selected, check);
            && (r.Success? <==>
                  if |AvailableMethods(h)| > 0 then
                    && !(|ApiViewMethods(h)| > 0 && |ActionMethods(h)| > 0)
                    && (|AvailableMethods(h)| > 1 ==> |selected| > 0)
                    && (forall t :: t in targets ==> !MarkedOnClass(h, t))
                    && !AlreadyRecorded(check, targets, h.schema)
                  else |selected| == 0 && |h.schema| == 0)
            && (r.Success? ==> r.value == Some(h.(schema := if |AvailableMethods(h)| > 0
                                                            then PerMethod(h.schema, targets, data)
                                                            else WholeHandler(data))))
  {
  }

  /** Lines 124-172 for a given record: accepted exactly when every selector
      check and every binding check passes, and then one record per target
      is added, or the record itself is stored. */
  lemma {:induction false} AttachSucceedsIff(c: Call, data: Overrides, h: Handler, check: DuplicateCheck)
    ensures Attach(c, data, h, check).Success? <==> SelectorValid(c, h) && BindingValid(c, h, check)
    ensures Attach(c, data, h, check).Success? ==>
              Attach(c, data, h, check).value == Some(h.(schema := if |AvailableMethods(h)| > 0
                                                                   then PerMethod(h.schema, Targets(c, h), data)
                                                                   else WholeHandler(data)))
  {
    var sel := SelectTargets(c, AvailableMethods(h), h.schema);
    SelectTargetsSpec(c, h);
    if sel.Success? {
      BindSpec(h, data, sel.value, check);
      assert (if |sel.value| > 0 then sel.value else AvailableMethods(h)) == Targets(c, h);
    }
  }

  /** Lines 102-121: a call without a reserved key that sets something goes
      on to the selector and binding checks with the record it builds. */
  lemma DecorateAttaches(c: Call, h: Handler, check: DuplicateCheck)
    requires !ReservedKeyUsed(c) && SetsSomething(c)
    ensures Decorate(c, h, check) == Attach(c, BuildData(c), h, check)
  {
    RecordNonEmpty(c);
  }

  /** The whole decorator: a call without a reserved key that sets something
      registers exactly when every selector check and every binding check
      passes, and then writes one record per target, or the whole-handler
      record. */
  lemma DecorateSucceedsIff(c: Call, h: Handler, check: DuplicateCheck)
    requires !ReservedKeyUsed(c) && SetsSomething(c)
    ensures Decorate(c, h, check).Success? <==> SelectorValid(c, h) && BindingValid(c, h, check)
    ensures Decorate(c, h, check).Success? ==>
              Decorate(c, h, check).value == Some(h.(schema := if |AvailableMethods(h)| > 0
                                                               then PerMethod(h.schema, Targets(c, h), BuildData(c))
                                                               else WholeHandler(BuildData(c))))
  {
    DecorateAttaches(c, h, check);
    AttachSucceedsIff(c, BuildData(c), h, check);
  }

  /** The two conditions named for a view method bound to several HTTP methods:
      without a selector, or bound both as `@api_view` and as `@action`, the
      call is refused. */
  lemma {:induction false} AmbiguousBindingFails(c: Call, data: Overrides, h: Handler, check: DuplicateCheck)
    ensures |AvailableMethods(h)| > 1 && !SelectorGiven(c) ==> Attach(c, data, h, check).Failure?
    ensures |ApiViewMethods(h)| > 0 && |ActionMethods(h)| > 0 ==> Attach(c, data, h, check).Failure?
  {
    AttachSucceedsIff(c, data, h, check);
  }

  /** A view method that is both: its `cls` has an attribute for one of its
      HTTP method names, and it has a non-empty `bind_to_methods`. */
  const BothBindings: Handler := Handler("f", ["get"], [], Some(ViewClass(["get"], {"get"}, {})), map[])

  /** The assertion of line 151 can fire: without a selector, the view
      method above is refused for its two kinds of binding. */
  lemma ConflictingBindingsReachable(c: Call, data: Overrides, check: DuplicateCheck)
    requires !SelectorGiven(c)
    ensures Attach(c, data, BothBindings, check) == Failure(ConflictingBindings)
  {
    assert "get" in ApiViewMethods(BothBindings);
  }

  /** The assertion of line 167 never fires: a selector on a view method
      bound to no HTTP method is already refused at line 138. */
  lemma {:induction false} PlainSelectorCaughtEarlier(c: Call, data: Overrides, h: Handler, check: DuplicateCheck)
    ensures Attach(c, data, h, check) != Failure(SelectorOnPlainHandler)
  {
    var sel := SelectTargets(c, AvailableMethods(h), h.schema);
    if sel.Success? {
      BindKeepsSelectorCheck(h, data, sel.value, check);
    }
  }

  /** A selection accepted only when the view method has bindings never reaches
      the plain-handler branch with a selector. */
  lemma BindKeepsSelectorCheck(h: Handler, data: Overrides, selected: seq<string>, check: DuplicateCheck)
    requires |selected| > 0 ==> |AvailableMethods(h)| > 0
    ensures Bind(h, data, selected, check) != Failure(SelectorOnPlainHandler)
  {
  }

  /** A key made from a target that already had a record would have been refused. */
  lemma LoweredTargetsAreNew(existing: map<string, Slot>, targets: seq<string>)
    requires !AlreadyRecorded(LowerCased, targets, existing)
    ensures forall k :: k in existing ==> k !in LowerAll(targets)
  {
  }

  /** With a single target the per-method update is one map update. */
  lemma PerMethodSingle(existing: map<string, Slot>, available: seq<string>, data: Overrides)
    requires |available| == 1
    ensures PerMethod(existing, available, data) == existing[Lower(available[0]) := ForMethod(data)]
  {
    var m := Lower(available[0]);
    assert LowerAll(available) == [m];
    var added := map t | t in LowerAll(available) :: ForMethod(data);
    assert added == map[m := ForMethod(data)];
  }

  /** A view method bound to one HTTP method and decorated without a selector
      gets its record under that method, lower-cased. */
  lemma {:induction false} ImplicitSingleTarget(c: Call, data: Overrides, h: Handler, check: DuplicateCheck, h': Handler)
    requires |AvailableMethods(h)| == 1 && !SelectorGiven(c)
    ensures Attach(c, data, h, check) == Success(Some(h')) ==>
              h'.schema == h.schema[Lower(AvailableMethods(h)[0]) := ForMethod(data)]
  {
    if Attach(c, data, h, check) == Success(Some(h')) {
      AttachSucceedsIff(c, data, h, check);
      PerMethodSingle(h.schema, AvailableMethods(h), data);
    }
  }

  /** A view method bound to no HTTP method stores the record itself, and
      only when it had none and no selector was given. */
  lemma {:induction false} PlainHandlerRecord(c: Call, data: Overrides, h: Handler, check: DuplicateCheck)
    requires |AvailableMethods(h)| == 0
    ensures |h.schema| > 0 || SelectorGiven(c) ==> Attach(c, data, h, check).Failure?
    ensures Attach(c, data, h, check).Success? ==>
              var s := Attach(c, data, h, check).value.value.schema;
              && s.Keys == data.Keys
              && forall k :: k in s ==> s[k] == Value(data[k])
  {
    AttachSucceedsIff(c, data, h, check);
  }

  /** On a bound view method, a registration adds one record per target
      under its lower-cased name, each holding the call's data, and leaves
      every other record as it was. No target had a record on the class. */
  lemma {:induction false} RecordsAccumulate(c: Call, data: Overrides, h: Handler, check: DuplicateCheck, h': Handler)
    requires |AvailableMethods(h)| > 0
    ensures Attach(c, data, h, check) == Success(Some(h')) ==>
              && |Targets(c, h)| > 0
              && (forall t :: t in Targets(c, h) ==> !MarkedOnClass(h, t))
              && h'.schema.Keys == h.schema.Keys + (set t | t in Targets(c, h) :: Lower(t))
              && (forall t :: t in Targets(c, h) ==> h'.schema[Lower(t)] == ForMethod(data))
              && (forall k :: k in h.schema && k !in LowerAll(Targets(c, h)) ==> h'.schema[k] == h.schema[k])
  {
    if Attach(c, data, h, check) == Success(Some(h')) {
      AttachSucceedsIff(c, data, h, check);
    }
  }

  /** With the lower-cased lookup, binding a non-empty record never replaces
      a record that was already there, and always adds one. */
  lemma {:induction false} AttachNeverOverwrites(c: Call, data: Overrides, h: Handler, h': Handler)
    requires |data| > 0
    ensures Attach(c, data, h, LowerCased) == Success(Some(h')) ==>
              && (forall k :: k in h.schema ==> k in h'.schema && h'.schema[k] == h.schema[k])
              && h.schema.Keys < h'.schema.Keys
  {
    if Attach(c, data, h, LowerCased) == Success(Some(h')) {
      AttachSucceedsIff(c, data, h, LowerCased);
      if |AvailableMethods(h)| > 0 {
        PerMethodGrows(h.schema, Targets(c, h), data);
      } else {
        WholeHandlerNonEmpty(data);
      }
    }
  }

  /** Line 164 with targets that have no record yet: every earlier record is
      kept and at least one is added. */
  lemma PerMethodGrows(existing: map<string, Slot>, targets: seq<string>, data: Overrides)
    requires |targets| > 0 && !AlreadyRecorded(LowerCased, targets, existing)
    ensures forall k :: k in existing ==> k in PerMethod(existing, targets, data) && PerMethod(existing, targets, data)[k] == existing[k]
    ensures existing.Keys < PerMethod(existing, targets, data).Keys
  {
    LoweredTargetsAreNew(existing, targets);
    assert Lower(targets[0]) in PerMethod(existing, targets, data) && Lower(targets[0]) !in existing;
  }

  /** Line 172 stores a non-empty record. */
  lemma WholeHandlerNonEmpty(data: Overrides)
    requires |data| > 0
    ensures |WholeHandler(data)| > 0
  {
    var k :| k in data;
    assert k in WholeHandler(data);
  }

  /** The same for the whole decorator: a registration never replaces a
      record that was already there, and always adds one. */
  lemma RegisterNeverOverwrites(c: Call, h: Handler, h': Handler)
    ensures Register(c, h) == Success(Some(h')) ==>
              && (forall k :: k in h.schema ==> k in h'.schema && h'.schema[k] == h.schema[k])
              && h.schema.Keys < h'.schema.Keys
  {
    if Register(c, h) == Success(Some(h')) {
      RecordNonEmpty(c);
      DecorateAttaches(c, h, LowerCased);
      AttachNeverOverwrites(c, BuildData(c), h, h');
    }
  }

  /** Binding a second record for the same (view method, HTTP method), with
      any mix of `method`, `methods` or the implicit target, is refused; so
      is binding a second record to a plain view method. */
  lemma {:induction false} SecondAttachFails(first: Call, firstData: Overrides, second: Call, secondData: Overrides, h: Handler, after: Handler, key: string)
    requires |firstData| > 0
    ensures Attach(first, firstData, h, LowerCased) == Success(Some(after)) &&
            ((key in LowerAll(Targets(first, h)) && key in LowerAll(Targets(second, after))) || |AvailableMethods(h)| == 0)
            ==> Attach(second, secondData, after, LowerCased).Failure?
  {
    if Attach(first, firstData, h, LowerCased) == Success(Some(after)) {
      assert AvailableMethods(after) == AvailableMethods(h);
      if |AvailableMethods(h)| > 0 && key in LowerAll(Targets(first, h)) && key in LowerAll(Targets(second, after)) {
        assert key in after.schema by {
          RecordsAccumulate(first, firstData, h, LowerCased, after);
          var ts := Targets(first, h);
          var i :| 0 <= i < |ts| && LowerAll(ts)[i] == key;
          assert ts[i] in ts;
        }
        TargetTaken(second, after, key);
      } else if |AvailableMethods(h)| == 0 {
        AttachNeverOverwrites(first, firstData, h, after);
      }
      AttachSucceedsIff(second, secondData, after, LowerCased);
    }
  }

  /** A target whose lower-cased name already has a record is found by the
      lower-cased lookup. */
  lemma TargetTaken(c: Call, h: Handler, k: string)
    requires k in h.schema && k in LowerAll(Targets(c, h))
    ensures AlreadyRecorded(LowerCased, Targets(c, h), h.schema)
  {
    var ts := Targets(c, h);
    var i :| 0 <= i < |ts| && LowerAll(ts)[i] == k;
    assert ts[i] in ts && Lower(ts[i]) in h.schema;
  }

  /** The same for the whole decorator: registering the same (view method,
      HTTP method) twice never registers the second time; neither does
      decorating a plain view method twice. */
  lemma SecondRegistrationFails(c1: Call, c2: Call, h: Handler, h1: Handler, m: string)
    ensures Register(c1, h) == Success(Some(h1)) &&
            ((m in LowerAll(Targets(c1, h)) && m in LowerAll(Targets(c2, h1))) || |AvailableMethods(h)| == 0)
            ==> !(Register(c2, h1).Success? && Register(c2, h1).value.Some?)
  {
    if Register(c1, h) == Success(Some(h1)) && Register(c2, h1).Success? && Register(c2, h1).value.Some? {
      RecordNonEmpty(c1);
      RecordNonEmpty(c2);
      DecorateAttaches(c1, h, LowerCased);
      DecorateAttaches(c2, h1, LowerCased);
      SecondAttachFails(c1, BuildData(c1), c2, BuildData(c2), h, h1, m);
    }
  }

  // ----------------------------------------------- the line 163 discrepancy

  /** An `@action` declared with `methods=['POST']` (Django REST framework
      before 3.8 keeps `bind_to_methods` as written) and decorated twice. */
  const UpperCaseAction: Handler := Handler("create", ["POST"], [], None, map[])

  /** A call that only sets `request_body`. */
  function BodyOnly(body: Py): Call {
    Call(None, NoMethods, Unset, body, PyNone, PyNone, PyNone, PyNone, PyNone, PyNone, PyNone, PyNone,
         [], [], [], map[])
  }

  /** `UpperCaseAction` is bound to `POST` only, as written, through `bind_to_methods`. */
  lemma UpperCaseActionAvailable()
    ensures AvailableMethods(UpperCaseAction) == ["POST"]
    ensures ApiViewMethods(UpperCaseAction) == []
  {
    assert MappedMethods(UpperCaseAction.mapping, UpperCaseAction.name) == [];
  }

  /** Two calls that only override the request body, with different bodies,
      name no HTTP method, select none and store different records: they
      are inputs for `AsWrittenOverwrites` and `LowerCasedRefusesSecond`. */
  lemma BodyOnlyCalls(a: Py, b: Py)
    requires !a.PyNone? && !b.PyNone? && a != b
    ensures !ReservedKeyUsed(BodyOnly(a)) && !SelectorGiven(BodyOnly(a)) && SetsSomething(BodyOnly(a))
    ensures !ReservedKeyUsed(BodyOnly(b)) && !SelectorGiven(BodyOnly(b)) && SetsSomething(BodyOnly(b))
    ensures BuildData(BodyOnly(a)) != BuildData(BodyOnly(b))
  {
    BodyOnlyData(BodyOnly(a), a);
    BodyOnlyData(BodyOnly(b), b);
  }

  /** A body-only call stores its body under `request_body`. */
  lemma BodyOnlyData(c: Call, body: Py)
    requires c == BodyOnly(body) && !body.PyNone?
    ensures !ReservedKeyUsed(c) && !SelectorGiven(c)
    ensures "request_body" in BuildData(c) && BuildData(c)["request_body"] == body
  {
    assert "request_body" in StandardKeys && "request_body" !in c.extra;
  }

  /** A selector-free call on a handler shaped like `UpperCaseAction`, under
      either lookup, when no record blocks it: the record goes under `post`. */
  lemma AttachUpperCase(c: Call, data: Overrides, h: Handler, check: DuplicateCheck)
    requires !SelectorGiven(c)
    requires h == UpperCaseAction.(schema := h.schema)
    requires !AlreadyRecorded(check, ["POST"], h.schema)
    ensures Attach(c, data, h, check) == Success(Some(h.(schema := h.schema["post" := ForMethod(data)])))
  {
    UpperCaseActionAvailable();
    assert AvailableMethods(h) == ["POST"];
    AttachSucceedsIff(c, data, h, check);
    assert BindingValid(c, h, check);
    var r := Attach(c, data, h, check);
    ImplicitSingleTarget(c, data, h, check, r.value.value);
    LowerPost();
  }

  /** The key line 164 stores for `POST`. */
  lemma LowerPost()
    ensures Lower("POST") == "post"
  {
  }

  /** The same kind of call again under the lower-cased lookup: `post` is taken. */
  lemma AttachUpperCaseAgain(c: Call, data: Overrides, h: Handler)
    requires !SelectorGiven(c)
    requires h == UpperCaseAction.(schema := h.schema)
    requires "post" in h.schema
    ensures Attach(c, data, h, LowerCased).Failure?
  {
    UpperCaseActionAvailable();
    assert AvailableMethods(h) == ["POST"];
    LowerPost();
    assert AlreadyRecorded(LowerCased, Targets(c, h), h.schema);
    AttachSucceedsIff(c, data, h, LowerCased);
  }

  /** The first record bound to `UpperCaseAction`, under either lookup. */
  lemma FirstAttach(h: Handler, c: Call, data: Overrides, check: DuplicateCheck)
    requires h == UpperCaseAction && !SelectorGiven(c)
    ensures Attach(c, data, h, check) == Success(Some(h.(schema := map["post" := ForMethod(data)])))
  {
    AttachUpperCase(c, data, h, check);
    assert h.schema["post" := ForMethod(data)] == map["post" := ForMethod(data)];
  }

  /** The second record as written: the record under `post` does not block
      it, because line 163 looks for `POST`. */
  lemma SecondAttachAsWritten(h: Handler, c: Call, data: Overrides, earlier: Slot)
    requires h == UpperCaseAction.(schema := map["post" := earlier]) && !SelectorGiven(c)
    ensures Attach(c, data, h, AsWritten) == Success(Some(h.(schema := map["post" := ForMethod(data)])))
  {
    UpperCaseKeyAbsent(earlier);
    AttachUpperCase(c, data, h, AsWritten);
    assert h.schema["post" := ForMethod(data)] == map["post" := ForMethod(data)];
  }

  /** Line 163 as written: a record under `post` does not count for `POST`. */
  lemma UpperCaseKeyAbsent(earlier: Slot)
    ensures !AlreadyRecorded(AsWritten, ["POST"], map["post" := earlier])
  {
    assert "POST"[0] != "post"[0];
  }

  /** As written, a second selector-free decoration of `UpperCaseAction`
      (`BodyOnlyCalls` gives two such calls) is accepted and silently replaces
      the first record for `post` by its own. */
  lemma AsWrittenOverwrites(h: Handler, c1: Call, c2: Call)
    requires h == UpperCaseAction
    requires !ReservedKeyUsed(c1) && !SelectorGiven(c1) && SetsSomething(c1)
    requires !ReservedKeyUsed(c2) && !SelectorGiven(c2) && SetsSomething(c2)
    ensures var first := RegisterAsWritten(c1, h);
            && first == Success(Some(h.(schema := map["post" := ForMethod(BuildData(c1))])))
            && RegisterAsWritten(c2, first.value.value)
               == Success(Some(h.(schema := map["post" := ForMethod(BuildData(c2))])))
  {
    DecorateAttaches(c1, h, AsWritten);
    FirstAttach(h, c1, BuildData(c1), AsWritten);
    var h1 := h.(schema := map["post" := ForMethod(BuildData(c1))]);
    DecorateAttaches(c2, h1, AsWritten);
    SecondAttachAsWritten(h1, c2, BuildData(c2), ForMethod(BuildData(c1)));
  }

  /** With the lower-cased lookup the same second decoration is refused. */
  lemma LowerCasedRefusesSecond(h: Handler, c1: Call, c2: Call)
    requires h == UpperCaseAction
    requires !ReservedKeyUsed(c1) && !SelectorGiven(c1) && SetsSomething(c1)
    requires !ReservedKeyUsed(c2) && !SelectorGiven(c2) && SetsSomething(c2)
    ensures var first := Register(c1, h);
            && first.Success? && first.value.Some?
            && Register(c2, first.value.value).Failure?
  {
    DecorateAttaches(c1, h, LowerCased);
    FirstAttach(h, c1, BuildData(c1), LowerCased);
    var h1 := h.(schema := map["post" := ForMethod(BuildData(c1))]);
    DecorateAttaches(c2, h1, LowerCased);
    AttachUpperCaseAgain(c2, BuildData(c2), h1);
  }
}
