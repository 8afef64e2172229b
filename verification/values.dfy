/** Python values as far as the core looks into them, and `filter_none`
    (src/drf_yasg/utils.py, lines 253-268). */
module Values {
  import opened Seqs

  /** A Python object. Everything the core never inspects (numbers, classes,
      schema objects, serializers, ...) is an `Obj`, named by what it stands for. */
  datatype Py =
    | PyNone                          // None
    | NoBody                          // the `no_body` sentinel class
    | Str(s: string)                  // a str
    | Obj(name: string)               // any other object
    | PyList(items: seq<Py>)          // a list
    | PyTuple(items: seq<Py>)         // a tuple
    | PyDict(entries: seq<(Py, Py)>)  // a dict, as its items in insertion order

  /** A list or tuple element survives `filter_none` when it is not None. */
  predicate KeptItem(v: Py) {
    !v.PyNone?
  }

  /** A dict item survives `filter_none` when neither its key nor its value is None. */
  predicate KeptEntry(e: (Py, Py)) {
    !e.0.PyNone? && !e.1.PyNone?
  }

  /** True when `filter_none` has something to remove from `obj`. */
  predicate HoldsNone(obj: Py) {
    match obj
    case PyDict(es) => exists i :: 0 <= i < |es| && !KeptEntry(es[i])
    case PyList(xs) => exists i :: 0 <= i < |xs| && !KeptItem(xs[i])
    case PyTuple(xs) => exists i :: 0 <= i < |xs| && !KeptItem(xs[i])
    case _ => false
  }

  /** `filter_none(obj)`: a dict, list or tuple loses its None entries (for a
      dict, an item whose key or value is None) and keeps its kind and order;
      the original object is returned when nothing was removed, and anything
      else, None included, passes through. */
  function FilterNone(obj: Py): (r: Py)
    ensures obj.PyNone? ==> r.PyNone?
    ensures obj.PyDict? ==> r == PyDict(Keep(obj.entries, KeptEntry))
    ensures obj.PyList? ==> r == PyList(Keep(obj.items, KeptItem))
    ensures obj.PyTuple? ==> r == PyTuple(Keep(obj.items, KeptItem))
    ensures !obj.PyDict? && !obj.PyList? && !obj.PyTuple? ==> r == obj
  {
    match obj
    case PyNone => PyNone
    case PyDict(es) =>
      var kept := Keep(es, KeptEntry);
      if |kept| != |es| then PyDict(kept)
      else KeepNothingRemoved(es, KeptEntry); obj
    case PyList(xs) =>
      var kept := Keep(xs, KeptItem);
      if |kept| != |xs| then PyList(kept)
      else KeepNothingRemoved(xs, KeptItem); obj
    case PyTuple(xs) =>
      var kept := Keep(xs, KeptItem);
      if |kept| != |xs| then PyTuple(kept)
      else KeepNothingRemoved(xs, KeptItem); obj
    case _ => obj
  }

  /** The object comes back unchanged exactly when it held no None entry. */
  lemma FilterNoneUnchanged(obj: Py)
    ensures FilterNone(obj) == obj <==> !HoldsNone(obj)
  {
    match obj
    case PyDict(es) =>
      KeepNothingRemoved(es, KeptEntry);
    case PyList(xs) =>
      KeepNothingRemoved(xs, KeptItem);
    case PyTuple(xs) =>
      KeepNothingRemoved(xs, KeptItem);
    case _ =>
  }

  /** No None entry survives, and every entry that is not None does. */
  lemma FilterNoneMembers(obj: Py)
    ensures !HoldsNone(FilterNone(obj))
    ensures obj.PyDict? ==> forall e :: e in FilterNone(obj).entries <==> e in obj.entries && KeptEntry(e)
    ensures obj.PyList? || obj.PyTuple? ==>
              forall v :: v in FilterNone(obj).items <==> v in obj.items && KeptItem(v)
  {
    match obj
    case PyDict(es) =>
      KeepMembers(es, KeptEntry);
    case PyList(xs) =>
      KeepMembers(xs, KeptItem);
    case PyTuple(xs) =>
      KeepMembers(xs, KeptItem);
    case _ =>
  }

  /** Applying `filter_none` twice is the same as applying it once. */
  lemma FilterNoneIdempotent(obj: Py)
    ensures FilterNone(FilterNone(obj)) == FilterNone(obj)
  {
    FilterNoneMembers(obj);
    FilterNoneUnchanged(FilterNone(obj));
  }
}
