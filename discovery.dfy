/**
  Field discovery in makeConfigClass (wrap.py, lines 69-89): the loop over `dir(ctrl)` that
  picks out every `_type_k` attribute whose companions `k` and `_doc_k` also exist, calls the
  two accessors and classifies the type spelling, filling the `fields` dict.
 */
module Discovery {
  import opened Text
  import opened TypeNames

  const TYPE_PREFIX := "_type_"
  const DOC_PREFIX := "_doc_"

  /** What Python sees of one attribute of a wrapped control class. */
  datatype Attr =
    | Accessor(literal: string)       // a static member function returning a constant string
    | DataMember                      // a data member of the C++ struct
    | OtherMember                     // any other attribute: methods such as validate, Python's own
    | ConfigClassLink(config: string) // the `ConfigClass` attribute makeConfigClass sets

  /** A control class as Python's reflection sees it: its name, docstring and attributes. */
  datatype ControlClass = ControlClass(name: string, doc: Option<string>, attrs: map<string, Attr>)

  /** The field makeConfigClass builds: `FieldCls(doc=doc, dtype=dtype, optional=True)`. */
  datatype FieldSpec = FieldSpec(doc: string, kind: FieldKind, optional: bool)

  /** `order` lists exactly the attribute names `dir(ctrl)` returns (its sort order is left open). */
  predicate Enumerates(ctrl: ControlClass, order: seq<string>) {
    (forall a :: a in order ==> a in ctrl.attrs) && (forall a :: a in ctrl.attrs ==> a in order)
  }

  /** `getattr(ctrl, attr)()`: a static accessor yields its string; calling anything else raises. */
  function Call(ctrl: ControlClass, attr: string): Result<string, Error>
    requires attr in ctrl.attrs
  {
    match ctrl.attrs[attr]
    case Accessor(s) => Ok(s)
    case _ => Err(NotCallable(attr))
  }

  /** The test on line 75, for the name `k` that `_type_k` yields. */
  predicate IsCandidate(ctrl: ControlClass, k: string) {
    TYPE_PREFIX + k in ctrl.attrs && k in ctrl.attrs && DOC_PREFIX + k in ctrl.attrs
  }

  /** The names that become fields when nothing raises. */
  function Candidates(ctrl: ControlClass): set<string> {
    set k | k in ctrl.attrs && IsCandidate(ctrl, k)
  }

  /** The field built for candidate `k`, or the `TypeError` raised while building it (lines 76-89). */
  function FieldFor(ctrl: ControlClass, k: string): (r: Result<FieldSpec, Error>)
    requires IsCandidate(ctrl, k)
    ensures r.Ok? <==>
      && ctrl.attrs[DOC_PREFIX + k].Accessor? && ctrl.attrs[TYPE_PREFIX + k].Accessor?
      && Classify(ctrl.attrs[TYPE_PREFIX + k].literal).Ok?
    ensures r.Ok? ==>
      r.value == FieldSpec(ctrl.attrs[DOC_PREFIX + k].literal, Classify(ctrl.attrs[TYPE_PREFIX + k].literal).value, true)
  {
    match Call(ctrl, DOC_PREFIX + k)
    case Err(e) => Err(e)
    case Ok(doc) =>
      match Call(ctrl, TYPE_PREFIX + k)
      case Err(e) => Err(e)
      case Ok(ctype) =>
        match Classify(ctype)
        case Err(e) => Err(e)
        case Ok(kind) => Ok(FieldSpec(doc, kind, true))
  }

  /** The attribute `a` is `_type_k` for a candidate `k`, and building that field raises. */
  predicate FailsAt(ctrl: ControlClass, a: string) {
    HasPrefix(a, TYPE_PREFIX) && IsCandidate(ctrl, a[|TYPE_PREFIX|..]) &&
    FieldFor(ctrl, a[|TYPE_PREFIX|..]).Err?
  }

  /** The error raised by the first attribute of `order` whose field cannot be built. */
  function FirstFailure(ctrl: ControlClass, order: seq<string>): Option<Error> {
    if order == [] then None
    else if FailsAt(ctrl, order[0]) then Some(FieldFor(ctrl, order[0][|TYPE_PREFIX|..]).error)
    else FirstFailure(ctrl, order[1..])
  }

  lemma TypeAttrName(k: string)
    ensures HasPrefix(TYPE_PREFIX + k, TYPE_PREFIX) && (TYPE_PREFIX + k)[|TYPE_PREFIX|..] == k
  {
    PrefixOfConcat(TYPE_PREFIX, k);
  }

  lemma {:induction false} FirstFailureNone(ctrl: ControlClass, order: seq<string>)
    ensures FirstFailure(ctrl, order) == None <==> forall j :: 0 <= j < |order| ==> !FailsAt(ctrl, order[j])
  {
    if order != [] {
      FirstFailureNone(ctrl, order[1..]);
      assert forall j :: 1 <= j < |order| ==> order[j] == order[1..][j - 1];
    }
  }

  lemma {:induction false} FirstFailureAt(ctrl: ControlClass, order: seq<string>, i: nat)
    requires i < |order| && FailsAt(ctrl, order[i])
    requires forall j :: 0 <= j < i ==> !FailsAt(ctrl, order[j])
    ensures FirstFailure(ctrl, order) == Some(FieldFor(ctrl, order[i][|TYPE_PREFIX|..]).error)
  {
    if i > 0 {
      assert forall j :: 0 <= j < i - 1 ==> order[1..][j] == order[j + 1];
      FirstFailureAt(ctrl, order[1..], i - 1);
    }
  }

  lemma {:induction false} FirstFailureWitness(ctrl: ControlClass, order: seq<string>) returns (i: nat)
    requires FirstFailure(ctrl, order).Some?
    ensures i < |order| && FailsAt(ctrl, order[i])
    ensures FieldFor(ctrl, order[i][|TYPE_PREFIX|..]).error == FirstFailure(ctrl, order).value
    ensures forall j :: 0 <= j < i ==> !FailsAt(ctrl, order[j])
  {
    if FailsAt(ctrl, order[0]) {
      i := 0;
    } else {
      var i' := FirstFailureWitness(ctrl, order[1..]);
      i := i' + 1;
      assert forall j :: 1 <= j < i ==> order[j] == order[1..][j - 1];
    }
  }

  /** `order[i]` is the first attribute whose field cannot be built, and building it raises `e`. */
  predicate FirstFailsAt(ctrl: ControlClass, order: seq<string>, i: int, e: Error) {
    && 0 <= i < |order| && FailsAt(ctrl, order[i])
    && FieldFor(ctrl, order[i][|TYPE_PREFIX|..]).error == e
    && forall j :: 0 <= j < i ==> !FailsAt(ctrl, order[j])
  }

  lemma FirstFailureExists(ctrl: ControlClass, order: seq<string>)
    requires FirstFailure(ctrl, order).Some?
    ensures exists i :: FirstFailsAt(ctrl, order, i, FirstFailure(ctrl, order).value)
  {
    var i := FirstFailureWitness(ctrl, order);
    assert FirstFailsAt(ctrl, order, i, FirstFailure(ctrl, order).value);
  }

  /** With `order` listing every attribute, no failure along it means every candidate builds. */
  lemma NoFailureAllBuild(ctrl: ControlClass, order: seq<string>)
    requires Enumerates(ctrl, order)
    ensures (forall j :: 0 <= j < |order| ==> !FailsAt(ctrl, order[j])) <==>
      (forall k :: k in Candidates(ctrl) ==> FieldFor(ctrl, k).Ok?)
  {
    if forall j :: 0 <= j < |order| ==> !FailsAt(ctrl, order[j]) {
      forall k | k in Candidates(ctrl)
        ensures FieldFor(ctrl, k).Ok?
      {
        TypeAttrName(k);
        var j :| 0 <= j < |order| && order[j] == TYPE_PREFIX + k;
        assert !FailsAt(ctrl, order[j]);
      }
    }
    if forall k :: k in Candidates(ctrl) ==> FieldFor(ctrl, k).Ok? {
      forall j | 0 <= j < |order|
        ensures !FailsAt(ctrl, order[j])
      {
        var a := order[j];
        if HasPrefix(a, TYPE_PREFIX) && IsCandidate(ctrl, a[|TYPE_PREFIX|..]) {
          assert a[|TYPE_PREFIX|..] in Candidates(ctrl);
        }
      }
    }
  }

  /**
    The outcome of the discovery loop, stated without the loop: it fails exactly when some
    candidate's field cannot be built, and then with the error of the first such attribute
    in `dir` order; otherwise the fields are exactly the candidates, each built as
    FieldFor says, and every one of them optional.
   */
  function Discover(ctrl: ControlClass, order: seq<string>): (r: Result<map<string, FieldSpec>, Error>)
    requires Enumerates(ctrl, order)
    ensures r.Ok? <==> forall k :: k in Candidates(ctrl) ==> FieldFor(ctrl, k).Ok?
    ensures r.Ok? ==> r.value.Keys == Candidates(ctrl)
    ensures r.Ok? ==> forall k :: k in r.value ==> IsCandidate(ctrl, k) && FieldFor(ctrl, k) == Ok(r.value[k])
    ensures r.Ok? ==> forall k :: k in r.value ==> r.value[k].optional
    ensures r.Err? ==> exists i :: FirstFailsAt(ctrl, order, i, r.error)
  {
    FirstFailureNone(ctrl, order);
    NoFailureAllBuild(ctrl, order);
    match FirstFailure(ctrl, order)
    case Some(e) =>
      FirstFailureExists(ctrl, order);
      Err(e)
    case None =>
      Ok(map k | k in Candidates(ctrl) :: FieldFor(ctrl, k).value)
  }

  /**
    A `_type_k` attribute whose `k` or `_doc_k` is missing is passed over: it raises
    nothing and yields no field.
   */
  lemma IncompleteTripleSkipped(ctrl: ControlClass, order: seq<string>, k: string)
    requires Enumerates(ctrl, order)
    requires TYPE_PREFIX + k in ctrl.attrs && (k !in ctrl.attrs || DOC_PREFIX + k !in ctrl.attrs)
    ensures !FailsAt(ctrl, TYPE_PREFIX + k)
    ensures Discover(ctrl, order).Ok? ==> k !in Discover(ctrl, order).value
  {
    TypeAttrName(k);
  }

  /** The candidates whose `_type_` attribute lies in `seen`. */
  function SeenNames(ctrl: ControlClass, seen: seq<string>): set<string> {
    set k | k in ctrl.attrs && IsCandidate(ctrl, k) && TYPE_PREFIX + k in seen
  }

  lemma SeenStep(ctrl: ControlClass, seen: seq<string>, a: string)
    ensures HasPrefix(a, TYPE_PREFIX) && IsCandidate(ctrl, a[|TYPE_PREFIX|..]) ==>
      SeenNames(ctrl, seen + [a]) == SeenNames(ctrl, seen) + {a[|TYPE_PREFIX|..]}
    ensures !(HasPrefix(a, TYPE_PREFIX) && IsCandidate(ctrl, a[|TYPE_PREFIX|..])) ==>
      SeenNames(ctrl, seen + [a]) == SeenNames(ctrl, seen)
  {
    forall k | TYPE_PREFIX + k == a
      ensures HasPrefix(a, TYPE_PREFIX) && a[|TYPE_PREFIX|..] == k
    {
      TypeAttrName(k);
    }
    if HasPrefix(a, TYPE_PREFIX) {
      assert a == TYPE_PREFIX + a[|TYPE_PREFIX|..];
    }
  }

  /** Once the whole of `dir` order is scanned without a failure, the fields built are Discover's. */
  lemma ScanComplete(ctrl: ControlClass, order: seq<string>, fields: map<string, FieldSpec>)
    requires Enumerates(ctrl, order)
    requires forall j :: 0 <= j < |order| ==> !FailsAt(ctrl, order[j])
    requires fields.Keys == SeenNames(ctrl, order)
    requires forall k :: k in fields ==> IsCandidate(ctrl, k) && FieldFor(ctrl, k) == Ok(fields[k])
    ensures Discover(ctrl, order) == Ok(fields)
  {
    NoFailureAllBuild(ctrl, order);
    var r := Discover(ctrl, order);
    assert SeenNames(ctrl, order) == Candidates(ctrl);
    forall k | k in fields
      ensures r.value[k] == fields[k]
    {
      assert FieldFor(ctrl, k) == Ok(r.value[k]);
    }
    assert r.Ok? && r.value.Keys == fields.Keys;
    assert r.value == fields;
  }

  lemma DiscoverFailsAt(ctrl: ControlClass, order: seq<string>, i: nat, e: Error)
    requires Enumerates(ctrl, order)
    requires FirstFailsAt(ctrl, order, i, e)
    ensures Discover(ctrl, order) == Err(e)
  {
    FirstFailureAt(ctrl, order, i);
  }

  /** Lines 76-89 for one candidate: call both accessors, classify the type, build the field. */
  method BuildField(ctrl: ControlClass, k: string) returns (r: Result<FieldSpec, Error>)
    requires IsCandidate(ctrl, k)
    ensures r == FieldFor(ctrl, k)
  {
    var doc := Call(ctrl, DOC_PREFIX + k);
    if doc.Err? {
      return Err(doc.error);
    }
    var ctype := Call(ctrl, TYPE_PREFIX + k);
    if ctype.Err? {
      return Err(ctype.error);
    }
    var kind := Classify(ctype.value);
    if kind.Err? {
      return Err(kind.error);
    }
    r := Ok(FieldSpec(doc.value, kind.value, true));
  }

  /** The loop state after scanning `order[..i]` without a failure: the fields built so far. */
  predicate Scanned(ctrl: ControlClass, order: seq<string>, i: int, fields: map<string, FieldSpec>) {
    && 0 <= i <= |order|
    && (forall j :: 0 <= j < i ==> !FailsAt(ctrl, order[j]))
    && fields.Keys == SeenNames(ctrl, order[..i])
    && (forall k :: k in fields ==> IsCandidate(ctrl, k) && FieldFor(ctrl, k) == Ok(fields[k]))
  }

  /** One attribute that does not fail extends the scan, adding its field when it is a candidate's `_type_`. */
  lemma ScanStep(ctrl: ControlClass, order: seq<string>, i: int, fields: map<string, FieldSpec>, next: map<string, FieldSpec>)
    requires Scanned(ctrl, order, i, fields) && i < |order| && !FailsAt(ctrl, order[i])
    requires HasPrefix(order[i], TYPE_PREFIX) && IsCandidate(ctrl, order[i][|TYPE_PREFIX|..]) ==>
      next == fields[order[i][|TYPE_PREFIX|..] := FieldFor(ctrl, order[i][|TYPE_PREFIX|..]).value]
    requires !(HasPrefix(order[i], TYPE_PREFIX) && IsCandidate(ctrl, order[i][|TYPE_PREFIX|..])) ==> next == fields
    ensures Scanned(ctrl, order, i + 1, next)
  {
    assert order[..i + 1] == order[..i] + [order[i]];
    SeenStep(ctrl, order[..i], order[i]);
  }

  /** The discovery loop, attribute by attribute in `dir` order, as wrap.py runs it. */
  method DiscoverFields(ctrl: ControlClass, order: seq<string>) returns (res: Result<map<string, FieldSpec>, Error>)
    requires Enumerates(ctrl, order)
    ensures res == Discover(ctrl, order)
  {
    var fields: map<string, FieldSpec> := map[];
    var i := 0;
    while i < |order|
      invariant Scanned(ctrl, order, i, fields)
    {
      var attr := order[i];
      var next := fields;
      if HasPrefix(attr, TYPE_PREFIX) {
        var k := attr[|TYPE_PREFIX|..];
        assert attr == TYPE_PREFIX + k;
        if k in ctrl.attrs && DOC_PREFIX + k in ctrl.attrs {
          var field := BuildField(ctrl, k);
          if field.Err? {
            DiscoverFailsAt(ctrl, order, i, field.error);
            return Err(field.error);
          }
          next := fields[k := field.value];
        }
      }
      ScanStep(ctrl, order, i, fields, next);
      fields := next;
      i := i + 1;
    }
    assert order[..i] == order;
    ScanComplete(ctrl, order, fields);
    res := Ok(fields);
  }
}
