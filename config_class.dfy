/**
  Assembly of the config class in makeConfigClass (wrap.py, lines 63-68 and 123-132) and the
  `wrap` decorator (lines 134-147): choose or create the class, discover the fields, link the
  control and the config class both ways, inject makeControl, readControl, __init__ and (when
  the control has one) validate, and finally set one attribute per field.
 */
module ConfigClass {
  import opened Text
  import opened TypeNames
  import opened Discovery
  import Naming

  /** The default base class, `Config`. */
  const CONFIG_BASE := "Config"

  /** What makeConfigClass puts in the config class's namespace. */
  datatype ClassAttr =
    | FieldAttr(field: FieldSpec)          // a Field or ListField descriptor
    | ControlLink(control: string)         // `cls.Control = ctrl`
    | MakeControlFn(fieldNames: set<string>)
    | ReadControlFn(fieldNames: set<string>)
    | InitFn(fieldNames: set<string>)
    | ValidateFn
    | UserAttr(what: string)               // anything the class already had

  /** A Python class object as makeConfigClass sees it. */
  datatype ClassState = ClassState(name: string, bases: seq<string>, doc: Option<string>, attrs: map<string, ClassAttr>)

  /** The names makeConfigClass injects before the fields. */
  function InjectedNames(ctrl: ControlClass): set<string> {
    {"Control", "makeControl", "readControl", "__init__"} + (if "validate" in ctrl.attrs then {"validate"} else {})
  }

  /** The class after lines 124-131: the injected members, then the fields on top of them. */
  function Inject(c: ClassState, ctrl: ControlClass, fields: map<string, FieldSpec>): ClassState {
    c.(attrs := WithMethods(c.attrs, ctrl, fields.Keys) + map k | k in fields :: FieldAttr(fields[k]))
  }

  /** Lines 124-129: the control link and the injected methods, validate only when the control has one. */
  function WithMethods(attrs: map<string, ClassAttr>, ctrl: ControlClass, names: set<string>): map<string, ClassAttr> {
    var methods := attrs["Control" := ControlLink(ctrl.name)]["makeControl" := MakeControlFn(names)]
      ["readControl" := ReadControlFn(names)]["__init__" := InitFn(names)];
    if "validate" in ctrl.attrs then methods["validate" := ValidateFn] else methods
  }

  /** `ctrl.ConfigClass = cls` (line 123). */
  function LinkConfigClass(ctrl: ControlClass, config: string): ControlClass {
    ctrl.(attrs := ctrl.attrs["ConfigClass" := ConfigClassLink(config)])
  }

  /**
    makeConfigClass as a function of its arguments: `cls` is the existing class's state or
    None. The result is the config class's new state and the control class with its link.
   */
  function MakeConfigClassSpec(ctrl: ControlClass, order: seq<string>, name: Option<string>, base: string,
                               doc: Option<string>, cls: Option<ClassState>): Result<(ClassState, ControlClass), Error>
    requires Enumerates(ctrl, order)
  {
    var className := if name.None? then Naming.ConfigName(ctrl.name) else name.value;
    var c := if cls.None? then ClassState(className, [base], doc, map[]) else cls.value;
    match Discover(ctrl, order)
    case Err(e) => Err(e)
    case Ok(fields) => Ok((Inject(c, ctrl, fields), LinkConfigClass(ctrl, c.name)))
  }

  /**
    Fields override everything: each field's attribute is its descriptor, even when its name
    is one of the injected members; an injected member not shadowed by a field is set; and
    every other attribute of the class is left as it was.
   */
  lemma InjectOverrides(c: ClassState, ctrl: ControlClass, fields: map<string, FieldSpec>)
    ensures var r := Inject(c, ctrl, fields).attrs;
      && r.Keys == c.attrs.Keys + InjectedNames(ctrl) + fields.Keys
      && (forall k :: k in fields ==> r[k] == FieldAttr(fields[k]))
      && ("Control" !in fields ==> r["Control"] == ControlLink(ctrl.name))
      && ("makeControl" !in fields ==> r["makeControl"] == MakeControlFn(fields.Keys))
      && ("readControl" !in fields ==> r["readControl"] == ReadControlFn(fields.Keys))
      && ("__init__" !in fields ==> r["__init__"] == InitFn(fields.Keys))
      && ("validate" !in fields && "validate" in ctrl.attrs ==> r["validate"] == ValidateFn)
      && (forall k :: k in c.attrs && k !in fields && k !in InjectedNames(ctrl) ==> r[k] == c.attrs[k])
  {
  }

  /** With an existing class (as `wrap` passes), the name, base and docstring arguments change nothing. */
  lemma ExistingClassIgnoresNameBaseDoc(ctrl: ControlClass, order: seq<string>, cls: ClassState,
                                        name1: Option<string>, base1: string, doc1: Option<string>,
                                        name2: Option<string>, base2: string, doc2: Option<string>)
    requires Enumerates(ctrl, order)
    ensures MakeConfigClassSpec(ctrl, order, name1, base1, doc1, Some(cls)) ==
            MakeConfigClassSpec(ctrl, order, name2, base2, doc2, Some(cls))
    ensures var r := MakeConfigClassSpec(ctrl, order, name1, base1, doc1, Some(cls));
      r.Ok? ==> r.value.0.name == cls.name && r.value.0.bases == cls.bases && r.value.0.doc == cls.doc
  {
  }

  /**
    A new class is named after the control ("Control" becoming "Config") unless a name is
    given, derives from `base` alone, and carries the docstring argument as it is: when that
    is None the class has no docstring, whatever the control's docstring (the fallback on
    lines 67-68 runs after the class is made).
   */
  lemma NewClassNameAndDoc(ctrl: ControlClass, order: seq<string>, name: Option<string>, base: string,
                           doc: Option<string>)
    requires Enumerates(ctrl, order)
    ensures var r := MakeConfigClassSpec(ctrl, order, name, base, doc, None);
      r.Ok? ==>
        && r.value.0.name == (if name.Some? then name.value else Naming.ConfigName(ctrl.name))
        && !Occurs(r.value.0.name, Naming.CONTROL) == (name.None? || !Occurs(name.value, Naming.CONTROL))
        && r.value.0.bases == [base]
        && r.value.0.doc == doc
        && r.value.1.attrs["ConfigClass"] == ConfigClassLink(r.value.0.name)
  {
    Naming.ConfigNameHasNoControl(ctrl.name);
  }

  /**
    makeConfigClass fails exactly when discovery does, with its error; when it succeeds the
    class has one field attribute per discovered field and links back to the control.
   */
  lemma MakeConfigClassOutcome(ctrl: ControlClass, order: seq<string>, name: Option<string>, base: string,
                               doc: Option<string>, cls: Option<ClassState>)
    requires Enumerates(ctrl, order)
    ensures var r := MakeConfigClassSpec(ctrl, order, name, base, doc, cls);
      && (r.Err? <==> Discover(ctrl, order).Err?)
      && (r.Err? ==> r.error == Discover(ctrl, order).error)
      && (r.Ok? ==> forall k :: k in Candidates(ctrl) ==>
            k in r.value.0.attrs && r.value.0.attrs[k] == FieldAttr(Discover(ctrl, order).value[k]))
      && (r.Ok? && "Control" !in Candidates(ctrl) ==> r.value.0.attrs["Control"] == ControlLink(ctrl.name))
  {
    match Discover(ctrl, order)
    case Err(_) =>
    case Ok(fields) =>
      var c := if cls.None? then ClassState(if name.None? then Naming.ConfigName(ctrl.name) else name.value, [base], doc, map[])
               else cls.value;
      InjectOverrides(c, ctrl, fields);
  }

  /**
    Wrapping a control a second time finds the same fields: the `ConfigClass` link the first
    wrap adds is never a `_type_` or `_doc_` attribute, and (when the control already had a
    `ConfigClass` member, or no `_type_ConfigClass`) it adds no candidate.
   */
  lemma RewrapFindsSameFields(ctrl: ControlClass, order: seq<string>, config: string, order': seq<string>)
    requires Enumerates(ctrl, order)
    requires Enumerates(LinkConfigClass(ctrl, config), order')
    requires "ConfigClass" in ctrl.attrs || TYPE_PREFIX + "ConfigClass" !in ctrl.attrs
    ensures Candidates(LinkConfigClass(ctrl, config)) == Candidates(ctrl)
    ensures Discover(ctrl, order).Ok? <==> Discover(LinkConfigClass(ctrl, config), order').Ok?
    ensures Discover(ctrl, order).Ok? ==> Discover(ctrl, order) == Discover(LinkConfigClass(ctrl, config), order')
  {
    var ctrl' := LinkConfigClass(ctrl, config);
    assert "ConfigClass"[0] == 'C';
    forall k | IsCandidate(ctrl, k)
      ensures IsCandidate(ctrl', k) && FieldFor(ctrl', k) == FieldFor(ctrl, k)
    {
      assert (DOC_PREFIX + k)[0] == '_' && (TYPE_PREFIX + k)[0] == '_';
    }
    forall k | IsCandidate(ctrl', k)
      ensures IsCandidate(ctrl, k)
    {
      assert (DOC_PREFIX + k)[0] == '_' && (TYPE_PREFIX + k)[0] == '_';
    }
    assert Candidates(ctrl') == Candidates(ctrl);
    var r, r' := Discover(ctrl, order), Discover(ctrl', order');
    if r.Ok? {
      assert r'.Ok?;
      forall k | k in r.value
        ensures k in r'.value && r.value[k] == r'.value[k]
      {
        assert FieldFor(ctrl, k) == Ok(r.value[k]);
        assert FieldFor(ctrl', k) == Ok(r'.value[k]);
      }
      assert r.value == r'.value;
    }
  }

  /** A Python class object whose namespace makeConfigClass changes in place. */
  class PyClass {
    var name: string
    var bases: seq<string>
    var doc: Option<string>
    var attrs: map<string, ClassAttr>

    /** `type(name, (base,), {"__doc__": doc})` (line 66). */
    constructor (name: string, base: string, doc: Option<string>)
      ensures State() == ClassState(name, [base], doc, map[])
    {
      this.name := name;
      this.bases := [base];
      this.doc := doc;
      this.attrs := map[];
    }

    function State(): ClassState
      reads this
    {
      ClassState(name, bases, doc, attrs)
    }
  }

  /** Lines 124-131 on the class object: the injected members, then the fields. */
  method InjectInto(c: PyClass, ctrl: ControlClass, fields: map<string, FieldSpec>)
    modifies c
    ensures c.State() == Inject(old(c.State()), ctrl, fields)
  {
    SetMethods(c, ctrl, fields.Keys);
    SetFields(c, fields);
  }

  method SetMethods(c: PyClass, ctrl: ControlClass, names: set<string>)
    modifies c
    ensures c.State() == old(c.State()).(attrs := WithMethods(old(c.attrs), ctrl, names))
  {
    c.attrs := c.attrs["Control" := ControlLink(ctrl.name)];
    c.attrs := c.attrs["makeControl" := MakeControlFn(names)];
    c.attrs := c.attrs["readControl" := ReadControlFn(names)];
    c.attrs := c.attrs["__init__" := InitFn(names)];
    if "validate" in ctrl.attrs {
      c.attrs := c.attrs["validate" := ValidateFn];
    }
  }

  /** Line 130-131: `setattr(cls, k, field)` for every field, in whatever order the dict yields them. */
  method SetFields(c: PyClass, fields: map<string, FieldSpec>)
    modifies c`attrs
    ensures c.attrs == old(c.attrs) + map k | k in fields :: FieldAttr(fields[k])
  {
    ghost var start := c.attrs;
    ghost var done: set<string> := {};
    var rest := fields.Keys;
    while rest != {}
      invariant done + rest == fields.Keys && done !! rest
      invariant c.attrs == start + map k | k in done :: FieldAttr(fields[k])
      decreases |rest|
    {
      var k :| k in rest;
      c.attrs := c.attrs[k := FieldAttr(fields[k])];
      rest := rest - {k};
      done := done + {k};
    }
  }

  /**
    makeConfigClass, step by step as wrap.py runs it. The new state of the class, the
    control's link and the error are those of MakeConfigClassSpec; an existing class is
    changed in place and returned, and on error it is left untouched.
   */
  method MakeConfigClass(ctrl: ControlClass, order: seq<string>, name: Option<string>, base: string,
                         doc: Option<string>, cls: PyClass?)
    returns (res: Result<PyClass, Error>, linked: ControlClass)
    requires Enumerates(ctrl, order)
    modifies cls
    ensures var spec := MakeConfigClassSpec(ctrl, order, name, base, doc,
                                            if cls == null then None else Some(old(cls.State())));
      && res.Ok? == spec.Ok?
      && (res.Ok? ==> res.value.State() == spec.value.0 && linked == spec.value.1)
      && (res.Err? ==> res.error == spec.error && linked == ctrl)
    ensures res.Ok? && cls != null ==> res.value == cls
    ensures res.Ok? && cls == null ==> fresh(res.value)
    ensures res.Err? && cls != null ==> cls.State() == old(cls.State())
  {
    var className := name;
    if className.None? {
      className := Some(Naming.ConfigName(ctrl.name));
    }
    var c: PyClass;
    if cls == null {
      c := new PyClass(className.value, base, doc);
    } else {
      c := cls;
    }
    // Lines 67-68 rebind the local `doc` to the control's docstring; nothing reads it afterwards.
    var found := DiscoverFields(ctrl, order);
    if found.Err? {
      return Err(found.error), ctrl;
    }
    var fields := found.value;
    linked := LinkConfigClass(ctrl, c.name);
    InjectInto(c, ctrl, fields);
    res := Ok(c);
  }

  /**
    The `wrap(ctrl)` decorator applied to a class: makeConfigClass with that class, so the
    result is the decorated class itself, changed as MakeConfigClassSpec says.
   */
  method Wrap(ctrl: ControlClass, order: seq<string>, cls: PyClass)
    returns (res: Result<PyClass, Error>, linked: ControlClass)
    requires Enumerates(ctrl, order)
    modifies cls
    ensures var spec := MakeConfigClassSpec(ctrl, order, None, CONFIG_BASE, None, Some(old(cls.State())));
      && res.Ok? == spec.Ok?
      && (res.Ok? ==> res.value == cls && cls.State() == spec.value.0 && linked == spec.value.1)
      && (res.Err? ==> res.error == spec.error && cls.State() == old(cls.State()) && linked == ctrl)
  {
    res, linked := MakeConfigClass(ctrl, order, None, CONFIG_BASE, None, cls);
  }
}
