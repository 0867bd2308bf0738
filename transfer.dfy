/**
  Moving values between a config instance and a control instance: the closures makeConfigClass
  installs as makeControl, readControl, __init__ and validate (wrap.py, lines 90-122). The
  config's wrapped fields are the names `fields`; the control's default constructor gives
  its members the values `defaults`.
 */
module Transfer {
  import opened Text

  /** A field value; a config field may also hold None, modelled as an `Option`. */
  datatype Value = BoolV(b: bool) | IntV(i: int) | FloatV(r: real) | StrV(s: string) | ListV(items: seq<Value>)

  /** The outcome of `validate`: which check raised, if any. */
  datatype Validation = Passed | FieldCheckFailed | ControlCheckFailed

  /** The field values right after `__init__(**kw)`: the control's defaults, then `kw` on top. */
  function InitValues(fields: set<string>, defaults: map<string, Value>, kw: map<string, Option<Value>>): map<string, Option<Value>>
    requires fields <= defaults.Keys
  {
    (map k | k in fields :: Some(defaults[k])) + kw
  }

  /** The control members `makeControl` produces: the defaults, overwritten by every field that is not None. */
  function MadeControl(fields: set<string>, defaults: map<string, Value>, values: map<string, Option<Value>>): map<string, Value>
    requires fields <= values.Keys
  {
    defaults + map k | k in fields && values[k].Some? :: values[k].value
  }

  /** The field values after `readControl(control)`: every field copied from the control. */
  function ReadValues(fields: set<string>, control: map<string, Value>): map<string, Option<Value>>
    requires fields <= control.Keys
  {
    map k | k in fields :: Some(control[k])
  }

  /** An instance of the C++ control struct: its members by name. */
  class ControlObject {
    var values: map<string, Value>

    /** `self.Control()`: the default constructor. */
    constructor (defaults: map<string, Value>)
      ensures values == defaults
    {
      values := defaults;
    }
  }

  /** Lines 117-120: the defaults dict, one entry per field read off a default-constructed control. */
  method CollectDefaults(r: ControlObject, fields: set<string>) returns (d: map<string, Value>)
    requires fields <= r.values.Keys
    ensures d.Keys == fields
    ensures forall k :: k in fields ==> d[k] == r.values[k]
  {
    d := map[];
    var rest := fields;
    while rest != {}
      invariant rest <= fields
      invariant d.Keys == fields - rest
      invariant forall k :: k in d ==> d[k] == r.values[k]
      decreases |rest|
    {
      var k :| k in rest;
      var value := r.values[k];
      d := d[k := value];
      rest := rest - {k};
    }
  }

  /** An instance of a generated config class, reduced to its wrapped fields. */
  class ConfigObject {
    const fields: set<string>
    const defaults: map<string, Value>
    var values: map<string, Option<Value>>

    predicate Valid()
      reads this
    {
      fields <= defaults.Keys && values.Keys == fields
    }

    /**
      `__init__(**kw)` (lines 113-122): defaults from a default-constructed control go to the
      base initialiser, then `update(**kw)` sets the keyword arguments on top.
     */
    constructor (fields: set<string>, defaults: map<string, Value>, kw: map<string, Option<Value>>)
      requires fields <= defaults.Keys && kw.Keys <= fields
      ensures Valid() && this.fields == fields && this.defaults == defaults
      ensures values == InitValues(fields, defaults, kw)
    {
      this.fields := fields;
      this.defaults := defaults;
      values := map[];
      new;
      var r := new ControlObject(defaults);
      var d := CollectDefaults(r, fields);
      values := map k | k in fields :: Some(d[k]);
      Update(kw);
    }

    /** `self.update(**kw)`: each keyword argument sets its field. */
    method Update(kw: map<string, Option<Value>>)
      requires Valid() && kw.Keys <= fields
      modifies this
      ensures Valid() && values == old(values) + kw
    {
      values := values + kw;
    }

    /** `makeControl` (lines 90-101): a default-constructed control with every non-None field copied in. */
    method MakeControl() returns (r: ControlObject)
      requires Valid()
      ensures fresh(r) && r.values == MadeControl(fields, defaults, values)
    {
      r := new ControlObject(defaults);
      ghost var done: set<string> := {};
      var rest := fields;
      while rest != {}
        invariant done + rest == fields && done !! rest
        invariant r.values == defaults + map k | k in done && values[k].Some? :: values[k].value
        decreases |rest|
      {
        var k :| k in rest;
        var value := values[k];
        if value.Some? {
          r.values := r.values[k := value.value];
        }
        rest := rest - {k};
        done := done + {k};
      }
    }

    /** `readControl` (lines 102-106): every field set from the control's member of that name. */
    method ReadControl(control: ControlObject)
      requires Valid() && fields <= control.values.Keys
      modifies this`values
      ensures Valid() && values == ReadValues(fields, control.values)
    {
      var source := control.values;
      ghost var start := values;
      ghost var done: set<string> := {};
      var rest := fields;
      while rest != {}
        invariant done + rest == fields && done !! rest
        invariant values == start + map k | k in done :: Some(source[k])
        decreases |rest|
      {
        var k :| k in rest;
        CopyStep(start, done, source, k);
        values := values[k := Some(source[k])];
        rest := rest - {k};
        done := done + {k};
      }
      CopyCoversFields(start, fields, source);
    }

    /**
      `validate` (lines 107-112): the base class's field checks first, then the control's own
      `validate()` on the control made from the current values. Both checks are code outside
      this model and come in as `fieldsOk` and `controlOk`.
     */
    method Validate(fieldsOk: bool, controlOk: map<string, Value> -> bool) returns (v: Validation)
      requires Valid()
      ensures v == Passed <==> fieldsOk && controlOk(MadeControl(fields, defaults, values))
      ensures v == FieldCheckFailed <==> !fieldsOk
    {
      if !fieldsOk {
        return FieldCheckFailed;
      }
      var r := MakeControl();
      if !controlOk(r.values) {
        return ControlCheckFailed;
      }
      return Passed;
    }
  }

  lemma CopyStep(start: map<string, Option<Value>>, done: set<string>, source: map<string, Value>, k: string)
    requires done <= source.Keys && k in source
    ensures (start + map j | j in done :: Some(source[j]))[k := Some(source[k])] ==
            start + map j | j in done + {k} :: Some(source[j])
  {
  }

  lemma CopyCoversFields(start: map<string, Option<Value>>, fields: set<string>, control: map<string, Value>)
    requires start.Keys == fields && fields <= control.Keys
    ensures start + (map k | k in fields :: Some(control[k])) == ReadValues(fields, control)
  {
  }

  /** A keyword argument wins over the control's default; every other field starts at its default. */
  lemma InitPrecedence(fields: set<string>, defaults: map<string, Value>, kw: map<string, Option<Value>>)
    requires fields <= defaults.Keys && kw.Keys <= fields
    ensures InitValues(fields, defaults, kw).Keys == fields
    ensures forall k :: k in fields ==>
      InitValues(fields, defaults, kw)[k] == if k in kw then kw[k] else Some(defaults[k])
  {
  }

  /** makeControl: a None field leaves the control's default, any other value is copied, and members that are not fields keep their defaults. */
  lemma MadeControlFields(fields: set<string>, defaults: map<string, Value>, values: map<string, Option<Value>>)
    requires fields <= defaults.Keys && values.Keys == fields
    ensures MadeControl(fields, defaults, values).Keys == defaults.Keys
    ensures forall k :: k in fields ==>
      MadeControl(fields, defaults, values)[k] == if values[k].Some? then values[k].value else defaults[k]
    ensures forall k :: k in defaults && k !in fields ==> MadeControl(fields, defaults, values)[k] == defaults[k]
  {
  }

  /**
    Reading a control and making one back gives the same value in every field; members that
    are not fields come back at their defaults, not at the control's values.
   */
  lemma ReadThenMake(fields: set<string>, defaults: map<string, Value>, control: map<string, Value>)
    requires fields <= defaults.Keys && fields <= control.Keys
    ensures forall k :: k in fields ==> MadeControl(fields, defaults, ReadValues(fields, control))[k] == control[k]
    ensures forall k :: k in defaults && k !in fields ==>
      MadeControl(fields, defaults, ReadValues(fields, control))[k] == defaults[k]
  {
    MadeControlFields(fields, defaults, ReadValues(fields, control));
  }

  /**
    Making a control and reading it back fills every None field with the control's default
    and keeps every other field; a config with no None field is restored exactly.
   */
  lemma MakeThenRead(fields: set<string>, defaults: map<string, Value>, values: map<string, Option<Value>>)
    requires fields <= defaults.Keys && values.Keys == fields
    ensures forall k :: k in fields ==>
      ReadValues(fields, MadeControl(fields, defaults, values))[k] ==
        Some(if values[k].Some? then values[k].value else defaults[k])
    ensures (forall k :: k in values ==> values[k].Some?) ==>
      ReadValues(fields, MadeControl(fields, defaults, values)) == values
  {
    MadeControlFields(fields, defaults, values);
    var back := ReadValues(fields, MadeControl(fields, defaults, values));
    if forall k :: k in values ==> values[k].Some? {
      forall k | k in fields
        ensures back[k] == values[k]
      {
      }
    }
  }

  /** A config made with no keyword arguments makes a control equal to a default-constructed one. */
  lemma FreshConfigMakesDefaultControl(fields: set<string>, defaults: map<string, Value>)
    requires fields <= defaults.Keys
    ensures MadeControl(fields, defaults, InitValues(fields, defaults, map[])) == defaults
  {
    InitPrecedence(fields, defaults, map[]);
    MadeControlFields(fields, defaults, InitValues(fields, defaults, map[]));
  }
}
