# pex_config control bridge — a Dafny model

pex_config lets C++ code declare "control" structs whose fields Python can turn into a
full `Config` class. This project models the two halves of that bridge and proves
properties of the model:

- `include/lsst/pex/config.h`: the macros `LSST_CONTROL_FIELD(NAME, TYPE, DOC)` and
  `LSST_NESTED_CONTROL_FIELD(NAME, MODULE, TYPE, DOC)`. Each use declares:
  - a static accessor `_doc_NAME()` returning DOC;
  - a static accessor `_type_NAME()` returning the spelling the `#` operator gives TYPE;
  - for the nested form only, `_module_NAME()` returning the spelling of MODULE;
  - the data member `TYPE NAME`.
- `python/lsst/pex/config/wrap.py`: `makeConfigClass` and the `wrap` decorator. They:
  - derive the config class name from the control's name;
  - discover the fields from the `_type_`/`_doc_` accessors;
  - classify each C++ type spelling as a scalar `Field`, a `ListField`, or a `TypeError`;
  - inject `makeControl`, `readControl`, `__init__` and (when the control has one) `validate`;
  - set one field attribute per discovered field.

Modules, one per file:

| file | module | models |
|---|---|---|
| `text.dfy` | `Text` | `Option`/`Result`, prefixes, occurrences, Python 2's `\s` |
| `type_names.dfy` | `TypeNames` | `_dtypeMap`, the container pattern, the classifier |
| `naming.dfy` | `Naming` | `str.replace("Control", "Config")` |
| `discovery.dfy` | `Discovery` | the discovery loop |
| `control_macros.dfy` | `ControlMacros` | the two macros and the `#` operator |
| `macro_round_trip.dfy` | `MacroRoundTrip` | discovery run over what the macros declare |
| `config_class.dfy` | `ConfigClass` | class assembly, the injected members, `wrap` |
| `transfer.dfy` | `Transfer` | `makeControl`, `readControl`, `__init__`, `validate` |

How the parts are modelled:

- **Container pattern.** The pattern `(std::)?(vector|list)<\s*(?P<type>[a-z:]+)\s*>` is
  anchored only at the start. It is hand-coded as a matcher (`MatchContainer`) and
  checked against an independent description of its language (`ContainerSpelling`,
  `Spell`). The matcher is proved complete and sound for it.
- **Discovery.** It runs over a control class seen as a map from attribute names to
  attributes. `dir`'s order is a parameter. The loop (`DiscoverFields`) is proved equal to
  a declarative specification (`Discover`).
- **Class assembly.** It changes a class object (`PyClass`) in place. Its effect is
  proved equal to a specification function (`MakeConfigClassSpec`).
- **Config instances** (`ConfigObject`) and **control instances** (`ControlObject`) are
  classes whose methods are proved against map functions (`InitValues`, `MadeControl`,
  `ReadValues`).

Two consequences of the code are stated as lemmas:

- **The docstring quirk is kept.** A new class gets the `doc` argument as its docstring
  (line 66). The fallback to the control's docstring (lines 67-68) runs too late to
  matter. So a class made with no `doc` has no docstring, even when the control has one
  (`NewClassNameAndDoc`).
- **The macro round trip holds only under a condition.** Take a struct that compiles,
  where no field NAME and no other attribute starts with `_type_`. Discovery over such a
  struct finds exactly the declared NAMEs, each with its DOC and classified type
  (`DiscoverDeclared`).
  - The condition is needed. Three fields named `m`, `_type__doc_m` and `_doc__doc_m`
    compile together. Yet they make `_doc_m` a candidate, and the wrap fails
    (`TypePrefixedNameNeeded`).

`makeControl` and `readControl` copy values both ways between a config and a control, and
the injected `validate` calls the control's own `validate()` (wrap.py, lines 90-112).

## Model

| member | source | states |
|---|---|---|
| `TypeNames.DtypeOf` | python/lsst/pex/config/wrap.py:7-13 | `_dtypeMap` as a lookup; its contents are stated by ScalarTable |
| `TypeNames.ScalarTable` | python/lsst/pex/config/wrap.py:7-13 | exactly the five spellings bool, int, double, float, std::string are scalar; none contains '<' |
| `TypeNames.SpaceSpan` | python/lsst/pex/config/wrap.py:15 | `\s*` consumes the longest run of white space: all of it is space and the next character is not |
| `TypeNames.TypeSpan` | python/lsst/pex/config/wrap.py:15 | `[a-z:]+` consumes the longest run of lower-case letters and colons |
| `TypeNames.MatchContainer` | python/lsst/pex/config/wrap.py:15 | `re.match` of the container pattern, returning the `type` group; MatchComplete, MatchSound and MatchNone state it matches exactly the pattern's language |
| `TypeNames.MatchComplete` | python/lsst/pex/config/wrap.py:15 | every spelling in the pattern's language (optional `std::`, vector or list, `<`, spaces, a `[a-z:]+` item, spaces, `>`, any tail) is matched and its item extracted |
| `TypeNames.MatchSound` | python/lsst/pex/config/wrap.py:15 | whatever the matcher accepts is such a spelling, with the item it returns |
| `TypeNames.MatchNone` | python/lsst/pex/config/wrap.py:83-84 | when the matcher says no, no reading of the string fits the pattern |
| `TypeNames.ContainerIsNotScalar` | python/lsst/pex/config/wrap.py:78-83 | a container spelling is never found in the scalar table, so the pattern is only tried on non-scalars |
| `TypeNames.Classify` | python/lsst/pex/config/wrap.py:78-88 | the only error is "could not parse" for the spelling itself; a scalar spelling yields a Field of its table dtype; a ListField only comes from a matched item that is in the table |
| `TypeNames.ClassifyContainer` | python/lsst/pex/config/wrap.py:81-88 | a container spelling yields a ListField of its item's dtype, or TypeError when the item is not in the table |
| `TypeNames.ClassifyAccepts` | python/lsst/pex/config/wrap.py:78-88 | a spelling is accepted if and only if it is scalar or a container of a scalar |
| `TypeNames.ClassifyVectorOfInt` | python/lsst/pex/config/wrap.py:81-86 | `std::vector<int>` gives a ListField of int |
| `TypeNames.ClassifyIgnoresTail` | python/lsst/pex/config/wrap.py:83-86 | the pattern is anchored only at the start: text after `>` is ignored |
| `TypeNames.MatchItemRejectsSecondWord` | python/lsst/pex/config/wrap.py:15 | after the item word and its spaces only `>` may follow |
| `TypeNames.ClassifyRejectsTwoWordItem` | python/lsst/pex/config/wrap.py:82-88 | `std::vector<unsigned int>` raises TypeError |
| `TypeNames.ClassifyRejectsSpaceBeforeBracket` | python/lsst/pex/config/wrap.py:82-88 | `vector <int>` raises TypeError |
| `TypeNames.ClassifyRejectsClassName` | python/lsst/pex/config/wrap.py:59-61 | a class name (no '<', not scalar), such as a nested control's type, raises TypeError |
| `Naming.ReplaceAll` | python/lsst/pex/config/wrap.py:64 | `str.replace`; ReplaceWithoutOccurrence and ConfigNameHasNoControl state what it leaves and what it removes |
| `Naming.ConfigName` | python/lsst/pex/config/wrap.py:63-64 | the default class name; ConfigNameHasNoControl, ConfigNameReversible and ConfigNameExamples state it |
| `Naming.ReplaceWithoutOccurrence` | python/lsst/pex/config/wrap.py:64 | `replace` leaves a string in which the pattern does not occur unchanged |
| `Naming.RenameKeepsPlainPrefix` | python/lsst/pex/config/wrap.py:64 | a renamed name begins with a 'C'-free text only if the original did |
| `Naming.ConfigNameHasNoControl` | python/lsst/pex/config/wrap.py:63-64 | no "Control" is left in a derived config class name |
| `Naming.ConfigNameReversible` | python/lsst/pex/config/wrap.py:63-64 | for a control name without "Config", replacing "Config" back by "Control" recovers it |
| `Naming.ConfigNameExamples` | python/lsst/pex/config/wrap.py:63-64 | FooControl is named FooConfig |
| `Discovery.Candidates` | python/lsst/pex/config/wrap.py:70-75 | the names k with `_type_k`, k and `_doc_k`; Discover states they are exactly the field names, IncompleteTripleSkipped that nothing else is |
| `Discovery.FirstFailure` | python/lsst/pex/config/wrap.py:70-88 | the error the loop raises first; FirstFailureNone states when there is none, Discover which attribute raises it |
| `Discovery.FieldFor` | python/lsst/pex/config/wrap.py:76-89 | a candidate's field is built exactly when both accessors are callable and the type classifies, and is then optional with the accessor's doc and the classified kind |
| `Discovery.Discover` | python/lsst/pex/config/wrap.py:69-89 | succeeds if and only if every candidate builds; then the field names are exactly the candidates (k with `_type_k`, k and `_doc_k`), each optional; otherwise the error is that of the first failing attribute in `dir` order |
| `Discovery.BuildField` | python/lsst/pex/config/wrap.py:76-89 | calling the doc and type accessors, classifying and building the field gives FieldFor: the first TypeError raised, or the optional field |
| `Discovery.DiscoverFields` | python/lsst/pex/config/wrap.py:69-89 | the loop over `dir(ctrl)` returns what Discover specifies |
| `Discovery.IncompleteTripleSkipped` | python/lsst/pex/config/wrap.py:71-75 | a `_type_k` without `k` or `_doc_k` raises nothing and yields no field |
| `Discovery.FirstFailureNone` | python/lsst/pex/config/wrap.py:70-88 | the loop raises nothing exactly when no attribute along `dir` order fails |
| `ControlMacros.Stringize` | include/lsst/pex/config.h:29-32 | the `#TYPE` spelling (section 6.10.3.2 of the C standard); StringizeSingleSpaced and StringizeTight state its white space |
| `ControlMacros.Expand` | include/lsst/pex/config.h:24-63 | the members one macro use declares; NamesOf, ExpandNamesDistinct and MacroRoundTrip.ReflectDecl state them |
| `ControlMacros.StringizeSingleSpaced` | include/lsst/pex/config.h:29-32 | the spelling of `#TYPE` has no white space at either end and no two white-space characters in a row |
| `ControlMacros.StringizeTight` | include/lsst/pex/config.h:29-32 | a TYPE written without white space is spelled exactly as written |
| `ControlMacros.ExpandNamesDistinct` | include/lsst/pex/config.h:24-63 | one macro use never declares the same name twice |
| `ControlMacros.NamesOf` | include/lsst/pex/config.h:24-63 | a macro use declares exactly `_doc_NAME`, `_type_NAME`, NAME and, nested, `_module_NAME` |
| `ControlMacros.PlainNamesCompile` | include/lsst/pex/config.h:24-63 | macro uses with distinct NAMEs not starting with '_' never clash |
| `ControlMacros.CompilesDistinctNames` | include/lsst/pex/config.h:24-33 | a struct that compiles never uses one NAME twice |
| `MacroRoundTrip.ReflectDecl` | include/lsst/pex/config.h:24-63 | Python sees `_doc_NAME` return DOC, `_type_NAME` return the spelling of TYPE, `_module_NAME` that of MODULE, and NAME as a data member |
| `MacroRoundTrip.CandidatesAreDeclared` | python/lsst/pex/config/wrap.py:70-75 | in a well-declared struct, the discovery candidates are exactly the declared NAMEs |
| `MacroRoundTrip.FieldForDeclared` | python/lsst/pex/config/wrap.py:76-89 | each declared NAME gets the field with its DOC and its classified type, or that type's TypeError |
| `MacroRoundTrip.DiscoverDeclared` | python/lsst/pex/config/wrap.py:69-89 | a well-declared struct wraps if and only if every declared type is supported, and then yields exactly one optional field per NAME |
| `MacroRoundTrip.NestedControlRejected` | python/lsst/pex/config/wrap.py:59-61 | a nested control field makes the wrap fail |
| `MacroRoundTrip.TypePrefixedNameNeeded` | python/lsst/pex/config/wrap.py:70-77 | a compiling struct with a NAME starting with `_type_` can yield an undeclared candidate whose `_doc_` attribute is not callable |
| `ConfigClass.Inject` | python/lsst/pex/config/wrap.py:123-131 | the class namespace after the injections; InjectOverrides states which attribute wins |
| `ConfigClass.LinkConfigClass` | python/lsst/pex/config/wrap.py:123 | `ctrl.ConfigClass = cls`; NewClassNameAndDoc states the link, RewrapFindsSameFields that it adds no candidate |
| `ConfigClass.MakeConfigClassSpec` | python/lsst/pex/config/wrap.py:63-132 | makeConfigClass as a function; MakeConfigClassOutcome, NewClassNameAndDoc and ExistingClassIgnoresNameBaseDoc state it, MakeConfigClass is proved equal to it |
| `ConfigClass.InjectOverrides` | python/lsst/pex/config/wrap.py:123-131 | fields override every injected member; each injected member not shadowed by a field is set; validate only when the control has one; every other attribute is kept |
| `ConfigClass.ExistingClassIgnoresNameBaseDoc` | python/lsst/pex/config/wrap.py:63-66 | with an existing class the name, base and doc arguments change nothing, and the class keeps its name, bases and docstring |
| `ConfigClass.NewClassNameAndDoc` | python/lsst/pex/config/wrap.py:63-68 | a new class is named by the argument or the derived name, derives from `base`, has the doc argument (not the control's) as docstring, and the control links to it |
| `ConfigClass.MakeConfigClassOutcome` | python/lsst/pex/config/wrap.py:69-132 | makeConfigClass fails exactly when discovery does, with its error; otherwise every candidate is a field attribute |
| `ConfigClass.RewrapFindsSameFields` | python/lsst/pex/config/wrap.py:123 | the `ConfigClass` link adds no candidate, so wrapping again finds the same fields |
| `ConfigClass.PyClass.constructor` | python/lsst/pex/config/wrap.py:66 | a new class has the given name, the single base and the doc, and an empty namespace |
| `ConfigClass.SetMethods` | python/lsst/pex/config/wrap.py:124-129 | sets the control link and the injected methods, validate only when the control has one |
| `ConfigClass.SetFields` | python/lsst/pex/config/wrap.py:130-131 | sets one field attribute per field over the class's namespace |
| `ConfigClass.InjectInto` | python/lsst/pex/config/wrap.py:124-131 | the class's new state is Inject of its old state |
| `ConfigClass.MakeConfigClass` | python/lsst/pex/config/wrap.py:63-132 | the class's new state, the control's link and the error are MakeConfigClassSpec's; an existing class is changed in place and returned, and left untouched on error |
| `ConfigClass.Wrap` | python/lsst/pex/config/wrap.py:134-147 | the decorated class itself is returned, changed as makeConfigClass with that class specifies |
| `Transfer.ControlObject.constructor` | python/lsst/pex/config/wrap.py:96 | a default-constructed control holds the defaults |
| `Transfer.CollectDefaults` | python/lsst/pex/config/wrap.py:116-120 | the defaults dict has one entry per field, the default-constructed control's value |
| `Transfer.ConfigObject.constructor` | python/lsst/pex/config/wrap.py:113-122 | a new config holds InitValues: control defaults, keyword arguments on top |
| `Transfer.ConfigObject.Update` | python/lsst/pex/config/wrap.py:122 | the keyword arguments overwrite their fields and nothing else |
| `Transfer.ConfigObject.MakeControl` | python/lsst/pex/config/wrap.py:90-101 | returns a new control holding MadeControl of the config's values |
| `Transfer.ConfigObject.ReadControl` | python/lsst/pex/config/wrap.py:102-106 | every field now holds the control's value of that name |
| `Transfer.ConfigObject.Validate` | python/lsst/pex/config/wrap.py:107-112 | passes if and only if the field checks pass and the control's check accepts the control made from the config; fails on the field checks first |
| `Transfer.InitValues` | python/lsst/pex/config/wrap.py:113-122 | the values after `__init__(**kw)`; InitPrecedence states that keyword arguments win over defaults |
| `Transfer.MadeControl` | python/lsst/pex/config/wrap.py:90-101 | the members of the control makeControl returns; MadeControlFields, ReadThenMake and MakeThenRead state it |
| `Transfer.ReadValues` | python/lsst/pex/config/wrap.py:102-106 | the values after readControl; ReadThenMake and MakeThenRead state it round-trips with MadeControl |
| `Transfer.InitPrecedence` | python/lsst/pex/config/wrap.py:113-122 | after construction a keyword argument wins; every other field holds the control's default |
| `Transfer.MadeControlFields` | python/lsst/pex/config/wrap.py:90-101 | a None field leaves the control's default, any other value is copied, members that are not fields keep their defaults |
| `Transfer.ReadThenMake` | python/lsst/pex/config/wrap.py:90-106 | reading a control and making one back reproduces every field's value; members that are not fields come back at their defaults |
| `Transfer.MakeThenRead` | python/lsst/pex/config/wrap.py:90-106 | making a control and reading it back fills None fields with defaults and keeps the rest; a config without None is restored exactly |
| `Transfer.FreshConfigMakesDefaultControl` | python/lsst/pex/config/wrap.py:90-122 | a config built without keyword arguments makes a control equal to a default-constructed one |

## Left out

- Python reflection is modelled by maps and a parameter:
  - `dir`, `getattr` and `hasattr` become lookups in a name→attribute map;
  - the order `dir` lists attributes in is the parameter `order`, which may be any enumeration of the map;
  - the error raised then depends on that order, and the fields do not.
- Calling an attribute that is not a static accessor is taken to raise `TypeError` (`NotCallable`). Other Python exceptions are not modelled, for example a control without `__name__`.
- `type(name, bases, dict)`, `setattr` on the control and object identity:
  - `ctrl.ConfigClass = cls` is modelled as the updated control value returned in `linked`;
  - the config class is a class object changed in place;
  - aliasing between control classes and config classes is not modelled.
- The injected closures appear in the class namespace as tags (`MakeControlFn` and the like). Their behaviour is modelled separately, in `Transfer`, on one config instance. Method resolution order is not modelled.
- `Field`, `ListField` and the `Config` base class live in config.py, which is not part of this model:
  - a field is the tag `FieldSpec(doc, kind, optional)`;
  - field-level type checking and conversion on assignment are not modelled;
  - field history is not modelled;
  - fields of the config class other than the wrapped ones are not modelled.
- Transfer.ConfigObject.constructor: requires every keyword name to be a wrapped field. This excludes two kinds of name: fields the user added to the config class, which `Config.update` accepts, and unknown names, for which it raises `KeyError`. `Config.update` is in config.py, which is not part of this model.
- Transfer.ConfigObject.Update: requires every keyword name to be a wrapped field, excluding user-added fields and unknown names for the same reason.
- Transfer.ConfigObject.constructor: assumes `super(cls, self).__init__(**defaults)` (line 121) stores each control default in the field of that name. `Config.__init__` is in config.py, which is not part of this model.
- Transfer.ConfigObject.Validate: the base class's field checks and the C++ `validate()` are foreign code. They come in as the parameters `fieldsOk` and `controlOk`, and what they raise is reduced to which check failed.
- Value conversion between Python and C++ by the generated bindings is not modelled; values pass through unchanged. Floating-point values are modelled as `real`. So `MakeThenRead` and `ReadThenMake` do not see two effects: a C++ `float` member narrows a Python float, and a Python int out of a C++ `int`'s range does not fit the member.
- The `#` operator's escaping of `"` and `\` inside string or character literals is not modelled, because TYPE and MODULE arguments are type and module names.
- A macro argument containing a top-level comma is not modelled. An example is `std::map<int, int>`, which the preprocessor splits into two arguments.
- DOC is modelled as the string its literal denotes.
- C++ static-local initialisation and linkage of the generated accessors are not modelled. Each accessor is a constant string.
- The `_module_NAME` accessor is generated (`ReflectDecl`), but `wrap.py` never reads it.
- `wrap(ctrl)` returns the closure `decorate`. It is modelled as one method, `Wrap`, that takes both `ctrl` and the decorated class.
