/**
  The two macros of include/lsst/pex/config.h. `LSST_CONTROL_FIELD(NAME, TYPE, DOC)` declares,
  inside a control struct, a static accessor `_doc_NAME()` returning DOC, a static accessor
  `_type_NAME()` returning the spelling of TYPE made by the `#` operator, and the data member
  `TYPE NAME`. `LSST_NESTED_CONTROL_FIELD(NAME, MODULE, TYPE, DOC)` adds `_module_NAME()`
  returning the spelling of MODULE.
 */
module ControlMacros {
  import opened Text

  const DOC_PREFIX := "_doc_"
  const TYPE_PREFIX := "_type_"
  const MODULE_PREFIX := "_module_"

  /** A preprocessing token of a macro argument, and whether white space came before it. */
  datatype PpToken = PpToken(spelling: string, spaceBefore: bool)

  /** Identifiers and punctuators, the tokens a type or module argument is made of, hold no white space. */
  predicate IsToken(t: PpToken) {
    t.spelling != [] && NoSpace(t.spelling)
  }

  predicate AllTokens(ts: seq<PpToken>) {
    forall i :: 0 <= i < |ts| ==> IsToken(ts[i])
  }

  /**
    The `#` operator (section 6.10.3.2 of the C standard, which C++ adopts): the argument's
    tokens spelled in order, white space between two tokens becoming one space and white
    space before the first or after the last dropped.
   */
  function Stringize(arg: seq<PpToken>): string {
    if arg == [] then "" else arg[0].spelling + Glue(arg[1..])
  }

  /** The tokens after the first, each preceded by one space when white space came before it. */
  function Glue(ts: seq<PpToken>): string {
    if ts == [] then "" else (if ts[0].spaceBefore then " " else "") + (ts[0].spelling + Glue(ts[1..]))
  }

  /** The spellings run together. */
  function Spellings(ts: seq<PpToken>): string {
    if ts == [] then "" else ts[0].spelling + Spellings(ts[1..])
  }

  /** No white space at either end, and every white-space run inside is a single ' '. */
  predicate SingleSpaced(s: string) {
    forall i :: 0 <= i < |s| && IsSpace(s[i]) ==> s[i] == ' ' && 0 < i && i + 1 < |s| && !IsSpace(s[i + 1])
  }

  lemma {:induction false} GlueShape(ts: seq<PpToken>)
    requires AllTokens(ts)
    ensures Glue(ts) == [] || !IsSpace(Glue(ts)[|Glue(ts)| - 1])
    ensures forall i :: 0 <= i < |Glue(ts)| && IsSpace(Glue(ts)[i]) ==>
      Glue(ts)[i] == ' ' && i + 1 < |Glue(ts)| && !IsSpace(Glue(ts)[i + 1])
  {
    if ts != [] {
      var sp := ts[0].spelling;
      var rest := Glue(ts[1..]);
      GlueShape(ts[1..]);
      var w := sp + rest;
      assert IsToken(ts[0]);
      assert !IsSpace(w[|w| - 1]) by {
        if rest == [] {
          assert w[|w| - 1] == sp[|sp| - 1];
        } else {
          assert w[|w| - 1] == rest[|rest| - 1];
        }
      }
      assert forall i :: 0 <= i < |w| && IsSpace(w[i]) ==> w[i] == ' ' && i + 1 < |w| && !IsSpace(w[i + 1]) by {
        assert forall j :: 0 <= j < |sp| ==> w[j] == sp[j];
        forall i | 0 <= i < |w| && IsSpace(w[i])
          ensures w[i] == ' ' && i + 1 < |w| && !IsSpace(w[i + 1])
        {
          assert i >= |sp|;
          assert w[i] == rest[i - |sp|];
          assert i + 1 < |w| ==> w[i + 1] == rest[i + 1 - |sp|];
        }
      }
      var pre := if ts[0].spaceBefore then " " else "";
      var g := pre + w;
      assert Glue(ts) == g;
      assert g[|g| - 1] == w[|w| - 1];
      forall i | 0 <= i < |g| && IsSpace(g[i])
        ensures g[i] == ' ' && i + 1 < |g| && !IsSpace(g[i + 1])
      {
        if i < |pre| {
          assert g[i + 1] == w[0] == sp[0];
        } else {
          assert g[i] == w[i - |pre|];
          assert i + 1 < |g| ==> g[i + 1] == w[i + 1 - |pre|];
        }
      }
    }
  }

  /** Stringizing never leaves white space at an end nor two white-space characters in a row. */
  lemma StringizeSingleSpaced(arg: seq<PpToken>)
    requires AllTokens(arg)
    ensures SingleSpaced(Stringize(arg))
  {
    if arg != [] {
      var sp := arg[0].spelling;
      var g := Glue(arg[1..]);
      var s := sp + g;
      assert IsToken(arg[0]);
      GlueShape(arg[1..]);
      assert forall j :: 0 <= j < |sp| ==> s[j] == sp[j];
      forall i | 0 <= i < |s| && IsSpace(s[i])
        ensures s[i] == ' ' && 0 < i && i + 1 < |s| && !IsSpace(s[i + 1])
      {
        assert i >= |sp|;
        assert s[i] == g[i - |sp|];
        assert i + 1 < |s| ==> s[i + 1] == g[i + 1 - |sp|];
      }
    }
  }

  /** An argument written without white space between its tokens is spelled exactly as written. */
  lemma {:induction false} StringizeTight(arg: seq<PpToken>)
    requires forall i :: 1 <= i < |arg| ==> !arg[i].spaceBefore
    ensures Stringize(arg) == Spellings(arg)
  {
    if arg != [] {
      GlueTight(arg[1..]);
    }
  }

  lemma {:induction false} GlueTight(ts: seq<PpToken>)
    requires forall i :: 0 <= i < |ts| ==> !ts[i].spaceBefore
    ensures Glue(ts) == Spellings(ts)
  {
    if ts != [] {
      assert !ts[0].spaceBefore;
      GlueTight(ts[1..]);
    }
  }

  /** One use of either macro inside a control struct. */
  datatype Decl =
    | ControlField(name: string, ctype: seq<PpToken>, doc: string)
    | NestedControlField(name: string, pyModule: seq<PpToken>, ctype: seq<PpToken>, doc: string)

  /** A member the expansion declares: a static accessor returning a constant string, or a data member. */
  datatype Member =
    | StaticAccessor(name: string, value: string)
    | DataMember(name: string, ctype: seq<PpToken>)

  /** What one macro use expands to, member by member. */
  function Expand(d: Decl): seq<Member> {
    var docAccessor := StaticAccessor(DOC_PREFIX + d.name, d.doc);
    var typeAccessor := StaticAccessor(TYPE_PREFIX + d.name, Stringize(d.ctype));
    match d
    case ControlField(_, _, _) =>
      [docAccessor, typeAccessor, DataMember(d.name, d.ctype)]
    case NestedControlField(_, m, _, _) =>
      [docAccessor, typeAccessor, StaticAccessor(MODULE_PREFIX + d.name, Stringize(m)), DataMember(d.name, d.ctype)]
  }

  /** The names of the members one macro use declares. */
  function Names(d: Decl): set<string> {
    set m | m in Expand(d) :: m.name
  }

  predicate UniqueNames(ms: seq<Member>) {
    forall i, j :: 0 <= i < j < |ms| ==> ms[i].name != ms[j].name
  }

  /**
    A class may not declare two members of the same name. Within one macro use the names
    always differ (ExpandNamesDistinct), so the struct compiles when no two uses share one.
   */
  predicate Compiles(decls: seq<Decl>) {
    forall i, j :: 0 <= i < j < |decls| ==> Names(decls[i]) !! Names(decls[j])
  }

  /** The three prefixes differ in their second character. */
  lemma PrefixesDiffer(a: string, b: string)
    ensures DOC_PREFIX + a != TYPE_PREFIX + b
    ensures DOC_PREFIX + a != MODULE_PREFIX + b
    ensures TYPE_PREFIX + a != MODULE_PREFIX + b
  {
    assert (DOC_PREFIX + a)[1] == 'd';
    assert (TYPE_PREFIX + b)[1] == 't';
    assert (MODULE_PREFIX + b)[1] == 'm';
  }

  /** A macro use never declares the same name twice. */
  lemma ExpandNamesDistinct(d: Decl)
    ensures UniqueNames(Expand(d))
  {
    var n := d.name;
    PrefixesDiffer(n, n);
    assert |DOC_PREFIX + n| != |n| && |TYPE_PREFIX + n| != |n| && |MODULE_PREFIX + n| != |n|;
  }

  lemma NamesOf(d: Decl, x: string)
    ensures x in Names(d) <==>
      x == DOC_PREFIX + d.name || x == TYPE_PREFIX + d.name || x == d.name ||
      (d.NestedControlField? && x == MODULE_PREFIX + d.name)
  {
    var ms := Expand(d);
    if x in Names(d) {
      var m :| m in ms && m.name == x;
    }
    if d.ControlField? {
      assert ms[0].name == DOC_PREFIX + d.name && ms[1].name == TYPE_PREFIX + d.name && ms[2].name == d.name;
    } else {
      assert ms[0].name == DOC_PREFIX + d.name && ms[1].name == TYPE_PREFIX + d.name;
      assert ms[2].name == MODULE_PREFIX + d.name && ms[3].name == d.name;
    }
  }

  lemma PrefixedNameDetermines(p: string, a: string, b: string)
    requires p + a == p + b
    ensures a == b
  {
    assert a == (p + a)[|p|..];
  }

  lemma PrefixedIsNotPlain(p: string, a: string, b: string)
    requires p != [] && p[0] == '_' && !HasPrefix(b, "_")
    ensures p + a != b
  {
    assert (p + a)[0] == '_';
  }

  /** Two macro uses that declare a common name were given the same NAME, when no NAME starts with '_'. */
  lemma SharedNameSameDecl(d1: Decl, d2: Decl, x: string)
    requires !HasPrefix(d1.name, "_") && !HasPrefix(d2.name, "_")
    requires x in Names(d1) && x in Names(d2)
    ensures d1.name == d2.name
  {
    NamesOf(d1, x);
    NamesOf(d2, x);
    var a, b := d1.name, d2.name;
    PrefixesDiffer(a, b);
    PrefixesDiffer(b, a);
    PrefixedIsNotPlain(DOC_PREFIX, a, b);
    PrefixedIsNotPlain(TYPE_PREFIX, a, b);
    PrefixedIsNotPlain(MODULE_PREFIX, a, b);
    PrefixedIsNotPlain(DOC_PREFIX, b, a);
    PrefixedIsNotPlain(TYPE_PREFIX, b, a);
    PrefixedIsNotPlain(MODULE_PREFIX, b, a);
    if x == DOC_PREFIX + a && x == DOC_PREFIX + b {
      PrefixedNameDetermines(DOC_PREFIX, a, b);
    }
    if x == TYPE_PREFIX + a && x == TYPE_PREFIX + b {
      PrefixedNameDetermines(TYPE_PREFIX, a, b);
    }
    if x == MODULE_PREFIX + a && x == MODULE_PREFIX + b {
      PrefixedNameDetermines(MODULE_PREFIX, a, b);
    }
  }

  /** A struct whose field NAMEs are distinct and do not start with '_' compiles. */
  lemma PlainNamesCompile(decls: seq<Decl>)
    requires forall i :: 0 <= i < |decls| ==> !HasPrefix(decls[i].name, "_")
    requires forall i, j :: 0 <= i < j < |decls| ==> decls[i].name != decls[j].name
    ensures Compiles(decls)
  {
    forall i, j | 0 <= i < j < |decls|
      ensures Names(decls[i]) !! Names(decls[j])
    {
      forall x | x in Names(decls[i]) && x in Names(decls[j])
        ensures false
      {
        SharedNameSameDecl(decls[i], decls[j], x);
      }
    }
  }

  /** Conversely, a struct that compiles never declares the same field NAME twice. */
  lemma CompilesDistinctNames(decls: seq<Decl>)
    requires Compiles(decls)
    ensures forall i, j :: 0 <= i < j < |decls| ==> decls[i].name != decls[j].name
  {
    forall i, j | 0 <= i < j < |decls|
      ensures decls[i].name != decls[j].name
    {
      NamesOf(decls[i], decls[i].name);
      NamesOf(decls[j], decls[j].name);
    }
  }
}
