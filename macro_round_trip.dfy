/**
  The two halves of the bridge put together: a control struct written with the config.h
  macros, seen through Python reflection, and what makeConfigClass's discovery loop
  (wrap.py, lines 69-89) recovers from it.
 */
module MacroRoundTrip {
  import opened Text
  import opened TypeNames
  import opened Discovery
  import ControlMacros

  type Decl = ControlMacros.Decl

  /** How one declared member shows up as a Python attribute. */
  function AttrOf(m: ControlMacros.Member): Attr {
    match m
    case StaticAccessor(_, v) => Accessor(v)
    case DataMember(_, _) => Attr.DataMember
  }

  /** The attributes a sequence of members gives the wrapped class. */
  function ReflectMembers(ms: seq<ControlMacros.Member>): map<string, Attr> {
    if ms == [] then map[] else ReflectMembers(ms[1..])[ms[0].name := AttrOf(ms[0])]
  }

  /** The attributes of every macro use in a struct. */
  function ReflectDecls(decls: seq<Decl>): map<string, Attr> {
    if decls == [] then map[] else ReflectDecls(decls[1..]) + ReflectMembers(ControlMacros.Expand(decls[0]))
  }

  /** The wrapped struct: its macro-declared members on top of whatever else Python finds on it. */
  function StructClass(name: string, doc: Option<string>, decls: seq<Decl>, other: map<string, Attr>): ControlClass {
    ControlClass(name, doc, other + ReflectDecls(decls))
  }

  function DeclaredNames(decls: seq<Decl>): set<string> {
    set i | 0 <= i < |decls| :: decls[i].name
  }

  /** The field a macro use is meant to produce, or the error its type spelling causes. */
  function DeclaredField(d: Decl): Result<FieldSpec, Error> {
    match Classify(ControlMacros.Stringize(d.ctype))
    case Ok(kind) => Ok(FieldSpec(d.doc, kind, true))
    case Err(e) => Err(e)
  }

  /**
    What the round trip needs: the struct compiles, no field NAME starts with `_type_`, and
    no other attribute does either.
   */
  predicate WellDeclared(decls: seq<Decl>, other: map<string, Attr>) {
    && ControlMacros.Compiles(decls)
    && (forall i :: 0 <= i < |decls| ==> !HasPrefix(decls[i].name, TYPE_PREFIX))
    && (forall x :: x in other ==> !HasPrefix(x, TYPE_PREFIX))
  }

  /** Python sees each generated accessor return its string and each NAME as a data member. */
  lemma ReflectDecl(d: Decl)
    ensures var r := ReflectMembers(ControlMacros.Expand(d)); var n := d.name;
      && r.Keys == ControlMacros.Names(d)
      && r[DOC_PREFIX + n] == Accessor(d.doc)
      && r[TYPE_PREFIX + n] == Accessor(ControlMacros.Stringize(d.ctype))
      && r[n] == Attr.DataMember
      && (d.NestedControlField? ==> r[ControlMacros.MODULE_PREFIX + n] == Accessor(ControlMacros.Stringize(d.pyModule)))
  {
    var n := d.name;
    var ms := ControlMacros.Expand(d);
    ControlMacros.PrefixesDiffer(n, n);
    assert |DOC_PREFIX + n| != |n| && |TYPE_PREFIX + n| != |n| && |ControlMacros.MODULE_PREFIX + n| != |n|;
    var last := ms[|ms| - 1];
    var tail := map[last.name := AttrOf(last)];
    assert ReflectMembers([last]) == tail by {
      assert [last][1..] == [];
    }
    var r := ReflectMembers(ms);
    var s1 := ms[1..];
    assert r == ReflectMembers(s1)[ms[0].name := AttrOf(ms[0])];
    if d.ControlField? {
      assert s1[0] == ms[1] && s1[1..] == [last];
      assert ReflectMembers(s1) == tail[ms[1].name := AttrOf(ms[1])];
    } else {
      var s2 := s1[1..];
      assert s1[0] == ms[1] && s2[0] == ms[2] && s2[1..] == [last];
      assert ReflectMembers(s2) == tail[ms[2].name := AttrOf(ms[2])];
      assert ReflectMembers(s1) == ReflectMembers(s2)[ms[1].name := AttrOf(ms[1])];
    }
    forall x
      ensures x in ControlMacros.Names(d) <==> x in r
    {
      ControlMacros.NamesOf(d, x);
    }
  }

  lemma {:induction false} ReflectKeys(decls: seq<Decl>, x: string)
    ensures x in ReflectDecls(decls) <==> exists i :: 0 <= i < |decls| && x in ControlMacros.Names(decls[i])
  {
    if decls != [] {
      ReflectKeys(decls[1..], x);
      ReflectDecl(decls[0]);
      if exists i :: 0 <= i < |decls| && x in ControlMacros.Names(decls[i]) {
        var i :| 0 <= i < |decls| && x in ControlMacros.Names(decls[i]);
        if i > 0 {
          assert decls[1..][i - 1] == decls[i];
        }
      }
      if exists i :: 0 <= i < |decls[1..]| && x in ControlMacros.Names(decls[1..][i]) {
        var i :| 0 <= i < |decls[1..]| && x in ControlMacros.Names(decls[1..][i]);
        assert decls[i + 1] == decls[1..][i];
      }
    }
  }

  /** In a struct that compiles, each member's attribute is the one its own macro use gives. */
  lemma {:induction false} ReflectLookup(decls: seq<Decl>, i: nat, x: string)
    requires ControlMacros.Compiles(decls)
    requires i < |decls| && x in ControlMacros.Names(decls[i])
    ensures x in ReflectDecls(decls) && x in ReflectMembers(ControlMacros.Expand(decls[i]))
    ensures ReflectDecls(decls)[x] == ReflectMembers(ControlMacros.Expand(decls[i]))[x]
  {
    ReflectDecl(decls[0]);
    ReflectDecl(decls[i]);
    if i > 0 {
      assert ControlMacros.Names(decls[0]) !! ControlMacros.Names(decls[i]);
      assert decls[1..][i - 1] == decls[i];
      assert ControlMacros.Compiles(decls[1..]) by {
        forall a, b | 0 <= a < b < |decls[1..]|
          ensures ControlMacros.Names(decls[1..][a]) !! ControlMacros.Names(decls[1..][b])
        {
          assert decls[1..][a] == decls[a + 1] && decls[1..][b] == decls[b + 1];
        }
      }
      ReflectLookup(decls[1..], i - 1, x);
    }
  }

  /** Every declared NAME is a discovery candidate, and under WellDeclared nothing else is. */
  lemma CandidatesAreDeclared(name: string, doc: Option<string>, decls: seq<Decl>, other: map<string, Attr>)
    requires WellDeclared(decls, other)
    ensures Candidates(StructClass(name, doc, decls, other)) == DeclaredNames(decls)
  {
    var ctrl := StructClass(name, doc, decls, other);
    forall k | k in DeclaredNames(decls)
      ensures k in Candidates(ctrl)
    {
      var i :| 0 <= i < |decls| && decls[i].name == k;
      ControlMacros.NamesOf(decls[i], k);
      ControlMacros.NamesOf(decls[i], DOC_PREFIX + k);
      ControlMacros.NamesOf(decls[i], TYPE_PREFIX + k);
      ReflectKeys(decls, k);
      ReflectKeys(decls, DOC_PREFIX + k);
      ReflectKeys(decls, TYPE_PREFIX + k);
    }
    forall k | k in Candidates(ctrl)
      ensures k in DeclaredNames(decls)
    {
      var x := TYPE_PREFIX + k;
      TypeAttrName(k);
      assert x !in other;
      ReflectKeys(decls, x);
      var i :| 0 <= i < |decls| && x in ControlMacros.Names(decls[i]);
      var n := decls[i].name;
      ControlMacros.NamesOf(decls[i], x);
      ControlMacros.PrefixesDiffer(n, k);
      ControlMacros.PrefixesDiffer(k, n);
      assert x != n by {
        assert !HasPrefix(n, TYPE_PREFIX);
      }
      assert x == TYPE_PREFIX + n;
      ControlMacros.PrefixedNameDetermines(TYPE_PREFIX, k, n);
    }
  }

  /** Discovery builds, for each declared NAME, exactly the field its macro use describes. */
  lemma FieldForDeclared(name: string, doc: Option<string>, decls: seq<Decl>, other: map<string, Attr>, i: nat)
    requires WellDeclared(decls, other) && i < |decls|
    ensures IsCandidate(StructClass(name, doc, decls, other), decls[i].name)
    ensures FieldFor(StructClass(name, doc, decls, other), decls[i].name) == DeclaredField(decls[i])
  {
    var ctrl := StructClass(name, doc, decls, other);
    var d := decls[i];
    var n := d.name;
    ControlMacros.NamesOf(d, n);
    ControlMacros.NamesOf(d, DOC_PREFIX + n);
    ControlMacros.NamesOf(d, TYPE_PREFIX + n);
    ReflectLookup(decls, i, n);
    ReflectLookup(decls, i, DOC_PREFIX + n);
    ReflectLookup(decls, i, TYPE_PREFIX + n);
    ReflectDecl(d);
    assert ctrl.attrs[DOC_PREFIX + n] == Accessor(d.doc);
    assert ctrl.attrs[TYPE_PREFIX + n] == Accessor(ControlMacros.Stringize(d.ctype));
  }

  /**
    The round trip: wrapping a well-declared struct succeeds exactly when every declared
    type spelling is supported, and then yields one optional field per macro use, named
    by its NAME and documented by its DOC, whatever order `dir` lists the attributes in.
   */
  lemma DiscoverDeclared(name: string, doc: Option<string>, decls: seq<Decl>, other: map<string, Attr>, order: seq<string>)
    requires WellDeclared(decls, other)
    requires Enumerates(StructClass(name, doc, decls, other), order)
    ensures var r := Discover(StructClass(name, doc, decls, other), order);
      && (r.Ok? <==> forall i :: 0 <= i < |decls| ==> Classify(ControlMacros.Stringize(decls[i].ctype)).Ok?)
      && (r.Ok? ==> r.value.Keys == DeclaredNames(decls))
      && (r.Ok? ==> forall i :: 0 <= i < |decls| ==> Ok(r.value[decls[i].name]) == DeclaredField(decls[i]))
  {
    var ctrl := StructClass(name, doc, decls, other);
    var r := Discover(ctrl, order);
    CandidatesAreDeclared(name, doc, decls, other);
    forall i | 0 <= i < |decls|
      ensures IsCandidate(ctrl, decls[i].name) && FieldFor(ctrl, decls[i].name) == DeclaredField(decls[i])
      ensures decls[i].name in Candidates(ctrl)
    {
      FieldForDeclared(name, doc, decls, other, i);
    }
  }

  /** A nested control field (its type a class name) makes the whole wrap fail, as wrap.py's docstring says. */
  lemma NestedControlRejected(name: string, doc: Option<string>, decls: seq<Decl>, other: map<string, Attr>,
                              order: seq<string>, i: nat)
    requires WellDeclared(decls, other)
    requires Enumerates(StructClass(name, doc, decls, other), order)
    requires i < |decls| && decls[i].NestedControlField?
    requires var t := ControlMacros.Stringize(decls[i].ctype);
      DtypeOf(t).None? && forall j :: 0 <= j < |t| ==> t[j] != '<'
    ensures Discover(StructClass(name, doc, decls, other), order).Err?
  {
    ClassifyRejectsClassName(ControlMacros.Stringize(decls[i].ctype));
    DiscoverDeclared(name, doc, decls, other, order);
  }

  /** Three fields named `m`, `_type__doc_m` and `_doc__doc_m`, all of one type. */
  function Clash(m: string, t: seq<ControlMacros.PpToken>, doc: string): seq<Decl> {
    [ControlMacros.ControlField(m, t, doc),
     ControlMacros.ControlField(TYPE_PREFIX + (DOC_PREFIX + m), t, doc),
     ControlMacros.ControlField(DOC_PREFIX + (DOC_PREFIX + m), t, doc)]
  }

  lemma ClashCompiles(m: string, t: seq<ControlMacros.PpToken>, doc: string)
    ensures ControlMacros.Compiles(Clash(m, t, doc))
  {
    var decls := Clash(m, t, doc);
    var x, y := TYPE_PREFIX + (DOC_PREFIX + m), DOC_PREFIX + (DOC_PREFIX + m);
    ControlMacros.PrefixesDiffer(x, y);
    forall i, j, z | 0 <= i < j < 3 && z in ControlMacros.Names(decls[i]) && z in ControlMacros.Names(decls[j])
      ensures false
    {
      ControlMacros.NamesOf(decls[i], z);
      ControlMacros.NamesOf(decls[j], z);
    }
  }

  lemma ClashAttrs(m: string, t: seq<ControlMacros.PpToken>, doc: string, name: string, cdoc: Option<string>)
    ensures var ctrl := StructClass(name, cdoc, Clash(m, t, doc), map[]); var k := DOC_PREFIX + m;
      && IsCandidate(ctrl, k) && k in ctrl.attrs && ctrl.attrs[DOC_PREFIX + k] == Attr.DataMember
  {
    var decls := Clash(m, t, doc);
    ClashCompiles(m, t, doc);
    var k := DOC_PREFIX + m;
    ControlMacros.NamesOf(decls[0], k);
    ControlMacros.NamesOf(decls[1], TYPE_PREFIX + k);
    ControlMacros.NamesOf(decls[2], DOC_PREFIX + k);
    ReflectLookup(decls, 0, k);
    ReflectLookup(decls, 1, TYPE_PREFIX + k);
    ReflectLookup(decls, 2, DOC_PREFIX + k);
    ReflectDecl(decls[2]);
  }

  /**
    Why WellDeclared excludes NAMEs starting with `_type_`: this struct compiles and every
    one of its types may be supported, yet discovery finds the undeclared candidate
    `_doc_m` (its `_type_`, plain and `_doc_` attributes all exist) and raises when it
    calls the data member `_doc__doc_m`.
   */
  lemma TypePrefixedNameNeeded(m: string, t: seq<ControlMacros.PpToken>, doc: string, name: string,
                               cdoc: Option<string>)
    ensures var decls := Clash(m, t, doc); var ctrl := StructClass(name, cdoc, decls, map[]);
      && ControlMacros.Compiles(decls)
      && DOC_PREFIX + m in Candidates(ctrl) && DOC_PREFIX + m !in DeclaredNames(decls)
      && FieldFor(ctrl, DOC_PREFIX + m) == Err(NotCallable(DOC_PREFIX + (DOC_PREFIX + m)))
  {
    var decls := Clash(m, t, doc);
    ClashCompiles(m, t, doc);
    ClashAttrs(m, t, doc, name, cdoc);
    var k := DOC_PREFIX + m;
    assert |k| != |decls[0].name| && |k| != |decls[1].name| && |k| != |decls[2].name|;
  }
}
