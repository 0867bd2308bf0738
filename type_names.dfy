/**
  The classifier of C++ type spellings in wrap.py: the five-entry `_dtypeMap` and the
  container pattern `(std::)?(vector|list)<\s*(?P<type>[a-z:]+)\s*>`, applied with
  `re.match` (anchored at the start only, so anything after the closing `>` is ignored).
 */
module TypeNames {
  import opened Text

  /** The Python types a wrapped field can hold: bool, int, float and str. */
  datatype DType = Bool | Int | Float | Str

  /** The field class chosen for a control member: a plain `Field` or a `ListField` of scalars. */
  datatype FieldKind = Scalar(dtype: DType) | ListOf(itemType: DType)

  /** The `TypeError`s makeConfigClass raises. */
  datatype Error =
    | CouldNotParse(ctype: string)   // "Could not parse field type '...'"
    | NotCallable(attr: string)      // a `_doc_`/`_type_` attribute that is not a static accessor

  /** `_dtypeMap`: the scalar C++ spellings and the Python type each maps to. */
  function DtypeOf(ctype: string): Option<DType> {
    if ctype == "bool" then Some(Bool)
    else if ctype == "int" then Some(Int)
    else if ctype == "double" then Some(Float)
    else if ctype == "float" then Some(Float)
    else if ctype == "std::string" then Some(Str)
    else None
  }

  /** The table has exactly five keys, and no key spells a container. */
  lemma ScalarTable(ctype: string)
    ensures DtypeOf(ctype).Some? <==>
      ctype == "bool" || ctype == "int" || ctype == "double" || ctype == "float" || ctype == "std::string"
    ensures DtypeOf(ctype).Some? ==> forall i :: 0 <= i < |ctype| ==> ctype[i] != '<'
  {
  }

  /** The characters of the class `[a-z:]`. */
  predicate IsTypeChar(c: char) {
    'a' <= c <= 'z' || c == ':'
  }

  /** Length of the longest prefix of `s` matched by `\s*`. */
  function SpaceSpan(s: string): (n: nat)
    ensures n <= |s| && AllSpace(s[..n])
    ensures n < |s| ==> !IsSpace(s[n])
  {
    if s != [] && IsSpace(s[0]) then 1 + SpaceSpan(s[1..]) else 0
  }

  /** Length of the longest prefix of `s` matched by `[a-z:]*`. */
  function TypeSpan(s: string): (n: nat)
    ensures n <= |s| && forall i :: 0 <= i < n ==> IsTypeChar(s[i])
    ensures n < |s| ==> !IsTypeChar(s[n])
  {
    if s != [] && IsTypeChar(s[0]) then 1 + TypeSpan(s[1..]) else 0
  }

  /** Length of the optional `(std::)?` group at the start of `s`. */
  function StdLength(s: string): nat {
    if HasPrefix(s, "std::") then 5 else 0
  }

  /** Length of `vector<` or `list<` at the start of `t`, or 0 when neither is there. */
  function OpenLength(t: string): nat {
    if HasPrefix(t, "vector<") then 7 else if HasPrefix(t, "list<") then 5 else 0
  }

  /** The `type` group when `\s*(?P<type>[a-z:]+)\s*>` matches at the start of `u`. */
  function MatchItem(u: string): Option<string> {
    var v := u[SpaceSpan(u)..];
    var n := TypeSpan(v);
    var x := v[n..];
    var w := SpaceSpan(x);
    if 0 < n && w < |x| && x[w] == '>' then Some(v[..n]) else None
  }

  /**
    `_containerRegex.match(ctype)`: the `type` group when the pattern matches at the start
    of `ctype`. The greedy runs are the only candidates, because `[a-z:]`, `\s` and `>` are
    pairwise disjoint; the lemmas below prove this against the pattern's language.
   */
  function MatchContainer(ctype: string): Option<string> {
    var t := ctype[StdLength(ctype)..];
    var b := OpenLength(t);
    if b == 0 then None else MatchItem(t[b..])
  }

  /** One way of reading a string as the container pattern followed by arbitrary text. */
  datatype ContainerSpelling = ContainerSpelling(
    std: bool, container: string, space1: string, item: string, space2: string, tail: string)

  predicate WellFormed(p: ContainerSpelling) {
    && (p.container == "vector" || p.container == "list")
    && AllSpace(p.space1) && AllSpace(p.space2)
    && p.item != [] && forall i :: 0 <= i < |p.item| ==> IsTypeChar(p.item[i])
  }

  function Spell(p: ContainerSpelling): string {
    (if p.std then "std::" else "") + (p.container + ("<" + (p.space1 + (p.item + (p.space2 + (">" + p.tail))))))
  }

  /**
    The classifier (wrap.py, lines 78-88): a scalar spelling gives a `Field`; otherwise a
    container spelling whose item is a scalar spelling gives a `ListField`; anything else
    raises `TypeError`.
   */
  function Classify(ctype: string): (r: Result<FieldKind, Error>)
    ensures r.Err? ==> r.error == CouldNotParse(ctype)
    ensures DtypeOf(ctype).Some? ==> r == Ok(Scalar(DtypeOf(ctype).value))
    ensures r.Ok? && r.value.ListOf? ==>
      MatchContainer(ctype).Some? && DtypeOf(MatchContainer(ctype).value) == Some(r.value.itemType)
  {
    match DtypeOf(ctype)
    case Some(t) => Ok(Scalar(t))
    case None =>
      match MatchContainer(ctype)
      case None => Err(CouldNotParse(ctype))
      case Some(item) =>
        match DtypeOf(item)
        case None => Err(CouldNotParse(ctype))
        case Some(t) => Ok(ListOf(t))
  }

  lemma {:induction false} SpaceSpanSkip(w: string, x: string)
    requires AllSpace(w)
    ensures SpaceSpan(w + x) == |w| + SpaceSpan(x)
  {
    if w != [] {
      var s := w + x;
      assert s[0] == w[0] && IsSpace(w[0]);
      assert s[1..] == w[1..] + x;
      SpaceSpanSkip(w[1..], x);
      assert SpaceSpan(s) == 1 + SpaceSpan(s[1..]);
    } else {
      assert w + x == x;
    }
  }

  lemma {:induction false} TypeSpanSkip(w: string, x: string)
    requires forall i :: 0 <= i < |w| ==> IsTypeChar(w[i])
    ensures TypeSpan(w + x) == |w| + TypeSpan(x)
  {
    if w != [] {
      var s := w + x;
      assert s[0] == w[0] && IsTypeChar(w[0]);
      assert s[1..] == w[1..] + x;
      TypeSpanSkip(w[1..], x);
      assert TypeSpan(s) == 1 + TypeSpan(s[1..]);
    } else {
      assert w + x == x;
    }
  }

  lemma MatchItemComplete(space1: string, item: string, space2: string, tail: string)
    requires AllSpace(space1) && AllSpace(space2)
    requires item != [] && forall i :: 0 <= i < |item| ==> IsTypeChar(item[i])
    ensures MatchItem(space1 + (item + (space2 + (">" + tail)))) == Some(item)
  {
    var close := ">" + tail;
    var x := space2 + close;
    var v := item + x;
    var u := space1 + v;
    SpaceSpanSkip(space1, v);
    assert v[0] == item[0] && IsTypeChar(v[0]);
    assert SpaceSpan(v) == 0;
    assert u[SpaceSpan(u)..] == v;
    SpaceSpanSkip(space2, close);
    assert close[0] == '>';
    assert SpaceSpan(close) == 0;
    assert x != [] && (x[0] == '>' || IsSpace(x[0]));
    assert TypeSpan(x) == 0;
    TypeSpanSkip(item, x);
    assert v[TypeSpan(v)..] == x;
    assert v[..TypeSpan(v)] == item;
    assert x[SpaceSpan(x)] == '>';
  }

  lemma MatchItemSound(u: string) returns (space1: string, space2: string, tail: string)
    requires MatchItem(u).Some?
    ensures var item := MatchItem(u).value;
      && AllSpace(space1) && AllSpace(space2)
      && item != [] && (forall i :: 0 <= i < |item| ==> IsTypeChar(item[i]))
      && u == space1 + (item + (space2 + (">" + tail)))
  {
    var k := SpaceSpan(u);
    var v := u[k..];
    var n := TypeSpan(v);
    var x := v[n..];
    var w := SpaceSpan(x);
    var item := v[..n];
    space1, space2, tail := u[..k], x[..w], x[w + 1..];
    assert x == space2 + (">" + tail);
    assert v == item + x;
    assert u == space1 + v;
  }

  lemma StdStep(std: bool, t: string)
    requires t != [] && (t[0] == 'v' || t[0] == 'l')
    ensures var s := (if std then "std::" else "") + t; s[StdLength(s)..] == t
  {
    var s := (if std then "std::" else "") + t;
    if std {
      PrefixOfConcat("std::", t);
    } else {
      assert s[0] != 's';
    }
  }

  lemma OpenStep(container: string, u: string)
    requires container == "vector" || container == "list"
    ensures var t := container + ("<" + u); 0 < OpenLength(t) && t[OpenLength(t)..] == u
  {
    var t := container + ("<" + u);
    if container == "vector" {
      assert t == "vector<" + u;
      PrefixOfConcat("vector<", u);
    } else {
      assert t == "list<" + u;
      assert t[0] == 'l';
      PrefixOfConcat("list<", u);
    }
  }

  /** Every string in the pattern's language is matched, with its own item as the `type` group. */
  lemma MatchComplete(p: ContainerSpelling)
    requires WellFormed(p)
    ensures MatchContainer(Spell(p)) == Some(p.item)
  {
    var u := p.space1 + (p.item + (p.space2 + (">" + p.tail)));
    var t := p.container + ("<" + u);
    assert t[0] == p.container[0];
    StdStep(p.std, t);
    OpenStep(p.container, u);
    MatchItemComplete(p.space1, p.item, p.space2, p.tail);
  }

  lemma OpenSplit(t: string) returns (container: string, u: string)
    requires OpenLength(t) != 0
    ensures container == "vector" || container == "list"
    ensures t == container + ("<" + u) && u == t[OpenLength(t)..]
  {
    var b := OpenLength(t);
    assert b <= |t|;
    u := t[b..];
    assert t == t[..b] + u;
    if b == 7 {
      container := "vector";
      assert t[..b] == "vector<";
    } else {
      container := "list";
      assert t[..b] == "list<";
    }
    assert t == (container + "<") + u;
  }

  lemma StdSplit(ctype: string)
    ensures var a := StdLength(ctype); ctype == (if a == 5 then "std::" else "") + ctype[a..]
  {
    var a := StdLength(ctype);
    assert ctype == ctype[..a] + ctype[a..];
    if a == 5 {
      assert ctype[..a] == "std::";
    } else {
      assert ctype[..a] == [];
    }
  }

  lemma OpenSound(ctype: string) returns (std: bool, container: string, u: string)
    requires MatchContainer(ctype).Some?
    ensures container == "vector" || container == "list"
    ensures ctype == (if std then "std::" else "") + (container + ("<" + u))
    ensures MatchItem(u) == MatchContainer(ctype)
  {
    var a := StdLength(ctype);
    StdSplit(ctype);
    std := a == 5;
    container, u := OpenSplit(ctype[a..]);
  }

  /** Whatever the matcher accepts is in the pattern's language, with the group it returns. */
  lemma MatchSound(ctype: string)
    requires MatchContainer(ctype).Some?
    ensures exists p :: WellFormed(p) && Spell(p) == ctype && p.item == MatchContainer(ctype).value
  {
    var std, container, u := OpenSound(ctype);
    var space1, space2, tail := MatchItemSound(u);
    var p := ContainerSpelling(std, container, space1, MatchItem(u).value, space2, tail);
    assert WellFormed(p) && Spell(p) == ctype;
  }

  /** When the matcher says no, no reading of the string fits the pattern. */
  lemma MatchNone(ctype: string)
    requires MatchContainer(ctype).None?
    ensures forall p :: WellFormed(p) ==> Spell(p) != ctype
  {
    forall p | WellFormed(p)
      ensures Spell(p) != ctype
    {
      MatchComplete(p);
    }
  }

  /** A container spelling is never one of the five scalar spellings. */
  lemma ContainerIsNotScalar(p: ContainerSpelling)
    requires WellFormed(p)
    ensures DtypeOf(Spell(p)).None?
  {
    var s := Spell(p);
    var i := (if p.std then 5 else 0) + |p.container|;
    assert s[i] == '<';
    ScalarTable(s);
  }

  /**
    Classification of every spelling that fits the container pattern: a `ListField` whose
    item dtype is the table's entry for the item, or `TypeError` when the item is not in
    the table.
   */
  lemma ClassifyContainer(p: ContainerSpelling)
    requires WellFormed(p)
    ensures Classify(Spell(p)) ==
      if DtypeOf(p.item).Some? then Ok(ListOf(DtypeOf(p.item).value)) else Err(CouldNotParse(Spell(p)))
  {
    ContainerIsNotScalar(p);
    MatchComplete(p);
  }

  /** Both directions: a spelling is accepted exactly when it is a scalar spelling or a container of one. */
  lemma ClassifyAccepts(ctype: string)
    ensures Classify(ctype).Ok? <==>
      DtypeOf(ctype).Some? ||
      exists p :: WellFormed(p) && Spell(p) == ctype && DtypeOf(p.item).Some?
  {
    if DtypeOf(ctype).None? {
      if MatchContainer(ctype).Some? {
        MatchSound(ctype);
        var p :| WellFormed(p) && Spell(p) == ctype && p.item == MatchContainer(ctype).value;
        forall q | WellFormed(q) && Spell(q) == ctype
          ensures q.item == p.item
        {
          MatchComplete(q);
        }
      } else {
        MatchNone(ctype);
      }
    }
  }

  /** A container of a scalar spelling gives a `ListField` of that scalar's type. */
  lemma ClassifyVectorOfInt()
    ensures Classify("std::vector<int>") == Ok(ListOf(Int))
  {
    var p := ContainerSpelling(true, "vector", "", "int", "", "");
    assert Spell(p) == "std::vector<int>";
    ClassifyContainer(p);
  }

  /** The pattern is anchored only at the start: text after the closing `>` is ignored. */
  lemma ClassifyIgnoresTail()
    ensures Classify("list< double >, extra") == Ok(ListOf(Float))
  {
    var p := ContainerSpelling(false, "list", " ", "double", " ", ", extra");
    assert Spell(p) == "list< double >, extra";
    ClassifyContainer(p);
  }

  /** After the item word and its spaces only `>` may follow: a second word is refused. */
  lemma MatchItemRejectsSecondWord(item: string, gap: string, rest: string)
    requires item != [] && forall i :: 0 <= i < |item| ==> IsTypeChar(item[i])
    requires gap != [] && AllSpace(gap)
    requires rest != [] && rest[0] != '>' && !IsSpace(rest[0])
    ensures MatchItem(item + (gap + rest)) == None
  {
    var x := gap + rest;
    var u := item + x;
    assert u[0] == item[0] && SpaceSpan(u) == 0;
    assert x[0] == gap[0] && !IsTypeChar(x[0]);
    TypeSpanSkip(item, x);
    assert u[TypeSpan(u)..] == x;
    SpaceSpanSkip(gap, rest);
    assert SpaceSpan(rest) == 0;
    assert x[|gap|] == rest[0];
  }

  lemma NotScalarSpelling(s: string, i: int)
    requires 0 <= i < |s| && s[i] == '<'
    ensures DtypeOf(s) == None
  {
    ScalarTable(s);
  }

  /** The item must be a single `[a-z:]` word, so a two-word item type is refused. */
  lemma ClassifyRejectsTwoWordItem()
    ensures Classify("std::vector<unsigned int>") == Err(CouldNotParse("std::vector<unsigned int>"))
  {
    var s := "std::vector<unsigned int>";
    NotScalarSpelling(s, 11);
    assert StdLength(s) == 5 by { assert s[..5] == "std::"; }
    assert OpenLength(s[5..]) == 7 by { assert s[5..][..7] == "vector<"; }
    assert s[5..][7..] == "unsigned" + (" " + "int>");
    MatchItemRejectsSecondWord("unsigned", " ", "int>");
  }

  /** A space between the container name and `<` defeats the pattern. */
  lemma ClassifyRejectsSpaceBeforeBracket()
    ensures Classify("vector <int>") == Err(CouldNotParse("vector <int>"))
  {
    var s := "vector <int>";
    assert StdLength(s) == 0 by { assert s[0] == 'v'; }
    assert OpenLength(s) == 0 by { assert s[6] == ' ' && s[0] == 'v'; }
    assert MatchContainer(s) == None;
    assert DtypeOf(s) == None by { assert |s| == 12; }
  }

  /**
    A class name such as a nested control's (no '<' and not one of the five scalar
    spellings) is refused: nested control fields cannot be wrapped.
   */
  lemma ClassifyRejectsClassName(ctype: string)
    requires DtypeOf(ctype).None?
    requires forall i :: 0 <= i < |ctype| ==> ctype[i] != '<'
    ensures Classify(ctype) == Err(CouldNotParse(ctype))
  {
    if MatchContainer(ctype).Some? {
      var i := BracketOfContainer(ctype);
      assert false;
    }
  }

  /** Where the `<` of an accepted container spelling stands. */
  lemma BracketOfContainer(ctype: string) returns (i: nat)
    requires MatchContainer(ctype).Some?
    ensures i < |ctype| && ctype[i] == '<'
  {
    var std, container, u := OpenSound(ctype);
    i := (if std then 5 else 0) + |container|;
  }
}
