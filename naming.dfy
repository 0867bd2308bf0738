/**
  The default name of a generated config class (wrap.py, lines 63-64): the control class's
  name with every "Control" replaced by "Config", as Python's `str.replace` does.
 */
module Naming {
  import opened Text

  const CONTROL := "Control"
  const CONFIG := "Config"

  /** Python's `s.replace(pat, rep)`: every non-overlapping occurrence, scanning left to right. */
  function ReplaceAll(s: string, pat: string, rep: string): string
    requires pat != []
    decreases |s|
  {
    if |s| < |pat| then s
    else if HasPrefix(s, pat) then rep + ReplaceAll(s[|pat|..], pat, rep)
    else [s[0]] + ReplaceAll(s[1..], pat, rep)
  }

  /** `ctrl.__name__.replace("Control", "Config")`. */
  function ConfigName(controlName: string): string {
    ReplaceAll(controlName, CONTROL, CONFIG)
  }

  lemma NoOccurrenceInSuffix(s: string, pat: string, k: nat)
    requires k <= |s| && !Occurs(s, pat)
    ensures !Occurs(s[k..], pat)
  {
    forall i | 0 <= i <= |s[k..]| && OccursAt(s[k..], pat, i)
      ensures false
    {
      assert s[k..][i..i + |pat|] == s[k + i..k + i + |pat|];
      assert OccursAt(s, pat, k + i);
    }
  }

  /** A string in which the pattern does not occur is left as it is. */
  lemma {:induction false} ReplaceWithoutOccurrence(s: string, pat: string, rep: string)
    requires pat != [] && !Occurs(s, pat)
    ensures ReplaceAll(s, pat, rep) == s
    decreases |s|
  {
    if |pat| <= |s| {
      assert !OccursAt(s, pat, 0);
      NoOccurrenceInSuffix(s, pat, 1);
      ReplaceWithoutOccurrence(s[1..], pat, rep);
      assert s == [s[0]] + s[1..];
    }
  }

  predicate NoCapitalC(p: string) {
    forall i :: 0 <= i < |p| ==> p[i] != 'C'
  }

  /**
    A renamed name begins with a text free of 'C' only when the original did.
   */
  lemma {:induction false} RenameKeepsPlainPrefix(t: string, p: string)
    ensures NoCapitalC(p) && HasPrefix(ConfigName(t), p) ==> HasPrefix(t, p)
    decreases |t|
  {
    if |t| < |CONTROL| {
      assert ConfigName(t) == t;
    } else if HasPrefix(t, CONTROL) {
      assert ConfigName(t) == CONFIG + ConfigName(t[|CONTROL|..]);
      if p != [] && HasPrefix(ConfigName(t), p) {
        assert p[0] == 'C';
      }
    } else if p != [] {
      var r := ConfigName(t[1..]);
      assert ConfigName(t) == [t[0]] + r;
      assert ConfigName(t)[1..] == r;
      if NoCapitalC(p) {
        assert forall i :: 0 <= i < |p[1..]| ==> p[1..][i] == p[i + 1];
        assert NoCapitalC(p[1..]);
      }
      RenameKeepsPlainPrefix(t[1..], p[1..]);
      HasPrefixCons(ConfigName(t), p);
      HasPrefixCons(t, p);
    }
  }

  /** No "Control" survives in a derived config class name. */
  lemma {:induction false} ConfigNameHasNoControl(s: string)
    ensures !Occurs(ConfigName(s), CONTROL)
    decreases |s|
  {
    var r := ConfigName(s);
    if |s| < |CONTROL| {
      assert r == s;
    } else if HasPrefix(s, CONTROL) {
      var r' := ConfigName(s[|CONTROL|..]);
      ConfigNameHasNoControl(s[|CONTROL|..]);
      assert r == CONFIG + r';
      forall i | 0 <= i <= |r|
        ensures !OccursAt(r, CONTROL, i)
      {
        if i >= |CONFIG| && i + |CONTROL| <= |r| {
          assert r[i..i + |CONTROL|] == r'[i - |CONFIG|..i - |CONFIG| + |CONTROL|];
          assert !OccursAt(r', CONTROL, i - |CONFIG|);
        } else if i < |CONFIG| && i + |CONTROL| <= |r| {
          var w := r[i..i + |CONTROL|];
          assert w[0] == r[i] == CONFIG[i];
          assert w[3] == r[i + 3];
          assert i == 0 ==> r[3] == CONFIG[3];
        }
      }
    } else {
      var r' := ConfigName(s[1..]);
      ConfigNameHasNoControl(s[1..]);
      assert r == [s[0]] + r';
      RenameKeepsPlainPrefix(s[1..], "ontrol");
      HasPrefixCons(s, CONTROL);
      forall i | 0 <= i <= |r|
        ensures !OccursAt(r, CONTROL, i)
      {
        if i >= 1 && i + |CONTROL| <= |r| {
          assert r[i..i + |CONTROL|] == r'[i - 1..i - 1 + |CONTROL|];
          assert !OccursAt(r', CONTROL, i - 1);
        } else if i == 0 && |CONTROL| <= |r| {
          assert r[1..7] == r'[..6];
        }
      }
    }
  }

  /**
    The derived name determines the control's name: when the control's name has no
    "Config" in it, replacing "Config" back by "Control" recovers it.
   */
  lemma {:induction false} ConfigNameReversible(s: string)
    requires !Occurs(s, CONFIG)
    ensures ReplaceAll(ConfigName(s), CONFIG, CONTROL) == s
    decreases |s|
  {
    var r := ConfigName(s);
    if |s| < |CONTROL| {
      assert r == s;
      ReplaceWithoutOccurrence(s, CONFIG, CONTROL);
    } else if HasPrefix(s, CONTROL) {
      var r' := ConfigName(s[|CONTROL|..]);
      NoOccurrenceInSuffix(s, CONFIG, |CONTROL|);
      ConfigNameReversible(s[|CONTROL|..]);
      assert r == CONFIG + r';
      PrefixOfConcat(CONFIG, r');
      assert s == CONTROL + s[|CONTROL|..];
    } else {
      var r' := ConfigName(s[1..]);
      NoOccurrenceInSuffix(s, CONFIG, 1);
      ConfigNameReversible(s[1..]);
      assert r == [s[0]] + r';
      assert r[1..] == r';
      RenameKeepsPlainPrefix(s[1..], "onfig");
      assert !OccursAt(s, CONFIG, 0);
      HasPrefixCons(s, CONFIG);
      assert !HasPrefix(r, CONFIG) by {
        if |CONFIG| <= |r| {
          assert r[1..6] == r'[..5];
        }
      }
      if |r| < |CONFIG| {
        ReplaceWithoutOccurrence(r', CONFIG, CONTROL);
      }
      assert s == [s[0]] + s[1..];
    }
  }

  lemma ConfigNameExamples()
    ensures ConfigName("FooControl") == "FooConfig"
  {
    var s := "FooControl";
    assert s[0] == 'F' && s[1..][0] == 'o' && s[2..][0] == 'o';
    assert s[1..][1..] == s[2..] && s[2..][1..] == s[3..];
    assert s[3..] == CONTROL;
    assert ConfigName(s[3..]) == CONFIG + ConfigName([]);
  }
}
