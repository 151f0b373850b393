/**
  `make_proper_variable_name`: turns an arbitrary label (a node, reach or
  catchment id) into something usable as an attribute name. Five rewrites
  are applied in turn:
    1. every character outside [a-zA-Z0-9] becomes '_';
    2. every run of two or more '_' becomes one '_';
    3. a string starting with a digit gets `extra` put in front of it;
    4. one leading '_' is dropped;
    5. one trailing '_' is dropped.
  Steps 4 and 5 index the first and the last character of the string; on an
  empty string Python raises IndexError, which is the error case here.
*/
module VariableNames {
  import opened Results

  /** The IndexError raised when step 4 or step 5 meets an empty string. */
  datatype NameError = IndexOutOfRange

  /** The default for `extra_string_before_digit`. */
  const DefaultExtra := "_"

  predicate IsDigit(c: char) {
    '0' <= c <= '9'
  }

  /** The class `[a-zA-Z0-9]` of the first rewrite. */
  predicate IsAlnum(c: char) {
    'a' <= c <= 'z' || 'A' <= c <= 'Z' || IsDigit(c)
  }

  predicate IsNameChar(c: char) {
    IsAlnum(c) || c == '_'
  }

  predicate AllNameChars(s: string) {
    forall i :: 0 <= i < |s| ==> IsNameChar(s[i])
  }

  /** No two neighbouring underscores. */
  predicate NoDoubleUnderscore(s: string) {
    forall i, j :: 0 <= i && j == i + 1 < |s| ==> !(s[i] == '_' && s[j] == '_')
  }

  /** The letters and digits of `s`, in order. */
  function AlnumOf(s: string): string {
    if s == [] then [] else (if IsAlnum(s[0]) then [s[0]] else []) + AlnumOf(s[1..])
  }

  // ---------------------------------------------------------------------
  // The five rewrites
  // ---------------------------------------------------------------------

  /** Step 1: every character outside [a-zA-Z0-9] becomes '_'. */
  function ReplaceNonAlnum(s: string): (r: string)
    ensures |r| == |s|
    ensures AllNameChars(r)
    ensures forall i :: 0 <= i < |s| && IsAlnum(s[i]) ==> r[i] == s[i]
    ensures forall i :: 0 <= i < |s| && !IsAlnum(s[i]) ==> r[i] == '_'
  {
    seq(|s|, i requires 0 <= i < |s| => if IsAlnum(s[i]) then s[i] else '_')
  }

  /** Step 2: every run of underscores becomes a single underscore. */
  function CollapseUnderscores(s: string): (r: string)
    ensures |r| <= |s|
    ensures |r| == 0 <==> |s| == 0
    ensures |s| > 0 ==> r[0] == s[0] && r[|r| - 1] == s[|s| - 1]
    ensures NoDoubleUnderscore(r)
  {
    if |s| <= 1 then s
    else if s[0] == '_' && s[1] == '_' then CollapseUnderscores(s[1..])
    else [s[0]] + CollapseUnderscores(s[1..])
  }

  /** Steps 1 and 2 together. */
  function Collapsed(s: string): string {
    CollapseUnderscores(ReplaceNonAlnum(s))
  }

  /** Step 3: `extra` goes in front of a string that starts with a digit. */
  function PrefixDigit(s: string, extra: string): (r: string)
    ensures |s| > 0 && IsDigit(s[0]) ==> r == extra + s
    ensures !(|s| > 0 && IsDigit(s[0])) ==> r == s
    ensures |r| >= |s| && r[|r| - |s|..] == s
    ensures AllNameChars(s) && AllNameChars(extra) ==> AllNameChars(r)
    ensures |extra| > 0 && !IsDigit(extra[0]) ==> |r| == 0 || !IsDigit(r[0])
  {
    if |s| > 0 && IsDigit(s[0]) then extra + s else s
  }

  /** Drops the first character when it is '_' (step 4) on a nonempty string. */
  function DropLeading(s: string): (r: string)
    requires |s| > 0
    ensures s[0] == '_' ==> r == s[1..]
    ensures s[0] != '_' ==> r == s
    ensures |s| - 1 <= |r| <= |s| && r == s[|s| - |r|..]
    ensures NoDoubleUnderscore(s) && |r| > 0 ==> r[0] != '_'
  {
    if s[0] == '_' then s[1..] else s
  }

  /** Drops the last character when it is '_' (step 5) on a nonempty string. */
  function DropTrailing(s: string): (r: string)
    requires |s| > 0
    ensures s[|s| - 1] == '_' ==> r == s[..|s| - 1]
    ensures s[|s| - 1] != '_' ==> r == s
    ensures |s| - 1 <= |r| <= |s| && r == s[..|r|]
    ensures NoDoubleUnderscore(s) && |r| > 0 ==> r[|r| - 1] != '_'
  {
    if s[|s| - 1] == '_' then s[..|s| - 1] else s
  }

  /** The whole rewrite; fails where Python's indexing fails. */
  function MakeProperVariableName(s: string, extra: string): (r: Result<string, NameError>)
    ensures |Collapsed(s)| > 1 ==> r.Ok?
  {
    var prefixed := PrefixDigit(Collapsed(s), extra);
    if |prefixed| == 0 then Err(IndexOutOfRange)
    else
      var stripped := DropLeading(prefixed);
      if |stripped| == 0 then Err(IndexOutOfRange)
      else Ok(DropTrailing(stripped))
  }

  // ---------------------------------------------------------------------
  // Facts about the rewrites
  // ---------------------------------------------------------------------

  lemma {:induction false} AlnumOfAppend(a: string, b: string)
    ensures AlnumOf(a + b) == AlnumOf(a) + AlnumOf(b)
  {
    if a != [] {
      assert (a + b)[0] == a[0];
      assert (a + b)[1..] == a[1..] + b;
      AlnumOfAppend(a[1..], b);
    } else {
      assert a + b == b;
    }
  }

  /** Dropping a first or last character that is not a letter or digit keeps the letters and digits. */
  lemma {:induction false} AlnumOfDropEnds(s: string)
    requires |s| > 0
    ensures !IsAlnum(s[0]) ==> AlnumOf(s[1..]) == AlnumOf(s)
    ensures !IsAlnum(s[|s| - 1]) ==> AlnumOf(s[..|s| - 1]) == AlnumOf(s)
  {
    AlnumOfAppend(s[..|s| - 1], [s[|s| - 1]]);
    assert s[..|s| - 1] + [s[|s| - 1]] == s;
  }

  /** A string without letters and digits made of name characters is all underscores. */
  lemma {:induction false} NoAlnumAllUnderscores(s: string)
    requires AllNameChars(s) && AlnumOf(s) == []
    ensures forall i :: 0 <= i < |s| ==> s[i] == '_'
  {
    if s != [] {
      assert !IsAlnum(s[0]);
      NoAlnumAllUnderscores(s[1..]);
      forall i | 0 < i < |s| ensures s[i] == '_' {
        assert s[1..][i - 1] == s[i];
      }
    }
  }

  /** Step 1 keeps the letters and digits in order. */
  lemma {:induction false} ReplaceKeepsAlnum(s: string)
    ensures AlnumOf(ReplaceNonAlnum(s)) == AlnumOf(s)
  {
    if s != [] {
      ReplaceKeepsAlnum(s[1..]);
      assert ReplaceNonAlnum(s)[1..] == ReplaceNonAlnum(s[1..]);
    }
  }

  /** Step 1 leaves a string of name characters as it is. */
  lemma {:induction false} ReplaceKeepsNameChars(s: string)
    requires AllNameChars(s)
    ensures ReplaceNonAlnum(s) == s
  {
  }

  /** Step 2 keeps the letters and digits in order and invents no other characters. */
  lemma {:induction false} CollapseKeepsAlnum(s: string)
    ensures AlnumOf(CollapseUnderscores(s)) == AlnumOf(s)
    ensures AllNameChars(s) ==> AllNameChars(CollapseUnderscores(s))
  {
    if |s| > 1 {
      CollapseKeepsAlnum(s[1..]);
      var t := CollapseUnderscores(s[1..]);
      if s[0] == '_' && s[1] == '_' {
        assert AlnumOf(s) == AlnumOf(s[1..]);
      } else {
        assert ([s[0]] + t)[1..] == t;
        if AllNameChars(s) {
          assert AllNameChars(s[1..]) by {
            forall i | 0 <= i < |s[1..]| ensures IsNameChar(s[1..][i]) {
              assert s[1..][i] == s[i + 1];
            }
          }
        }
      }
    }
  }

  /** Step 2 leaves a string without double underscores as it is. */
  lemma {:induction false} CollapseKeepsCollapsed(s: string)
    requires NoDoubleUnderscore(s)
    ensures CollapseUnderscores(s) == s
  {
    if |s| > 1 {
      assert NoDoubleUnderscore(s[1..]) by {
        forall i, j | 0 <= i && j == i + 1 < |s[1..]| ensures !(s[1..][i] == '_' && s[1..][j] == '_') {
          assert s[1..][i] == s[i + 1] && s[1..][j] == s[j + 1];
        }
      }
      CollapseKeepsCollapsed(s[1..]);
      assert !(s[0] == '_' && s[1] == '_');
      assert [s[0]] + s[1..] == s;
    }
  }

  /** Removing characters from either end keeps a string free of double underscores. */
  lemma {:induction false} NoDoubleUnderscoreSlice(s: string, lo: nat, hi: nat)
    requires NoDoubleUnderscore(s) && lo <= hi <= |s|
    ensures NoDoubleUnderscore(s[lo..hi])
  {
    var t := s[lo..hi];
    forall i, j | 0 <= i && j == i + 1 < |t| ensures !(t[i] == '_' && t[j] == '_') {
      assert t[i] == s[lo + i] && t[j] == s[lo + j];
    }
  }

  /** Doubling an underscore does not change the result of step 2. */
  lemma {:induction false} DuplicateUnderscore(s: string, i: nat)
    requires i < |s| && s[i] == '_'
    ensures CollapseUnderscores(s[..i] + "_" + s[i..]) == CollapseUnderscores(s)
    decreases i
  {
    var t := s[..i] + "_" + s[i..];
    if i == 0 {
      assert t[0] == t[1] == '_' && t[1..] == s;
    } else {
      var u := s[1..];
      assert t[0] == s[0] && t[1] == s[1];
      assert t[1..] == u[..i - 1] + "_" + u[i - 1..];
      DuplicateUnderscore(u, i - 1);
    }
  }

  function Underscores(n: nat): string {
    seq(n, _ => '_')
  }

  /** Step 2 turns a run of any positive number of underscores into one. */
  lemma {:induction false} CollapseRun(a: string, n: nat, b: string)
    requires n > 0
    ensures CollapseUnderscores(a + Underscores(n) + b) == CollapseUnderscores(a + "_" + b)
  {
    if n > 1 {
      var s := a + Underscores(n - 1) + b;
      assert s[|a|] == '_';
      assert a + Underscores(n) + b == s[..|a|] + "_" + s[|a|..] by {
        assert s[..|a|] == a;
        assert s[|a|..] == Underscores(n - 1) + b;
        assert Underscores(n) == "_" + Underscores(n - 1);
      }
      DuplicateUnderscore(s, |a|);
      CollapseRun(a, n - 1, b);
    } else {
      assert Underscores(1) == "_";
    }
  }

  predicate AllAlnum(s: string) {
    forall i :: 0 <= i < |s| ==> IsAlnum(s[i])
  }

  predicate NoAlnum(s: string) {
    forall i :: 0 <= i < |s| ==> !IsAlnum(s[i])
  }

  /** Step 1 turns the separator between two words into as many underscores. */
  lemma ReplaceSeparator(a: string, sep: string, b: string)
    requires AllAlnum(a) && AllAlnum(b) && NoAlnum(sep)
    ensures ReplaceNonAlnum(a + sep + b) == a + Underscores(|sep|) + b
  {
    var w := a + sep + b;
    forall i | 0 <= i < |w| ensures ReplaceNonAlnum(w)[i] == (a + Underscores(|sep|) + b)[i] {
      if i < |a| {
        assert w[i] == a[i];
      } else if i < |a| + |sep| {
        assert w[i] == sep[i - |a|];
      } else {
        assert w[i] == b[i - |a| - |sep|];
      }
    }
  }

  /** Steps 1 and 2 turn the separator between two words into one '_'. */
  lemma SeparatorCollapsed(a: string, sep: string, b: string)
    requires |sep| > 0 && AllAlnum(a) && AllAlnum(b) && NoAlnum(sep)
    ensures Collapsed(a + sep + b) == a + "_" + b
  {
    var joined := a + "_" + b;
    ReplaceSeparator(a, sep, b);
    CollapseRun(a, |sep|, b);
    assert NoDoubleUnderscore(joined) by {
      forall i, j | 0 <= i && j == i + 1 < |joined| ensures !(joined[i] == '_' && joined[j] == '_') {
        if i < |a| {
          assert joined[i] == a[i];
        } else {
          assert joined[j] == b[j - |a| - 1];
        }
      }
    }
    CollapseKeepsCollapsed(joined);
  }

  /** Two words joined by any nonempty run of other characters become the
      two words joined by a single '_', whatever `extra` is. */
  lemma SeparatorBecomesUnderscore(a: string, sep: string, b: string, extra: string)
    requires |a| > 0 && |b| > 0 && |sep| > 0
    requires AllAlnum(a) && AllAlnum(b) && NoAlnum(sep) && !IsDigit(a[0])
    ensures MakeProperVariableName(a + sep + b, extra) == Ok(a + "_" + b)
  {
    var joined := a + "_" + b;
    SeparatorCollapsed(a, sep, b);
    assert joined[0] == a[0] && joined[|joined| - 1] == b[|b| - 1];
    assert IsAlnum(a[0]) && IsAlnum(b[|b| - 1]);
    assert PrefixDigit(joined, extra) == joined;
    assert DropLeading(joined) == joined;
    assert DropTrailing(joined) == joined;
  }

  /** For example a double hyphen between two words becomes one underscore. */
  lemma SeparatorExample()
    ensures MakeProperVariableName("node--12", DefaultExtra) == Ok("node_12")
  {
    assert "node--12" == "node" + "--" + "12";
    assert "node_12" == "node" + "_" + "12";
    SeparatorBecomesUnderscore("node", "--", "12", DefaultExtra);
  }

  /** The collapsed form of steps 1 and 2. */
  lemma {:induction false} CollapsedFacts(s: string)
    ensures AllNameChars(Collapsed(s)) && NoDoubleUnderscore(Collapsed(s))
    ensures AlnumOf(Collapsed(s)) == AlnumOf(s)
  {
    ReplaceKeepsAlnum(s);
    CollapseKeepsAlnum(ReplaceNonAlnum(s));
  }

  // ---------------------------------------------------------------------
  // Properties of the whole rewrite
  // ---------------------------------------------------------------------

  /** A letter or digit in the input survives up to step 5. */
  lemma {:induction false} AlnumGivesName(s: string, extra: string)
    requires AlnumOf(s) != []
    ensures MakeProperVariableName(s, extra).Ok?
  {
    var c := Collapsed(s);
    CollapsedFacts(s);
    var prefixed := PrefixDigit(c, extra);
    if |c| > 0 && IsDigit(c[0]) {
      AlnumOfAppend(extra, c);
    }
    assert AlnumOf(prefixed) != [];
    AlnumOfDropEnds(prefixed);
    assert AlnumOf(DropLeading(prefixed)) != [];
  }

  /** Without letters and digits only "" or "_" reaches step 4, and both fail. */
  lemma {:induction false} NoAlnumNoName(s: string, extra: string)
    requires AlnumOf(s) == []
    ensures MakeProperVariableName(s, extra).Err?
  {
    var c := Collapsed(s);
    CollapsedFacts(s);
    NoAlnumAllUnderscores(c);
    assert |c| <= 1;
    assert PrefixDigit(c, extra) == c;
  }

  /** The rewrite fails exactly when the input has no ASCII letter or digit,
      whatever `extra` is: only then is the string empty or "_" at step 4. */
  lemma {:induction false} NameDefinedIff(s: string, extra: string)
    ensures MakeProperVariableName(s, extra).Ok? <==> AlnumOf(s) != []
  {
    if AlnumOf(s) != [] {
      AlnumGivesName(s, extra);
    } else {
      NoAlnumNoName(s, extra);
    }
  }

  /** With name characters in `extra`, the result holds name characters only. */
  lemma {:induction false} NameCharset(s: string, extra: string)
    requires AllNameChars(extra)
    ensures MakeProperVariableName(s, extra).Ok? ==> AllNameChars(MakeProperVariableName(s, extra).value)
  {
    CollapsedFacts(s);
  }

  /** With the default `extra`, a result is a nonempty name made of letters,
      digits and single underscores, neither starting nor ending with '_'. */
  lemma {:induction false} NameShape(s: string)
    ensures var r := MakeProperVariableName(s, DefaultExtra);
      r.Ok? ==>
        && |r.value| > 0
        && AllNameChars(r.value)
        && NoDoubleUnderscore(r.value)
        && r.value[0] != '_'
        && r.value[|r.value| - 1] != '_'
  {
    var c := Collapsed(s);
    CollapsedFacts(s);
    var prefixed := PrefixDigit(c, DefaultExtra);
    assert AllNameChars(prefixed) && NoDoubleUnderscore(prefixed) by {
      if |c| > 0 && IsDigit(c[0]) {
        forall i | 0 <= i < |prefixed| ensures IsNameChar(prefixed[i]) {
          if i > 0 {
            assert prefixed[i] == c[i - 1];
          }
        }
        forall i, j | 0 <= i && j == i + 1 < |prefixed| ensures !(prefixed[i] == '_' && prefixed[j] == '_') {
          if i > 0 {
            assert prefixed[i] == c[i - 1] && prefixed[j] == c[j - 1];
          }
        }
      }
    }
    if |prefixed| > 0 && |DropLeading(prefixed)| > 0 {
      StripShape(prefixed);
    }
  }

  /** Steps 4 and 5 on a string of name characters without "__" leave no '_' at either end. */
  lemma {:induction false} StripShape(p: string)
    requires AllNameChars(p) && NoDoubleUnderscore(p)
    requires |p| > 0 && |DropLeading(p)| > 0
    ensures var r := DropTrailing(DropLeading(p));
      && |r| > 0
      && AllNameChars(r)
      && NoDoubleUnderscore(r)
      && r[0] != '_'
      && r[|r| - 1] != '_'
  {
    var stripped := DropLeading(p);
    var lo := |p| - |stripped|;
    assert NoDoubleUnderscore(stripped) by {
      NoDoubleUnderscoreSlice(p, lo, |p|);
    }
    assert AllNameChars(stripped) by {
      forall i | 0 <= i < |stripped| ensures IsNameChar(stripped[i]) {
        assert stripped[i] == p[lo + i];
      }
    }
    var r := DropTrailing(stripped);
    assert NoDoubleUnderscore(r) by {
      NoDoubleUnderscoreSlice(stripped, 0, |r|);
    }
  }

  /** With the default `extra`, the result keeps the letters and digits of
      the input, all of them, in their order. */
  lemma {:induction false} NameKeepsAlnum(s: string)
    ensures var r := MakeProperVariableName(s, DefaultExtra);
      r.Ok? ==> AlnumOf(r.value) == AlnumOf(s)
  {
    var c := Collapsed(s);
    CollapsedFacts(s);
    var prefixed := PrefixDigit(c, DefaultExtra);
    if |c| > 0 && IsDigit(c[0]) {
      AlnumOfAppend(DefaultExtra, c);
    }
    assert AlnumOf(prefixed) == AlnumOf(c);
    if |prefixed| > 0 {
      AlnumOfDropEnds(prefixed);
      var stripped := DropLeading(prefixed);
      if |stripped| > 0 {
        AlnumOfDropEnds(stripped);
      }
    }
  }

  /** A nonempty name of letters, digits and single inner underscores is a fixed point. */
  lemma {:induction false} ProperNameIsFixed(r: string)
    requires |r| > 0 && AllNameChars(r) && NoDoubleUnderscore(r)
    requires r[0] != '_' && r[|r| - 1] != '_'
    ensures MakeProperVariableName(r, DefaultExtra) == Ok(r)
  {
    ReplaceKeepsNameChars(r);
    CollapseKeepsCollapsed(r);
    assert Collapsed(r) == r;
    var prefixed := PrefixDigit(r, DefaultExtra);
    if IsDigit(r[0]) {
      assert prefixed == "_" + r;
      assert prefixed[1..] == r;
      assert DropLeading(prefixed) == r;
    } else {
      assert DropLeading(prefixed) == r;
    }
    assert DropTrailing(r) == r;
  }

  /** With the default `extra`, a proper name is left unchanged. */
  lemma {:induction false} NameIdempotent(s: string)
    requires MakeProperVariableName(s, DefaultExtra).Ok?
    ensures var r := MakeProperVariableName(s, DefaultExtra).value;
      MakeProperVariableName(r, DefaultExtra) == Ok(r)
  {
    NameShape(s);
    ProperNameIsFixed(MakeProperVariableName(s, DefaultExtra).value);
  }

  /** The default prefix has no effect: a '_' put before a leading digit is
      removed again by step 4, so the default behaves like an empty `extra`
      and a result may start with a digit. */
  lemma {:induction false} DefaultExtraIsUndone(s: string)
    ensures MakeProperVariableName(s, DefaultExtra) == MakeProperVariableName(s, "")
    ensures |Collapsed(s)| > 0 && IsDigit(Collapsed(s)[0]) ==>
      MakeProperVariableName(s, DefaultExtra).Ok? && |MakeProperVariableName(s, DefaultExtra).value| > 0 &&
      MakeProperVariableName(s, DefaultExtra).value[0] == Collapsed(s)[0]
  {
    var c := Collapsed(s);
    if |c| > 0 && IsDigit(c[0]) {
      assert DropLeading(PrefixDigit(c, DefaultExtra)) == c by {
        assert PrefixDigit(c, DefaultExtra)[1..] == c;
      }
      assert DropLeading(PrefixDigit(c, "")) == c by {
        assert "" + c == c;
      }
      assert MakeProperVariableName(s, DefaultExtra) == Ok(DropTrailing(c));
      assert MakeProperVariableName(s, "") == Ok(DropTrailing(c));
      assert DropTrailing(c)[0] == c[0];
    } else {
      assert PrefixDigit(c, DefaultExtra) == c == PrefixDigit(c, "");
    }
  }

  /** An `extra` that does not start with '_' survives in front of a leading digit. */
  lemma {:induction false} ExtraBeforeDigit(s: string, extra: string)
    requires |extra| > 0 && extra[0] != '_'
    requires |Collapsed(s)| > 0 && IsDigit(Collapsed(s)[0])
    ensures MakeProperVariableName(s, extra).Ok?
    ensures |MakeProperVariableName(s, extra).value| > |extra|
    ensures MakeProperVariableName(s, extra).value[..|extra|] == extra
  {
    var c := Collapsed(s);
    var prefixed := extra + c;
    assert prefixed[0] == extra[0];
    if prefixed[|prefixed| - 1] == '_' {
      assert |c| > 1;
      assert prefixed[..|prefixed| - 1][..|extra|] == extra;
    } else {
      assert prefixed[..|extra|] == extra;
    }
  }
}
