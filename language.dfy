/**
 * The translation helper of the language provider (LanguageContext.tsx):
 * the dot-separated lookup `getNestedValue` over the loaded translation
 * table, and `t`, which falls back to the key and fills in `{name}`
 * placeholders.
 *
 * A translation table is a tree of `Value`s: a string leaf, a nested table,
 * or `Absent` for JavaScript's `undefined`. Lookup follows the source's
 * `acc && acc[part]`: a falsy accumulator (undefined or the empty string)
 * is passed on unchanged, a table yields its entry or `Absent`, and a
 * non-empty string yields `Absent`.
 */
module Language {
  import opened Types
  import opened Strings

  datatype Value = Text(s: string) | Table(entries: map<string, Value>) | Absent

  /** JavaScript falsiness of a value: `undefined` and the empty string. */
  predicate Falsy(v: Value)
  {
    v.Absent? || v == Text("")
  }

  // ---------------------------------------------------------------------------
  // key.split('.') and its inverse

  /** `s.split(c)`: the pieces between separators, an empty piece at each end or doubled separator. */
  function Split(s: string, c: char): (r: seq<string>)
    ensures |r| >= 1
    ensures forall k :: 0 <= k < |r| ==> c !in r[k]
  {
    if s == [] then [""]
    else
      var rest := Split(s[1..], c);
      if s[0] == c then [""] + rest else [[s[0]] + rest[0]] + rest[1..]
  }

  /** `parts.join(sep)`. */
  function Join(parts: seq<string>, sep: string): string
    requires |parts| >= 1
  {
    if |parts| == 1 then parts[0] else parts[0] + sep + Join(parts[1..], sep)
  }

  /** Joining the pieces of a split gives the string back. */
  lemma {:induction false} JoinSplit(s: string, c: char)
    ensures Join(Split(s, c), [c]) == s
  {
    if s != [] {
      var rest := Split(s[1..], c);
      JoinSplit(s[1..], c);
      if s[0] == c {
        assert Split(s, c)[1..] == rest;
        assert s == [c] + s[1..];
      } else {
        var r := Split(s, c);
        if |rest| == 1 {
          assert r == [[s[0]] + rest[0]];
        } else {
          assert r[1..] == rest[1..];
          assert Join(rest, [c]) == rest[0] + [c] + Join(rest[1..], [c]);
        }
      }
    }
  }

  /** Splitting a join of separator-free pieces gives the pieces back. */
  lemma {:induction false} SplitJoin(parts: seq<string>, c: char)
    requires |parts| >= 1
    requires forall k :: 0 <= k < |parts| ==> c !in parts[k]
    ensures Split(Join(parts, [c]), c) == parts
  {
    if |parts| == 1 {
      SplitPiece(parts[0], [], c);
      assert parts[0] + [] == parts[0] && Split([], c) == [""];
      assert [parts[0]] == parts;
    } else {
      SplitJoin(parts[1..], c);
      var tail := Join(parts[1..], [c]);
      SplitPiece(parts[0], [c] + tail, c);
      assert (parts[0] + [c]) + tail == parts[0] + ([c] + tail);
      assert ([c] + tail)[0] == c && ([c] + tail)[1..] == tail;
      assert Split([c] + tail, c) == [""] + parts[1..];
      assert Split(parts[0] + ([c] + tail), c) == [parts[0] + ""] + parts[1..];
      assert parts[0] + "" == parts[0];
      assert [parts[0]] + parts[1..] == parts;
    }
  }

  /** A separator-free prefix joins the first piece of what follows it. */
  lemma {:induction false} SplitPiece(p: string, t: string, c: char)
    requires c !in p
    requires t == [] || t[0] == c
    ensures Split(p + t, c) == [p + Split(t, c)[0]] + Split(t, c)[1..]
  {
    if p == [] {
      assert p + t == t;
    } else {
      SplitPiece(p[1..], t, c);
      assert (p + t)[0] == p[0] && (p + t)[1..] == p[1..] + t;
      assert [p[0]] + (p[1..] + Split(t, c)[0]) == p + Split(t, c)[0];
    }
  }

  // ---------------------------------------------------------------------------
  // getNestedValue

  /** One step of the reduce: `acc && acc[part]`. */
  function Step(acc: Value, part: string): Value
  {
    if Falsy(acc) then acc
    else match acc
      case Table(m) => if part in m then m[part] else Absent
      case Text(_) => Absent
  }

  /** Folds `Step` over the path, left to right. */
  function Descend(v: Value, path: seq<string>): Value
    decreases |path|
  {
    if path == [] then v else Descend(Step(v, path[0]), path[1..])
  }

  /** `getNestedValue(obj, key)`: the reduce of `Step` over `key.split('.')`. */
  function GetNestedValue(obj: Value, key: string): Value
  {
    Descend(obj, Split(key, '.'))
  }

  /**
   * A non-empty string met before the last segment makes the lookup
   * `undefined`; an empty string (falsy) is passed on to the end.
   */
  lemma {:induction false} DescendThroughText(s: string, path: seq<string>)
    requires |path| >= 1
    ensures s != "" ==> Descend(Text(s), path) == Absent
    ensures s == "" ==> Descend(Text(s), path) == Text("")
  {
    if s != "" {
      DescendAbsent(path[1..]);
    } else if |path| > 1 {
      DescendThroughText(s, path[1..]);
    }
  }

  /** `undefined` absorbs every further step: a missing segment makes the whole lookup `undefined`. */
  lemma {:induction false} DescendAbsent(path: seq<string>)
    ensures Descend(Absent, path) == Absent
  {
    if path != [] {
      DescendAbsent(path[1..]);
    }
  }

  /** A segment missing from the table it is looked up in makes the whole lookup `undefined`. */
  lemma MissingSegment(m: map<string, Value>, part: string, path: seq<string>)
    requires part !in m
    ensures Descend(Table(m), [part] + path) == Absent
  {
    assert ([part] + path)[1..] == path;
    DescendAbsent(path);
  }

  /** Walking a path in two parts is walking the first part, then the second from where it ended. */
  lemma {:induction false} DescendConcat(v: Value, a: seq<string>, b: seq<string>)
    ensures Descend(v, a + b) == Descend(Descend(v, a), b)
    decreases |a|
  {
    if a == [] {
      assert a + b == b;
    } else {
      assert (a + b)[0] == a[0] && (a + b)[1..] == a[1..] + b;
      DescendConcat(Step(v, a[0]), a[1..], b);
    }
  }

  /**
   * A segment missing from the table that the segments before it lead to
   * makes the lookup of the whole dotted key `undefined`, however deep it is.
   */
  lemma MissingSegmentAt(obj: Value, parts: seq<string>, k: nat, m: map<string, Value>)
    requires k < |parts|
    requires forall j :: 0 <= j < |parts| ==> '.' !in parts[j]
    requires Descend(obj, parts[..k]) == Table(m) && parts[k] !in m
    ensures GetNestedValue(obj, Join(parts, ".")) == Absent
  {
    NestedLookup(obj, parts);
    var rest := [parts[k]] + parts[k + 1..];
    assert parts == parts[..k] + rest;
    DescendConcat(obj, parts[..k], rest);
    MissingSegment(m, parts[k], parts[k + 1..]);
  }

  /** Looking up a dotted key walks the table one segment at a time. */
  lemma NestedLookup(obj: Value, parts: seq<string>)
    requires |parts| >= 1
    requires forall k :: 0 <= k < |parts| ==> '.' !in parts[k]
    ensures GetNestedValue(obj, Join(parts, ".")) == Descend(obj, parts)
  {
    SplitJoin(parts, '.');
  }

  /** `t("a.b.c")` looks at `translations["a"]["b"]["c"]`. */
  lemma ThreeSegments(m: map<string, Value>)
    requires "a" in m && m["a"].Table? && "b" in m["a"].entries
    requires m["a"].entries["b"].Table? && "c" in m["a"].entries["b"].entries
    ensures GetNestedValue(Table(m), "a.b.c") == m["a"].entries["b"].entries["c"]
  {
    var path := ["a", "b", "c"];
    NestedLookup(Table(m), path);
    assert Join(path, ".") == "a.b.c" by {
      assert path[1..] == ["b", "c"] && path[1..][1..] == ["c"];
    }
    var a := m["a"];
    var b := a.entries["b"];
    assert Descend(Table(m), path) == Descend(a, ["b", "c"]) by {
      assert path[1..] == ["b", "c"];
    }
    assert Descend(a, ["b", "c"]) == Descend(b, ["c"]) by {
      assert ["b", "c"][1..] == ["c"];
    }
    assert Descend(b, ["c"]) == Descend(b.entries["c"], []) by {
      assert ["c"][1..] == [];
    }
  }

  // ---------------------------------------------------------------------------
  // Placeholder substitution: replace(new RegExp(`{${name}}`, 'g'), value)

  /** `s` begins with `pat`. */
  predicate StartsWith(s: string, pat: string)
  {
    |pat| <= |s| && s[..|pat|] == pat
  }

  /** `pat` starts at no position of `s`. */
  predicate NoOccurrence(s: string, pat: string)
  {
    forall j :: 0 <= j < |s| ==> !StartsWith(s[j..], pat)
  }

  /** A global replace of a literal pattern: left to right, matches do not overlap. */
  function ReplaceAll(s: string, pat: string, rep: string): string
    requires |pat| >= 1
    decreases |s|
  {
    if |s| < |pat| then s
    else if s[..|pat|] == pat then rep + ReplaceAll(s[|pat|..], pat, rep)
    else [s[0]] + ReplaceAll(s[1..], pat, rep)
  }

  /** Text that no match starts in is copied unchanged. */
  lemma {:induction false} ReplaceSkip(p: string, t: string, pat: string, rep: string)
    requires |pat| >= 1
    requires forall j :: 0 <= j < |p| ==> !StartsWith((p + t)[j..], pat)
    ensures ReplaceAll(p + t, pat, rep) == p + ReplaceAll(t, pat, rep)
  {
    if p != [] {
      var s := p + t;
      if |s| < |pat| {
        assert ReplaceAll(s, pat, rep) == s;
        assert ReplaceAll(t, pat, rep) == t;
      } else {
        assert s[0..] == s;
        assert s[..|pat|] != pat;
        assert s[0] == p[0] && s[1..] == p[1..] + t;
        forall j | 0 <= j < |p[1..]| ensures !StartsWith((p[1..] + t)[j..], pat) {
          assert (p[1..] + t)[j..] == s[j + 1..];
        }
        ReplaceSkip(p[1..], t, pat, rep);
        assert ReplaceAll(s, pat, rep) == [s[0]] + ReplaceAll(s[1..], pat, rep);
        assert [p[0]] + (p[1..] + ReplaceAll(t, pat, rep)) == p + ReplaceAll(t, pat, rep);
      }
    } else {
      assert p + t == t;
    }
  }

  /** Text without placeholders is untouched. */
  lemma ReplaceAbsent(s: string, pat: string, rep: string)
    requires |pat| >= 1
    requires NoOccurrence(s, pat)
    ensures ReplaceAll(s, pat, rep) == s
  {
    assert s + [] == s;
    ReplaceSkip(s, [], pat, rep);
  }

  /** `{name}`: its opening brace occurs nowhere else in it. */
  predicate IsPlaceholder(pat: string)
  {
    |pat| >= 2 && forall k :: 1 <= k < |pat| ==> pat[k] != pat[0]
  }

  /** A placeholder after placeholder-free text is the first match. */
  lemma PlaceholderAfter(p: string, pat: string, rest: string)
    requires IsPlaceholder(pat)
    requires NoOccurrence(p, pat)
    ensures forall j :: 0 <= j < |p| ==> !StartsWith((p + (pat + rest))[j..], pat)
  {
    var s := p + (pat + rest);
    forall j | 0 <= j < |p| ensures !StartsWith(s[j..], pat) {
      if j + |pat| <= |p| {
        assert !StartsWith(p[j..], pat);
        assert p[j..][..|pat|] == s[j..][..|pat|];
      } else {
        var d := |p| - j;
        assert s[j..][d] == s[|p|] == pat[0];
        assert pat[d] != pat[0];
      }
    }
  }

  /** Every occurrence of a placeholder between placeholder-free pieces is replaced. */
  lemma {:induction false} ReplaceJoin(parts: seq<string>, pat: string, rep: string)
    requires |parts| >= 1
    requires IsPlaceholder(pat)
    requires forall k :: 0 <= k < |parts| ==> NoOccurrence(parts[k], pat)
    ensures ReplaceAll(Join(parts, pat), pat, rep) == Join(parts, rep)
  {
    if |parts| == 1 {
      ReplaceAbsent(parts[0], pat, rep);
    } else {
      var p := parts[0];
      var rest := Join(parts[1..], pat);
      assert Join(parts, pat) == p + (pat + rest);
      PlaceholderAfter(p, pat, rest);
      ReplaceSkip(p, pat + rest, pat, rep);
      assert (pat + rest)[..|pat|] == pat && (pat + rest)[|pat|..] == rest;
      ReplaceJoin(parts[1..], pat, rep);
    }
  }

  /** The placeholder of a parameter name: `{name}`. */
  function PlaceholderOf(name: string): string
  {
    "{" + name + "}"
  }

  /** A name without an opening brace makes a placeholder. */
  lemma PlaceholderOfName(name: string)
    requires '{' !in name
    ensures IsPlaceholder(PlaceholderOf(name))
  {
    var pat := PlaceholderOf(name);
    forall k | 1 <= k < |pat| ensures pat[k] != pat[0] {
      if k <= |name| {
        assert pat[k] == name[k - 1];
      }
    }
  }

  /** `String(value)`: a string as is, an integer in decimal. */
  function Render(v: ParamValue): string
  {
    match v
    case PStr(s) => s
    case PNum(n) => IntToString(n)
  }

  /** The parameters applied in key order: each replaces every occurrence of its placeholder. */
  function SubstituteAll(s: string, params: seq<Param>): string
  {
    if params == [] then s
    else
      var last := params[|params| - 1];
      ReplaceAll(SubstituteAll(s, params[..|params| - 1]), PlaceholderOf(last.name), Render(last.value))
  }

  /** Text with no placeholder of any parameter comes back unchanged. */
  lemma {:induction false} SubstituteAbsent(s: string, params: seq<Param>)
    requires forall k :: 0 <= k < |params| ==> NoOccurrence(s, PlaceholderOf(params[k].name))
    ensures SubstituteAll(s, params) == s
  {
    if params != [] {
      var init := params[..|params| - 1];
      SubstituteAbsent(s, init);
      ReplaceAbsent(s, PlaceholderOf(params[|params| - 1].name), Render(params[|params| - 1].value));
    }
  }

  // ---------------------------------------------------------------------------
  // t

  /** What `t` reads: whether translations are still loading, and the loaded table. */
  datatype LanguageState = LanguageState(loading: bool, translations: Value)

  /**
   * `t(key, params)`: the key itself while loading, when no table is
   * loaded, or when the lookup finds no string; otherwise the string with
   * each parameter's placeholders filled in, in key order.
   */
  method Translate(state: LanguageState, key: string, params: seq<Param>) returns (r: string)
    ensures state.loading || Falsy(state.translations) ==> r == key
    ensures !state.loading && !Falsy(state.translations) && !GetNestedValue(state.translations, key).Text? ==> r == key
    ensures !state.loading && !Falsy(state.translations) && GetNestedValue(state.translations, key).Text?
            ==> r == SubstituteAll(GetNestedValue(state.translations, key).s, params)
    ensures !state.loading && !Falsy(state.translations) && GetNestedValue(state.translations, key).Text? && params == []
            ==> r == GetNestedValue(state.translations, key).s
  {
    if state.loading || Falsy(state.translations) {
      return key;
    }
    var found := GetNestedValue(state.translations, key);
    if !found.Text? {
      return key;
    }
    r := found.s;
    for k := 0 to |params|
      invariant r == SubstituteAll(found.s, params[..k])
    {
      assert params[..k + 1][..k] == params[..k];
      r := ReplaceAll(r, PlaceholderOf(params[k].name), Render(params[k].value));
    }
    assert params[..|params|] == params;
  }

  /** A one-parameter message: every `{name}` between placeholder-free pieces becomes the value. */
  lemma OneParam(parts: seq<string>, name: string, value: ParamValue)
    requires |parts| >= 1 && '{' !in name
    requires forall k :: 0 <= k < |parts| ==> NoOccurrence(parts[k], PlaceholderOf(name))
    ensures SubstituteAll(Join(parts, PlaceholderOf(name)), [Param(name, value)]) == Join(parts, Render(value))
  {
    PlaceholderOfName(name);
    ReplaceJoin(parts, PlaceholderOf(name), Render(value));
    assert [Param(name, value)][..0] == [];
  }
}
