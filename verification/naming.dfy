/**
 * Attribute names derived from dictionary keys (`get_attribute_name_by_key`),
 * and the search for a free numbered name when two keys derive the same one
 * (the loop inside `__setitem__`). Both files of the library share this logic.
 */
module Naming {
  import opened DictKeys
  import opened Results

  /** `\w` restricted to ASCII: letters, digits and the underscore. */
  predicate IsWordChar(c: char) {
    'a' <= c <= 'z' || 'A' <= c <= 'Z' || '0' <= c <= '9' || c == '_'
  }

  /** A string made of word characters only, as an attribute name must be. */
  predicate IsWordText(s: string) {
    forall i :: 0 <= i < |s| ==> IsWordChar(s[i])
  }

  /** Drops the leading run of non-word characters. */
  function SkipNonWord(s: string): (r: string)
    ensures |r| <= |s|
    ensures r == [] || IsWordChar(r[0])
    ensures r != [] ==> r[|r| - 1] == s[|s| - 1]
    ensures r == [] && s != [] ==> !IsWordChar(s[|s| - 1])
  {
    if s == [] || IsWordChar(s[0]) then s else SkipNonWord(s[1..])
  }

  /** `re.sub('[\W]+', '_', s)`: every maximal run of non-word characters becomes one `_`. */
  function Sanitize(s: string): (r: string)
    ensures |r| <= |s|
    ensures (r == []) == (s == [])
    decreases |s|
  {
    if s == [] then []
    else if IsWordChar(s[0]) then [s[0]] + Sanitize(s[1..])
    else "_" + Sanitize(SkipNonWord(s[1..]))
  }

  /** Whatever the input, the output consists of word characters only. */
  lemma {:induction false} SanitizeIsWordText(s: string)
    ensures IsWordText(Sanitize(s))
    decreases |s|
  {
    if s != [] {
      if IsWordChar(s[0]) {
        SanitizeIsWordText(s[1..]);
      } else {
        SanitizeIsWordText(SkipNonWord(s[1..]));
      }
    }
  }

  /** A string that is already a valid name is left as it is. */
  lemma {:induction false} SanitizeKeepsWordText(s: string)
    requires IsWordText(s)
    ensures Sanitize(s) == s
    decreases |s|
  {
    if s != [] {
      SanitizeKeepsWordText(s[1..]);
    }
  }

  /** Sanitizing twice is sanitizing once. */
  lemma SanitizeIdempotent(s: string)
    ensures Sanitize(Sanitize(s)) == Sanitize(s)
  {
    SanitizeIsWordText(s);
    SanitizeKeepsWordText(Sanitize(s));
  }

  /** A whole run of non-word characters, however long, becomes a single `_`. */
  lemma SanitizeRun(s: string)
    requires s != [] && forall i :: 0 <= i < |s| ==> !IsWordChar(s[i])
    ensures Sanitize(s) == "_"
  {
    assert SkipNonWord(s[1..]) == [];
  }

  lemma {:induction false} SkipNonWordAppend(a: string, b: string)
    ensures SkipNonWord(a + b) == if SkipNonWord(a) != [] then SkipNonWord(a) + b else SkipNonWord(b)
    decreases |a|
  {
    if a == [] {
      assert a + b == b;
    } else {
      assert (a + b)[0] == a[0];
      if !IsWordChar(a[0]) {
        assert (a + b)[1..] == a[1..] + b;
        SkipNonWordAppend(a[1..], b);
      }
    }
  }

  lemma SanitizeCons(c: char, s: string)
    ensures Sanitize([c] + s) == if IsWordChar(c) then [c] + Sanitize(s) else "_" + Sanitize(SkipNonWord(s))
  {
    assert ([c] + s)[1..] == s;
  }

  /** Sanitizing works piecewise across a word character: a run never straddles the cut. */
  lemma {:induction false} SanitizeAppend(a: string, b: string)
    requires (a != [] && IsWordChar(a[|a| - 1])) || (b != [] && IsWordChar(b[0]))
    ensures Sanitize(a + b) == Sanitize(a) + Sanitize(b)
    decreases |a|
  {
    if a == [] {
      assert a + b == b;
    } else if IsWordChar(a[0]) {
      var rest := a[1..];
      if rest == [] {
        assert rest + b == b;
      } else {
        assert rest[|rest| - 1] == a[|a| - 1];
        SanitizeAppend(rest, b);
      }
      SanitizeAppendWord(a, b);
    } else {
      var t := SkipNonWord(a[1..]);
      if t != [] {
        SanitizeAppend(t, b);
        SanitizeAppendRun(a, b);
      } else {
        SanitizeAppendWholeRun(a, b);
      }
    }
  }

  /** The case of `SanitizeAppend` where `a` opens with a word character: given the claim for
      the rest of `a`, it holds for `a`. */
  lemma SanitizeAppendWord(a: string, b: string)
    requires a != [] && IsWordChar(a[0])
    requires Sanitize(a[1..] + b) == Sanitize(a[1..]) + Sanitize(b)
    ensures Sanitize(a + b) == Sanitize(a) + Sanitize(b)
  {
    var rest := a[1..];
    assert (a + b)[0] == a[0];
    assert (a + b)[1..] == rest + b;
    SanitizeWordHead(a + b);
    SanitizeWordHead(a);
    PrependAssoc([a[0]], Sanitize(a + b), Sanitize(a), Sanitize(rest), Sanitize(b));
  }

  /** Regrouping after a common prefix `p`. */
  lemma PrependAssoc(p: string, l: string, r: string, x: string, y: string)
    requires l == p + (x + y) && r == p + x
    ensures l == r + y
  {
  }

  lemma SanitizeWordHead(s: string)
    requires s != [] && IsWordChar(s[0])
    ensures Sanitize(s) == [s[0]] + Sanitize(s[1..])
  {
  }

  lemma SanitizeRunHead(a: string, b: string)
    requires a != [] && !IsWordChar(a[0])
    ensures Sanitize(a + b) == "_" + Sanitize(SkipNonWord(a[1..] + b))
  {
    assert (a + b)[0] == a[0];
    assert (a + b)[1..] == a[1..] + b;
  }

  /** Both sides of `SanitizeAppendRun`, unfolded once past the leading run of `a`. */
  lemma SanitizeRunSplit(a: string, b: string)
    requires a != [] && !IsWordChar(a[0])
    ensures var t := SkipNonWord(a[1..]);
      && Sanitize(a) == "_" + Sanitize(t)
      && (t != [] ==> Sanitize(a + b) == "_" + Sanitize(t + b))
      && (t == [] ==> Sanitize(a + b) == "_" + Sanitize(SkipNonWord(b)))
  {
    SanitizeRunHead(a, b);
    SkipNonWordAppend(a[1..], b);
  }

  /** The case of `SanitizeAppend` where `a` opens with a run of non-word characters that
      stops inside `a`: given the claim for the rest `t` of `a` after that run, it holds for `a`. */
  lemma SanitizeAppendRun(a: string, b: string)
    requires a != [] && !IsWordChar(a[0]) && SkipNonWord(a[1..]) != []
    requires var t := SkipNonWord(a[1..]); Sanitize(t + b) == Sanitize(t) + Sanitize(b)
    ensures Sanitize(a + b) == Sanitize(a) + Sanitize(b)
  {
    var t := SkipNonWord(a[1..]);
    SanitizeRunSplit(a, b);
    PrependAssoc("_", Sanitize(a + b), Sanitize(a), Sanitize(t), Sanitize(b));
  }

  /** The case of `SanitizeAppend` where `a` is a single run of non-word characters, so `b`
      must open with a word character. */
  lemma SanitizeAppendWholeRun(a: string, b: string)
    requires a != [] && !IsWordChar(a[0]) && SkipNonWord(a[1..]) == []
    requires b != [] && IsWordChar(b[0])
    ensures Sanitize(a + b) == Sanitize(a) + Sanitize(b)
  {
    SanitizeRunSplit(a, b);
    assert SkipNonWord(b) == b;
  }

  /** `get_attribute_name_by_key`: the base attribute name of a key.
      A key whose text begins with a digit gets `int_` in front, whatever its kind; otherwise a
      key that is not a string gets `data_`; then non-word runs are collapsed. The empty string
      has no first character, and the lookup of it raises `IndexError`. */
  function AttributeName(key: Key): (r: Result<string>)
    ensures r.Err? <==> key == KStr([])
    ensures r.Err? ==> r.error == IndexError
    ensures r.Ok? ==> r.value != [] && IsWordText(r.value)
  {
    var text := KeyText(key);
    SanitizeIsWordText("int_" + text);
    SanitizeIsWordText("data_" + text);
    SanitizeIsWordText(text);
    if |text| == 0 then Err(IndexError)
    else if IsDigit(text[0]) then Ok(Sanitize("int_" + text))
    else if !key.KStr? then Ok(Sanitize("data_" + text))
    else Ok(Sanitize(text))
  }

  /** The three cases of the derivation, with the prefix kept intact by sanitizing:
      `int_` wins over `data_`, and a string that does not start with a digit gets no prefix. */
  lemma AttributeNameCases(key: Key)
    requires key != KStr([])
    ensures var text := KeyText(key);
      && ((key.KInt? && key.i >= 0) || (key.KStr? && IsDigit(key.s[0])) ==>
            AttributeName(key) == Ok("int_" + Sanitize(text)))
      && ((key.KInt? && key.i < 0) || key.KBool? || key.KNone? ==>
            AttributeName(key) == Ok("data_" + Sanitize(text)))
      && (key.KStr? && !IsDigit(key.s[0]) ==> AttributeName(key) == Ok(Sanitize(key.s)))
  {
    var text := KeyText(key);
    SanitizeKeepsWordText("int_");
    SanitizeKeepsWordText("data_");
    SanitizeAppend("int_", text);
    SanitizeAppend("data_", text);
  }

  /** A derived name never starts with a digit, so it is usable as an attribute. */
  lemma AttributeNameStartsWell(key: Key)
    requires key != KStr([])
    ensures !IsDigit(AttributeName(key).value[0])
  {
    AttributeNameCases(key);
  }

  /** `attribute_name + "_" + str(i)`: the `i`-th numbered variant of a name. */
  function Suffixed(base: string, i: nat): string {
    base + "_" + NatToString(i)
  }

  /** Different numbers give different names. */
  lemma SuffixedInjective(base: string, i: nat, j: nat)
    ensures Suffixed(base, i) == Suffixed(base, j) ==> i == j
  {
    if Suffixed(base, i) == Suffixed(base, j) {
      var p := |base| + 1;
      assert Suffixed(base, i)[p..] == NatToString(i);
      assert Suffixed(base, j)[p..] == NatToString(j);
      NatToStringInjective(i, j);
    }
  }

  /** `name` may be given to `key`: no key holds it yet, or `key` itself does. */
  predicate FreeFor(index: map<string, Key>, name: string, key: Key) {
    name !in index || index[name] == key
  }

  ghost function SuffixedNames(base: string, m: nat): set<string> {
    set j | 1 <= j <= m :: Suffixed(base, j)
  }

  lemma {:induction false} SuffixedNamesSize(base: string, m: nat)
    ensures |SuffixedNames(base, m)| == m
  {
    if m > 0 {
      SuffixedNamesSize(base, m - 1);
      assert SuffixedNames(base, m) == SuffixedNames(base, m - 1) + {Suffixed(base, m)};
      forall j | 1 <= j <= m - 1
        ensures Suffixed(base, j) != Suffixed(base, m)
      {
        SuffixedInjective(base, j, m);
      }
    }
  }

  /** Pigeonhole: each occupied numbered name is a different entry of the finite index. */
  lemma TakenSuffixesBound(index: map<string, Key>, key: Key, base: string, m: nat)
    requires forall j :: 1 <= j <= m ==> !FreeFor(index, Suffixed(base, j), key)
    ensures m <= |index|
  {
    SuffixedNamesSize(base, m);
    var names := SuffixedNames(base, m);
    assert names <= index.Keys;
    assert index.Keys == names + (index.Keys - names);
  }

  function FirstFreeSuffixFrom(index: map<string, Key>, key: Key, base: string, i: nat): (n: nat)
    requires 1 <= i
    requires forall j :: 1 <= j < i ==> !FreeFor(index, Suffixed(base, j), key)
    ensures i <= n <= |index| + 1
    ensures FreeFor(index, Suffixed(base, n), key)
    ensures forall j :: 1 <= j < n ==> !FreeFor(index, Suffixed(base, j), key)
    decreases |index| + 1 - i
  {
    if FreeFor(index, Suffixed(base, i), key) then
      TakenSuffixesBound(index, key, base, i - 1);
      i
    else
      TakenSuffixesBound(index, key, base, i);
      FirstFreeSuffixFrom(index, key, base, i + 1)
  }

  /** The smallest `i >= 1` whose numbered name is free for `key`; it exists because the index
      is finite. */
  function SmallestFreeSuffix(index: map<string, Key>, key: Key, base: string): (n: nat)
    ensures 1 <= n <= |index| + 1
    ensures FreeFor(index, Suffixed(base, n), key)
    ensures forall j :: 1 <= j < n ==> !FreeFor(index, Suffixed(base, j), key)
  {
    FirstFreeSuffixFrom(index, key, base, 1)
  }

  /** Only one number is the smallest free one. */
  lemma SmallestFreeSuffixUnique(index: map<string, Key>, key: Key, base: string, n: nat)
    requires 1 <= n && FreeFor(index, Suffixed(base, n), key)
    requires forall j :: 1 <= j < n ==> !FreeFor(index, Suffixed(base, j), key)
    ensures n == SmallestFreeSuffix(index, key, base)
  {
  }

  /** The name `__setitem__` registers `key` under, given its base name: the base name itself
      when it is free for `key`, else the first free numbered variant; the holder of the base
      name keeps it. */
  function ResolvedName(index: map<string, Key>, key: Key, base: string): (name: string)
    ensures FreeFor(index, name, key)
    ensures name == base <==> FreeFor(index, base, key)
  {
    if FreeFor(index, base, key) then base
    else Suffixed(base, SmallestFreeSuffix(index, key, base))
  }

  /** The search loop of `__setitem__`: tries `base_1`, `base_2`, ... until one is free. */
  method ResolveAttributeName(index: map<string, Key>, key: Key, base: string)
    returns (name: string, n: nat)
    ensures 1 <= n && name == Suffixed(base, n) && FreeFor(index, name, key)
    ensures forall j :: 1 <= j < n ==> !FreeFor(index, Suffixed(base, j), key)
    ensures n == SmallestFreeSuffix(index, key, base)
  {
    n := 1;
    name := Suffixed(base, n);
    while !FreeFor(index, name, key)
      invariant 1 <= n <= |index| + 1
      invariant name == Suffixed(base, n)
      invariant forall j :: 1 <= j < n ==> !FreeFor(index, Suffixed(base, j), key)
      decreases |index| + 1 - n
    {
      TakenSuffixesBound(index, key, base, n);
      n := n + 1;
      name := Suffixed(base, n);
    }
    SmallestFreeSuffixUnique(index, key, base, n);
  }
}
