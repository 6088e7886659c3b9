/**
 * The worked examples of the library's documentation, restated as lemmas about
 * the model: attribute names of sample keys, the numbered name a colliding key
 * receives, and what `__delitem__` does to the index after a collision.
 */
module DocExamples {
  import opened DictKeys
  import opened Results
  import opened Dicts
  import opened Naming
  import opened Values
  import opened Stores
  import Objectification
  import PackageAttributes
  import Legacy

  lemma KeptAsIs(s: string)
    requires IsWordText(s)
    ensures Sanitize(s) == s
  {
    SanitizeKeepsWordText(s);
  }

  /** A valid name in front passes through sanitizing untouched. */
  lemma WordPrefix(w: string, s: string, r: string)
    requires w != [] && IsWordText(w) && Sanitize(s) == r
    ensures Sanitize(w + s) == w + r
  {
    SanitizeAppend(w, s);
    SanitizeKeepsWordText(w);
  }

  /** A non-word character before a word character becomes one underscore. */
  lemma RunBeforeWord(c: char, s: string)
    requires !IsWordChar(c) && s != [] && IsWordChar(s[0])
    ensures Sanitize([c] + s) == "_" + Sanitize(s)
  {
    SanitizeCons(c, s);
  }

  lemma FalseText()
    ensures KeyText(KBool(false)) == "False" && "data_" + "False" == "data_False"
    ensures IsWordText("data_False")
  {
  }

  lemma NoneText()
    ensures KeyText(KNone) == "None" && "data_" + "None" == "data_None"
    ensures IsWordText("data_None")
  {
  }

  /** `2` maps to `int_2`, `False` to `data_False` and `None` to `data_None`. */
  lemma NonStringNames()
    ensures AttributeName(KInt(2)) == Ok("int_2")
    ensures AttributeName(KBool(false)) == Ok("data_False")
    ensures AttributeName(KNone) == Ok("data_None")
  {
    assert KeyText(KInt(2)) == "2";
    assert "int_" + "2" == "int_2";
    KeptAsIs("int_2");
    FalseText();
    KeptAsIs("data_False");
    NoneText();
    KeptAsIs("data_None");
  }

  lemma IntOneName()
    ensures AttributeName(KInt(1)) == Ok("int_1") && AttributeName(KStr("1")) == Ok("int_1")
    ensures Suffixed("int_1", 1) == "int_1_1"
  {
    assert KeyText(KInt(1)) == "1" && KeyText(KStr("1")) == "1";
    assert "int_" + "1" == "int_1";
    KeptAsIs("int_1");
    assert NatToString(1) == "1";
  }

  lemma DigitLedName()
    ensures AttributeName(KStr("2abc345")) == Ok("int_2abc345")
  {
    assert KeyText(KStr("2abc345")) == "2abc345";
    assert "int_" + "2abc345" == "int_2abc345";
    assert IsWordText("int_2abc345");
    KeptAsIs("int_2abc345");
  }

  lemma SanitizeFourTail()
    ensures Sanitize("4;\"") == "4_"
  {
    SanitizeRun(";\"");
    assert "4;\"" == ['4'] + ";\"";
    SanitizeCons('4', ";\"");
  }

  lemma SanitizeDotFourTail()
    ensures Sanitize(".4;\"") == "_4_"
  {
    SanitizeFourTail();
    assert ".4;\"" == ['.'] + "4;\"";
    RunBeforeWord('.', "4;\"");
  }

  lemma SanitizeTwoDotFourTail()
    ensures Sanitize("2.4;\"") == "2_4_"
  {
    SanitizeDotFourTail();
    assert "2.4;\"" == ['2'] + ".4;\"";
    SanitizeCons('2', ".4;\"");
  }

  lemma SanitizeDashDecimal()
    ensures Sanitize("-2.4;\"") == "_2_4_"
  {
    SanitizeTwoDotFourTail();
    assert "-2.4;\"" == ['-'] + "2.4;\"";
    RunBeforeWord('-', "2.4;\"");
  }

  lemma SanitizeFooDecimal()
    ensures Sanitize("foo-2.4;\"") == "foo_2_4_"
  {
    SanitizeDashDecimal();
    WordPrefix("foo", "-2.4;\"", "_2_4_");
    assert "foo-2.4;\"" == "foo" + "-2.4;\"";
    assert "foo_2_4_" == "foo" + "_2_4_";
  }

  lemma SanitizeDashBar()
    ensures Sanitize("-:-bar") == "_bar"
  {
    assert "-:-bar" == ['-'] + ":-bar";
    SanitizeCons('-', ":-bar");
    assert SkipNonWord(":-bar") == "bar";
    SanitizeKeepsWordText("bar");
  }

  lemma SanitizeFooDashBar()
    ensures Sanitize("foo-:-bar") == "foo_bar"
  {
    SanitizeDashBar();
    WordPrefix("foo", "-:-bar", "_bar");
    assert "foo-:-bar" == "foo" + "-:-bar";
    assert "foo_bar" == "foo" + "_bar";
  }

  lemma SanitizeDotsBar()
    ensures Sanitize("...bar") == "_bar"
  {
    assert "...bar" == ['.'] + "..bar";
    SanitizeCons('.', "..bar");
    assert SkipNonWord("..bar") == "bar";
    SanitizeKeepsWordText("bar");
  }

  lemma SanitizeFooDotsBar()
    ensures Sanitize("foo...bar") == "foo_bar"
  {
    SanitizeDotsBar();
    WordPrefix("foo", "...bar", "_bar");
    assert "foo...bar" == "foo" + "...bar";
    assert "foo_bar" == "foo" + "_bar";
  }

  lemma FooBarNames()
    ensures AttributeName(KStr("foo-:-bar")) == Ok("foo_bar")
    ensures AttributeName(KStr("foo...bar")) == Ok("foo_bar")
  {
    SanitizeFooDashBar();
    SanitizeFooDotsBar();
  }

  lemma FooBarSuffixed()
    ensures Suffixed("foo_bar", 1) == "foo_bar_1"
  {
    assert NatToString(1) == "1";
  }

  /** Every run of non-word characters becomes one underscore. */
  lemma SanitizedNames()
    ensures AttributeName(KStr("foo-2.4;\"")) == Ok("foo_2_4_")
    ensures AttributeName(KStr("foo-:-bar")) == Ok("foo_bar")
    ensures AttributeName(KStr("foo...bar")) == Ok("foo_bar")
  {
    SanitizeFooDecimal();
    SanitizeFooDashBar();
    SanitizeFooDotsBar();
  }

  /** After `b[1] = "a"`, the assignment `b["1"] = "b"` is mapped to `int_1_1` with a warning,
      and `int_1` still leads to the key `1`. */
  lemma CollisionOfOneAndStringOne(x: Value, y: Value)
    ensures var first := SetItem(Empty, KInt(1), Ok(x)).store;
      && first.index == map["int_1" := KInt(1)]
      && Warning(first, KStr("1")) == Some(Collision(KStr("1"), "int_1_1", "int_1", KInt(1)))
      && SetItem(first, KStr("1"), Ok(y)).store.index == map["int_1" := KInt(1), "int_1_1" := KStr("1")]
  {
    IntOneName();
    var first := SetItem(Empty, KInt(1), Ok(x)).store;
    assert first.index == map["int_1" := KInt(1)];
    SmallestFreeSuffixUnique(first.index, KStr("1"), "int_1", 1);
  }

  /** `foo...bar` after `foo-:-bar` is mapped to `foo_bar_1`. */
  lemma CollisionOfSanitizedStrings(x: Value, y: Value)
    ensures var first := SetItem(Empty, KStr("foo-:-bar"), Ok(x)).store;
      SetItem(first, KStr("foo...bar"), Ok(y)).store.index ==
        map["foo_bar" := KStr("foo-:-bar"), "foo_bar_1" := KStr("foo...bar")]
  {
    FooBarNames();
    FooBarSuffixed();
    var first := SetItem(Empty, KStr("foo-:-bar"), Ok(x)).store;
    assert first.index == map["foo_bar" := KStr("foo-:-bar")];
    SmallestFreeSuffixUnique(first.index, KStr("foo...bar"), "foo_bar", 1);
  }

  /** After `b["1"]`, `b[1]` and `del b[1]`, the item of `1` is gone but the index has lost
      `int_1`, which belonged to `"1"`, and kept `int_1_1`, which still names the deleted key
      `1`: `__delitem__` deletes the base name's registration, whichever key holds it. */
  lemma DelItemAfterCollision(x: Value, y: Value)
    ensures var first := SetItem(Empty, KStr("1"), Ok(x)).store;
      var second := SetItem(first, KInt(1), Ok(y)).store;
      var after := DelItem(second, KInt(1));
      && after.error.None?
      && after.store.index == map["int_1_1" := KInt(1)]
      && KInt(1) !in Keys(after.store.entries)
      && Lookup(after.store, KStr("1")) == Ok(x)
      && !Resolvable(after.store)
  {
    IntOneName();
    var first := SetItem(Empty, KStr("1"), Ok(x)).store;
    assert first.index == map["int_1" := KStr("1")];
    SmallestFreeSuffixUnique(first.index, KInt(1), "int_1", 1);
    var second := SetItem(first, KInt(1), Ok(y)).store;
    assert second.index == map["int_1" := KStr("1"), "int_1_1" := KInt(1)];
    assert second.index - {"int_1"} == map["int_1_1" := KInt(1)];
  }

  lemma PoniesName()
    ensures AttributeName(KStr("ponies")) == Ok("ponies")
  {
    KeptAsIs("ponies");
  }

  /** `DictObject(ponies='are pretty!')` holds the one item `ponies` under its own name. */
  lemma PoniesConstructed(v: Value)
    requires v.Scalar?
    ensures Objectification.Construct([], [("ponies", v)]) ==
      Ok(Store([(KStr("ponies"), v)], map["ponies" := KStr("ponies")]))
  {
    PoniesName();
    var kw := Objectification.KwEntries([("ponies", v)]);
    assert kw == [(KStr("ponies"), v)];
    assert kw[1..] == [];
    assert Put([], KStr("ponies"), v) == [(KStr("ponies"), v)];
    assert PutAll([], kw) == PutAll([(KStr("ponies"), v)], kw[1..]);
    assert Objectification.RawEntries([], [("ponies", v)]) == Ok([(KStr("ponies"), v)]);
    var st := Store([(KStr("ponies"), v)], map[]);
    assert Objectification.MergeArgs(st, []) == Outcome(st, None);
    assert Objectification.MergeEntries(st, kw) ==
      Objectification.MergeEntries(Store([(KStr("ponies"), v)], map["ponies" := KStr("ponies")]), kw[1..]);
  }

  /** After `b = DictObject(ponies='are pretty!')`, `'ponies' in b` holds and `'foo' in b` does
      not. */
  lemma ContainsPonies(v: Value)
    requires v.Scalar?
    ensures var b := PackageAttributes.State(Objectification.Construct([], [("ponies", v)]).value, map[]);
      && PackageAttributes.Contains(b, KStr("ponies"))
      && !PackageAttributes.Contains(b, KStr("foo"))
  {
    PoniesConstructed(v);
    var entries: seq<(Key, Value)> := [(KStr("ponies"), v)];
    assert KStr("ponies") in Keys(entries);
    assert KStr("foo") !in Keys(entries) by {
      assert entries[1..] == [];
    }
  }

  /** The same in the legacy class: its constructor registers `ponies`, so the index is not
      empty and `'foo' in b` is false there too. */
  lemma LegacyContainsPonies(v: Value)
    requires v.Scalar?
    ensures var b := Legacy.Construct([], [("ponies", v)]);
      && b == Ok(Store([(KStr("ponies"), v)], map["ponies" := KStr("ponies")]))
      && Legacy.Contains(b.value, KStr("ponies"))
      && !Legacy.Contains(b.value, KStr("foo"))
  {
    PoniesName();
    var kw := Objectification.KwEntries([("ponies", v)]);
    assert kw == [(KStr("ponies"), v)];
    assert kw[1..] == [];
    assert Put([], KStr("ponies"), v) == [(KStr("ponies"), v)];
    assert PutAll([], kw) == PutAll([(KStr("ponies"), v)], kw[1..]);
    var st := Store([(KStr("ponies"), v)], map[]);
    assert Legacy.MergeArgs(st, []) == Outcome(st, None);
    assert Legacy.MergeEntries(st, kw) ==
      Legacy.MergeEntries(Store([(KStr("ponies"), v)], map["ponies" := KStr("ponies")]), kw[1..]);
    var entries: seq<(Key, Value)> := [(KStr("ponies"), v)];
    assert KStr("foo") !in Keys(entries) by {
      assert entries[1..] == [];
    }
  }
}
