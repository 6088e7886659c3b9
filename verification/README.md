# DictObject, modelled in Dafny

DictObject is a Python `dict` subclass whose items can also be read and written
as attributes. Each key gets an attribute name derived from `str(key)`:

- a text starting with a digit gets `int_` in front;
- any other non-string key gets `data_` in front;
- every run of characters outside `[A-Za-z0-9_]` becomes one `_`.

When `__setitem__` stores a key whose name is already held by another key, the
new key gets the first free numbered variant (`name_1`, `name_2`, ...), and a
warning is printed. `merge_dict`, and with it the constructor and `+=`, does not
do this: it silently registers the base name for the later key. The
object keeps the mapping from attribute names to keys in
`_attribute_to_key_map`, called the *index* below. Values put into the object
are wrapped, so that nested dicts can be read by attribute too.

The repository ships two versions of the class, and both are modelled.

**The package** (`DictObject/__init__.py`):

- `objectify` wraps recursively. A plain dict becomes a `DictObject` and a list becomes a `DictObjectList`. A `DictObjectList` is a list that objectifies whatever is inserted into it.
- Names starting with `_` are ordinary instance attributes.

**The legacy module** (`__init__.py`):

- Wrapping copies a dict into a new `DictObject`, whose merge wraps each value again, so nested dicts are wrapped at every depth. A list or tuple keeps its type and gets one level only: its dict elements are wrapped, and a list or tuple directly inside it is rejected with `TypeError`.
- An attribute assignment stores the *unwrapped* value under the key the name is registered for.
- An empty index makes every attribute read return `None`.

## How the model is organised

- `keys.dfy` (`DictKeys`): keys (strings, integers, booleans, `None`) and their text.
- `results.dfy` (`Results`): `Option`, `Result` and the exceptions raised.
- `dicts.dfy` (`Dicts`): a dict as an ordered association list, with Python's semantics for setting, deleting and updating items.
- `naming.dfy` (`Naming`): the name derivation and the numbered-name search.
  - The search is a `while` loop, proved against a function that names the smallest free number.
  - That number exists because the index is finite.
- `values.dfy` (`Values`): values as immutable trees.
  - A `DictObject` is a mapping that carries its index.
  - `Plain` reads a value the way `==` compares it.
- `stores.dfy` (`Stores`): the two maps of an object, `__setitem__` and `__delitem__`. These are common to both versions; only the wrapping differs.
- `objectification.dfy` (`Objectification`): the package's `objectify`, the `merge_dict` loop and the constructor.
- `package_attributes.dfy` (`PackageAttributes`): the package's attribute access.
- `package_classes.dfy` (`PackageClasses`): the package's `DictObject` and `DictObjectList` as classes. Their fields are updated in place, and each method is proved equal to the functions above.
- `legacy.dfy` and `legacy_classes.dfy` (`Legacy`, `LegacyClasses`): the legacy wrapping, merge, constructor and attribute access, and the legacy class.
- `doc_examples.dfy` (`DocExamples`): the documented examples as lemmas.

Errors are values. Python's exceptions become `Err(...)`, or an `Outcome` that pairs the state a mutator leaves behind with the exception it raised. The library's methods raise part-way, after some writes, and the model keeps those writes.

## Model

| member | source | states |
|---|---|---|
| DictKeys.KeyText | DictObject/__init__.py:301-302 | `str(key)` is empty only for the empty string; the text of a non-string key starts with a digit exactly when the key is a non-negative integer |
| DictKeys.NatToString | DictObject/__init__.py:370 | `str(i)` of a number is a non-empty run of digits, one digit exactly below ten |
| DictKeys.ParseNatToString | DictObject/__init__.py:370 | the decimal text of a number reads back as that number |
| DictKeys.NatToStringInjective | DictObject/__init__.py:370 | different numbers print differently |
| Dicts.Get | DictObject/__init__.py:428 | a dict lookup finds a value exactly when the key is present |
| Dicts.Put | DictObject/__init__.py:314 | after `d[k] = v`, `k` maps to `v`, every other key is unchanged, the keys grow by `k`, an existing key leaves the length unchanged, and a dict with distinct keys keeps them distinct |
| Dicts.PutInPlace | DictObject/__init__.py:314 | writing a present key replaces its value where it stands, keeping the order of the other entries |
| Dicts.Remove | DictObject/__init__.py:386 | after `del d[k]`, `k` is absent and every other key is unchanged |
| Dicts.PutAll | DictObject/__init__.py:165-167 | `dict.__init__`/`update` with entries: the keys are the union, and the last entry for a key wins |
| Dicts.PutPut | DictObject/__init__.py:314 | a second write to a key replaces the first in place |
| Dicts.RemovePutFresh | DictObject/__init__.py:382-386 | deleting a key that was just added restores the dict |
| Dicts.PutAllDistinct | DictObject/__init__.py:165 | copying the items of a real dict into an empty one reproduces it |
| Dicts.GetLastAppend | DictObject/__init__.py:216-218 | writing `a` then `b`: a key of `b` ends with its last value in `b`, any other key with its last value in `a` |
| Naming.Sanitize | DictObject/__init__.py:310 | the substitution is empty exactly when its input is, and never longer |
| Naming.SanitizeIsWordText | DictObject/__init__.py:310 | the substitution leaves only word characters |
| Naming.SanitizeKeepsWordText | DictObject/__init__.py:310 | a valid name is left as it is |
| Naming.SanitizeIdempotent | DictObject/__init__.py:310 | substituting twice is substituting once |
| Naming.SanitizeRun | DictObject/__init__.py:310 | a whole run of non-word characters becomes a single `_` |
| Naming.SanitizeAppend | DictObject/__init__.py:310 | the substitution works piecewise across a word character |
| Naming.AttributeName | DictObject/__init__.py:301-311 | the derivation raises `IndexError` exactly for the empty string; otherwise it gives a non-empty name of word characters |
| Naming.AttributeNameCases | DictObject/__init__.py:302-310 | `int_` for a text that starts with a digit (this wins over `data_`); `data_` for other non-strings; no prefix for other strings; the prefix survives the substitution |
| Naming.AttributeNameStartsWell | DictObject/__init__.py:301-311 | a derived name never starts with a digit |
| Naming.SuffixedInjective | DictObject/__init__.py:370 | different numbers give different numbered names |
| Naming.SuffixedNamesSize | DictObject/__init__.py:370 | the first `m` numbered names are `m` distinct names |
| Naming.TakenSuffixesBound | DictObject/__init__.py:369-372 | the occupied numbered names cannot outnumber the index, so the search ends |
| Naming.FirstFreeSuffixFrom | DictObject/__init__.py:368-375 | counting up from `i` finds a free number, and every number before it is taken |
| Naming.SmallestFreeSuffix | DictObject/__init__.py:368-375 | the number the search stops at: free for the key, every smaller one taken, at most the index size plus one |
| Naming.SmallestFreeSuffixUnique | DictObject/__init__.py:368-375 | only one number has that property |
| Naming.ResolvedName | DictObject/__init__.py:363-376 | the registered name is free for the key; it is the base name exactly when the base name is free for the key |
| Naming.ResolveAttributeName | DictObject/__init__.py:368-375 | the search loop returns the smallest free numbered name |
| Values.Plain | DictObject/__init__.py:17-43 | `==` sees a `DictObject` as a dict and a `DictObjectList` as a list: the plain view has neither, and it keeps mappings and sequences apart |
| Values.Iterate | DictObject/__init__.py:29-31 | `for x in v` gives the elements of a sequence, the keys of a mapping in order and the one-character strings of a string; numbers, booleans and `None` raise `TypeError` |
| Stores.Lookup | DictObject/__init__.py:428 | `dict.__getitem__` returns the stored value, or raises `KeyError(key)` |
| Stores.Warning | DictObject/__init__.py:365-376 | a warning is printed exactly when the base name is held by another key; it names the key, its base name, the key that holds the base name, and the resolved numbered name, which differs from the base |
| Stores.SetItem | DictObject/__init__.py:362-380 | the name derivation may raise first and the wrapping next, both before any write. Otherwise the key holds the wrapped value, it is registered under its resolved name, and nothing else changes. Items stay resolvable and keys stay distinct |
| Stores.SetItemKeepsHolder | DictObject/__init__.py:365-379 | after a collision the holder keeps the base name and the new key gets the numbered name |
| Stores.SetItemOwnName | DictObject/__init__.py:365 | re-assigning a key that holds its base name warns nothing and leaves the index as it is |
| Stores.SetItemIdempotent | DictObject/__init__.py:362-379 | assigning the same item twice gives the state, and the warning, of one assignment |
| Stores.DelItem | DictObject/__init__.py:382-387 | an unregistered base name raises `KeyError` before any change. Otherwise the base name's registration goes, whichever key holds it. A missing item then raises `KeyError(key)`; else the item goes and nothing else changes |
| Stores.DelItemUndoesSetItem | DictObject/__init__.py:362-387 | deleting a key just added under a free base name restores the state |
| Objectification.Objectify | DictObject/__init__.py:175-185 | fails (`IndexError`) exactly when a plain dict outside any `DictObject` has the key `''`. A scalar or a `DictObject` is returned as is; a dict becomes a `DictObject`; a list becomes a `DictObjectList` and a tuple a tuple, each of the same length |
| Objectification.ObjectifyAll | DictObject/__init__.py:179-181 | the elements of a list or tuple, each objectified, in order; the first failure propagates |
| Objectification.MergeEntries | DictObject/__init__.py:216-219 | the merge loop fails exactly when some entry has the key `''`, at any depth; it keeps keys distinct |
| Objectification.MergeEntriesInPlace | DictObject/__init__.py:163-172 | merging a real dict over its own raw copy objectifies each value in its place |
| Objectification.ObjectifyDictEntries | DictObject/__init__.py:182-183 | `DictObject(d)` has the keys of `d` in order, each value objectified |
| Objectification.ObjectifyPreservesContent | DictObject/__init__.py:175-185 | objectifying changes nothing `==` can see |
| Objectification.ObjectifyAllPreservesContent | DictObject/__init__.py:179-181 | the same, element by element |
| Objectification.ObjectifyObjectifies | DictObject/__init__.py:175-185 | after objectifying, every plain dict and list reachable outside a `DictObject` has been converted |
| Objectification.ObjectifyAllObjectifies | DictObject/__init__.py:179-181 | the same, element by element |
| Objectification.ObjectifyFixpoint | DictObject/__init__.py:175-185 | an already objectified value comes back unchanged |
| Objectification.ObjectifyAllFixpoint | DictObject/__init__.py:179-181 | the same, element by element |
| Objectification.ObjectifyIdempotent | DictObject/__init__.py:175-185 | objectifying twice is objectifying once |
| Objectification.MergeEntriesItems | DictObject/__init__.py:216-218 | a merge that goes through holds, for each key seen, the objectified value of its last entry, and leaves other items unchanged |
| Objectification.MergeEntriesNames | DictObject/__init__.py:216-219 | each derived name ends up registered for the last key deriving it; other names are unchanged |
| Objectification.MergeEntriesStopsAtFailure | DictObject/__init__.py:216-219 | a failing merge has written exactly the entries before the first failing one |
| Objectification.MergeValue | DictObject/__init__.py:213-219 | `merge_dict` raises `TypeError` for a non-dict before anything changes |
| Objectification.MergeArgs | DictObject/__init__.py:170-171 | the merge of all positional arguments goes through only if each is a dict; keys stay distinct (its contents: `MergeArgsIsMergeEntries`) |
| Objectification.KwEntries | DictObject/__init__.py:169 | `dict(**kwargs)`: one string key per keyword, in order |
| Objectification.RawEntries | DictObject/__init__.py:164-167 | the raw fill fails with `TypeError` exactly for one non-dict positional argument; its keys are distinct |
| Objectification.Construct | DictObject/__init__.py:163-172 | a constructed object came from dict arguments only, and its keys are distinct (its contents: `ConstructContents`) |
| Objectification.ObjectifyIsConstructor | DictObject/__init__.py:182-183 | objectifying a dict is `DictObject(d)`: the same state, or the same error |
| Objectification.MergeArgsLastWins | DictObject/__init__.py:170-171 | the last positional argument wins for its keys |
| Objectification.ConstructLaterWins | DictObject/__init__.py:163-172 | a keyword argument wins over every positional argument, and the last positional argument over the others |
| Objectification.MergeEntriesAppend | DictObject/__init__.py:216-219 | merging `a + b` is merging `a`, then `b` unless `a` raised |
| Objectification.MergeArgsIsMergeEntries | DictObject/__init__.py:170-171 | with dict arguments, the loop over them is one merge of all their entries in order, with the same outcome |
| Objectification.ConstructIsOneMerge | DictObject/__init__.py:163-172 | with dict arguments, the constructor raises exactly when one merge of every source's entries into the raw fill raises, and otherwise leaves that merge's state |
| Objectification.ConstructContents | DictObject/__init__.py:163-172 | the constructed keys are exactly the union of all sources' keys; each holds the objectified value from the last source that has it; each base name goes to the last key deriving it, and no other name is registered |
| Objectification.ConstructSourceWins | DictObject/__init__.py:170-172 | a key of positional argument `i` that no later argument or keyword has keeps argument `i`'s value, objectified |
| PackageAttributes.SetAttr | DictObject/__init__.py:391-404 | a private name becomes a plain instance attribute. Otherwise the objectified value is stored under the name's string and under the key it is registered for, and the name is registered; an objectify failure changes nothing. Private attributes and resolvability are preserved |
| PackageAttributes.GetAttr | DictObject/__init__.py:406-448 | an instance attribute first; otherwise the registered key's item; otherwise `AttributeError(name)`, in particular with an empty index |
| PackageAttributes.DelAttr | DictObject/__init__.py:450-471 | the instance attribute goes. An unregistered name changes nothing more. A registered key without an item raises `KeyError`. Otherwise the item and the registration go |
| PackageAttributes.Contains | DictObject/__init__.py:495-498 | a non-string is contained exactly when it is a key; any present key is contained; a string that is not a key is contained exactly when it is an instance attribute or a registered name whose key has an item |
| PackageAttributes.SetAttrThenGet | DictObject/__init__.py:391-448 | an attribute just set reads back objectified, both as an attribute and as the item of its name; a private one reads back as given |
| PackageAttributes.SetItemThenGetAttr | DictObject/__init__.py:362-448 | an item just set is contained and readable under its resolved name |
| PackageAttributes.DelAttrUndoesSetAttr | DictObject/__init__.py:391-471 | deleting a fresh attribute restores the object |
| PackageClasses.DictObject.New | DictObject/__init__.py:163-172 | the constructor's loops give exactly `Construct`'s result, in a fresh object |
| PackageClasses.DictObject.MergeDict | DictObject/__init__.py:213-219 | the merge loop leaves exactly `MergeValue`'s state and error |
| PackageClasses.DictObject.IAdd | DictObject/__init__.py:221-223 | `+=` merges and returns the object itself |
| PackageClasses.DictObject.SetItem | DictObject/__init__.py:362-380 | leaves exactly `Stores.SetItem`'s state and error with the objectified value, and returns `Warning`'s warning |
| PackageClasses.DictObject.DelItem | DictObject/__init__.py:382-387 | leaves exactly `Stores.DelItem`'s state and error |
| PackageClasses.DictObject.SetAttr | DictObject/__init__.py:391-404 | leaves exactly `PackageAttributes.SetAttr`'s state and error |
| PackageClasses.DictObject.DelAttr | DictObject/__init__.py:450-471 | leaves exactly `PackageAttributes.DelAttr`'s state and error |
| PackageClasses.InsertionPoint | DictObject/__init__.py:21-23 | `list.insert` counts a negative index from the end and clamps to the list |
| PackageClasses.InsertAt | DictObject/__init__.py:21-23 | the list grows by one, with the new value at the insertion point and everything else shifted |
| PackageClasses.InsertAtEndIsAppend | DictObject/__init__.py:21-35 | inserting at or past the end is appending |
| PackageClasses.ListPosition | DictObject/__init__.py:37-39 | `lst[i]` is valid exactly for `-len <= i < len`; a negative index counts from the end |
| PackageClasses.IterateObjectified | DictObject/__init__.py:29-31 | iterating an objectified value yields objectified values |
| PackageClasses.DictObjectList.Insert | DictObject/__init__.py:21-23 | the objectified value is inserted; an objectify failure changes nothing; elements stay objectified |
| PackageClasses.DictObjectList.Append | DictObject/__init__.py:33-35 | the objectified value is appended; elements stay objectified |
| PackageClasses.DictObjectList.Extend | DictObject/__init__.py:29-31 | what the objectified argument yields is appended; an objectify or iteration failure changes nothing |
| PackageClasses.DictObjectList.IAdd | DictObject/__init__.py:25-27 | as `extend`, returning the list itself |
| PackageClasses.DictObjectList.SetItem | DictObject/__init__.py:37-39 | the value is objectified first, then the position is checked (`IndexError`); exactly that element changes |
| Legacy.Wrap | __init__.py:226-232 | wrapping fails exactly when a key has no name or a list or tuple holds a list or tuple; scalars stay; a mapping becomes a new `DictObject`; a sequence keeps its kind and length |
| Legacy.WrapElems | __init__.py:227-228 | the elements of a list or tuple: mappings become `DictObject`s, scalars stay, and no element is a sequence |
| Legacy.MergeEntries | __init__.py:129-132 | the merge loop fails exactly when some entry is rejected by the wrapping; keys stay distinct |
| Legacy.MergeEntriesItems | __init__.py:129-132 | a merge that goes through holds, for each key seen, the wrapped value of its last entry, and leaves other items unchanged |
| Legacy.MergeEntriesNames | __init__.py:129-132 | each derived name ends up registered for the last key deriving it, with no numbered variant; other names are unchanged |
| Legacy.MergeEntriesAppend | __init__.py:129-132 | merging `a + b` is merging `a`, then `b` unless `a` raised |
| Legacy.MergeValue | __init__.py:126-132 | a non-dict raises `TypeError` before anything changes |
| Legacy.MergeArgs | __init__.py:95-96 | the positional merge goes through only if each argument is a dict (its contents: `Legacy.MergeArgsIsMergeEntries`) |
| Legacy.Construct | __init__.py:89-98 | a constructed object came from dict arguments only, and its keys are distinct (its contents: `Legacy.ConstructContents`) |
| Legacy.MergeArgsIsMergeEntries | __init__.py:95-96 | with dict arguments, the loop over them is one legacy merge of all their entries in order |
| Legacy.ConstructIsOneMerge | __init__.py:89-98 | with dict arguments, the constructor raises exactly when one legacy merge of every source's entries raises, and otherwise leaves that merge's state |
| Legacy.ConstructContents | __init__.py:89-98 | the constructed keys are exactly the union of all sources' keys; each holds the wrapped value from the last source that has it; each base name goes to the last key deriving it, and no other name is registered |
| Legacy.ConstructSourceWins | __init__.py:95-98 | a key of positional argument `i` that no later argument or keyword has keeps argument `i`'s value, wrapped |
| Legacy.WrapIsConstructor | __init__.py:229-230 | wrapping a dict is calling the constructor on it |
| Legacy.MergeEntriesInPlace | __init__.py:129-131 | over the raw copy of a real dict, the legacy merge replaces each value by its wrapped form where it stands |
| Legacy.WrapDictEntries | __init__.py:229-230 | the legacy `DictObject(d)` has the entries of `d` in order, each value wrapped |
| Legacy.WrapPreservesContent | __init__.py:226-232 | a wrapped value is `==` to its input, with dicts wrapped at every depth |
| Legacy.ConstructPreservesContent | __init__.py:36-37 | `DictObject(a) == a` for a real dict the constructor accepts |
| Legacy.WrapOneLevel | __init__.py:227-228 | a list or tuple directly inside a list or tuple makes wrapping fail, where the package's `objectify` goes through |
| Legacy.SetAttr | __init__.py:294-306 | the wrapped value goes under the name's string, the unwrapped value under the registered key, and the name is registered; a wrapping failure changes nothing |
| Legacy.GetAttr | __init__.py:308-326 | `None` while the index is empty; otherwise the registered key's item, else `AttributeError(name)` |
| Legacy.DelAttr | __init__.py:328-331 | an unregistered name or a missing item raises `KeyError` before any change; otherwise the item and the registration go |
| Legacy.Contains | __init__.py:355-358 | a non-string is contained exactly when it is a key; with an empty index every string is contained; otherwise a string that is not a key is contained exactly when it is a registered name whose key has an item |
| Legacy.SetAttrStoresRaw | __init__.py:294-306 | a first-time attribute reads back unwrapped, as attribute and as item, so a dict assigned stays a plain dict |
| Legacy.SetItemThenGetAttr | __init__.py:269-326 | an item set by `[]` reads back wrapped under its resolved name |
| Legacy.DelAttrUndoesSetAttr | __init__.py:294-331 | deleting a fresh attribute restores the object |
| LegacyClasses.DictObject.New | __init__.py:89-98 | the constructor's loops give exactly `Legacy.Construct`'s result |
| LegacyClasses.DictObject.MergeDict | __init__.py:126-132 | the loop leaves exactly `Legacy.MergeValue`'s state and error |
| LegacyClasses.DictObject.IAdd | __init__.py:134-136 | `+=` merges and returns the object itself |
| LegacyClasses.DictObject.SetItem | __init__.py:269-285 | leaves exactly `Stores.SetItem`'s state and error with the legacy wrapping, and returns the warning |
| LegacyClasses.DictObject.DelItem | __init__.py:287-290 | leaves exactly `Stores.DelItem`'s state and error |
| LegacyClasses.DictObject.SetAttr | __init__.py:294-306 | leaves exactly `Legacy.SetAttr`'s state and error |
| LegacyClasses.DictObject.DelAttr | __init__.py:328-331 | leaves exactly `Legacy.DelAttr`'s state and error |
| DocExamples.NonStringNames | DictObject/__init__.py:235-262 | `2` is `int_2`, `False` is `data_False`, `None` is `data_None` |
| DocExamples.DigitLedName | DictObject/__init__.py:244-246 | `"2abc345"` is `int_2abc345` |
| DocExamples.SanitizedNames | DictObject/__init__.py:266-268 | `'foo-2.4;"'` is `foo_2_4_`; `foo-:-bar` and `foo...bar` are both `foo_bar` |
| DocExamples.CollisionOfOneAndStringOne | DictObject/__init__.py:290-296 | after `b[1]`, `b['1']` gets `int_1_1` with the documented warning |
| DocExamples.CollisionOfSanitizedStrings | DictObject/__init__.py:612-614 | `foo...bar` after `foo-:-bar` gets `foo_bar_1` |
| DocExamples.DelItemAfterCollision | DictObject/__init__.py:382-387 | after `b["1"]`, `b[1]` and `del b[1]`, the index loses `int_1`, which named `"1"`, and keeps `int_1_1`, which names the deleted key |
| DocExamples.PoniesConstructed | DictObject/__init__.py:477 | `DictObject(ponies=v)` holds the one item `ponies`, registered under `ponies` |
| DocExamples.ContainsPonies | DictObject/__init__.py:477-480 | then `'ponies' in b` is true and `'foo' in b` is false |
| DocExamples.LegacyContainsPonies | __init__.py:336-340 | the same two answers in the legacy class |

## Left out

- Printing: the collision warning is returned as a `Collision` value, and the legacy `__getattr__` diagnostic is not modelled.
- The encoding helper `n` and Python 2 are not modelled. `n` is read as the identity on Python 3 strings, where the derivation's string test is `isinstance(key, str)`.
- `\W` and `str.isdigit` are read on ASCII only. Unicode letters and digits are not modelled.
- Keys are strings, integers, booleans and `None`. Python's `1 == True` equality between keys is not modelled.
- Aliasing: values are immutable trees. A nested `DictObject` changed through another reference is not modelled, and neither are the instance attributes of nested objects.
- The package's hooks `on_set`, `after_set`, `on_get`, `after_get`, `on_del` and `after_del` are fixed at their defaults.
- Attribute lookup that succeeds before `__getattr__` runs is not modelled. This covers dict methods and class attributes such as `keys`, which shadow a key's name and make `hasattr` true.
- The code after the `return` in the package's `_add_to_object_part` never runs and is not modelled.
- `__repr__` and Python's order-insensitive dict equality are not modelled. `Plain` compares entries in order, which is stronger.
- `dict(x)` on a lone non-dict positional argument may raise `ValueError`, or succeed before `merge_dict` raises `TypeError`. The model raises `TypeError`. In the legacy wrapping, a list inside a list may likewise raise `ValueError`, and the model says `TypeError`.
- Assigning, deleting or reading the attribute `_attribute_to_key_map` itself is not modelled. It replaces or exposes the index.
- PackageAttributes.SetAttr: requires the name not to be `_attribute_to_key_map`, because assigning it replaces the index.
- Legacy.SetAttr: requires the name not to be `_attribute_to_key_map`, for the same reason.
- PackageAttributes.GetAttr: returns the index's item for the name `_attribute_to_key_map` rather than the index itself.
- PackageAttributes.DelAttr: requires the name not to be `_attribute_to_key_map`, because deleting it removes the index.
- PackageClasses.DictObject.SetAttr: carries the same requirement as `PackageAttributes.SetAttr`.
- PackageClasses.DictObject.DelAttr: carries the same requirement as `PackageAttributes.DelAttr`.
- LegacyClasses.DictObject.SetAttr: carries the same requirement as `Legacy.SetAttr`.
- Slice assignment, deletion and the other list methods of `DictObjectList` are not modelled; only the five overridden mutators are.
- Legacy.Construct: for a lone non-dict argument, `dict.__init__` may raise before the index exists. The model folds this into the `TypeError` of `RawEntries`.
