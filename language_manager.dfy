// Message lookup (language/LanguageManager.java): the language file's
// "messages" section flattened into a table of dot-joined keys, lookup with
// a fallback text, and "{key}" placeholder substitution. The parsed
// configuration, the iteration order of a placeholder map and the colour
// translation `colorize` are parameters.

module Language {
  import opened Wrappers
  import opened Text

  /** The text `getMessage` returns for a key with no message, as the source
      spells it (a mis-encoded section sign followed by the colour code). */
  const MISSING_MESSAGE: string := "\U{00C2}\U{00A7}cMissing message: "

  /** The prefix used when the language file sets none. */
  const DEFAULT_PREFIX: string := "&8[&2Herbalism&8] &r"

  /** A configuration section: its keys in file order, each with a nested
      section, a list of strings, or a single value (None for a YAML null). */
  datatype Section = Section(entries: seq<Entry>)
  datatype Entry = Entry(key: string, value: Value)
  datatype Value = Nested(section: Section) | StringList(items: seq<string>) | Scalar(text: Option<string>)

  /** A parsed language file: the value `getString("messages.prefix")` reads,
      and the "messages" section, None when it is missing. */
  datatype LanguageConfig = LanguageConfig(prefixSetting: Option<string>, messagesSection: Option<Section>)

  /** What a list or single value is stored as: a list's lines joined by
      "\n", a single value as it is. */
  function LeafText(v: Value): Option<string>
    requires !v.Nested?
  {
    if v.StringList? then Some(Join(v.items, '\n')) else v.text
  }

  /** The table after visiting the first `n` entries of `s` under `path`:
      each nested section is flattened under "path.key", each other entry
      is stored at "path.key", a later entry overwriting an earlier one. */
  function FlattenSection(m: map<string, Option<string>>, s: Section, path: string, n: nat): map<string, Option<string>>
    requires n <= |s.entries|
    decreases s, n
  {
    if n == 0 then m
    else
      var before := FlattenSection(m, s, path, n - 1);
      var e := s.entries[n - 1];
      assert e in s.entries;
      if e.value.Nested? then FlattenSection(before, e.value.section, path + "." + e.key, |e.value.section.entries|)
      else before[path + "." + e.key := LeafText(e.value)]
  }

  /** The table a section flattens to from `m`. */
  function Flatten(m: map<string, Option<string>>, s: Section, path: string): map<string, Option<string>>
  {
    FlattenSection(m, s, path, |s.entries|)
  }

  /** The messages a language file loads: nothing without a "messages"
      section. */
  function LoadedMessages(config: LanguageConfig): map<string, Option<string>>
  {
    if config.messagesSection.None? then map[] else Flatten(map[], config.messagesSection.value, "messages")
  }

  /** Keys are free of dots and distinct within each section, at every
      depth, as they are in a YAML mapping read with `getKeys(false)`. */
  predicate WellFormed(s: Section)
    decreases s
  {
    (forall i :: 0 <= i < |s.entries| ==> '.' !in s.entries[i].key) &&
    (forall i, j :: 0 <= i < j < |s.entries| ==> s.entries[i].key != s.entries[j].key) &&
    (forall i :: 0 <= i < |s.entries| && s.entries[i].value.Nested? ==>
      s.entries[i] in s.entries && WellFormed(s.entries[i].value.section))
  }

  lemma PrefixOfLonger(k: string, a: string, b: string)
    requires StartsWith(k, a + b)
    ensures StartsWith(k, a)
  {
    assert k[..|a|] == (a + b)[..|a|];
  }

  /** Every key the flattening adds starts with the path and a dot. */
  lemma {:induction false} KeysUnderPath(m: map<string, Option<string>>, s: Section, path: string, n: nat)
    requires n <= |s.entries|
    ensures forall k :: k in FlattenSection(m, s, path, n) ==> k in m || StartsWith(k, path + ".")
    decreases s, n
  {
    if n > 0 {
      KeysUnderPath(m, s, path, n - 1);
      var before := FlattenSection(m, s, path, n - 1);
      var e := s.entries[n - 1];
      assert e in s.entries;
      if e.value.Nested? {
        var sub := path + "." + e.key;
        KeysUnderPath(before, e.value.section, sub, |e.value.section.entries|);
        forall k | k in FlattenSection(m, s, path, n) && k !in before
          ensures StartsWith(k, path + ".")
        {
          assert sub + "." == (path + ".") + (e.key + ".");
          PrefixOfLonger(k, path + ".", e.key + ".");
        }
      } else {
        assert (path + "." + e.key)[..|path + "."|] == path + ".";
      }
    }
  }

  /** Keys outside "path." are left as they were. */
  lemma {:induction false} FlattenFrame(m: map<string, Option<string>>, s: Section, path: string, n: nat, k: string)
    requires n <= |s.entries|
    requires !StartsWith(k, path + ".")
    ensures k in FlattenSection(m, s, path, n) <==> k in m
    ensures k in m ==> FlattenSection(m, s, path, n)[k] == m[k]
    decreases s, n
  {
    if n > 0 {
      FlattenFrame(m, s, path, n - 1, k);
      var e := s.entries[n - 1];
      assert e in s.entries;
      if e.value.Nested? {
        var sub := path + "." + e.key;
        if StartsWith(k, sub + ".") {
          assert sub + "." == (path + ".") + (e.key + ".");
          PrefixOfLonger(k, path + ".", e.key + ".");
        }
        FlattenFrame(FlattenSection(m, s, path, n - 1), e.value.section, sub, |e.value.section.entries|, k);
      } else {
        assert (path + "." + e.key)[..|path + "."|] == path + ".";
      }
    }
  }

  /** A dot-free key never starts with another key followed by a dot, once
      both follow the same prefix. */
  lemma DotFreeNotUnder(p: string, key: string, other: string)
    requires '.' !in key
    ensures !StartsWith(p + key, p + other + ".")
  {
    var w := p + other + ".";
    if |w| <= |p + key| {
      assert (p + key)[|p| + |other|] == key[|other|];
      assert key[|other|] in key;
      assert (p + key)[..|w|][|w| - 1] != w[|w| - 1];
    }
  }

  /** In a well-formed section every list or single value is stored, under
      its own key, exactly as `LeafText` says, however many entries follow
      it. */
  lemma {:induction false} LeafStored(m: map<string, Option<string>>, s: Section, path: string, n: nat, i: int)
    requires WellFormed(s) && 0 <= i < n <= |s.entries| && !s.entries[i].value.Nested?
    ensures path + "." + s.entries[i].key in FlattenSection(m, s, path, n)
    ensures FlattenSection(m, s, path, n)[path + "." + s.entries[i].key] == LeafText(s.entries[i].value)
    decreases n
  {
    var k := path + "." + s.entries[i].key;
    if i < n - 1 {
      LeafStored(m, s, path, n - 1, i);
      var e := s.entries[n - 1];
      assert e.key != s.entries[i].key;
      if e.value.Nested? {
        assert k == (path + ".") + s.entries[i].key;
        assert path + "." + e.key + "." == (path + ".") + e.key + ".";
        DotFreeNotUnder(path + ".", s.entries[i].key, e.key);
        FlattenFrame(FlattenSection(m, s, path, n - 1), e.value.section, path + "." + e.key,
          |e.value.section.entries|, k);
      } else {
        assert path + "." + e.key != k by {
          assert (path + "." + e.key)[|path| + 1..] == e.key;
          assert k[|path| + 1..] == s.entries[i].key;
        }
      }
    }
  }

  /** The fixed-arity `createPlaceholders` overloads. */
  function CreatePlaceholders0(): map<string, string>
  {
    map[]
  }

  function CreatePlaceholders1(key: string, value: string): map<string, string>
  {
    map[key := value]
  }

  function CreatePlaceholders2(key1: string, value1: string, key2: string, value2: string): map<string, string>
  {
    map[key1 := value1][key2 := value2]
  }

  function CreatePlaceholders3(key1: string, value1: string, key2: string, value2: string,
                               key3: string, value3: string): map<string, string>
  {
    map[key1 := value1][key2 := value2][key3 := value3]
  }

  /** The map an even-length key/value argument list builds, pair by pair. */
  function PairsMap(args: seq<string>): map<string, string>
    requires |args| % 2 == 0
  {
    if |args| == 0 then map[]
    else PairsMap(args[..|args| - 2])[args[|args| - 2] := args[|args| - 1]]
  }

  /** Position `i` holds a key that no later pair repeats. */
  predicate LastKeyAt(args: seq<string>, i: int)
  {
    0 <= i < |args| && i % 2 == 0 && forall j :: i < j < |args| && j % 2 == 0 ==> args[j] != args[i]
  }

  /** The keys are exactly the arguments at even positions. */
  lemma {:induction false} PairsMapKeys(args: seq<string>)
    requires |args| % 2 == 0
    ensures forall k :: k in PairsMap(args) <==> exists i :: 0 <= i < |args| && i % 2 == 0 && args[i] == k
  {
    if |args| > 0 {
      var front := args[..|args| - 2];
      PairsMapKeys(front);
      forall k | k in PairsMap(args)
        ensures exists i :: 0 <= i < |args| && i % 2 == 0 && args[i] == k
      {
        if k != args[|args| - 2] {
          assert k in PairsMap(front);
          var i :| 0 <= i < |front| && i % 2 == 0 && front[i] == k;
          assert args[i] == k;
        }
      }
      forall i | 0 <= i < |args| && i % 2 == 0
        ensures args[i] in PairsMap(args)
      {
        if i < |args| - 2 {
          assert front[i] == args[i];
        }
      }
    }
  }

  /** Each key maps to the value after its last occurrence: a later
      duplicate overwrites an earlier one. */
  lemma {:induction false} PairsMapLastWins(args: seq<string>, i: int)
    requires |args| % 2 == 0 && LastKeyAt(args, i)
    ensures args[i] in PairsMap(args) && PairsMap(args)[args[i]] == args[i + 1]
  {
    var front := args[..|args| - 2];
    if i < |args| - 2 {
      assert front[i] == args[i] && front[i + 1] == args[i + 1];
      assert args[|args| - 2] != args[i];
      forall j | i < j < |front| && j % 2 == 0
        ensures front[j] != front[i]
      {
        assert front[j] == args[j];
      }
      PairsMapLastWins(front, i);
    }
  }

  /** Each fixed-arity overload builds the map the general one builds from
      the same pairs. */
  lemma FixedAritiesAgree(k1: string, v1: string, k2: string, v2: string, k3: string, v3: string)
    ensures CreatePlaceholders0() == PairsMap([])
    ensures CreatePlaceholders1(k1, v1) == PairsMap([k1, v1])
    ensures CreatePlaceholders2(k1, v1, k2, v2) == PairsMap([k1, v1, k2, v2])
    ensures CreatePlaceholders3(k1, v1, k2, v2, k3, v3) == PairsMap([k1, v1, k2, v2, k3, v3])
  {
    assert [k1, v1, k2, v2, k3, v3][..4] == [k1, v1, k2, v2];
    assert [k1, v1, k2, v2][..2] == [k1, v1];
    assert [k1, v1][..0] == [];
  }

  /** `createPlaceholders(Object...)`: an odd number of arguments throws
      (None); otherwise the pairs are put in order. Arguments are given as
      their `String.valueOf` text. */
  method CreatePlaceholders(args: seq<string>) returns (r: Option<map<string, string>>)
    ensures r.None? <==> |args| % 2 != 0
    ensures r.Some? ==> r.value == PairsMap(args)
  {
    if |args| % 2 != 0 {
      return None;
    }
    var placeholders: map<string, string> := map[];
    var i := 0;
    while i < |args|
      invariant 0 <= i <= |args| && i % 2 == 0
      invariant placeholders == PairsMap(args[..i])
    {
      assert args[..i + 2][..i] == args[..i];
      placeholders := placeholders[args[i] := args[i + 1]];
      i := i + 2;
    }
    assert args[..i] == args;
    return Some(placeholders);
  }

  /** `order` lists each placeholder key exactly once: the order the map's
      entries are visited in. */
  predicate Enumerates(order: seq<string>, placeholders: map<string, string>)
  {
    (forall i, j :: 0 <= i < j < |order| ==> order[i] != order[j]) &&
    (forall k :: k in placeholders ==> k in order) &&
    (forall i :: 0 <= i < |order| ==> order[i] in placeholders)
  }

  /** The message after replacing "{k}" by its value for each key of
      `order`, in that order. */
  function Substituted(message: string, placeholders: map<string, string>, order: seq<string>): string
    requires forall k :: k in order ==> k in placeholders
  {
    if |order| == 0 then message
    else
      var k := order[|order| - 1];
      Replace(Substituted(message, placeholders, order[..|order| - 1]), "{" + k + "}", placeholders[k])
  }

  /** A message without "{" comes out of substitution unchanged. */
  lemma {:induction false} SubstitutedNoBrace(message: string, placeholders: map<string, string>, order: seq<string>)
    requires forall k :: k in order ==> k in placeholders
    requires !Occurs(message, "{")
    ensures Substituted(message, placeholders, order) == message
  {
    if |order| > 0 {
      var k := order[|order| - 1];
      SubstitutedNoBrace(message, placeholders, order[..|order| - 1]);
      NoBraceNoPlaceholder(message, "{" + k + "}");
      ReplaceAbsent(message, "{" + k + "}", placeholders[k]);
    }
  }

  /** Characters before a placeholder that hold no "{" are kept. */
  lemma {:induction false} ReplaceAfterPlain(p: string, rest: string, target: string, replacement: string)
    requires |target| > 0 && target[0] == '{' && '{' !in p
    ensures Replace(p + rest, target, replacement) == p + Replace(rest, target, replacement)
    decreases |p|
  {
    var s := p + rest;
    if |p| == 0 {
      assert s == rest;
    } else if |s| < |target| {
      assert Replace(s, target, replacement) == s;
      assert Replace(rest, target, replacement) == rest;
    } else {
      assert p[0] in p;
      assert s[..|target|][0] == p[0] != target[0];
      assert Replace(s, target, replacement) == [s[0]] + Replace(s[1..], target, replacement);
      ReplaceAfterPlain(p[1..], rest, target, replacement);
      assert s[1..] == p[1..] + rest;
      assert [p[0]] + p[1..] == p;
    }
  }

  /** A message with one placeholder and no other "{" gets the value in its
      place. */
  lemma OnePlaceholderReplaced(before: string, key: string, after: string, value: string)
    requires '{' !in before && '{' !in after
    ensures Substituted(before + "{" + key + "}" + after, map[key := value], [key]) ==
      before + value + after
  {
    var target := "{" + key + "}";
    var s := before + target + after;
    assert s == before + "{" + key + "}" + after;
    assert s == before + (target + after);
    assert [key][..0] == [];
    assert Substituted(s, map[key := value], [key]) == Replace(s, target, value);
    ReplaceAfterPlain(before, target + after, target, value);
    assert (target + after)[..|target|] == target;
    assert (target + after)[|target|..] == after;
    assert Replace(target + after, target, value) == value + Replace(after, target, value);
    assert !Occurs(after, "{") by {
      forall i | 0 <= i < |after|
        ensures !OccursAt(after, "{", i)
      {
        assert after[i] in after;
        assert after[i..i + 1][0] == after[i];
      }
    }
    NoBraceNoPlaceholder(after, target);
    ReplaceAbsent(after, target, value);
  }

  /** `PlaceholderBuilder`: pairs put one at a time. */
  class PlaceholderBuilder {
    var placeholders: map<string, string>

    constructor ()
      ensures placeholders == map[]
    {
      placeholders := map[];
    }

    /** `add`: the key now maps to the value, a previous value replaced. */
    method Add(key: string, value: string)
      modifies this`placeholders
      ensures placeholders == old(placeholders)[key := value]
    {
      placeholders := placeholders[key := value];
    }

    /** `build`: the pairs added so far, as a map value of its own, so later
        `Add` calls leave it as it is. */
    method Build() returns (r: map<string, string>)
      ensures r == placeholders
    {
      r := placeholders;
    }
  }

  class LanguageManager {
    var messages: map<string, Option<string>>
    var prefix: string

    /** The constructor loads the language file. */
    constructor (config: LanguageConfig, colorize: string -> string)
      ensures messages == LoadedMessages(config)
      ensures prefix == colorize(if config.prefixSetting.Some? then config.prefixSetting.value else DEFAULT_PREFIX)
    {
      messages := map[];
      prefix := "";
      new;
      LoadLanguage(config, colorize);
    }

    /** `loadLanguage`: the prefix is read (or defaulted) and translated,
        then the table is emptied and the "messages" section loaded. */
    method LoadLanguage(config: LanguageConfig, colorize: string -> string)
      modifies this`messages, this`prefix
      ensures prefix == colorize(if config.prefixSetting.Some? then config.prefixSetting.value else DEFAULT_PREFIX)
      ensures messages == LoadedMessages(config)
    {
      prefix := colorize(if config.prefixSetting.Some? then config.prefixSetting.value else DEFAULT_PREFIX);
      messages := map[];
      LoadMessagesRecursively(config.messagesSection, "messages");
    }

    /** `loadMessagesRecursively`: nothing for a missing section, otherwise
        every entry in order, nested sections under their own path. */
    method LoadMessagesRecursively(section: Option<Section>, path: string)
      modifies this`messages
      ensures section.None? ==> messages == old(messages)
      ensures section.Some? ==> messages == Flatten(old(messages), section.value, path)
      decreases if section.Some? then section.value else Section([])
    {
      if section.None? {
        return;
      }
      var s := section.value;
      for i := 0 to |s.entries|
        invariant messages == FlattenSection(old(messages), s, path, i)
      {
        var e := s.entries[i];
        assert e in s.entries;
        var fullPath := path + "." + e.key;
        if e.value.Nested? {
          LoadMessagesRecursively(Some(e.value.section), fullPath);
        } else if e.value.StringList? {
          var sb := JoinLines(e.value.items);
          messages := messages[fullPath := Some(sb)];
        } else {
          messages := messages[fullPath := e.value.text];
        }
      }
    }

    /** `reloadLanguage`: whatever was loaded before is dropped. */
    method ReloadLanguage(config: LanguageConfig, colorize: string -> string)
      modifies this`messages, this`prefix
      ensures prefix == colorize(if config.prefixSetting.Some? then config.prefixSetting.value else DEFAULT_PREFIX)
      ensures messages == LoadedMessages(config)
    {
      messages := map[];
      LoadLanguage(config, colorize);
    }

    /** `getMessage(key)`: the stored message, or the fallback naming the
        key when there is none or it is null. */
    function GetMessage(key: string): (r: string)
      reads this`messages
      ensures key in messages && messages[key].Some? ==> r == messages[key].value
      ensures !(key in messages && messages[key].Some?) ==> r == MISSING_MESSAGE + key
    {
      if key in messages && messages[key].Some? then messages[key].value else MISSING_MESSAGE + key
    }

    /** After loading, each list or value of the "messages" section is found
        under "messages.<key>"; a null value reads as missing. */
    lemma LoadedValueFound(config: LanguageConfig, i: int)
      requires messages == LoadedMessages(config)
      requires config.messagesSection.Some? && WellFormed(config.messagesSection.value)
      requires 0 <= i < |config.messagesSection.value.entries|
      requires !config.messagesSection.value.entries[i].value.Nested?
      ensures var e := config.messagesSection.value.entries[i];
        GetMessage("messages." + e.key) ==
          if e.value.StringList? then Join(e.value.items, '\n')
          else if e.value.text.Some? then e.value.text.value
          else MISSING_MESSAGE + "messages." + e.key
    {
      var s := config.messagesSection.value;
      LeafStored(map[], s, "messages", |s.entries|, i);
      assert "messages" + "." + s.entries[i].key == "messages." + s.entries[i].key;
    }

    /** After loading, a key outside "messages." is always missing. */
    lemma LoadedKeysUnderMessages(config: LanguageConfig, key: string)
      requires messages == LoadedMessages(config)
      requires !StartsWith(key, "messages.")
      ensures GetMessage(key) == MISSING_MESSAGE + key
    {
      if config.messagesSection.Some? {
        var s := config.messagesSection.value;
        KeysUnderPath(map[], s, "messages", |s.entries|);
      }
    }

    /** `getMessage(key, placeholders)`: the message with every "{k}"
        replaced by its value, visiting the keys in `order`; a null map
        replaces nothing. The result is colour-translated. */
    method GetMessageWith(key: string, placeholders: Option<map<string, string>>, order: seq<string>,
                          colorize: string -> string) returns (r: string)
      requires placeholders.Some? ==> Enumerates(order, placeholders.value)
      ensures placeholders.None? ==> r == colorize(GetMessage(key))
      ensures placeholders.Some? ==> r == colorize(Substituted(GetMessage(key), placeholders.value, order))
    {
      var message := GetMessage(key);
      if placeholders.Some? {
        var ph := placeholders.value;
        for i := 0 to |order|
          invariant message == Substituted(GetMessage(key), ph, order[..i])
        {
          assert order[..i + 1][..i] == order[..i];
          var placeholder := "{" + order[i] + "}";
          message := Replace(message, placeholder, ph[order[i]]);
        }
        assert order[..|order|] == order;
      }
      r := colorize(message);
    }
  }

  lemma {:induction false} JoinSnoc(xs: seq<string>, x: string, sep: char)
    ensures Join(xs + [x], sep) == if |xs| == 0 then x else Join(xs, sep) + [sep] + x
  {
    if |xs| > 0 {
      JoinSnoc(xs[1..], x, sep);
      assert (xs + [x])[1..] == xs[1..] + [x];
    }
  }

  /** The list branch's loop: each line, with "\n" between consecutive
      lines and none after the last. */
  method JoinLines(list: seq<string>) returns (sb: string)
    ensures sb == Join(list, '\n')
  {
    sb := "";
    for i := 0 to |list|
      invariant sb == Join(list[..i], '\n') + (if 0 < i < |list| then "\n" else "")
    {
      JoinSnoc(list[..i], list[i], '\n');
      assert list[..i + 1] == list[..i] + [list[i]];
      sb := sb + list[i];
      if i < |list| - 1 {
        sb := sb + "\n";
      }
    }
    assert list[..|list|] == list;
  }
}
