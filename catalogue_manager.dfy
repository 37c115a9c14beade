/**
 The catalogue of features offered by the core framework and by plugins: a map
 from namespaced keys (`core/<type>/<key>`, `plugin/<name>/<type>/<key>`) to
 catalogue entries, with registration, removal by plugin name and lookup of a
 content matcher or generator by content type.
 */
module CatalogueManager {
  import opened Wrappers
  import opened Strings
  import opened PluginModels
  import Proto

  /** Type of catalogue entry. */
  datatype CatalogueEntryType = ContentMatcher | ContentGenerator | MockServer | Matcher | Interaction
  {
    /** The `Display` form, used inside namespaced keys. */
    function ToString(): (s: string)
      ensures s != [] && '/' !in s
    {
      match this
      case ContentMatcher => "content-matcher"
      case ContentGenerator => "content-generator"
      case MockServer => "mock-server"
      case Matcher => "matcher"
      case Interaction => "interaction"
    }
  }

  /**
   `CatalogueEntryType::from(&str)`: the five display names parse back to their
   type; the source panics on any other string, which is `None` here.
   */
  function EntryTypeFromString(s: string): (r: Option<CatalogueEntryType>)
    ensures r.Some? ==> r.value.ToString() == s
    ensures r.None? ==> forall t: CatalogueEntryType :: t.ToString() != s
  {
    match s
    case "content-matcher" => Some(ContentMatcher)
    case "content-generator" => Some(ContentGenerator)
    case "interaction" => Some(Interaction)
    case "matcher" => Some(Matcher)
    case "mock-server" => Some(MockServer)
    case _ => None
  }

  /** Parsing the display string of any entry type gives back that type. */
  lemma EntryTypeRoundTrip(t: CatalogueEntryType)
    ensures EntryTypeFromString(t.ToString()) == Some(t)
  {
    match t
    case ContentMatcher =>
    case ContentGenerator =>
    case MockServer =>
    case Matcher =>
    case Interaction =>
  }

  /** `CatalogueEntryType::from(EntryType)`. */
  function FromProto(t: Proto.EntryType): CatalogueEntryType
  {
    match t
    case ContentMatcher => ContentMatcher
    case ContentGenerator => ContentGenerator
    case MockServer => MockServer
    case Matcher => Matcher
    case Interaction => Interaction
  }

  /** The protocol entry types and the catalogue entry types correspond one to one. */
  lemma FromProtoBijective(t: CatalogueEntryType)
    ensures exists p :: FromProto(p) == t
    ensures forall p, q :: FromProto(p) == FromProto(q) ==> p == q
  {
    match t
    case ContentMatcher => assert FromProto(Proto.ContentMatcher) == t;
    case ContentGenerator => assert FromProto(Proto.ContentGenerator) == t;
    case MockServer => assert FromProto(Proto.MockServer) == t;
    case Matcher => assert FromProto(Proto.Matcher) == t;
    case Interaction => assert FromProto(Proto.Interaction) == t;
  }

  /** Provider of the catalogue entry. */
  datatype CatalogueEntryProviderType = Core | Plugin

  /** A catalogue entry. */
  datatype CatalogueEntry = CatalogueEntry(
    entryType: CatalogueEntryType,
    providerType: CatalogueEntryProviderType,
    plugin: Option<PactPluginManifest>,
    key: string,
    values: map<string, string>)

  /** In `s + "/" + k` with no '/' in `s`, the first '/' is at position `|s|`. */
  lemma FirstSlash(s: string, k: string)
    requires '/' !in s
    ensures (s + "/" + k)[|s|] == '/'
    ensures forall i :: 0 <= i < |s| ==> (s + "/" + k)[i] != '/'
  {
    forall i | 0 <= i < |s| ensures (s + "/" + k)[i] != '/' {
      assert (s + "/" + k)[i] == s[i];
    }
  }

  /** Two type-and-key suffixes are equal only for the same type and the same key. */
  lemma TypedKeyInjective(t1: CatalogueEntryType, k1: string, t2: CatalogueEntryType, k2: string)
    requires t1.ToString() + "/" + k1 == t2.ToString() + "/" + k2
    ensures t1 == t2 && k1 == k2
  {
    var s1, s2 := t1.ToString(), t2.ToString();
    var x := s1 + "/" + k1;
    FirstSlash(s1, k1);
    FirstSlash(s2, k2);
    assert |s1| == |s2|;
    assert s1 == x[..|s1|] == s2;
    assert k1 == x[|s1| + 1..] == k2;
    match t1
    case ContentMatcher =>
    case ContentGenerator =>
    case MockServer =>
    case Matcher =>
    case Interaction =>
  }

  /** The prefix shared by every key of the named plugin's entries. */
  function PluginPrefix(name: string): string
  {
    "plugin/" + name + "/"
  }

  /** `plugin/<name>/<type>/<key>`. */
  function PluginEntryKey(name: string, t: CatalogueEntryType, key: string): (k: string)
    ensures PluginPrefix(name) <= k
    ensures k == PluginPrefix(name) + (t.ToString() + "/" + key)
  {
    "plugin/" + name + "/" + t.ToString() + "/" + key
  }

  /** `core/<type>/<key>`. */
  function CoreEntryKey(t: CatalogueEntryType, key: string): (k: string)
    ensures !("plugin/" <= k)
  {
    assert ("core/" + t.ToString() + "/" + key)[0] == 'c';
    "core/" + t.ToString() + "/" + key
  }

  /** Within one plugin a namespaced key determines the entry type and the key it came from. */
  lemma PluginEntryKeyInjective(name: string, t1: CatalogueEntryType, k1: string, t2: CatalogueEntryType, k2: string)
    requires PluginEntryKey(name, t1, k1) == PluginEntryKey(name, t2, k2)
    ensures t1 == t2 && k1 == k2
  {
    var p := PluginPrefix(name);
    var a, b := t1.ToString() + "/" + k1, t2.ToString() + "/" + k2;
    assert (p + a)[|p|..] == a && (p + b)[|p|..] == b;
    TypedKeyInjective(t1, k1, t2, k2);
  }

  // ---------------------------------------------------------------------
  // Plugin registration: upsert, the latest write wins

  /** The key a protocol entry of `plugin` is stored under. */
  function PluginKeyOf(plugin: PactPluginManifest, e: Proto.CatalogueEntry): string
  {
    PluginEntryKey(plugin.name, FromProto(e.entryType), e.key)
  }

  /** The stored form of a protocol entry of `plugin`: its `key` field is the namespaced key. */
  function PluginEntry(plugin: PactPluginManifest, e: Proto.CatalogueEntry): CatalogueEntry
  {
    CatalogueEntry(FromProto(e.entryType), Plugin, Some(plugin), PluginKeyOf(plugin, e), e.values)
  }

  function PluginKeys(plugin: PactPluginManifest, list: seq<Proto.CatalogueEntry>): set<string>
  {
    set e | e in list :: PluginKeyOf(plugin, e)
  }

  /** The catalogue after inserting the entries of `list` one after the other. */
  function WithPluginEntries(cat: map<string, CatalogueEntry>, plugin: PactPluginManifest, list: seq<Proto.CatalogueEntry>)
    : map<string, CatalogueEntry>
  {
    if list == [] then cat
    else
      var last := list[|list| - 1];
      WithPluginEntries(cat, plugin, list[..|list| - 1])[PluginKeyOf(plugin, last) := PluginEntry(plugin, last)]
  }

  /** No later entry of the list has the same namespaced key as entry `i`. */
  ghost predicate LastWithKey(plugin: PactPluginManifest, list: seq<Proto.CatalogueEntry>, i: int)
    requires 0 <= i < |list|
  {
    forall j :: i < j < |list| ==> PluginKeyOf(plugin, list[j]) != PluginKeyOf(plugin, list[i])
  }

  /**
   Plugin registration adds exactly the namespaced keys of the list and leaves
   every other key and its entry as it was.
   */
  lemma {:induction false} PluginRegistrationKeys(cat: map<string, CatalogueEntry>, plugin: PactPluginManifest, list: seq<Proto.CatalogueEntry>)
    ensures WithPluginEntries(cat, plugin, list).Keys == cat.Keys + PluginKeys(plugin, list)
    ensures forall k :: k in cat && k !in PluginKeys(plugin, list) ==> WithPluginEntries(cat, plugin, list)[k] == cat[k]
    decreases |list|
  {
    if list != [] {
      var n := |list| - 1;
      var init, last := list[..n], list[n];
      assert list == init + [last];
      PluginRegistrationKeys(cat, plugin, init);
      assert PluginKeys(plugin, list) == PluginKeys(plugin, init) + {PluginKeyOf(plugin, last)};
    }
  }

  /**
   At each namespaced key of the list the catalogue holds the last entry of the
   list with that key: the latest write overwrites what was there.
   */
  lemma {:induction false} PluginRegistrationLastWins(cat: map<string, CatalogueEntry>, plugin: PactPluginManifest, list: seq<Proto.CatalogueEntry>, i: int)
    requires 0 <= i < |list| && LastWithKey(plugin, list, i)
    ensures PluginKeyOf(plugin, list[i]) in WithPluginEntries(cat, plugin, list)
    ensures WithPluginEntries(cat, plugin, list)[PluginKeyOf(plugin, list[i])] == PluginEntry(plugin, list[i])
    decreases |list|
  {
    var n := |list| - 1;
    if i < n {
      LastWithKeyInPrefix(plugin, list, i);
      PluginRegistrationLastWins(cat, plugin, list[..n], i);
      PluginStepKeeps(cat, plugin, list, PluginKeyOf(plugin, list[i]));
    } else {
      PluginStepInserts(cat, plugin, list);
    }
  }

  /** An entry that is last with its key before the final position is so in the list without its final entry. */
  lemma LastWithKeyInPrefix(plugin: PactPluginManifest, list: seq<Proto.CatalogueEntry>, i: int)
    requires 0 <= i < |list| - 1 && LastWithKey(plugin, list, i)
    ensures list[..|list| - 1][i] == list[i] && LastWithKey(plugin, list[..|list| - 1], i)
    ensures PluginKeyOf(plugin, list[|list| - 1]) != PluginKeyOf(plugin, list[i])
  {
  }

  /** A key other than the final entry's keeps the entry it had before. */
  lemma PluginStepKeeps(cat: map<string, CatalogueEntry>, plugin: PactPluginManifest, list: seq<Proto.CatalogueEntry>, k: string)
    requires list != [] && k != PluginKeyOf(plugin, list[|list| - 1])
    requires k in WithPluginEntries(cat, plugin, list[..|list| - 1])
    ensures k in WithPluginEntries(cat, plugin, list)
    ensures WithPluginEntries(cat, plugin, list)[k] == WithPluginEntries(cat, plugin, list[..|list| - 1])[k]
  {
  }

  /** The final entry is stored under its key. */
  lemma PluginStepInserts(cat: map<string, CatalogueEntry>, plugin: PactPluginManifest, list: seq<Proto.CatalogueEntry>)
    requires list != []
    ensures PluginKeyOf(plugin, list[|list| - 1]) in WithPluginEntries(cat, plugin, list)
    ensures WithPluginEntries(cat, plugin, list)[PluginKeyOf(plugin, list[|list| - 1])] == PluginEntry(plugin, list[|list| - 1])
  {
  }

  /**
   Every entry of the list is stored, under its namespaced key, as a PLUGIN
   entry of its type owned by `plugin` whose `key` field is the namespaced key.
   */
  lemma {:induction false} PluginRegistrationFields(cat: map<string, CatalogueEntry>, plugin: PactPluginManifest, list: seq<Proto.CatalogueEntry>, e: Proto.CatalogueEntry)
    requires e in list
    ensures PluginKeyOf(plugin, e) in WithPluginEntries(cat, plugin, list)
    ensures
      var stored := WithPluginEntries(cat, plugin, list)[PluginKeyOf(plugin, e)];
      && stored.entryType == FromProto(e.entryType)
      && stored.providerType == Plugin
      && stored.plugin == Some(plugin)
      && stored.key == PluginKeyOf(plugin, e)
    decreases |list|
  {
    var n := |list| - 1;
    var init, last := list[..n], list[n];
    assert list == init + [last];
    if PluginKeyOf(plugin, e) == PluginKeyOf(plugin, last) {
      PluginEntryKeyInjective(plugin.name, FromProto(e.entryType), e.key, FromProto(last.entryType), last.key);
    } else {
      assert e in init;
      PluginRegistrationFields(cat, plugin, init, e);
    }
  }

  /** Registering the same plugin list twice is the same as registering it once. */
  lemma {:induction false} PluginRegistrationIdempotent(cat: map<string, CatalogueEntry>, plugin: PactPluginManifest, list: seq<Proto.CatalogueEntry>)
    ensures WithPluginEntries(WithPluginEntries(cat, plugin, list), plugin, list) == WithPluginEntries(cat, plugin, list)
  {
    var once := WithPluginEntries(cat, plugin, list);
    var twice := WithPluginEntries(once, plugin, list);
    PluginRegistrationKeys(cat, plugin, list);
    PluginRegistrationKeys(once, plugin, list);
    forall k | k in twice ensures k in once && twice[k] == once[k] {
      if k in PluginKeys(plugin, list) {
        var i := LastIndexWithKey(plugin, list, k);
        PluginRegistrationLastWins(cat, plugin, list, i);
        PluginRegistrationLastWins(once, plugin, list, i);
      }
    }
  }

  /** The last position of the list whose namespaced key is `k`. */
  lemma LastIndexWithKey(plugin: PactPluginManifest, list: seq<Proto.CatalogueEntry>, k: string) returns (i: int)
    requires k in PluginKeys(plugin, list)
    ensures 0 <= i < |list| && PluginKeyOf(plugin, list[i]) == k && LastWithKey(plugin, list, i)
  {
    var keys := seq(|list|, j requires 0 <= j < |list| => PluginKeyOf(plugin, list[j]));
    var e :| e in list && PluginKeyOf(plugin, e) == k;
    var j0 :| 0 <= j0 < |list| && list[j0] == e;
    assert keys[j0] == k;
    i := LastIndexOf(keys, k);
    forall j | i < j < |list| ensures PluginKeyOf(plugin, list[j]) != k {
      assert keys[j] != k;
    }
  }

  /** The last position of `keys` holding `k`. */
  lemma LastIndexOf(keys: seq<string>, k: string) returns (i: int)
    requires k in keys
    ensures 0 <= i < |keys| && keys[i] == k
    ensures forall j :: i < j < |keys| ==> keys[j] != k
  {
    i := |keys| - 1;
    while keys[i] != k
      invariant 0 <= i < |keys| && k in keys[..i + 1]
      invariant forall j :: i < j < |keys| ==> keys[j] != k
      decreases i
    {
      assert keys[..i + 1] == keys[..i] + [keys[i]];
      i := i - 1;
    }
  }

  // ---------------------------------------------------------------------
  // Core registration: insert if absent, the first write wins

  function CoreKeyOf(e: CatalogueEntry): string
  {
    CoreEntryKey(e.entryType, e.key)
  }

  function CoreKeys(list: seq<CatalogueEntry>): set<string>
  {
    set e | e in list :: CoreKeyOf(e)
  }

  /** The catalogue after offering the entries of `list` one after the other to an insert-if-absent. */
  function WithCoreEntries(cat: map<string, CatalogueEntry>, list: seq<CatalogueEntry>): map<string, CatalogueEntry>
  {
    if list == [] then cat
    else
      var prev := WithCoreEntries(cat, list[..|list| - 1]);
      var last := list[|list| - 1];
      if CoreKeyOf(last) in prev then prev else prev[CoreKeyOf(last) := last]
  }

  /** No earlier entry of the list has the same core key as entry `i`. */
  ghost predicate FirstWithKey(list: seq<CatalogueEntry>, i: int)
    requires 0 <= i < |list|
  {
    forall j :: 0 <= j < i ==> CoreKeyOf(list[j]) != CoreKeyOf(list[i])
  }

  /**
   Core registration adds exactly the core keys of the list and never changes
   the entry at a key that was already present.
   */
  lemma {:induction false} CoreRegistrationKeys(cat: map<string, CatalogueEntry>, list: seq<CatalogueEntry>)
    ensures WithCoreEntries(cat, list).Keys == cat.Keys + CoreKeys(list)
    ensures forall k :: k in cat ==> WithCoreEntries(cat, list)[k] == cat[k]
    decreases |list|
  {
    if list != [] {
      var n := |list| - 1;
      var init, last := list[..n], list[n];
      assert list == init + [last];
      CoreRegistrationKeys(cat, init);
      CoreKeysSnoc(init, last);
    }
  }

  lemma CoreKeysSnoc(init: seq<CatalogueEntry>, last: CatalogueEntry)
    ensures CoreKeys(init + [last]) == CoreKeys(init) + {CoreKeyOf(last)}
  {
    var list := init + [last];
    assert forall e :: e in list <==> e in init || e == last;
  }

  /**
   At each new core key the catalogue holds the first entry of the list with
   that key, as given (its `key` field is not rewritten).
   */
  lemma {:induction false} CoreRegistrationFirstWins(cat: map<string, CatalogueEntry>, list: seq<CatalogueEntry>, i: int)
    requires 0 <= i < |list| && CoreKeyOf(list[i]) !in cat && FirstWithKey(list, i)
    ensures CoreKeyOf(list[i]) in WithCoreEntries(cat, list)
    ensures WithCoreEntries(cat, list)[CoreKeyOf(list[i])] == list[i]
    decreases |list|
  {
    var n := |list| - 1;
    if i < n {
      FirstWithKeyInPrefix(list, i);
      CoreRegistrationFirstWins(cat, list[..n], i);
      CoreStepKeeps(cat, list, CoreKeyOf(list[i]));
    } else {
      assert i == n;
      FirstKeyIsNew(list);
      StaysAbsent(cat, list[..n], CoreKeyOf(list[n]));
      CoreStepInserts(cat, list);
    }
  }

  /** A key already present before the last entry keeps its entry. */
  lemma CoreStepKeeps(cat: map<string, CatalogueEntry>, list: seq<CatalogueEntry>, k: string)
    requires list != [] && k in WithCoreEntries(cat, list[..|list| - 1])
    ensures k in WithCoreEntries(cat, list)
    ensures WithCoreEntries(cat, list)[k] == WithCoreEntries(cat, list[..|list| - 1])[k]
  {
  }

  /** The last entry is stored when its key was absent. */
  lemma CoreStepInserts(cat: map<string, CatalogueEntry>, list: seq<CatalogueEntry>)
    requires list != [] && CoreKeyOf(list[|list| - 1]) !in WithCoreEntries(cat, list[..|list| - 1])
    ensures CoreKeyOf(list[|list| - 1]) in WithCoreEntries(cat, list)
    ensures WithCoreEntries(cat, list)[CoreKeyOf(list[|list| - 1])] == list[|list| - 1]
  {
  }

  /** A key in neither the catalogue nor the list is not in the result. */
  lemma StaysAbsent(cat: map<string, CatalogueEntry>, list: seq<CatalogueEntry>, k: string)
    requires k !in cat && k !in CoreKeys(list)
    ensures k !in WithCoreEntries(cat, list)
  {
    CoreRegistrationKeys(cat, list);
  }

  /** A first occurrence before the last position is a first occurrence in the list without its last entry. */
  lemma FirstWithKeyInPrefix(list: seq<CatalogueEntry>, i: int)
    requires 0 <= i < |list| - 1 && FirstWithKey(list, i)
    ensures list[..|list| - 1][i] == list[i] && FirstWithKey(list[..|list| - 1], i)
  {
  }

  /** The key of a first occurrence at the last position is not among the keys of the entries before it. */
  lemma FirstKeyIsNew(list: seq<CatalogueEntry>)
    requires list != [] && FirstWithKey(list, |list| - 1)
    ensures CoreKeyOf(list[|list| - 1]) !in CoreKeys(list[..|list| - 1])
  {
    var n := |list| - 1;
    forall e | e in list[..n] ensures CoreKeyOf(e) != CoreKeyOf(list[n]) {
      var j :| 0 <= j < n && list[..n][j] == e;
      assert list[j] == e;
    }
  }

  /** Entries whose core keys are all present already leave the catalogue as it is. */
  lemma {:induction false} CoreRegistrationOfPresentKeys(cat: map<string, CatalogueEntry>, list: seq<CatalogueEntry>)
    requires CoreKeys(list) <= cat.Keys
    ensures WithCoreEntries(cat, list) == cat
    decreases |list|
  {
    if list != [] {
      var init := list[..|list| - 1];
      assert CoreKeys(init) <= CoreKeys(list);
      CoreRegistrationOfPresentKeys(cat, init);
      assert list[|list| - 1] in list;
    }
  }

  /** A second core registration of the same list changes nothing and adds no key. */
  lemma CoreRegistrationIdempotent(cat: map<string, CatalogueEntry>, list: seq<CatalogueEntry>)
    ensures WithCoreEntries(WithCoreEntries(cat, list), list) == WithCoreEntries(cat, list)
    ensures WithCoreEntries(WithCoreEntries(cat, list), list).Keys - WithCoreEntries(cat, list).Keys == {}
  {
    CoreRegistrationKeys(cat, list);
    CoreRegistrationOfPresentKeys(WithCoreEntries(cat, list), list);
  }

  // ---------------------------------------------------------------------
  // Removal by plugin name

  /** The key is in the namespace of one of the named plugins. */
  predicate OwnedByAny(k: string, names: set<string>)
  {
    exists n :: n in names && PluginPrefix(n) <= k
  }

  /** The catalogue without the entries of the named plugins. */
  function WithoutPlugins(cat: map<string, CatalogueEntry>, names: set<string>): (r: map<string, CatalogueEntry>)
    ensures forall k :: k in r <==> k in cat && !OwnedByAny(k, names)
    ensures forall k :: k in r ==> r[k] == cat[k]
  {
    map k | k in cat && !OwnedByAny(k, names) :: cat[k]
  }

  /** Removing the same plugins twice is the same as removing them once. */
  lemma WithoutPluginsIdempotent(cat: map<string, CatalogueEntry>, names: set<string>)
    ensures WithoutPlugins(WithoutPlugins(cat, names), names) == WithoutPlugins(cat, names)
  {
  }

  /** Removing plugin by plugin is removing them all at once. */
  lemma WithoutPluginsCompose(cat: map<string, CatalogueEntry>, a: set<string>, b: set<string>)
    ensures WithoutPlugins(WithoutPlugins(cat, a), b) == WithoutPlugins(cat, a + b)
  {
    var lhs, rhs := WithoutPlugins(WithoutPlugins(cat, a), b), WithoutPlugins(cat, a + b);
    forall k ensures k in lhs <==> k in rhs {
      if OwnedByAny(k, a + b) {
        var n :| n in a + b && PluginPrefix(n) <= k;
        if n in a { assert OwnedByAny(k, a); } else { assert OwnedByAny(k, b); }
      }
    }
  }

  /** A plugin's own entries are removed with it. */
  lemma PluginEntriesRemoved(cat: map<string, CatalogueEntry>, name: string, t: CatalogueEntryType, key: string)
    ensures PluginEntryKey(name, t, key) !in WithoutPlugins(cat, {name})
  {
    assert OwnedByAny(PluginEntryKey(name, t, key), {name});
  }

  /** Core entries are never removed with a plugin. */
  lemma CoreEntriesKept(cat: map<string, CatalogueEntry>, names: set<string>, t: CatalogueEntryType, key: string)
    requires CoreEntryKey(t, key) in cat
    ensures CoreEntryKey(t, key) in WithoutPlugins(cat, names)
  {
    var k := CoreEntryKey(t, key);
    forall n | n in names ensures !(PluginPrefix(n) <= k) {
      assert PluginPrefix(n)[0] == 'p' && k[0] == 'c';
    }
  }

  /**
   Removing plugin `name` keeps the entries of any other plugin whose name has no
   '/': the trailing '/' of the prefix keeps `foo` from removing `foobar`'s entries.
   */
  lemma OtherPluginEntriesKept(cat: map<string, CatalogueEntry>, name: string, other: string, t: CatalogueEntryType, key: string)
    requires name != other && '/' !in name && '/' !in other
    requires PluginEntryKey(other, t, key) in cat
    ensures PluginEntryKey(other, t, key) in WithoutPlugins(cat, {name})
  {
    var p, k := PluginPrefix(name), PluginEntryKey(other, t, key);
    if |name| < |other| {
      assert p[7 + |name|] == '/' && k[7 + |name|] == other[|name|];
    } else if |other| < |name| {
      assert k[7 + |other|] == '/' && p[7 + |other|] == name[|other|];
    } else {
      var i :| 0 <= i < |name| && name[i] != other[i];
      assert p[7 + i] == name[i] && k[7 + i] == other[i];
    }
    assert !(p <= k);
  }

  /** Removing `foo` leaves the entries of `foobar`. */
  lemma FooDoesNotRemoveFoobar(cat: map<string, CatalogueEntry>, t: CatalogueEntryType, key: string)
    requires PluginEntryKey("foobar", t, key) in cat
    ensures PluginEntryKey("foobar", t, key) in WithoutPlugins(cat, {"foo"})
    ensures PluginEntryKey("foo", t, key) !in WithoutPlugins(cat, {"foo"})
  {
    OtherPluginEntriesKept(cat, "foo", "foobar", t, key);
    PluginEntriesRemoved(cat, "foo", t, key);
  }

  /** Removing `foo` also removes the entries of a plugin named `foo/bar`. */
  lemma NestedNameRemoved(cat: map<string, CatalogueEntry>, t: CatalogueEntryType, key: string)
    ensures PluginEntryKey("foo/bar", t, key) !in WithoutPlugins(cat, {"foo"})
  {
    var k := PluginEntryKey("foo/bar", t, key);
    var p, rest := PluginPrefix("foo"), t.ToString() + "/" + key;
    assert PluginPrefix("foo/bar") == p + "bar/";
    assert k == p + ("bar/" + rest);
    assert OwnedByAny(k, {"foo"}) by { assert "foo" in {"foo"} && p <= k; }
  }

  /** Removing `a/matcher` removes the `matcher` entries of plugin `a`. */
  lemma SlashedNameReachesOtherPlugin(cat: map<string, CatalogueEntry>, key: string)
    ensures PluginEntryKey("a", Matcher, key) !in WithoutPlugins(cat, {"a/matcher"})
  {
    var k := PluginEntryKey("a", Matcher, key);
    var p := PluginPrefix("a/matcher");
    assert k == p + key;
    assert k[..|p|] == p;
    assert "a/matcher" in {"a/matcher"};
  }

  // ---------------------------------------------------------------------
  // Content-type lookup

  /** The two renderings of a content type the matcher tries: the full string and its base type. */
  datatype ContentType = ContentType(rendered: string, baseType: string)

  /** The regular-expression engine: whether a pattern compiles, and whether it matches a string. */
  datatype RegexEngine = RegexEngine(compiles: string -> bool, isMatch: (string, string) -> bool)

  /** `matches_pattern`: a pattern that fails to compile matches nothing. */
  function MatchesPattern(re: RegexEngine, pattern: string, ct: ContentType): (b: bool)
    ensures !re.compiles(pattern) ==> !b
    ensures re.compiles(pattern) ==> (b <==> re.isMatch(pattern, ct.rendered) || re.isMatch(pattern, ct.baseType))
  {
    if re.compiles(pattern) then re.isMatch(pattern, ct.rendered) || re.isMatch(pattern, ct.baseType)
    else false
  }

  /** Some pattern of the list, once trimmed, matches the content type. */
  function AnyPatternMatches(re: RegexEngine, patterns: seq<string>, ct: ContentType): (b: bool)
    ensures b <==> exists i :: 0 <= i < |patterns| && MatchesPattern(re, Trim(patterns[i]), ct)
  {
    if patterns == [] then false
    else MatchesPattern(re, Trim(patterns[0]), ct) || AnyPatternMatches(re, patterns[1..], ct)
  }

  /** The `find` predicate of `find_content_matcher` and `find_content_generator`. */
  predicate Handles(e: CatalogueEntry, wanted: CatalogueEntryType, re: RegexEngine, ct: ContentType)
  {
    && e.entryType == wanted
    && "content-types" in e.values
    && AnyPatternMatches(re, Split(e.values["content-types"], ';'), ct)
  }

  /** The catalogue, with the operations that change it in place. */
  class Catalogue {
    var entries: map<string, CatalogueEntry>

    constructor ()
      ensures entries == map[]
    {
      entries := map[];
    }

    /** `register_plugin_entries`: upsert under `plugin/<name>/<type>/<key>`. */
    method RegisterPluginEntries(plugin: PactPluginManifest, list: seq<Proto.CatalogueEntry>)
      modifies this
      ensures entries == WithPluginEntries(old(entries), plugin, list)
      ensures entries.Keys == old(entries).Keys + PluginKeys(plugin, list)
      ensures forall k :: k in old(entries) && k !in PluginKeys(plugin, list) ==> entries[k] == old(entries)[k]
    {
      for i := 0 to |list|
        invariant entries == WithPluginEntries(old(entries), plugin, list[..i])
      {
        var entry := list[i];
        var key := PluginEntryKey(plugin.name, FromProto(entry.entryType), entry.key);
        assert list[..i + 1][..i] == list[..i];
        entries := entries[key := CatalogueEntry(FromProto(entry.entryType), Plugin, Some(plugin), key, entry.values)];
      }
      assert list[..|list|] == list;
      PluginRegistrationKeys(old(entries), plugin, list);
    }

    /**
     `register_core_entries`: insert under `core/<type>/<key>` when the key is
     absent. Returns the set of keys it inserted.
     */
    method RegisterCoreEntries(list: seq<CatalogueEntry>) returns (updatedKeys: set<string>)
      modifies this
      ensures entries == WithCoreEntries(old(entries), list)
      ensures updatedKeys == entries.Keys - old(entries).Keys
      ensures forall k :: k in old(entries) ==> k in entries && entries[k] == old(entries)[k]
    {
      updatedKeys := {};
      for i := 0 to |list|
        invariant entries == WithCoreEntries(old(entries), list[..i])
        invariant updatedKeys == entries.Keys - old(entries).Keys
        invariant forall k :: k in old(entries) ==> k in entries && entries[k] == old(entries)[k]
      {
        var entry := list[i];
        var key := CoreEntryKey(entry.entryType, entry.key);
        assert list[..i + 1][..i] == list[..i];
        if key !in entries {
          entries := entries[key := entry];
          updatedKeys := updatedKeys + {key};
        }
      }
      assert list[..|list|] == list;
    }

    /** `remove_plugin_entries`: delete every key that starts with `plugin/<name>/`. */
    method RemovePluginEntries(name: string)
      modifies this
      ensures entries == WithoutPlugins(old(entries), {name})
      ensures forall k :: k in entries <==> k in old(entries) && !(PluginPrefix(name) <= k)
    {
      var prefix := PluginPrefix(name);
      var keys := set k | k in entries && prefix <= k;
      var rest := keys;
      while rest != {}
        invariant rest <= keys
        invariant entries.Keys == old(entries).Keys - (keys - rest)
        invariant forall k :: k in entries ==> entries[k] == old(entries)[k]
        decreases rest
      {
        var k :| k in rest;
        entries := entries - {k};
        rest := rest - {k};
      }
      forall k ensures OwnedByAny(k, {name}) <==> prefix <= k {
        if prefix <= k { assert name in {name}; }
      }
    }

    /** Some stored entry of type `wanted` one of whose content-type patterns matches, or `None` when there is none. */
    method FindEntry(wanted: CatalogueEntryType, re: RegexEngine, ct: ContentType) returns (r: Option<CatalogueEntry>)
      ensures r.Some? ==> r.value in entries.Values && Handles(r.value, wanted, re, ct)
      ensures r.None? <==> forall k :: k in entries ==> !Handles(entries[k], wanted, re, ct)
    {
      var rest := entries.Keys;
      while rest != {}
        invariant rest <= entries.Keys
        invariant forall k :: k in entries && k !in rest ==> !Handles(entries[k], wanted, re, ct)
        decreases rest
      {
        var k :| k in rest;
        if Handles(entries[k], wanted, re, ct) {
          return Some(entries[k]);
        }
        rest := rest - {k};
      }
      return None;
    }

    /** `find_content_matcher`. */
    method FindContentMatcher(re: RegexEngine, ct: ContentType) returns (r: Option<CatalogueEntry>)
      ensures r.Some? ==> r.value in entries.Values && r.value.entryType == ContentMatcher
      ensures r.Some? ==> ("content-types" in r.value.values &&
        exists i :: 0 <= i < |Split(r.value.values["content-types"], ';')| &&
          MatchesPattern(re, Trim(Split(r.value.values["content-types"], ';')[i]), ct))
      ensures r.None? <==> forall k :: k in entries ==> !Handles(entries[k], ContentMatcher, re, ct)
    {
      r := FindEntry(ContentMatcher, re, ct);
    }

    /** `find_content_generator`. */
    method FindContentGenerator(re: RegexEngine, ct: ContentType) returns (r: Option<CatalogueEntry>)
      ensures r.Some? ==> r.value in entries.Values && r.value.entryType == ContentGenerator
      ensures r.Some? ==> ("content-types" in r.value.values &&
        exists i :: 0 <= i < |Split(r.value.values["content-types"], ';')| &&
          MatchesPattern(re, Trim(Split(r.value.values["content-types"], ';')[i]), ct))
      ensures r.None? <==> forall k :: k in entries ==> !Handles(entries[k], ContentGenerator, re, ct)
    {
      r := FindEntry(ContentGenerator, re, ct);
    }
  }
}
