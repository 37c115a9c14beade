# Pact plugin driver: catalogue and plugin register

This project models the core of the Rust plugin driver of the Pact plugin framework. It then proves properties of that model in Dafny. The core has two registries.

- **The capability catalogue** (`drivers/rust/driver/src/catalogue_manager.rs`). This is a map from namespaced keys to catalogue entries.
  - The core framework registers entries under `core/<type>/<key>`. The first writer wins.
  - Every plugin registers entries under `plugin/<name>/<type>/<key>` when its handshake succeeds. The latest registration wins.
  - A plugin's entries are removed by the prefix `plugin/<name>/`.
  - A content matcher or content generator is looked up by content type. The entry's `content-types` value is split on `;`, each piece is trimmed, and the pieces are tried as regular expressions.
- **The plugin register and its reference-counted lifecycle** (`drivers/rust/driver/src/plugin_manager.rs`). Running plugins are kept under `"name/version"` keys, next to a manifest cache that uses the same keys.
  - Loading a plugin either shares a running instance, which gets one more access, or starts a new one. Starting runs these steps in order: load the manifest, check the executable type, start the process, do the handshake, register the plugin.
  - Dropping the last access stops the plugin and removes its catalogue entries.
  - Shutdown stops everything.

Modules:

- `Wrappers`: `Option`, `Result` and `Outcome`.
- `Strings`: `trim`, `split` and `join` on `seq<char>`.
- `PluginModels`: the manifest and the dependency, the `"name/version"` key, and the version order.
- `Proto`: the catalogue entries a plugin sends back in its handshake.
- `CatalogueManager`: the class `Catalogue`, which holds the catalogue map.
- `PluginManager`: the classes `PactPlugin` and `PluginManager`, which holds the two registers and a reference to the catalogue.

Each in-place operation is a method. Its contract ties the new state to a specification function of the old state. For example, `WithPluginEntries`, `WithCoreEntries` and `WithoutPlugins` describe the catalogue, and `Resolve`, `LoadedManifest` and `CacheAfterLoad` describe the registers. The lemmas prove what the source promises about those functions.

Inputs the driver gets from outside are parameters:

- The listing of the plugin directory, already read and parsed (`PluginDir`).
- The operating system (`OsInfo`) and path tests (`FileSystem`).
- The result of spawning the plugin and waiting for it to become ready (`SpawnOutcome`).
- The plugin's response to the `InitPlugin` call.
- The regular-expression engine (`RegexEngine`) and the content type, both in rendered and base form (`ContentType`).

A `HashMap` iteration is modelled as choosing any key not yet visited. So every "find" and "max_by" is specified by what any iteration order guarantees.

**Version order.** Semantic-version ordering would rank `"1.10.0"` above `"1.9.0"`; the code compares the `version` strings with `String::cmp`, which is lexicographic (`drivers/rust/driver/src/plugin_manager.rs:66`, `drivers/rust/driver/src/plugin_manager.rs:153`). The model follows the code. `VersionLe` is the lexicographic order on characters, and `PluginModels.VersionOrderIsLexicographic` shows that it ranks `"1.9.0"` above `"1.10.0"`.

## Model

| member | source | states |
|---|---|---|
| Strings.TrimStart | drivers/rust/driver/src/catalogue_manager.rs:183 | the result is a suffix of the input; every dropped character is whitespace; the result is empty or starts with non-whitespace |
| Strings.TrimEnd | drivers/rust/driver/src/catalogue_manager.rs:183 | the result is a prefix of the input; every dropped character is whitespace; the result is empty or ends with non-whitespace |
| Strings.Split | drivers/rust/driver/src/catalogue_manager.rs:183 | `split(";")` gives at least one piece; no piece contains the separator; joining the pieces with the separator gives back the input |
| Strings.SplitJoin | drivers/rust/driver/src/catalogue_manager.rs:183 | splitting the join of separator-free pieces (at least one) gives back those pieces |
| PluginModels.VersionedKey | drivers/rust/driver/src/plugin_manager.rs:172 | the register key is `name + "/" + version`: it starts with the name, ends with the version, and is one character longer than both together |
| PluginModels.RegistryKeysCanCollide | drivers/rust/driver/src/plugin_manager.rs:172 | two different (name, version) pairs can share a register key when a name or version contains `/` |
| PluginModels.VersionLeReflexive | drivers/rust/driver/src/plugin_manager.rs:66 | the `cmp` order on versions is reflexive |
| PluginModels.VersionLeTotal | drivers/rust/driver/src/plugin_manager.rs:66 | any two versions are comparable |
| PluginModels.VersionLeAntisymmetric | drivers/rust/driver/src/plugin_manager.rs:66 | versions that compare both ways are equal |
| PluginModels.VersionLeTransitive | drivers/rust/driver/src/plugin_manager.rs:66 | the order on versions is transitive |
| PluginModels.VersionOrderIsLexicographic | drivers/rust/driver/src/plugin_manager.rs:153 | `"1.9.0"` is ranked above `"1.10.0"` and not the other way round |
| CatalogueManager.CatalogueEntryType.ToString | drivers/rust/driver/src/catalogue_manager.rs:41-51 | every display name is non-empty and contains no `/`, so it is one segment of a key |
| CatalogueManager.EntryTypeFromString | drivers/rust/driver/src/catalogue_manager.rs:53-68 | a parsed type displays as the input string; a string that is no type's display name is rejected (the source panics) |
| CatalogueManager.EntryTypeRoundTrip | drivers/rust/driver/src/catalogue_manager.rs:41-68 | parsing the display name of each of the five types gives back that type |
| CatalogueManager.FromProtoBijective | drivers/rust/driver/src/catalogue_manager.rs:76-86 | the conversion `FromProto` of the protocol entry type (the `From<EntryType>` match) maps the protocol entry types one to one onto the catalogue entry types |
| CatalogueManager.TypedKeyInjective | drivers/rust/driver/src/catalogue_manager.rs:143 | `<type>/<key>` determines both the type and the key |
| CatalogueManager.PluginEntryKey | drivers/rust/driver/src/catalogue_manager.rs:122 | the key of a plugin entry starts with `plugin/<name>/`, followed by `<type>/<key>` |
| CatalogueManager.CoreEntryKey | drivers/rust/driver/src/catalogue_manager.rs:143 | a core key never starts with `plugin/`, so no plugin removal touches it |
| CatalogueManager.PluginEntryKeyInjective | drivers/rust/driver/src/catalogue_manager.rs:122 | within one plugin, different (type, key) pairs get different namespaced keys |
| CatalogueManager.PluginRegistrationKeys | drivers/rust/driver/src/catalogue_manager.rs:120-130 | after registering a plugin's list, the keys are the old keys plus the list's namespaced keys; every other key keeps its entry |
| CatalogueManager.PluginRegistrationLastWins | drivers/rust/driver/src/catalogue_manager.rs:120-130 | an entry that no later list element overwrites is stored under its namespaced key, replacing whatever was there before |
| CatalogueManager.PluginRegistrationFields | drivers/rust/driver/src/catalogue_manager.rs:121-129 | every registered entry has the list element's type, provider `PLUGIN`, `plugin == Some(manifest)`, and the namespaced key in its `key` field |
| CatalogueManager.PluginRegistrationIdempotent | drivers/rust/driver/src/catalogue_manager.rs:120-130 | registering the same plugin list twice gives the same catalogue as registering it once |
| CatalogueManager.CoreRegistrationKeys | drivers/rust/driver/src/catalogue_manager.rs:141-148 | core registration adds exactly the list's `core/<type>/<key>` keys and never changes an entry already present |
| CatalogueManager.CoreRegistrationFirstWins | drivers/rust/driver/src/catalogue_manager.rs:142-147 | for a key that was absent, the stored entry is the first element of the list with that key, unchanged (its `key` field is not rewritten) |
| CatalogueManager.CoreRegistrationOfPresentKeys | drivers/rust/driver/src/catalogue_manager.rs:144 | when all of the list's keys are already present, core registration changes nothing |
| CatalogueManager.CoreRegistrationIdempotent | drivers/rust/driver/src/catalogue_manager.rs:141-148 | a second core registration of the same list changes nothing and adds no key |
| CatalogueManager.WithoutPlugins | drivers/rust/driver/src/catalogue_manager.rs:159-171 | a key survives iff it was present and does not start with `plugin/<name>/` for any removed name; survivors keep their entries |
| CatalogueManager.WithoutPluginsIdempotent | drivers/rust/driver/src/catalogue_manager.rs:159-171 | removing the same plugins' entries twice is the same as removing them once |
| CatalogueManager.WithoutPluginsCompose | drivers/rust/driver/src/plugin_manager.rs:244-248 | removing one set of plugins after another is the same as removing their union |
| CatalogueManager.PluginEntriesRemoved | drivers/rust/driver/src/catalogue_manager.rs:159-163 | after removal, no entry of the removed plugin is left |
| CatalogueManager.CoreEntriesKept | drivers/rust/driver/src/catalogue_manager.rs:159-163 | core entries survive every plugin removal |
| CatalogueManager.OtherPluginEntriesKept | drivers/rust/driver/src/catalogue_manager.rs:159 | entries of a different plugin survive when neither name contains `/` |
| CatalogueManager.FooDoesNotRemoveFoobar | drivers/rust/driver/src/catalogue_manager.rs:159 | because of the trailing `/`, removing `foo` keeps the entries of `foobar` and removes those of `foo` |
| CatalogueManager.NestedNameRemoved | drivers/rust/driver/src/catalogue_manager.rs:159-163 | removing `foo` also removes the entries of a plugin named `foo/bar` |
| CatalogueManager.SlashedNameReachesOtherPlugin | drivers/rust/driver/src/catalogue_manager.rs:159-163 | removing `a/matcher` removes the `matcher` entries of plugin `a` |
| CatalogueManager.MatchesPattern | drivers/rust/driver/src/catalogue_manager.rs:193-202 | a pattern that does not compile matches nothing; otherwise it matches iff it matches the full content type or its base type |
| CatalogueManager.AnyPatternMatches | drivers/rust/driver/src/catalogue_manager.rs:183 | true iff some trimmed piece of the pattern list matches |
| CatalogueManager.Catalogue.constructor | drivers/rust/driver/src/catalogue_manager.rs:21-23 | the catalogue starts empty |
| CatalogueManager.Catalogue.RegisterPluginEntries | drivers/rust/driver/src/catalogue_manager.rs:115-133 | the new catalogue is `WithPluginEntries` of the old one: the old keys plus the plugin's keys, and every other entry unchanged |
| CatalogueManager.Catalogue.RegisterCoreEntries | drivers/rust/driver/src/catalogue_manager.rs:136-153 | the new catalogue is `WithCoreEntries` of the old one; existing entries are unchanged; `updated_keys` is exactly the set of keys that were inserted |
| CatalogueManager.Catalogue.RemovePluginEntries | drivers/rust/driver/src/catalogue_manager.rs:156-174 | the new catalogue is `WithoutPlugins(old, {name})`: a key is kept iff it does not start with `plugin/<name>/` |
| CatalogueManager.Catalogue.FindEntry | drivers/rust/driver/src/catalogue_manager.rs:180-189 | returns some stored entry that has the wanted type and a matching `content-types` pattern; returns `None` iff no stored entry has both |
| CatalogueManager.Catalogue.FindContentMatcher | drivers/rust/driver/src/catalogue_manager.rs:177-191 | returns only a stored `CONTENT_MATCHER` entry with a `content-types` value, one of whose split and trimmed patterns matches; returns `None` iff no entry qualifies |
| CatalogueManager.Catalogue.FindContentGenerator | drivers/rust/driver/src/catalogue_manager.rs:205-219 | the same rule for `CONTENT_GENERATOR` entries |
| PluginManager.LatestExists | drivers/rust/driver/src/plugin_manager.rs:64-67 | when some manifest has the name, one of them has a version at least that of all the others with that name |
| PluginManager.LatestUnique | drivers/rust/driver/src/plugin_manager.rs:64-67 | with keys of the form `"name/version"`, the highest version of a name is stored under exactly one key |
| PluginManager.Resolve | drivers/rust/driver/src/plugin_manager.rs:59-67 | the lookup answer: with a version, the `"name/version"` key if present; without one, the key of the highest version with that name; `None` iff nothing matches; no other key qualifies |
| PluginManager.SelectLatest | drivers/rust/driver/src/plugin_manager.rs:64-67 | `filter` + `max_by`: a key holding the name with the highest version; `None` iff no manifest has the name |
| PluginManager.LookupKey | drivers/rust/driver/src/plugin_manager.rs:145-156 | the register lookup returns exactly `Resolve`: the stored `"name/version"` key or none, and without a version the highest one with the name |
| PluginManager.ScanFindsFirstMatch | drivers/rust/driver/src/plugin_manager.rs:96-123 | a successful scan returns the first wanted manifest in directory order, with `plugin_dir` set to its directory; every entry before it was passed over |
| PluginManager.ScanNotFound | drivers/rust/driver/src/plugin_manager.rs:96-127 | "not found" is reported iff every directory entry was passed over |
| PluginManager.ScanStopsAtUnreadable | drivers/rust/driver/src/plugin_manager.rs:97-107 | any other scan failure is the I/O error of the first unreadable entry before any match |
| PluginManager.ScanPluginDir | drivers/rust/driver/src/plugin_manager.rs:92-131 | the scan loop computes `ScanResult`: no directory, a missing directory, an unlistable directory, or the first-match scan; a returned manifest is the one wanted |
| PluginManager.LoadedManifestIsWanted | drivers/rust/driver/src/plugin_manager.rs:84-90 | a loaded manifest has the requested `"name/version"` key, or the requested name when no version is given; the cache keeps consistent keys |
| PluginManager.ChooseEntryPoint | drivers/rust/driver/src/plugin_manager.rs:199-205 | the entry for the exact OS string, else the `"windows"` entry on Windows, else the generic entry point |
| PluginManager.ResolveEntryPath | drivers/rust/driver/src/plugin_manager.rs:207-209 | the chosen path is kept when it is absolute and exists; otherwise it is joined onto `plugin_dir` |
| PluginManager.PactPlugin.constructor | drivers/rust/driver/src/plugin_manager.rs:224 | a new plugin runs and has one access |
| PluginManager.PactPlugin.UpdateAccess | drivers/rust/driver/src/plugin_manager.rs:43 | the access count goes up by one |
| PluginManager.PactPlugin.DropAccess | drivers/rust/driver/src/plugin_manager.rs:277-287 | the access count goes down by one, and the remaining count is returned |
| PluginManager.PactPlugin.Kill | drivers/rust/driver/src/plugin_manager.rs:246 | the process is no longer running |
| PluginManager.StartPluginProcess | drivers/rust/driver/src/plugin_manager.rs:194-235 | fails iff the spawn or the readiness wait fails; otherwise a new running plugin with one access, the resolved entry path and the announced port |
| PluginManager.PluginManager.constructor | drivers/rust/driver/src/plugin_manager.rs:26-29 | both registers start empty |
| PluginManager.PluginManager.LookupPluginInner | drivers/rust/driver/src/plugin_manager.rs:57-69 | returns the running plugin under the `Resolve` key; `None` iff no running plugin matches the dependency |
| PluginManager.PluginManager.LookupPluginManifest | drivers/rust/driver/src/plugin_manager.rs:145-156 | returns the cached manifest under the `Resolve` key; `None` iff no cached manifest matches |
| PluginManager.PluginManager.LoadManifestFromDisk | drivers/rust/driver/src/plugin_manager.rs:92-131 | returns `ScanResult`; a manifest found is cached under its own key, and the cache is otherwise unchanged |
| PluginManager.PluginManager.LoadPluginManifest | drivers/rust/driver/src/plugin_manager.rs:84-90 | returns the cached manifest when there is one, else the scan result (`LoadedManifest`); the cache becomes `CacheAfterLoad` |
| PluginManager.PluginManager.RegisterPlugin | drivers/rust/driver/src/plugin_manager.rs:172-173 | the plugin is stored under `"name/version"`, replacing what was there; the invariant is kept |
| PluginManager.PluginManager.InitHandshake | drivers/rust/driver/src/plugin_manager.rs:182-192 | on a response, the plugin's entries are registered in the catalogue; on failure the catalogue is unchanged and the error is returned |
| PluginManager.PluginManager.InitialisePlugin | drivers/rust/driver/src/plugin_manager.rs:158-179 | a non-`exec` type, a failed start or a failed handshake gives an error with the register and catalogue unchanged, and a plugin started for a failed handshake is killed; on success a new plugin with one access is registered under `"name/version"` and its entries are in the catalogue |
| PluginManager.PluginManager.LoadPlugin | drivers/rust/driver/src/plugin_manager.rs:33-55 | on a hit, the same plugin is returned with one more access and both registers and the catalogue unchanged; on a miss, the manifest is loaded and a plugin initialised as in `InitialisePlugin`: a process is started exactly for an `exec` manifest whose spawn succeeds, and one started for a load that then fails is killed; a failed load changes neither the plugin register nor the catalogue |
| PluginManager.PluginManager.ShareRunning | drivers/rust/driver/src/plugin_manager.rs:40-44 | the running plugin gets one more access and the register invariant is kept |
| PluginManager.PluginManager.StartNew | drivers/rust/driver/src/plugin_manager.rs:46-51 | the miss branch: the outcome is determined by `LoadedManifest` and `InitialiseFailure`, a process is started exactly when the loaded manifest is `exec` and the spawn succeeds (and is killed if the handshake fails), and the cache becomes `CacheAfterLoad` |
| PluginManager.PluginManager.ShutdownPlugin | drivers/rust/driver/src/plugin_manager.rs:254-258 | the plugin is killed, and its name's catalogue entries are removed |
| PluginManager.PluginManager.DropPluginAccess | drivers/rust/driver/src/plugin_manager.rs:278-294 | no matching plugin: nothing changes; the count reaches 0: the plugin is killed, its name's entries are removed and its key leaves the register; otherwise the key stays and the plugin keeps running |
| PluginManager.PluginManager.ShutdownPlugins | drivers/rust/driver/src/plugin_manager.rs:238-251 | every previously registered plugin is killed, the catalogue loses the entries of all their names, and the register is empty |
| PluginManager.PluginManager.ReleaseAccess | drivers/rust/driver/src/plugin_manager.rs:286-290 | the registered plugin's count goes down by one; at 0 it is killed, its name's entries are removed and its key leaves the register; above 0 it keeps running and the register is unchanged |
| PluginManager.PluginManager.Retire | drivers/rust/driver/src/plugin_manager.rs:287-290 | the plugin is killed, the catalogue loses its name's entries and exactly its key leaves the register, which stays consistent |
| PluginManager.PluginManager.ShutdownEach | drivers/rust/driver/src/plugin_manager.rs:244-248 | after the loop every plugin of the register is killed and the catalogue equals the old one without the entries of all their names |

## Left out

- Spawning the process, waiting for `ChildPluginProcess` to become ready, and killing it by PID (`drivers/rust/driver/src/plugin_manager.rs:212-234`). These are OS I/O; the outcome is the `SpawnOutcome` parameter.
- Listing the plugin directory, opening and parsing `pact-plugin.json`, and finding the directory from `PACT_PLUGIN_DIR` or the home directory (`drivers/rust/driver/src/plugin_manager.rs:93-142`). These are file-system and environment I/O; the model scans an already-parsed `PluginDir`.
- The `init_plugin` remote call, which is a foreign call. Its response (the catalogue entries, or an error) is part of `Host`.
- The `Mutex`/`lazy_static` globals, thread-id tracing, and the gap between the two locks of `remove_plugin_entries`. These are concurrency; the registries are sequential objects owned by one `PluginManager`.
- `publish_updated_catalogue`, whose body is empty, and the task that would run it; also `send_metrics` and all logging.
- `lookup_plugin` (`drivers/rust/driver/src/plugin_manager.rs:72-80`) only wraps `lookup_plugin_inner` in the lock and clones the result, so `LookupPluginInner` stands for both.
- Regular-expression compilation and matching, and the rendering of `ContentType` and its base type. These are parameters.
- `ContentMatcher`/`ContentGenerator` wrappers: the find methods return the catalogue entry they would wrap.
- `plugin_models.rs`, `child_process.rs` and the protobuf module are not part of this model. `PactPlugin` keeps only the manifest, the entry path, the port, the access count and whether it runs; a clone of a plugin is the same object here, so every holder sees one access count.
- PactPlugin.DropAccess: stays at 0 when the count is already 0, because the decrement in `plugin_models.rs` is not part of this model. Every registered plugin has at least one access, so this case is never reached from the register.
- CatalogueManager.Catalogue.RegisterCoreEntries: returns the `updated_keys` set, which the source only logs.
- PluginManager.PluginManager.LoadPlugin: a register key shared by two different (name, version) pairs (`PluginModels.RegistryKeysCanCollide`) makes the new plugin replace the old one in the map, as `HashMap::insert` does. The displaced plugin is not killed. The model keeps this behaviour and proves nothing about the displaced plugin.
- CatalogueManager.Catalogue.RemovePluginEntries: removes by the text prefix `plugin/<name>/`, so a plugin name containing `/` reaches into other plugins' entries (`CatalogueManager.NestedNameRemoved`, `CatalogueManager.SlashedNameReachesOtherPlugin`), as the source does. `CatalogueManager.OtherPluginEntriesKept` promises separation only for names without `/`.
