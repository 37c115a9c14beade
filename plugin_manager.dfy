/**
 The plugin register and its reference-counted lifecycle: running plugins keyed
 by `"name/version"`, a manifest cache with the same keys, loading (reuse or
 start plus handshake), dropping access, and shutting everything down.
 */
module PluginManager {
  import opened Wrappers
  import opened PluginModels
  import opened CatalogueManager
  import Proto

  // ---------------------------------------------------------------------
  // Lookup in a register: exact key with a version, highest version without

  /** Every manifest is stored under its own `"name/version"` key. */
  ghost predicate KeysConsistent(m: map<string, PactPluginManifest>)
  {
    forall k :: k in m ==> k == RegistryKey(m[k])
  }

  /** `k` holds a manifest named `name` whose version is at least that of every manifest named `name`. */
  ghost predicate IsLatest(m: map<string, PactPluginManifest>, name: string, k: string)
  {
    && k in m
    && m[k].name == name
    && forall k2 :: k2 in m && m[k2].name == name ==> VersionLe(m[k2].version, m[k].version)
  }

  /** The register holds something the dependency asks for. */
  ghost predicate Present(m: map<string, PactPluginManifest>, dep: PluginDependency)
  {
    match dep.version
    case Some(v) => VersionedKey(dep.name, v) in m
    case None => exists k :: k in m && m[k].name == dep.name
  }

  /** `k` is an answer of the lookup for `dep`. */
  ghost predicate Selects(m: map<string, PactPluginManifest>, dep: PluginDependency, k: string)
  {
    match dep.version
    case Some(v) => k == VersionedKey(dep.name, v) && k in m
    case None => IsLatest(m, dep.name, k)
  }

  /** Among finitely many manifests named `name` one has the highest version. */
  lemma {:induction false} LatestExists(m: map<string, PactPluginManifest>, name: string, k0: string)
    requires k0 in m && m[k0].name == name
    ensures exists k :: IsLatest(m, name, k)
    decreases m.Keys
  {
    var rest := m - {k0};
    if k1 :| k1 in rest && rest[k1].name == name {
      LatestExists(rest, name, k1);
      var k :| IsLatest(rest, name, k);
      VersionLeTotal(m[k].version, m[k0].version);
      var best := if VersionLe(m[k].version, m[k0].version) then k0 else k;
      forall k2 | k2 in m && m[k2].name == name
        ensures VersionLe(m[k2].version, m[best].version)
      {
        if k2 == k0 {
          VersionLeReflexive(m[k0].version);
        } else {
          assert k2 in rest;
          VersionLeTransitive(m[k2].version, m[k].version, m[best].version) by {
            VersionLeReflexive(m[k].version);
          }
        }
      }
      assert IsLatest(m, name, best);
    } else {
      forall k2 | k2 in m && m[k2].name == name
        ensures VersionLe(m[k2].version, m[k0].version)
      {
        assert k2 !in rest;
        VersionLeReflexive(m[k0].version);
      }
      assert IsLatest(m, name, k0);
    }
  }

  /** With consistent keys the highest version of a name is held under one key only. */
  lemma LatestUnique(m: map<string, PactPluginManifest>, name: string, k1: string)
    requires KeysConsistent(m) && IsLatest(m, name, k1)
    ensures forall k2 :: IsLatest(m, name, k2) ==> k2 == k1
  {
    forall k2 | IsLatest(m, name, k2) ensures k2 == k1 {
      VersionLeAntisymmetric(m[k1].version, m[k2].version);
    }
  }

  /** The one answer of the lookup for `dep`, when there is one. */
  ghost function Resolve(m: map<string, PactPluginManifest>, dep: PluginDependency): (r: Option<string>)
    requires KeysConsistent(m)
    ensures r.Some? ==> Selects(m, dep, r.value)
    ensures r.None? <==> !Present(m, dep)
    ensures forall k :: Selects(m, dep, k) ==> r == Some(k)
  {
    match dep.version
    case Some(v) =>
      var k := VersionedKey(dep.name, v);
      if k in m then Some(k) else None
    case None =>
      if exists k0 :: k0 in m && m[k0].name == dep.name then
        var k0 :| k0 in m && m[k0].name == dep.name;
        LatestExists(m, dep.name, k0);
        var k :| IsLatest(m, dep.name, k);
        LatestUnique(m, dep.name, k);
        Some(k)
      else
        None
  }

  /**
   `filter(name == ...).max_by(version.cmp)` over the register in its iteration
   order: a key holding the highest version of `name`, or `None` when no
   manifest has that name.
   */
  method SelectLatest(m: map<string, PactPluginManifest>, name: string) returns (r: Option<string>)
    ensures r.Some? ==> IsLatest(m, name, r.value)
    ensures r.None? <==> forall k :: k in m ==> m[k].name != name
  {
    r := None;
    var rest := m.Keys;
    while rest != {}
      invariant rest <= m.Keys
      invariant r.Some? ==> r.value in m && m[r.value].name == name
      invariant r.Some? ==> forall k :: k in m && k !in rest && m[k].name == name ==> VersionLe(m[k].version, m[r.value].version)
      invariant r.None? <==> forall k :: k in m && k !in rest ==> m[k].name != name
      decreases rest
    {
      var k :| k in rest;
      if m[k].name == name {
        if r.None? {
          VersionLeReflexive(m[k].version);
          r := Some(k);
        } else if VersionLe(m[r.value].version, m[k].version) {
          // max_by keeps the last of equal maxima, so a tie moves to `k`
          forall k2 | k2 in m && k2 !in rest && m[k2].name == name
            ensures VersionLe(m[k2].version, m[k].version)
          {
            VersionLeTransitive(m[k2].version, m[r.value].version, m[k].version);
          }
          VersionLeReflexive(m[k].version);
          r := Some(k);
        } else {
          VersionLeTotal(m[r.value].version, m[k].version);
        }
      }
      rest := rest - {k};
    }
  }

  /** `lookup_plugin_inner` and `lookup_plugin_manifest` on a register with consistent keys. */
  method LookupKey(m: map<string, PactPluginManifest>, dep: PluginDependency) returns (r: Option<string>)
    requires KeysConsistent(m)
    ensures r == Resolve(m, dep)
    ensures r.Some? ==> r.value in m && (dep.version.Some? ==> r.value == VersionedKey(dep.name, dep.version.value))
    ensures r.Some? && dep.version.None? ==> m[r.value].name == dep.name
  {
    match dep.version {
      case Some(v) =>
        var k := VersionedKey(dep.name, v);
        r := if k in m then Some(k) else None;
      case None =>
        r := SelectLatest(m, dep.name);
    }
  }

  // ---------------------------------------------------------------------
  // Loading a manifest from the plugin directory

  /** One immediate entry of the plugin directory, as the scan sees it. */
  datatype DirEntry =
    | NotAPlugin                                          // not a directory, or no pact-plugin.json in it
    | Unreadable(reason: string)                          // the entry, the file or its JSON could not be read
    | ManifestFile(path: string, manifest: PactPluginManifest)

  /** The plugin directory: not configured, absent, unlistable, or its entries in `read_dir` order. */
  datatype PluginDir = Unresolved | Missing | Unlistable(reason: string) | Listing(entries: seq<DirEntry>)

  datatype LoadError =
    | NoPluginDir
    | PluginDirMissing
    | IoError(reason: string)
    | PluginNotFound(dep: PluginDependency)
    | UnsupportedExecutableType(executableType: string)
    | StartFailed(reason: string)
    | InitFailed(reason: string)

  /** The manifest is the one the dependency asks for: same name, and same version when one is given. */
  predicate Wanted(dep: PluginDependency, m: PactPluginManifest)
  {
    m.name == dep.name && (dep.version.None? || dep.version.value == m.version)
  }

  /** The scan passes over this entry. */
  ghost predicate Skipped(dep: PluginDependency, e: DirEntry)
  {
    e.NotAPlugin? || (e.ManifestFile? && !Wanted(dep, e.manifest))
  }

  /** The outcome of scanning the entries in order. */
  function ScanEntries(dep: PluginDependency, entries: seq<DirEntry>): Result<PactPluginManifest, LoadError>
  {
    if entries == [] then Failure(PluginNotFound(dep))
    else match entries[0]
      case NotAPlugin => ScanEntries(dep, entries[1..])
      case Unreadable(reason) => Failure(IoError(reason))
      case ManifestFile(path, m) =>
        if Wanted(dep, m) then Success(m.(pluginDir := path)) else ScanEntries(dep, entries[1..])
  }

  function ScanResult(dep: PluginDependency, dir: PluginDir): Result<PactPluginManifest, LoadError>
  {
    match dir
    case Unresolved => Failure(NoPluginDir)
    case Missing => Failure(PluginDirMissing)
    case Unlistable(reason) => Failure(IoError(reason))
    case Listing(entries) => ScanEntries(dep, entries)
  }

  /**
   A successful scan returns the first wanted manifest, with its directory as
   `pluginDir`, and every entry before it was passed over.
   */
  lemma {:induction false} ScanFindsFirstMatch(dep: PluginDependency, entries: seq<DirEntry>)
    requires ScanEntries(dep, entries).Success?
    ensures exists i :: (0 <= i < |entries| && entries[i].ManifestFile? && Wanted(dep, entries[i].manifest)
      && ScanEntries(dep, entries).value == entries[i].manifest.(pluginDir := entries[i].path)
      && forall j :: 0 <= j < i ==> Skipped(dep, entries[j]))
  {
    if entries[0].ManifestFile? && Wanted(dep, entries[0].manifest) {
      assert 0 < |entries|;
    } else {
      ScanFindsFirstMatch(dep, entries[1..]);
      var i :| 0 <= i < |entries[1..]| && entries[1..][i].ManifestFile? && Wanted(dep, entries[1..][i].manifest)
        && ScanEntries(dep, entries[1..]).value == entries[1..][i].manifest.(pluginDir := entries[1..][i].path)
        && forall j :: 0 <= j < i ==> Skipped(dep, entries[1..][j]);
      assert forall j :: 0 <= j < i + 1 ==> Skipped(dep, entries[j]) by {
        forall j | 0 < j < i + 1 ensures Skipped(dep, entries[j]) {
          assert entries[j] == entries[1..][j - 1];
        }
      }
      assert entries[i + 1] == entries[1..][i];
    }
  }

  /** The scan reports the plugin as not found exactly when it passed over every entry. */
  lemma {:induction false} ScanNotFound(dep: PluginDependency, entries: seq<DirEntry>)
    ensures ScanEntries(dep, entries) == Failure(PluginNotFound(dep)) <==> forall j :: 0 <= j < |entries| ==> Skipped(dep, entries[j])
  {
    if entries != [] {
      ScanNotFound(dep, entries[1..]);
      assert forall j :: 0 < j < |entries| ==> entries[j] == entries[1..][j - 1];
    }
  }

  /** A failed scan either found nothing or stopped at the first unreadable entry before any match. */
  lemma {:induction false} ScanStopsAtUnreadable(dep: PluginDependency, entries: seq<DirEntry>)
    requires ScanEntries(dep, entries).Failure?
    ensures ScanEntries(dep, entries).error == PluginNotFound(dep) || (ScanEntries(dep, entries).error.IoError? &&
      exists i :: 0 <= i < |entries| && entries[i] == Unreadable(ScanEntries(dep, entries).error.reason) &&
        forall j :: 0 <= j < i ==> Skipped(dep, entries[j]))
  {
    if entries != [] && !entries[0].Unreadable? {
      ScanStopsAtUnreadable(dep, entries[1..]);
      if ScanEntries(dep, entries).error != PluginNotFound(dep) {
        var i :| 0 <= i < |entries[1..]| && entries[1..][i] == Unreadable(ScanEntries(dep, entries[1..]).error.reason)
          && forall j :: 0 <= j < i ==> Skipped(dep, entries[1..][j]);
        assert entries[i + 1] == entries[1..][i];
        assert forall j :: 0 < j < i + 1 ==> entries[j] == entries[1..][j - 1];
      }
    }
  }

  /** The loop of `load_manifest_from_disk` over the plugin directory. */
  method ScanPluginDir(dep: PluginDependency, dir: PluginDir) returns (r: Result<PactPluginManifest, LoadError>)
    ensures r == ScanResult(dep, dir)
    ensures r.Success? ==> Wanted(dep, r.value)
  {
    match dir {
      case Unresolved => return Failure(NoPluginDir);
      case Missing => return Failure(PluginDirMissing);
      case Unlistable(reason) => return Failure(IoError(reason));
      case Listing(entries) =>
        for i := 0 to |entries|
          invariant ScanEntries(dep, entries[i..]) == ScanEntries(dep, entries)
        {
          assert entries[i..][0] == entries[i] && entries[i..][1..] == entries[i + 1..];
          match entries[i] {
            case NotAPlugin =>
            case Unreadable(reason) =>
              return Failure(IoError(reason));
            case ManifestFile(path, m) =>
              if m.name == dep.name && (dep.version.None? || dep.version.value == m.version) {
                return Success(m.(pluginDir := path));
              }
          }
        }
        assert entries[|entries|..] == [];
        return Failure(PluginNotFound(dep));
    }
  }

  /** The manifest `load_plugin_manifest` yields: from the cache when it has one, else from disk. */
  ghost function LoadedManifest(cache: map<string, PactPluginManifest>, dep: PluginDependency, dir: PluginDir)
    : Result<PactPluginManifest, LoadError>
    requires KeysConsistent(cache)
  {
    match Resolve(cache, dep)
    case Some(k) => Success(cache[k])
    case None => ScanResult(dep, dir)
  }

  /** The cache after `load_plugin_manifest`: a manifest read from disk is added under its key. */
  ghost function CacheAfterLoad(cache: map<string, PactPluginManifest>, dep: PluginDependency, dir: PluginDir)
    : map<string, PactPluginManifest>
    requires KeysConsistent(cache)
  {
    var scanned := ScanResult(dep, dir);
    if Resolve(cache, dep).None? && scanned.Success? then cache[RegistryKey(scanned.value) := scanned.value] else cache
  }

  /**
   A loaded manifest is the one asked for: with a version it is stored under the
   dependency's key, without one it carries the dependency's name.
   */
  lemma LoadedManifestIsWanted(cache: map<string, PactPluginManifest>, dep: PluginDependency, dir: PluginDir)
    requires KeysConsistent(cache) && LoadedManifest(cache, dep, dir).Success?
    ensures dep.version.Some? ==> RegistryKey(LoadedManifest(cache, dep, dir).value) == VersionedKey(dep.name, dep.version.value)
    ensures dep.version.None? ==> LoadedManifest(cache, dep, dir).value.name == dep.name
    ensures KeysConsistent(CacheAfterLoad(cache, dep, dir))
  {
    if Resolve(cache, dep).None? {
      ScanFindsFirstMatch(dep, dir.entries);
    }
  }

  // ---------------------------------------------------------------------
  // Starting a plugin process

  /** What the driver knows of the operating system: its display string and whether it is Windows. */
  datatype OsInfo = OsInfo(display: string, isWindows: bool)

  /** The path operations `start_plugin_process` relies on. */
  datatype FileSystem = FileSystem(isAbsolute: string -> bool, pathExists: string -> bool, join: (string, string) -> string)

  /** Spawning the executable and waiting for it to announce its port: ready, or failed (the child is then killed). */
  datatype SpawnOutcome = Ready(port: nat) | SpawnFailed(reason: string)

  /** Everything outside the driver that a load depends on. */
  datatype Host = Host(
    pluginDir: PluginDir,
    os: OsInfo,
    fs: FileSystem,
    spawn: SpawnOutcome,
    initResponse: Result<seq<Proto.CatalogueEntry>, string>)

  /**
   The entry point of `start_plugin_process`: the entry for the exact OS string
   first, then the `"windows"` entry on Windows, then the generic entry point.
   */
  function ChooseEntryPoint(m: PactPluginManifest, os: OsInfo): (path: string)
    ensures path == m.entryPoint || path in m.entryPoints.Values
    ensures os.display in m.entryPoints ==> path == m.entryPoints[os.display]
    ensures os.display !in m.entryPoints && os.isWindows && "windows" in m.entryPoints ==> path == m.entryPoints["windows"]
    ensures os.display !in m.entryPoints && !(os.isWindows && "windows" in m.entryPoints) ==> path == m.entryPoint
  {
    if os.display in m.entryPoints then m.entryPoints[os.display]
    else if os.isWindows && "windows" in m.entryPoints then m.entryPoints["windows"]
    else m.entryPoint
  }

  /** The chosen entry point is used as is only when it is absolute and exists; otherwise it is joined onto `pluginDir`. */
  function ResolveEntryPath(m: PactPluginManifest, os: OsInfo, fs: FileSystem): (path: string)
    ensures fs.isAbsolute(ChooseEntryPoint(m, os)) && fs.pathExists(ChooseEntryPoint(m, os)) ==> path == ChooseEntryPoint(m, os)
    ensures !(fs.isAbsolute(ChooseEntryPoint(m, os)) && fs.pathExists(ChooseEntryPoint(m, os))) ==> path == fs.join(m.pluginDir, ChooseEntryPoint(m, os))
  {
    var chosen := ChooseEntryPoint(m, os);
    if !fs.isAbsolute(chosen) || !fs.pathExists(chosen) then fs.join(m.pluginDir, chosen) else chosen
  }

  /** A running plugin: its manifest, its process and the count of loads that share it. */
  class PactPlugin {
    const manifest: PactPluginManifest
    const entryPath: string
    const port: nat
    var accessCount: nat
    var alive: bool

    /** A freshly started plugin process, with one access. */
    constructor (manifest: PactPluginManifest, entryPath: string, port: nat)
      ensures this.manifest == manifest && this.entryPath == entryPath && this.port == port
      ensures accessCount == 1 && alive
    {
      this.manifest := manifest;
      this.entryPath := entryPath;
      this.port := port;
      accessCount := 1;
      alive := true;
    }

    /** `update_access`. */
    method UpdateAccess()
      modifies this`accessCount
      ensures accessCount == old(accessCount) + 1
    {
      accessCount := accessCount + 1;
    }

    /** `drop_access`: one access fewer; the remaining count is returned. */
    method DropAccess() returns (remaining: nat)
      modifies this`accessCount
      ensures accessCount == if old(accessCount) > 0 then old(accessCount) - 1 else 0
      ensures remaining == accessCount
    {
      if accessCount > 0 {
        accessCount := accessCount - 1;
      }
      remaining := accessCount;
    }

    /** `kill`: the process is stopped; killing a stopped process changes nothing. */
    method Kill()
      modifies this`alive
      ensures !alive
    {
      alive := false;
    }
  }

  /** The manifests of the running plugins, under the same keys. */
  function ManifestsOf(plugins: map<string, PactPlugin>): (r: map<string, PactPluginManifest>)
    ensures r.Keys == plugins.Keys
    ensures forall k :: k in r ==> r[k] == plugins[k].manifest
  {
    map k | k in plugins :: plugins[k].manifest
  }

  /** The names of the running plugins. */
  function PluginNames(plugins: map<string, PactPlugin>): set<string>
  {
    set k | k in plugins :: plugins[k].manifest.name
  }

  /** The names of the plugins under the given keys. */
  function NamesUnder(plugins: map<string, PactPlugin>, keys: set<string>): set<string>
  {
    set k | k in keys && k in plugins :: plugins[k].manifest.name
  }

  lemma NamesUnderStep(plugins: map<string, PactPlugin>, keys: set<string>, k: string)
    requires k in plugins
    ensures NamesUnder(plugins, keys + {k}) == NamesUnder(plugins, keys) + {plugins[k].manifest.name}
  {
  }

  /** `start_plugin_process`: pick the executable, spawn it and wait for it to be ready. */
  method StartPluginProcess(m: PactPluginManifest, host: Host) returns (r: Result<PactPlugin, LoadError>)
    ensures r.Success? <==> host.spawn.Ready?
    ensures r.Failure? ==> r.error == StartFailed(host.spawn.reason)
    ensures r.Success? ==> (fresh(r.value) && r.value.manifest == m && r.value.port == host.spawn.port
      && r.value.entryPath == ResolveEntryPath(m, host.os, host.fs)
      && r.value.accessCount == 1 && r.value.alive)
  {
    var path := ResolveEntryPath(m, host.os, host.fs);
    match host.spawn {
      case Ready(port) =>
        var plugin := new PactPlugin(m, path, port);
        r := Success(plugin);
      case SpawnFailed(reason) =>
        r := Failure(StartFailed(reason));
    }
  }

  /** Why `initialise_plugin` fails, checked in its order: executable type, start, handshake. */
  function InitialiseFailure(m: PactPluginManifest, host: Host): Option<LoadError>
  {
    if m.executableType != "exec" then Some(UnsupportedExecutableType(m.executableType))
    else if host.spawn.SpawnFailed? then Some(StartFailed(host.spawn.reason))
    else if host.initResponse.Failure? then Some(InitFailed(host.initResponse.error))
    else None
  }

  /** The plugin and manifest registers, and the catalogue they register entries in. */
  class PluginManager {
    var plugins: map<string, PactPlugin>
    var manifests: map<string, PactPluginManifest>
    const catalogue: Catalogue

    /** Each plugin and manifest is under its own key; every registered plugin runs and has an access. */
    ghost predicate Valid()
      reads this, plugins.Values
    {
      && KeysConsistent(ManifestsOf(plugins))
      && KeysConsistent(manifests)
      && forall k :: k in plugins ==> plugins[k].alive && plugins[k].accessCount >= 1
    }

    constructor (catalogue: Catalogue)
      ensures Valid() && this.catalogue == catalogue
      ensures plugins == map[] && manifests == map[]
    {
      this.catalogue := catalogue;
      plugins := map[];
      manifests := map[];
    }

    /** `lookup_plugin_inner`. */
    method LookupPluginInner(dep: PluginDependency) returns (r: Option<PactPlugin>)
      requires Valid()
      ensures r.None? <==> !Present(ManifestsOf(plugins), dep)
      ensures r.Some? ==> Resolve(ManifestsOf(plugins), dep).Some? && r.value == plugins[Resolve(ManifestsOf(plugins), dep).value]
    {
      var k := LookupKey(ManifestsOf(plugins), dep);
      r := if k.Some? then Some(plugins[k.value]) else None;
    }

    /** `lookup_plugin_manifest`. */
    method LookupPluginManifest(dep: PluginDependency) returns (r: Option<PactPluginManifest>)
      requires Valid()
      ensures r.None? <==> !Present(manifests, dep)
      ensures r.Some? ==> Resolve(manifests, dep).Some? && r.value == manifests[Resolve(manifests, dep).value]
    {
      var k := LookupKey(manifests, dep);
      r := if k.Some? then Some(manifests[k.value]) else None;
    }

    /** `load_manifest_from_disk`: scan the plugin directory and cache the manifest found. */
    method LoadManifestFromDisk(dep: PluginDependency, dir: PluginDir) returns (r: Result<PactPluginManifest, LoadError>)
      requires Valid()
      modifies this`manifests
      ensures Valid()
      ensures r == ScanResult(dep, dir)
      ensures manifests == if r.Success? then old(manifests)[RegistryKey(r.value) := r.value] else old(manifests)
    {
      r := ScanPluginDir(dep, dir);
      if r.Success? {
        manifests := manifests[RegistryKey(r.value) := r.value];
      }
    }

    /** `load_plugin_manifest`: the cached manifest, else the one on disk. */
    method LoadPluginManifest(dep: PluginDependency, dir: PluginDir) returns (r: Result<PactPluginManifest, LoadError>)
      requires Valid()
      modifies this`manifests
      ensures Valid()
      ensures r == LoadedManifest(old(manifests), dep, dir)
      ensures manifests == CacheAfterLoad(old(manifests), dep, dir)
    {
      var cached := LookupPluginManifest(dep);
      match cached {
        case Some(m) => r := Success(m);
        case None => r := LoadManifestFromDisk(dep, dir);
      }
    }

    /** The insert of `initialise_plugin`: the plugin is stored under its `"name/version"` key, replacing what was there. */
    method RegisterPlugin(plugin: PactPlugin)
      requires Valid() && plugin.alive && plugin.accessCount >= 1
      modifies this`plugins
      ensures Valid()
      ensures plugins == old(plugins)[RegistryKey(plugin.manifest) := plugin]
    {
      plugins := plugins[RegistryKey(plugin.manifest) := plugin];
      assert ManifestsOf(plugins) == ManifestsOf(old(plugins))[RegistryKey(plugin.manifest) := plugin.manifest];
    }

    /** `init_handshake`: on a response, register the plugin's catalogue entries. */
    method InitHandshake(m: PactPluginManifest, response: Result<seq<Proto.CatalogueEntry>, string>) returns (r: Outcome<string>)
      modifies catalogue
      ensures response.Success? ==> r == Pass && catalogue.entries == WithPluginEntries(old(catalogue.entries), m, response.value)
      ensures response.Failure? ==> r == Fail(response.error) && catalogue.entries == old(catalogue.entries)
    {
      match response {
        case Success(entries) =>
          catalogue.RegisterPluginEntries(m, entries);
          r := Pass;
        case Failure(err) =>
          r := Fail(err);
      }
    }

    /**
     `initialise_plugin`: only `exec` plugins are started; a plugin whose
     handshake fails is killed and not registered; a plugin whose handshake
     succeeds is registered under its `"name/version"` key.
     */
    method InitialisePlugin(m: PactPluginManifest, host: Host) returns (r: Result<PactPlugin, LoadError>, ghost started: Option<PactPlugin>)
      requires Valid()
      modifies this`plugins, catalogue
      ensures Valid()
      ensures InitialiseFailure(m, host).Some? ==>
        && r == Failure(InitialiseFailure(m, host).value)
        && plugins == old(plugins)
        && catalogue.entries == old(catalogue.entries)
      ensures InitialiseFailure(m, host).None? ==>
        && r.Success? && fresh(r.value)
        && r.value.manifest == m && r.value.entryPath == ResolveEntryPath(m, host.os, host.fs)
        && r.value.accessCount == 1 && r.value.alive
        && plugins == old(plugins)[RegistryKey(m) := r.value]
        && catalogue.entries == WithPluginEntries(old(catalogue.entries), m, host.initResponse.value)
      ensures started.Some? <==> m.executableType == "exec" && host.spawn.Ready?
      ensures started.Some? ==> fresh(started.value) && (r.Success? ==> r.value == started.value) && (r.Failure? ==> !started.value.alive)
    {
      started := None;
      if m.executableType == "exec" {
        var process := StartPluginProcess(m, host);
        if process.Failure? {
          return Failure(process.error), None;
        }
        var plugin := process.value;
        started := Some(plugin);
        var handshake := InitHandshake(m, host.initResponse);
        if handshake.Fail? {
          plugin.Kill();
          return Failure(InitFailed(handshake.error)), started;
        }
        RegisterPlugin(plugin);
        r := Success(plugin);
      } else {
        r := Failure(UnsupportedExecutableType(m.executableType));
      }
    }

    /**
     `load_plugin`: a running plugin that satisfies the dependency is shared (its
     access count goes up); otherwise the manifest is loaded and a new plugin is
     initialised from it.
     */
    method LoadPlugin(dep: PluginDependency, host: Host) returns (r: Result<PactPlugin, LoadError>, ghost started: Option<PactPlugin>)
      requires Valid()
      modifies this`plugins, this`manifests, plugins.Values`accessCount, catalogue
      ensures Valid()
      ensures var hit := old(Resolve(ManifestsOf(plugins), dep));
        hit.Some? ==> (
          && r == Success(old(plugins)[hit.value])
          && r.value.accessCount == old(r.value.accessCount) + 1
          && r.value.alive
          && started.None?
          && plugins == old(plugins) && manifests == old(manifests)
          && catalogue.entries == old(catalogue.entries))
      ensures var hit := old(Resolve(ManifestsOf(plugins), dep));
        var loaded := old(LoadedManifest(manifests, dep, host.pluginDir));
        hit.None? ==> (
          && manifests == old(CacheAfterLoad(manifests, dep, host.pluginDir))
          && (loaded.Failure? ==> r == Failure(loaded.error) && started.None?)
          && (loaded.Success? && InitialiseFailure(loaded.value, host).Some? ==>
                r == Failure(InitialiseFailure(loaded.value, host).value))
          && (loaded.Success? && InitialiseFailure(loaded.value, host).None? ==>
                && r.Success? && fresh(r.value)
                && r.value.manifest == loaded.value
                && r.value.entryPath == ResolveEntryPath(loaded.value, host.os, host.fs)
                && r.value.accessCount == 1 && r.value.alive
                && plugins == old(plugins)[RegistryKey(loaded.value) := r.value]
                && catalogue.entries == WithPluginEntries(old(catalogue.entries), loaded.value, host.initResponse.value)))
      ensures r.Failure? ==> plugins == old(plugins) && catalogue.entries == old(catalogue.entries)
      ensures var hit := old(Resolve(ManifestsOf(plugins), dep));
        var loaded := old(LoadedManifest(manifests, dep, host.pluginDir));
        hit.None? && loaded.Success? ==> (started.Some? <==> loaded.value.executableType == "exec" && host.spawn.Ready?)
      ensures started.Some? ==> fresh(started.value) && (r.Success? ==> r.value == started.value) && (r.Failure? ==> !started.value.alive)
      ensures forall q :: q in old(plugins.Values) && !(r.Success? && q == r.value) ==> q.accessCount == old(q.accessCount)
    {
      ghost var hit := Resolve(ManifestsOf(plugins), dep);
      var found := LookupPluginInner(dep);
      if found.Some? {
        var plugin := found.value;
        ShareRunning(plugin, hit.value);
        r, started := Success(plugin), None;
      } else {
        assert hit.None?;
        r, started := StartNew(dep, host);
      }
    }

    /** The found plugin gains an access and is handed out again. */
    method ShareRunning(plugin: PactPlugin, ghost key: string)
      requires Valid() && key in plugins && plugins[key] == plugin
      modifies plugin`accessCount
      ensures Valid()
      ensures plugin.alive && plugin.accessCount == old(plugin.accessCount) + 1
    {
      plugin.UpdateAccess();
    }

    /** The miss branch of `load_plugin`: load the manifest, then initialise a plugin from it. */
    method StartNew(dep: PluginDependency, host: Host) returns (r: Result<PactPlugin, LoadError>, ghost started: Option<PactPlugin>)
      requires Valid()
      modifies this`manifests, this`plugins, catalogue
      ensures Valid()
      ensures var loaded := old(LoadedManifest(manifests, dep, host.pluginDir));
        && manifests == old(CacheAfterLoad(manifests, dep, host.pluginDir))
        && (loaded.Failure? ==> r == Failure(loaded.error) && started.None?)
        && (loaded.Success? && InitialiseFailure(loaded.value, host).Some? ==>
              r == Failure(InitialiseFailure(loaded.value, host).value))
        && (loaded.Success? && InitialiseFailure(loaded.value, host).None? ==>
              && r.Success? && fresh(r.value)
              && r.value.manifest == loaded.value
              && r.value.entryPath == ResolveEntryPath(loaded.value, host.os, host.fs)
              && r.value.accessCount == 1 && r.value.alive
              && plugins == old(plugins)[RegistryKey(loaded.value) := r.value]
              && catalogue.entries == WithPluginEntries(old(catalogue.entries), loaded.value, host.initResponse.value))
      ensures r.Failure? ==> plugins == old(plugins) && catalogue.entries == old(catalogue.entries)
      ensures var loaded := old(LoadedManifest(manifests, dep, host.pluginDir));
        loaded.Success? ==> (started.Some? <==> loaded.value.executableType == "exec" && host.spawn.Ready?)
      ensures started.Some? ==> fresh(started.value) && (r.Success? ==> r.value == started.value) && (r.Failure? ==> !started.value.alive)
    {
      var loaded := LoadPluginManifest(dep, host.pluginDir);
      if loaded.Failure? {
        return Failure(loaded.error), None;
      }
      r, started := InitialisePlugin(loaded.value, host);
    }

    /** `shutdown_plugin`: stop the process and remove the plugin's catalogue entries. */
    method ShutdownPlugin(plugin: PactPlugin)
      modifies plugin`alive, catalogue
      ensures !plugin.alive
      ensures catalogue.entries == WithoutPlugins(old(catalogue.entries), {plugin.manifest.name})
    {
      plugin.Kill();
      catalogue.RemovePluginEntries(plugin.manifest.name);
    }

    /**
     `drop_plugin_access`: the plugin the dependency resolves to loses one access;
     when none remain it is shut down and leaves the register.
     */
    method DropPluginAccess(dep: PluginDependency)
      requires Valid()
      modifies this`plugins, plugins.Values, catalogue
      ensures Valid()
      ensures var hit := old(Resolve(ManifestsOf(plugins), dep));
        hit.None? ==> (
          && plugins == old(plugins) && catalogue.entries == old(catalogue.entries)
          && forall q :: q in old(plugins.Values) ==> unchanged(q))
      ensures var hit := old(Resolve(ManifestsOf(plugins), dep));
        hit.Some? ==> (
          var plugin := old(plugins)[hit.value];
          && plugin.accessCount == old(plugin.accessCount) - 1
          && (plugin.accessCount == 0 ==>
                && !plugin.alive
                && plugins == old(plugins) - {hit.value}
                && catalogue.entries == WithoutPlugins(old(catalogue.entries), {plugin.manifest.name}))
          && (plugin.accessCount > 0 ==>
                plugin.alive && plugins == old(plugins) && catalogue.entries == old(catalogue.entries))
          && forall q :: q in old(plugins.Values) && q != plugin ==> unchanged(q))
    {
      var found := LookupPluginInner(dep);
      if found.Some? {
        ghost var key := Resolve(ManifestsOf(plugins), dep).value;
        assert key == RegistryKey(ManifestsOf(plugins)[key]);
        ReleaseAccess(found.value);
      }
    }

    /** The body of `drop_plugin_access` for the plugin found: one access fewer, and at zero it is shut down and unregistered. */
    method ReleaseAccess(plugin: PactPlugin)
      requires Valid() && RegistryKey(plugin.manifest) in plugins && plugins[RegistryKey(plugin.manifest)] == plugin
      modifies this`plugins, plugin, catalogue
      ensures Valid()
      ensures plugin.accessCount == old(plugin.accessCount) - 1
      ensures plugin.accessCount == 0 ==>
        && !plugin.alive
        && plugins == old(plugins) - {RegistryKey(plugin.manifest)}
        && catalogue.entries == WithoutPlugins(old(catalogue.entries), {plugin.manifest.name})
      ensures plugin.accessCount > 0 ==>
        plugin.alive && plugins == old(plugins) && catalogue.entries == old(catalogue.entries)
    {
      var key := RegistryKey(plugin.manifest);
      var others := plugins - {key};
      forall k | k in others ensures others[k] != plugin {
        assert ManifestsOf(plugins)[k] == plugins[k].manifest;
      }
      assert KeysConsistent(ManifestsOf(others)) by {
        forall k | k in ManifestsOf(others) ensures k == RegistryKey(ManifestsOf(others)[k]) {
          assert ManifestsOf(plugins)[k] == plugins[k].manifest;
        }
      }
      var remaining := plugin.DropAccess();
      if remaining == 0 {
        Retire(plugin, key);
      }
    }

    /** A plugin whose last access was dropped is shut down and its key leaves the register. */
    method Retire(plugin: PactPlugin, key: string)
      requires key in plugins && plugins[key] == plugin && key == RegistryKey(plugin.manifest)
      requires KeysConsistent(ManifestsOf(plugins - {key})) && KeysConsistent(manifests)
      requires forall k :: k in plugins && k != key ==> plugins[k] != plugin && plugins[k].alive && plugins[k].accessCount >= 1
      modifies this`plugins, plugin`alive, catalogue
      ensures Valid()
      ensures !plugin.alive && plugins == old(plugins) - {key}
      ensures catalogue.entries == WithoutPlugins(old(catalogue.entries), {plugin.manifest.name})
    {
      ShutdownPlugin(plugin);
      plugins := plugins - {key};
    }

    /** `shutdown_plugins`: every running plugin is stopped, its catalogue entries removed, and the register emptied. */
    method ShutdownPlugins()
      requires Valid()
      modifies this`plugins, plugins.Values`alive, catalogue
      ensures Valid() && plugins == map[]
      ensures forall q :: q in old(plugins.Values) ==> !q.alive && q.accessCount == old(q.accessCount)
      ensures catalogue.entries == WithoutPlugins(old(catalogue.entries), PluginNames(old(plugins)))
    {
      ShutdownEach(plugins);
      plugins := map[];
    }

    /** The loop of `shutdown_plugins`: `shutdown_plugin` for every plugin of `register`, in any order. */
    method ShutdownEach(register: map<string, PactPlugin>)
      modifies register.Values`alive, catalogue
      ensures forall k :: k in register ==> !register[k].alive
      ensures catalogue.entries == WithoutPlugins(old(catalogue.entries), PluginNames(register))
    {
      var rest := register.Keys;
      ghost var done: set<string> := {};
      assert WithoutPlugins(catalogue.entries, NamesUnder(register, done)) == catalogue.entries;
      while rest != {}
        invariant rest <= register.Keys && done <= register.Keys
        invariant forall k :: k in register ==> (k in done <==> k !in rest)
        invariant forall k :: k in done ==> !register[k].alive
        invariant catalogue.entries == WithoutPlugins(old(catalogue.entries), NamesUnder(register, done))
        decreases rest
      {
        var k :| k in rest;
        var plugin := register[k];
        ShutdownPlugin(plugin);
        WithoutPluginsCompose(old(catalogue.entries), NamesUnder(register, done), {plugin.manifest.name});
        NamesUnderStep(register, done, k);
        done := done + {k};
        rest := rest - {k};
      }
      assert done == register.Keys;
      assert NamesUnder(register, done) == PluginNames(register);
    }
  }
}
