/**
 The plugin descriptions both registers are keyed by: the manifest read from a
 plugin's `pact-plugin.json`, the dependency a caller asks for, the
 `"name/version"` register key and the order on version strings.
 */
module PluginModels {
  import opened Wrappers

  /** A plugin manifest, with the fields the driver reads. */
  datatype PactPluginManifest = PactPluginManifest(
    pluginDir: string,
    name: string,
    version: string,
    executableType: string,
    entryPoint: string,
    entryPoints: map<string, string>)

  /** A requested plugin: a name and, optionally, an exact version. */
  datatype PluginDependency = PluginDependency(name: string, version: Option<string>)

  /** The `format!("{}/{}", name, version)` key of both registers. */
  function VersionedKey(name: string, version: string): (k: string)
    ensures |k| == |name| + 1 + |version|
    ensures k[..|name|] == name && k[|name|] == '/' && k[|name| + 1..] == version
  {
    name + "/" + version
  }

  /** The register key of a manifest. */
  function RegistryKey(m: PactPluginManifest): string
  {
    VersionedKey(m.name, m.version)
  }

  /** Two different (name, version) pairs can share a key when a name holds a '/'. */
  lemma RegistryKeysCanCollide()
    ensures VersionedKey("a/b", "c") == VersionedKey("a", "b/c")
  {
  }

  /**
   Versions are strings, and `String::cmp` orders them lexicographically by
   character (the order of their UTF-8 bytes). `VersionLe(a, b)` is `a.cmp(b) != Greater`.
   */
  predicate VersionLe(a: string, b: string)
  {
    a == [] || (b != [] && (a[0] < b[0] || (a[0] == b[0] && VersionLe(a[1..], b[1..]))))
  }

  lemma {:induction false} VersionLeReflexive(a: string)
    ensures VersionLe(a, a)
  {
    if a != [] {
      VersionLeReflexive(a[1..]);
    }
  }

  lemma {:induction false} VersionLeTotal(a: string, b: string)
    ensures VersionLe(a, b) || VersionLe(b, a)
  {
    if a != [] && b != [] && a[0] == b[0] {
      VersionLeTotal(a[1..], b[1..]);
    }
  }

  lemma {:induction false} VersionLeAntisymmetric(a: string, b: string)
    requires VersionLe(a, b) && VersionLe(b, a)
    ensures a == b
  {
    if a != [] && b != [] {
      VersionLeAntisymmetric(a[1..], b[1..]);
      assert a == [a[0]] + a[1..] && b == [b[0]] + b[1..];
    }
  }

  lemma {:induction false} VersionLeTransitive(a: string, b: string, c: string)
    requires VersionLe(a, b) && VersionLe(b, c)
    ensures VersionLe(a, c)
  {
    if a != [] && b != [] && c != [] && a[0] == b[0] == c[0] {
      VersionLeTransitive(a[1..], b[1..], c[1..]);
    }
  }

  /** The string order is not the semantic-version order: "1.10.0" sorts before "1.9.0". */
  lemma VersionOrderIsLexicographic()
    ensures VersionLe("1.10.0", "1.9.0") && !VersionLe("1.9.0", "1.10.0")
  {
    var a, b := "1.10.0", "1.9.0";
    assert a[0] == b[0] && a[1] == b[1] && a[2] < b[2];
    assert VersionLe(a[2..], b[2..]);
    assert !VersionLe(b[2..], a[2..]);
  }
}
