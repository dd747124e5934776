/**
 * The version-sync script: for every extension package, copy the version of
 * its package.json into the manifest `version:` entry of its vite.config.ts.
 * The rewrite is `text.replace(/(version:\s*['"])([^'"]+)(['"]\s*,?)/,
 * "$1" + version + "$3")`: the first match only, with the value between the
 * quotes replaced. The file system is a map from paths to contents, and the
 * parse of package.json is an input.
 */
module SyncManifest {
  import opened Wrappers
  import opened Strings

  // ---------------------------------------------------------------------------
  // The regular expression
  // ---------------------------------------------------------------------------

  const Key: string := "version:"

  predicate IsQuote(c: char) {
    c == '\'' || c == '"'
  }

  /** The length of the run of `\s` characters starting at `i`. */
  function SpaceRun(s: string, i: nat): (n: nat)
    requires i <= |s|
    ensures i + n <= |s|
    ensures forall k :: i <= k < i + n ==> IsJsWhitespace(s[k])
    ensures i + n == |s| || !IsJsWhitespace(s[i + n])
    decreases |s| - i
  {
    if i < |s| && IsJsWhitespace(s[i]) then 1 + SpaceRun(s, i + 1) else 0
  }

  /** The length of the run of `[^'"]` characters starting at `i`. */
  function ValueRun(s: string, i: nat): (n: nat)
    requires i <= |s|
    ensures i + n <= |s|
    ensures forall k :: i <= k < i + n ==> !IsQuote(s[k])
    ensures i + n == |s| || IsQuote(s[i + n])
    decreases |s| - i
  {
    if i < |s| && !IsQuote(s[i]) then 1 + ValueRun(s, i + 1) else 0
  }

  /**
   * A match starting at `p`: `version:`, `w` spaces, a quote, `v` value
   * characters, a quote, `w2` spaces and `c` commas (0 or 1).
   */
  predicate MatchesWith(s: string, p: nat, w: nat, v: nat, w2: nat, c: nat) {
    var a := p + |Key| + w + 1;
    var b := a + v;
    c <= 1 && b + 1 + w2 + c <= |s|
    && s[p..p + |Key|] == Key
    && (forall k :: p + |Key| <= k < a - 1 ==> IsJsWhitespace(s[k]))
    && IsQuote(s[a - 1])
    && v >= 1 && (forall k :: a <= k < b ==> !IsQuote(s[k]))
    && IsQuote(s[b])
    && (forall k :: b + 1 <= k < b + 1 + w2 ==> IsJsWhitespace(s[k]))
    && (c == 1 ==> s[b + 1 + w2] == ',')
  }

  /** Where the value of a match lies, `[valueStart, valueEnd)`, and where the match ends. */
  datatype Match = Match(valueStart: nat, valueEnd: nat, matchEnd: nat)

  /** The match the regex takes at `p`, if there is one: every quantifier as long as it can be. */
  function MatchAt(s: string, p: nat): Option<Match>
    requires p <= |s|
  {
    if !(p + |Key| <= |s| && s[p..p + |Key|] == Key) then None
    else
      var q := p + |Key| + SpaceRun(s, p + |Key|);
      if q < |s| && IsQuote(s[q]) then
        var a := q + 1;
        var b := a + ValueRun(s, a);
        if a < b < |s| then
          var e := b + 1 + SpaceRun(s, b + 1);
          Some(Match(a, b, if e < |s| && s[e] == ',' then e + 1 else e))
        else None
      else None
  }

  /**
   * The match taken at `p` is one the pattern allows, with the tail's
   * spaces all taken. `MatchesWithGreedy` gives the converse.
   */
  lemma MatchAtAllowed(s: string, p: nat)
    requires p <= |s| && MatchAt(s, p).Some?
    ensures var m := MatchAt(s, p).value;
      var w2 := SpaceRun(s, m.valueEnd + 1);
      m.matchEnd - m.valueEnd - 1 - w2 in {0, 1}
      && MatchesWith(s, p, m.valueStart - p - |Key| - 1, m.valueEnd - m.valueStart, w2, m.matchEnd - m.valueEnd - 1 - w2)
  {
  }

  /**
   * Whenever the pattern allows a match at `p`, the regex takes one there,
   * with the same space and value runs and a tail at least as long (the
   * greedy choice). In particular `manifest_version: 3` is no match: a
   * quote must follow the spaces after the key.
   */
  lemma MatchesWithGreedy(s: string, p: nat, w: nat, v: nat, w2: nat, c: nat)
    requires MatchesWith(s, p, w, v, w2, c)
    ensures MatchAt(s, p).Some?
    ensures MatchAt(s, p).value.valueStart == p + |Key| + w + 1
    ensures MatchAt(s, p).value.valueEnd == p + |Key| + w + 1 + v
    ensures MatchAt(s, p).value.matchEnd >= p + |Key| + w + 1 + v + 1 + w2 + c
  {
    var i := p + |Key|;
    var a := i + w + 1;
    var b := a + v;
    SpaceRunExact(s, i, w);
    ValueRunExact(s, a, v);
    SpaceRunAtLeast(s, b + 1, w2);
  }

  lemma {:induction false} SpaceRunExact(s: string, i: nat, w: nat)
    requires i + w < |s|
    requires forall k :: i <= k < i + w ==> IsJsWhitespace(s[k])
    requires !IsJsWhitespace(s[i + w])
    ensures SpaceRun(s, i) == w
    decreases w
  {
    if w > 0 {
      SpaceRunExact(s, i + 1, w - 1);
    }
  }

  lemma {:induction false} SpaceRunAtLeast(s: string, i: nat, w: nat)
    requires i + w <= |s|
    requires forall k :: i <= k < i + w ==> IsJsWhitespace(s[k])
    ensures SpaceRun(s, i) >= w
    decreases w
  {
    if w > 0 {
      SpaceRunAtLeast(s, i + 1, w - 1);
    }
  }

  lemma {:induction false} ValueRunExact(s: string, i: nat, v: nat)
    requires i + v < |s|
    requires forall k :: i <= k < i + v ==> !IsQuote(s[k])
    requires IsQuote(s[i + v])
    ensures ValueRun(s, i) == v
    decreases v
  {
    if v > 0 {
      ValueRunExact(s, i + 1, v - 1);
    }
  }

  /** The leftmost position at or after `p` where the regex matches, with its match. */
  function FirstMatchFrom(s: string, p: nat): (r: Option<(nat, Match)>)
    requires p <= |s|
    ensures r.Some? ==>
      p <= r.value.0 && r.value.0 + |Key| < r.value.1.valueStart < r.value.1.valueEnd < r.value.1.matchEnd <= |s|
    decreases |s| - p
  {
    match MatchAt(s, p)
    case Some(m) => Some((p, m))
    case None => if p == |s| then None else FirstMatchFrom(s, p + 1)
  }

  /** The first match found is the regex's match there, and there is none before it. */
  lemma {:induction false} FirstMatchFromSpec(s: string, p: nat)
    requires p <= |s|
    ensures var r := FirstMatchFrom(s, p);
      r.Some? ==> MatchAt(s, r.value.0) == Some(r.value.1)
    ensures var r := FirstMatchFrom(s, p);
      forall q :: p <= q <= |s| && (r.None? || q < r.value.0) ==> MatchAt(s, q).None?
    decreases |s| - p
  {
    if MatchAt(s, p).None? && p < |s| {
      FirstMatchFromSpec(s, p + 1);
      assert FirstMatchFrom(s, p) == FirstMatchFrom(s, p + 1);
    }
  }

  /** `text.replace(regex, "$1" + version + "$3")`: the first match's groups 1 and 3 around the new version. */
  function ReplaceVersion(text: string, version: string): string {
    match FirstMatchFrom(text, 0)
    case None => text
    case Some((p, m)) =>
      text[..p] + text[p..m.valueStart] + version + text[m.valueEnd..m.matchEnd] + text[m.matchEnd..]
  }

  /**
   * Only the value of the first match changes: the key, spaces, quotes and
   * comma around it and everything else in the text are kept; text without a
   * match is left as it is.
   */
  lemma ReplaceVersionSpec(text: string, version: string)
    ensures FirstMatchFrom(text, 0).None? ==> ReplaceVersion(text, version) == text
    ensures FirstMatchFrom(text, 0).Some? ==>
      var m := FirstMatchFrom(text, 0).value.1;
      ReplaceVersion(text, version) == text[..m.valueStart] + version + text[m.valueEnd..]
  {
    match FirstMatchFrom(text, 0)
    case None =>
    case Some((p, m)) =>
      assert text[..p] + text[p..m.valueStart] == text[..m.valueStart];
      assert text[m.valueEnd..m.matchEnd] + text[m.matchEnd..] == text[m.valueEnd..];
  }

  /**
   * A `version:` key whose spaces are followed by anything but a quote, as
   * in `manifest_version: 3`, is passed over: the search goes on to the
   * next `version: '…'` entry.
   */
  lemma UnquotedKeyPassedOver(s: string, p: nat, w: nat)
    requires p + |Key| + w < |s| && s[p..p + |Key|] == Key
    requires forall k :: p + |Key| <= k < p + |Key| + w ==> IsJsWhitespace(s[k])
    requires !IsJsWhitespace(s[p + |Key| + w]) && !IsQuote(s[p + |Key| + w])
    ensures MatchAt(s, p).None?
    ensures FirstMatchFrom(s, p) == FirstMatchFrom(s, p + 1)
  {
    SpaceRunExact(s, p + |Key|, w);
  }

  // ---------------------------------------------------------------------------
  // The packages
  // ---------------------------------------------------------------------------

  /** A package directory `<root>/<dir>`, as the glob found it. */
  datatype PackagePath = PackagePath(root: string, dir: string)

  /** The two files of a package the script reads or writes: package.json and vite.config.ts. */
  datatype PackageFile = PackageJson | ViteConfigTs

  /** A file inside a package directory. */
  datatype FilePath = FilePath(pkg: PackagePath, file: PackageFile)

  function ManifestPath(pkg: PackagePath): FilePath {
    FilePath(pkg, PackageJson)
  }

  function ViteConfigPath(pkg: PackagePath): FilePath {
    FilePath(pkg, ViteConfigTs)
  }

  /**
   * The glob's choice: a directory right under packages or apps, one path
   * segment that does not start with '.', and not the ui package.
   */
  predicate Selected(pkg: PackagePath) {
    (pkg.root == "packages" || pkg.root == "apps")
    && pkg.dir != "" && '/' !in pkg.dir && pkg.dir[0] != '.' && pkg.dir != "ui"
  }

  /** One package: a package without vite.config.ts is skipped; otherwise its manifest version is rewritten. */
  function SyncOne(files: map<FilePath, string>, pkg: PackagePath, versionOf: string -> string, rewrite: (string, string) -> string): map<FilePath, string>
    requires ManifestPath(pkg) in files
  {
    var config := ViteConfigPath(pkg);
    if config !in files then files
    else files[config := rewrite(files[config], versionOf(files[ManifestPath(pkg)]))]
  }

  /** The first `k` packages, one after another. */
  function SyncUpTo(files: map<FilePath, string>, pkgs: seq<PackagePath>, versionOf: string -> string, rewrite: (string, string) -> string, k: nat): (r: map<FilePath, string>)
    requires k <= |pkgs|
    requires forall p :: p in pkgs ==> ManifestPath(p) in files
    ensures r.Keys == files.Keys
    decreases k
  {
    if k == 0 then files
    else
      var before := SyncUpTo(files, pkgs, versionOf, rewrite, k - 1);
      SyncOne(before, pkgs[k - 1], versionOf, rewrite)
  }

  /** The last of the first `k` packages whose config file is `f`, if any. */
  function ConfigOwner(pkgs: seq<PackagePath>, k: nat, f: FilePath): (r: Option<nat>)
    requires k <= |pkgs|
    ensures r.Some? ==> r.value < k && ViteConfigPath(pkgs[r.value]) == f
    ensures r.None? ==> forall i :: 0 <= i < k ==> ViteConfigPath(pkgs[i]) != f
    decreases k
  {
    if k == 0 then None
    else if ViteConfigPath(pkgs[k - 1]) == f then Some(k - 1)
    else ConfigOwner(pkgs, k - 1, f)
  }

  /** Where the first `k` packages leave file `f`: rewritten with its owner's version, or as it was. */
  function SyncedFile(files: map<FilePath, string>, pkgs: seq<PackagePath>, versionOf: string -> string, rewrite: (string, string) -> string, k: nat, f: FilePath): string
    requires k <= |pkgs| && f in files
    requires forall p :: p in pkgs ==> ManifestPath(p) in files
  {
    match ConfigOwner(pkgs, k, f)
    case None => files[f]
    case Some(i) => rewrite(files[f], versionOf(files[ManifestPath(pkgs[i])]))
  }

  /**
   * After the first `k` selected packages, the config file of each of them
   * that has one holds that package's manifest version, and every other
   * file is as it was.
   */
  lemma {:induction false} SyncUpToSpec(files: map<FilePath, string>, pkgs: seq<PackagePath>, versionOf: string -> string, rewrite: (string, string) -> string, k: nat)
    requires k <= |pkgs|
    requires forall p :: p in pkgs ==> ManifestPath(p) in files
    requires NoDuplicates(pkgs)
    ensures forall f :: f in files ==> SyncUpTo(files, pkgs, versionOf, rewrite, k)[f] == SyncedFile(files, pkgs, versionOf, rewrite, k, f)
    decreases k
  {
    if k > 0 {
      SyncUpToSpec(files, pkgs, versionOf, rewrite, k - 1);
      forall f | f in files
        ensures SyncUpTo(files, pkgs, versionOf, rewrite, k)[f] == SyncedFile(files, pkgs, versionOf, rewrite, k, f)
      {
        SyncUpToFile(files, pkgs, versionOf, rewrite, k, f);
      }
    }
  }

  /** The `k`-th package changes at most its own config file, reading a manifest that no earlier package changed. */
  lemma SyncUpToFile(files: map<FilePath, string>, pkgs: seq<PackagePath>, versionOf: string -> string, rewrite: (string, string) -> string, k: nat, f: FilePath)
    requires 0 < k <= |pkgs| && f in files
    requires forall p :: p in pkgs ==> ManifestPath(p) in files
    requires NoDuplicates(pkgs)
    requires forall g :: g in files ==> SyncUpTo(files, pkgs, versionOf, rewrite, k - 1)[g] == SyncedFile(files, pkgs, versionOf, rewrite, k - 1, g)
    ensures SyncUpTo(files, pkgs, versionOf, rewrite, k)[f] == SyncedFile(files, pkgs, versionOf, rewrite, k, f)
  {
    var before := SyncUpTo(files, pkgs, versionOf, rewrite, k - 1);
    var pkg := pkgs[k - 1];
    var manifest, config := ManifestPath(pkg), ViteConfigPath(pkg);
    assert before[manifest] == files[manifest];
    if f == config {
      forall i | 0 <= i < k - 1 ensures ViteConfigPath(pkgs[i]) != f {
        assert pkgs[i] != pkg;
      }
    }
  }

  /** The packages the glob yields: those selected, in the order found. */
  function Glob(found: seq<PackagePath>): (r: seq<PackagePath>)
    ensures forall p :: p in r <==> p in found && Selected(p)
    ensures NoDuplicates(found) ==> NoDuplicates(r)
    decreases |found|
  {
    if found == [] then []
    else
      var rest := Glob(found[1..]);
      assert forall p :: p in found <==> p == found[0] || p in found[1..];
      if Selected(found[0]) then [found[0]] + rest else rest
  }

  /** The workspace the script rewrites. */
  class Workspace {
    var files: map<FilePath, string>

    constructor(initial: map<FilePath, string>)
      ensures files == initial
    {
      files := initial;
    }

    /**
     * For each package the glob yields, skip it when it has no
     * vite.config.ts, and otherwise rewrite that file's manifest version to
     * the version of its package.json. `found` is every
     * `<root>/<dir>/package.json` on disk, each once; the glob's selection is
     * applied here.
     */
    method SyncManifestVersions(found: seq<PackagePath>, versionOf: string -> string)
      requires NoDuplicates(found)
      requires forall p :: p in found ==> ManifestPath(p) in files
      modifies this
      ensures files == SyncUpTo(old(files), Glob(found), versionOf, ReplaceVersion, |Glob(found)|)
    {
      SyncPackages(Glob(found), versionOf, ReplaceVersion);
    }

    /** The loop over the packages the glob yielded, with `rewrite` as the manifest rewrite. */
    method SyncPackages(pkgs: seq<PackagePath>, versionOf: string -> string, rewrite: (string, string) -> string)
      requires forall p :: p in pkgs ==> ManifestPath(p) in files
      modifies this
      ensures files == SyncUpTo(old(files), pkgs, versionOf, rewrite, |pkgs|)
    {
      var fs := files;
      ghost var start := fs;
      var i := 0;
      while i < |pkgs|
        invariant i <= |pkgs|
        invariant fs == SyncUpTo(start, pkgs, versionOf, rewrite, i)
      {
        var pkg := pkgs[i];
        var config := ViteConfigPath(pkg);
        assert ManifestPath(pkg) in start;
        if config in fs {
          var version := versionOf(fs[ManifestPath(pkg)]);
          fs := fs[config := rewrite(fs[config], version)];
        }
        i := i + 1;
      }
      files := fs;
    }
  }

  /**
   * The whole run: a file changes only when it is the vite.config.ts of a
   * selected package, and then it holds the rewrite with that package's
   * version; the ui packages' config files are never touched.
   */
  lemma SyncSpec(files: map<FilePath, string>, found: seq<PackagePath>, versionOf: string -> string, rewrite: (string, string) -> string)
    requires NoDuplicates(found)
    requires forall p :: p in found ==> ManifestPath(p) in files
    ensures var pkgs := Glob(found);
      forall f :: f in files ==>
        SyncUpTo(files, pkgs, versionOf, rewrite, |pkgs|)[f] == SyncedFile(files, pkgs, versionOf, rewrite, |pkgs|, f)
    ensures forall root :: ViteConfigPath(PackagePath(root, "ui")) in files ==>
      SyncUpTo(files, Glob(found), versionOf, rewrite, |Glob(found)|)[ViteConfigPath(PackagePath(root, "ui"))]
      == files[ViteConfigPath(PackagePath(root, "ui"))]
  {
    var pkgs := Glob(found);
    SyncUpToSpec(files, pkgs, versionOf, rewrite, |pkgs|);
  }
}
