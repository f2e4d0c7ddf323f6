/** The normalized lockfile: what the translator produces and the store projection reads. */
module Metadata {
  import opened Common

  datatype Resolution = Registry | Workspace

  datatype Patch = Patch(hash: string, path: string)

  datatype Package = Package(
    cpu: seq<string>,
    hasBin: bool,
    integrity: Option<string>,
    libc: seq<string>,
    name: string,
    os: seq<string>,
    patch: Option<Patch>,
    resolution: Resolution,
    url: Option<string>,
    version: string,
    workspacePath: Option<string>)

  /** A dependency resolves to a peer-qualified snapshot or to a workspace directory. */
  datatype Reference = PackageRef(snapshot: string) | WorkspaceRef(path: string)

  type References = map<string, Reference>

  datatype Snapshot = Snapshot(
    dependencies: References,
    optional: bool,
    optionalDependencies: References,
    package: string,
    peerIdentities: seq<string>,
    virtualStoreName: string)

  datatype Importer = Importer(
    dependencies: References,
    devDependencies: References,
    optionalDependencies: References)

  datatype Lock = Lock(
    importers: map<string, Importer>,
    packages: map<string, Package>,
    snapshots: map<string, Snapshot>)

  // ----- String helpers -----

  /** The first position of c, or -1. */
  function IndexOf(s: string, c: char): (i: int)
    ensures -1 <= i < |s|
    ensures i >= 0 ==> s[i] == c && c !in s[..i]
    ensures i == -1 <==> c !in s
  {
    if s == [] then -1
    else if s[0] == c then 0
    else
      var i := IndexOf(s[1..], c);
      assert s == [s[0]] + s[1..];
      assert i >= 0 ==> s[..i + 1] == [s[0]] + s[1..][..i];
      if i == -1 then -1 else i + 1
  }

  /** The last position of c, or -1. */
  function LastIndexOf(s: string, c: char): (i: int)
    ensures -1 <= i < |s|
    ensures i >= 0 ==> s[i] == c && c !in s[i + 1..]
    ensures i == -1 <==> c !in s
  {
    if s == [] then -1
    else if s[|s| - 1] == c then |s| - 1
    else
      var i := LastIndexOf(s[..|s| - 1], c);
      assert s == s[..|s| - 1] + [s[|s| - 1]];
      assert i >= 0 ==> s[i + 1..] == s[..|s| - 1][i + 1..] + [s[|s| - 1]];
      i
  }

  function ReplaceAll(s: string, c: char, r: string): string {
    if s == [] then [] else (if s[0] == c then r else [s[0]]) + ReplaceAll(s[1..], c, r)
  }
}
