/** `moduleVersions`: the dependency section built from what `read-installed` reports. */
module Versions {
  import opened Wrappers
  import opened Text

  /** One entry of `data.dependencies`: the package name (its key) and its installed version. */
  datatype Dependency = Dependency(name: string, version: string)

  /** What `read-installed` hands its callback: an error, if any, and the dependencies in the
      enumeration order of their keys. */
  datatype Installed = Installed(error: Option<string>, dependencies: seq<Dependency>)

  /** The line for one dependency: name, ": ", version. */
  function DepLine(d: Dependency): (line: string)
    ensures |line| == |d.name| + 2 + |d.version|
    ensures line[..|d.name|] == d.name && line[|d.name|..|d.name| + 2] == ": "
    ensures line[|d.name| + 2..] == d.version
  {
    d.name + ": " + d.version
  }

  /** One line per dependency, in key order. */
  function DepLines(deps: seq<Dependency>): (lines: seq<string>)
    ensures |lines| == |deps|
    ensures forall i :: 0 <= i < |deps| ==> lines[i] == DepLine(deps[i])
  {
    seq(|deps|, i requires 0 <= i < |deps| => DepLine(deps[i]))
  }

  /** `moduleVersions` as its callback sees it when `read-installed` hands over its data: the
      error is ignored and the callback receives the joined dependency lines, never an error. */
  function ModuleVersions<E>(installed: Installed, sep: string): (r: Result<string, E>)
    ensures r.Success?
    ensures r.value == Join(DepLines(installed.dependencies), sep)
  {
    Success(Join(DepLines(installed.dependencies), sep))
  }

  /** The dependency section of two dependency lists, both non-empty, is the first section, the
      separator, then the second: no line moves and none is added or lost. */
  lemma DepSectionConcat(a: seq<Dependency>, b: seq<Dependency>, sep: string)
    requires a != [] && b != []
    ensures Join(DepLines(a + b), sep) == Join(DepLines(a), sep) + sep + Join(DepLines(b), sep)
  {
    assert DepLines(a + b) == DepLines(a) + DepLines(b);
    JoinConcat(DepLines(a), DepLines(b), sep);
  }
}
