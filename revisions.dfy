/**
 * `findRev` and the `async.map` over the configured repositories: one `git rev-parse HEAD` per
 * repository, run concurrently, with the results gathered by position.
 */
module Revisions {
  import opened Wrappers
  import opened Text

  /** The error `grunt.util.spawn` hands back, opaque to the task: it is passed on unchanged and
      never inspected. */
  datatype SpawnError = SpawnError(detail: string)

  /** What the spawned `git` delivered: its output, or an error (non-zero exit, spawn failure). */
  datatype SpawnResult = Exited(output: string) | Failed(error: SpawnError)

  /** `path.resolve`: turns a configured path into an absolute one. It depends on the working
      directory, so the model takes it as a parameter. */
  type Resolver = string -> string

  /** What `path.resolve` returns: an absolute path with no trailing '/' unless it is the root. */
  predicate IsResolved(p: string)
  {
    |p| > 0 && p[0] == '/' && (p[|p| - 1] == '/' ==> p == "/")
  }

  /** `options.repos || []`: an absent list is the empty list. */
  function RepoList(repos: Option<seq<string>>): (list: seq<string>)
    ensures repos.None? ==> list == []
    ensures repos.Some? ==> list == repos.value
  {
    match repos
    case None => []
    case Some(paths) => paths
  }

  /** The line for one repository: its directory name, ": " and the revision as delivered. */
  function RepoLine(resolved: string, revision: string): (line: string)
    ensures |line| >= |revision| + 2
    ensures line[|line| - |revision|..] == revision
    ensures line[|line| - |revision| - 2..|line| - |revision|] == ": "
    ensures var name := line[..|line| - |revision| - 2];
      '/' !in name && |name| <= |resolved| && name == resolved[|resolved| - |name|..]
    ensures var name := line[..|line| - |revision| - 2];
      |name| < |resolved| ==> resolved[|resolved| - |name| - 1] == '/'
  {
    BasenameIsLastComponent(resolved);
    Basename(resolved) + ": " + revision
  }

  /** `findRev` once the spawn has settled: the error is passed on unchanged, otherwise the
      repository's line. */
  function FindRev(repoPath: string, spawn: SpawnResult, resolve: Resolver): (r: Result<string, SpawnError>)
    ensures r.Failure? <==> spawn.Failed?
    ensures r.Failure? ==> r.error == spawn.error
    ensures r.Success? ==> r.value == RepoLine(resolve(repoPath), spawn.output)
  {
    match spawn
    case Failed(e) => Failure(e)
    case Exited(out) => Success(RepoLine(resolve(repoPath), out))
  }

  /** The order in which the `n` probes call back: each of them exactly once. */
  ghost predicate IsCompletionOrder(completion: seq<nat>, n: nat)
  {
    && |completion| == n
    && (forall k :: 0 <= k < |completion| ==> completion[k] < n)
    && (forall i :: 0 <= i < n ==> i in completion)
  }

  /** The state of `async.map` while the probes call back: still collecting, with one slot per
      repository, or already aborted by the first error (later callbacks are ignored). */
  datatype Progress = Collecting(slots: seq<Option<string>>) | Aborted(error: SpawnError)

  /** The map's state after the callbacks listed in `completion` have arrived, in that order.
      A success writes its line into the slot of its own repository, never into the next free one. */
  function Settle(probes: seq<Result<string, SpawnError>>, completion: seq<nat>): (p: Progress)
    requires forall k :: 0 <= k < |completion| ==> completion[k] < |probes|
    ensures p.Collecting? <==> forall k :: 0 <= k < |completion| ==> probes[completion[k]].Success?
    ensures p.Collecting? ==> |p.slots| == |probes|
    ensures p.Collecting? ==> forall i :: 0 <= i < |probes| ==>
      p.slots[i] == (if i in completion then Some(probes[i].value) else None)
    ensures p.Aborted? ==> exists k :: (0 <= k < |completion| &&
      probes[completion[k]] == Failure(p.error) &&
      forall j :: 0 <= j < k ==> probes[completion[j]].Success?)
    decreases |completion|
  {
    if completion == [] then Collecting(seq(|probes|, _ => None))
    else
      var earlier := completion[..|completion| - 1];
      var i := completion[|completion| - 1];
      assert forall j :: j in completion <==> j in earlier || j == i;
      match Settle(probes, earlier)
      case Aborted(e) => Aborted(e)
      case Collecting(slots) =>
        match probes[i]
        case Failure(e) => Aborted(e)
        case Success(line) => Collecting(slots[i := Some(line)])
  }

  /** One `findRev` outcome per repository, by position. */
  function Probes(repos: seq<string>, spawns: seq<SpawnResult>, resolve: Resolver)
    : (probes: seq<Result<string, SpawnError>>)
    requires |spawns| == |repos|
    ensures |probes| == |repos|
    ensures forall i :: 0 <= i < |repos| ==> probes[i] == FindRev(repos[i], spawns[i], resolve)
  {
    seq(|repos|, i requires 0 <= i < |repos| => FindRev(repos[i], spawns[i], resolve))
  }

  /** A map that is still collecting once every probe has called back has heard only
      successes, and holds every repository's line in that repository's own slot. */
  lemma CollectedAll(repos: seq<string>, spawns: seq<SpawnResult>, completion: seq<nat>,
                     resolve: Resolver)
    requires |spawns| == |repos|
    requires IsCompletionOrder(completion, |repos|)
    requires Settle(Probes(repos, spawns, resolve), completion).Collecting?
    ensures var slots := Settle(Probes(repos, spawns, resolve), completion).slots;
      |slots| == |repos| &&
      forall i :: 0 <= i < |repos| ==>
        spawns[i].Exited? && slots[i] == Some(RepoLine(resolve(repos[i]), spawns[i].output))
  {
    var probes := Probes(repos, spawns, resolve);
    var slots := Settle(probes, completion).slots;
    forall i | 0 <= i < |repos|
      ensures spawns[i].Exited? && slots[i] == Some(RepoLine(resolve(repos[i]), spawns[i].output))
    {
      assert i in completion;
      var k :| 0 <= k < |completion| && completion[k] == i;
      assert probes[completion[k]].Success?;
      assert probes[i] == FindRev(repos[i], spawns[i], resolve);
    }
  }

  /** An aborted map carries the error of the first failed spawn in callback order. */
  lemma AbortedByFirstFailure(repos: seq<string>, spawns: seq<SpawnResult>, completion: seq<nat>,
                              resolve: Resolver)
    requires |spawns| == |repos|
    requires IsCompletionOrder(completion, |repos|)
    requires Settle(Probes(repos, spawns, resolve), completion).Aborted?
    ensures var e := Settle(Probes(repos, spawns, resolve), completion).error;
      exists k :: (0 <= k < |completion| && spawns[completion[k]] == Failed(e) &&
        forall j :: 0 <= j < k ==> spawns[completion[j]].Exited?)
    ensures exists i :: 0 <= i < |spawns| && spawns[i].Failed?
  {
    var probes := Probes(repos, spawns, resolve);
    var e := Settle(probes, completion).error;
    var k :| 0 <= k < |completion| && probes[completion[k]] == Failure(e) &&
      forall j :: 0 <= j < k ==> probes[completion[j]].Success?;
    assert spawns[completion[k]] == Failed(e);
    assert forall j :: 0 <= j < k ==> spawns[completion[j]].Exited? by {
      forall j | 0 <= j < k ensures spawns[completion[j]].Exited? {
        assert probes[completion[j]].Success?;
      }
    }
  }

  /** The lines held by a map whose every slot is filled, slot by slot. */
  function Gathered(slots: seq<Option<string>>): (lines: seq<string>)
    requires forall i :: 0 <= i < |slots| ==> slots[i].Some?
    ensures |lines| == |slots|
    ensures forall i :: 0 <= i < |slots| ==> slots[i] == Some(lines[i])
  {
    seq(|slots|, i requires 0 <= i < |slots| => slots[i].value)
  }

  /** `async.map(repos, findRev, callback)` as seen by its callback: all lines in configured
      order, or the first error in completion order. */
  function MapRevisions(repos: seq<string>, spawns: seq<SpawnResult>, completion: seq<nat>,
                        resolve: Resolver): (r: Result<seq<string>, SpawnError>)
    requires |spawns| == |repos|
    requires IsCompletionOrder(completion, |repos|)
    ensures r.Success? <==> forall i :: 0 <= i < |spawns| ==> spawns[i].Exited?
    ensures r.Success? ==> |r.value| == |repos| && forall i :: 0 <= i < |repos| ==>
      r.value[i] == RepoLine(resolve(repos[i]), spawns[i].output)
  {
    var p := Settle(Probes(repos, spawns, resolve), completion);
    if p.Aborted? then
      AbortedByFirstFailure(repos, spawns, completion, resolve);
      Failure(p.error)
    else
      CollectedAll(repos, spawns, completion, resolve);
      Success(Gathered(p.slots))
  }

  /** A failed map reports the error of the first probe, in callback order, that failed: every
      probe that called back before it succeeded. */
  lemma MapRevisionsFirstError(repos: seq<string>, spawns: seq<SpawnResult>, completion: seq<nat>,
                               resolve: Resolver)
    requires |spawns| == |repos|
    requires IsCompletionOrder(completion, |repos|)
    requires MapRevisions(repos, spawns, completion, resolve).Failure?
    ensures var e := MapRevisions(repos, spawns, completion, resolve).error;
      exists k :: (0 <= k < |completion| && spawns[completion[k]] == Failed(e) &&
        forall j :: 0 <= j < k ==> spawns[completion[j]].Exited?)
  {
    AbortedByFirstFailure(repos, spawns, completion, resolve);
  }

  /** Completion order never shows in the result: two runs that differ only in the order the
      probes call back agree on whether they fail and, when they succeed, on every line. */
  lemma CompletionOrderDoesNotLeak(repos: seq<string>, spawns: seq<SpawnResult>,
                                   c1: seq<nat>, c2: seq<nat>, resolve: Resolver)
    requires |spawns| == |repos|
    requires IsCompletionOrder(c1, |repos|) && IsCompletionOrder(c2, |repos|)
    ensures MapRevisions(repos, spawns, c1, resolve).Success? ==
            MapRevisions(repos, spawns, c2, resolve).Success?
    ensures MapRevisions(repos, spawns, c1, resolve).Success? ==>
            MapRevisions(repos, spawns, c1, resolve) == MapRevisions(repos, spawns, c2, resolve)
  {
    var r1 := MapRevisions(repos, spawns, c1, resolve);
    var r2 := MapRevisions(repos, spawns, c2, resolve);
    if r1.Success? {
      assert r2.Success?;
      assert r1.value == r2.value;
    }
  }

  /** Two repositories whose probes both succeed but call back in reverse order: the lines
      still come out in configured order. */
  lemma ReverseCompletionKeepsOrder(repos: seq<string>, revA: string, revB: string, resolve: Resolver)
    requires |repos| == 2
    ensures MapRevisions(repos, [Exited(revA), Exited(revB)], [1, 0], resolve) ==
      Success([RepoLine(resolve(repos[0]), revA), RepoLine(resolve(repos[1]), revB)])
  {
    var spawns, order := [Exited(revA), Exited(revB)], [1, 0];
    BothExited(spawns, order);
    var r := MapRevisions(repos, spawns, order, resolve);
    assert r.Success? && |r.value| == 2;
    assert r.value == [RepoLine(resolve(repos[0]), revA), RepoLine(resolve(repos[1]), revB)];
  }

  /** Both probes of a two-repository run exited, and `[1, 0]` is a callback order for two
      repositories. */
  lemma BothExited(spawns: seq<SpawnResult>, order: seq<nat>)
    requires |spawns| == 2 && spawns[0].Exited? && spawns[1].Exited?
    requires order == [1, 0]
    ensures forall i :: 0 <= i < |spawns| ==> spawns[i].Exited?
    ensures IsCompletionOrder(order, 2)
  {
    assert order[1] == 0 && order[0] == 1;
  }

  /** ./repoA and ./repoB under /work, calling back in reverse order, give `repoA: <revA>` then
      `repoB: <revB>`. */
  lemma TwoReposInConfiguredOrder(resolve: Resolver, revA: string, revB: string)
    requires resolve("./repoA") == "/work/repoA" && resolve("./repoB") == "/work/repoB"
    ensures MapRevisions(["./repoA", "./repoB"], [Exited(revA), Exited(revB)], [1, 0], resolve)
        == Success(["repoA: " + revA, "repoB: " + revB])
  {
    ReverseCompletionKeepsOrder(["./repoA", "./repoB"], revA, revB, resolve);
    LinesUnderWork(resolve, revA, revB);
  }

  /** The lines of ./repoA and ./repoB when they resolve under /work. */
  lemma LinesUnderWork(resolve: Resolver, revA: string, revB: string)
    requires resolve("./repoA") == "/work/repoA" && resolve("./repoB") == "/work/repoB"
    ensures RepoLine(resolve("./repoA"), revA) == "repoA: " + revA
    ensures RepoLine(resolve("./repoB"), revB) == "repoB: " + revB
  {
    RepoLineOfChild("/work", "repoA", revA);
    RepoLineOfChild("/work", "repoB", revB);
    assert "/work" + "/" + "repoA" == "/work/repoA";
    assert "/work" + "/" + "repoB" == "/work/repoB";
  }

  /** A repository directly under `dir` is reported by its own directory name. */
  lemma RepoLineOfChild(dir: string, name: string, revision: string)
    requires '/' !in name
    ensures RepoLine(dir + "/" + name, revision) == name + ": " + revision
  {
    BasenameOfChild(dir, name);
  }

  /** An absent repository list means no probe at all: the map succeeds with no lines. */
  lemma NoReposNoLines(resolve: Resolver)
    ensures MapRevisions(RepoList(None), [], [], resolve) == Success([])
  {
  }
}
