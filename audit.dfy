/**
 * One run of the `audit` task over a file group: the existence filter and hashing, the parallel
 * step that probes the repositories and reads the dependencies, then `out` and `done`. The run
 * is described by the events it causes, in the order they happen.
 */
module Audit {
  import opened Wrappers
  import opened Seqs
  import opened Text
  import opened Hashes
  import opened Revisions
  import opened Versions
  import opened Report

  /** The task's options after merging: the line separator and the repository paths. */
  datatype Options = Options(separator: string, repos: Option<seq<string>>)

  /** A file group: the source entries and the destination, if one is configured. */
  datatype FileGroup = FileGroup(src: seq<SourceFile>, dest: Option<string>)

  /**
   * Everything the run receives from outside the task's own code: the build time and node
   * version, path resolution, the digest, what each `git` probe delivered (by repository
   * position), the order in which the probes called back, what `read-installed` reported, and
   * whether the repository step of the parallel call settled before the dependency step.
   */
  datatype Host = Host(buildTime: string, nodeVersion: string, resolve: Resolver, digest: Digest,
                       spawns: seq<SpawnResult>, completion: seq<nat>, installed: Installed,
                       reposSettleFirst: bool)

  /** What the task visibly does: a warning, a log line, a file write, the confirmation that
      names the written file, and the final `done` call with its error. */
  datatype Event =
    | Warn(message: string)
    | Log(text: string)
    | WriteFile(dest: string, text: string)
    | Confirm(dest: string)
    | Done(error: Option<SpawnError>)

  /** A host that answers each configured repository exactly once, and whose path resolution
      gives resolved paths, as `path.resolve` does. */
  ghost predicate Consistent(opts: Options, host: Host)
  {
    && (forall p :: IsResolved(host.resolve(p)))
    && |host.spawns| == |RepoList(opts.repos)|
    && IsCompletionOrder(host.completion, |RepoList(opts.repos)|)
  }

  /** `async.parallel` with its two tasks, as its final callback sees it: both results, or the
      error of whichever task failed first. */
  function Parallel<E>(repos: Result<seq<string>, E>, versions: Result<string, E>,
                       reposFirst: bool): (r: Result<(seq<string>, string), E>)
    ensures r.Success? <==> repos.Success? && versions.Success?
    ensures r.Success? ==> r.value == (repos.value, versions.value)
    ensures r.Failure? ==> (repos.Failure? && r.error == repos.error) ||
                           (versions.Failure? && r.error == versions.error)
    ensures repos.Failure? && versions.Failure? ==>
      r.error == (if reposFirst then repos.error else versions.error)
  {
    if reposFirst && repos.Failure? then Failure(repos.error)
    else if versions.Failure? then Failure(versions.error)
    else if repos.Failure? then Failure(repos.error)
    else Success((repos.value, versions.value))
  }

  /** JavaScript truthiness of `f.dest`: of the values a destination can take, only `undefined`
      and the empty string are falsy. */
  predicate Truthy(dest: Option<string>)
    ensures Truthy(dest) <==> dest != None && dest != Some("")
  {
    dest.Some? && dest.value != ""
  }

  /** The events that put the report somewhere: a file write or a log line. */
  predicate IsOutput(e: Event)
  {
    e.WriteFile? || e.Log?
  }

  predicate IsDone(e: Event)
  {
    e.Done?
  }

  /** `out`: render the log, then write it to `dest` and confirm, or log it. */
  function Out(revs: seq<string>, modules: string, hashes: string, dest: Option<string>,
               sep: string, buildTime: string, nodeVersion: string): (events: seq<Event>)
    ensures var log := Render(buildTime, nodeVersion, modules, revs, hashes, sep);
      Filter(events, IsOutput) == (if Truthy(dest) then [WriteFile(dest.value, log)] else [Log(log)])
    ensures |events| == if Truthy(dest) then 2 else 1
    ensures Truthy(dest) ==> events[1] == Confirm(dest.value)
    ensures Filter(events, IsDone) == []
  {
    var log := Render(buildTime, nodeVersion, modules, revs, hashes, sep);
    if Truthy(dest) then
      var events := [WriteFile(dest.value, log), Confirm(dest.value)];
      assert events == [events[0]] + [events[1]];
      FilterConcat([events[0]], [events[1]], IsOutput);
      FilterConcat([events[0]], [events[1]], IsDone);
      events
    else [Log(log)]
  }

  /** The warnings of the existence filter, as events. */
  function WarningEvents(files: seq<SourceFile>): (events: seq<Event>)
    ensures |events| == |Warnings(files)|
    ensures forall i :: 0 <= i < |events| ==> events[i] == Warn(Warnings(files)[i])
  {
    var ws := Warnings(files);
    seq(|ws|, i requires 0 <= i < |ws| => Warn(ws[i]))
  }

  /** Some probe failed. */
  ghost predicate AnyProbeFailed(host: Host)
  {
    exists i :: 0 <= i < |host.spawns| && host.spawns[i].Failed?
  }

  /** The repository lines in configured order, one per repository: what a run that did not
      fail must report, whatever the order in which the probes called back. */
  function ConfiguredOrderLines(opts: Options, host: Host): seq<string>
    requires Consistent(opts, host)
    requires !AnyProbeFailed(host)
  {
    var repos := RepoList(opts.repos);
    seq(|repos|, i requires 0 <= i < |repos| =>
          RepoLine(host.resolve(repos[i]), host.spawns[i].output))
  }

  /** The parallel step: the repository map and `moduleVersions`, run side by side. It fails
      exactly when a probe fails, and then with the error of the first failed probe to call
      back; `moduleVersions` never makes it fail. */
  function ParallelStep(opts: Options, host: Host): (r: Result<(seq<string>, string), SpawnError>)
    requires Consistent(opts, host)
    ensures r.Failure? <==> AnyProbeFailed(host)
    ensures r.Failure? ==> exists k :: (0 <= k < |host.completion| &&
      host.spawns[host.completion[k]] == Failed(r.error) &&
      forall j :: 0 <= j < k ==> host.spawns[host.completion[j]].Exited?)
    ensures r.Success? ==> r.value.0 == ConfiguredOrderLines(opts, host)
    ensures r.Success? ==> r.value.1 == Join(DepLines(host.installed.dependencies), opts.separator)
  {
    var revs := MapRevisions(RepoList(opts.repos), host.spawns, host.completion, host.resolve);
    var p := Parallel(revs, ModuleVersions(host.installed, opts.separator), host.reposSettleFirst);
    if p.Success? then
      assert p.value.0 == ConfiguredOrderLines(opts, host);
      p
    else
      MapRevisionsFirstError(RepoList(opts.repos), host.spawns, host.completion, host.resolve);
      p
  }

  /** What follows the parallel step: on failure only `done` with the error; on success `out`
      and then `done` without one. */
  function Finish(step: Result<(seq<string>, string), SpawnError>, hashes: string,
                  dest: Option<string>, sep: string, buildTime: string, nodeVersion: string)
    : (events: seq<Event>)
    ensures events != [] && events[|events| - 1] == Done(if step.Failure? then Some(step.error) else None)
    ensures Filter(events, IsDone) == [events[|events| - 1]]
    ensures step.Failure? ==> events == [Done(Some(step.error))]
    ensures step.Success? ==> |events| == (if Truthy(dest) then 3 else 2)
    ensures step.Success? && Truthy(dest) ==> events[1] == Confirm(dest.value)
    ensures step.Success? ==> (
      var log := Render(buildTime, nodeVersion, step.value.1, step.value.0, hashes, sep);
      Filter(events, IsOutput) == if Truthy(dest) then [WriteFile(dest.value, log)] else [Log(log)])
  {
    match step
    case Failure(e) => [Done(Some(e))]
    case Success((lines, modules)) =>
      var out := Out(lines, modules, hashes, dest, sep, buildTime, nodeVersion);
      FilterConcat(out, [Done(None)], IsOutput);
      FilterConcat(out, [Done(None)], IsDone);
      out + [Done(None)]
  }

  /** One run over a file group: the filter's warnings, then what follows the parallel step. */
  function RunGroup(opts: Options, group: FileGroup, host: Host): (events: seq<Event>)
    requires Consistent(opts, host)
    ensures var warnings := WarningEvents(group.src);
      |events| > |warnings| && events[..|warnings|] == warnings
    ensures var step := ParallelStep(opts, host);
      events[|events| - 1] == Done(if step.Failure? then Some(step.error) else None)
  {
    WarningEvents(group.src)
      + Finish(ParallelStep(opts, host), HashSection(group.src, host.digest, opts.separator),
               group.dest, opts.separator, host.buildTime, host.nodeVersion)
  }

  /** The report a successful run produces, stated without reference to completion order:
      repository lines in configured order, dependency lines in key order, hash lines in
      source order. */
  function ExpectedReport(opts: Options, group: FileGroup, host: Host): string
    requires Consistent(opts, host)
    requires !AnyProbeFailed(host)
  {
    Render(host.buildTime, host.nodeVersion,
           Join(DepLines(host.installed.dependencies), opts.separator),
           ConfiguredOrderLines(opts, host),
           HashSection(group.src, host.digest, opts.separator), opts.separator)
  }

  lemma WarningsAreNotOutputs(files: seq<SourceFile>)
    ensures Filter(WarningEvents(files), IsOutput) == []
    ensures Filter(WarningEvents(files), IsDone) == []
  {
    FilterNone(WarningEvents(files), IsOutput);
    FilterNone(WarningEvents(files), IsDone);
  }

  /** The run fails exactly when some probe fails; the failing run hands `done` the error of a
      failed probe, the first to call back among the failed ones. */
  lemma RunFailsIffProbeFails(opts: Options, group: FileGroup, host: Host)
    requires Consistent(opts, host)
    ensures var trace := RunGroup(opts, group, host);
      && trace != [] && trace[|trace| - 1].Done?
      && (trace[|trace| - 1].error.Some? <==> AnyProbeFailed(host))
      && (trace[|trace| - 1].error.Some? ==> exists k :: (0 <= k < |host.completion| &&
            host.spawns[host.completion[k]] == Failed(trace[|trace| - 1].error.value) &&
            forall j :: 0 <= j < k ==> host.spawns[host.completion[j]].Exited?))
  {
  }

  /** A failed run writes nothing and logs nothing: its only events are the filter's warnings
      and `done` with the error. */
  lemma FailedRunOutputsNothing(opts: Options, group: FileGroup, host: Host)
    requires Consistent(opts, host)
    requires AnyProbeFailed(host)
    ensures Filter(RunGroup(opts, group, host), IsOutput) == []
    ensures forall e :: e in RunGroup(opts, group, host) ==> e.Warn? || e.Done?
  {
    var warnings := WarningEvents(group.src);
    var finish := RunGroup(opts, group, host)[|warnings|..];
    assert RunGroup(opts, group, host) == warnings + finish;
    FilterConcat(warnings, finish, IsOutput);
    WarningsAreNotOutputs(group.src);
  }

  /** A successful run puts the report out exactly once, to `dest` when it is truthy and to the
      log otherwise, and the report is the one stated by ExpectedReport. */
  lemma SuccessfulRunOutputsOnce(opts: Options, group: FileGroup, host: Host)
    requires Consistent(opts, host)
    requires !AnyProbeFailed(host)
    ensures var report := ExpectedReport(opts, group, host);
      Filter(RunGroup(opts, group, host), IsOutput) ==
        if Truthy(group.dest) then [WriteFile(group.dest.value, report)] else [Log(report)]
    ensures var trace := RunGroup(opts, group, host);
      |trace| == |WarningEvents(group.src)| + (if Truthy(group.dest) then 3 else 2)
    ensures var trace := RunGroup(opts, group, host);
      Truthy(group.dest) ==> trace[|trace| - 2] == Confirm(group.dest.value)
  {
    var warnings := WarningEvents(group.src);
    var finish := RunGroup(opts, group, host)[|warnings|..];
    assert RunGroup(opts, group, host) == warnings + finish;
    FilterConcat(warnings, finish, IsOutput);
    WarningsAreNotOutputs(group.src);
  }

  /** `done` is called exactly once, as the last event of the run. */
  lemma DoneOnceAndLast(opts: Options, group: FileGroup, host: Host)
    requires Consistent(opts, host)
    ensures var trace := RunGroup(opts, group, host);
      trace != [] && trace[|trace| - 1].Done? && |Filter(trace, IsDone)| == 1
  {
    var warnings := WarningEvents(group.src);
    var finish := RunGroup(opts, group, host)[|warnings|..];
    assert RunGroup(opts, group, host) == warnings + finish;
    FilterConcat(warnings, finish, IsDone);
    WarningsAreNotOutputs(group.src);
  }

  /** The run starts with one warning per missing source, in source order, before anything else. */
  lemma WarningsComeFirst(opts: Options, group: FileGroup, host: Host)
    requires Consistent(opts, host)
    ensures var trace := RunGroup(opts, group, host);
      |trace| > |Warnings(group.src)| &&
      forall i :: 0 <= i < |Warnings(group.src)| ==> trace[i] == Warn(Warnings(group.src)[i])
  {
  }

  /** Completion order never leaks into the run: two hosts that differ only in the order the
      callbacks arrive agree on whether the run fails, and on success produce the same events. */
  lemma RunIndependentOfCompletionOrder(opts: Options, group: FileGroup, h1: Host, h2: Host)
    requires Consistent(opts, h1) && Consistent(opts, h2)
    requires h2 == h1.(completion := h2.completion, reposSettleFirst := h2.reposSettleFirst)
    ensures ParallelStep(opts, h1).Failure? == ParallelStep(opts, h2).Failure?
    ensures !AnyProbeFailed(h1) ==> RunGroup(opts, group, h1) == RunGroup(opts, group, h2)
  {
    if !AnyProbeFailed(h1) {
      assert ConfiguredOrderLines(opts, h1) == ConfiguredOrderLines(opts, h2);
      assert ParallelStep(opts, h1) == ParallelStep(opts, h2);
    }
  }
}
