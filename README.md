# grunt-audit, modelled in Dafny

`grunt-audit` is a Grunt multi-task, `audit`, that writes a build-provenance log. For each file
group it does the following:

- It drops the source files that do not exist, warning about each one.
- It turns every remaining file into a line `path: <sha1 hex of its bytes>`.
- It asks `git rev-parse HEAD` for the revision of every configured repository, all at once.
- It asks `read-installed` for the project's direct dependencies.
- It assembles the log: build time, node version, dependency lines, repository lines, hash
  lines. It writes the log to the group's destination, or logs it when there is none.
- If any repository probe fails, nothing is output and `done` receives the error.

The model is pure: datatypes, functions and lemmas, with the task's collaborators passed in as
parameters.

- `Wrappers`: `Option` and `Result`. `Result` stands for a Node callback's `(err)` or
  `(null, value)`.
- `Seqs`: `Array.prototype.filter` as `Filter`, with its order and partition lemmas.
- `Text`: `Array.prototype.join` as `Join`, and `path.basename` of a resolved path as `Basename`.
- `Hashes`: the existence filter, `fileHash` and the hash section. The SHA-1 digest is a
  parameter: any function of the file's bytes.
- `Revisions`: `findRev` and the `async.map` over the repositories. The order in which the probes
  call back is an explicit input, a permutation of the repository positions. `Settle` folds the
  callbacks in that order. It writes each success into its own repository's slot and stops at the
  first error, as `async.map` does. The lemmas show that this order never reaches the result.
- `Versions`: `moduleVersions`. When `read-installed` hands over its data, the error is ignored
  and the callback receives the joined dependency lines.
- `Report`: the sixteen entries `out` joins, and a line-by-line reading of the rendered log.
- `Audit`: one run over a file group, written as the sequence of events it causes. The events are
  warnings, a log line, a file write, the write confirmation, and `done`.

Facts about `tasks/audit.js` that the model keeps:

- The repository line is `name: revision`, joined with ": " (tasks/audit.js:39).
- The revision is used as the spawn helper delivers it; the task does not trim it (tasks/audit.js:39).
- The task adds nothing to the spawn error (tasks/audit.js:35-36, 108); any mention of the
  repository is up to the spawn helper and git.
- When `read-installed` hands over `data`, its error is ignored and the run goes on
  (tasks/audit.js:45-50).

## Model

| member | source | states |
|---|---|---|
| `Seqs.Filter` | tasks/audit.js:86-93 | the survivors are exactly the elements the predicate keeps, taken from the input, never more than the input |
| `Seqs.FilterConcat` | tasks/audit.js:86-93 | filtering distributes over concatenation, so survivors keep their relative order |
| `Seqs.FilterPartition` | tasks/audit.js:86-93 | complementary predicates split a list: every source is either kept or warned about, never both or neither |
| `Text.Join` | tasks/audit.js:72 | `join` of no lines is "", and of n > 0 lines starts with the first line |
| `Text.JoinLength` | tasks/audit.js:72 | `join` of n > 0 lines has the summed line length plus n-1 separators |
| `Text.JoinConcat` | tasks/audit.js:94 | joining two non-empty lists is joining each with one separator between them |
| `Text.Basename` | tasks/audit.js:39 | `path.basename` of a resolved path is no longer than the path; `BasenameIsLastComponent` and `BasenameUnique` below state its full contract |
| `Text.BasenameIsLastComponent` | tasks/audit.js:39 | the basename holds no '/', is a suffix of the path, and is preceded by '/' unless it is the whole path |
| `Text.BasenameUnique` | tasks/audit.js:39 | those three facts determine the basename uniquely |
| `Text.BasenameOfChild` | tasks/audit.js:38-39 | the basename of `dir/name` is the directory name `name` |
| `Hashes.Existing` | tasks/audit.js:86-93 | a source survives the filter exactly when it is in the group and exists |
| `Hashes.MissingWarning` | tasks/audit.js:89 | the warning is `Source file "`, the path itself, then `" not found.` |
| `Hashes.Warnings` | tasks/audit.js:88-90 | one warning per missing source: warnings plus survivors number exactly the sources, and every warning names a missing source |
| `Hashes.HashLine` | tasks/audit.js:22-28 | `fileHash` reads back as the path, ": ", then the digest of the file's bytes |
| `Hashes.HashLines` | tasks/audit.js:86-94 | one line per surviving source, in source order, the i-th being `fileHash` of the i-th survivor |
| `Hashes.HashSection` | tasks/audit.js:94 | the hash section is empty exactly when no source exists, and otherwise opens with the first existing source's line |
| `Hashes.HashLineDependsOnlyOnBytes` | tasks/audit.js:22-27 | a line is the path, ": ", then a digest equal for any two files with equal bytes |
| `Hashes.HashLinesConcat` | tasks/audit.js:86-94 | the lines of two source lists are the lines of the first followed by those of the second |
| `Hashes.HashSectionConcat` | tasks/audit.js:86-94 | the hash section of two lists, each with an existing file, is the first section, the separator, the second |
| `Hashes.AllFoundKeepsAll` | tasks/audit.js:86-94 | when every source exists nothing is dropped and no warning is given |
| `Hashes.MissingFileIsDropped` | tasks/audit.js:86-94 | missing a.txt then existing b.txt: one warning for a.txt and a hash section of b.txt's line alone |
| `Revisions.RepoList` | tasks/audit.js:99 | an absent repository option is the empty list, a present one is used as given |
| `Revisions.RepoLine` | tasks/audit.js:39 | a repository line ends with ": " and the revision as delivered, after a slash-free name that is the last component of the resolved path: a suffix of it that is the whole path or follows a '/' |
| `Revisions.FindRev` | tasks/audit.js:30-42 | `findRev` fails exactly when the spawn fails, with its error unchanged; otherwise it yields `basename(resolve(repo)) + ": " + output` |
| `Revisions.Settle` | tasks/audit.js:99 | after callbacks in a given order, the map is still collecting iff each completed probe succeeded, each slot holds the line of its own repository once that repository has called back, and an abort carries the first error in callback order |
| `Revisions.MapRevisions` | tasks/audit.js:97-100 | the map succeeds iff every probe succeeds, then with one line per repository in configured order; otherwise it fails |
| `Revisions.MapRevisionsFirstError` | tasks/audit.js:99 | a failed map carries the error of the first probe, in callback order, that failed; every probe that called back before it succeeded |
| `Revisions.CompletionOrderDoesNotLeak` | tasks/audit.js:99 | two callback orders agree on success and, on success, on the whole result |
| `Revisions.ReverseCompletionKeepsOrder` | tasks/audit.js:97-100 | two successful probes calling back in reverse order still give the first repository's line, then the second's |
| `Revisions.TwoReposInConfiguredOrder` | tasks/audit.js:30-42 | `./repoA` and `./repoB` under `/work`, calling back in reverse order, give `repoA: <revA>` then `repoB: <revB>` |
| `Revisions.NoReposNoLines` | tasks/audit.js:99 | with no repository option the map succeeds with no lines |
| `Versions.DepLines` | tasks/audit.js:46-48 | one `name: version` line per dependency, in key order |
| `Versions.ModuleVersions` | tasks/audit.js:44-51 | when `read-installed` hands over `data`, its error is ignored and the callback gets success with the dependency lines joined by the separator |
| `Versions.DepLine` | tasks/audit.js:47 | a dependency line reads back as the name, ": ", then the version |
| `Versions.DepSectionConcat` | tasks/audit.js:46-48 | the dependency section of two non-empty lists is the first section, the separator, the second |
| `Report.ReportLines` | tasks/audit.js:55-72 | sixteen entries: headings BUILD LOG, NODEJS INFORMATION, REPO REVISIONS, BUILD HASHES at entries 1, 5, 10, 14, each underlined by its own rule of '-' or '=' characters as long as the heading, blank lines at 4, 9, 13, the build time and node version at 3 and 7, and modules, joined revisions and hashes at 8, 12 and 16 |
| `Report.Render` | tasks/audit.js:72 | the rendered log opens with `BUILD LOG` |
| `Report.RenderLineByLine` | tasks/audit.js:55-72 | read line by line, the log is the fixed header lines with every dependency, repository and hash line in place and in order, and one empty line for an empty section |
| `Audit.Parallel` | tasks/audit.js:96-104 | `async.parallel` succeeds iff both tasks do, with both results; otherwise with the error of a failed task, and when both fail, with the error of the one that called back first |
| `Audit.Truthy` | tasks/audit.js:74 | a destination is truthy unless it is absent or the empty string |
| `Audit.Out` | tasks/audit.js:74-79 | with a truthy destination the rendered log is written there and a confirmation follows; otherwise the log alone is logged; either way the report is output exactly once |
| `Audit.WarningEvents` | tasks/audit.js:88-89 | one warning event per missing source, in source order |
| `Audit.ParallelStep` | tasks/audit.js:96-103 | the parallel step fails iff some probe fails, with the first failed probe's error in callback order; on success it carries the repository lines in configured order and the joined dependency lines |
| `Audit.Finish` | tasks/audit.js:104-109 | `done` is the last event and happens once; on failure it is the only event and carries the error; on success the events are exactly the report's output, the confirmation when it was written to a file, then `done` with no error |
| `Audit.RunGroup` | tasks/audit.js:84-109 | a run opens with the missing-file warnings and closes with `done`, carrying the parallel step's error when it failed and none otherwise |
| `Audit.RunFailsIffProbeFails` | tasks/audit.js:104-108 | a run ends with `done`, whose error is present iff some probe failed, and is then the first failed probe's error |
| `Audit.FailedRunOutputsNothing` | tasks/audit.js:104-108 | a failed run writes and logs nothing, only warnings and `done` |
| `Audit.SuccessfulRunOutputsOnce` | tasks/audit.js:104-109 | a successful run outputs exactly one report, to the destination or the log. The report has the repository lines in configured order, the dependency lines in key order and the hash lines in source order. After the warnings come only that output, the confirmation of a file write, and `done` |
| `Audit.DoneOnceAndLast` | tasks/audit.js:104-109 | `done` is called exactly once, as the last event |
| `Audit.WarningsComeFirst` | tasks/audit.js:84-96 | the missing-file warnings come first, in source order, before the parallel step |
| `Audit.RunIndependentOfCompletionOrder` | tasks/audit.js:96-109 | hosts differing only in callback order agree on failure, and on success produce identical runs |

## Left out

- SHA-1 and `fs.readFileSync` (tasks/audit.js:23-26) are a foreign hash and file I/O. The digest
  is any function of the bytes. That it is 40 lowercase hex characters is not stated. A file
  that exists but cannot be read throws, and that path is not modelled.
- The `git --git-dir <repo>/.git rev-parse HEAD` subprocess (tasks/audit.js:31-34) is process I/O.
  Its outcome per repository is an input, and the command line itself is not modelled.
- `path.resolve` depends on the working directory. It is a parameter; `Audit.Consistent` requires
  it to give absolute paths with no trailing slash other than the root's, which is what
  `Basename` expects.
- `read-installed` (tasks/audit.js:45) is a third-party library. `data.dependencies` is taken
  as a sequence already in the order `Object.keys` enumerates it; that ordering is not modelled.
  When it passes no `data`, the callback throws a TypeError instead of calling back; that is not
  modelled either.
- The scheduling of `async.parallel` and `async.map` is concurrency. Only the callback order
  (an input) and the results it delivers are modelled.
- Grunt registration and option merging (tasks/audit.js:15-20) are host-framework plumbing.
  The separator default, `grunt.util.linefeed`, is not modelled; the separator is a parameter.
- `grunt.file.exists` is the `found` field of each source.
- `grunt.file.write` and `grunt.log` are events. A write that throws is not modelled.
- `grunt.template.today` and `process.version` are strings passed in.
- Audit.Out: the confirmation after a write is the event `Confirm(dest)`. Its exact text depends on
  how the logger formats several arguments.
- With several file groups, `done` is called once per group (tasks/audit.js:84, 108). This is a
  framework-lifecycle quirk, and the model covers one group.
