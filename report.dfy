/** The text of the audit log that `out` assembles. */
module Report {
  import opened Text

  /** A heading's underline is exactly as long as the heading. */
  predicate Underlines(heading: string, rule: string)
  {
    |rule| == |heading|
  }

  /** The first seven entries: the build-log heading with the build time, a blank line, and the
      node heading with the node version. */
  function Preamble(buildTime: string, nodeVersion: string): seq<string>
  {
    ["BUILD LOG", "---------", "Build Time: " + buildTime, "",
     "NODEJS INFORMATION", "==================", "nodejs: " + nodeVersion]
  }

  /** A blank line, then the repository heading. */
  const RevisionsHeading: seq<string> := ["", "REPO REVISIONS", "=============="]

  /** A blank line, then the hash heading. */
  const HashesHeading: seq<string> := ["", "BUILD HASHES", "============"]

  /** The sixteen entries of the log, before joining: four headed sections (build log, node
      information, repository revisions, build hashes) separated by blank lines. */
  function ReportLines(buildTime: string, nodeVersion: string, modules: string, revs: seq<string>,
                       hashes: string, sep: string): (lines: seq<string>)
    ensures |lines| == 16
    ensures [lines[0], lines[4], lines[9], lines[13]] ==
            ["BUILD LOG", "NODEJS INFORMATION", "REPO REVISIONS", "BUILD HASHES"]
    ensures forall h :: h in [0, 4, 9, 13] ==> Underlines(lines[h], lines[h + 1])
    ensures lines[1] == "---------" && lines[5] == "==================" &&
            lines[10] == "==============" && lines[14] == "============"
    ensures lines[3] == lines[8] == lines[12] == ""
    ensures lines[2] == "Build Time: " + buildTime && lines[6] == "nodejs: " + nodeVersion
    ensures lines[7] == modules && lines[11] == Join(revs, sep) && lines[15] == hashes
  {
    Preamble(buildTime, nodeVersion) + ([modules] + (RevisionsHeading + ([Join(revs, sep)]
      + (HashesHeading + [hashes]))))
  }

  /** The log text: the sixteen entries joined by the separator. */
  function Render(buildTime: string, nodeVersion: string, modules: string, revs: seq<string>,
                  hashes: string, sep: string): (log: string)
    ensures |log| >= 9 && log[..9] == "BUILD LOG"
  {
    Join(ReportLines(buildTime, nodeVersion, modules, revs, hashes, sep), sep)
  }

  /** The lines a section contributes once it is joined into the log: its own lines, or a single
      empty line when it has none. */
  function Section(lines: seq<string>): (s: seq<string>)
    ensures s != []
    ensures lines != [] ==> s == lines
  {
    if lines == [] then [""] else lines
  }

  /** Joining `m` into a single entry and splicing its own lines in instead read the same, when
      what follows reads the same. */
  lemma SpliceSection(m: seq<string>, rest: seq<string>, flat: seq<string>, sep: string)
    requires rest != [] && flat != [] && Join(rest, sep) == Join(flat, sep)
    ensures Join([Join(m, sep)] + rest, sep) == Join(Section(m) + flat, sep)
  {
    JoinConcat([Join(m, sep)], rest, sep);
    JoinConcat(Section(m), flat, sep);
  }

  /** A run of fixed lines in front of two lists that read the same keeps them reading the same. */
  lemma SpliceAfter(p: seq<string>, rest: seq<string>, flat: seq<string>, sep: string)
    requires p != [] && rest != [] && flat != [] && Join(rest, sep) == Join(flat, sep)
    ensures Join(p + rest, sep) == Join(p + flat, sep)
  {
    JoinConcat(p, rest, sep);
    JoinConcat(p, flat, sep);
  }

  /** Read line by line, the log is its fixed header lines with every dependency, repository
      and hash line in place, in their own order, and an empty line for a section that has none. */
  lemma RenderLineByLine(buildTime: string, nodeVersion: string, deps: seq<string>,
                         revs: seq<string>, hashLines: seq<string>, sep: string)
    ensures Render(buildTime, nodeVersion, Join(deps, sep), revs, Join(hashLines, sep), sep) ==
      Join(Preamble(buildTime, nodeVersion) + (Section(deps) + (RevisionsHeading + (Section(revs)
           + (HashesHeading + Section(hashLines))))), sep)
  {
    var h := [Join(hashLines, sep)];
    var sh := Section(hashLines);
    assert Join(h, sep) == Join(sh, sep);
    var tail3, flat3 := HashesHeading + h, HashesHeading + sh;
    SpliceAfter(HashesHeading, h, sh, sep);
    var tail2, flat2 := [Join(revs, sep)] + tail3, Section(revs) + flat3;
    SpliceSection(revs, tail3, flat3, sep);
    var tail1, flat1 := RevisionsHeading + tail2, RevisionsHeading + flat2;
    SpliceAfter(RevisionsHeading, tail2, flat2, sep);
    var tail0, flat0 := [Join(deps, sep)] + tail1, Section(deps) + flat1;
    SpliceSection(deps, tail1, flat1, sep);
    SpliceAfter(Preamble(buildTime, nodeVersion), tail0, flat0, sep);
  }
}
