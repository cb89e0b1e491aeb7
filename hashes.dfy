/**
 * The source-file part of the task: drop the sources that do not exist (warning about each),
 * turn each survivor into `path: hexdigest`, and join those lines with the separator.
 */
module Hashes {
  import opened Seqs
  import opened Text

  /** The hex SHA-1 digest of a file's bytes. The hash itself is outside the model: any function
      of the bytes alone will do. */
  type Digest = seq<bv8> -> string

  /** One entry of a file group's `src`: its path, whether it exists, and its bytes. */
  datatype SourceFile = SourceFile(path: string, found: bool, content: seq<bv8>)

  predicate Found(f: SourceFile) { f.found }

  predicate Missing(f: SourceFile) { !f.found }

  /** The sources that survive the existence filter, in their original order. */
  function Existing(files: seq<SourceFile>): (kept: seq<SourceFile>)
    ensures forall f :: f in kept <==> f in files && f.found
  {
    Filter(files, Found)
  }

  /** The warning printed for a source file that does not exist. */
  function MissingWarning(path: string): (w: string)
    ensures |w| == |path| + 25
    ensures w[..13] == "Source file \"" && w[|w| - 12..] == "\" not found."
    ensures w[13..|w| - 12] == path
  {
    "Source file \"" + path + "\" not found."
  }

  /** The warnings the filter prints, one per missing source, in source order. */
  function Warnings(files: seq<SourceFile>): (ws: seq<string>)
    ensures |ws| + |Existing(files)| == |files|
    ensures |ws| == |Filter(files, Missing)|
    ensures forall i :: 0 <= i < |ws| ==> ws[i] == MissingWarning(Filter(files, Missing)[i].path)
  {
    var missing := Filter(files, Missing);
    FilterPartition(files, Found, Missing);
    seq(|missing|, i requires 0 <= i < |missing| => MissingWarning(missing[i].path))
  }

  /** `fileHash`: the line for one file, its path, ": " and the digest of its bytes. */
  function HashLine(f: SourceFile, digest: Digest): (line: string)
    ensures |line| >= |f.path| + 2
    ensures line[..|f.path|] == f.path && line[|f.path|..|f.path| + 2] == ": "
    ensures line[|f.path| + 2..] == digest(f.content)
  {
    f.path + ": " + digest(f.content)
  }

  /** The filter followed by `map(fileHash)`, computed in one pass over the sources: one line per
      existing source, in source order. */
  function HashLines(files: seq<SourceFile>, digest: Digest): (lines: seq<string>)
    ensures |lines| == |Existing(files)|
    ensures forall i :: 0 <= i < |lines| ==> lines[i] == HashLine(Existing(files)[i], digest)
    decreases |files|
  {
    if files == [] then []
    else
      var rest := HashLines(files[1..], digest);
      FilterConcat([files[0]], files[1..], Found);
      assert [files[0]] + files[1..] == files;
      if files[0].found then [HashLine(files[0], digest)] + rest else rest
  }

  /** The hash section of the report: the hash lines joined by the separator. */
  function HashSection(files: seq<SourceFile>, digest: Digest, sep: string): (section: string)
    ensures section == "" <==> Existing(files) == []
    ensures Existing(files) != [] ==> (
      var first := HashLine(Existing(files)[0], digest);
      |first| <= |section| && section[..|first|] == first)
  {
    Join(HashLines(files, digest), sep)
  }

  /** The line of a file is its path, ": " and then a digest that depends on nothing but the
      file's bytes: two sources with the same bytes carry the same digest. */
  lemma HashLineDependsOnlyOnBytes(f: SourceFile, g: SourceFile, digest: Digest)
    requires f.content == g.content
    ensures HashLine(f, digest)[..|f.path| + 2] == f.path + ": "
    ensures HashLine(f, digest)[|f.path| + 2..] == HashLine(g, digest)[|g.path| + 2..]
  {
  }

  /** Hashing two source lists one after the other gives the lines of the first, then those of
      the second: no source moves past another. */
  lemma {:induction false} HashLinesConcat(a: seq<SourceFile>, b: seq<SourceFile>, digest: Digest)
    ensures HashLines(a + b, digest) == HashLines(a, digest) + HashLines(b, digest)
    decreases |a|
  {
    if a == [] {
      assert a + b == b;
    } else {
      assert (a + b)[0] == a[0];
      assert (a + b)[1..] == a[1..] + b;
      HashLinesConcat(a[1..], b, digest);
    }
  }

  /** The hash section of two source lists, each with at least one existing file, is the
      section of the first, the separator, then the section of the second. */
  lemma HashSectionConcat(a: seq<SourceFile>, b: seq<SourceFile>, digest: Digest, sep: string)
    requires exists f :: f in a && f.found
    requires exists f :: f in b && f.found
    ensures HashSection(a + b, digest, sep) ==
            HashSection(a, digest, sep) + sep + HashSection(b, digest, sep)
  {
    HashLinesConcat(a, b, digest);
    var f :| f in a && f.found;
    var g :| g in b && g.found;
    assert f in Existing(a) && g in Existing(b);
    JoinConcat(HashLines(a, digest), HashLines(b, digest), sep);
  }

  /** When every source exists, nothing is dropped: there is one line per source, in order. */
  lemma AllFoundKeepsAll(files: seq<SourceFile>, digest: Digest)
    requires forall i :: 0 <= i < |files| ==> files[i].found
    ensures |HashLines(files, digest)| == |files|
    ensures forall i :: 0 <= i < |files| ==> HashLines(files, digest)[i] == HashLine(files[i], digest)
    ensures Warnings(files) == []
  {
    FilterKeepsAll(files, Found);
  }

  /** A missing "a.txt" followed by an existing "b.txt": one warning for a.txt and a hash
      section holding b.txt's line alone. */
  lemma MissingFileIsDropped(a: seq<bv8>, b: seq<bv8>, digest: Digest, sep: string)
    ensures var files := [SourceFile("a.txt", false, a), SourceFile("b.txt", true, b)];
      && HashSection(files, digest, sep) == "b.txt: " + digest(b)
      && Warnings(files) == ["Source file \"a.txt\" not found."]
  {
    var files := [SourceFile("a.txt", false, a), SourceFile("b.txt", true, b)];
    assert files[1..][1..] == [];
    assert Existing(files) == [files[1]];
    assert Filter(files, Missing) == [files[0]];
    assert |Warnings(files)| == 1;
    assert Warnings(files)[0] == MissingWarning("a.txt");
    assert MissingWarning("a.txt") == "Source file \"a.txt\" not found.";
  }
}
