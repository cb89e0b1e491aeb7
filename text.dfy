/** String helpers the task relies on: `Array.prototype.join` and the last path segment. */
module Text {

  /** Sum of the lengths of `lines`. */
  function TotalLength(lines: seq<string>): nat
    decreases |lines|
  {
    if lines == [] then 0 else |lines[0]| + TotalLength(lines[1..])
  }

  /**
   * `lines.join(sep)`: the lines with `sep` between neighbours, the empty string for no lines,
   * the single line itself for one.
   */
  function Join(lines: seq<string>, sep: string): (r: string)
    ensures |lines| == 0 ==> r == ""
    ensures |lines| > 0 ==> |lines[0]| <= |r| && r[..|lines[0]|] == lines[0]
    decreases |lines|
  {
    if |lines| == 0 then ""
    else if |lines| == 1 then lines[0]
    else lines[0] + sep + Join(lines[1..], sep)
  }

  /** The joined text holds every character of every line plus one separator between each pair
      of neighbouring lines, and nothing else. */
  lemma {:induction false} JoinLength(lines: seq<string>, sep: string)
    requires lines != []
    ensures |Join(lines, sep)| == TotalLength(lines) + (|lines| - 1) * |sep|
    decreases |lines|
  {
    if |lines| > 1 {
      JoinLength(lines[1..], sep);
    }
  }

  /** Joining two non-empty lists is joining each and putting one separator between them. */
  lemma {:induction false} JoinConcat(a: seq<string>, b: seq<string>, sep: string)
    requires a != [] && b != []
    ensures Join(a + b, sep) == Join(a, sep) + sep + Join(b, sep)
    decreases |a|
  {
    if |a| == 1 {
      assert (a + b)[0] == a[0];
      assert (a + b)[1..] == b;
    } else {
      assert (a + b)[0] == a[0];
      assert (a + b)[1..] == a[1..] + b;
      JoinConcat(a[1..], b, sep);
    }
  }

  /**
   * `path.basename` of a resolved path: what follows the last '/'. A resolved path carries no
   * trailing slash except the root "/", whose basename is empty.
   */
  function Basename(p: string): (b: string)
    ensures |b| <= |p|
    decreases |p|
  {
    if |p| == 0 || p[|p| - 1] == '/' then ""
    else Basename(p[..|p| - 1]) + [p[|p| - 1]]
  }

  /** The basename is a slash-free suffix of the path that either is the whole path or follows
      a '/'. */
  lemma {:induction false} BasenameIsLastComponent(p: string)
    ensures '/' !in Basename(p)
    ensures |Basename(p)| <= |p| && Basename(p) == p[|p| - |Basename(p)|..]
    ensures |Basename(p)| < |p| ==> p[|p| - |Basename(p)| - 1] == '/'
    decreases |p|
  {
    if |p| == 0 || p[|p| - 1] == '/' {
    } else {
      var q := p[..|p| - 1];
      BasenameIsLastComponent(q);
      var b := Basename(p);
      assert b == Basename(q) + [p[|p| - 1]];
      assert p == q + [p[|p| - 1]];
    }
  }

  /** Those facts pin the basename down: any slash-free suffix that starts the path or follows
      a '/' is the basename. */
  lemma BasenameUnique(p: string, s: string)
    requires '/' !in s
    requires |s| <= |p| && s == p[|p| - |s|..]
    requires |s| < |p| ==> p[|p| - |s| - 1] == '/'
    ensures s == Basename(p)
  {
    BasenameIsLastComponent(p);
  }

  /** A directory followed by a slash-free name has that name as its basename. */
  lemma BasenameOfChild(dir: string, name: string)
    requires '/' !in name
    ensures Basename(dir + "/" + name) == name
  {
    var p := dir + "/" + name;
    assert p[|p| - |name|..] == name;
    BasenameUnique(p, name);
  }
}
