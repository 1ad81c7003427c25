/**
 * Cache-path derivation (`get_processed_path`): the six artifact paths of a
 * dataset lie beside its transaction file and share the part of the file's
 * base name that comes before the marker "formatted".
 * Paths are POSIX strings; `Dirname`, `Basename` and `Join` follow Python's
 * `posixpath.dirname`, `posixpath.split(..)[1]` and `posixpath.join`.
 */
module ProcessedPaths {

  const Sep: char := '/'
  const Marker: string := "formatted"
  const Extension: string := ".pt"
  /** The artifact names, in the order `get_processed_path` iterates them. */
  const FileNames: seq<string> := ["train", "val", "test", "train_inds", "val_inds", "test_inds"]

  predicate NoSep(s: string)
  {
    forall k :: 0 <= k < |s| ==> s[k] != Sep
  }

  predicate AllSep(s: string)
  {
    forall k :: 0 <= k < |s| ==> s[k] == Sep
  }

  /** Index just past the last separator of `p`, or 0 when there is none (`p.rfind('/') + 1`). */
  function TailStart(p: string): (i: nat)
    ensures i <= |p|
    ensures i > 0 ==> p[i - 1] == Sep
    ensures NoSep(p[i..])
  {
    if p == [] then 0
    else if p[|p| - 1] == Sep then |p|
    else
      var i := TailStart(p[..|p| - 1]);
      assert p[i..] == p[..|p| - 1][i..] + [p[|p| - 1]];
      i
  }

  /** Drops the trailing separators (`rstrip('/')`). */
  function RStripSep(s: string): (r: string)
    ensures |r| <= |s| && r == s[..|r|]
    ensures r == [] || r[|r| - 1] != Sep
    ensures AllSep(s[|r|..])
  {
    if s != [] && s[|s| - 1] == Sep then
      var r := RStripSep(s[..|s| - 1]);
      assert s[|r|..] == s[..|s| - 1][|r|..] + [Sep];
      r
    else s
  }

  /**
   * `posixpath.dirname`: the part before the base name, without its trailing
   * separators unless it consists of separators only.
   */
  function Dirname(p: string): (d: string)
    ensures |d| <= TailStart(p) && d == p[..|d|]
    ensures AllSep(p[|d|..TailStart(p)])
    ensures d == [] || AllSep(d) || d[|d| - 1] != Sep
    ensures d == [] <==> TailStart(p) == 0
    ensures AllSep(p[..TailStart(p)]) ==> d == p[..TailStart(p)]
  {
    var head := p[..TailStart(p)];
    if head != [] && !AllSep(head) then RStripSep(head) else head
  }

  /** `posixpath.split(p)[1]`: the separator-free tail after the last separator. */
  function Basename(p: string): (b: string)
    ensures |b| <= |p| && p == p[..|p| - |b|] + b
    ensures NoSep(b)
    ensures |b| < |p| ==> p[|p| - |b| - 1] == Sep
  {
    p[TailStart(p)..]
  }

  /**
   * `posixpath.join(a, b)`: an absolute `b` replaces `a`; otherwise `b` follows
   * `a`, with a separator added between them when needed.
   */
  function Join(a: string, b: string): (r: string)
    ensures |b| <= |r| && r[|r| - |b|..] == b
    ensures |b| > 0 && b[0] == Sep ==> r == b
    ensures (b == [] || b[0] != Sep) ==> r[..|r| - |b|] == a || r[..|r| - |b|] == a + [Sep]
    ensures (b == [] || b[0] != Sep) ==> (r[..|r| - |b|] == a <==> a == [] || a[|a| - 1] == Sep)
  {
    if |b| > 0 && b[0] == Sep then b
    else if a == [] || a[|a| - 1] == Sep then a + b
    else a + [Sep] + b
  }

  predicate OccursAt(s: string, m: string, k: nat)
  {
    k + |m| <= |s| && s[k..k + |m|] == m
  }

  /** An occurrence at `k >= 1` is an occurrence at `k - 1` in the string without its first character. */
  lemma OccursShift(s: string, m: string, k: nat)
    requires 1 <= k <= |s|
    ensures OccursAt(s, m, k) <==> OccursAt(s[1..], m, k - 1)
  {
    if k + |m| <= |s| {
      var a, b := s[k..k + |m|], s[1..][k - 1..k - 1 + |m|];
      forall x | 0 <= x < |m| ensures a[x] == b[x] {
        assert a[x] == s[k + x] && b[x] == s[k + x];
      }
      assert a == b;
    }
  }

  /** `s.split(m)[0]`: the part of `s` before the first occurrence of `m`, or all of `s`. */
  function SplitHead(s: string, m: string): (r: string)
    requires m != []
    ensures |r| <= |s| && r == s[..|r|]
    ensures forall k :: 0 <= k < |r| ==> !OccursAt(s, m, k)
    ensures |r| == |s| || OccursAt(s, m, |r|)
  {
    if |s| < |m| then s
    else if s[..|m|] == m then []
    else
      var r := [s[0]] + SplitHead(s[1..], m);
      forall k | 1 <= k <= |r| ensures OccursAt(s, m, k) <==> OccursAt(s[1..], m, k - 1) {
        OccursShift(s, m, k);
      }
      r
  }

  /** The shared stem of the six artifact names: the base name up to the first "formatted". */
  function FolderName(p: string): (f: string)
    ensures |f| <= |Basename(p)| && f == Basename(p)[..|f|]
    ensures NoSep(f)
  {
    SplitHead(Basename(p), Marker)
  }

  /** The path of one artifact: `join(dirname(p), FolderName(p) + name + ".pt")`. */
  function ProcessedPath(p: string, name: string): string
  {
    Join(Dirname(p), FolderName(p) + name + Extension)
  }

  /** `get_processed_path`: fills a dictionary with one path per artifact name. */
  method GetProcessedPath(data: string) returns (filePath: map<string, string>)
    ensures filePath.Keys == set n | n in FileNames
    ensures forall n :: n in filePath ==> filePath[n] == ProcessedPath(data, n)
  {
    filePath := map[];
    var absPath := Dirname(data);
    var folderName := SplitHead(Basename(data), Marker);
    for k := 0 to |FileNames|
      invariant forall n :: n in filePath <==> n in FileNames[..k]
      invariant forall n :: n in filePath ==> filePath[n] == ProcessedPath(data, n)
    {
      var name := FileNames[k];
      var outFile := folderName + name + Extension;
      assert FileNames[..k + 1] == FileNames[..k] + [name];
      assert Join(absPath, outFile) == ProcessedPath(data, name);
      filePath := filePath[name := Join(absPath, outFile)];
    }
    assert FileNames[..|FileNames|] == FileNames;
  }

  /** The stem carries no separator and is the part of the base name before the first marker. */
  lemma FolderNameIsStem(p: string)
    ensures NoSep(FolderName(p))
    ensures Basename(p) == FolderName(p) + Basename(p)[|FolderName(p)|..]
    ensures forall k :: 0 <= k < |FolderName(p)| ==> !OccursAt(Basename(p), Marker, k)
    ensures FolderName(p) == Basename(p) || OccursAt(Basename(p), Marker, |FolderName(p)|)
  {
    var b, f := Basename(p), FolderName(p);
    assert NoSep(b);
    assert f == b[..|f|];
  }

  /** A separator-free suffix does not move the start of the base name. */
  lemma {:induction false} TailStartNoSepSuffix(x: string, b: string)
    requires NoSep(b)
    ensures TailStart(x + b) == TailStart(x)
  {
    if b != [] {
      var b' := b[..|b| - 1];
      assert (x + b)[..|x + b| - 1] == x + b';
      TailStartNoSepSuffix(x, b');
    } else {
      assert x + b == x;
    }
  }

  /** Joining a directory with a separator-free file name puts that name after the last separator. */
  lemma BasenameOfJoin(d: string, b: string)
    requires NoSep(b)
    ensures Basename(Join(d, b)) == b
  {
    if |b| > 0 && b[0] == Sep {
    } else if d == [] || d[|d| - 1] == Sep {
      TailStartNoSepSuffix(d, b);
      if d == [] {
        assert d + b == b;
      }
      assert (d + b)[|d|..] == b;
    } else {
      TailStartNoSepSuffix(d + [Sep], b);
      assert d + [Sep] + b == (d + [Sep]) + b;
      assert TailStart(d + [Sep]) == |d| + 1;
      assert (d + [Sep] + b)[|d| + 1..] == b;
    }
  }

  /** The file name of an artifact carries no separator. */
  lemma ArtifactFileNoSep(p: string, name: string)
    requires name in FileNames
    ensures NoSep(FolderName(p) + name + Extension)
  {
    var f := FolderName(p);
    FileNameNoSep(name);
    assert NoSep(Extension);
    NoSepConcat(f, name);
    NoSepConcat(f + name, Extension);
  }

  /** No artifact name contains a separator. */
  lemma FileNameNoSep(name: string)
    requires name in FileNames
    ensures NoSep(name)
  {
    assert NoSep(FileNames[0]) && NoSep(FileNames[1]) && NoSep(FileNames[2]);
    assert NoSep(FileNames[3]) && NoSep(FileNames[4]) && NoSep(FileNames[5]);
  }

  lemma NoSepConcat(a: string, b: string)
    requires NoSep(a) && NoSep(b)
    ensures NoSep(a + b)
  {
    forall k | 0 <= k < |a + b| ensures (a + b)[k] != Sep {
      if k < |a| {
        assert (a + b)[k] == a[k];
      } else {
        assert (a + b)[k] == b[k - |a|];
      }
    }
  }

  /** Each artifact's file name is the stem followed by the artifact name and ".pt". */
  lemma ProcessedPathFileName(p: string, name: string)
    requires name in FileNames
    ensures Basename(ProcessedPath(p, name)) == FolderName(p) + name + Extension
  {
    ArtifactFileNoSep(p, name);
    BasenameOfJoin(Dirname(p), FolderName(p) + name + Extension);
  }

  /**
   * Joining a directory as `dirname` returns it (empty, all separators, or
   * not ending in one) with a separator-free name gives back that directory.
   */
  lemma DirnameOfJoin(d: string, b: string)
    requires NoSep(b)
    requires d == [] || AllSep(d) || d[|d| - 1] != Sep
    ensures Dirname(Join(d, b)) == d
  {
    if d == [] {
      TailStartNoSepSuffix(d, b);
      assert d + b == b;
    } else if d[|d| - 1] == Sep {
      TailStartNoSepSuffix(d, b);
      assert (d + b)[..|d|] == d;
    } else {
      var h := d + [Sep];
      TailStartNoSepSuffix(h, b);
      assert d + [Sep] + b == h + b;
      assert TailStart(h) == |h|;
      assert (h + b)[..|h|] == h;
      assert !AllSep(h) by {
        assert h[|d| - 1] == d[|d| - 1];
      }
      assert h[..|h| - 1] == d;
    }
  }

  /** Each artifact path lies in the directory of the input path. */
  lemma ProcessedPathDirectory(p: string, name: string)
    requires name in FileNames
    ensures Dirname(ProcessedPath(p, name)) == Dirname(p)
  {
    ArtifactFileNoSep(p, name);
    DirnameOfJoin(Dirname(p), FolderName(p) + name + Extension);
  }

  lemma JoinInjective(a: string, b1: string, b2: string)
    requires b1 == [] || b1[0] != Sep
    requires b2 == [] || b2[0] != Sep
    requires Join(a, b1) == Join(a, b2)
    ensures b1 == b2
  {
    if a == [] || a[|a| - 1] == Sep {
      assert b1 == (a + b1)[|a|..];
    } else {
      assert b1 == (a + [Sep] + b1)[|a| + 1..];
    }
  }

  /** Every artifact name is non-empty and starts with a letter. */
  lemma FileNameStart(n: string)
    requires n in FileNames
    ensures n != [] && n[0] != Sep
  {
  }

  /** Different middles give different strings between a common prefix and suffix. */
  lemma InfixInjective(f: string, n1: string, n2: string, e: string)
    requires f + n1 + e == f + n2 + e
    ensures n1 == n2
  {
    var s1, s2 := f + n1 + e, f + n2 + e;
    assert n1 == s1[|f|..|s1| - |e|];
    assert n2 == s2[|f|..|s2| - |e|];
  }

  /** The six artifact paths of one dataset are pairwise distinct. */
  lemma ProcessedPathsDistinct(p: string, n1: string, n2: string)
    requires n1 in FileNames && n2 in FileNames && n1 != n2
    ensures ProcessedPath(p, n1) != ProcessedPath(p, n2)
  {
    var f := FolderName(p);
    var b1, b2 := f + n1 + Extension, f + n2 + Extension;
    FileNameStart(n1);
    FileNameStart(n2);
    assert b1[0] != Sep && b2[0] != Sep by {
      if f != [] {
        FolderNameIsStem(p);
        assert b1[0] == f[0] && b2[0] == f[0] && f[0] != Sep;
      } else {
        assert b1[0] == n1[0] && b2[0] == n2[0];
      }
    }
    if ProcessedPath(p, n1) == ProcessedPath(p, n2) {
      JoinInjective(Dirname(p), b1, b2);
      InfixInjective(f, n1, n2, Extension);
      assert false;
    }
  }
}
