// The POSIX path helpers the bot calls: `os.path.join` with two arguments,
// `os.path.basename` and `os.path.splitext`.

module PyPath {
  import opened Strings

  /** `os.path.join(a, b)`: an absolute `b` replaces `a`; otherwise a `/` is
      inserted unless `a` is empty or already ends in one. */
  function Join(a: string, b: string): string {
    if StartsWith(b, "/") then b
    else if a == "" || EndsWith(a, "/") then a + b
    else a + "/" + b
  }

  /** The joined path ends with `b`, and an absolute `b` replaces `a`. */
  lemma JoinEnds(a: string, b: string)
    ensures StartsWith(b, "/") ==> Join(a, b) == b
    ensures EndsWith(Join(a, b), b)
  {
    var p := Join(a, b);
    if !StartsWith(b, "/") {
      assert p[|p| - |b|..] == b;
    }
  }

  /** `os.path.basename(p)`: the text after the last `/`. */
  function Basename(p: string): string {
    AfterLast(p, '/')
  }

  predicate AllDots(s: string) {
    forall i :: 0 <= i < |s| ==> s[i] == '.'
  }

  /** The length of the extension `os.path.splitext(p)` finds: the last `.` of
      the final component and what follows it, provided the component has a
      character other than `.` before that dot (so `.bashrc` and `..` have no
      extension); 0 when there is none. */
  function ExtLength(p: string): (k: nat)
    ensures k <= |p|
  {
    var name := Basename(p);
    var afterDot := AfterLast(name, '.');
    if |afterDot| < |name| && !AllDots(name[..|name| - |afterDot| - 1]) then |afterDot| + 1 else 0
  }

  /** `os.path.splitext(p)`: the root and the extension. */
  function SplitExt(p: string): (string, string) {
    var cut := |p| - ExtLength(p);
    (p[..cut], p[cut..])
  }

  /** The root and the extension put back together give the path; a non-empty
      extension is a single `.` followed by text with no `.` and no `/`. */
  lemma SplitExtParts(p: string)
    ensures SplitExt(p).0 + SplitExt(p).1 == p
    ensures var ext := SplitExt(p).1;
            ext == "" || (ext[0] == '.' && '.' !in ext[1..] && '/' !in ext)
  {
    var cut := |p| - ExtLength(p);
    SliceConcat(p, cut);
    if ExtLength(p) > 0 {
      ExtensionCut(p);
    }
  }

  /** Where the last component has a `.`, cutting before it gives a `.` and text
      with no `.` and no `/`. */
  lemma ExtensionCut(p: string)
    requires |AfterLast(Basename(p), '.')| < |Basename(p)|
    ensures var cut := |p| - |AfterLast(Basename(p), '.')| - 1;
            p[..cut] + p[cut..] == p && p[cut..][0] == '.' && '.' !in p[cut..][1..] && '/' !in p[cut..]
  {
    ExtensionShape(p, Basename(p), AfterLast(Basename(p), '.'));
  }

  lemma ExtensionShape(p: string, name: string, afterDot: string)
    requires |name| <= |p| && name == p[|p| - |name|..] && '/' !in name
    requires |afterDot| < |name| && afterDot == name[|name| - |afterDot|..]
    requires name[|name| - |afterDot| - 1] == '.' && '.' !in afterDot
    ensures var cut := |p| - |afterDot| - 1;
            p[..cut] + p[cut..] == p && p[cut..][0] == '.' && '.' !in p[cut..][1..] && '/' !in p[cut..]
  {
    var cut := |p| - |afterDot| - 1;
    ExtensionSuffix(p, name, afterDot);
    var ext := p[cut..];
    assert ext == "." + afterDot;
    assert ext[1..] == afterDot;
    assert forall x :: x in ext ==> x == '.' || x in afterDot;
    SliceConcat(p, cut);
  }

  lemma SliceConcat(p: string, cut: nat)
    requires cut <= |p|
    ensures p[..cut] + p[cut..] == p
  {
  }

  lemma ExtensionSuffix(p: string, name: string, afterDot: string)
    requires |name| <= |p| && name == p[|p| - |name|..] && '/' !in name
    requires |afterDot| < |name| && afterDot == name[|name| - |afterDot|..]
    requires name[|name| - |afterDot| - 1] == '.' && '.' !in afterDot
    ensures p[|p| - |afterDot| - 1..] == "." + afterDot
    ensures '/' !in afterDot
  {
    var k := |afterDot|;
    var j := |name| - k - 1;
    assert name[j..] == [name[j]] + name[j + 1..];
    assert name[j + 1..] == afterDot;
    assert p[|p| - |name|..][j..] == p[|p| - |name| + j..];
    assert |p| - |name| + j == |p| - k - 1;
    forall x | x in afterDot ensures x != '/' {
      var i :| 0 <= i < k && afterDot[i] == x;
      assert name[j + 1 + i] == x;
    }
  }

  /** Replacing the extension of a path that ends in `stem.ext` keeps `stem`. */
  lemma SplitExtOfExtension(stem: string, ext: string)
    requires '.' !in ext && '/' !in ext
    requires !AllDots(Basename(stem))
    ensures SplitExt(stem + "." + ext) == (stem, "." + ext)
  {
    var p := stem + "." + ext;
    var tail := "." + ext;
    assert p == stem + tail;
    assert '/' !in tail by {
      assert forall x :: x in tail ==> x == '.' || x in ext;
    }
    AfterLastAppend(stem, tail, '/');
    var name := Basename(p);
    var n0 := Basename(stem);
    assert name == n0 + "." + ext;
    assert n0 + "." + ext == (n0 + ".") + ext;
    AfterLastAppend(n0 + ".", ext, '.');
    AfterLastOfTrailingSeparator(n0, '.');
    assert AfterLast(name, '.') == ext;
    assert name[..|name| - |ext| - 1] == n0;
    assert ExtLength(p) == |tail|;
  }
}
