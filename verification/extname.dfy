/** The file extension used as the lookup key into the per-extension parser
    table: Node's POSIX `path.extname`, re-expressed over whole strings. */
module ExtName {
  import opened Wrappers

  /** The path without its trailing `/` characters. */
  function TrimTrailingSlashes(p: string): (r: string)
    ensures r <= p
    ensures r == [] || r[|r| - 1] != '/'
    ensures forall i :: |r| <= i < |p| ==> p[i] == '/'
    decreases |p|
  {
    if |p| > 0 && p[|p| - 1] == '/' then TrimTrailingSlashes(p[..|p| - 1]) else p
  }

  /** The index of the last occurrence of `c` in `s`, if any. */
  function LastIndexOf(s: string, c: char): (r: Option<nat>)
    ensures r.Some? ==> r.value < |s| && s[r.value] == c
                        && forall j :: r.value < j < |s| ==> s[j] != c
    ensures r.None? ==> forall j :: 0 <= j < |s| ==> s[j] != c
    decreases |s|
  {
    if |s| == 0 then None
    else if s[|s| - 1] == c then Some(|s| - 1)
    else LastIndexOf(s[..|s| - 1], c)
  }

  /** The last path segment: everything after the last `/`. */
  function LastSegment(p: string): (r: string)
    ensures |r| <= |p| && p[|p| - |r|..] == r
    ensures forall i :: 0 <= i < |r| ==> r[i] != '/'
  {
    match LastIndexOf(p, '/')
    case None => p
    case Some(i) => p[i + 1..]
  }

  /** `path.extname`: the suffix of the last segment from its last `.`; empty
      when the segment has no dot, starts with its only leading dot, or is `..`. */
  function Extension(p: string): (r: string)
    ensures r == [] || (r[0] == '.' && forall i :: 1 <= i < |r| ==> r[i] != '.' && r[i] != '/')
    ensures var t := TrimTrailingSlashes(p); |r| <= |t| && t[|t| - |r|..] == r
    ensures var seg := LastSegment(TrimTrailingSlashes(p));
      r != [] ==> seg != ".." && |r| < |seg| && seg[|seg| - |r|..] == r
  {
    var seg := LastSegment(TrimTrailingSlashes(p));
    if seg == ".." then []
    else match LastIndexOf(seg, '.')
      case None => []
      case Some(d) => if d == 0 then [] else seg[d..]
  }

  // ---------------------------------------------------------------------------
  // Properties

  /** The last occurrence is found wherever the last `c` sits. */
  lemma {:induction false} LastIndexAt(s: string, c: char, k: nat)
    requires k < |s| && s[k] == c
    requires forall j :: k < j < |s| ==> s[j] != c
    ensures LastIndexOf(s, c) == Some(k)
    decreases |s|
  {
    if k < |s| - 1 {
      LastIndexAt(s[..|s| - 1], c, k);
    }
  }

  /** The last segment of `dir/seg` is `seg` when `seg` holds no `/`. */
  lemma LastSegmentOfJoin(dir: string, seg: string)
    requires forall i :: 0 <= i < |seg| ==> seg[i] != '/'
    ensures LastSegment(dir + "/" + seg) == seg
    ensures LastSegment(seg) == seg
  {
    var full := dir + "/" + seg;
    forall j | |dir| < j < |full| ensures full[j] != '/' {
      assert full[j] == seg[j - |dir| - 1];
    }
    LastIndexAt(full, '/', |dir|);
    assert full[|dir| + 1..] == seg;
  }

  /** A path that does not end in `/` has nothing to trim. */
  lemma TrimNothing(p: string)
    requires p == [] || p[|p| - 1] != '/'
    ensures TrimTrailingSlashes(p) == p
  {
  }

  /** A segment `name.ext` holds no `/` and its last dot is the one before `ext`. */
  lemma SegmentShape(name: string, ext: string)
    requires forall i :: 0 <= i < |name| ==> name[i] != '/'
    requires forall i :: 0 <= i < |ext| ==> ext[i] != '/' && ext[i] != '.'
    ensures var seg := name + "." + ext;
      && (forall i :: 0 <= i < |seg| ==> seg[i] != '/')
      && LastIndexOf(seg, '.') == Some(|name|)
      && seg[|name|..] == "." + ext
  {
    var seg := name + "." + ext;
    forall i | 0 <= i < |seg| ensures seg[i] != '/' {
      if i < |name| { assert seg[i] == name[i]; }
      else if i > |name| { assert seg[i] == ext[i - |name| - 1]; }
    }
    forall j | |name| < j < |seg| ensures seg[j] != '.' {
      assert seg[j] == ext[j - |name| - 1];
    }
    LastIndexAt(seg, '.', |name|);
  }

  /** A file `name.ext` in any directory has the extension `.ext`, provided the
      name is not empty, `ext` holds no dot, neither holds a `/`, and the file
      is not called `..`. */
  lemma ExtensionOfFileName(dir: string, name: string, ext: string)
    requires name != [] && name + "." + ext != ".."
    requires forall i :: 0 <= i < |name| ==> name[i] != '/'
    requires forall i :: 0 <= i < |ext| ==> ext[i] != '/' && ext[i] != '.'
    ensures Extension(dir + "/" + name + "." + ext) == "." + ext
    ensures Extension(name + "." + ext) == "." + ext
  {
    var seg := name + "." + ext;
    SegmentShape(name, ext);
    var full := dir + "/" + seg;
    assert dir + "/" + name + "." + ext == full;
    LastSegmentOfJoin(dir, seg);
    assert full[|full| - 1] == seg[|seg| - 1];
    TrimNothing(full);
    TrimNothing(seg);
  }

  /** The file `x.foo` has the extension `.foo`. */
  lemma ExtensionExample()
    ensures Extension("x.foo") == ".foo"
  {
    var p := "x.foo";
    assert forall i :: 0 <= i < |p| ==> p[i] != '/';
    TrimNothing(p);
    LastSegmentOfJoin("", p);
    LastIndexAt(p, '.', 1);
    assert p[1..] == ".foo";
  }

  /** Trailing slashes do not affect the extension. */
  lemma ExtensionIgnoresTrailingSlash(p: string)
    ensures Extension(p + "/") == Extension(p)
  {
    assert (p + "/")[..|p + "/"| - 1] == p;
  }
}
