/**
 * The POSIX flavour of Node's `path` module, as far as the server uses it:
 * `normalize`, `join` of two paths, `resolve` of one path against the process's
 * working directory, and `relative`. Absolute paths are kept as lists of clean
 * segments.
 */
module PosixPath {
  import opened Strings

  /** A segment that survives normalization: not empty, not `.` or `..`, no separator. */
  predicate Clean(seg: string) {
    seg != "" && seg != "." && seg != ".." && '/' !in seg
  }

  /** The segments of a normalized absolute path. */
  type CleanPath = p: seq<string> | forall i :: 0 <= i < |p| ==> Clean(p[i])

  /** The text of a normalized absolute path: `/` alone for the file-system root. */
  function Render(p: CleanPath): (s: string)
    ensures |s| > 0 && s[0] == '/'
  {
    "/" + Join(p, "/")
  }

  /**
   * normalizeString for an absolute path: empty and `.` segments vanish and `..`
   * drops the last kept segment, never climbing above the root.
   */
  function Collapse(acc: CleanPath, segs: seq<string>): CleanPath
    decreases |segs|
  {
    if |segs| == 0 then acc
    else
      var s := segs[0];
      if s == "" || s == "." then Collapse(acc, segs[1..])
      else if s == ".." then Collapse(if |acc| == 0 then [] else acc[..|acc| - 1], segs[1..])
      else if '/' in s then Collapse(acc, segs[1..])
      else Collapse(acc + [s], segs[1..])
  }

  /** normalizeString for a relative path: `..` that cannot be collapsed is kept. */
  function CollapseRelative(acc: seq<string>, segs: seq<string>): seq<string>
    decreases |segs|
  {
    if |segs| == 0 then acc
    else
      var s := segs[0];
      if s == "" || s == "." then CollapseRelative(acc, segs[1..])
      else if s == ".." then
        if |acc| > 0 && acc[|acc| - 1] != ".." then CollapseRelative(acc[..|acc| - 1], segs[1..])
        else CollapseRelative(acc + [".."], segs[1..])
      else CollapseRelative(acc + [s], segs[1..])
  }

  /** path.normalize(p). */
  function Normalize(p: string): string {
    if |p| == 0 then "."
    else
      var trailing := p[|p| - 1] == '/';
      if p[0] == '/' then
        var segs := Collapse([], Split(p, '/'));
        if |segs| == 0 then "/" else Render(segs) + (if trailing then "/" else "")
      else
        var body := Join(CollapseRelative([], Split(p, '/')), "/");
        if |body| == 0 then (if trailing then "./" else ".")
        else body + (if trailing then "/" else "")
  }

  /** path.join(a, b): the non-empty arguments joined with `/`, then normalized. */
  function Join2(a: string, b: string): string {
    if |a| == 0 && |b| == 0 then "."
    else if |a| == 0 then Normalize(b)
    else if |b| == 0 then Normalize(a)
    else Normalize(a + "/" + b)
  }

  /** path.resolve(p) with the process working directory `cwd`. */
  function Resolve(cwd: CleanPath, p: string): CleanPath {
    if |p| > 0 && p[0] == '/' then Collapse([], Split(p, '/')) else Collapse(cwd, Split(p, '/'))
  }

  function CommonPrefixLength(a: seq<string>, b: seq<string>): (k: nat)
    ensures k <= |a| && k <= |b| && a[..k] == b[..k]
    ensures k < |a| && k < |b| ==> a[k] != b[k]
  {
    if |a| == 0 || |b| == 0 || a[0] != b[0] then 0
    else
      var k := 1 + CommonPrefixLength(a[1..], b[1..]);
      assert a[..k] == [a[0]] + a[1..][..k - 1];
      assert b[..k] == [b[0]] + b[1..][..k - 1];
      k
  }

  function Ups(n: nat): (r: seq<string>)
    ensures |r| == n && forall i :: 0 <= i < n ==> r[i] == ".."
  {
    if n == 0 then [] else [".."] + Ups(n - 1)
  }

  /** path.relative between two already resolved paths. */
  function Relative(from: CleanPath, to: CleanPath): string {
    var k := CommonPrefixLength(from, to);
    Join(Ups(|from| - k) + to[k..], "/")
  }

  /** path.relative(from, to), resolving both against `cwd` first. */
  function RelativeOf(cwd: CleanPath, from: string, to: string): string {
    Relative(Resolve(cwd, from), Resolve(cwd, to))
  }

  // ---------------------------------------------------------------------------
  // Properties

  /** Clean segments pass through the collapse unchanged. */
  lemma {:induction false} CollapseClean(acc: CleanPath, segs: CleanPath)
    ensures Collapse(acc, segs) == acc + segs
    decreases |segs|
  {
    if |segs| > 0 {
      CollapseClean(acc + [segs[0]], segs[1..]);
      assert acc + [segs[0]] + segs[1..] == acc + segs;
    }
  }

  lemma {:induction false} CollapseConcat(acc: CleanPath, xs: seq<string>, ys: seq<string>)
    ensures Collapse(acc, xs + ys) == Collapse(Collapse(acc, xs), ys)
    decreases |xs|
  {
    if |xs| == 0 {
      assert xs + ys == ys;
    } else {
      assert (xs + ys)[0] == xs[0] && (xs + ys)[1..] == xs[1..] + ys;
      var s := xs[0];
      if s == "" || s == "." || '/' in s {
        CollapseConcat(acc, xs[1..], ys);
      } else if s == ".." {
        CollapseConcat(if |acc| == 0 then [] else acc[..|acc| - 1], xs[1..], ys);
      } else {
        CollapseConcat(acc + [s], xs[1..], ys);
      }
    }
  }

  lemma SplitRender(p: CleanPath)
    ensures Split(Render(p), '/') == [""] + (if |p| == 0 then [""] else p)
  {
    var body := Join(p, "/");
    assert Render(p) == "" + ['/'] + body;
    SplitConcat("", body, '/');
    if |p| == 0 {
      assert body == "";
    } else {
      forall i | 0 <= i < |p| ensures '/' !in p[i] { }
      SplitJoin(p, '/');
    }
  }

  /** Splitting the text of a clean path and collapsing it gives the segments back. */
  lemma CollapseRender(acc: CleanPath, p: CleanPath)
    ensures Collapse(acc, Split(Render(p), '/')) == acc + p
  {
    SplitRender(p);
    if |p| == 0 {
      assert Split(Render(p), '/') == ["", ""];
      assert ["", ""][1..] == [""];
      assert Collapse(acc, [""]) == Collapse(acc, []);
    } else {
      CollapseClean(acc, p);
    }
  }

  /** The text of a normalized absolute path is its own normal form. */
  lemma NormalizeRender(p: CleanPath)
    ensures Normalize(Render(p)) == Render(p)
  {
    var s := Render(p);
    CollapseRender([], p);
    assert [] + p == p;
    if |p| > 0 {
      var body := Join(p, "/");
      assert s[|s| - 1] != '/' by {
        JoinLastChar(p);
      }
    }
  }

  lemma {:induction false} JoinLastChar(p: CleanPath)
    requires |p| > 0
    ensures var j := Join(p, "/"); |j| > 0 && j[|j| - 1] != '/'
  {
    if |p| > 1 {
      JoinLastChar(p[1..]);
    } else {
      assert Clean(p[0]);
      assert p[0][|p[0]| - 1] in p[0];
    }
  }

  /** An absolute path that does not end in `/` normalizes to the text of its collapsed segments. */
  lemma NormalizeNoTrailing(s: string, segs: CleanPath)
    requires |s| > 0 && s[0] == '/' && s[|s| - 1] != '/'
    requires Collapse([], Split(s, '/')) == segs
    ensures Normalize(s) == Render(segs)
  {
    if |segs| == 0 {
      assert Join(segs, "/") == "";
    }
  }

  /** An absolute path that ends in `/` keeps one trailing `/` unless it collapses to the root. */
  lemma NormalizeTrailing(s: string, segs: CleanPath)
    requires |s| > 0 && s[0] == '/' && s[|s| - 1] == '/'
    requires Collapse([], Split(s, '/')) == segs
    ensures Normalize(s) == if |segs| == 0 then "/" else Render(segs) + "/"
  {
  }

  /** Normalizing an absolute path twice gives what normalizing once gives. */
  lemma NormalizeIdempotent(s: string)
    requires |s| > 0 && s[0] == '/'
    ensures Normalize(Normalize(s)) == Normalize(s)
  {
    var segs := Collapse([], Split(s, '/'));
    if s[|s| - 1] != '/' {
      NormalizeNoTrailing(s, segs);
      NormalizeRender(segs);
    } else {
      NormalizeTrailing(s, segs);
      if |segs| == 0 {
        NormalizeRender([]);
      } else {
        var t := Render(segs) + "/";
        assert t == Render(segs) + "/" + "";
        SplitConcat(Render(segs), "", '/');
        assert Split(t, '/') == Split(Render(segs), '/') + [""];
        CollapseConcat([], Split(Render(segs), '/'), [""]);
        CollapseRender([], segs);
        assert [] + segs == segs;
        assert Collapse(segs, [""]) == segs;
        NormalizeTrailing(t, segs);
      }
    }
  }

  lemma SplitBelowRoot(root: CleanPath, rel: CleanPath)
    requires |rel| > 0
    ensures Split(Render(root) + "/" + Join(rel, "/"), '/') == Split(Render(root), '/') + rel
  {
    forall i | 0 <= i < |rel| ensures '/' !in rel[i] { }
    SplitJoin(rel, '/');
    SplitConcat(Render(root), Join(rel, "/"), '/');
  }

  lemma CollapseBelowRoot(root: CleanPath, rel: CleanPath)
    requires |rel| > 0
    ensures Collapse([], Split(Render(root) + "/" + Join(rel, "/"), '/')) == root + rel
  {
    SplitBelowRoot(root, rel);
    CollapseConcat([], Split(Render(root), '/'), rel);
    CollapseRender([], root);
    assert [] + root == root;
    CollapseClean(root, rel);
  }

  /** Joining a clean relative path below a root and normalizing stays below the root. */
  lemma JoinBelowRoot(root: CleanPath, rel: CleanPath)
    ensures Normalize(Join2(Render(root), Join(rel, "/"))) == Render(root + rel)
  {
    var r := Render(root);
    var relText := Join(rel, "/");
    if |rel| == 0 {
      assert relText == "";
      NormalizeRender(root);
      assert root + rel == root;
    } else {
      var joined := r + "/" + relText;
      CollapseBelowRoot(root, rel);
      JoinLastChar(rel);
      assert joined[|joined| - 1] == relText[|relText| - 1];
      NormalizeNoTrailing(joined, root + rel);
      assert Join2(r, relText) == Normalize(joined);
      NormalizeRender(root + rel);
    }
  }

  /** `p` is the root itself or lies below it. */
  predicate UnderRoot(root: CleanPath, p: string) {
    if |root| == 0 then StartsWith(p, "/")
    else p == Render(root) || StartsWith(p, Render(root) + "/")
  }

  lemma RenderUnderRoot(root: CleanPath, rel: CleanPath)
    ensures UnderRoot(root, Render(root + rel))
  {
    if |root| > 0 && |rel| > 0 {
      JoinConcat(root, rel, "/");
      assert Render(root + rel) == Render(root) + "/" + Join(rel, "/");
    } else if |rel| == 0 {
      assert root + rel == root;
    }
  }

  /** Relative to a directory above it, a path is the rest of its segments. */
  lemma RelativeBelow(from: CleanPath, rest: CleanPath)
    ensures Relative(from, from + rest) == Join(rest, "/")
  {
    var to := from + rest;
    var k := CommonPrefixLength(from, to);
    assert forall i :: 0 <= i < |from| ==> to[i] == from[i];
    assert k == |from|;
    assert Ups(0) + to[k..] == rest;
  }
}
