/**
 * The two `os.path` functions the site code calls on POSIX: `normpath`
 * (used to resolve `../` links) and two-argument `join`.
 */
module PosixPath {
  import opened PyStr

  /**
   * Leading slashes normpath keeps: POSIX gives exactly two leading slashes
   * their own meaning, so two stay two while one, or three and more, become one.
   */
  function InitialSlashes(p: string): nat
  {
    if !StartsWith(p, "/") then 0
    else if StartsWith(p, "//") && !StartsWith(p, "///") then 2
    else 1
  }

  /**
   * normpath's loop over the path's components: empty and `.` components are
   * dropped; `..` cancels the previous component unless that is itself `..`;
   * a `..` with nothing to cancel is kept in a relative path and dropped at
   * the root of an absolute one.
   */
  function FoldComps(acc: seq<string>, comps: seq<string>, rooted: bool): seq<string>
    decreases |comps|
  {
    if comps == [] then acc
    else
      var c := comps[0];
      var next :=
        if c == "" || c == "." then acc
        else if c != ".." || (!rooted && acc == []) || (acc != [] && acc[|acc| - 1] == "..") then acc + [c]
        else if acc != [] then acc[..|acc| - 1]
        else acc;
      FoldComps(next, comps[1..], rooted)
  }

  /** os.path.normpath(p) */
  function Normpath(p: string): (r: string)
    ensures r != ""
  {
    if p == "" then "."
    else
      var n := InitialSlashes(p);
      var q := Repeat("/", n) + Join(FoldComps([], Split(p, "/"), n > 0), "/");
      if q == "" then "." else q
  }

  /**
   * The components normpath can leave: none is empty, `.` or holds a `/`,
   * and `..` appears only as a leading run of a relative path.
   */
  ghost predicate NormalComps(cs: seq<string>, rooted: bool)
  {
    (forall i :: 0 <= i < |cs| ==> cs[i] != "" && cs[i] != "." && !Contains(cs[i], "/"))
    && (forall i :: 0 <= i < |cs| && cs[i] == ".." ==> !rooted && forall j :: 0 <= j < i ==> cs[j] == "..")
  }

  /** The component loop keeps a normal accumulator normal. */
  lemma {:induction false} FoldNormal(acc: seq<string>, comps: seq<string>, rooted: bool)
    requires NormalComps(acc, rooted)
    requires forall i :: 0 <= i < |comps| ==> !Contains(comps[i], "/")
    ensures NormalComps(FoldComps(acc, comps, rooted), rooted)
    decreases |comps|
  {
    if comps != [] {
      var c := comps[0];
      if c == "" || c == "." {
        FoldNormal(acc, comps[1..], rooted);
      } else if c != ".." || (!rooted && acc == []) || (acc != [] && acc[|acc| - 1] == "..") {
        var next := acc + [c];
        if c == ".." {
          assert !rooted;
          forall j | 0 <= j < |acc| ensures acc[j] == ".." {
            assert acc[|acc| - 1] == "..";
          }
        }
        assert NormalComps(next, rooted);
        FoldNormal(next, comps[1..], rooted);
      } else if acc != [] {
        FoldNormal(acc[..|acc| - 1], comps[1..], rooted);
      } else {
        FoldNormal(acc, comps[1..], rooted);
      }
    }
  }

  /** No component normpath joins holds a slash, so its output splits back into them. */
  lemma {:induction false} NormpathComponents(p: string)
    requires p != ""
    ensures NormalComps(FoldComps([], Split(p, "/"), InitialSlashes(p) > 0), InitialSlashes(p) > 0)
  {
    SplitPiecesFree(p, "/");
    FoldNormal([], Split(p, "/"), InitialSlashes(p) > 0);
  }

  /** The component loop on `d`, `..`, `f`: the `..` cancels `d`. */
  lemma {:induction false} FoldParent(d: string, f: string)
    requires d != "" && d != "." && d != ".."
    requires f != "" && f != "." && f != ".."
    ensures FoldComps([], [d, "..", f], false) == [f]
  {
    assert [d, "..", f][1..] == ["..", f] && ["..", f][1..] == [f] && [f][1..] == [];
    assert FoldComps([], [d, "..", f], false) == FoldComps([d], ["..", f], false);
    assert [d][..0] == [];
    assert FoldComps([d], ["..", f], false) == FoldComps([], [f], false);
    assert [] + [f] == [f];
    assert FoldComps([], [f], false) == FoldComps([f], [], false);
  }

  /** A `..` cancels the directory before it: `d/../f` normalises to `f`. */
  lemma {:induction false} NormpathParent(d: string, f: string)
    requires d != "" && d != "." && d != ".." && '/' !in d
    requires f != "" && f != "." && f != ".." && '/' !in f
    ensures Normpath(d + "/" + ("../" + f)) == f
  {
    var p := d + "/" + ("../" + f);
    assert Split(p, "/") == [d, "..", f] by {
      assert p == d + ['/'] + (".." + ['/'] + f);
      SplitFirstChar(d, ".." + ['/'] + f, '/');
      SplitFirstChar("..", f, '/');
      SplitNoChar(f, '/');
      assert "/" == ['/'];
    }
    assert InitialSlashes(p) == 0 by {
      assert p[0] == d[0];
    }
    FoldParent(d, f);
    assert Repeat("/", 0) + Join([f], "/") == f;
  }

  /** os.path.join(a, b) on POSIX. */
  function PathJoin(a: string, b: string): (r: string)
    ensures StartsWith(b, "/") ==> r == b
    ensures !StartsWith(b, "/") ==> StartsWith(r, a) && |r| >= |b| && r[|r| - |b|..] == b
  {
    if StartsWith(b, "/") then b
    else if a == "" || a[|a| - 1] == '/' then a + b
    else a + "/" + b
  }
}
