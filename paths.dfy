/**
 * Paths as Unix path strings, with the two `PathBuf` operations the core
 * uses: `Path::join` of one relative component, and the last component
 * (`Path::file_name`) of a path built that way.
 */
module Paths {

  type Path = string

  /** `base.join(name)` for a relative `name`: one `/` between them, none added after a trailing `/`. */
  function JoinPath(base: Path, name: string): (p: Path)
    ensures |p| >= |name| && p[|p| - |name|..] == name
    ensures StartsWithPath(p, base)
  {
    if base == [] then name
    else if base[|base| - 1] == '/' then base + name
    else base + "/" + name
  }

  /** `base` is a leading part of `p`. */
  predicate StartsWithPath(p: Path, base: Path) {
    |base| <= |p| && p[..|base|] == base
  }

  /** The text after the last `/` of `p` (all of `p` when it has none). */
  function LastComponent(p: Path): (c: string)
    ensures |c| <= |p| && c == p[|p| - |c|..]
    ensures '/' !in c
    decreases |p|
  {
    if p == [] || p[|p| - 1] == '/' then []
    else LastComponent(p[..|p| - 1]) + [p[|p| - 1]]
  }

  /** Whatever the base, the last component of `base.join(name)` is `name` when `name` is one component. */
  lemma {:induction false} LastComponentOfJoin(base: Path, name: string)
    requires '/' !in name
    ensures LastComponent(JoinPath(base, name)) == name
  {
    var p := JoinPath(base, name);
    LastComponentSuffix(p, name);
  }

  /**
   * A `/`-free suffix of `p` that is preceded by a `/` or by nothing is the
   * last component.
   */
  lemma {:induction false} LastComponentSuffix(p: Path, name: string)
    requires |name| <= |p| && p[|p| - |name|..] == name && '/' !in name
    requires |name| < |p| ==> p[|p| - |name| - 1] == '/'
    ensures LastComponent(p) == name
    decreases |name|
  {
    if name != [] {
      var q := p[..|p| - 1];
      var init := name[..|name| - 1];
      assert p[|p| - 1] == name[|name| - 1];
      assert p[|p| - 1] != '/';
      assert q[|q| - |init|..] == init;
      assert |init| < |q| ==> q[|q| - |init| - 1] == p[|p| - |name| - 1];
      assert '/' !in init;
      LastComponentSuffix(q, init);
      assert LastComponent(p) == LastComponent(q) + [p[|p| - 1]];
      assert init + [name[|name| - 1]] == name;
    }
  }
}
