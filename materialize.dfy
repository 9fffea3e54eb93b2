/**
 * The directory pre-creation pass of the tree materializer,
 * `create_directory_structure` (src/main.rs:237-253): a pre-order walk of the
 * commit's tree that attempts to create every sub-directory under the
 * workspace and only warns when one cannot be created. Directories are
 * written as their list of path components below the workspace; which
 * creations fail is a parameter.
 */
module Materialize {
  import opened Wrappers

  /** An entry of a commit tree: a file, or a sub-directory with its own entries. */
  datatype TreeEntry = Blob(name: string) | Subtree(name: string, entries: seq<TreeEntry>)

  /** A directory below the workspace, as its path components. */
  type DirPath = seq<string>

  /** The directory that contains `p`. */
  function Parent(p: DirPath): (r: DirPath)
    requires |p| > 0
    ensures |r| == |p| - 1 && r + [p[|p| - 1]] == p
  {
    p[..|p| - 1]
  }

  /**
   * The directories attempted by `tree.walk(TreeWalkMode::PreOrder, ..)` over
   * `entries`, which sit at `prefix`: each sub-directory when it is visited,
   * then the ones inside it, then its later siblings.
   */
  function Attempts(prefix: DirPath, entries: seq<TreeEntry>): (r: seq<DirPath>)
    decreases entries
  {
    if entries == [] then []
    else
      match entries[0]
      case Blob(_) => Attempts(prefix, entries[1..])
      case Subtree(n, children) =>
        [prefix + [n]] + Attempts(prefix + [n], children) + Attempts(prefix, entries[1..])
  }

  /** `path` names a sub-directory reachable through `entries`. */
  ghost predicate InTree(entries: seq<TreeEntry>, path: DirPath)
    decreases entries
  {
    |path| > 0 && exists i :: 0 <= i < |entries| && entries[i].Subtree? && entries[i].name == path[0]
                             && (|path| == 1 || InTree(entries[i].entries, path[1..]))
  }

  /**
   * The `k`-th attempted directory lies below `prefix`, and its parent is
   * `prefix` itself or was attempted before it.
   */
  ghost predicate Placed(a: seq<DirPath>, prefix: DirPath, k: nat)
    requires k < |a|
  {
    && |a[k]| > |prefix| && a[k][..|prefix|] == prefix
    && (|a[k]| == |prefix| + 1 || exists j :: 0 <= j < k && a[j] == Parent(a[k]))
  }

  /** Every attempted directory is placed: a pre-order. */
  ghost predicate ParentsFirst(a: seq<DirPath>, prefix: DirPath) {
    forall k :: 0 <= k < |a| ==> Placed(a, prefix, k)
  }

  lemma ParentsFirstSplice(prefix: DirPath, x: DirPath, b: seq<DirPath>, c: seq<DirPath>)
    requires |x| == |prefix| + 1 && x[..|prefix|] == prefix
    requires ParentsFirst(b, x) && ParentsFirst(c, prefix)
    ensures ParentsFirst([x] + b + c, prefix)
  {
    var a := [x] + b + c;
    forall k | 0 <= k < |a| ensures Placed(a, prefix, k) {
      SpliceIndex(x, b, c);
      if k == 0 {
        assert a[0] == x;
      } else if k <= |b| {
        SpliceInner(prefix, x, b, c, k);
      } else {
        SpliceOuter(prefix, x, b, c, k);
      }
    }
  }

  /** A directory below `x` keeps its place, shifted by one. */
  lemma SpliceInner(prefix: DirPath, x: DirPath, b: seq<DirPath>, c: seq<DirPath>, k: nat)
    requires |x| == |prefix| + 1 && x[..|prefix|] == prefix
    requires ParentsFirst(b, x) && 1 <= k <= |b|
    ensures Placed([x] + b + c, prefix, k)
  {
    var a := [x] + b + c;
    var p := b[k - 1];
    assert Placed(b, x, k - 1);
    assert |p| > |x| && p[..|x|] == x;
    assert p[..|prefix|] == prefix by {
      assert p[..|prefix|] == p[..|x|][..|prefix|];
    }
    SpliceIndex(x, b, c);
    assert a[k] == p;
    if |p| == |x| + 1 {
      assert Parent(p) == x;
      assert a[0] == Parent(a[k]);
    } else {
      var j :| 0 <= j < k - 1 && b[j] == Parent(p);
      assert a[j + 1] == Parent(a[k]);
    }
  }

  /** A later sibling's directory keeps its place, shifted past `x` and what is below it. */
  lemma SpliceOuter(prefix: DirPath, x: DirPath, b: seq<DirPath>, c: seq<DirPath>, k: nat)
    requires ParentsFirst(c, prefix) && |b| < k < 1 + |b| + |c|
    ensures Placed([x] + b + c, prefix, k)
  {
    var a := [x] + b + c;
    var q := c[k - 1 - |b|];
    assert Placed(c, prefix, k - 1 - |b|);
    SpliceIndex(x, b, c);
    assert a[k] == q;
    if |q| != |prefix| + 1 {
      var j :| 0 <= j < k - 1 - |b| && c[j] == Parent(q);
      assert a[j + 1 + |b|] == Parent(a[k]);
    }
  }

  lemma SpliceIndex<T>(x: T, b: seq<T>, c: seq<T>)
    ensures |[x] + b + c| == 1 + |b| + |c|
    ensures ([x] + b + c)[0] == x
    ensures forall i :: 0 <= i < |b| ==> ([x] + b + c)[i + 1] == b[i]
    ensures forall i :: 0 <= i < |c| ==> ([x] + b + c)[i + 1 + |b|] == c[i]
  {
  }

  /** The walk attempts a directory only after its parent: pre-order. */
  lemma {:induction false} AttemptsParentsFirst(prefix: DirPath, entries: seq<TreeEntry>)
    ensures ParentsFirst(Attempts(prefix, entries), prefix)
    decreases entries
  {
    if entries != [] {
      AttemptsParentsFirst(prefix, entries[1..]);
      match entries[0]
      case Blob(_) =>
      case Subtree(n, children) =>
        var x := prefix + [n];
        AttemptsParentsFirst(x, children);
        assert x[..|prefix|] == prefix;
        ParentsFirstSplice(prefix, x, Attempts(x, children), Attempts(prefix, entries[1..]));
    }
  }

  /** Every sub-directory of the tree is attempted. */
  lemma {:induction false} AttemptsComplete(prefix: DirPath, entries: seq<TreeEntry>, path: DirPath)
    requires InTree(entries, path)
    ensures prefix + path in Attempts(prefix, entries)
    decreases entries
  {
    var i :| 0 <= i < |entries| && entries[i].Subtree? && entries[i].name == path[0]
             && (|path| == 1 || InTree(entries[i].entries, path[1..]));
    if i == 0 {
      var x := prefix + [path[0]];
      if |path| == 1 {
        assert prefix + path == x;
      } else {
        AttemptsComplete(x, entries[0].entries, path[1..]);
        assert x + path[1..] == prefix + path;
      }
    } else {
      assert entries[1..][i - 1] == entries[i];
      assert InTree(entries[1..], path);
      AttemptsComplete(prefix, entries[1..], path);
    }
  }

  /** Only sub-directories of the tree are attempted. */
  lemma {:induction false} AttemptsSound(prefix: DirPath, entries: seq<TreeEntry>, k: nat)
    requires k < |Attempts(prefix, entries)|
    ensures var q := Attempts(prefix, entries)[k];
      |q| > |prefix| && q[..|prefix|] == prefix && InTree(entries, q[|prefix|..])
    decreases entries
  {
    var a := Attempts(prefix, entries);
    var rest := Attempts(prefix, entries[1..]);
    match entries[0]
    case Blob(_) =>
      AttemptsSound(prefix, entries[1..], k);
      InTreeTail(entries, rest[k][|prefix|..]);
    case Subtree(n, children) =>
      var x := prefix + [n];
      var b := Attempts(x, children);
      if k == 0 {
        assert a[0] == x && x[|prefix|..] == [n];
        assert InTree(entries, [n]) by {
          assert entries[0].Subtree? && entries[0].name == [n][0];
        }
      } else if k <= |b| {
        AttemptsSound(x, children, k - 1);
        var q := b[k - 1];
        assert a[k] == q;
        assert q[..|prefix|] == q[..|x|][..|prefix|] == prefix;
        var tail := q[|x|..];
        assert q[|prefix|..] == [n] + tail;
        assert InTree(entries, [n] + tail) by {
          assert ([n] + tail)[1..] == tail;
          assert entries[0].Subtree? && entries[0].name == ([n] + tail)[0];
        }
      } else {
        AttemptsSound(prefix, entries[1..], k - 1 - |b|);
        assert a[k] == rest[k - 1 - |b|];
        InTreeTail(entries, rest[k - 1 - |b|][|prefix|..]);
      }
  }

  lemma InTreeTail(entries: seq<TreeEntry>, path: DirPath)
    requires |entries| > 0 && InTree(entries[1..], path)
    ensures InTree(entries, path)
  {
    var i :| 0 <= i < |entries[1..]| && entries[1..][i].Subtree? && entries[1..][i].name == path[0]
             && (|path| == 1 || InTree(entries[1..][i].entries, path[1..]));
    assert entries[i + 1] == entries[1..][i];
  }

  /** The attempted directories whose creation fails, in walk order. */
  function Failures(attempts: seq<DirPath>, failing: set<DirPath>): (w: seq<DirPath>)
    ensures forall p :: p in w <==> p in attempts && p in failing
  {
    if attempts == [] then []
    else (if attempts[0] in failing then [attempts[0]] else []) + Failures(attempts[1..], failing)
  }

  /**
   * `create_directory_structure`: walk the whole tree, attempt every
   * sub-directory, and turn each failed creation into a warning. It always
   * succeeds; the returned list is the directories that were warned about.
   */
  function CreateDirectoryStructure(tree: seq<TreeEntry>, failing: set<DirPath>): (r: Result<seq<DirPath>, string>)
    ensures r.Ok?
    ensures forall p :: p in r.value <==> InTree(tree, p) && p in failing
  {
    var attempts := Attempts([], tree);
    forall p | InTree(tree, p) ensures p in attempts {
      AttemptsComplete([], tree, p);
      assert [] + p == p;
    }
    forall k | 0 <= k < |attempts| ensures InTree(tree, attempts[k]) {
      AttemptsSound([], tree, k);
      assert attempts[k][0..] == attempts[k];
    }
    Ok(Failures(attempts, failing))
  }
}
