/**
 * The workspace allocator of src/main.rs: which base directory holds the
 * workspaces (`determine_temp_dir`), and how one workspace is named and
 * created under it (`create_unique_temp_dir`). The clock, the random value,
 * the environment, the working directory and the outcome of each
 * directory creation are parameters.
 */
module Workspace {
  import opened Wrappers
  import opened StrOps
  import opened Paths

  /** `u32`, the type of `rand::random()`'s result here. */
  type U32 = x: nat | x < 0x1_0000_0000

  /** The prefix every workspace name carries, and the one the reaper selects on. */
  const Prefix: string := "iz-"

  /** The directory name used under the working directory when nothing else is configured. */
  const DefaultBaseName: string := ".iztemp"

  predicate ValidBase(base: nat) {
    2 <= base <= 16
  }

  /** The digit for `d`: `0`-`9`, then lowercase `a`-`f`. */
  function DigitChar(d: nat): (c: char)
    requires d < 16
    ensures IsDigitChar(c) && c != '-' && c != '/'
  {
    if d < 10 then ('0' as int + d) as char else ('a' as int + d - 10) as char
  }

  predicate IsDigitChar(c: char) {
    ('0' <= c <= '9') || ('a' <= c <= 'f')
  }

  /** The value of a lowercase hex digit. */
  function DigitValue(c: char): (v: nat)
    ensures IsDigitChar(c) ==> v < 16
    ensures '0' <= c <= '9' ==> v < 10
  {
    if '0' <= c <= '9' then c as int - '0' as int
    else if 'a' <= c <= 'f' then c as int - 'a' as int + 10
    else 0
  }

  lemma DigitValueOfChar(d: nat)
    requires d < 16
    ensures DigitValue(DigitChar(d)) == d
  {
  }

  /**
   * `n` written in `base` (`{}` for base 10, `{:x}` for base 16): at least one
   * digit, lowercase, no leading zero.
   */
  function ToDigits(n: nat, base: nat): (s: string)
    requires ValidBase(base)
    ensures |s| > 0
    ensures forall i :: 0 <= i < |s| ==> IsDigitChar(s[i]) && DigitValue(s[i]) < base
    ensures n > 0 ==> s[0] != '0'
    decreases n
  {
    if n < base then [DigitChar(n)]
    else
      DivModBounds(n, base);
      ToDigits(n / base, base) + [DigitChar(n % base)]
  }

  lemma DivModBounds(n: nat, base: nat)
    requires ValidBase(base) && n >= base
    ensures 0 < n / base < n && n % base < base
    ensures n == n / base * base + n % base
  {
  }

  /** The value of a digit string in `base`. */
  function FromDigits(s: string, base: nat): (v: nat)
    decreases |s|
  {
    if s == [] then 0 else FromDigits(s[..|s| - 1], base) * base + DigitValue(s[|s| - 1])
  }

  /** The digits read back give the number: rendering loses nothing. */
  lemma {:induction false} DigitsRoundTrip(n: nat, base: nat)
    requires ValidBase(base)
    ensures FromDigits(ToDigits(n, base), base) == n
    decreases n
  {
    var s := ToDigits(n, base);
    if n < base {
      assert s[..0] == [];
      DigitValueOfChar(n);
    } else {
      DivModBounds(n, base);
      DigitsRoundTrip(n / base, base);
      assert s[..|s| - 1] == ToDigits(n / base, base);
      DigitValueOfChar(n % base);
    }
  }

  lemma ToDigitsInjective(m: nat, n: nat, base: nat)
    requires ValidBase(base) && ToDigits(m, base) == ToDigits(n, base)
    ensures m == n
  {
    DigitsRoundTrip(m, base);
    DigitsRoundTrip(n, base);
  }

  /** `format!("iz-{timestamp}-{random_id:x}")`. */
  function WorkspaceName(timestamp: nat, randomId: U32): (r: string)
    ensures StartsWith(r, Prefix)
    ensures |r| >= |Prefix| + 3
  {
    Prefix + ToDigits(timestamp, 10) + "-" + ToDigits(randomId, 16)
  }

  /** A workspace name is one path component, carries the reaper's prefix, and is decimal digits, `-`, lowercase hex digits after it. */
  lemma WorkspaceNameShape(timestamp: nat, randomId: U32)
    ensures StartsWith(WorkspaceName(timestamp, randomId), Prefix)
    ensures '/' !in WorkspaceName(timestamp, randomId)
    ensures var d, h := ToDigits(timestamp, 10), ToDigits(randomId, 16);
      WorkspaceName(timestamp, randomId)[|Prefix|..] == d + "-" + h
      && (forall i :: 0 <= i < |d| ==> '0' <= d[i] <= '9')
      && (forall i :: 0 <= i < |h| ==> IsDigitChar(h[i]))
  {
    var d, h := ToDigits(timestamp, 10), ToDigits(randomId, 16);
    var w := WorkspaceName(timestamp, randomId);
    assert w == Prefix + (d + "-" + h);
    assert forall i :: 0 <= i < |d| ==> DigitValue(d[i]) < 10;
    forall i | 0 <= i < |w| ensures w[i] != '/' {
      if i >= |Prefix| + |d| + 1 {
        assert w[i] == h[i - |Prefix| - |d| - 1];
      }
    }
  }

  /** Splitting at a separator absent from the first part has one answer. */
  lemma SplitAtSeparatorUnique(a1: string, b1: string, a2: string, b2: string, sep: char)
    requires sep !in a1 && sep !in a2
    requires a1 + [sep] + b1 == a2 + [sep] + b2
    ensures a1 == a2 && b1 == b2
  {
    var s := a1 + [sep] + b1;
    forall k | 0 <= k < |a1| ensures s[k] != sep {
      assert s[k] == a1[k];
    }
    forall k | 0 <= k < |a2| ensures s[k] != sep {
      assert s[k] == (a2 + [sep] + b2)[k] == a2[k];
    }
    assert s[|a1|] == sep;
    assert s[|a2|] == (a2 + [sep] + b2)[|a2|] == sep;
    assert |a1| == |a2|;
    assert a1 == s[..|a1|] == a2;
    assert b1 == s[|a1| + 1..] == b2;
  }

  /** Distinct (timestamp, random value) pairs give distinct names. */
  lemma WorkspaceNameInjective(t1: nat, r1: U32, t2: nat, r2: U32)
    requires WorkspaceName(t1, r1) == WorkspaceName(t2, r2)
    ensures t1 == t2 && r1 == r2
  {
    var d1, h1 := ToDigits(t1, 10), ToDigits(r1, 16);
    var d2, h2 := ToDigits(t2, 10), ToDigits(r2, 16);
    WorkspaceNameShape(t1, r1);
    WorkspaceNameShape(t2, r2);
    assert d1 + "-" + h1 == d2 + "-" + h2;
    assert '-' !in d1 by {
      assert forall i :: 0 <= i < |d1| ==> '0' <= d1[i] <= '9';
    }
    assert '-' !in d2 by {
      assert forall i :: 0 <= i < |d2| ==> '0' <= d2[i] <= '9';
    }
    SplitAtSeparatorUnique(d1, h1, d2, h2, '-');
    ToDigitsInjective(t1, t2, 10);
    ToDigitsInjective(r1, r2, 16);
  }

  /**
   * `determine_temp_dir`: the `--temp-dir` flag, else `IZTEMP`, else the
   * configuration's `temp_dir`, else `.iztemp` under the working directory,
   * whose lookup is the only way to fail.
   */
  function DetermineTempDir(cliTempDir: Option<string>, envTempDir: Option<string>,
                            configTempDir: Option<string>, currentDir: Result<Path, string>): (r: Result<Path, string>)
    ensures r.Err? <==> cliTempDir.None? && envTempDir.None? && configTempDir.None? && currentDir.Err?
    ensures r.Err? ==> r.error == "Failed to get current directory"
  {
    if cliTempDir.Some? then Ok(cliTempDir.value)
    else if envTempDir.Some? then Ok(envTempDir.value)
    else if configTempDir.Some? then Ok(configTempDir.value)
    else if currentDir.Err? then Err("Failed to get current directory")
    else Ok(JoinPath(currentDir.value, DefaultBaseName))
  }

  /** The first value that is present, in the order given. */
  function FirstPresent<T>(options: seq<Option<T>>): (r: Option<T>)
    ensures r.None? <==> forall i :: 0 <= i < |options| ==> options[i].None?
    ensures r.Some? ==> exists i :: 0 <= i < |options| && options[i] == r
                          && forall j :: 0 <= j < i ==> options[j].None?
  {
    if options == [] then None
    else if options[0].Some? then options[0]
    else
      var r := FirstPresent(options[1..]);
      assert forall i :: 1 <= i < |options| ==> options[i] == options[1..][i - 1];
      r
  }

  /** The base directory is the first configured of flag, environment and configuration. */
  lemma DetermineTempDirPriority(cliTempDir: Option<string>, envTempDir: Option<string>,
                                 configTempDir: Option<string>, currentDir: Result<Path, string>)
    ensures var first := FirstPresent([cliTempDir, envTempDir, configTempDir]);
      DetermineTempDir(cliTempDir, envTempDir, configTempDir, currentDir)
        == if first.Some? then Ok(first.value)
           else if currentDir.Ok? then Ok(JoinPath(currentDir.value, DefaultBaseName))
           else Err("Failed to get current directory")
  {
    var opts := [cliTempDir, envTempDir, configTempDir];
    assert opts[1..] == [envTempDir, configTempDir];
    assert opts[1..][1..] == [configTempDir];
    assert opts[1..][1..][1..] == [];
    assert FirstPresent([configTempDir]) == configTempDir;
    assert FirstPresent([envTempDir, configTempDir]) == if envTempDir.Some? then envTempDir else configTempDir;
  }

  /** The workspace and the updated set of existing directories. */
  datatype Allocation = Allocation(path: Path, dirs: set<Path>)

  /**
   * `create_unique_temp_dir`: create the base directory when it is missing,
   * then the workspace `base/iz-<ms>-<hex>` in it. `dirs` is the set of
   * existing directories; `createBaseOk` and `createWorkspaceOk` are the
   * outcomes of the two `create_dir_all` calls.
   */
  function CreateUniqueTempDir(base: Path, dirs: set<Path>, createBaseOk: bool, createWorkspaceOk: bool,
                               timestamp: nat, randomId: U32): (r: Result<Allocation, string>)
    ensures r.Ok? <==> (base in dirs || createBaseOk) && createWorkspaceOk
    ensures r.Ok? ==>
              && r.value.path == JoinPath(base, WorkspaceName(timestamp, randomId))
              && StartsWith(LastComponent(r.value.path), Prefix)
              && r.value.dirs == dirs + {base, r.value.path}
    ensures r.Err? && base !in dirs && !createBaseOk ==> r.error == "Failed to create temp directory: " + base
    ensures r.Err? && (base in dirs || createBaseOk) ==>
              r.error == "Failed to create temporary directory: " + JoinPath(base, WorkspaceName(timestamp, randomId))
  {
    if base !in dirs && !createBaseOk then Err("Failed to create temp directory: " + base)
    else
      var name := WorkspaceName(timestamp, randomId);
      var path := JoinPath(base, name);
      if !createWorkspaceOk then Err("Failed to create temporary directory: " + path)
      else
        WorkspaceNameShape(timestamp, randomId);
        LastComponentOfJoin(base, name);
        Ok(Allocation(path, dirs + {base, path}))
  }
}
