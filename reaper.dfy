/**
 * The stale-workspace reaper, `clean_command` (src/main.rs:121-207): pick the
 * base directory's sub-directories whose names carry the workspace prefix,
 * ask for confirmation unless forced, then remove each one, counting
 * successes and failures and never stopping on a failure. The directory
 * listing, the answer read from stdin and which removals succeed are
 * parameters.
 */
module Reaper {
  import opened Wrappers
  import opened StrOps
  import opened Paths
  import opened Workspace

  /** One item of `fs::read_dir`: an entry (its file name, and whether it is a directory), or an I/O error. */
  datatype DirEntry = Entry(name: string, isDir: bool) | EntryError(message: string)

  /**
   * The test of src/main.rs:143-148 on `entry.path()`, which is
   * `base.join(name)`: a directory whose file name starts with `iz-`.
   */
  predicate IsSelected(base: Path, e: DirEntry) {
    e.Entry? && e.isDir && StartsWith(LastComponent(JoinPath(base, e.name)), Prefix)
  }

  /** The file name that `read_dir` reports is one component, so the test is on the name itself. */
  lemma IsSelectedByName(base: Path, e: DirEntry)
    requires e.Entry? && '/' !in e.name
    ensures IsSelected(base, e) <==> e.isDir && StartsWith(e.name, Prefix)
  {
    LastComponentOfJoin(base, e.name);
  }

  predicate NoEntryError(entries: seq<DirEntry>) {
    forall i :: 0 <= i < |entries| ==> !entries[i].EntryError?
  }

  /** `items_to_clean`: the paths of the selected entries, in listing order. */
  function Select(base: Path, entries: seq<DirEntry>): (items: seq<Path>)
    ensures |items| <= |entries|
  {
    if entries == [] then []
    else
      var last := entries[|entries| - 1];
      Select(base, entries[..|entries| - 1]) + if IsSelected(base, last) then [JoinPath(base, last.name)] else []
  }

  /** Exactly the selected entries' paths are to be cleaned. */
  lemma {:induction false} SelectMembership(base: Path, entries: seq<DirEntry>, p: Path)
    ensures p in Select(base, entries) <==>
              exists i :: 0 <= i < |entries| && IsSelected(base, entries[i]) && p == JoinPath(base, entries[i].name)
  {
    if entries != [] {
      var init := entries[..|entries| - 1];
      SelectMembership(base, init, p);
      assert forall i :: 0 <= i < |init| ==> init[i] == entries[i];
    }
  }

  /** Nothing is to be cleaned exactly when no entry is selected, whatever else the directory holds. */
  lemma {:induction false} SelectEmptyIff(base: Path, entries: seq<DirEntry>)
    ensures Select(base, entries) == [] <==> NoneSelected(base, entries)
  {
    if entries != [] {
      var init := entries[..|entries| - 1];
      var last := entries[|entries| - 1];
      SelectEmptyIff(base, init);
      NoneSelectedSnoc(base, entries);
      assert Select(base, entries) == [] <==> Select(base, init) == [] && !IsSelected(base, last);
    }
  }

  /** No entry of the listing is selected. */
  predicate NoneSelected(base: Path, entries: seq<DirEntry>) {
    forall i :: 0 <= i < |entries| ==> !IsSelected(base, entries[i])
  }

  lemma NoneSelectedSnoc(base: Path, entries: seq<DirEntry>)
    requires entries != []
    ensures NoneSelected(base, entries) <==>
              NoneSelected(base, entries[..|entries| - 1]) && !IsSelected(base, entries[|entries| - 1])
  {
    var init := entries[..|entries| - 1];
    forall i | 0 <= i < |init| ensures init[i] == entries[i] {
    }
  }

  /** `input.trim().to_lowercase()` is `y` or `yes`. */
  predicate Confirmed(answer: string)
    ensures Confirmed(answer) ==> |Trim(answer)| == 1 || |Trim(answer)| == 3
    ensures Confirmed(answer) ==> Trim(answer)[0] == 'y' || Trim(answer)[0] == 'Y'
  {
    var a := ToLower(Trim(answer));
    a == "y" || a == "yes"
  }

  /** Only `y` or `yes`, in any case, with any surrounding whitespace, confirms. */
  lemma ConfirmedAround(pre: string, w: string, post: string)
    requires forall i :: 0 <= i < |pre| ==> IsWhitespace(pre[i])
    requires forall i :: 0 <= i < |post| ==> IsWhitespace(post[i])
    requires w != [] && !IsWhitespace(w[0]) && !IsWhitespace(w[|w| - 1])
    ensures Confirmed(pre + w + post) <==> ToLower(w) == "y" || ToLower(w) == "yes"
  {
    TrimAround(pre, w, post);
  }

  /** A `y` line confirms, as does `YES` after spaces. */
  lemma ConfirmedYes()
    ensures Confirmed("y\n")
  {
    ConfirmedAround("", "y", "\n");
    assert "" + "y" + "\n" == "y\n";
  }

  lemma ConfirmedUpperYes()
    ensures Confirmed("  YES\n")
  {
    ConfirmedAround("  ", "YES", "\n");
    assert "  " + "YES" + "\n" == "  YES\n";
    assert ToLower("YES") == "yes";
  }

  /** `n` and `yess` decline. */
  lemma DeclinedNo()
    ensures !Confirmed("n\n")
  {
    ConfirmedAround("", "n", "\n");
    assert "" + "n" + "\n" == "n\n";
  }

  lemma DeclinedLonger()
    ensures !Confirmed("yess\n")
  {
    ConfirmedAround("", "yess", "\n");
    assert "" + "yess" + "\n" == "yess\n";
    assert |ToLower("yess")| == 4;
  }

  /** An empty line declines. */
  lemma BlankDeclines()
    ensures !Confirmed("\n") && !Confirmed("")
  {
    assert TrimStart("\n") == TrimStart("") == "";
  }

  /** The number of `items` whose removal succeeds. */
  function CountIn(items: seq<Path>, removable: set<Path>): (n: nat)
    ensures n <= |items|
  {
    if items == [] then 0
    else CountIn(items[..|items| - 1], removable) + if items[|items| - 1] in removable then 1 else 0
  }

  lemma {:induction false} CountInAll(items: seq<Path>, removable: set<Path>)
    requires forall i :: 0 <= i < |items| ==> items[i] in removable
    ensures CountIn(items, removable) == |items|
  {
    if items != [] {
      CountInAll(items[..|items| - 1], removable);
    }
  }

  /** How `clean_command` returns `Ok(())`. */
  datatype CleanReport =
    | BaseMissing
    | NothingToClean
    | Cancelled
    | Cleaned(cleaned: nat, failed: nat)

  /**
   * The listing loop of `clean_command` (src/main.rs:139-152): push the path
   * of each selected entry; the first entry that is an I/O error ends the
   * loop with that error.
   */
  method CollectItems(base: Path, entries: seq<DirEntry>) returns (r: Result<seq<Path>, string>)
    ensures r.Ok? <==> NoEntryError(entries)
    ensures r.Ok? ==> r.value == Select(base, entries)
    ensures r.Err? ==> exists i :: 0 <= i < |entries| && entries[i] == EntryError(r.error)
                                 && NoEntryError(entries[..i])
  {
    var items: seq<Path> := [];
    for i := 0 to |entries|
      invariant NoEntryError(entries[..i])
      invariant items == Select(base, entries[..i])
    {
      assert entries[..i + 1][..i] == entries[..i];
      match entries[i]
      case EntryError(message) =>
        return Err(message);
      case Entry(name, isDir) =>
        if IsSelected(base, entries[i]) {
          items := items + [JoinPath(base, name)];
        }
    }
    assert entries[..|entries|] == entries;
    return Ok(items);
  }

  /**
   * The removal loop of `clean_command` (src/main.rs:181-195): attempt every
   * item in order, counting successes and failures; a failure does not stop
   * the loop.
   */
  method RemoveItems(items: seq<Path>, removable: set<Path>) returns (cleaned: nat, failed: nat, attempted: seq<Path>)
    ensures attempted == items
    ensures cleaned == CountIn(items, removable)
    ensures cleaned + failed == |items|
  {
    cleaned, failed := 0, 0;
    attempted := [];
    for i := 0 to |items|
      invariant attempted == items[..i]
      invariant cleaned == CountIn(items[..i], removable)
      invariant cleaned + failed == i
    {
      assert items[..i + 1][..i] == items[..i];
      if items[i] in removable {
        cleaned := cleaned + 1;
      } else {
        failed := failed + 1;
      }
      attempted := attempted + [items[i]];
    }
    assert items[..|items|] == items;
  }

  /**
   * `clean_command` once the base directory is known. `baseExists` is
   * `base_temp_dir.exists()`, `listing` the result of `fs::read_dir`, `answer`
   * the line read from stdin (or the I/O error of the prompt), `removable` the
   * directories whose `remove_dir_all` succeeds. Returns the result and the
   * directories on which removal was attempted, in order.
   */
  method CleanCommand(base: Path, baseExists: bool, listing: Result<seq<DirEntry>, string>, force: bool,
                      answer: Result<string, string>, removable: set<Path>)
    returns (r: Result<CleanReport, string>, attempted: seq<Path>)
    ensures !baseExists ==> r == Ok(BaseMissing) && attempted == []
    ensures baseExists && listing.Err? ==> r == Err("Failed to read temp directory: " + base) && attempted == []
    ensures baseExists && listing.Ok? && !NoEntryError(listing.value) ==>
              && attempted == []
              && r.Err?
              && exists i :: 0 <= i < |listing.value| && listing.value[i] == EntryError(r.error)
                           && NoEntryError(listing.value[..i])
    ensures baseExists && listing.Ok? && NoEntryError(listing.value) ==>
              var items := Select(base, listing.value);
              && (items == [] ==> r == Ok(NothingToClean) && attempted == [])
              && (items != [] && !force && answer.Err? ==> r == Err(answer.error) && attempted == [])
              && (items != [] && !force && answer.Ok? && !Confirmed(answer.value) ==> r == Ok(Cancelled) && attempted == [])
              && (items != [] && (force || (answer.Ok? && Confirmed(answer.value))) ==>
                    && attempted == items
                    && r == Ok(Cleaned(CountIn(items, removable), |items| - CountIn(items, removable))))
  {
    if !baseExists {
      return Ok(BaseMissing), [];
    }
    if listing.Err? {
      return Err("Failed to read temp directory: " + base), [];
    }
    var collected := CollectItems(base, listing.value);
    if collected.Err? {
      return Err(collected.error), [];
    }
    var items := collected.value;
    if items == [] {
      return Ok(NothingToClean), [];
    }
    if !force {
      if answer.Err? {
        return Err(answer.error), [];
      }
      if !Confirmed(answer.value) {
        return Ok(Cancelled), [];
      }
    }
    var cleaned, failed;
    cleaned, failed, attempted := RemoveItems(items, removable);
    return Ok(Cleaned(cleaned, failed)), attempted;
  }

  /**
   * A workspace the allocator created is picked up by the reaper, and the
   * path it removes is the one the allocator returned.
   */
  lemma AllocatedWorkspaceIsSelected(base: Path, dirs: set<Path>, createBaseOk: bool, timestamp: nat, randomId: U32)
    requires base in dirs || createBaseOk
    ensures var entry := Entry(WorkspaceName(timestamp, randomId), true);
      && IsSelected(base, entry)
      && Select(base, [entry]) == [CreateUniqueTempDir(base, dirs, createBaseOk, true, timestamp, randomId).value.path]
  {
    var name := WorkspaceName(timestamp, randomId);
    WorkspaceNameShape(timestamp, randomId);
    IsSelectedByName(base, Entry(name, true));
    assert [Entry(name, true)][..0] == [];
  }

  lemma SelectSnoc(base: Path, entries: seq<DirEntry>, e: DirEntry)
    ensures Select(base, entries + [e]) == Select(base, entries) + if IsSelected(base, e) then [JoinPath(base, e.name)] else []
  {
    assert (entries + [e])[..|entries|] == entries;
  }

  /**
   * The forced clean of tests/integration_tests.rs:211-243: two prefixed
   * directories and an unrelated one; the two are selected, and when both
   * removals succeed the report is 2 cleaned, 0 failed.
   */
  lemma CleanForceExample(base: Path)
    ensures var entries := [Entry("iz-test1", true), Entry("iz-test2", true), Entry("other-folder", true)];
      var items := Select(base, entries);
      && items == [JoinPath(base, "iz-test1"), JoinPath(base, "iz-test2")]
      && CountIn(items, set p | p in items) == 2
  {
    var e1, e2, e3 := Entry("iz-test1", true), Entry("iz-test2", true), Entry("other-folder", true);
    PrefixedNames();
    IsSelectedByName(base, e1);
    IsSelectedByName(base, e2);
    IsSelectedByName(base, e3);
    SelectTwoOfThree(base, e1, e2, e3);
    var items := [JoinPath(base, "iz-test1"), JoinPath(base, "iz-test2")];
    CountInAll(items, set p | p in items);
  }

  lemma SelectTwoOfThree(base: Path, e1: DirEntry, e2: DirEntry, e3: DirEntry)
    requires IsSelected(base, e1) && IsSelected(base, e2) && !IsSelected(base, e3)
    ensures Select(base, [e1, e2, e3]) == [JoinPath(base, e1.name), JoinPath(base, e2.name)]
  {
    var j1, j2 := JoinPath(base, e1.name), JoinPath(base, e2.name);
    SelectStep(base, [], e1, [j1]);
    SelectStep(base, [e1], e2, [j1, j2]);
    SelectSnoc(base, [e1, e2], e3);
    assert [e1, e2] + [e3] == [e1, e2, e3];
  }

  lemma SelectStep(base: Path, entries: seq<DirEntry>, e: DirEntry, items: seq<Path>)
    requires IsSelected(base, e) && items != []
    requires Select(base, entries) == items[..|items| - 1] && items[|items| - 1] == JoinPath(base, e.name)
    ensures Select(base, entries + [e]) == items
  {
    SelectSnoc(base, entries, e);
  }

  lemma PrefixedNames()
    ensures StartsWith("iz-test1", Prefix) && StartsWith("iz-test2", Prefix) && !StartsWith("other-folder", Prefix)
    ensures '/' !in "iz-test1" && '/' !in "iz-test2" && '/' !in "other-folder"
  {
    assert "other-folder"[0] != Prefix[0];
  }
}
