/**
 * What `substitute_variables` (src/lib.rs) does on templates of a known
 * shape: one placeholder, two distinct placeholders, a placeholder nested in
 * the text of another, and the examples of the crate's unit tests.
 */
module TemplateCases {
  import opened Wrappers
  import opened StrOps
  import opened Template

  lemma ReplaceAllStep(s: string, pat: string, rep: string)
    requires |pat| > 0 && |s| > 0 && s[0] != pat[0]
    ensures ReplaceAll(s, pat, rep) == [s[0]] + ReplaceAll(s[1..], pat, rep)
  {
    if |s| >= |pat| {
      assert s[..|pat|][0] == s[0];
    } else {
      assert [s[0]] + s[1..] == s;
    }
  }

  lemma {:induction false} ReplaceAllSkip(s: string, pat: string, rep: string, k: nat)
    requires |pat| > 0 && k <= |s|
    requires forall i :: 0 <= i < k ==> s[i] != pat[0]
    ensures ReplaceAll(s, pat, rep) == s[..k] + ReplaceAll(s[k..], pat, rep)
    decreases k
  {
    if k > 0 {
      ReplaceAllStep(s, pat, rep);
      ReplaceAllSkip(s[1..], pat, rep, k - 1);
      assert s[..k] == [s[0]] + s[1..][..k - 1];
      assert s[1..][k - 1..] == s[k..];
    }
  }

  lemma {:induction false} MatchesFromSkip(s: string, i: nat, j: nat)
    requires i <= j <= |s|
    requires forall k :: i <= k < j ==> s[k] != '#'
    ensures MatchesFrom(s, i) == MatchesFrom(s, j)
    decreases j - i
  {
    if i < j {
      MatchesFromSkip(s, i + 1, j);
    }
  }

  lemma MatchesFromHit(s: string, i: nat, name: string)
    requires PlaceholderOccursAt(s, i, name)
    ensures MatchesFrom(s, i) == [name] + MatchesFrom(s, i + |name| + 3)
  {
    PlaceholderAtComplete(s, i, name);
  }

  lemma ReplaceAllMiss(s: string, pat: string, rep: string)
    requires |pat| > 0 && |s| > 0 && !OccursAt(s, 0, pat)
    ensures ReplaceAll(s, pat, rep) == [s[0]] + ReplaceAll(s[1..], pat, rep)
  {
    if |s| < |pat| {
      assert [s[0]] + s[1..] == s;
    }
  }

  lemma ReplaceAllHitThen(pat: string, rest: string, rep: string)
    requires |pat| > 0
    ensures ReplaceAll(pat + rest, pat, rep) == rep + ReplaceAll(rest, pat, rep)
  {
    assert (pat + rest)[..|pat|] == pat && (pat + rest)[|pat|..] == rest;
  }

  /** A text without `#` holds no occurrence of a pattern that starts with `#`. */
  lemma HashFreeAbsent(s: string, pat: string)
    requires |pat| > 0 && pat[0] == '#' && '#' !in s
    ensures !Occurs(s, pat)
  {
    forall i: nat | i + |pat| <= |s| ensures !OccursAt(s, i, pat) {
      assert s[i..i + |pat|][0] == s[i];
    }
  }

  lemma OnePlaceholderMatches(a: string, name: string, b: string)
    requires IsName(name) && '#' !in a && '#' !in b
    ensures Matches(a + PlaceholderText(name) + b) == [name]
  {
    var p := PlaceholderText(name);
    var t := a + p + b;
    assert t[|a|..|a| + |p|] == p;
    MatchesFromSkip(t, 0, |a|);
    MatchesFromHit(t, |a|, name);
    MatchesFromSkip(t, |a| + |p|, |t|);
  }

  lemma OnePlaceholderReplaced(a: string, name: string, b: string, v: string)
    requires '#' !in a && '#' !in b
    ensures ReplaceAll(a + PlaceholderText(name) + b, PlaceholderText(name), v) == a + v + b
  {
    var p := PlaceholderText(name);
    var t := a + p + b;
    ReplaceAllSkip(t, p, v, |a|);
    assert t[..|a|] == a && t[|a|..] == p + b;
    ReplaceAllHitThen(p, b, v);
    HashFreeAbsent(b, p);
    ReplaceAllAbsent(b, p, v);
  }

  /** A template with one placeholder and no other `#`. */
  lemma SubstituteOnePlaceholder(a: string, name: string, b: string, params: map<string, string>)
    requires IsName(name) && '#' !in a && '#' !in b
    ensures Substitute(a + PlaceholderText(name) + b, params)
         == if name in params then Ok(a + params[name] + b) else Err(MissingParameter(name))
  {
    OnePlaceholderMatches(a, name, b);
    assert [name][1..] == [];
    var t := a + PlaceholderText(name) + b;
    if name in params {
      OnePlaceholderReplaced(a, name, b, params[name]);
      assert SubstituteAll([name], t, params) == SubstituteAll([], a + params[name] + b, params);
    } else {
      assert SubstituteAll([name], t, params) == Err(MissingParameter(name));
    }
  }

  /**
   * Substitution can leave a placeholder behind: with `a` empty, removing
   * `#{a}` from `#{#{a}b}` leaves `#{b}`, which is not replaced, since the
   * names come from the ORIGINAL template only.
   */
  lemma AdjacencyExample()
    ensures Substitute("#{#{a}b}", map["a" := ""]) == Ok("#{b}")
    ensures HasPlaceholder("#{b}")
  {
    var s := "#{#{a}b}";
    assert WordRunEnd(s, 2) == 2;
    assert PlaceholderAt(s, 0) == None;
    assert s[2..6] == PlaceholderText("a");
    MatchesFromHit(s, 2, "a");
    MatchesFromSkip(s, 6, 8);
    assert Matches(s) == ["a"];
    assert s[..4] != "#{a}";
    ReplaceAllMiss(s, "#{a}", "");
    assert s[1..][0] == '{';
    ReplaceAllMiss(s[1..], "#{a}", "");
    assert s[1..][1..] == "#{a}" + "b}";
    ReplaceAllHitThen("#{a}", "b}", "");
    assert ReplaceAll("b}", "#{a}", "") == "b}";
    assert ReplaceAll(s, "#{a}", "") == "#{b}";
    assert PlaceholderOccursAt("#{b}", 0, "b");
  }

  /** The placeholder of `n1` does not occur in text made of the placeholder of another name and `#`-free text. */
  lemma OtherPlaceholderAbsent(n1: string, n2: string, c: string)
    requires IsName(n1) && IsName(n2) && n1 != n2 && '#' !in c
    ensures !Occurs(PlaceholderText(n2) + c, PlaceholderText(n1))
  {
    var p1, p2 := PlaceholderText(n1), PlaceholderText(n2);
    var s := p2 + c;
    forall i: nat | 0 < i && i + |p1| <= |s| ensures !OccursAt(s, i, p1) {
      assert s[i..i + |p1|][0] == s[i];
      if i < |p2| {
        assert s[i] == p2[i];
        if 2 <= i < |p2| - 1 {
          assert p2[i] == n2[i - 2];
        }
      } else {
        assert s[i] == c[i - |p2|];
      }
    }
    if |p1| <= |s| {
      var l1, l2 := |n1|, |n2|;
      if l1 < l2 {
        assert s[l1 + 2] == n2[l1] && p1[l1 + 2] == '}';
        assert s[..|p1|][l1 + 2] != p1[l1 + 2];
      } else if l2 < l1 {
        assert s[l2 + 2] == '}' && p1[l2 + 2] == n1[l2];
        assert s[..|p1|][l2 + 2] != p1[l2 + 2];
      } else {
        assert s[2..l1 + 2] == n2 && p1[2..l1 + 2] == n1;
        assert s[..|p1|][2..l1 + 2] == s[2..l1 + 2];
        assert s[..|p1|] != p1;
      }
    }
  }

  /** `#`-free text, then a placeholder: the scan reports that placeholder next. */
  lemma MatchesFromNext(t: string, i: nat, j: nat, name: string)
    requires i <= j && PlaceholderOccursAt(t, j, name)
    requires forall k :: i <= k < j ==> t[k] != '#'
    ensures MatchesFrom(t, i) == [name] + MatchesFrom(t, j + |name| + 3)
  {
    MatchesFromSkip(t, i, j);
    MatchesFromHit(t, j, name);
  }

  lemma ReplaceAllNext(t: string, pat: string, rep: string, j: nat)
    requires |pat| > 0 && OccursAt(t, j, pat)
    requires forall k :: 0 <= k < j ==> t[k] != pat[0]
    ensures ReplaceAll(t, pat, rep) == t[..j] + rep + ReplaceAll(t[j + |pat|..], pat, rep)
  {
    ReplaceAllSkip(t, pat, rep, j);
    assert t[j..] == pat + t[j + |pat|..];
    ReplaceAllHitThen(pat, t[j + |pat|..], rep);
  }

  /** `#`-free text, then the placeholder: the first replacement happens right there. */
  lemma ReplaceAfterHashFree(a: string, p: string, rest: string, v: string)
    requires |p| > 0 && p[0] == '#' && '#' !in a
    ensures ReplaceAll(a + p + rest, p, v) == a + v + ReplaceAll(rest, p, v)
  {
    var t := a + p + rest;
    assert t[|a|..|a| + |p|] == p && t[..|a|] == a && t[|a| + |p|..] == rest;
    ReplaceAllNext(t, p, v, |a|);
  }

  lemma FirstOfTwoReplaced(a: string, n1: string, b: string, n2: string, c: string, v1: string)
    requires IsName(n1) && IsName(n2) && n1 != n2
    requires '#' !in a && '#' !in b && '#' !in c
    ensures ReplaceAll(a + PlaceholderText(n1) + b + PlaceholderText(n2) + c, PlaceholderText(n1), v1)
         == a + v1 + b + PlaceholderText(n2) + c
  {
    var p1, p2 := PlaceholderText(n1), PlaceholderText(n2);
    var rest := b + p2 + c;
    assert a + p1 + b + p2 + c == a + p1 + rest;
    ReplaceAfterHashFree(a, p1, rest, v1);
    assert ReplaceAll(rest, p1, v1) == rest by {
      assert rest == b + (p2 + c);
      ReplaceAllSkip(rest, p1, v1, |b|);
      assert rest[..|b|] == b && rest[|b|..] == p2 + c;
      OtherPlaceholderAbsent(n1, n2, c);
      ReplaceAllAbsent(p2 + c, p1, v1);
    }
  }

  lemma TwoPlaceholdersReplaced(a: string, n1: string, b: string, n2: string, c: string, v1: string, v2: string)
    requires IsName(n1) && IsName(n2) && n1 != n2
    requires '#' !in a && '#' !in b && '#' !in c && '#' !in v1
    ensures var t := a + PlaceholderText(n1) + b + PlaceholderText(n2) + c;
      ReplaceAll(ReplaceAll(t, PlaceholderText(n1), v1), PlaceholderText(n2), v2) == a + v1 + b + v2 + c
  {
    FirstOfTwoReplaced(a, n1, b, n2, c, v1);
    var x := a + v1 + b;
    assert a + v1 + b + PlaceholderText(n2) + c == x + PlaceholderText(n2) + c;
    OnePlaceholderReplaced(x, n2, c, v2);
    assert x + v2 + c == a + v1 + b + v2 + c;
  }

  lemma TwoPlaceholdersMatches(a: string, n1: string, b: string, n2: string, c: string)
    requires IsName(n1) && IsName(n2) && '#' !in a && '#' !in b && '#' !in c
    ensures Matches(a + PlaceholderText(n1) + b + PlaceholderText(n2) + c) == [n1, n2]
  {
    var p1, p2 := PlaceholderText(n1), PlaceholderText(n2);
    var x := a + p1;
    var t := x + b + p2 + c;
    assert t == a + p1 + b + p2 + c;
    assert MatchesFrom(t, 0) == [n1] + MatchesFrom(t, |x|) by {
      assert t[|a|..|x|] == p1;
      forall k | 0 <= k < |a| ensures t[k] != '#' {
        assert t[k] == a[k];
      }
      MatchesFromNext(t, 0, |a|, n1);
    }
    PlaceholderAfter(x, b, n2, c);
  }

  /** After any text `x`: `#`-free text, one placeholder, `#`-free text. */
  lemma PlaceholderAfter(x: string, b: string, name: string, c: string)
    requires IsName(name) && '#' !in b && '#' !in c
    ensures MatchesFrom(x + b + PlaceholderText(name) + c, |x|) == [name]
  {
    var p := PlaceholderText(name);
    var t := x + b + p + c;
    var j := |x| + |b|;
    assert t[j..j + |p|] == p;
    forall k | |x| <= k < j ensures t[k] != '#' {
      assert t[k] == b[k - |x|];
    }
    forall k | j + |p| <= k < |t| ensures t[k] != '#' {
      assert t[k] == c[k - j - |p|];
    }
    assert |p| == |name| + 3;
    LastPlaceholder(t, |x|, j, name);
  }

  /** `#`-free text, the placeholder, and nothing but `#`-free text after it. */
  lemma LastPlaceholder(t: string, i: nat, j: nat, name: string)
    requires i <= j && PlaceholderOccursAt(t, j, name)
    requires forall k :: i <= k < j ==> t[k] != '#'
    requires forall k :: j + |name| + 3 <= k < |t| ==> t[k] != '#'
    ensures MatchesFrom(t, i) == [name]
  {
    MatchesFromNext(t, i, j, name);
    MatchesFromSkip(t, j + |name| + 3, |t|);
    assert MatchesFrom(t, |t|) == [];
  }

  /** Two distinct placeholders, no other `#`, and a first value without `#`. */
  lemma SubstituteTwoPlaceholders(a: string, n1: string, b: string, n2: string, c: string, params: map<string, string>)
    requires IsName(n1) && IsName(n2) && n1 != n2
    requires '#' !in a && '#' !in b && '#' !in c
    requires n1 in params && n2 in params && '#' !in params[n1]
    ensures Substitute(a + PlaceholderText(n1) + b + PlaceholderText(n2) + c, params)
         == Ok(a + params[n1] + b + params[n2] + c)
  {
    var t := a + PlaceholderText(n1) + b + PlaceholderText(n2) + c;
    TwoPlaceholdersMatches(a, n1, b, n2, c);
    TwoPlaceholdersReplaced(a, n1, b, n2, c, params[n1], params[n2]);
    var r1 := ReplaceAll(t, PlaceholderText(n1), params[n1]);
    assert [n1, n2][1..] == [n2] && [n2][1..] == [];
    assert SubstituteAll([n1, n2], t, params) == SubstituteAll([n2], r1, params);
  }

  /** The substitutions of src/lib.rs:98-111. */
  lemma SubstituteExampleOne()
    ensures Substitute("echo 'Merhaba #{name}!'", map["name" := "Ali", "port" := "8080"]) == Ok("echo 'Merhaba Ali!'")
  {
    SubstituteOnePlaceholder("echo 'Merhaba ", "name", "!'", map["name" := "Ali", "port" := "8080"]);
    assert "echo 'Merhaba " + PlaceholderText("name") + "!'" == "echo 'Merhaba #{name}!'";
    assert "echo 'Merhaba " + "Ali" + "!'" == "echo 'Merhaba Ali!'";
  }

  lemma SubstituteExamplePort()
    ensures Substitute("server --port #{port}", map["name" := "Ali", "port" := "8080"]) == Ok("server --port 8080")
  {
    SubstituteOnePlaceholder("server --port ", "port", "", map["name" := "Ali", "port" := "8080"]);
    assert "server --port " + PlaceholderText("port") + "" == "server --port #{port}";
    assert "server --port " + "8080" + "" == "server --port 8080";
  }

  lemma SubstituteExampleGreet()
    ensures Substitute("greet #{name} on port #{port}", map["name" := "Ali", "port" := "8080"]) == Ok("greet Ali on port 8080")
  {
    GreetPieces();
    SubstituteTwoPlaceholders("greet ", "name", " on port ", "port", "", map["name" := "Ali", "port" := "8080"]);
  }

  lemma GreetPieces()
    ensures "greet " + PlaceholderText("name") + " on port " + PlaceholderText("port") + "" == "greet #{name} on port #{port}"
    ensures "greet " + "Ali" + " on port " + "8080" + "" == "greet Ali on port 8080"
    ensures IsName("name") && IsName("port") && "name" != "port"
    ensures '#' !in "greet " && '#' !in " on port " && '#' !in "" && '#' !in "Ali"
  {
    assert "name"[0] != "port"[0];
  }

  /** src/lib.rs:113-118: no placeholder, no parameters, no change. */
  lemma SubstituteExampleNoVariables()
    ensures Substitute("echo 'Hello World'", map[]) == Ok("echo 'Hello World'")
  {
    NoHashNoPlaceholder("echo 'Hello World'");
    SubstituteWithoutPlaceholders("echo 'Hello World'", map[]);
  }

  /** src/lib.rs:120-126: the missing parameter is reported by name. */
  lemma SubstituteExampleMissing()
    ensures Substitute("echo 'Hello #{name}'", map[]) == Err(MissingParameter("name"))
    ensures MissingParameter("name").Message() == "Required parameter not found: name"
  {
    SubstituteOnePlaceholder("echo 'Hello ", "name", "'", map[]);
    assert "echo 'Hello " + PlaceholderText("name") + "'" == "echo 'Hello #{name}'";
  }
}
