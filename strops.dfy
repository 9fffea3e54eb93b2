/**
 * The Rust string primitives the core relies on, over `string` (a sequence of
 * characters): ASCII readings of `char::is_whitespace` and of the regex class
 * `\w`, `str::starts_with`, `str::find`, `str::replace`, `str::trim`,
 * an ASCII `str::to_lowercase` and `str::split_whitespace`.
 */
module StrOps {
  import opened Wrappers

  /** Rust's `char::is_whitespace`, read as ASCII: tab, line feed, vertical tab, form feed, carriage return, space. */
  predicate IsWhitespace(c: char) {
    ('\t' <= c <= '\r') || c == ' '
  }

  /** The regex class `\w`, read as ASCII: a letter, a digit or `_`. */
  predicate IsWordChar(c: char) {
    ('a' <= c <= 'z') || ('A' <= c <= 'Z') || ('0' <= c <= '9') || c == '_'
  }

  predicate StartsWith(s: string, prefix: string) {
    |prefix| <= |s| && s[..|prefix|] == prefix
  }

  /** `pat` occurs in `s` starting at index `i`. */
  predicate OccursAt(s: string, i: nat, pat: string) {
    i + |pat| <= |s| && s[i..i + |pat|] == pat
  }

  predicate Occurs(s: string, pat: string) {
    exists i: nat | i <= |s| :: OccursAt(s, i, pat)
  }

  /** `str::find` for one character: the index of its first occurrence. */
  function FindChar(s: string, c: char): (r: Option<nat>)
    ensures r.None? <==> c !in s
    ensures r.Some? ==> r.value < |s| && s[r.value] == c && c !in s[..r.value]
  {
    if s == [] then None
    else if s[0] == c then Some(0)
    else
      match FindChar(s[1..], c)
      case None => None
      case Some(k) =>
        assert s[..k + 1] == [s[0]] + s[1..][..k];
        Some(k + 1)
  }

  /**
   * `str::replace`: every non-overlapping occurrence of `pat`, found left to
   * right, is replaced by `rep`; the replacement text is not scanned again.
   */
  function ReplaceAll(s: string, pat: string, rep: string): (r: string)
    requires |pat| > 0
    ensures rep == pat ==> r == s
    ensures |rep| >= |pat| ==> |r| >= |s|
    decreases |s|
  {
    if |s| < |pat| then s
    else if s[..|pat|] == pat then rep + ReplaceAll(s[|pat|..], pat, rep)
    else [s[0]] + ReplaceAll(s[1..], pat, rep)
  }

  /** Replacing a pattern that does not occur leaves the text as it is. */
  lemma {:induction false} ReplaceAllAbsent(s: string, pat: string, rep: string)
    requires |pat| > 0 && !Occurs(s, pat)
    ensures ReplaceAll(s, pat, rep) == s
    decreases |s|
  {
    if |s| >= |pat| {
      assert !OccursAt(s, 0, pat);
      forall i: nat | OccursAt(s[1..], i, pat) ensures OccursAt(s, i + 1, pat) {
        assert s[1..][i..i + |pat|] == s[i + 1..i + 1 + |pat|];
      }
      ReplaceAllAbsent(s[1..], pat, rep);
    }
  }

  /** `str::trim_start`: drops the leading whitespace. */
  function TrimStart(s: string): (r: string)
    ensures |r| <= |s| && r == s[|s| - |r|..]
    ensures r != [] ==> !IsWhitespace(r[0])
    decreases |s|
  {
    if s != [] && IsWhitespace(s[0]) then TrimStart(s[1..]) else s
  }

  /** What `TrimStart` drops is whitespace. */
  lemma {:induction false} TrimStartDropsWhitespace(s: string, i: nat)
    requires i < |s| - |TrimStart(s)|
    ensures IsWhitespace(s[i])
    decreases |s|
  {
    if s != [] && IsWhitespace(s[0]) && i > 0 {
      TrimStartDropsWhitespace(s[1..], i - 1);
    }
  }

  /** `str::trim_end`: drops the trailing whitespace. */
  function TrimEnd(s: string): (r: string)
    ensures |r| <= |s| && r == s[..|r|]
    ensures forall i :: |r| <= i < |s| ==> IsWhitespace(s[i])
    ensures r != [] ==> !IsWhitespace(r[|r| - 1])
    decreases |s|
  {
    if s != [] && IsWhitespace(s[|s| - 1]) then TrimEnd(s[..|s| - 1]) else s
  }

  /** `str::trim`. */
  function Trim(s: string): (r: string)
    ensures |r| <= |s|
    ensures r != [] ==> !IsWhitespace(r[0]) && !IsWhitespace(r[|r| - 1])
  {
    TrimEnd(TrimStart(s))
  }

  /** Leading whitespace before text that starts otherwise is dropped. */
  lemma {:induction false} TrimStartSkips(pre: string, rest: string)
    requires forall i :: 0 <= i < |pre| ==> IsWhitespace(pre[i])
    requires rest == [] || !IsWhitespace(rest[0])
    ensures TrimStart(pre + rest) == rest
    decreases |pre|
  {
    if pre == [] {
      assert pre + rest == rest;
    } else {
      assert (pre + rest)[1..] == pre[1..] + rest;
      TrimStartSkips(pre[1..], rest);
    }
  }

  /** Trailing whitespace after text that ends otherwise is dropped. */
  lemma {:induction false} TrimEndSkips(rest: string, post: string)
    requires forall i :: 0 <= i < |post| ==> IsWhitespace(post[i])
    requires rest == [] || !IsWhitespace(rest[|rest| - 1])
    ensures TrimEnd(rest + post) == rest
    decreases |post|
  {
    if post == [] {
      assert rest + post == rest;
    } else {
      assert (rest + post)[..|rest + post| - 1] == rest + post[..|post| - 1];
      TrimEndSkips(rest, post[..|post| - 1]);
    }
  }

  /** `trim` gives back the text between leading and trailing whitespace. */
  lemma TrimAround(pre: string, w: string, post: string)
    requires forall i :: 0 <= i < |pre| ==> IsWhitespace(pre[i])
    requires forall i :: 0 <= i < |post| ==> IsWhitespace(post[i])
    requires w != [] && !IsWhitespace(w[0]) && !IsWhitespace(w[|w| - 1])
    ensures Trim(pre + w + post) == w
  {
    assert pre + w + post == pre + (w + post);
    TrimStartSkips(pre, w + post);
    TrimEndSkips(w, post);
  }

  /** The ASCII lowercase of one character. */
  function LowerChar(c: char): (r: char)
    ensures !('A' <= r <= 'Z')
    ensures !('A' <= c <= 'Z') ==> r == c
  {
    if 'A' <= c <= 'Z' then (c as int - 'A' as int + 'a' as int) as char else c
  }

  /** `str::to_lowercase`, read as ASCII. */
  function ToLower(s: string): (r: string)
    ensures |r| == |s|
    ensures forall i :: 0 <= i < |s| ==> r[i] == LowerChar(s[i])
  {
    if s == [] then [] else [LowerChar(s[0])] + ToLower(s[1..])
  }

  /** A word of `split_whitespace`: non-empty and free of whitespace. */
  predicate IsToken(w: string) {
    |w| > 0 && forall i :: 0 <= i < |w| ==> !IsWhitespace(w[i])
  }

  /** The length of the run of non-whitespace characters that starts `s`. */
  function TokenLength(s: string): (k: nat)
    ensures k <= |s|
    ensures forall i :: 0 <= i < k ==> !IsWhitespace(s[i])
    ensures k < |s| ==> IsWhitespace(s[k])
    decreases |s|
  {
    if s == [] || IsWhitespace(s[0]) then 0 else 1 + TokenLength(s[1..])
  }

  /** `str::split_whitespace().collect()`: the maximal whitespace-free runs, in order. */
  function SplitWhitespace(s: string): (r: seq<string>)
    ensures forall k :: 0 <= k < |r| ==> IsToken(r[k])
    decreases |s|
  {
    var t := TrimStart(s);
    if t == [] then []
    else
      var k := TokenLength(t);
      [t[..k]] + SplitWhitespace(t[k..])
  }

  /** The words joined by single spaces: the inverse of `SplitWhitespace`. */
  function JoinWords(words: seq<string>): (r: string) {
    if |words| == 0 then ""
    else if |words| == 1 then words[0]
    else words[0] + " " + JoinWords(words[1..])
  }

  /** Splitting yields nothing exactly when the text is all whitespace (or empty). */
  lemma SplitWhitespaceEmptyIff(s: string)
    ensures SplitWhitespace(s) == [] <==> forall i :: 0 <= i < |s| ==> IsWhitespace(s[i])
  {
    var t := TrimStart(s);
    if t != [] {
      assert t[0] == s[|s| - |t|];
    }
    forall i | 0 <= i < |s| - |t| ensures IsWhitespace(s[i]) {
      TrimStartDropsWhitespace(s, i);
    }
  }

  lemma TokenLengthOfWord(w: string, rest: string)
    requires IsToken(w)
    requires rest == [] || IsWhitespace(rest[0])
    ensures TokenLength(w + rest) == |w|
    decreases |w|
  {
    if |w| > 1 {
      assert (w + rest)[1..] == w[1..] + rest;
      TokenLengthOfWord(w[1..], rest);
    } else {
      assert (w + rest)[1..] == rest;
    }
  }

  /** A word followed by nothing or by whitespace is split off first. */
  lemma SplitWordThen(w: string, rest: string)
    requires IsToken(w)
    requires rest == [] || IsWhitespace(rest[0])
    ensures SplitWhitespace(w + rest) == [w] + SplitWhitespace(rest)
  {
    var s := w + rest;
    assert TrimStart(s) == s;
    TokenLengthOfWord(w, rest);
    assert s[..|w|] == w && s[|w|..] == rest;
  }

  /** Splitting ignores one leading space before a word. */
  lemma SplitSkipsSpace(j: string)
    requires j == [] || !IsWhitespace(j[0])
    ensures SplitWhitespace(" " + j) == SplitWhitespace(j)
  {
    assert (" " + j)[1..] == j;
    assert TrimStart(" " + j) == TrimStart(j) == j;
  }

  /** Splitting words joined by spaces gives the words back. */
  lemma {:induction false} SplitJoinRoundTrip(words: seq<string>)
    requires forall k :: 0 <= k < |words| ==> IsToken(words[k])
    ensures SplitWhitespace(JoinWords(words)) == words
  {
    if |words| == 0 {
      assert SplitWhitespace("") == [];
    } else if |words| == 1 {
      SplitJoinSingle(words);
    } else {
      SplitJoinRoundTrip(words[1..]);
      JoinWordsStart(words[1..]);
      assert IsToken(words[0]);
      SplitJoinStep(words[0], words[1..]);
      assert words == [words[0]] + words[1..];
    }
  }

  lemma SplitJoinSingle(words: seq<string>)
    requires |words| == 1 && IsToken(words[0])
    ensures SplitWhitespace(JoinWords(words)) == words
  {
    var w := words[0];
    assert SplitWhitespace(w) == [w] by {
      SplitWordThen(w, "");
      assert w + "" == w;
      assert SplitWhitespace("") == [];
    }
    assert words == [w];
  }

  lemma SplitJoinStep(w: string, rest: seq<string>)
    requires |rest| > 0 && IsToken(w)
    requires JoinWords(rest) == [] || !IsWhitespace(JoinWords(rest)[0])
    requires SplitWhitespace(JoinWords(rest)) == rest
    ensures SplitWhitespace(JoinWords([w] + rest)) == [w] + rest
  {
    JoinWordsCons(w, rest);
    SplitWordSpaceRest(w, JoinWords(rest), rest);
  }

  lemma JoinWordsCons(w: string, rest: seq<string>)
    requires |rest| > 0
    ensures JoinWords([w] + rest) == w + " " + JoinWords(rest)
  {
    assert ([w] + rest)[1..] == rest;
  }

  lemma SplitWordSpaceRest(w: string, j: string, rest: seq<string>)
    requires IsToken(w)
    requires j == [] || !IsWhitespace(j[0])
    requires SplitWhitespace(j) == rest
    ensures SplitWhitespace(w + " " + j) == [w] + rest
  {
    SplitWordSpaceThen(w, j);
  }


  /** A word, a space and text that starts with no whitespace: the word comes first. */
  lemma SplitWordSpaceThen(w: string, j: string)
    requires IsToken(w)
    requires j == [] || !IsWhitespace(j[0])
    ensures SplitWhitespace(w + " " + j) == [w] + SplitWhitespace(j)
  {
    assert w + " " + j == w + (" " + j);
    SplitWordThen(w, " " + j);
    SplitSkipsSpace(j);
  }

  lemma {:induction false} JoinWordsStart(words: seq<string>)
    requires |words| > 0 && forall k :: 0 <= k < |words| ==> IsToken(words[k])
    ensures JoinWords(words) != [] && !IsWhitespace(JoinWords(words)[0])
  {
    assert IsToken(words[0]);
    if |words| > 1 {
      assert JoinWords(words) == words[0] + " " + JoinWords(words[1..]);
      assert JoinWords(words)[0] == words[0][0];
    }
  }
}
