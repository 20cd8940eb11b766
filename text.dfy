/**
 * The parts of Go's standard library that the blog core leans on, stated on
 * strings of code points: bufio.ScanWords (Words, ScanWord), strings.Join with
 * a single space (JoinSpace), strings.TrimSpace, strings.Replace with n = -1
 * (ReplaceAll), strings.TrimPrefix and the first field of strings.Split on "/"
 * (FirstSegment).
 */
module Text {

  /** White space as bufio.ScanWords and strings.TrimSpace recognise it (unicode.IsSpace). */
  predicate IsSpace(c: char) {
    || ('\t' <= c <= '\r')
    || c == ' ' || c == '\U{0085}' || c == '\U{00A0}' || c == '\U{1680}'
    || ('\U{2000}' <= c <= '\U{200A}')
    || c == '\U{2028}' || c == '\U{2029}' || c == '\U{202F}' || c == '\U{205F}' || c == '\U{3000}'
  }

  /** A token bufio.ScanWords can yield: non-empty and free of white space. */
  predicate IsWord(w: string) {
    w != [] && forall i :: 0 <= i < |w| ==> !IsSpace(w[i])
  }

  predicate AllWords(ws: seq<string>) {
    forall i :: 0 <= i < |ws| ==> IsWord(ws[i])
  }

  // ---------------------------------------------------------------------------
  // Word scanning
  // ---------------------------------------------------------------------------

  /** Length of the maximal white-space-free run that starts s. */
  function WordLen(s: string): (n: nat)
    ensures n <= |s|
    ensures forall i :: 0 <= i < n ==> !IsSpace(s[i])
    ensures n < |s| ==> IsSpace(s[n])
  {
    if s == [] || IsSpace(s[0]) then 0 else 1 + WordLen(s[1..])
  }

  /** The tokens bufio.ScanWords yields from s, in order. */
  function Words(s: string): (ws: seq<string>)
    ensures AllWords(ws)
    decreases |s|
  {
    if s == [] then []
    else if IsSpace(s[0]) then Words(s[1..])
    else [s[..WordLen(s)]] + Words(s[WordLen(s)..])
  }

  /** The first n words of s (all of them when there are fewer). */
  function FirstWords(s: string, n: nat): (ws: seq<string>)
    ensures |ws| == if |Words(s)| <= n then |Words(s)| else n
    ensures ws <= Words(s) && AllWords(ws)
  {
    if |Words(s)| <= n then Words(s) else Words(s)[..n]
  }

  /**
   * One call of Scanner.Scan with the ScanWords split function on s from
   * position pos: skip white space, then take the run up to the next white
   * space. The token is the first remaining word, and the words after `next`
   * are the remaining words but that one.
   */
  method ScanWord(s: string, pos: nat) returns (found: bool, token: string, next: nat)
    requires pos <= |s|
    ensures pos <= next <= |s|
    ensures found <==> Words(s[pos..]) != []
    ensures found ==> token == Words(s[pos..])[0] && Words(s[next..]) == Words(s[pos..])[1..]
    ensures !found ==> next == |s|
  {
    var i := pos;
    while i < |s| && IsSpace(s[i])
      invariant pos <= i <= |s|
      invariant Words(s[i..]) == Words(s[pos..])
    {
      WordsSkipSpace(s, i);
      i := i + 1;
    }
    if i == |s| {
      assert s[i..] == [];
      return false, "", i;
    }
    var j := i;
    while j < |s| && !IsSpace(s[j])
      invariant i <= j <= |s|
      invariant WordLen(s[i..]) == (j - i) + WordLen(s[j..])
    {
      WordLenStep(s, j);
      j := j + 1;
    }
    ScannedWord(s, pos, i, j);
    found, token, next := true, s[i..j], j;
  }

  /** The run s[i..j] that ends at white space or at the end is the first word left after pos. */
  lemma {:induction false} ScannedWord(s: string, pos: nat, i: nat, j: nat)
    requires pos <= i < j <= |s| && !IsSpace(s[i]) && (j == |s| || IsSpace(s[j]))
    requires Words(s[i..]) == Words(s[pos..])
    requires WordLen(s[i..]) == (j - i) + WordLen(s[j..])
    ensures Words(s[pos..]) != [] && Words(s[pos..])[0] == s[i..j]
    ensures Words(s[j..]) == Words(s[pos..])[1..]
  {
    WordLenAtEnd(s, j);
    WordsAtWord(s, i);
  }

  lemma WordLenAtEnd(s: string, j: nat)
    requires j <= |s| && (j == |s| || IsSpace(s[j]))
    ensures WordLen(s[j..]) == 0
  {
  }

  lemma {:induction false} WordsSkipSpace(s: string, i: nat)
    requires i < |s| && IsSpace(s[i])
    ensures Words(s[i..]) == Words(s[i + 1..])
  {
    assert s[i..][1..] == s[i + 1..];
  }

  lemma {:induction false} WordLenStep(s: string, j: nat)
    requires j < |s| && !IsSpace(s[j])
    ensures WordLen(s[j..]) == 1 + WordLen(s[j + 1..])
  {
    assert s[j..][1..] == s[j + 1..];
  }

  lemma {:induction false} WordsAtWord(s: string, i: nat)
    requires i < |s| && !IsSpace(s[i])
    ensures i + WordLen(s[i..]) <= |s|
    ensures Words(s[i..]) == [s[i..i + WordLen(s[i..])]] + Words(s[i + WordLen(s[i..])..])
  {
    var n := WordLen(s[i..]);
    assert s[i..][..n] == s[i..i + n];
    assert s[i..][n..] == s[i + n..];
  }

  lemma WordLenUnique(s: string, n: nat)
    requires n <= |s|
    requires forall i :: 0 <= i < n ==> !IsSpace(s[i])
    requires n < |s| ==> IsSpace(s[n])
    ensures WordLen(s) == n
  {
  }

  /** A single word scans as itself. */
  lemma WordsOfWord(w: string)
    requires IsWord(w)
    ensures Words(w) == [w]
  {
    WordLenUnique(w, |w|);
    assert w[..|w|] == w;
    assert w[|w|..] == [];
  }

  /** A white-space character separates the words on its two sides. */
  lemma {:induction false} WordsSplit(a: string, c: char, b: string)
    requires IsSpace(c)
    ensures Words(a + [c] + b) == Words(a) + Words(b)
    decreases |a|
  {
    var s := a + [c] + b;
    if a == [] {
      assert s[1..] == b;
    } else if IsSpace(a[0]) {
      assert s[1..] == a[1..] + [c] + b;
      WordsSplit(a[1..], c, b);
    } else {
      var n := WordLen(a);
      WordLenOfJoin(a, c, b);
      assert s[..n] == a[..n];
      assert s[n..] == a[n..] + [c] + b;
      WordsSplit(a[n..], c, b);
      assert Words(s) == [a[..n]] + Words(a[n..] + [c] + b);
    }
  }

  /** The first word of a + [c] + b lies inside a when a does not start with white space. */
  lemma {:induction false} WordLenOfJoin(a: string, c: char, b: string)
    requires IsSpace(c) && a != [] && !IsSpace(a[0])
    ensures WordLen(a + [c] + b) == WordLen(a)
  {
    var s, n := a + [c] + b, WordLen(a);
    assert forall i :: 0 <= i < n ==> s[i] == a[i];
    if n < |a| {
      assert s[n] == a[n];
    } else {
      assert s[n] == c;
    }
    WordLenUnique(s, n);
  }

  // ---------------------------------------------------------------------------
  // Joining words
  // ---------------------------------------------------------------------------

  /** strings.Join(ws, " "). */
  function JoinSpace(ws: seq<string>): string
  {
    if ws == [] then ""
    else if |ws| == 1 then ws[0]
    else JoinSpace(ws[..|ws| - 1]) + " " + ws[|ws| - 1]
  }

  /** What a loop that writes `word + " "` per word accumulates. */
  function Terminated(ws: seq<string>): string
  {
    if ws == [] then "" else Terminated(ws[..|ws| - 1]) + ws[|ws| - 1] + " "
  }

  lemma {:induction false} TerminatedIsJoin(ws: seq<string>)
    requires ws != []
    ensures Terminated(ws) == JoinSpace(ws) + " "
  {
    if |ws| == 1 {
      assert ws[..0] == [];
    } else {
      TerminatedIsJoin(ws[..|ws| - 1]);
    }
  }

  /** A non-empty join of words starts with the first word's first character and ends with the last word's last. */
  lemma {:induction false} JoinEnds(ws: seq<string>)
    requires ws != [] && AllWords(ws)
    ensures JoinSpace(ws) != []
    ensures JoinSpace(ws)[0] == ws[0][0]
    ensures JoinSpace(ws)[|JoinSpace(ws)| - 1] == ws[|ws| - 1][|ws[|ws| - 1]| - 1]
  {
    if |ws| > 1 {
      var init := ws[..|ws| - 1];
      assert AllWords(init) by {
        forall i | 0 <= i < |init| ensures IsWord(init[i]) {
          assert init[i] == ws[i];
        }
      }
      JoinEnds(init);
    }
  }

  /** Round trip: re-scanning a space-joined list of words gives the list back. */
  lemma {:induction false} WordsOfJoin(ws: seq<string>)
    requires AllWords(ws)
    ensures Words(JoinSpace(ws)) == ws
  {
    if |ws| == 1 {
      WordsOfWord(ws[0]);
    } else if |ws| > 1 {
      var init := ws[..|ws| - 1];
      assert AllWords(init) by {
        forall i | 0 <= i < |init| ensures IsWord(init[i]) {
          assert init[i] == ws[i];
        }
      }
      WordsOfJoin(init);
      WordsSplit(JoinSpace(init), ' ', ws[|ws| - 1]);
      WordsOfWord(ws[|ws| - 1]);
      assert JoinSpace(init) + " " + ws[|ws| - 1] == JoinSpace(init) + [' '] + ws[|ws| - 1];
    }
  }

  /** Round trip for the space-terminated form. */
  lemma WordsOfTerminated(ws: seq<string>)
    requires AllWords(ws)
    ensures Words(Terminated(ws)) == ws
  {
    if ws != [] {
      TerminatedIsJoin(ws);
      WordsOfJoin(ws);
      WordsSplit(JoinSpace(ws), ' ', []);
      assert JoinSpace(ws) + " " == JoinSpace(ws) + [' '] + [];
    }
  }

  // ---------------------------------------------------------------------------
  // strings.TrimSpace
  // ---------------------------------------------------------------------------

  function TrimLeft(s: string): (r: string)
    ensures r == [] || !IsSpace(r[0])
    ensures exists k :: 0 <= k <= |s| && r == s[k..]
    decreases |s|
  {
    if s != [] && IsSpace(s[0]) then
      var r := TrimLeft(s[1..]);
      var k :| 0 <= k <= |s[1..]| && r == s[1..][k..];
      assert r == s[k + 1..];
      r
    else
      assert s == s[0..];
      s
  }

  function TrimRight(s: string): (r: string)
    ensures r <= s
    ensures r == [] || !IsSpace(r[|r| - 1])
    decreases |s|
  {
    if s != [] && IsSpace(s[|s| - 1]) then TrimRight(s[..|s| - 1]) else s
  }

  /** strings.TrimSpace: neither end of the result is white space. */
  function TrimSpace(s: string): (r: string)
    ensures r == [] || (!IsSpace(r[0]) && !IsSpace(r[|r| - 1]))
  {
    TrimRight(TrimLeft(s))
  }

  /** Trimming a space-terminated list of words leaves their single-space join. */
  lemma TrimTerminated(ws: seq<string>)
    requires AllWords(ws)
    ensures TrimSpace(Terminated(ws)) == JoinSpace(ws)
  {
    if ws != [] {
      TerminatedIsJoin(ws);
      JoinEnds(ws);
      var j := JoinSpace(ws);
      var t := j + " ";
      assert TrimLeft(t) == t;
      assert t[..|t| - 1] == j;
      assert TrimRight(t) == TrimRight(j) == j;
    }
  }

  // ---------------------------------------------------------------------------
  // strings.Replace(s, pat, rep, -1)
  // ---------------------------------------------------------------------------

  /** x occurs somewhere in s as a contiguous piece. */
  predicate Contains(s: string, x: string)
    decreases |s|
  {
    |x| <= |s| && (s[..|x|] == x || Contains(s[1..], x))
  }

  /** Replaces every non-overlapping occurrence of pat, scanning left to right. */
  function ReplaceAll(s: string, pat: string, rep: string): string
    requires pat != []
    decreases |s|
  {
    if |s| < |pat| then s
    else if s[..|pat|] == pat then rep + ReplaceAll(s[|pat|..], pat, rep)
    else [s[0]] + ReplaceAll(s[1..], pat, rep)
  }

  /** How many occurrences ReplaceAll replaces. */
  function Replacements(s: string, pat: string): nat
    requires pat != []
    decreases |s|
  {
    if |s| < |pat| then 0
    else if s[..|pat|] == pat then 1 + Replacements(s[|pat|..], pat)
    else Replacements(s[1..], pat)
  }

  /** Newlines in s. */
  function Newlines(s: string): nat {
    multiset(s)['\n']
  }

  lemma {:induction false} ContainsSuffix(s: string, k: nat, x: string)
    requires k <= |s|
    requires Contains(s[k..], x)
    ensures Contains(s, x)
    decreases k
  {
    if k > 0 {
      assert s[1..][k - 1..] == s[k..];
      ContainsSuffix(s[1..], k - 1, x);
    }
  }

  /** Without an occurrence of pat, ReplaceAll leaves s as it is. */
  lemma {:induction false} ReplaceAbsent(s: string, pat: string, rep: string)
    requires pat != [] && !Contains(s, pat)
    ensures ReplaceAll(s, pat, rep) == s
    decreases |s|
  {
    if |s| >= |pat| {
      ReplaceAbsent(s[1..], pat, rep);
    }
  }

  /**
   * A newline-free prefix of the result of replacing by "\n" was already a
   * prefix of the input: replacement text never extends a piece of text that
   * has no newline.
   */
  lemma {:induction false} PrefixBeforeNewline(s: string, pat: string, p: string)
    requires pat != []
    ensures '\n' !in p && p <= ReplaceAll(s, pat, "\n") ==> p <= s
    decreases |s|
  {
    if |s| >= |pat| && p != [] {
      if s[..|pat|] == pat {
        assert p[0] in p;
      } else {
        PrefixBeforeNewline(s[1..], pat, p[1..]);
      }
    }
  }

  /** Replacing by "\n" never creates an occurrence of a newline-free x. */
  lemma {:induction false} ReplaceKeepsAbsent(s: string, pat: string, x: string)
    requires pat != [] && x != [] && '\n' !in x
    requires !Contains(s, x)
    ensures !Contains(ReplaceAll(s, pat, "\n"), x)
    decreases |s|
  {
    var r := ReplaceAll(s, pat, "\n");
    if |s| >= |pat| {
      if s[..|pat|] == pat {
        if Contains(s[|pat|..], x) { ContainsSuffix(s, |pat|, x); }
        ReplaceKeepsAbsent(s[|pat|..], pat, x);
        assert x[0] in x;
        assert r[1..] == ReplaceAll(s[|pat|..], pat, "\n");
      } else {
        ReplaceKeepsAbsent(s[1..], pat, x);
        if |x| <= |r| && r[..|x|] == x {
          PrefixBeforeNewline(s, pat, x);
        }
        assert r[1..] == ReplaceAll(s[1..], pat, "\n");
      }
    }
  }

  /** After replacing a newline-free pattern by "\n", no occurrence of it is left. */
  lemma {:induction false} ReplaceRemoves(s: string, pat: string)
    requires pat != [] && '\n' !in pat
    ensures !Contains(ReplaceAll(s, pat, "\n"), pat)
    decreases |s|
  {
    var r := ReplaceAll(s, pat, "\n");
    if |s| >= |pat| {
      if s[..|pat|] == pat {
        ReplaceRemoves(s[|pat|..], pat);
        assert pat[0] in pat;
        assert r[1..] == ReplaceAll(s[|pat|..], pat, "\n");
      } else {
        ReplaceRemoves(s[1..], pat);
        if |pat| <= |r| && r[..|pat|] == pat {
          PrefixBeforeNewline(s, pat, pat);
        }
        assert r[1..] == ReplaceAll(s[1..], pat, "\n");
      }
    }
  }

  /** Each replacement by "\n" adds exactly one newline. */
  lemma {:induction false} ReplaceNewlines(s: string, pat: string)
    requires pat != [] && '\n' !in pat
    ensures Newlines(ReplaceAll(s, pat, "\n")) == Newlines(s) + Replacements(s, pat)
    decreases |s|
  {
    if |s| >= |pat| {
      if s[..|pat|] == pat {
        ReplaceNewlines(s[|pat|..], pat);
        NewlinesAtMatch(s, pat);
      } else {
        ReplaceNewlines(s[1..], pat);
        NewlinesPastChar(s, pat);
      }
    }
  }

  lemma {:induction false} NewlinesAtMatch(s: string, pat: string)
    requires pat != [] && '\n' !in pat && |s| >= |pat| && s[..|pat|] == pat
    requires Newlines(ReplaceAll(s[|pat|..], pat, "\n")) == Newlines(s[|pat|..]) + Replacements(s[|pat|..], pat)
    ensures Newlines(ReplaceAll(s, pat, "\n")) == Newlines(s) + Replacements(s, pat)
  {
    assert s == s[..|pat|] + s[|pat|..];
    assert multiset(pat)['\n'] == 0;
  }

  lemma {:induction false} NewlinesPastChar(s: string, pat: string)
    requires pat != [] && |s| >= |pat| && s[..|pat|] != pat
    requires Newlines(ReplaceAll(s[1..], pat, "\n")) == Newlines(s[1..]) + Replacements(s[1..], pat)
    ensures Newlines(ReplaceAll(s, pat, "\n")) == Newlines(s) + Replacements(s, pat)
  {
    var rest := s[1..];
    NewlinesConcat([s[0]], ReplaceAll(rest, pat, "\n"));
    assert s == [s[0]] + rest;
    NewlinesConcat([s[0]], rest);
  }

  lemma {:induction false} NewlinesConcat(a: string, b: string)
    ensures Newlines(a + b) == Newlines(a) + Newlines(b)
  {
    assert multiset(a + b) == multiset(a) + multiset(b);
  }

  /** Deleting every "\n" leaves none. */
  lemma {:induction false} DeleteNewlines(s: string)
    ensures '\n' !in ReplaceAll(s, "\n", "")
    decreases |s|
  {
    if |s| >= 1 {
      DeleteNewlines(s[1..]);
    }
  }

  // ---------------------------------------------------------------------------
  // strings.TrimPrefix and strings.Split(s, "/")[0]
  // ---------------------------------------------------------------------------

  function TrimPrefix(s: string, prefix: string): (r: string)
    ensures prefix <= s ==> prefix + r == s
    ensures !(prefix <= s) ==> r == s
  {
    if prefix <= s then s[|prefix|..] else s
  }

  /** strings.Split(s, "/")[0]: the text before the first "/", or all of s. */
  function FirstSegment(s: string): (r: string)
    ensures r <= s && '/' !in r
    ensures r == s || s[|r|] == '/'
  {
    if s == [] || s[0] == '/' then "" else [s[0]] + FirstSegment(s[1..])
  }

  lemma {:induction false} FirstSegmentBeforeSlash(a: string, b: string)
    requires '/' !in a
    ensures FirstSegment(a + "/" + b) == a
  {
    if a != [] {
      assert (a + "/" + b)[1..] == a[1..] + "/" + b;
      FirstSegmentBeforeSlash(a[1..], b);
    }
  }
}
