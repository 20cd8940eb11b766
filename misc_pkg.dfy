/**
 * Package misc (misc/misc.go): line-break clean-up for contenteditable input,
 * the 15-word excerpt, the int64-based session checks and the route root.
 */
module Misc {
  import opened Wrappers
  import opened Text
  import opened Web

  /** How many words an excerpt keeps. */
  const ExcerptLength: nat := 15

  /** The markup line breaks Cleanup turns into "\n", in the order it replaces them. */
  const BreakTags: seq<string> := ["</p>", "<br>", "</br>", "<br/>"]

  // ---------------------------------------------------------------------------
  // Cleanup
  // ---------------------------------------------------------------------------

  /** Replaces every tag of tags by "\n", one tag after the other. */
  function ReplaceEach(s: string, tags: seq<string>): string
    requires forall i :: 0 <= i < |tags| ==> tags[i] != []
    decreases |tags|
  {
    if tags == [] then s else ReplaceEach(ReplaceAll(s, tags[0], "\n"), tags[1..])
  }

  /** How many tag occurrences ReplaceEach replaces in all. */
  function TagsReplaced(s: string, tags: seq<string>): nat
    requires forall i :: 0 <= i < |tags| ==> tags[i] != []
    decreases |tags|
  {
    if tags == [] then 0
    else Replacements(s, tags[0]) + TagsReplaced(ReplaceAll(s, tags[0], "\n"), tags[1..])
  }

  /**
   * Cleanup: drop every "\n", then turn each markup line break into "\n";
   * none of the four tags is left in the result.
   */
  function Cleanup(s: string): (r: string)
    ensures forall i :: 0 <= i < |BreakTags| ==> !Contains(r, BreakTags[i])
  {
    ReplaceEachRemoves(ReplaceAll(s, "\n", ""), BreakTags);
    ReplaceEach(ReplaceAll(s, "\n", ""), BreakTags)
  }

  /** Once absent, a newline-free text stays absent through the remaining replacements. */
  lemma {:induction false} ReplaceEachKeepsAbsent(s: string, tags: seq<string>, x: string)
    requires forall i :: 0 <= i < |tags| ==> tags[i] != []
    requires x != [] && '\n' !in x && !Contains(s, x)
    ensures !Contains(ReplaceEach(s, tags), x)
    decreases |tags|
  {
    if tags != [] {
      ReplaceKeepsAbsent(s, tags[0], x);
      ReplaceEachKeepsAbsent(ReplaceAll(s, tags[0], "\n"), tags[1..], x);
    }
  }

  /** None of the replaced tags is left in the result. */
  lemma {:induction false} ReplaceEachRemoves(s: string, tags: seq<string>)
    requires forall i :: 0 <= i < |tags| ==> tags[i] != [] && '\n' !in tags[i]
    ensures forall i :: 0 <= i < |tags| ==> !Contains(ReplaceEach(s, tags), tags[i])
    decreases |tags|
  {
    if tags != [] {
      var s' := ReplaceAll(s, tags[0], "\n");
      ReplaceRemoves(s, tags[0]);
      ReplaceEachKeepsAbsent(s', tags[1..], tags[0]);
      ReplaceEachRemoves(s', tags[1..]);
      forall i | 1 <= i < |tags|
        ensures !Contains(ReplaceEach(s, tags), tags[i])
      {
        assert tags[i] == tags[1..][i - 1];
      }
    }
  }

  /** Every newline ReplaceEach adds stands for one replaced tag. */
  lemma {:induction false} ReplaceEachNewlines(s: string, tags: seq<string>)
    requires forall i :: 0 <= i < |tags| ==> tags[i] != [] && '\n' !in tags[i]
    ensures Newlines(ReplaceEach(s, tags)) == Newlines(s) + TagsReplaced(s, tags)
    decreases |tags|
  {
    if tags != [] {
      ReplaceNewlines(s, tags[0]);
      ReplaceEachNewlines(ReplaceAll(s, tags[0], "\n"), tags[1..]);
    }
  }

  lemma {:induction false} ReplaceEachAbsent(s: string, tags: seq<string>)
    requires forall i :: 0 <= i < |tags| ==> tags[i] != [] && !Contains(s, tags[i])
    ensures ReplaceEach(s, tags) == s
    decreases |tags|
  {
    if tags != [] {
      ReplaceAbsent(s, tags[0], "\n");
      assert forall i :: 0 <= i < |tags[1..]| ==> tags[1..][i] == tags[i + 1];
      ReplaceEachAbsent(s, tags[1..]);
    }
  }

  lemma {:induction false} ContainsChar(s: string, c: char)
    ensures Contains(s, [c]) ==> c in s
    decreases |s|
  {
    if |s| >= 1 {
      if s[..1] == [c] {
        assert s[0] == s[..1][0];
      } else {
        ContainsChar(s[1..], c);
      }
    }
  }

  /** Cleanup first deletes every "\n"; afterwards each "\n" in the output stands for exactly one replaced tag. */
  lemma CleanupNewlines(s: string)
    ensures '\n' !in ReplaceAll(s, "\n", "")
    ensures Newlines(Cleanup(s)) == TagsReplaced(ReplaceAll(s, "\n", ""), BreakTags)
  {
    var stripped := ReplaceAll(s, "\n", "");
    DeleteNewlines(s);
    assert Newlines(stripped) == 0;
    ReplaceEachNewlines(stripped, BreakTags);
  }

  /** Text with no newline and no markup line break passes through unchanged. */
  lemma CleanupIdentity(s: string)
    requires '\n' !in s
    requires forall i :: 0 <= i < |BreakTags| ==> !Contains(s, BreakTags[i])
    ensures Cleanup(s) == s
  {
    ContainsChar(s, '\n');
    ReplaceAbsent(s, "\n", "");
    ReplaceEachAbsent(s, BreakTags);
  }

  // ---------------------------------------------------------------------------
  // Excerpt
  // ---------------------------------------------------------------------------

  /** The excerpt before sanitising: the first 15 words, single-space joined. */
  function ExcerptText(input: string): string {
    JoinSpace(FirstWords(input, ExcerptLength))
  }

  /**
   * Excerpt: scan words while fewer than 15 are kept, write each followed by a
   * space, trim, then sanitise. `sanitize` stands for sanitize.HTML.
   */
  method Excerpt(input: string, sanitize: string -> string) returns (r: string)
    ensures r == sanitize(ExcerptText(input))
  {
    ghost var all := Words(input);
    assert input[0..] == input;
    var count, excerpt := 0, "";
    var found, word, next := ScanWord(input, 0);
    while found && count < ExcerptLength
      invariant 0 <= next <= |input|
      invariant count <= ExcerptLength && count <= |all|
      invariant excerpt == Terminated(all[..count])
      invariant found <==> count < |all|
      invariant found ==> word == all[count] && Words(input[next..]) == all[count + 1..]
      invariant !found ==> Words(input[next..]) == all[count..]
    {
      count := count + 1;
      assert all[..count][..count - 1] == all[..count - 1];
      excerpt := excerpt + word + " ";
      found, word, next := ScanWord(input, next);
    }
    assert all[..count] == FirstWords(input, ExcerptLength);
    TrimTerminated(all[..count]);
    r := sanitize(TrimSpace(excerpt));
  }

  /** Re-scanning the excerpt gives back the first 15 words, and it neither starts nor ends with white space. */
  lemma ExcerptKeepsFirstWords(input: string)
    ensures Words(ExcerptText(input)) == FirstWords(input, ExcerptLength)
    ensures |Words(ExcerptText(input))| <= ExcerptLength
    ensures var e := ExcerptText(input); e == [] || (!IsSpace(e[0]) && !IsSpace(e[|e| - 1]))
  {
    var ws := FirstWords(input, ExcerptLength);
    WordsOfJoin(ws);
    if ws != [] {
      JoinEnds(ws);
    }
  }

  // ---------------------------------------------------------------------------
  // Sessions
  // ---------------------------------------------------------------------------

  /** sessionIsAlive: the "user" value holds an int64. */
  function SessionIsAlive(session: Session): (alive: bool)
    reads session
    ensures alive <==> "user" in session.values && session.values["user"].GoInt64?
  {
    session.Get("user").Some? && session.Get("user").value.GoInt64?
  }

  /**
   * The handler Sessionchecker returns: an int64 "user" is left alone,
   * anything else (nothing included) becomes the Go int -1, which is not an
   * int64, so the handler never makes a session alive.
   */
  method Sessionchecker(session: Session)
    modifies session
    ensures old(SessionIsAlive(session)) ==> session.values == old(session.values)
    ensures !old(SessionIsAlive(session)) ==> session.values == old(session.values)["user" := GoInt(-1)]
    ensures SessionIsAlive(session) == old(SessionIsAlive(session))
    ensures "user" in session.values
  {
    var data := session.Get("user");
    if data.Some? && data.value.GoInt64? {
      return;
    }
    session.Set("user", GoInt(-1));
  }

  /** SessionRedirect: redirect a live session to /user, leave other requests alone. */
  method SessionRedirect(session: Session) returns (response: Response)
    ensures response == if SessionIsAlive(session) then Redirect("/user", 302) else Untouched
  {
    response := Untouched;
    if SessionIsAlive(session) {
      response := Redirect("/user", 302);
    }
  }

  /** ProtectedPage: a session that is not alive loses its "user" key and gets a 401. */
  method ProtectedPage(session: Session) returns (response: Response)
    modifies session
    ensures old(SessionIsAlive(session)) ==> response == Untouched && session.values == old(session.values)
    ensures !old(SessionIsAlive(session)) ==> response == Json(401) && session.values == old(session.values) - {"user"}
    ensures "user" in session.values ==> SessionIsAlive(session)
  {
    response := Untouched;
    if !SessionIsAlive(session) {
      session.Delete("user");
      response := Json(401);
    }
  }

  // ---------------------------------------------------------------------------
  // Root
  // ---------------------------------------------------------------------------

  /**
   * Root: strip the configured base path, drop the next character (the "/"
   * after it) and keep what precedes the following "/". Indexing u[1:] panics
   * on an empty remainder, so the caller must supply a non-empty one.
   */
  function Root(url: string, basePath: string): (r: string)
    requires TrimPrefix(url, basePath) != []
    ensures '/' !in r
    ensures var rest := TrimPrefix(url, basePath)[1..]; r <= rest && (r == rest || rest[|r|] == '/')
  {
    FirstSegment(TrimPrefix(url, basePath)[1..])
  }

  /** After the base path and its "/", the text up to the next "/" is the root. */
  lemma {:induction false} RootAfterBase(basePath: string, a: string, b: string)
    requires '/' !in a
    ensures Root(basePath + "/" + a + "/" + b, basePath) == a
  {
    var url := basePath + "/" + a + "/" + b;
    assert url == basePath + ("/" + a + "/" + b);
    assert TrimPrefix(url, basePath) == "/" + a + "/" + b;
    assert ("/" + a + "/" + b)[1..] == a + "/" + b;
    FirstSegmentBeforeSlash(a, b);
  }

  /** The documented example: "/api/user/<id>" has root "api". */
  lemma RootExample(id: string)
    ensures Root("/api/user/" + id, "") == "api"
  {
    assert "" + "/" + "api" + "/" + ("user/" + id) == "/api/user/" + id;
    RootAfterBase("", "api", "user/" + id);
  }

  /** With a base path, the segment after it is the root. */
  lemma RootExampleWithBase()
    ensures Root("/blog/post/hello", "/blog") == "post"
  {
    assert "/blog" + "/" + "post" + "/" + "hello" == "/blog/post/hello";
    RootAfterBase("/blog", "post", "hello");
  }
}
