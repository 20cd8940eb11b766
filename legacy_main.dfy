/**
 * The older helpers of main.go. Its SessionIsAlive, SessionRedirect and
 * ProtectedPage are the same code as those of misc.go and are modelled once,
 * in RootMisc; what is its own is the first Excerpt, which neither trims nor
 * sanitises.
 */
module LegacyMain {
  import opened Text
  import Misc

  /** What the old Excerpt returns: each of the first 15 words followed by one space. */
  function ExcerptText(input: string): string {
    Terminated(FirstWords(input, Misc.ExcerptLength))
  }

  /** Excerpt: concatenate `word + " "` while fewer than 15 words are kept. */
  method Excerpt(input: string) returns (excerpt: string)
    ensures excerpt == ExcerptText(input)
  {
    ghost var all := Words(input);
    assert input[0..] == input;
    var count := 0;
    excerpt := "";
    var found, word, next := ScanWord(input, 0);
    while found && count < Misc.ExcerptLength
      invariant 0 <= next <= |input|
      invariant count <= Misc.ExcerptLength && count <= |all|
      invariant excerpt == Terminated(all[..count])
      invariant found <==> count < |all|
      invariant found ==> word == all[count] && Words(input[next..]) == all[count + 1..]
      invariant !found ==> Words(input[next..]) == all[count..]
    {
      count := count + 1;
      assert all[..count][..count - 1] == all[..count - 1];
      excerpt := excerpt + word + " ";
      found, word, next := ScanWord(input, next);
    }
    assert all[..count] == FirstWords(input, Misc.ExcerptLength);
  }

  /** Re-scanning the old excerpt gives the first (at most 15) words of the input, in order. */
  lemma ExcerptWords(input: string)
    ensures Words(ExcerptText(input)) == FirstWords(input, Misc.ExcerptLength)
    ensures |Words(ExcerptText(input))| <= Misc.ExcerptLength
    ensures Words(ExcerptText(input)) <= Words(input)
  {
    WordsOfTerminated(FirstWords(input, Misc.ExcerptLength));
  }

  /** The old excerpt is empty exactly when the input has no words, and otherwise ends in " ". */
  lemma {:induction false} ExcerptTrailingSpace(input: string)
    ensures ExcerptText(input) == [] <==> Words(input) == []
    ensures ExcerptText(input) != [] ==> ExcerptText(input)[|ExcerptText(input)| - 1] == ' '
  {
    var ws := FirstWords(input, Misc.ExcerptLength);
    if ws != [] {
      TerminatedIsJoin(ws);
    }
  }

  /** No trimming or sanitising: a single word, markup and all, comes back with one space after it. */
  lemma ExcerptKeepsMarkup(w: string)
    requires IsWord(w)
    ensures ExcerptText(w) == w + " "
  {
    WordsOfWord(w);
    assert FirstWords(w, Misc.ExcerptLength) == [w];
    assert [w][..0] == [];
    assert Terminated([w]) == Terminated([]) + w + " ";
  }

  /** The newer Excerpt, before sanitising, is the old one with the trailing space trimmed. */
  lemma TrimmedIsNewExcerpt(input: string)
    ensures TrimSpace(ExcerptText(input)) == Misc.ExcerptText(input)
  {
    TrimTerminated(FirstWords(input, Misc.ExcerptLength));
  }
}
