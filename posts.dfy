/**
 * Posts (posts.go): the RethinkDB "posts" table as a sequence of documents,
 * the CRUD operations on it, the listing of published posts, the on-site
 * search, and the state effects of the routes that read, edit, publish and
 * delete a post.
 */
module Posts {
  import opened Wrappers
  import opened Text
  import opened Tables
  import opened Web
  import Misc
  import RootMisc

  /** Go's uint on a 64-bit platform. */
  newtype Uint = x: int | 0 <= x < 0x1_0000_0000_0000_0000

  /** The Post structure; id is "" until the database has assigned one. */
  datatype Post = Post(
    date: int,
    title: string,
    author: string,
    content: string,
    excerpt: string,
    slug: string,
    published: bool,
    viewcount: Uint,
    id: string)

  /** The view count after one more view: uint addition wraps around. */
  function Successor(v: Uint): (r: Uint)
    ensures v as int < 0xFFFF_FFFF_FFFF_FFFF ==> r as int == v as int + 1
    ensures v as int == 0xFFFF_FFFF_FFFF_FFFF ==> r == 0
  {
    ((v as int + 1) % 0x1_0000_0000_0000_0000) as Uint
  }

  function IsPublished(p: Post): bool {
    p.published
  }

  /** The key of OrderBy(r.Desc("date")): a larger date comes first. */
  function NegDate(p: Post): int {
    -p.date
  }

  predicate SlugsUnique(docs: seq<Post>) {
    forall i, j :: 0 <= i < j < |docs| ==> docs[i].slug != docs[j].slug
  }

  // ---------------------------------------------------------------------------
  // The table as values
  // ---------------------------------------------------------------------------

  /** Where Filter(slug == slug) followed by One finds its document: the first with that slug. */
  function FirstWithSlug(docs: seq<Post>, slug: string): (r: Option<nat>)
    ensures r.Some? ==> r.value < |docs| && docs[r.value].slug == slug
    ensures r.Some? ==> forall j :: 0 <= j < r.value ==> docs[j].slug != slug
    ensures r.None? ==> forall j :: 0 <= j < |docs| ==> docs[j].slug != slug
    decreases |docs|
  {
    if docs == [] then None
    else if docs[0].slug == slug then Some(0)
    else
      match FirstWithSlug(docs[1..], slug)
      case None => None
      case Some(k) => Some(k + 1)
  }

  /** Two tables with the same slugs at the same places find the same index. */
  lemma {:induction false} FirstWithSlugBySlugs(a: seq<Post>, b: seq<Post>, slug: string)
    requires |a| == |b|
    requires forall i :: 0 <= i < |a| ==> a[i].slug == b[i].slug
    ensures FirstWithSlug(a, slug) == FirstWithSlug(b, slug)
    decreases |a|
  {
    if a != [] && a[0].slug != slug {
      FirstWithSlugBySlugs(a[1..], b[1..], slug);
    }
  }

  /** Post.Get: the first document with that slug, or "nothing was found". */
  function Lookup(docs: seq<Post>, slug: string): (r: Result<Post, string>)
    ensures r.Failure? <==> forall d :: d in docs ==> d.slug != slug
    ensures r.Failure? ==> r.error == "nothing was found"
    ensures r.Success? ==> r.value in docs && r.value.slug == slug
  {
    match FirstWithSlug(docs, slug)
    case None => Failure("nothing was found")
    case Some(k) => Success(docs[k])
  }

  /** With unique slugs, looking a document up by its slug gives that document. */
  lemma LookupUnique(docs: seq<Post>, d: Post)
    requires SlugsUnique(docs) && d in docs
    ensures Lookup(docs, d.slug) == Success(d)
  {
    var i :| 0 <= i < |docs| && docs[i] == d;
    var k := FirstWithSlug(docs, d.slug).value;
    assert k == i;
  }

  /** Filter(slug).Update(entry): every field of entry but the key, on every document with the slug. */
  function WriteAll(docs: seq<Post>, slug: string, entry: Post): (r: seq<Post>)
    ensures |r| == |docs|
    ensures forall i :: 0 <= i < |docs| ==> r[i].id == docs[i].id
    ensures forall i :: 0 <= i < |docs| && docs[i].slug == slug ==> r[i] == entry.(id := docs[i].id)
    ensures forall i :: 0 <= i < |docs| && docs[i].slug != slug ==> r[i] == docs[i]
  {
    seq(|docs|, i requires 0 <= i < |docs| => if docs[i].slug == slug then entry.(id := docs[i].id) else docs[i])
  }

  /** Filter(slug).Delete(): the documents with another slug, in order. */
  function Remove(docs: seq<Post>, slug: string): (r: seq<Post>)
    ensures forall d :: d in r <==> d in docs && d.slug != slug
    ensures forall d :: multiset(r)[d] == if d.slug != slug then multiset(docs)[d] else 0
    ensures Subsequence(r, docs)
    ensures KeysDistinct(docs) ==> KeysDistinct(r)
  {
    FilterKeepsKeysDistinct(docs, OtherSlug(slug));
    FilterIsSubsequence(docs, OtherSlug(slug));
    FilterMembers(docs, OtherSlug(slug));
    Filter(docs, OtherSlug(slug))
  }

  /** No two documents share a primary key. */
  ghost predicate KeysDistinct(docs: seq<Post>) {
    forall i, j :: 0 <= i < j < |docs| ==> docs[i].id != docs[j].id
  }

  /** Dropping documents keeps the keys of the rest distinct. */
  lemma {:induction false} FilterKeepsKeysDistinct(docs: seq<Post>, keep: Post -> bool)
    ensures KeysDistinct(docs) ==> KeysDistinct(Filter(docs, keep))
  {
    if docs != [] && KeysDistinct(docs) {
      var init, last := docs[..|docs| - 1], docs[|docs| - 1];
      FilterKeepsKeysDistinct(init, keep);
      FilterMembers(init, keep);
      var front := Filter(init, keep);
      forall d | d in front
        ensures d.id != last.id
      {
        var i :| 0 <= i < |init| && init[i] == d;
        assert docs[i] == d;
      }
      var tail := if keep(last) then [last] else [];
      assert Filter(docs, keep) == front + tail;
      forall i, j | 0 <= i < j < |front + tail|
        ensures (front + tail)[i].id != (front + tail)[j].id
      {
        if j >= |front| {
          assert (front + tail)[i] in front;
        }
      }
    }
  }

  function OtherSlug(slug: string): Post -> bool {
    (p: Post) => p.slug != slug
  }

  /** Get(id).Update({"viewcount": count + 1}) on the table. */
  function Bump(docs: seq<Post>, id: string, count: Uint): (r: seq<Post>)
    ensures |r| == |docs|
    ensures forall i :: 0 <= i < |docs| && docs[i].id == id ==> r[i] == docs[i].(viewcount := Successor(count))
    ensures forall i :: 0 <= i < |docs| && docs[i].id != id ==> r[i] == docs[i]
  {
    seq(|docs|, i requires 0 <= i < |docs| => if docs[i].id == id then docs[i].(viewcount := Successor(count)) else docs[i])
  }

  /** With distinct keys, Increment changes the one document with the key and no other. */
  lemma BumpChangesOne(docs: seq<Post>, k: int, count: Uint)
    requires KeysDistinct(docs) && 0 <= k < |docs|
    ensures Bump(docs, docs[k].id, count)[k] == docs[k].(viewcount := Successor(count))
    ensures forall i :: 0 <= i < |docs| && i != k ==> Bump(docs, docs[k].id, count)[i] == docs[i]
  {
  }

  /** OrderBy(r.Desc("date")), ties in table order. */
  function ByDateDesc(docs: seq<Post>): (r: seq<Post>)
    ensures multiset(r) == multiset(docs)
    ensures forall i, j :: 0 <= i < j < |r| ==> r[i].date >= r[j].date
    ensures forall i :: 0 <= i < |r| ==> r[i] in docs
  {
    var r := SortBy(docs, NegDate);
    assert forall i, j :: 0 <= i < j < |r| ==> NegDate(r[i]) <= NegDate(r[j]);
    assert forall i :: 0 <= i < |r| ==> r[i] in multiset(r);
    r
  }

  /** Each listed document as Get re-reads it by its slug. */
  function Refetched(docs: seq<Post>, s: seq<Post>): (r: seq<Post>)
    requires forall i :: 0 <= i < |s| ==> s[i] in docs
    ensures |r| == |s|
    ensures forall i :: 0 <= i < |s| ==> Lookup(docs, s[i].slug).Success? && r[i] == Lookup(docs, s[i].slug).value
  {
    if s == [] then []
    else Refetched(docs, s[..|s| - 1]) + [Lookup(docs, s[|s| - 1].slug).value]
  }

  lemma {:induction false} RefetchedStep(docs: seq<Post>, s: seq<Post>, i: nat)
    requires i < |s| && forall k :: 0 <= k < |s| ==> s[k] in docs
    ensures Refetched(docs, s[..i + 1]) == Refetched(docs, s[..i]) + [Lookup(docs, s[i].slug).value]
  {
    assert s[..i + 1][..i] == s[..i];
  }

  /** One more re-read document extends the published listing by that document when it is published. */
  lemma {:induction false} ListingStep(docs: seq<Post>, s: seq<Post>, i: nat, post: Post)
    requires i < |s| && forall k :: 0 <= k < |s| ==> s[k] in docs
    requires Lookup(docs, s[i].slug) == Success(post)
    ensures Filter(Refetched(docs, s[..i + 1]), IsPublished)
         == Filter(Refetched(docs, s[..i]), IsPublished) + (if post.published then [post] else [])
  {
    RefetchedStep(docs, s, i);
    FilterAppend(Refetched(docs, s[..i]), post, IsPublished);
  }

  /** What GetAll lists: the documents by descending date, each re-read by slug, kept when published. */
  function Listing(docs: seq<Post>): (r: seq<Post>)
    ensures forall i :: 0 <= i < |r| ==> r[i].published
  {
    Filter(Refetched(docs, ByDateDesc(docs)), IsPublished)
  }

  lemma {:induction false} RefetchedUnique(docs: seq<Post>, s: seq<Post>)
    requires SlugsUnique(docs)
    requires forall i :: 0 <= i < |s| ==> s[i] in docs
    ensures Refetched(docs, s) == s
  {
    forall i | 0 <= i < |s| ensures Refetched(docs, s)[i] == s[i] {
      LookupUnique(docs, s[i]);
    }
  }

  /**
   * With unique slugs GetAll lists exactly the published documents, each as
   * often as stored, newest first; drafts never appear whatever the slugs.
   */
  lemma GetAllListsPublished(docs: seq<Post>)
    requires SlugsUnique(docs)
    ensures Listing(docs) == Filter(ByDateDesc(docs), IsPublished)
    ensures multiset(Listing(docs)) == multiset(Filter(docs, IsPublished))
    ensures forall i, j :: 0 <= i < j < |Listing(docs)| ==> Listing(docs)[i].date >= Listing(docs)[j].date
  {
    var sorted := ByDateDesc(docs);
    RefetchedUnique(docs, sorted);
    var r := Filter(sorted, IsPublished);
    assert Listing(docs) == r;
    FilterPermutation(sorted, docs, IsPublished);
    NewestFirst(sorted);
  }

  /** Keeping the published posts of a newest-first sequence leaves it newest first. */
  lemma NewestFirst(sorted: seq<Post>)
    requires forall i, j :: 0 <= i < j < |sorted| ==> sorted[i].date >= sorted[j].date
    ensures var r := Filter(sorted, IsPublished);
      forall i, j :: 0 <= i < j < |r| ==> r[i].date >= r[j].date
  {
    assert SortedBy(sorted, NegDate);
    FilterKeepsSorted(sorted, IsPublished, NegDate);
    var r := Filter(sorted, IsPublished);
    assert forall i, j :: 0 <= i < j < |r| ==> NegDate(r[i]) <= NegDate(r[j]);
  }

  // ---------------------------------------------------------------------------
  // Search
  // ---------------------------------------------------------------------------

  /** Some word of s passes the Jaro-Winkler test against query (`similar` stands for a score of at least 0.9). */
  predicate SomeWordSimilar(s: string, query: string, similar: (string, string) -> bool) {
    exists i :: 0 <= i < |Words(s)| && similar(Words(s)[i], query)
  }

  /** A post matches when a content word does, or else a title word does. */
  predicate Matches(p: Post, query: string, similar: (string, string) -> bool) {
    SomeWordSimilar(p.content, query, similar) || SomeWordSimilar(p.title, query, similar)
  }

  function MatchesQuery(query: string, similar: (string, string) -> bool): Post -> bool {
    (p: Post) => Matches(p, query, similar)
  }

  /** Scan the words of s until one is similar to query. */
  method ScanSimilar(s: string, query: string, similar: (string, string) -> bool) returns (found: bool)
    ensures found <==> SomeWordSimilar(s, query, similar)
  {
    ghost var all := Words(s);
    ghost var k := 0;
    assert s[0..] == s;
    var more, word, next := ScanWord(s, 0);
    while more
      invariant 0 <= next <= |s| && 0 <= k <= |all|
      invariant more <==> k < |all|
      invariant more ==> word == all[k] && Words(s[next..]) == all[k + 1..]
      invariant forall j :: 0 <= j < k ==> !similar(all[j], query)
      decreases |s| - next, more
    {
      if similar(word, query) {
        return true;
      }
      k := k + 1;
      more, word, next := ScanWord(s, next);
    }
    found := false;
  }

  lemma {:induction false} SearchStep(posts: seq<Post>, i: nat, query: string, similar: (string, string) -> bool, found: bool)
    requires i < |posts|
    requires found <==> SomeWordSimilar(posts[i].content, query, similar) || SomeWordSimilar(posts[i].title, query, similar)
    ensures Filter(posts[..i + 1], MatchesQuery(query, similar))
      == Filter(posts[..i], MatchesQuery(query, similar)) + (if found then [posts[i]] else [])
  {
    assert posts[..i + 1] == posts[..i] + [posts[i]];
    FilterAppend(posts[..i], posts[i], MatchesQuery(query, similar));
  }

  /** A search result is a subsequence of the listing, holding exactly its matching posts, none more often than listed. */
  lemma SearchWithinListing(docs: seq<Post>, query: string, similar: (string, string) -> bool)
    ensures var r := Filter(Listing(docs), MatchesQuery(query, similar));
      && Subsequence(r, Listing(docs))
      && (forall p :: p in r <==> p in Listing(docs) && Matches(p, query, similar))
      && (forall p :: multiset(r)[p] <= multiset(Listing(docs))[p])
  {
    FilterIsSubsequence(Listing(docs), MatchesQuery(query, similar));
    FilterMembers(Listing(docs), MatchesQuery(query, similar));
  }

  // ---------------------------------------------------------------------------
  // Publishing and editing, as values
  // ---------------------------------------------------------------------------

  /** What PublishPost writes: the first document with the slug, published, onto every document with the slug. */
  function Publish(docs: seq<Post>, slug: string): (r: seq<Post>)
    requires FirstWithSlug(docs, slug).Some?
    ensures |r| == |docs|
    ensures forall i :: 0 <= i < |docs| ==> r[i].slug == docs[i].slug && r[i].id == docs[i].id
    ensures forall i :: 0 <= i < |docs| && docs[i].slug == slug ==>
      r[i] == docs[FirstWithSlug(docs, slug).value].(published := true, id := docs[i].id)
    ensures forall i :: 0 <= i < |docs| && docs[i].slug != slug ==> r[i] == docs[i]
  {
    var k := FirstWithSlug(docs, slug).value;
    WriteAll(docs, slug, docs[k].(published := true))
  }

  /** Publishing twice leaves the table as publishing once. */
  lemma PublishIdempotent(docs: seq<Post>, slug: string)
    requires FirstWithSlug(docs, slug).Some?
    ensures FirstWithSlug(Publish(docs, slug), slug) == FirstWithSlug(docs, slug)
    ensures Publish(Publish(docs, slug), slug) == Publish(docs, slug)
  {
    var once := Publish(docs, slug);
    FirstWithSlugBySlugs(once, docs, slug);
    var k := FirstWithSlug(docs, slug).value;
    assert once[k] == docs[k].(published := true);
  }

  /** With unique slugs, publishing changes the published flag of that one document and nothing else. */
  lemma PublishChangesOnlyFlag(docs: seq<Post>, slug: string)
    requires SlugsUnique(docs) && FirstWithSlug(docs, slug).Some?
    ensures var k := FirstWithSlug(docs, slug).value;
      && Publish(docs, slug)[k] == docs[k].(published := true)
      && forall i :: 0 <= i < |docs| && i != k ==> Publish(docs, slug)[i] == docs[i]
  {
  }

  /** The edit the route evidently means: new title and content, a fresh excerpt, everything else kept. */
  function Edited(stored: Post, form: Post, sanitize: string -> string): (r: Post)
    ensures r.(title := stored.title, content := stored.content, excerpt := stored.excerpt) == stored
    ensures r.title == form.title && r.content == form.content
    ensures r.excerpt == sanitize(Misc.ExcerptText(form.content))
  {
    stored.(title := form.title, content := form.content, excerpt := sanitize(Misc.ExcerptText(form.content)))
  }

  /**
   * What UpdatePost writes is the submitted post as bound from the request:
   * its Published flag is never bound, and a form carries no author. Once the
   * owner has edited a post this way it is a draft without an owner, and the
   * owner's next update is refused.
   */
  lemma UpdatePostOrphans(docs: seq<Post>, slug: string, form: Post, owner: string)
    requires FirstWithSlug(docs, slug).Some?
    requires !form.published && form.author == "" && owner != ""
    ensures var after := WriteAll(docs, slug, form.(slug := slug));
      && Lookup(after, slug).Success?
      && !Lookup(after, slug).value.published
      && Lookup(after, slug).value.author != owner
  {
    var after := WriteAll(docs, slug, form.(slug := slug));
    FirstWithSlugBySlugs(after, docs, slug);
  }

  /** After the intended edit the same document is found, with its owner, date, flag and view count. */
  lemma EditKeepsOwnership(docs: seq<Post>, slug: string, form: Post, sanitize: string -> string)
    requires FirstWithSlug(docs, slug).Some?
    ensures var stored := docs[FirstWithSlug(docs, slug).value];
      var after := WriteAll(docs, slug, Edited(stored, form, sanitize));
      && Lookup(after, slug).Success?
      && Lookup(after, slug).value == Edited(stored, form, sanitize)
      && Lookup(after, slug).value.author == stored.author
      && Lookup(after, slug).value.published == stored.published
      && Lookup(after, slug).value.date == stored.date
      && Lookup(after, slug).value.viewcount == stored.viewcount
  {
    var stored := docs[FirstWithSlug(docs, slug).value];
    var after := WriteAll(docs, slug, Edited(stored, form, sanitize));
    FirstWithSlugBySlugs(after, docs, slug);
  }

  // ---------------------------------------------------------------------------
  // The table
  // ---------------------------------------------------------------------------

  /** The "posts" table. Every stored document has a key, and no two share one. */
  class Table {
    var docs: seq<Post>

    ghost predicate Valid()
      reads this
    {
      && (forall d :: d in docs ==> d.id != "")
      && KeysDistinct(docs)
    }

    constructor (docs: seq<Post>)
      requires forall d :: d in docs ==> d.id != ""
      requires KeysDistinct(docs)
      ensures Valid()
      ensures this.docs == docs
    {
      this.docs := docs;
    }

    /** Post.Get for post.Slug. */
    function Get(slug: string): (r: Result<Post, string>)
      reads this
      ensures r.Failure? <==> forall d :: d in docs ==> d.slug != slug
      ensures r.Success? ==> r.value in docs && r.value.slug == slug
      ensures r.Success? ==> exists k :: 0 <= k < |docs| && docs[k] == r.value && forall j :: 0 <= j < k ==> docs[j].slug != slug
    {
      var r := Lookup(docs, slug);
      if r.Success? then
        var k := FirstWithSlug(docs, slug).value;
        assert docs[k] == r.value;
        r
      else r
    }

    /**
     * Post.Insert: `actor` is the id Person.Session resolves the session to
     * (or its error), `now` the Unix time, `key` the document's primary key
     * (one the database generates, unused in the table; the caller's ID is
     * stored under another field name and does not choose it), `sanitize` and
     * `slugify` stand for sanitize.HTML and slug.Make.
     */
    method Insert(post: Post, actor: Result<string, string>, now: int, key: string,
                  sanitize: string -> string, slugify: string -> string)
      returns (r: Result<Post, string>)
      requires Valid() && key != "" && forall d :: d in docs ==> d.id != key
      modifies this
      ensures Valid()
      ensures actor.Failure? ==> r == Failure(actor.error) && docs == old(docs)
      ensures actor.Success? ==> r.Success? && docs == old(docs) + [r.value.(id := key)]
      ensures r.Success? ==>
        && r.value.author == actor.value && r.value.date == now
        && r.value.excerpt == sanitize(Misc.ExcerptText(post.content))
        && r.value.slug == slugify(post.title) && !r.value.published
        && r.value.(author := post.author, date := post.date, excerpt := post.excerpt,
                    slug := post.slug, published := post.published) == post
    {
      if actor.Failure? {
        return Failure(actor.error);
      }
      var excerpt := Misc.Excerpt(post.content, sanitize);
      var filled := post.(author := actor.value, date := now, excerpt := excerpt,
                          slug := slugify(post.title), published := false);
      docs := docs + [filled.(id := key)];
      r := Success(filled);
    }

    /**
     * Post.Update: when the session's user wrote `post`, write `entry` on every
     * document with post's slug and return the first one as changed. Reading
     * Changes[0] needs such a document.
     */
    method Update(post: Post, actor: Result<string, string>, entry: Post) returns (r: Result<Post, string>)
      requires Valid()
      requires actor.Success? && actor.value == post.author ==> FirstWithSlug(docs, post.slug).Some?
      modifies this
      ensures Valid()
      ensures actor.Failure? ==> r == Failure(actor.error) && docs == old(docs)
      ensures actor.Success? && actor.value != post.author ==> r == Failure("unauthorized") && docs == old(docs)
      ensures actor.Success? && actor.value == post.author ==>
        && docs == WriteAll(old(docs), post.slug, entry)
        && r == Success(entry.(id := old(docs)[FirstWithSlug(old(docs), post.slug).value].id))
    {
      if actor.Failure? {
        return Failure(actor.error);
      }
      if post.author != actor.value {
        return Failure("unauthorized");
      }
      var k := FirstWithSlug(docs, post.slug).value;
      docs := WriteAll(docs, post.slug, entry);
      r := Success(docs[k]);
    }

    /** Post.Delete: when the session's user wrote `post`, remove every document with its slug. */
    method Delete(post: Post, actor: Result<string, string>) returns (r: Outcome<string>)
      requires Valid()
      modifies this
      ensures Valid()
      ensures actor.Failure? ==> r == Fail(actor.error) && docs == old(docs)
      ensures actor.Success? && actor.value != post.author ==> r == Fail("unauthorized") && docs == old(docs)
      ensures actor.Success? && actor.value == post.author ==> r == Pass && docs == Remove(old(docs), post.slug)
    {
      if actor.Failure? {
        return Fail(actor.error);
      }
      if post.author != actor.value {
        return Fail("unauthorized");
      }
      docs := Remove(docs, post.slug);
      r := Pass;
    }

    /** Post.Increment: the document with post's key gets post's view count plus one. */
    method Increment(post: Post)
      requires Valid()
      modifies this
      ensures Valid() && docs == Bump(old(docs), post.id, post.viewcount)
    {
      docs := Bump(docs, post.id, post.viewcount);
    }

    /** Post.GetAll: walk the documents newest first, re-read each by slug, keep the published ones. */
    method GetAll() returns (posts: seq<Post>)
      ensures posts == Listing(docs)
    {
      var sorted := ByDateDesc(docs);
      posts := [];
      var i := 0;
      while i < |sorted|
        invariant 0 <= i <= |sorted|
        invariant posts == Filter(Refetched(docs, sorted[..i]), IsPublished)
      {
        var got := Get(sorted[i].slug);
        assert got == Lookup(docs, sorted[i].slug);
        var post := got.value;
        ListingStep(docs, sorted, i, post);
        if post.published {
          posts := posts + [post];
        }
        i := i + 1;
      }
      assert sorted[..i] == sorted;
    }

    /** Search.Get: the listed posts with a similar content word, or else a similar title word. */
    method Search(query: string, similar: (string, string) -> bool) returns (matched: seq<Post>)
      ensures matched == Filter(Listing(docs), MatchesQuery(query, similar))
    {
      var posts := GetAll();
      matched := [];
      var i := 0;
      while i < |posts|
        invariant 0 <= i <= |posts|
        invariant matched == Filter(posts[..i], MatchesQuery(query, similar))
      {
        var post := posts[i];
        var found := ScanSimilar(post.content, query, similar);
        if !found {
          found := ScanSimilar(post.title, query, similar);
        }
        SearchStep(posts, i, query, similar, found);
        if found {
          matched := matched + [post];
        }
        i := i + 1;
      }
      assert posts[..i] == posts;
    }

    /**
     * ReadPost: "new" is refused before any lookup; otherwise the post is
     * looked up, its view count incremented (from the looked-up post, or from
     * a zero post with only the slug when nothing was found), and the post
     * as read is shown.
     */
    method ReadPost(slug: string, url: string) returns (response: Response, shown: Result<Post, string>)
      requires Valid()
      modifies this
      ensures Valid()
      ensures slug == "new" ==> response == Json(406) && docs == old(docs)
      ensures slug != "new" ==> shown == Lookup(old(docs), slug)
      ensures slug != "new" && shown.Failure? ==> response == Json(500) && docs == old(docs)
      ensures slug != "new" && shown.Success? ==>
        && docs == Bump(old(docs), shown.value.id, shown.value.viewcount)
        && response == Answer(url, Json(200), Html(200))
    {
      shown := Failure("You cant name a post with colliding route name!");
      if slug == "new" {
        return Json(406), shown;
      }
      shown := Get(slug);
      var counted := if shown.Success? then shown.value else Blank(slug);
      Increment(counted);
      if shown.Failure? {
        return Json(500), shown;
      }
      response := Answer(url, Json(200), Html(200));
    }

    /**
     * PublishPost: load the post, set Published and write it back through
     * Update; an "unauthorized" error answers 401, any other 500.
     */
    method PublishPost(slug: string, url: string, actor: Result<string, string>) returns (response: Response)
      requires Valid()
      modifies this
      ensures Valid()
      ensures FirstWithSlug(old(docs), slug).None? ==> response == Json(500) && docs == old(docs)
      ensures FirstWithSlug(old(docs), slug).Some? ==>
        var owner := old(docs)[FirstWithSlug(old(docs), slug).value].author;
        && (actor.Success? && actor.value == owner ==>
              docs == Publish(old(docs), slug) && response == Answer(url, Json(200), Redirect("/post/" + slug, 302)))
        && (actor.Success? && actor.value != owner ==> response == Json(401) && docs == old(docs))
        && (actor.Failure? ==> response == Refused(actor.error) && docs == old(docs))
    {
      var got := Get(slug);
      if got.Failure? {
        return Json(500);
      }
      var post := got.value.(published := true);
      var r := Update(post, actor, post);
      if r.Failure? {
        return Refused(r.error);
      }
      response := Answer(url, Json(200), Redirect("/post/" + r.value.slug, 302));
    }

    /**
     * UpdatePost: load the post by slug and write the submitted post (with
     * that slug) over it through Update, as a whole.
     */
    method UpdatePost(slug: string, url: string, actor: Result<string, string>, form: Post)
      returns (response: Response)
      requires Valid()
      modifies this
      ensures Valid()
      ensures FirstWithSlug(old(docs), slug).None? ==> response == Json(500) && docs == old(docs)
      ensures FirstWithSlug(old(docs), slug).Some? ==>
        var owner := old(docs)[FirstWithSlug(old(docs), slug).value].author;
        && (actor.Success? && actor.value == owner ==>
              docs == WriteAll(old(docs), slug, form.(slug := slug)) && response == Answer(url, Json(200), Redirect("/user", 302)))
        && (actor.Success? && actor.value != owner ==> response == Json(401) && docs == old(docs))
        && (actor.Failure? ==> response == Refused(actor.error) && docs == old(docs))
    {
      var post := form.(slug := slug);
      var entry := Get(slug);
      if entry.Failure? {
        return Json(500);
      }
      var r := Update(entry.value, actor, post);
      if r.Failure? {
        return Refused(r.error);
      }
      response := Answer(url, Json(200), Redirect("/user", 302));
    }

    /**
     * UpdatePost as evidently intended: the owner's edit changes the title,
     * the content and so the excerpt, and keeps author, date, slug, the
     * published flag, the view count and the key.
     */
    method UpdatePostIntended(slug: string, url: string, actor: Result<string, string>, form: Post,
                    sanitize: string -> string)
      returns (response: Response)
      requires Valid()
      modifies this
      ensures Valid()
      ensures FirstWithSlug(old(docs), slug).None? ==> response == Json(500) && docs == old(docs)
      ensures FirstWithSlug(old(docs), slug).Some? ==>
        var stored := old(docs)[FirstWithSlug(old(docs), slug).value];
        && (actor.Success? && actor.value == stored.author ==>
              docs == WriteAll(old(docs), slug, Edited(stored, form, sanitize)) && response == Answer(url, Json(200), Redirect("/user", 302)))
        && (actor.Success? && actor.value != stored.author ==> response == Json(401) && docs == old(docs))
        && (actor.Failure? ==> response == Refused(actor.error) && docs == old(docs))
    {
      var entry := Get(slug);
      if entry.Failure? {
        return Json(500);
      }
      var excerpt := Misc.Excerpt(form.content, sanitize);
      var edited := entry.value.(title := form.title, content := form.content, excerpt := excerpt);
      var r := Update(entry.value, actor, edited);
      if r.Failure? {
        return Refused(r.error);
      }
      response := Answer(url, Json(200), Redirect("/user", 302));
    }

    /**
     * DeletePost: load the post and delete it through Delete; every error,
     * "unauthorized" included, answers 500.
     */
    method DeletePost(slug: string, url: string, actor: Result<string, string>) returns (response: Response)
      requires Valid()
      modifies this
      ensures Valid()
      ensures FirstWithSlug(old(docs), slug).None? ==> response == Json(500) && docs == old(docs)
      ensures FirstWithSlug(old(docs), slug).Some? ==>
        var owner := old(docs)[FirstWithSlug(old(docs), slug).value].author;
        && (actor.Success? && actor.value == owner ==>
              docs == Remove(old(docs), slug) && response == Answer(url, Json(200), Redirect("/user", 302)))
        && (!(actor.Success? && actor.value == owner) ==> response == Json(500) && docs == old(docs))
    {
      var got := Get(slug);
      if got.Failure? {
        return Json(500);
      }
      var r := Delete(got.value, actor);
      if r.Fail? {
        return Json(500);
      }
      response := Answer(url, Json(200), Redirect("/user", 302));
    }
  }

  /** How a route answers by request root: the API answer, the page answer, or 500 for any other root. */
  function Answer(url: string, api: Response, page: Response): (r: Response)
    ensures RootMisc.Root(url) == "api" ==> r == api
    ensures RootMisc.Root(url) == "post" ==> r == page
    ensures RootMisc.Root(url) != "api" && RootMisc.Root(url) != "post" ==> r == Json(500)
  {
    match RootMisc.Root(url)
    case "api" => api
    case "post" => page
    case _ => Json(500)
  }

  /** How the update routes answer a failed Update: 401 for "unauthorized", 500 for anything else. */
  function Refused(error: string): Response {
    if error == "unauthorized" then Json(401) else Json(500)
  }

  /** The zero Post with only the slug set, as the routes build it before a lookup. */
  function Blank(slug: string): Post {
    Post(0, "", "", "", "", slug, false, 0, "")
  }
}
