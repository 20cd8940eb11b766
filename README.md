# Vertigo core in Dafny

A verified model of the logic at the heart of Vertigo, a small blog engine written in Go. The model covers:

- the post table and what its routes do to it (`posts.go`);
- the account table of the sqlx driver and the lifecycle of its recovery tokens (`databases/sqlx/users.go`);
- the settings file and its installation wizard (`settings.go`);
- the string and session helpers of package `misc` (`misc/misc.go`), of the main package (`misc.go`) and the older ones in `main.go`.

Databases become in-memory tables:

- The RethinkDB `posts` table is a sequence of documents. A filter by slug reads the first matching document and updates or deletes every matching one.
- The SQLite `user` table is a map from id to row, plus the ids in insertion order and the next id to assign. The `post` table the account queries read is a sequence of rows.
- The settings file holds a settings value, or nothing while it is empty.

Objects whose state changes are classes: `Posts.Table`, `Users.Store`, `Settings.Site` and the request session `Web.Session`. Operations that change them are methods whose `ensures` give the whole new state. Pure code is functions and lemmas. The scanning loops of `Excerpt`, `Search.Get` and `GetAll` are methods with loop invariants. Each is proved against a function that states what it computes.

Foreign calls are parameters, not models:

- `sanitize.HTML`, `slug.Make` and the Jaro-Winkler test (`jwd.Calculate(word, query) >= 0.9`) are function values: `sanitize`, `slugify`, `similar`.
- `CompareHash` is the function value `compareHash`.
- The outcome of `GenerateHash`, `uuid.New`, `time.Now`, `time.LoadLocation` and `SendRecoveryEmail` is a value the caller supplies.
- The person a session resolves to is the `actor` value, either an id or an error. (`Person.Session` lives in the main package's `users.go`, which is not part of this model.)

Go's `bufio.ScanWords` is modelled by `Text.Words` and the one-token step `Text.ScanWord`. White space is what `unicode.IsSpace` accepts. `strings.Replace(s, old, new, -1)`, `strings.TrimSpace`, `strings.TrimPrefix` and `strings.Split(s, "/")[0]` are written out in `Text`. Go's `uint` view count wraps around (`Posts.Successor`). Session values carry their dynamic Go type, so an `int` is not an `int64` and neither is a `string`.

`main.go:40-60` (`SessionIsAlive`, `SessionRedirect`, `ProtectedPage`) is the same code as `misc.go:91-116`. It is modelled once, by the `RootMisc` members below. `posts.go:96-106` (`Excerpt`) is the same code as `misc/misc.go:44-54`; the model keeps one `Misc.Excerpt`, and `Posts` uses it.

## Model

| member | source | states |
|---|---|---|
| Text.ScanWord | posts.go:97-103 | one `Scan` of a `ScanWords` scanner skips white space: a token is found exactly when words remain, the token is the first remaining word, and the words after the new position are the remaining words without it; with no word left the scanner is at the end |
| Misc.Cleanup | misc/misc.go:28-40 | every newline is dropped and each markup line break becomes a newline; no `</p>`, `<br>`, `</br>` or `<br/>` is left in the output, for any input |
| Misc.CleanupNewlines | misc/misc.go:31-37 | `Cleanup` first deletes every `"\n"`; afterwards the number of newlines in the output is exactly the number of tags replaced |
| Misc.CleanupIdentity | misc/misc.go:28-40 | text with no newline and none of the four tags comes back unchanged |
| Misc.Excerpt | misc/misc.go:44-54 | the counter loop over the scanner returns `sanitize` applied to the first 15 words of the input, joined by single spaces (all words when there are fewer) |
| Misc.ExcerptKeepsFirstWords | posts.go:96-106 | re-scanning the excerpt gives back exactly the first at most 15 words of the input, in order, and the text neither starts nor ends with white space |
| Misc.SessionIsAlive | misc/misc.go:69-76 | a session is alive exactly when it holds a `"user"` value whose dynamic type is `int64`; a missing key is not alive |
| Misc.Sessionchecker | misc/misc.go:56-66 | an `int64` `"user"` value is left as it is; otherwise `"user"` becomes the Go `int` -1, and the session's liveness never changes |
| Misc.SessionRedirect | misc/misc.go:81-85 | redirects to `/user` with 302 exactly when the session is alive |
| Misc.ProtectedPage | misc/misc.go:89-94 | a session that is not alive loses its `"user"` key and gets a 401; an alive session is untouched; afterwards any remaining `"user"` value is alive |
| Misc.Root | misc/misc.go:99-102 | after the base path and the one character after it, the result is the longest prefix without `"/"`, ended by a `"/"` or by the end; the trimmed URL must be non-empty, since `u[1:]` panics otherwise |
| Misc.RootAfterBase | misc/misc.go:96-102 | for a URL made of the base path, `"/"`, a segment `a` without `"/"`, `"/"` and anything, the root is `a` |
| Misc.RootExample | misc/misc.go:96-98 | the documented `/api/user/<id>` with an empty base path has root `api`, for every id |
| Misc.RootExampleWithBase | misc/misc.go:100-101 | with base path `/blog`, `/blog/post/hello` has root `post` |
| RootMisc.SessionIsAlive | misc.go:91-98 | a session is alive exactly when it holds a `"user"` value whose dynamic type is `string` |
| RootMisc.AliveChecksDisagree | main.go:40-47 | no session is alive for both the string check of the main package and the `int64` check of package misc |
| RootMisc.SessionRedirect | misc.go:103-107 | redirects to `/user` with 302 exactly when the session is alive; `main.go:49-53` is the same |
| RootMisc.ProtectedPage | misc.go:111-116 | a session that is not alive loses `"user"` and is redirected to `/`; an alive session is untouched; `main.go:55-60` is the same |
| RootMisc.Root | misc.go:121-123 | after removing one leading `"/"`, the result is the longest prefix without `"/"`, ended by a `"/"` or by the end |
| RootMisc.RootOfPath | misc.go:118-123 | `/a/b` has root `a` whenever `a` holds no `"/"` |
| RootMisc.RootExample | misc.go:118-120 | the documented `/api/user/<id>` has root `api`, for every id |
| RootMisc.RootOfSlash | misc.go:122 | the root of `/` is the empty string |
| LegacyMain.Excerpt | main.go:62-72 | the counter loop returns each of the first 15 words followed by one space |
| LegacyMain.ExcerptWords | main.go:67-70 | re-scanning the old excerpt gives the first at most 15 words of the input, in input order, a prefix of all its words |
| LegacyMain.ExcerptTrailingSpace | main.go:66-71 | the old excerpt is empty exactly when the input has no words, and otherwise ends in `" "` |
| LegacyMain.ExcerptKeepsMarkup | main.go:71 | nothing is trimmed or sanitised: a single word, markup included, comes back followed by one space |
| LegacyMain.TrimmedIsNewExcerpt | main.go:62-72 | trimming the old excerpt gives the newer excerpt before sanitising |
| Settings.FirstRun | settings.go:61-75 | the first-run settings have `Firstrun` set, the fresh UUID as cookie hash, and every other field zero |
| Settings.Saved | settings.go:95-96 | what `Save` keeps is the caller's structure with the stored cookie hash and nothing else changed |
| Settings.SavedIdempotent | settings.go:86-106 | saving again against the same stored settings changes nothing, whatever the caller's cookie hash was |
| Settings.Site.constructor | settings.go:46 | start-up loads the file; an empty file becomes the first-run settings and is written, and afterwards the file holds the global settings |
| Settings.Site.Load | settings.go:50-82 | an empty file is filled with the first-run settings and read again; a non-empty file is returned as stored and left alone |
| Settings.Site.Save | settings.go:86-106 | a failed read changes nothing; otherwise the global settings become the given ones with the stored cookie hash; a write that fails before opening leaves the file as it was, one that fails after truncating leaves it empty, and a successful one stores the new settings; whenever the file is not empty it keeps the stored cookie hash |
| Settings.Site.UpdateSettings | settings.go:110-132 | with `Firstrun` off the answer is 406 and nothing changes; otherwise the form is saved with `Firstrun` off; a failed save answers 500, and a truncating write failure leaves the file empty; on success the root `api` gets 200, `user` a redirect to `/user/register`, and any other root 500 |
| Settings.SaveThenLoad | settings.go:77-81 | after a successful `Save`, loading the file returns the struct just saved, with the stored cookie hash |
| Settings.RestartAfterTruncatedSave | settings.go:50-82 | after a write that truncated the file and failed, the next start-up loads first-run settings: the wizard is open again and the cookie hash is the fresh one |
| Settings.SecondUpdateRefused | settings.go:116-117 | once a first submission has been saved or has failed only at writing, a second one is answered 406 |
| Users.Attached | databases/sqlx/users.go:131-141 | the post query gives no list (Go's nil slice) exactly when the user wrote no post; otherwise it gives exactly the user's posts, each as often as stored, ordered by `created` ascending |
| Users.Scanned | databases/sqlx/users.go:124 | scanning a row onto the receiver overwrites every column and keeps the receiver's password and post list |
| Users.FirstWithEmail | databases/sqlx/users.go:149 | the id found has a row with that email, and when none is found no listed row has it |
| Users.WithColumns | databases/sqlx/users.go:51-53 | the update writes name, digest, location and recovery from the entry and keeps the email |
| Users.Expired | databases/sqlx/users.go:114 | clearing the token empties the recovery of that id's row and changes no other column and no other row |
| Users.Reset | databases/sqlx/users.go:101-102 | a reset stores the new digest and an empty recovery on that id's row and changes nothing else |
| Users.ExpireIdempotent | databases/sqlx/users.go:111-118 | expiring twice, or after a password reset, leaves the same table as doing it once |
| Users.Store.FindByEmail | databases/sqlx/users.go:149 | the id found holds a row with that email, and with unique emails no row has the email when none is found |
| Users.Store.FindByEmailUnique | databases/sqlx/users.go:199-204 | with the UNIQUE email column, looking up a row's email finds exactly that row |
| Users.Store.Get | databases/sqlx/users.go:123-143 | a missing id gives "not found"; otherwise the row's columns are loaded onto the receiver and the account's posts are attached |
| Users.Store.GetOverwritesColumns | databases/sqlx/users.go:123-130 | `Get` depends only on the receiver's id and password, never on the stale columns it overwrites |
| Users.Store.GetByEmail | databases/sqlx/users.go:147-168 | an unknown email gives "not found"; a known one always succeeds with the id the email finds, the row's fields as scanned, and exactly that user's attached posts |
| Users.Store.GetByEmailIsGet | databases/sqlx/users.go:147-168 | loading an account by its email gives the same as loading it by its id |
| Users.Store.Login | databases/sqlx/users.go:35-45 | "not found" exactly when no account has the email; "wrong username or password" exactly when the account exists and the hash check fails; success exactly when the account exists and its digest matches the password, and then the result is the account as loaded by email |
| Users.Store.LoginKeepsSecrets | databases/sqlx/users.go:31-45 | on success the account comes back with the submitted password and the stored digest, which the documentation says are omitted |
| Users.Store.LoginOmitting | databases/sqlx/users.go:31-34 | login as documented: the same outcomes, with password and digest blanked and everything else as `Login` returns it |
| Users.Store.Session | databases/sqlx/users.go:172-185 | a session whose `"user"` value is an `int64` loads that id; any other value, or none, is "unauthorized" |
| Users.Store.SessionLoadsStoredId | databases/sqlx/users.go:176-181 | an authorised session yields a stored account whose id is the session's value, with no password |
| Users.Store.Update | databases/sqlx/users.go:50-58 | exactly name, digest, location and recovery are written on the row with the user's id; email, id and other rows are untouched, and a missing id changes nothing; the entry is returned |
| Users.Store.Insert | databases/sqlx/users.go:189-208 | a hashing failure, an invalid location or a taken email (in that order) add no row; with none of these the insert always succeeds: one row with the next id, the hashed digest and an empty token is added, and its email now finds it |
| Users.Store.Recover | databases/sqlx/users.go:63-94 | an unknown email changes nothing; otherwise the token is stored before the email is sent; a failed send returns its error, keeps the token and schedules no expiry; a sent email schedules one |
| Users.Store.PasswordReset | databases/sqlx/users.go:96-107 | a hashing failure changes nothing; otherwise the digest becomes the new hash and the token is cleared |
| Users.Store.ExpireRecovery | databases/sqlx/users.go:111-118 | the token of that id is cleared unconditionally, whatever it holds |
| Users.Store.RunPendingExpiry | databases/sqlx/users.go:91 | the oldest scheduled expiry clears that account's token and leaves the schedule |
| Users.Store.Listed | databases/sqlx/users.go:221-229 | each listed account is its row loaded by id with a post list that is never nil: its posts, or empty |
| Users.Store.GetAll | databases/sqlx/users.go:211-232 | every account in table order, each as loaded by id, and none with a nil post list |
| Posts.Successor | posts.go:503 | `Viewcount + 1` on a `uint`: one more, wrapping to 0 after the largest value |
| Posts.FirstWithSlug | posts.go:386-393 | the document a slug filter reads first: the first index with the slug, and none exactly when no document has it |
| Posts.Lookup | posts.go:385-403 | "nothing was found" exactly when no document has the slug; otherwise a stored document with that slug |
| Posts.LookupUnique | posts.go:385-403 | with unique slugs, looking a document up by its slug gives that document |
| Posts.WriteAll | posts.go:426-429 | every document with the slug gets all of the entry's fields but its key; other documents are unchanged |
| Posts.Remove | posts.go:456-459 | exactly the documents with another slug stay, each as often as before, in their order; distinct keys stay distinct |
| Posts.FilterKeepsKeysDistinct | posts.go:456-459 | dropping documents from a table whose keys are distinct leaves the keys distinct |
| Posts.Bump | posts.go:502-507 | the document with that key gets the given count plus one, with every other field and document unchanged |
| Posts.ByDateDesc | posts.go:479 | the documents, each as often as stored, in non-increasing date order |
| Posts.Refetched | posts.go:484-488 | each listed document is replaced by what `Get` reads for its slug |
| Posts.Listing | posts.go:477-498 | what `GetAll` lists is only published posts |
| Posts.GetAllListsPublished | posts.go:477-498 | with unique slugs, `GetAll` lists exactly the published documents, each as often as stored, newest first, so drafts never appear |
| Posts.ScanSimilar | posts.go:154-165 | the scan finds a match exactly when some word of the text is similar to the query |
| Posts.SearchWithinListing | posts.go:139-167 | a search result is a subsequence of `GetAll`'s list, holds exactly its matching posts, and lists none more often than `GetAll` does |
| Posts.Publish | posts.go:292-301 | every document with the slug becomes the first such document with `Published` set, under its own key; every other document is unchanged |
| Posts.PublishIdempotent | posts.go:291-321 | publishing twice leaves the table as publishing once |
| Posts.PublishChangesOnlyFlag | posts.go:292-301 | with unique slugs, publishing sets the flag of that one document and changes nothing else |
| Posts.Edited | posts.go:255-256 | the intended edit takes title and content from the form, recomputes the excerpt, and keeps every other field of the stored post |
| Posts.UpdatePostOrphans | posts.go:257-265 | as written, an owner's edit with a form-bound post leaves the document unpublished and with an author other than the owner |
| Posts.EditKeepsOwnership | posts.go:257-285 | after the intended edit the same slug finds the edited post, with its author, date, flag and view count |
| Posts.Table.Get | posts.go:385-403 | "nothing was found" exactly when no document has the slug; otherwise the first document with it |
| Posts.Table.Insert | posts.go:357-380 | without a session nothing is stored and its error is returned; the key must be unused, as the database generates a fresh one; otherwise the post is appended under that key with the session's id as author, the time, the excerpt of its content, the slug of its title and `Published` off, other fields as submitted |
| Posts.Table.Update | posts.go:419-444 | a session error or another author changes nothing ("unauthorized" for the latter); the author's entry is written on every document with the slug and the first is returned as changed |
| Posts.Table.Delete | posts.go:449-473 | a session error or another author changes nothing; the author's call removes every document with the slug |
| Posts.BumpChangesOne | posts.go:502-507 | when no two documents share a key, updating by a document's key changes that document's view count and no other document |
| Posts.Table.Increment | posts.go:502-507 | the document with the post's key gets the post's view count plus one, and nothing else changes |
| Posts.Table.GetAll | posts.go:477-498 | the loop lists the documents newest first, re-read by slug, keeping the published ones: the `Listing` of the table |
| Posts.Table.Search | posts.go:131-169 | the loop keeps the listed posts with a similar content word, or failing that a similar title word, each at most once, in listing order |
| Posts.Table.ReadPost | posts.go:207-230 | `new` is answered 406 before any lookup; otherwise the post is read, its view count incremented, and a missing post answered 500 with the table unchanged |
| Posts.Table.PublishPost | posts.go:291-321 | a missing post answers 500; the owner's call publishes it; another user gets 401; a session error gets 401 when it reads "unauthorized" and 500 otherwise; refused calls leave the table unchanged |
| Posts.Table.UpdatePost | posts.go:257-285 | a missing post answers 500; the owner's call writes the submitted post, with that slug, over every document with the slug; another user gets 401; a session error gets 401 when it reads "unauthorized" and 500 otherwise; refused calls change nothing |
| Posts.Table.UpdatePostIntended | posts.go:255-285 | the corrected route: the owner's edit writes only title, content and excerpt, with the same answers as `UpdatePost` |
| Posts.Table.DeletePost | posts.go:327-351 | a missing post answers 500; the owner's call removes it; every other error, "unauthorized" included, answers 500 and changes nothing |

## Left out

- Database drivers, connections and driver errors are not modelled. Every query succeeds unless the code itself returns an error: not found, unauthorized, a duplicate email.
- Goroutines run as separate synchronous calls. `go post.Increment` runs inside `Posts.Table.ReadPost`. `go user.ExpireRecovery` is queued in `Users.Store.Recover` and runs through `Users.Store.RunPendingExpiry`; the `time.Sleep` is dropped. Lost updates between concurrent requests are not modelled.
- HTML sanitising, slugging, hashing, the Jaro-Winkler score (floating point), UUIDs, the clock, time-zone lookups and sending email are parameters. The test's example of `<b>`/`<i>` being stripped is a property of the sanitiser, not of this code.
- Strings are sequences of characters: UTF-8 decoding and invalid bytes are not modelled.
- `Text.Words` has no 64 KB token limit: the scanner's error on an over-long token is not modelled.
- Settings are stored as the structure itself, without JSON. `Settings.Site.Save` requires a non-empty file, because decoding an empty file panics; `Settings.Site.UpdateSettings` requires one only while `Firstrun` is on, since otherwise it never reads the file. Panics on open and read errors in `VertigoSettings` are left out.
- A write of settings.json that fails part-way is modelled as leaving the file either as it was or empty. A file left holding part of the JSON would fail to decode at the next start-up and panic; that outcome is not modelled.
- `Posts.Table.Update` requires a document with the post's slug when the caller is its author. Reading `Changes[0]` of an update that changed nothing would panic. RethinkDB's treatment of an update that leaves a document unchanged is not modelled.
- `Posts.Table.Insert` takes the generated document key as a parameter, unused in the table, and returns the post without it. Reading the insert response into the post does not carry the generated key back. The post's `ID` field is written under the field name `ID` (posts.go:39), not as the primary key `id`; that extra field is not modelled, and the stored document's `id` is the generated key.
- `Misc.Root` requires a non-empty remainder after the base path. A request for exactly the base path (for example `/blog` with base path `/blog`) makes `u[1:]` panic at misc/misc.go:101; that panic is not modelled.
- The post columns the account queries return, other than id, author, created and title, are not modelled. The main package's `Person.Session` and its `users.go` are not part of this model; their result is the `actor` parameter.
- `Users.Store.Insert` stores an empty recovery token for a new row, which is what the column gets when the INSERT does not set it.
- Rows that tie on `created` (for `Users.Attached`) or on `date` (for `Posts.ByDateDesc`) keep table order. SQL and RethinkDB leave tie order unspecified.
- `Users.Store.GetAll` returns a list, never Go's nil slice, for an empty table.
- `Posts.Table.GetAll` and `Posts.Table.Search` return the empty list where Go returns a nil slice (no published post, no match); the JSON answer `null` versus `[]` is not modelled.
- `Users.Store.PasswordReset` models the table effect the code means. As written, its `return entry, err` statements do not fit its `error` result and the file does not compile.
- The HTTP layer is modelled only as the answer each handler chooses: status, redirect target, or nothing. Bodies, templates (`render/render.go`), routing and `main()` are left out, as are the `EditPost` page route (posts.go:235-253), `CreatePost`, `ReadPosts`, `SearchPost` and `Homepage`.
- `Posts.Table.DeletePost` answers 500 for every error from `Delete`, including a user who is not the author (posts.go:336-340); no 401 is given for that case.
- The doc comment of `Login` (databases/sqlx/users.go:31-34) says a successful login returns the account without its password and digest. The code returns both, and `Users.Store.Login` follows the code (see Findings).

## Findings

| source | as written | input that shows it | evidently intended | confidence | as-written member | corrected member |
|---|---|---|---|---|---|---|
| posts.go:257-265 | `UpdatePost` passes the request-bound post to `Update`. Its `Published` field (`json:"-"`, no form tag) is always false, and a form carries no `Author`. The whole struct, zero fields included, is written over the stored document | the owner edits their published post through the page form: the stored post becomes a draft with author `""`, so it leaves the listing and the owner's next edit is "unauthorized" | change the title and content (and the excerpt derived from it), keeping author, date, published flag and view count | medium, not executed (depends on the driver writing zero-valued fields) | Posts.UpdatePostOrphans | Posts.EditKeepsOwnership |
| databases/sqlx/users.go:31-45 | `Login` returns the account as `GetByEmail` loaded it, with its stored `Digest`, and with `Password` still the submitted one | any successful login: the returned account has a non-empty digest and the plain-text password | return the account with `Password` and `Digest` omitted, as the doc comment says | high, not executed | Users.Store.LoginKeepsSecrets | Users.Store.LoginOmitting |
