/**
 * The main package's helpers in misc.go: the string-based session checks and
 * the request root used to tell API requests from page requests.
 */
module RootMisc {
  import opened Text
  import opened Web
  import Misc

  /** sessionIsAlive: the "user" value holds a string. */
  function SessionIsAlive(session: Session): (alive: bool)
    reads session
    ensures alive <==> "user" in session.values && session.values["user"].GoString?
  {
    session.Get("user").Some? && session.Get("user").value.GoString?
  }

  /** SessionRedirect: a live session is sent to /user, other requests go on. */
  method SessionRedirect(session: Session) returns (response: Response)
    ensures response == if SessionIsAlive(session) then Redirect("/user", 302) else Untouched
  {
    response := Untouched;
    if SessionIsAlive(session) {
      response := Redirect("/user", 302);
    }
  }

  /** ProtectedPage: a session that is not alive loses "user" and is sent to "/". */
  method ProtectedPage(session: Session) returns (response: Response)
    modifies session
    ensures old(SessionIsAlive(session)) ==> response == Untouched && session.values == old(session.values)
    ensures !old(SessionIsAlive(session)) ==> response == Redirect("/", 302) && session.values == old(session.values) - {"user"}
    ensures "user" in session.values ==> SessionIsAlive(session)
  {
    response := Untouched;
    if !SessionIsAlive(session) {
      session.Delete("user");
      response := Redirect("/", 302);
    }
  }

  /**
   * The main package stores a string under "user" where package misc expects
   * an int64, so no session is alive for both checks at once.
   */
  lemma AliveChecksDisagree(session: Session)
    ensures !(SessionIsAlive(session) && Misc.SessionIsAlive(session))
  {
  }

  /** root: remove one leading "/" if there is one, keep the first "/"-separated field. */
  function Root(url: string): (r: string)
    ensures '/' !in r
    ensures var rest := TrimPrefix(url, "/"); r <= rest && (r == rest || rest[|r|] == '/')
  {
    FirstSegment(TrimPrefix(url, "/"))
  }

  /** A path "/a/b" has root a whenever a holds no "/". */
  lemma {:induction false} RootOfPath(a: string, b: string)
    requires '/' !in a
    ensures Root("/" + a + "/" + b) == a
  {
    var url := "/" + a + "/" + b;
    assert "/" + (a + "/" + b) == url;
    assert TrimPrefix(url, "/") == a + "/" + b;
    FirstSegmentBeforeSlash(a, b);
  }

  /** The documented example: "/api/user/<id>" has root "api". */
  lemma RootExample(id: string)
    ensures Root("/api/user/" + id) == "api"
  {
    assert "/" + "api" + "/" + ("user/" + id) == "/api/user/" + id;
    RootOfPath("api", "user/" + id);
  }

  /** The root of "/" is the empty string. */
  lemma RootOfSlash()
    ensures Root("/") == ""
  {
    assert TrimPrefix("/", "/") == "";
  }
}
