/**
 * The account table of the sqlx driver (databases/sqlx/users.go): lookups
 * by id and by email with the account's posts attached, login, the write
 * operations on single rows, and the recovery-token lifecycle.
 */
module Users {
  import opened Wrappers
  import opened Tables
  import opened Web
  import Misc

  /** A row of the post table, as far as the account queries look at it. */
  datatype Post = Post(id: int, author: int, created: int, title: string)

  /** A row of the user table: the columns other than the id. */
  datatype Row = Row(name: string, digest: seq<bv8>, email: string, location: string, recovery: string)

  /**
   * The User structure. Password is not a column; posts is None where Go
   * holds a nil slice (what sqlx's Select leaves when no row matches).
   */
  datatype User = User(
    id: int,
    name: string,
    password: string,
    recovery: string,
    digest: seq<bv8>,
    email: string,
    posts: Option<seq<Post>>,
    location: string)

  /** A zero User with only the id set, as Session and GetAll build it. */
  function Blank(id: int): User {
    User(id, "", "", "", [], "", None, "")
  }

  function WrittenBy(id: int): Post -> bool {
    (p: Post) => p.author == id
  }

  function CreatedAt(p: Post): int {
    p.created
  }

  /** SELECT * FROM post WHERE author = id ORDER BY created; no rows gives a nil slice. */
  function Attached(posts: seq<Post>, id: int): (r: Option<seq<Post>>)
    ensures r.None? <==> forall p :: p in posts ==> p.author != id
    ensures r.Some? ==> SortedBy(r.value, CreatedAt)
    ensures r.Some? ==> multiset(r.value) == multiset(Filter(posts, WrittenBy(id)))
    ensures r.Some? ==> forall p :: p in r.value <==> p in posts && p.author == id
  {
    var mine := Filter(posts, WrittenBy(id));
    FilterMembers(posts, WrittenBy(id));
    if mine == [] then None
    else
      var sorted := SortBy(mine, CreatedAt);
      assert forall p :: p in sorted <==> p in multiset(mine);
      Some(sorted)
  }

  /** db.Get scanning a row onto the receiver: every column is overwritten, Password and Posts are not. */
  predicate Scans(u: User, receiver: User, id: int, row: Row) {
    && u.id == id && u.name == row.name && u.digest == row.digest && u.email == row.email
    && u.location == row.location && u.recovery == row.recovery && u.password == receiver.password
  }

  function Scanned(receiver: User, id: int, row: Row): (u: User)
    ensures Scans(u, receiver, id, row) && u.posts == receiver.posts
  {
    receiver.(id := id, name := row.name, digest := row.digest, email := row.email,
              location := row.location, recovery := row.recovery)
  }

  /** The first id of ids whose row has the given email. */
  function FirstWithEmail(ids: seq<int>, rows: map<int, Row>, email: string): (r: Option<int>)
    ensures r.Some? ==> r.value in ids && r.value in rows && rows[r.value].email == email
    ensures r.None? ==> forall i :: 0 <= i < |ids| && ids[i] in rows ==> rows[ids[i]].email != email
    decreases |ids|
  {
    if ids == [] then None
    else if ids[0] in rows && rows[ids[0]].email == email then Some(ids[0])
    else
      var r := FirstWithEmail(ids[1..], rows, email);
      assert forall i :: 1 <= i < |ids| ==> ids[i] == ids[1..][i - 1];
      r
  }

  /** The columns UPDATE user SET name, digest, location, recovery writes from entry. */
  function WithColumns(row: Row, entry: User): (r: Row)
    ensures r.email == row.email
    ensures r == Row(entry.name, entry.digest, row.email, entry.location, entry.recovery)
  {
    row.(name := entry.name, digest := entry.digest, location := entry.location, recovery := entry.recovery)
  }

  /** UPDATE user SET recovery = '' WHERE id = id. */
  function Expired(rows: map<int, Row>, id: int): (r: map<int, Row>)
    ensures r.Keys == rows.Keys
    ensures id in rows ==> r[id].recovery == "" && r[id].(recovery := rows[id].recovery) == rows[id]
    ensures forall k :: k in rows && k != id ==> r[k] == rows[k]
  {
    if id in rows then rows[id := rows[id].(recovery := "")] else rows
  }

  /** UPDATE user SET digest = digest, recovery = '' WHERE id = id. */
  function Reset(rows: map<int, Row>, id: int, digest: seq<bv8>): (r: map<int, Row>)
    ensures r.Keys == rows.Keys
    ensures id in rows ==> r[id].recovery == "" && r[id].digest == digest
    ensures id in rows ==> r[id].(recovery := rows[id].recovery, digest := rows[id].digest) == rows[id]
    ensures forall k :: k in rows && k != id ==> r[k] == rows[k]
  {
    if id in rows then rows[id := rows[id].(digest := digest, recovery := "")] else rows
  }

  /** Expiring a token twice, or after a reset, changes nothing more. */
  lemma ExpireIdempotent(rows: map<int, Row>, id: int, digest: seq<bv8>)
    ensures Expired(Expired(rows, id), id) == Expired(rows, id)
    ensures Expired(Reset(rows, id, digest), id) == Reset(rows, id, digest)
  {
  }

  /**
   * The user table (rows by id, ids in insertion order, the next id SQLite
   * assigns), the post table the lookups read, and the ids whose
   * ExpireRecovery goroutine has been started but has not yet run.
   */
  class Store {
    var rows: map<int, Row>
    var order: seq<int>
    var nextId: int
    var posts: seq<Post>
    var pending: seq<int>

    /** Every row is listed once in order, ids are below nextId, and emails are unique (a UNIQUE column). */
    ghost predicate Valid()
      reads this
    {
      && (forall id :: id in rows <==> id in order)
      && (forall i, j :: 0 <= i < j < |order| ==> order[i] != order[j])
      && 0 < nextId
      && (forall id :: id in rows ==> 0 < id < nextId)
      && (forall a, b :: a in rows && b in rows && a != b ==> rows[a].email != rows[b].email)
    }

    constructor (posts: seq<Post>)
      ensures Valid() && rows == map[] && order == [] && this.posts == posts && pending == []
    {
      rows, order, nextId, this.posts, pending := map[], [], 1, posts, [];
    }

    /** The id of the account with this email (the first in table order). */
    function FindByEmail(email: string): (r: Option<int>)
      reads this
      ensures r.Some? ==> r.value in rows && rows[r.value].email == email
      ensures r.None? && Valid() ==> forall id :: id in rows ==> rows[id].email != email
    {
      FirstWithEmail(order, rows, email)
    }

    /** With unique emails the account found is the only one with that email. */
    lemma FindByEmailUnique(id: int)
      requires Valid() && id in rows
      ensures FindByEmail(rows[id].email) == Some(id)
    {
    }

    /** Get: load the row with user.id onto user and attach that account's posts. */
    function Get(user: User): (r: Result<User, string>)
      reads this
      ensures user.id !in rows ==> r == Failure("not found")
      ensures user.id in rows ==> r.Success? && Scans(r.value, user, user.id, rows[user.id])
      ensures r.Success? ==> r.value.posts == Attached(posts, user.id)
    {
      if user.id !in rows then Failure("not found")
      else Success(Scanned(user, user.id, rows[user.id]).(posts := Attached(posts, user.id)))
    }

    /** Get keeps only the receiver's id and password: the columns and posts it loads itself. */
    lemma GetOverwritesColumns(u: User, v: User)
      requires u.id == v.id && u.password == v.password
      ensures Get(u) == Get(v)
    {
    }

    /** GetByEmail: as Get, for the account with user.email. */
    function GetByEmail(user: User): (r: Result<User, string>)
      reads this
      ensures FindByEmail(user.email).None? ==> r == Failure("not found")
      ensures FindByEmail(user.email).Some? ==>
        && r.Success?
        && r.value.id == FindByEmail(user.email).value
        && r.value.posts == Attached(posts, r.value.id)
      ensures r.Success? ==> r.value.email == user.email && r.value.id in rows
      ensures r.Success? ==> Scans(r.value, user, r.value.id, rows[r.value.id])
    {
      match FindByEmail(user.email)
      case None => Failure("not found")
      case Some(id) => Success(Scanned(user, id, rows[id]).(posts := Attached(posts, id)))
    }

    /** Looking an account up by email gives what looking it up by its id gives. */
    lemma GetByEmailIsGet(user: User)
      requires GetByEmail(user).Success?
      ensures GetByEmail(user) == Get(user.(id := GetByEmail(user).value.id))
    {
    }

    /**
     * Login: find the account by email, then compare its digest with the
     * submitted password. The account comes back with its digest and with
     * the submitted password, as the code leaves them.
     */
    function Login(user: User, compareHash: (seq<bv8>, string) -> bool): (r: Result<User, string>)
      reads this
      ensures FindByEmail(user.email).None? <==> r == Failure("not found")
      ensures r == Failure("wrong username or password") <==>
        GetByEmail(user).Success? && !compareHash(GetByEmail(user).value.digest, user.password)
      ensures r.Success? <==> GetByEmail(user).Success? && compareHash(GetByEmail(user).value.digest, user.password)
      ensures r.Success? ==> r == GetByEmail(user) && compareHash(rows[r.value.id].digest, user.password)
    {
      var found := GetByEmail(user);
      if found.Failure? then found
      else if !compareHash(found.value.digest, user.password) then Failure("wrong username or password")
      else found
    }

    /** What Login hands back on success still carries the stored digest and the submitted password. */
    lemma LoginKeepsSecrets(user: User, compareHash: (seq<bv8>, string) -> bool)
      requires Login(user, compareHash).Success?
      ensures Login(user, compareHash).value.password == user.password
      ensures Login(user, compareHash).value.digest == rows[Login(user, compareHash).value.id].digest
    {
    }

    /** Login as its documentation describes it: the same outcome, with Password and Digest blanked. */
    function LoginOmitting(user: User, compareHash: (seq<bv8>, string) -> bool): (r: Result<User, string>)
      reads this
      ensures r.Failure? <==> Login(user, compareHash).Failure?
      ensures r.Failure? ==> r == Login(user, compareHash)
      ensures r.Success? ==> r.value.password == "" && r.value.digest == []
      ensures r.Success? ==> r.value.id in rows && r.value.(password := user.password, digest := rows[r.value.id].digest) == Login(user, compareHash).value
    {
      match Login(user, compareHash)
      case Success(u) => Success(u.(password := "", digest := []))
      case Failure(e) => Failure(e)
    }

    /**
     * Session: a session whose "user" value is an int64 loads that account;
     * any other value, or none, is unauthorized.
     */
    function Session(s: Web.Session): (r: Result<User, string>)
      reads this, s
      ensures !Misc.SessionIsAlive(s) ==> r == Failure("unauthorized")
      ensures Misc.SessionIsAlive(s) ==> r == Get(Blank(s.Get("user").value.n as int))
    {
      match s.Get("user")
      case Some(GoInt64(n)) => Get(Blank(n as int))
      case _ => Failure("unauthorized")
    }

    /** An authorised session yields the account whose id it stores, and nothing else. */
    lemma SessionLoadsStoredId(s: Web.Session)
      ensures Session(s).Success? ==>
        Misc.SessionIsAlive(s) && Session(s).value.id == s.Get("user").value.n as int
        && Session(s).value.id in rows && Session(s).value.password == ""
    {
    }

    /** Update: write name, digest, location and recovery of entry on the row with user.id. */
    method Update(user: User, entry: User) returns (r: User)
      requires Valid()
      modifies this`rows
      ensures Valid() && r == entry
      ensures user.id in old(rows) ==> rows == old(rows)[user.id := WithColumns(old(rows)[user.id], entry)]
      ensures user.id !in old(rows) ==> rows == old(rows)
    {
      if user.id in rows {
        rows := rows[user.id := WithColumns(rows[user.id], entry)];
      }
      r := entry;
    }

    /**
     * Insert: hash the password, validate the location, then add a row; the
     * UNIQUE email column refuses a second account with the same email.
     * `hashed` is GenerateHash's outcome and `validLocation` whether
     * time.LoadLocation accepts the location.
     */
    method Insert(user: User, hashed: Result<seq<bv8>, string>, validLocation: bool)
      returns (r: Result<User, string>)
      requires Valid()
      modifies this`rows, this`order, this`nextId
      ensures Valid()
      ensures hashed.Failure? ==> r == Failure(hashed.error)
      ensures hashed.Success? && !validLocation ==> r == Failure("user location invalid")
      ensures hashed.Success? && validLocation && old(FindByEmail(user.email)).Some? ==> r == Failure("user email exists")
      ensures hashed.Success? && validLocation && old(FindByEmail(user.email)).None? ==> r.Success?
      ensures r.Failure? ==> rows == old(rows) && order == old(order) && nextId == old(nextId)
      ensures r.Success? ==>
        && r.value == user.(digest := hashed.value)
        && old(nextId) !in old(rows)
        && rows == old(rows)[old(nextId) := Row(user.name, hashed.value, user.email, user.location, "")]
        && order == old(order) + [old(nextId)]
        && FindByEmail(user.email) == Some(old(nextId))
    {
      if hashed.Failure? {
        return Failure(hashed.error);
      }
      if !validLocation {
        return Failure("user location invalid");
      }
      if FindByEmail(user.email).Some? {
        return Failure("user email exists");
      }
      var id := nextId;
      rows := rows[id := Row(user.name, hashed.value, user.email, user.location, "")];
      order := order + [id];
      nextId := nextId + 1;
      r := Success(user.(digest := hashed.value));
      FindByEmailUnique(id);
    }

    /**
     * Recover: give the account with user.email a fresh recovery token
     * (`token` stands for uuid.New()), then send the email (`sent` is its
     * outcome); only a sent email starts the expiry goroutine.
     */
    method Recover(user: User, token: string, sent: Outcome<string>) returns (r: Outcome<string>)
      requires Valid()
      modifies this`rows, this`pending
      ensures Valid()
      ensures old(FindByEmail(user.email)).None? ==> r == Fail("not found") && rows == old(rows) && pending == old(pending)
      ensures old(FindByEmail(user.email)).Some? ==>
        var id := old(FindByEmail(user.email)).value;
        && rows == old(rows)[id := old(rows)[id].(recovery := token)]
        && (sent.Fail? ==> r == sent && pending == old(pending))
        && (sent.Pass? ==> r == Pass && pending == old(pending) + [id])
    {
      var found := GetByEmail(user);
      if found.Failure? {
        return Fail(found.error);
      }
      var account := found.value;
      var entry := account.(recovery := token);
      account := Update(account, entry);
      if sent.Fail? {
        return sent;
      }
      pending := pending + [account.id];
      r := Pass;
    }

    /**
     * PasswordReset: store the hash of entry.Password as the digest and clear
     * the recovery token of the row with user.id.
     */
    method PasswordReset(user: User, entry: User, hashed: Result<seq<bv8>, string>) returns (r: Outcome<string>)
      requires Valid()
      modifies this`rows
      ensures Valid()
      ensures hashed.Failure? ==> r == Fail(hashed.error) && rows == old(rows)
      ensures hashed.Success? ==> r == Pass && rows == Reset(old(rows), user.id, hashed.value)
    {
      if hashed.Failure? {
        return Fail(hashed.error);
      }
      rows := Reset(rows, user.id, hashed.value);
      r := Pass;
    }

    /** ExpireRecovery: clear the recovery token of the row with user.id, whatever it holds. */
    method ExpireRecovery(user: User)
      requires Valid()
      modifies this`rows
      ensures Valid() && rows == Expired(old(rows), user.id)
    {
      rows := Expired(rows, user.id);
    }

    /** The oldest pending expiry goroutine wakes up and runs. */
    method RunPendingExpiry()
      requires Valid() && pending != []
      modifies this`rows, this`pending
      ensures Valid()
      ensures rows == Expired(old(rows), old(pending)[0]) && pending == old(pending)[1..]
    {
      var id := pending[0];
      ExpireRecovery(Blank(id));
      pending := pending[1..];
    }

    /** The account GetAll lists for id: as Get loads it, with a nil post list made empty. */
    function Listed(id: int): (u: User)
      requires id in rows
      reads this
      ensures Scans(u, Blank(id), id, rows[id]) && u.posts.Some?
      ensures u.posts.value == if Attached(posts, id).Some? then Attached(posts, id).value else []
    {
      var got := Get(Blank(id)).value;
      if got.posts.None? then got.(posts := Some([])) else got
    }

    /** GetAll: every account in table order, each with its posts attached and never a nil post list. */
    method GetAll() returns (users: seq<User>)
      requires Valid()
      ensures |users| == |order|
      ensures forall i :: 0 <= i < |users| ==> users[i] == Listed(order[i])
      ensures forall i :: 0 <= i < |users| ==> users[i].posts.Some? && users[i].id == order[i]
    {
      users := [];
      var index := 0;
      while index < |order|
        invariant 0 <= index <= |order| && |users| == index
        invariant forall i :: 0 <= i < index ==> users[i] == Listed(order[i])
      {
        var id := order[index];
        var selected := Scanned(Blank(id), id, rows[id]);
        GetOverwritesColumns(selected, Blank(id));
        var user := Get(selected).value;
        if user.posts.None? {
          user := user.(posts := Some([]));
        }
        users := users + [user];
        index := index + 1;
      }
    }
  }
}
