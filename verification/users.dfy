/** The user model (models/user.js): authentication, registration, the
    listing and detail reads, the partial update (which hashes a new
    password), remove, and the user's pantry ingredients and favourite
    recipes. */
module Users {
  import opened Optional
  import opened Values
  import opened Errors
  import opened Crypto
  import opened Store
  import Decimal
  import Sql
  import Sorting

  /** The columns an UPDATE may assign: all but the key `username`. */
  const Writable: set<string> := {"password", "first_name", "last_name", "email", "is_admin"}

  /** The `jsToSql` argument of User.update. */
  const Renames: Sql.Renames := map["firstName" := "first_name", "lastName" := "last_name", "isAdmin" := "is_admin"]

  /** The one message authenticate fails with, whether the user is unknown
      or the password wrong. */
  const BadCredentials: Error := UnauthorizedError(Some("Invalid username or password"))

  /** The user object the model hands out: every column but the password. */
  datatype Profile = Profile(username: string, firstName: Cell, lastName: Cell, email: Cell, isAdmin: Cell)

  function ProfileOf(u: User): (p: Profile)
    ensures p.username == u.username
  {
    Profile(u.username, u.firstName, u.lastName, u.email, u.isAdmin)
  }

  /** The row as the database sees it: column name to stored cell. */
  function Row(u: User): (row: map<string, Cell>)
    ensures row.Keys == Writable + {"username"}
  {
    map["username" := Plain(Str(u.username)), "password" := u.password, "first_name" := u.firstName,
        "last_name" := u.lastName, "email" := u.email, "is_admin" := u.isAdmin]
  }

  /** What each column of a user's row holds. */
  lemma RowCells(u: User)
    ensures var row := Row(u);
            && row["password"] == u.password && row["first_name"] == u.firstName
            && row["last_name"] == u.lastName && row["email"] == u.email && row["is_admin"] == u.isAdmin
  {
  }

  /** The user `username` with the other columns of `row`. */
  function OfRow(username: string, row: map<string, Cell>): User
    requires Writable <= row.Keys
  {
    User(username, row["password"], row["first_name"], row["last_name"], row["email"], row["is_admin"])
  }

  /** `ORDER BY username`. */
  predicate ByUsername(a: Profile, b: Profile) {
    Sorting.LexLe(a.username, b.username)
  }

  lemma ByUsernameOrder()
    ensures Sorting.TotalPreorder(ByUsername)
  {
    Sorting.LexOrder();
    forall a, b ensures ByUsername(a, b) || ByUsername(b, a) {
      assert Sorting.LexLe(a.username, b.username) || Sorting.LexLe(b.username, a.username);
    }
    forall a, b, c | ByUsername(a, b) && ByUsername(b, c) ensures ByUsername(a, c) {
      assert Sorting.LexLe(a.username, b.username) && Sorting.LexLe(b.username, c.username);
    }
  }

  /** `${id}` in a message. */
  function IdText(id: nat): string {
    Decimal.NatToString(id)
  }

  /** User.authenticate(username, password). The stored digest must match
      the password; an unknown user and a wrong password fail alike. */
  function Authenticate(db: Db, username: string, password: Value): (r: Result<Profile>)
    ensures username !in db.users ==> r == Err(BadCredentials)
    ensures r.Ok? <==> username in db.users && password.Str? && db.users[username].password == Digest(password.s)
    ensures r.Ok? ==> r.value == ProfileOf(db.users[username])
    ensures (&& username in db.users && password.Str? && db.users[username].password != Plain(Null)
             && db.users[username].password != Digest(password.s)) ==> r == Err(BadCredentials)
    ensures r.Err? ==> r.error == BadCredentials || r.error.kind == Unhandled
  {
    if username !in db.users then Err(BadCredentials)
    else
      var user := db.users[username];
      var valid :- Compare(password, user.password);
      if valid then Ok(ProfileOf(user)) else Err(BadCredentials)
  }

  /** A caller cannot tell an unknown user from a known one by the error a
      wrong string password gets. */
  lemma UnknownLikeWrongPassword(db: Db, unknown: string, known: string, password: string)
    requires unknown !in db.users && known in db.users
    requires db.users[known].password.Digest? && db.users[known].password.preimage != password
    ensures Authenticate(db, unknown, Str(password)) == Authenticate(db, known, Str(password))
  {
  }

  /** The username a value names in the key column: none for `undefined`
      or null, else its text. */
  function KeyText(v: Option<Value>): (k: Option<string>)
    ensures k.None? <==> v.None? || v == Some(Null)
    ensures k.Some? ==> k.value == ValueText(v.value)
  {
    if v.None? || v.value.Null? then None else Some(ValueText(v.value))
  }

  /** User.register({ username, password, firstName, lastName, email,
      isAdmin }): the duplicate check, then the hash, then the INSERT, which
      refuses a NULL key. Absent fields are stored as NULL. */
  function Register(db: Db, data: JsObject): (r: Result<Step<Profile>>)
    ensures var k := KeyText(Get(data, "username"));
            k.Some? && k.value in db.users ==> r == Err(BadRequestError(Some("Duplicate username: " + k.value)))
    ensures var k := KeyText(Get(data, "username"));
            r.Ok? <==> k.Some? && k.value !in db.users && Get(data, "password").Some? && Get(data, "password").value.Str?
    ensures var k := KeyText(Get(data, "username"));
            r.Err? && !(k.Some? && k.value in db.users) ==> r.error.kind == Unhandled
    ensures r.Ok? ==>
              var k := KeyText(Get(data, "username")).value;
              var password := Get(data, "password").value;
              && k !in db.users
              && k in r.value.db.users
              && r.value.db == db.(users := db.users[k := r.value.db.users[k]])
              && var u := r.value.db.users[k];
                 && u.password == Digest(password.s)
                 && u.password != Plain(password)
                 && u.firstName == Plain(Get(data, "firstName").GetOr(Null))
                 && u.lastName == Plain(Get(data, "lastName").GetOr(Null))
                 && u.email == Plain(Get(data, "email").GetOr(Null))
                 && u.isAdmin == Plain(Get(data, "isAdmin").GetOr(Null))
                 && r.value.out == ProfileOf(u)
                 && r.value.out.username == k
  {
    var key := KeyText(Get(data, "username"));
    if key.Some? && key.value in db.users then Err(BadRequestError(Some("Duplicate username: " + key.value)))
    else
      match Hash(Get(data, "password").GetOr(Null))
      case Err(e) => Err(e)
      case Ok(hashed) =>
        if key.None? then Err(UnhandledError("null value in column \"username\" violates not-null constraint"))
        else
          var user := User(key.value, hashed, Plain(Get(data, "firstName").GetOr(Null)), Plain(Get(data, "lastName").GetOr(Null)),
                           Plain(Get(data, "email").GetOr(Null)), Plain(Get(data, "isAdmin").GetOr(Null)));
          Ok(Step(db.(users := db.users[key.value := user]), ProfileOf(user)))
  }

  lemma RegisterKeepsValid(db: Db, data: JsObject)
    requires Valid(db) && Register(db, data).Ok?
    ensures Valid(Register(db, data).value.db)
  {
  }

  /** A registered user can log in with exactly the password registered. */
  lemma RegisterThenAuthenticate(db: Db, data: JsObject, password: string)
    requires Register(db, data).Ok?
    ensures var s := Register(db, data).value;
            var registered := Get(data, "password").value.s;
            Authenticate(s.db, s.out.username, Str(password))
            == if password == registered then Ok(s.out) else Err(BadCredentials)
  {
  }

  /** Registering the same username twice fails the second time. */
  lemma RegisterTwice(db: Db, data: JsObject)
    requires Register(db, data).Ok?
    ensures Register(Register(db, data).value.db, data)
            == Err(BadRequestError(Some("Duplicate username: " + Register(db, data).value.out.username)))
  {
  }

  /** The profiles of all users. */
  function Profiles(db: Db): set<Profile> {
    set u | u in db.users :: ProfileOf(db.users[u])
  }

  /** User.findAll(): every user's profile once, ascending by username. */
  method FindAll(db: Db) returns (rows: seq<Profile>)
    ensures Sorting.Sorted(rows, ByUsername)
    ensures forall p :: p in rows <==> exists u :: u in db.users && p == ProfileOf(db.users[u])
    ensures forall a, b :: 0 <= a < b < |rows| ==> rows[a] != rows[b]
  {
    ByUsernameOrder();
    rows := Sorting.SortSet(Profiles(db), ByUsername);
    Sorting.ListsSet(rows, Profiles(db));
  }

  /** The first query of User.get(username): the profile, or NotFound. */
  function GetRow(db: Db, username: string): (r: Result<Profile>)
    ensures r.Err? <==> username !in db.users
    ensures r.Err? ==> r.error == NotFoundError(Some("No user: " + username))
    ensures r.Ok? ==> r.value == ProfileOf(db.users[username])
  {
    if username !in db.users then Err(NotFoundError(Some("No user: " + username)))
    else Ok(ProfileOf(db.users[username]))
  }

  /** The names of the ingredients a user holds. */
  function Pantry(db: Db, username: string): set<string> {
    set p | p in db.userIngredients && p.0 == username :: p.1
  }

  /** The ids of the recipes a user has favourited. */
  function Favorites(db: Db, username: string): set<nat> {
    set p | p in db.userRecipes && p.0 == username :: p.1
  }

  /** A user with the names of their ingredients and the ids of their
      favourite recipes. */
  datatype Detail = Detail(user: Profile, ingredients: seq<string>, recipes: seq<nat>)

  /** User.get(username): the profile, the user's ingredient names in
      ascending order and favourite recipe ids in ascending order, each
      once. */
  method GetDetail(db: Db, username: string) returns (r: Result<Detail>)
    ensures r.Err? <==> username !in db.users
    ensures r.Err? ==> r.error == NotFoundError(Some("No user: " + username))
    ensures r.Ok? ==> r.value.user == ProfileOf(db.users[username])
    ensures r.Ok? ==> Sorting.Sorted(r.value.ingredients, Sorting.LexLe)
    ensures r.Ok? ==> forall n :: n in r.value.ingredients <==> (username, n) in db.userIngredients
    ensures r.Ok? ==> forall a, b :: 0 <= a < b < |r.value.ingredients| ==> r.value.ingredients[a] != r.value.ingredients[b]
    ensures r.Ok? ==> Sorting.Sorted(r.value.recipes, Sorting.NatLe)
    ensures r.Ok? ==> forall id :: id in r.value.recipes <==> (username, id) in db.userRecipes
    ensures r.Ok? ==> forall a, b :: 0 <= a < b < |r.value.recipes| ==> r.value.recipes[a] != r.value.recipes[b]
  {
    var row := GetRow(db, username);
    if row.Err? {
      return Err(row.error);
    }
    Sorting.LexOrder();
    var names := Sorting.SortSet(Pantry(db, username), Sorting.LexLe);
    Sorting.ListsSet(names, Pantry(db, username));
    forall n ensures n in Pantry(db, username) <==> (username, n) in db.userIngredients {
      if (username, n) in db.userIngredients {
        assert (username, n).1 in Pantry(db, username);
      }
    }
    Sorting.NatOrder();
    var ids := Sorting.SortSet(Favorites(db, username), Sorting.NatLe);
    Sorting.ListsSet(ids, Favorites(db, username));
    forall id ensures id in Favorites(db, username) <==> (username, id) in db.userRecipes {
      if (username, id) in db.userRecipes {
        assert (username, id).1 in Favorites(db, username);
      }
    }
    return Ok(Detail(row.value, names, ids));
  }

  /** User.getUserIngredients(username): the user's ingredient names, each
      once, in no particular order; an unknown user has none. */
  method GetUserIngredients(db: Db, username: string) returns (names: seq<string>)
    ensures forall n :: n in names <==> (username, n) in db.userIngredients
    ensures forall a, b :: 0 <= a < b < |names| ==> names[a] != names[b]
    ensures username !in db.users && Valid(db) ==> names == []
  {
    names := Sorting.Enumerate(Pantry(db, username));
    Sorting.ListsSet(names, Pantry(db, username));
    forall n ensures n in Pantry(db, username) <==> (username, n) in db.userIngredients {
      if (username, n) in db.userIngredients {
        assert (username, n).1 in Pantry(db, username);
      }
    }
    if username !in db.users && Valid(db) {
      assert Pantry(db, username) == {};
      assert |names| == |multiset(names)|;
    }
  }

  /** The favourites of a user joined with the recipes table: each id with
      the recipe's name, or NULL when no recipe has that id (LEFT JOIN). */
  function Joined(db: Db, username: string): set<(nat, Value)> {
    set id | id in Favorites(db, username) :: (id, if id in db.recipes then db.recipes[id].name else Null)
  }

  /** User.getUserRecipes(username): an (id, name) pair per favourite, in
      no particular order. */
  method GetUserRecipes(db: Db, username: string) returns (recipes: seq<(nat, Value)>)
    ensures forall id :: (exists i :: 0 <= i < |recipes| && recipes[i].0 == id) <==> (username, id) in db.userRecipes
    ensures forall i :: 0 <= i < |recipes| ==>
              recipes[i].1 == (if recipes[i].0 in db.recipes then db.recipes[recipes[i].0].name else Null)
    ensures forall a, b :: 0 <= a < b < |recipes| ==> recipes[a] != recipes[b]
  {
    recipes := Sorting.Enumerate(Joined(db, username));
    Sorting.ListsSet(recipes, Joined(db, username));
    forall i | 0 <= i < |recipes|
      ensures recipes[i].1 == (if recipes[i].0 in db.recipes then db.recipes[recipes[i].0].name else Null)
    {
      assert recipes[i] in Joined(db, username);
    }
    forall id ensures (exists i :: 0 <= i < |recipes| && recipes[i].0 == id) <==> (username, id) in db.userRecipes {
      if (username, id) in db.userRecipes {
        assert id in Favorites(db, username);
        var e := (id, if id in db.recipes then db.recipes[id].name else Null);
        assert e in Joined(db, username);
        var i :| 0 <= i < |recipes| && recipes[i] == e;
      }
      if exists i :: 0 <= i < |recipes| && recipes[i].0 == id {
        var i :| 0 <= i < |recipes| && recipes[i].0 == id;
        assert recipes[i] in Joined(db, username);
      }
    }
  }

  /** `data` with the password hashed when it is truthy (`data.password =
      await bcrypt.hash(...)`); every other field is stored as given. */
  function Prepared(data: JsObject): (r: Result<seq<(string, Cell)>>)
    ensures r.Ok? <==> !Given(Get(data, "password")) || Get(data, "password").value.Str?
    ensures r.Err? ==> r.error.kind == Unhandled
    ensures r.Ok? ==> |r.value| == |data|
    ensures r.Ok? ==> forall i :: 0 <= i < |data| ==> r.value[i].0 == data[i].0
    ensures r.Ok? ==> forall i :: 0 <= i < |data| && data[i].0 != "password" ==> r.value[i].1 == Plain(data[i].1)
    ensures r.Ok? && Given(Get(data, "password")) ==>
              forall i :: 0 <= i < |data| && data[i].0 == "password" ==> r.value[i].1 == Digest(Get(data, "password").value.s)
    ensures r.Ok? && !Given(Get(data, "password")) ==> forall i :: 0 <= i < |data| ==> r.value[i].1 == Plain(data[i].1)
  {
    var password := Get(data, "password");
    if Given(password) then
      var hashed :- Hash(password.value);
      Ok(seq(|data|, i requires 0 <= i < |data| =>
               (data[i].0, if data[i].0 == "password" then hashed else Plain(data[i].1))))
    else
      Ok(seq(|data|, i requires 0 <= i < |data| => (data[i].0, Plain(data[i].1))))
  }

  /** The planned UPDATE run against the table: the user whose username
      equals the bound key gets the assignments; no such user is NotFound. */
  function Apply(db: Db, username: string, st: Sql.Statement<Cell>): (r: Result<Step<Profile>>)
    requires Sql.AssignedColumns(st.assigns) <= Writable
    ensures r.Err? <==> !(st.key.Plain? && st.key.v.Str? && st.key.v.s in db.users)
    ensures r.Err? ==> r.error == NotFoundError(Some("No user: " + username))
    ensures r.Ok? ==>
              var key := st.key.v.s;
              && key in r.value.db.users
              && r.value.db == db.(users := db.users[key := r.value.db.users[key]])
              && r.value.db.users[key].username == key
              && r.value.out == ProfileOf(r.value.db.users[key])
    ensures r.Ok? && Valid(db) ==> Valid(r.value.db)
  {
    if !(st.key.Plain? && st.key.v.Str? && st.key.v.s in db.users) then
      Err(NotFoundError(Some("No user: " + username)))
    else
      var key := st.key.v.s;
      var updated := OfRow(key, Sql.Assign(Row(db.users[key]), st.assigns));
      PutUserValid(db, updated);
      Ok(Step(db.(users := db.users[key := updated]), ProfileOf(updated)))
  }

  /** User.update(username, data): hash a truthy password, build the SET
      list with the column renames, and `WHERE username = $(n+1)`. */
  function Update(db: Db, username: string, data: JsObject): (r: Result<Step<Profile>>)
    ensures |data| == 0 ==> r == Err(BadRequestError(Some("No data")))
    ensures r.FailsWith(NotFound) ==> username !in db.users && r.error == NotFoundError(Some("No user: " + username))
    ensures r.Err? && |data| > 0 ==> r.error.kind == NotFound || r.error.kind == Unhandled
    ensures r.Ok? ==> username in db.users && username in r.value.db.users && r.value.db.users[username].username == username
    ensures r.Ok? ==> r.value.db == db.(users := db.users[username := r.value.db.users[username]])
    ensures r.Ok? ==> r.value.out == ProfileOf(r.value.db.users[username])
  {
    var cells :- Prepared(data);
    var pu :- Sql.SqlForPartialUpdate(cells, Renames);
    var st :- Sql.Plan(pu, Plain(Str(username)), Writable);
    Apply(db, username, st)
  }

  /** The (column, value) pairs `data` asks to write, after the renames. */
  function Requested(data: JsObject): seq<(string, Value)> {
    Sql.Requested(data, Renames)
  }

  /** Every column `data` asks to write may be written, and none twice. */
  predicate Writes(data: JsObject) {
    Sql.AssignedColumns(Requested(data)) <= Writable && DistinctKeys(Requested(data))
  }

  /** What column `column` holds after the update: the value requested for
      it, stored as given, or the previous cell when none is. */
  function Sent(data: JsObject, column: string, prev: Cell): Cell {
    match Get(Requested(data), column)
    case None => prev
    case Some(v) => Plain(v)
  }

  /** Only the field `password` writes the password column. */
  lemma PasswordColumn(key: string)
    ensures Sql.ColumnFor(key, Renames) == "password" <==> key == "password"
  {
  }

  /** Looking a column up in two aligned lists, the second holding `f` of
      the first's value wherever the column matches. */
  lemma {:induction false} GetAligned(a: seq<(string, Value)>, b: seq<(string, Cell)>, column: string, f: Value -> Cell)
    requires |a| == |b|
    requires forall i :: 0 <= i < |a| ==> b[i].0 == a[i].0
    requires forall i :: 0 <= i < |a| && a[i].0 == column ==> b[i].1 == f(a[i].1)
    ensures Get(b, column).Some? <==> Get(a, column).Some?
    ensures Get(b, column).Some? ==> Get(b, column).value == f(Get(a, column).value)
  {
    if |a| > 0 && a[0].0 != column {
      GetAligned(a[1..], b[1..], column, f);
    }
  }

  /** The statement built from the prepared cells writes the columns
      `data` asks for. */
  lemma PreparedColumns(data: JsObject)
    requires Prepared(data).Ok?
    ensures var assigns := Sql.Requested(Prepared(data).value, Renames);
            && Sql.AssignedColumns(assigns) == Sql.AssignedColumns(Requested(data))
            && (DistinctKeys(assigns) <==> DistinctKeys(Requested(data)))
  {
    var assigns := Sql.Requested(Prepared(data).value, Renames);
    var want := Requested(data);
    assert forall i :: 0 <= i < |want| ==> assigns[i].0 == want[i].0;
    forall c | c in Sql.AssignedColumns(assigns) ensures c in Sql.AssignedColumns(want) {
      var i :| 0 <= i < |assigns| && assigns[i].0 == c;
      assert want[i].0 == c;
    }
    forall c | c in Sql.AssignedColumns(want) ensures c in Sql.AssignedColumns(assigns) {
      var i :| 0 <= i < |want| && want[i].0 == c;
      assert assigns[i].0 == c;
    }
  }

  /** For each column the cell the prepared statement assigns is the value
      asked for, except that a truthy password is assigned its digest. */
  lemma PreparedCell(data: JsObject, column: string)
    requires Prepared(data).Ok?
    ensures var assigns := Sql.Requested(Prepared(data).value, Renames);
            && (Get(assigns, column).Some? <==> Get(Requested(data), column).Some?)
            && (Get(assigns, column).Some? ==>
                  Get(assigns, column).value
                  == if column == "password" && Given(Get(data, "password")) then Digest(Get(data, "password").value.s)
                     else Plain(Get(Requested(data), column).value))
  {
    var assigns := Sql.Requested(Prepared(data).value, Renames);
    var want := Requested(data);
    forall i | 0 <= i < |want| && want[i].0 == column
      ensures column != "password" || !Given(Get(data, "password")) ==> assigns[i].1 == Plain(want[i].1)
      ensures column == "password" && Given(Get(data, "password")) ==> assigns[i].1 == Digest(Get(data, "password").value.s)
    {
      PasswordColumn(data[i].0);
    }
    if column != "password" || !Given(Get(data, "password")) {
      GetAligned(want, assigns, column, v => Plain(v));
    } else {
      var digest := Digest(Get(data, "password").value.s);
      GetAligned(want, assigns, column, v => digest);
    }
  }

  /** The statement a well-formed data object plans: its own requested
      columns with the prepared cells, selecting by the username; or a
      database error for a column that may not be written or is written
      twice. */
  lemma UpdatePlans(db: Db, username: string, data: JsObject)
    requires |data| > 0 && Sql.QuoteFree(data, Renames) && Prepared(data).Ok?
    ensures Writes(data) ==>
              Update(db, username, data)
              == Apply(db, username, Sql.Statement(Sql.Requested(Prepared(data).value, Renames), Plain(Str(username))))
    ensures !Writes(data) ==> Update(db, username, data).FailsWith(Unhandled)
  {
    var cells := Prepared(data).value;
    assert Sql.QuoteFree(cells, Renames) by {
      forall i | 0 <= i < |cells| ensures cells[i].0 == data[i].0 {}
    }
    PreparedColumns(data);
    Sql.PlanMeaning(cells, Renames, Plain(Str(username)), Writable);
  }

  /** The cell the prepared statement stores in one updatable column: the
      digest of a truthy password, else what Sent says. */
  lemma StoredCell(row: map<string, Cell>, data: JsObject, column: string)
    requires Prepared(data).Ok? && Writes(data) && column in Writable && column in row
    ensures var assigns := Sql.Requested(Prepared(data).value, Renames);
            && column in Sql.Assign(row, assigns)
            && Sql.Assign(row, assigns)[column]
               == if column == "password" && Given(Get(data, "password")) then Digest(Get(data, "password").value.s)
                  else Sent(data, column, row[column])
  {
    var assigns := Sql.Requested(Prepared(data).value, Renames);
    PreparedColumns(data);
    PreparedCell(data, column);
    Sql.AssignMeaning(row, assigns, column);
  }

  /** The user `username` as the prepared statement leaves `prev`. */
  function Updated(username: string, prev: User, data: JsObject): User
    requires Prepared(data).Ok?
  {
    OfRow(username, Sql.Assign(Row(prev), Sql.Requested(Prepared(data).value, Renames)))
  }

  /** The prepared statement of a well-formed data object updates the
      user's row. */
  lemma ApplyResult(db: Db, username: string, data: JsObject)
    requires Prepared(data).Ok? && Writes(data) && username in db.users
    ensures Sql.AssignedColumns(Sql.Requested(Prepared(data).value, Renames)) <= Writable
    ensures var u := Updated(username, db.users[username], data);
            Apply(db, username, Sql.Statement(Sql.Requested(Prepared(data).value, Renames), Plain(Str(username))))
            == Ok(Step(db.(users := db.users[username := u]), ProfileOf(u)))
  {
    PreparedColumns(data);
  }

  /** The fields of the updated user, one column at a time. */
  lemma UpdatedFirstName(username: string, prev: User, data: JsObject)
    requires Prepared(data).Ok? && Writes(data)
    ensures Updated(username, prev, data).firstName == Sent(data, "first_name", prev.firstName)
  {
    RowCells(prev);
    StoredCell(Row(prev), data, "first_name");
  }

  lemma UpdatedLastName(username: string, prev: User, data: JsObject)
    requires Prepared(data).Ok? && Writes(data)
    ensures Updated(username, prev, data).lastName == Sent(data, "last_name", prev.lastName)
  {
    RowCells(prev);
    StoredCell(Row(prev), data, "last_name");
  }

  lemma UpdatedEmail(username: string, prev: User, data: JsObject)
    requires Prepared(data).Ok? && Writes(data)
    ensures Updated(username, prev, data).email == Sent(data, "email", prev.email)
  {
    RowCells(prev);
    StoredCell(Row(prev), data, "email");
  }

  lemma UpdatedIsAdmin(username: string, prev: User, data: JsObject)
    requires Prepared(data).Ok? && Writes(data)
    ensures Updated(username, prev, data).isAdmin == Sent(data, "is_admin", prev.isAdmin)
  {
    RowCells(prev);
    StoredCell(Row(prev), data, "is_admin");
  }

  lemma UpdatedPassword(username: string, prev: User, data: JsObject)
    requires Prepared(data).Ok? && Writes(data)
    ensures Updated(username, prev, data).password
            == if Given(Get(data, "password")) then Digest(Get(data, "password").value.s)
               else Sent(data, "password", prev.password)
  {
    RowCells(prev);
    StoredCell(Row(prev), data, "password");
  }

  /** The updated user holds, per column, what Sent says, and the digest of
      a truthy password. */
  lemma UpdatedFields(username: string, prev: User, data: JsObject)
    requires Prepared(data).Ok? && Writes(data)
    ensures var u := Updated(username, prev, data);
            && u.firstName == Sent(data, "first_name", prev.firstName)
            && u.lastName == Sent(data, "last_name", prev.lastName)
            && u.email == Sent(data, "email", prev.email)
            && u.isAdmin == Sent(data, "is_admin", prev.isAdmin)
            && u.password == (if Given(Get(data, "password")) then Digest(Get(data, "password").value.s)
                              else Sent(data, "password", prev.password))
  {
    UpdatedFirstName(username, prev, data);
    UpdatedLastName(username, prev, data);
    UpdatedEmail(username, prev, data);
    UpdatedIsAdmin(username, prev, data);
    UpdatedPassword(username, prev, data);
  }

  /** What an update of a data object with plain field names does: it
      succeeds exactly when there is data, a truthy password is a string,
      every requested column may be written once, and the user exists. The
      fields named are stored as given, the renamed ones under their
      columns, except that a truthy password is stored as its digest and
      never as the plain text; the rest are kept. */
  lemma UpdateMeaning(db: Db, username: string, data: JsObject)
    requires Sql.QuoteFree(data, Renames)
    ensures var r := Update(db, username, data);
            var password := Get(data, "password");
            && (r.Ok? <==> |data| > 0 && (!Given(password) || password.value.Str?) && Writes(data) && username in db.users)
            && (r.Ok? ==>
                  var prev := db.users[username];
                  var u := r.value.db.users[username];
                  && u.firstName == Sent(data, "first_name", prev.firstName)
                  && u.lastName == Sent(data, "last_name", prev.lastName)
                  && u.email == Sent(data, "email", prev.email)
                  && u.isAdmin == Sent(data, "is_admin", prev.isAdmin)
                  && (Given(password) ==> u.password == Digest(password.value.s) && u.password != Plain(password.value))
                  && (!Given(password) ==> u.password == Sent(data, "password", prev.password)))
  {
    if |data| > 0 && Prepared(data).Ok? {
      UpdatePlans(db, username, data);
      if Writes(data) && username in db.users {
        ApplyResult(db, username, data);
        UpdatedFields(username, db.users[username], data);
      }
    }
  }

  /** User.remove(username); the user's pantry and favourites go with it. */
  function Remove(db: Db, username: string): (r: Result<Db>)
    ensures r.Err? <==> username !in db.users
    ensures r.Err? ==> r.error == NotFoundError(Some("No user: " + username))
    ensures r.Ok? ==> r.value.users.Keys == db.users.Keys - {username}
    ensures r.Ok? ==> forall u :: u in r.value.users ==> r.value.users[u] == db.users[u]
    ensures r.Ok? ==> forall p :: p in r.value.userIngredients <==> p in db.userIngredients && p.0 != username
    ensures r.Ok? ==> forall p :: p in r.value.userRecipes <==> p in db.userRecipes && p.0 != username
    ensures r.Ok? ==> r.value == db.(users := r.value.users, userIngredients := r.value.userIngredients,
                                      userRecipes := r.value.userRecipes)
    ensures r.Ok? && Valid(db) ==> Valid(r.value)
  {
    if username !in db.users then Err(NotFoundError(Some("No user: " + username)))
    else
      Ok(db.(users := db.users - {username},
             userIngredients := (set p | p in db.userIngredients && p.0 != username),
             userRecipes := set p | p in db.userRecipes && p.0 != username))
  }

  /** After a remove the user can no longer log in. */
  lemma RemoveThenAuthenticate(db: Db, username: string, password: Value)
    requires Remove(db, username).Ok?
    ensures Authenticate(Remove(db, username).value, username, password) == Err(BadCredentials)
  {
  }

  /** What addIngredient returns: `{ username, ingredientName }`. */
  datatype UserIngredient = UserIngredient(username: string, ingredientName: string)

  /** User.addIngredient(username, ingredientName): the ingredient, then
      the user, then the pair must be new. */
  function AddIngredient(db: Db, username: string, ingredientName: string): (r: Result<Step<UserIngredient>>)
    ensures ingredientName !in db.ingredients ==> r == Err(NotFoundError(Some("No ingredient: " + ingredientName)))
    ensures ingredientName in db.ingredients && username !in db.users ==> r == Err(NotFoundError(Some("No user: " + username)))
    ensures ingredientName in db.ingredients && username in db.users && (username, ingredientName) in db.userIngredients ==>
              r == Err(BadRequestError(Some("User " + username + " already possesses ingredient '" + ingredientName + "'")))
    ensures r.Ok? <==> ingredientName in db.ingredients && username in db.users && (username, ingredientName) !in db.userIngredients
    ensures r.Ok? ==> r.value.out == UserIngredient(username, ingredientName)
    ensures r.Ok? ==> r.value.db == db.(userIngredients := db.userIngredients + {(username, ingredientName)})
    ensures r.Ok? && Valid(db) ==> Valid(r.value.db)
  {
    if ingredientName !in db.ingredients then Err(NotFoundError(Some("No ingredient: " + ingredientName)))
    else if username !in db.users then Err(NotFoundError(Some("No user: " + username)))
    else if (username, ingredientName) in db.userIngredients then
      Err(BadRequestError(Some("User " + username + " already possesses ingredient '" + ingredientName + "'")))
    else Ok(Step(db.(userIngredients := db.userIngredients + {(username, ingredientName)}), UserIngredient(username, ingredientName)))
  }

  /** User.removeIngredient(username, ingredientName): returns the message. */
  function RemoveIngredient(db: Db, username: string, ingredientName: string): (r: Result<Step<string>>)
    ensures r.Err? <==> (username, ingredientName) !in db.userIngredients
    ensures r.Err? ==> r.error == NotFoundError(Some("A match between user " + username + " and ingredient " + ingredientName + " was not found"))
    ensures r.Ok? ==> r.value.out == "Removed ingredient " + ingredientName + " from user " + username
    ensures r.Ok? ==> r.value.db == db.(userIngredients := db.userIngredients - {(username, ingredientName)})
    ensures r.Ok? && Valid(db) ==> Valid(r.value.db)
  {
    if (username, ingredientName) !in db.userIngredients then
      Err(NotFoundError(Some("A match between user " + username + " and ingredient " + ingredientName + " was not found")))
    else
      Ok(Step(db.(userIngredients := db.userIngredients - {(username, ingredientName)}),
              "Removed ingredient " + ingredientName + " from user " + username))
  }

  /** Removing an ingredient just added to a pantry gives back the database
      it was added to; adding it twice fails the second time. */
  lemma AddThenRemoveIngredient(db: Db, username: string, ingredientName: string)
    requires AddIngredient(db, username, ingredientName).Ok?
    ensures var s := AddIngredient(db, username, ingredientName).value;
            && RemoveIngredient(s.db, username, ingredientName).Ok?
            && RemoveIngredient(s.db, username, ingredientName).value.db == db
            && AddIngredient(s.db, username, ingredientName).FailsWith(BadRequest)
  {
    var s := AddIngredient(db, username, ingredientName).value;
    assert s.db.userIngredients - {(username, ingredientName)} == db.userIngredients;
  }

  /** What addRecipe returns: `{ username, recipeId }`. */
  datatype UserRecipe = UserRecipe(username: string, recipeId: nat)

  /** User.addRecipe(username, recipeId): the recipe, then the user, then
      the pair must be new. */
  function AddRecipe(db: Db, username: string, recipeId: nat): (r: Result<Step<UserRecipe>>)
    ensures recipeId !in db.recipes ==> r == Err(NotFoundError(Some("No recipe: " + IdText(recipeId))))
    ensures recipeId in db.recipes && username !in db.users ==> r == Err(NotFoundError(Some("No user: " + username)))
    ensures recipeId in db.recipes && username in db.users && (username, recipeId) in db.userRecipes ==>
              r == Err(BadRequestError(Some("User " + username + " has already favorited recipe " + IdText(recipeId))))
    ensures r.Ok? <==> recipeId in db.recipes && username in db.users && (username, recipeId) !in db.userRecipes
    ensures r.Ok? ==> r.value.out == UserRecipe(username, recipeId)
    ensures r.Ok? ==> r.value.db == db.(userRecipes := db.userRecipes + {(username, recipeId)})
    ensures r.Ok? && Valid(db) ==> Valid(r.value.db)
  {
    if recipeId !in db.recipes then Err(NotFoundError(Some("No recipe: " + IdText(recipeId))))
    else if username !in db.users then Err(NotFoundError(Some("No user: " + username)))
    else if (username, recipeId) in db.userRecipes then
      Err(BadRequestError(Some("User " + username + " has already favorited recipe " + IdText(recipeId))))
    else Ok(Step(db.(userRecipes := db.userRecipes + {(username, recipeId)}), UserRecipe(username, recipeId)))
  }

  /** User.removeRecipe(username, recipeId): returns the message. */
  function RemoveRecipe(db: Db, username: string, recipeId: nat): (r: Result<Step<string>>)
    ensures r.Err? <==> (username, recipeId) !in db.userRecipes
    ensures r.Err? ==> r.error == NotFoundError(Some("A match between user " + username + " and recipe " + IdText(recipeId) + " was not found"))
    ensures r.Ok? ==> r.value.out == "Removed recipe " + IdText(recipeId) + " from user " + username + "'s favorites"
    ensures r.Ok? ==> r.value.db == db.(userRecipes := db.userRecipes - {(username, recipeId)})
    ensures r.Ok? && Valid(db) ==> Valid(r.value.db)
  {
    if (username, recipeId) !in db.userRecipes then
      Err(NotFoundError(Some("A match between user " + username + " and recipe " + IdText(recipeId) + " was not found")))
    else
      Ok(Step(db.(userRecipes := db.userRecipes - {(username, recipeId)}),
              "Removed recipe " + IdText(recipeId) + " from user " + username + "'s favorites"))
  }

  /** Removing a favourite just added gives back the database it was added
      to; favouriting it twice fails the second time. */
  lemma AddThenRemoveRecipe(db: Db, username: string, recipeId: nat)
    requires AddRecipe(db, username, recipeId).Ok?
    ensures var s := AddRecipe(db, username, recipeId).value;
            && RemoveRecipe(s.db, username, recipeId).Ok?
            && RemoveRecipe(s.db, username, recipeId).value.db == db
            && AddRecipe(s.db, username, recipeId).FailsWith(BadRequest)
  {
    var s := AddRecipe(db, username, recipeId).value;
    assert s.db.userRecipes - {(username, recipeId)} == db.userRecipes;
  }
}
