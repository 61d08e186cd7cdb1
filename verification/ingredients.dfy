/** The ingredient model (models/ingredient.js): create, the two listing
    queries, get, the partial update and remove, over the ingredients table
    and the junction rows that refer to it. */
module Ingredients {
  import opened Optional
  import opened Values
  import opened Errors
  import opened Store
  import Sql
  import SqlText
  import Search
  import Sorting

  /** The columns of `ingredients`, and those an UPDATE may assign: the
      key column `name` is not among them. */
  const Columns: set<string> := {"name", "description", "type"}
  const Writable: set<string> := {"description", "type"}

  /** The row as the database sees it: column name to value. */
  function Row(i: Ingredient): (row: map<string, Value>)
    ensures row.Keys == Columns
  {
    map["name" := Str(i.name), "description" := i.description, "type" := i.kind]
  }

  /** The ingredient stored under `name` with the other columns of `row`. */
  function OfRow(name: string, row: map<string, Value>): Ingredient
    requires "description" in row && "type" in row
  {
    Ingredient(name, row["description"], row["type"])
  }

  /** `ORDER BY name`. */
  predicate ByName(a: Ingredient, b: Ingredient) {
    Sorting.LexLe(a.name, b.name)
  }

  lemma ByNameOrder()
    ensures Sorting.TotalPreorder(ByName)
  {
    forall a, b ensures ByName(a, b) || ByName(b, a) {
      Sorting.LexTotal(a.name, b.name);
    }
    forall a, b, c | ByName(a, b) && ByName(b, c) ensures ByName(a, c) {
      Sorting.LexTransitive(a.name, b.name, c.name);
    }
  }

  /** Ingredient.create({ name, description = "", type = "" }). The name
      is sent as text; a value that is not a string arrives as its
      `String(...)` text. */
  function Create(db: Db, data: JsObject): (r: Result<Step<Ingredient>>)
    ensures !Given(Get(data, "name")) ==> r == Err(BadRequestError(Some("An ingredient must have a name")))
    ensures Given(Get(data, "name")) && ValueText(Get(data, "name").value) in db.ingredients
            ==> r == Err(BadRequestError(Some("Duplicate ingredient: " + ValueText(Get(data, "name").value))))
    ensures r.Ok? <==> Given(Get(data, "name")) && ValueText(Get(data, "name").value) !in db.ingredients
    ensures r.Ok? ==>
              var name := ValueText(Get(data, "name").value);
              && r.value.out == Ingredient(name, Get(data, "description").GetOr(Str("")),
                                           Get(data, "type").GetOr(Str("")))
              && r.value.db.ingredients.Keys == db.ingredients.Keys + {name}
              && r.value.db.ingredients[name] == r.value.out
              && (forall n :: n in db.ingredients ==> r.value.db.ingredients[n] == db.ingredients[n])
              && r.value.db == db.(ingredients := r.value.db.ingredients)
    ensures r.Ok? && Valid(db) ==> Valid(r.value.db)
  {
    var name := Get(data, "name");
    if !Given(name) then Err(BadRequestError(Some("An ingredient must have a name")))
    else
      var key := ValueText(name.value);
      if key in db.ingredients then Err(BadRequestError(Some("Duplicate ingredient: " + key)))
      else
        var ingredient := Ingredient(key, Get(data, "description").GetOr(Str("")), Get(data, "type").GetOr(Str("")));
        PutIngredientValid(db, ingredient);
        Ok(Step(db.(ingredients := db.ingredients[key := ingredient]), ingredient))
  }

  /** Ingredient.get(name). */
  function GetByName(db: Db, name: string): (r: Result<Ingredient>)
    ensures name == "" ==> r == Err(BadRequestError(Some("Please provide a search criterion.")))
    ensures name != "" && name !in db.ingredients ==> r == Err(NotFoundError(Some("Ingredient not found: " + name)))
    ensures r.Ok? <==> name != "" && name in db.ingredients
    ensures r.Ok? ==> r.value == db.ingredients[name]
    ensures r.Ok? && Valid(db) ==> r.value.name == name
  {
    if name == "" then Err(BadRequestError(Some("Please provide a search criterion.")))
    else if name !in db.ingredients then Err(NotFoundError(Some("Ingredient not found: " + name)))
    else Ok(db.ingredients[name])
  }

  /** Ingredient.findAll(): every row, ascending by name. */
  method FindAll(db: Db) returns (rows: seq<Ingredient>)
    ensures Sorting.Sorted(rows, ByName)
    ensures multiset(rows) == multiset(db.ingredients.Values)
  {
    ByNameOrder();
    rows := Sorting.SortSet(db.ingredients.Values, ByName);
  }

  /** The three filters of findByCriteria, in the order the clauses are
      built: nameLike, descriptionLike, typeLike. */
  function Criteria(filters: JsObject): (fs: seq<Search.Filter>)
    ensures |fs| == 3
    ensures fs[0].column == "name" && fs[1].column == "description" && fs[2].column == "type"
    ensures Search.Supplied(fs[0]) <==> Given(Get(filters, "nameLike"))
    ensures Given(Get(filters, "nameLike")) ==> fs[0].text == ValueText(Get(filters, "nameLike").value)
    ensures Search.Supplied(fs[1]) <==> Given(Get(filters, "descriptionLike"))
    ensures Given(Get(filters, "descriptionLike")) ==> fs[1].text == ValueText(Get(filters, "descriptionLike").value)
    ensures Search.Supplied(fs[2]) <==> Given(Get(filters, "typeLike"))
    ensures Given(Get(filters, "typeLike")) ==> fs[2].text == ValueText(Get(filters, "typeLike").value)
  {
    [Search.Filter("name", Search.FilterText(Get(filters, "nameLike"))),
     Search.Filter("description", Search.FilterText(Get(filters, "descriptionLike"))),
     Search.Filter("type", Search.FilterText(Get(filters, "typeLike")))]
  }

  /** The WHERE text of a search can be evaluated on every ingredient row. */
  lemma CriteriaEvaluable(filters: JsObject, i: Ingredient)
    ensures Search.Evaluable(Row(i), Criteria(filters))
  {
    var fs := Criteria(filters);
    forall f | f in fs ensures SqlText.ColumnFits(f.column, SqlText.Conjunction) && f.column in Row(i) {
      assert f == fs[0] || f == fs[1] || f == fs[2];
    }
  }

  /** Ingredient.findByCriteria(filters). Without a truthy filter it is
      findAll; otherwise the rows on which the built WHERE text is true,
      ascending by name. When no filter text holds an ILIKE wildcard, those
      are exactly the rows in which every supplied filter occurs in its
      column, ignoring case. */
  method FindByCriteria(db: Db, filters: JsObject) returns (rows: seq<Ingredient>)
    ensures Sorting.Sorted(rows, ByName)
    ensures forall a, b :: 0 <= a < b < |rows| ==> rows[a] != rows[b]
    ensures !Search.AnySupplied(Criteria(filters)) ==> multiset(rows) == multiset(db.ingredients.Values)
    ensures Search.AnySupplied(Criteria(filters)) ==>
              var w := Search.BuildWhere(Criteria(filters));
              forall i :: i in rows <==> i in db.ingredients.Values && Search.EvalWhere(w.clause, w.values, Row(i)) == Some(true)
    ensures Search.LiteralTexts(Criteria(filters)) ==>
              forall i :: i in rows <==> i in db.ingredients.Values && Search.MatchesAll(Row(i), Criteria(filters))
  {
    var fs := Criteria(filters);
    if !Search.AnySupplied(fs) {
      rows := FindAll(db);
      Sorting.ListsSet(rows, db.ingredients.Values);
      return;
    }
    var w := Search.BuildWhere(fs);
    var selected := set i | i in db.ingredients.Values && Search.EvalWhere(w.clause, w.values, Row(i)) == Some(true);
    ByNameOrder();
    rows := Sorting.SortSet(selected, ByName);
    Sorting.ListsSet(rows, selected);
    if Search.LiteralTexts(fs) {
      forall i | i in db.ingredients.Values
        ensures Search.EvalWhere(w.clause, w.values, Row(i)) == Some(Search.MatchesAll(Row(i), fs))
      {
        CriteriaEvaluable(filters, i);
        Search.WhereMeaning(fs, Row(i));
      }
    }
  }

  /** Every ingredient row is one the WHERE text of a search is defined on:
      the database does not reject the query. */
  lemma SearchDefined(db: Db, filters: JsObject, i: Ingredient)
    requires Search.AnySupplied(Criteria(filters))
    ensures var w := Search.BuildWhere(Criteria(filters));
            Search.EvalWhere(w.clause, w.values, Row(i)).Some?
  {
    CriteriaEvaluable(filters, i);
    Search.WhereDefined(Criteria(filters), Row(i));
  }

  /** The planned UPDATE run against the table: the row whose name equals
      the bound key gets the assignments; no such row is NotFound. */
  function Apply(db: Db, name: string, st: Sql.Statement<Value>): (r: Result<Step<Ingredient>>)
    requires Sql.AssignedColumns(st.assigns) <= Writable
    ensures r.Err? <==> !(st.key.Str? && st.key.s in db.ingredients)
    ensures r.Err? ==> r.error == NotFoundError(Some("Ingredient with name '" + name + "' not found"))
    ensures r.Ok? ==> r.value.out.name == st.key.s
    ensures r.Ok? ==> r.value.db == db.(ingredients := db.ingredients[st.key.s := r.value.out])
    ensures r.Ok? && Valid(db) ==> Valid(r.value.db)
  {
    if !(st.key.Str? && st.key.s in db.ingredients) then
      Err(NotFoundError(Some("Ingredient with name '" + name + "' not found")))
    else
      var key := st.key.s;
      var updated := OfRow(key, Sql.Assign(Row(db.ingredients[key]), st.assigns));
      PutIngredientValid(db, updated);
      Ok(Step(db.(ingredients := db.ingredients[key := updated]), updated))
  }

  /** Ingredient.update(name, data): the builder's SET list and
      `WHERE name = $(n+1)` with binds `[...values, name]`, as the database
      executes them. Column errors are raised when the statement is planned,
      before any row is looked at. */
  function Update(db: Db, name: string, data: JsObject): (r: Result<Step<Ingredient>>)
    ensures |data| == 0 ==> r == Err(BadRequestError(Some("No update data provided")))
    ensures r.FailsWith(NotFound) ==>
              name !in db.ingredients && r.error == NotFoundError(Some("Ingredient with name '" + name + "' not found"))
    ensures r.Err? && |data| > 0 ==> r.error.kind == NotFound || r.error.kind == Unhandled
    ensures r.Ok? ==> name in db.ingredients && r.value.out.name == name
    ensures r.Ok? ==> r.value.db == db.(ingredients := db.ingredients[name := r.value.out])
    ensures r.Ok? && Valid(db) ==> Valid(r.value.db)
  {
    if |data| == 0 then Err(BadRequestError(Some("No update data provided")))
    else
      match Sql.SqlForPartialUpdate(data, map[])
      case Err(e) => Err(e)
      case Ok(pu) =>
        var st :- Sql.Plan(pu, Str(name), Writable);
        Apply(db, name, st)
  }

  /** The columns `data` names are all updatable. */
  predicate WritesWritable(data: JsObject) {
    forall i :: 0 <= i < |data| ==> data[i].0 in Writable
  }

  /** The fields of `data` as assignments lie within the updatable columns
      exactly when every field is updatable. */
  lemma WritableFields(data: JsObject)
    ensures Sql.AssignedColumns(data) <= Writable <==> WritesWritable(data)
  {
    if !WritesWritable(data) {
      var i :| 0 <= i < |data| && data[i].0 !in Writable;
      assert data[i].0 in Sql.AssignedColumns(data);
    }
  }

  /** The statement a well-formed data object plans: exactly its fields as
      assignments, selecting by the name; or a database error when a field
      is not updatable. */
  lemma UpdatePlans(db: Db, name: string, data: JsObject)
    requires |data| > 0 && DistinctKeys(data) && Sql.QuoteFree(data, map[])
    ensures WritesWritable(data) ==> Update(db, name, data) == Apply(db, name, Sql.Statement(data, Str(name)))
    ensures !WritesWritable(data) ==> Update(db, name, data).FailsWith(Unhandled)
  {
    Sql.NoRenames(data);
    Sql.PlanMeaning(data, map[], Str(name), Writable);
    WritableFields(data);
  }

  /** What an update of a well-formed data object does: it succeeds exactly
      when there is data, every field is an updatable column and the row
      exists; a field outside the table fails in the database, an unknown
      name with NotFound; a supplied field (null included) is stored and
      every other column keeps its value. */
  lemma UpdateMeaning(db: Db, name: string, data: JsObject)
    requires DistinctKeys(data) && Sql.QuoteFree(data, map[])
    ensures var r := Update(db, name, data);
            && (r.Ok? <==> |data| > 0 && WritesWritable(data) && name in db.ingredients)
            && (|data| > 0 && !WritesWritable(data) ==> r.FailsWith(Unhandled))
            && (|data| > 0 && WritesWritable(data) && name !in db.ingredients ==> r.FailsWith(NotFound))
            && (r.Ok? ==>
                  && r.value.out.description == Get(data, "description").GetOr(db.ingredients[name].description)
                  && r.value.out.kind == Get(data, "type").GetOr(db.ingredients[name].kind))
  {
    if |data| > 0 {
      UpdatePlans(db, name, data);
      if WritesWritable(data) && name in db.ingredients {
        ApplyFields(db, name, data);
      }
    }
  }

  /** Applying a data object's own fields stores each supplied field and
      keeps the other columns. */
  lemma ApplyFields(db: Db, name: string, data: JsObject)
    requires DistinctKeys(data) && WritesWritable(data) && name in db.ingredients
    ensures var r := Apply(db, name, Sql.Statement(data, Str(name)));
            && r.Ok?
            && r.value.out.description == Get(data, "description").GetOr(db.ingredients[name].description)
            && r.value.out.kind == Get(data, "type").GetOr(db.ingredients[name].kind)
  {
    WritableFields(data);
    Sql.AssignMeaning(Row(db.ingredients[name]), data, "description");
    Sql.AssignMeaning(Row(db.ingredients[name]), data, "type");
  }

  /** Ingredient.remove(name); the recipe and user junction rows naming
      the ingredient go with it. */
  function Remove(db: Db, name: string): (r: Result<Db>)
    ensures r.Err? <==> name !in db.ingredients
    ensures r.Err? ==> r.error == NotFoundError(Some("Ingredient with name " + name + " not found"))
    ensures r.Ok? ==> r.value.ingredients.Keys == db.ingredients.Keys - {name}
    ensures r.Ok? ==> forall n :: n in r.value.ingredients ==> r.value.ingredients[n] == db.ingredients[n]
    ensures r.Ok? ==> forall k :: k in r.value.recipeIngredients <==> k in db.recipeIngredients && k.1 != name
    ensures r.Ok? ==> forall k :: k in r.value.recipeIngredients ==> r.value.recipeIngredients[k] == db.recipeIngredients[k]
    ensures r.Ok? ==> forall p :: p in r.value.userIngredients <==> p in db.userIngredients && p.1 != name
    ensures r.Ok? ==> r.value == db.(ingredients := r.value.ingredients, recipeIngredients := r.value.recipeIngredients,
                                      userIngredients := r.value.userIngredients)
    ensures r.Ok? && Valid(db) ==> Valid(r.value)
  {
    if name !in db.ingredients then Err(NotFoundError(Some("Ingredient with name " + name + " not found")))
    else
      Ok(db.(ingredients := db.ingredients - {name},
             recipeIngredients := map k | k in db.recipeIngredients && k.1 != name :: db.recipeIngredients[k],
             userIngredients := set p | p in db.userIngredients && p.1 != name))
  }

  /** A created ingredient can be read back under its name. */
  lemma CreateThenGet(db: Db, data: JsObject)
    requires Create(db, data).Ok?
    ensures var s := Create(db, data).value;
            GetByName(s.db, s.out.name) == Ok(s.out)
  {
  }

  /** Creating the same name twice fails the second time, with the
      duplicate error. */
  lemma CreateTwice(db: Db, data: JsObject)
    requires Create(db, data).Ok?
    ensures Create(Create(db, data).value.db, data)
            == Err(BadRequestError(Some("Duplicate ingredient: " + Create(db, data).value.out.name)))
  {
  }

  /** Removing a freshly created ingredient gives back the database it was
      created in. */
  lemma CreateThenRemove(db: Db, data: JsObject)
    requires Valid(db) && Create(db, data).Ok?
    ensures var s := Create(db, data).value;
            Remove(s.db, s.out.name) == Ok(db)
  {
    var s := Create(db, data).value;
    var name := s.out.name;
    assert name !in db.ingredients;
    assert s.db == db.(ingredients := db.ingredients[name := s.out]);
    var db' := Remove(s.db, name).value;
    PutThenRemove(db.ingredients, name, s.out);
    assert db'.ingredients == db.ingredients;
    assert forall k :: k in db.recipeIngredients ==> k.1 != name;
    assert db'.recipeIngredients == db.recipeIngredients;
    assert forall p :: p in db.userIngredients ==> p.1 != name;
    assert db'.userIngredients == db.userIngredients;
  }

  /** After a remove the name is gone. */
  lemma RemoveThenGet(db: Db, name: string)
    requires name != "" && Remove(db, name).Ok?
    ensures GetByName(Remove(db, name).value, name) == Err(NotFoundError(Some("Ingredient not found: " + name)))
  {
  }
}
