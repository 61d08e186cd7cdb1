/** The recipe model (models/recipe.js): create, the two listing queries,
    get with the recipe's ingredients, the partial update, remove, and
    adding and removing recipe ingredients. */
module Recipes {
  import opened Optional
  import opened Values
  import opened Errors
  import opened Store
  import Decimal
  import Sql
  import SqlText
  import Search
  import Sorting

  /** The columns of `recipes`, and those an UPDATE may assign: the id is
      not among them. */
  const Columns: set<string> := {"id", "name", "instructions", "category", "area"}
  const Writable: set<string> := {"name", "instructions", "category", "area"}

  /** The row as the database sees it: column name to value. */
  function Row(r: Recipe): (row: map<string, Value>)
    ensures row.Keys == Columns
  {
    map["id" := Int(r.id), "name" := r.name, "instructions" := r.instructions,
        "category" := r.category, "area" := r.area]
  }

  /** The recipe with id `id` and the other columns of `row`. */
  function OfRow(id: nat, row: map<string, Value>): Recipe
    requires "name" in row && "instructions" in row && "category" in row && "area" in row
  {
    Recipe(id, row["name"], row["instructions"], row["category"], row["area"])
  }

  /** `ORDER BY name` on the text column, NULL names last. */
  predicate ByName(a: Recipe, b: Recipe) {
    Sorting.NullsLastLe(TextOf(a.name), TextOf(b.name))
  }

  lemma ByNameOrder()
    ensures Sorting.TotalPreorder(ByName)
  {
    Sorting.NullsLastOrder();
    forall a, b ensures ByName(a, b) || ByName(b, a) {
      assert Sorting.NullsLastLe(TextOf(a.name), TextOf(b.name)) || Sorting.NullsLastLe(TextOf(b.name), TextOf(a.name));
    }
    forall a, b, c | ByName(a, b) && ByName(b, c) ensures ByName(a, c) {
      assert Sorting.NullsLastLe(TextOf(a.name), TextOf(b.name)) && Sorting.NullsLastLe(TextOf(b.name), TextOf(c.name));
    }
  }

  /** `${id}` in a message. */
  function IdText(id: nat): string {
    Decimal.NatToString(id)
  }

  /** Recipe.create({ name, instructions, category = "", area = "" }). The
      id comes from the table's sequence. */
  function Create(db: Db, data: JsObject): (r: Result<Step<Recipe>>)
    ensures !Given(Get(data, "name")) ==> r == Err(BadRequestError(Some("A recipe must have a name")))
    ensures Given(Get(data, "name")) && !Given(Get(data, "instructions"))
            ==> r == Err(BadRequestError(Some("A recipe must have instructions")))
    ensures Valid(db) ==> (r.Ok? <==> Given(Get(data, "name")) && Given(Get(data, "instructions")))
    ensures r.Ok? ==>
              && r.value.out.id !in db.recipes && r.value.out.id < r.value.db.nextId
              && r.value.out.id == db.nextId && r.value.db.nextId == db.nextId + 1
              && r.value.out == Recipe(r.value.out.id, Get(data, "name").value, Get(data, "instructions").value,
                                       Get(data, "category").GetOr(Str("")), Get(data, "area").GetOr(Str("")))
              && r.value.db.recipes.Keys == db.recipes.Keys + {r.value.out.id}
              && r.value.db.recipes[r.value.out.id] == r.value.out
              && (forall id :: id in db.recipes ==> r.value.db.recipes[id] == db.recipes[id])
              && r.value.db == db.(recipes := r.value.db.recipes, nextId := r.value.db.nextId)
  {
    var name := Get(data, "name");
    var instructions := Get(data, "instructions");
    if !Given(name) then Err(BadRequestError(Some("A recipe must have a name")))
    else if !Given(instructions) then Err(BadRequestError(Some("A recipe must have instructions")))
    else
      var id := db.nextId;
      if id in db.recipes then Err(UnhandledError("duplicate key value violates unique constraint \"recipes_pkey\""))
      else
        var recipe := Recipe(id, name.value, instructions.value,
                             Get(data, "category").GetOr(Str("")), Get(data, "area").GetOr(Str("")));
        Ok(Step(db.(recipes := db.recipes[id := recipe], nextId := id + 1), recipe))
  }

  /** Creating a recipe keeps the database valid. */
  lemma CreateKeepsValid(db: Db, data: JsObject)
    requires Valid(db) && Create(db, data).Ok?
    ensures Valid(Create(db, data).value.db)
  {
  }

  /** Two creations in a row, even with the same data (there is no
      duplicate check), give two different recipes, both stored. */
  lemma CreateTwiceFreshIds(db: Db, data: JsObject)
    requires Valid(db) && Create(db, data).Ok?
    ensures var s1 := Create(db, data).value;
            var s2 := Create(s1.db, data);
            && s2.Ok?
            && s2.value.out.id != s1.out.id
            && s2.value.db.recipes[s1.out.id] == s1.out
            && s2.value.db.recipes[s2.value.out.id] == s2.value.out
  {
    CreateKeepsValid(db, data);
  }

  /** The first query of Recipe.get(id): the row, or NotFound. */
  function GetRow(db: Db, id: nat): (r: Result<Recipe>)
    ensures r.Err? <==> id !in db.recipes
    ensures r.Err? ==> r.error == NotFoundError(Some("Recipe not found: " + IdText(id)))
    ensures r.Ok? && Valid(db) ==> r.value.id == id
  {
    if id !in db.recipes then Err(NotFoundError(Some("Recipe not found: " + IdText(id))))
    else Ok(db.recipes[id])
  }

  /** A recipe with its `ingredients`: (ingredientName, amount) entries. */
  datatype Detail = Detail(recipe: Recipe, ingredients: seq<(string, string)>)

  /** The recipe_ingredients entries of one recipe. */
  function Entries(db: Db, id: nat): set<(string, string)> {
    set k | k in db.recipeIngredients && k.0 == id :: (k.1, db.recipeIngredients[k])
  }

  /** Recipe.get(id): the row and exactly that recipe's ingredient entries,
      each once, in no particular order (the query has no ORDER BY). */
  method GetDetail(db: Db, id: nat) returns (r: Result<Detail>)
    ensures r.Err? <==> id !in db.recipes
    ensures r.Err? ==> r.error == NotFoundError(Some("Recipe not found: " + IdText(id)))
    ensures r.Ok? ==> r.value.recipe == db.recipes[id]
    ensures r.Ok? ==> forall e :: e in r.value.ingredients <==>
                        (id, e.0) in db.recipeIngredients && db.recipeIngredients[(id, e.0)] == e.1
    ensures r.Ok? ==> forall a, b :: 0 <= a < b < |r.value.ingredients| ==> r.value.ingredients[a] != r.value.ingredients[b]
  {
    var row := GetRow(db, id);
    if row.Err? {
      return Err(row.error);
    }
    var entries := Sorting.Enumerate(Entries(db, id));
    Sorting.ListsSet(entries, Entries(db, id));
    forall e ensures e in Entries(db, id) <==> (id, e.0) in db.recipeIngredients && db.recipeIngredients[(id, e.0)] == e.1 {
      if e in Entries(db, id) {
        var k :| k in db.recipeIngredients && k.0 == id && e == (k.1, db.recipeIngredients[k]);
      }
    }
    return Ok(Detail(row.value, entries));
  }

  /** Recipe.findAll(): every row, ascending by name. */
  method FindAll(db: Db) returns (rows: seq<Recipe>)
    ensures Sorting.Sorted(rows, ByName)
    ensures multiset(rows) == multiset(db.recipes.Values)
  {
    ByNameOrder();
    rows := Sorting.SortSet(db.recipes.Values, ByName);
  }

  /** The four filters of findByCriteria, in the order the clauses are
      built: nameLike, instructionsLike, categoryLike, areaLike. */
  function Criteria(filters: JsObject): (fs: seq<Search.Filter>)
    ensures |fs| == 4
    ensures && fs[0].column == "name" && fs[1].column == "instructions"
            && fs[2].column == "category" && fs[3].column == "area"
    ensures Search.Supplied(fs[0]) <==> Given(Get(filters, "nameLike"))
    ensures Given(Get(filters, "nameLike")) ==> fs[0].text == ValueText(Get(filters, "nameLike").value)
    ensures Search.Supplied(fs[1]) <==> Given(Get(filters, "instructionsLike"))
    ensures Given(Get(filters, "instructionsLike")) ==> fs[1].text == ValueText(Get(filters, "instructionsLike").value)
    ensures Search.Supplied(fs[2]) <==> Given(Get(filters, "categoryLike"))
    ensures Given(Get(filters, "categoryLike")) ==> fs[2].text == ValueText(Get(filters, "categoryLike").value)
    ensures Search.Supplied(fs[3]) <==> Given(Get(filters, "areaLike"))
    ensures Given(Get(filters, "areaLike")) ==> fs[3].text == ValueText(Get(filters, "areaLike").value)
  {
    [Search.Filter("name", Search.FilterText(Get(filters, "nameLike"))),
     Search.Filter("instructions", Search.FilterText(Get(filters, "instructionsLike"))),
     Search.Filter("category", Search.FilterText(Get(filters, "categoryLike"))),
     Search.Filter("area", Search.FilterText(Get(filters, "areaLike")))]
  }

  /** The WHERE text of a search can be evaluated on every recipe row. */
  lemma CriteriaEvaluable(filters: JsObject, r: Recipe)
    ensures Search.Evaluable(Row(r), Criteria(filters))
  {
    var fs := Criteria(filters);
    forall f | f in fs ensures SqlText.ColumnFits(f.column, SqlText.Conjunction) && f.column in Row(r) {
      assert f == fs[0] || f == fs[1] || f == fs[2] || f == fs[3];
    }
  }

  /** Recipe.findByCriteria(filters). Without a truthy filter it is
      findAll; otherwise the rows on which the built WHERE text is true,
      ascending by name. When no filter text holds an ILIKE wildcard, those
      are exactly the rows in which every supplied filter occurs in its
      column, ignoring case. */
  method FindByCriteria(db: Db, filters: JsObject) returns (rows: seq<Recipe>)
    ensures Sorting.Sorted(rows, ByName)
    ensures forall a, b :: 0 <= a < b < |rows| ==> rows[a] != rows[b]
    ensures !Search.AnySupplied(Criteria(filters)) ==> multiset(rows) == multiset(db.recipes.Values)
    ensures Search.AnySupplied(Criteria(filters)) ==>
              var w := Search.BuildWhere(Criteria(filters));
              forall r :: r in rows <==> r in db.recipes.Values && Search.EvalWhere(w.clause, w.values, Row(r)) == Some(true)
    ensures Search.LiteralTexts(Criteria(filters)) ==>
              forall r :: r in rows <==> r in db.recipes.Values && Search.MatchesAll(Row(r), Criteria(filters))
  {
    var fs := Criteria(filters);
    if !Search.AnySupplied(fs) {
      rows := FindAll(db);
      Sorting.ListsSet(rows, db.recipes.Values);
      return;
    }
    var w := Search.BuildWhere(fs);
    var selected := set r | r in db.recipes.Values && Search.EvalWhere(w.clause, w.values, Row(r)) == Some(true);
    ByNameOrder();
    rows := Sorting.SortSet(selected, ByName);
    Sorting.ListsSet(rows, selected);
    if Search.LiteralTexts(fs) {
      forall r | r in db.recipes.Values
        ensures Search.EvalWhere(w.clause, w.values, Row(r)) == Some(Search.MatchesAll(Row(r), fs))
      {
        CriteriaEvaluable(filters, r);
        Search.WhereMeaning(fs, Row(r));
      }
    }
  }

  /** The database does not reject a recipe search on any row. */
  lemma SearchDefined(filters: JsObject, r: Recipe)
    requires Search.AnySupplied(Criteria(filters))
    ensures var w := Search.BuildWhere(Criteria(filters));
            Search.EvalWhere(w.clause, w.values, Row(r)).Some?
  {
    CriteriaEvaluable(filters, r);
    Search.WhereDefined(Criteria(filters), Row(r));
  }

  /** The planned UPDATE run against the table: the row whose id equals the
      bound key gets the assignments; no such row is NotFound. */
  function Apply(db: Db, id: nat, st: Sql.Statement<Value>): (r: Result<Step<Recipe>>)
    requires Sql.AssignedColumns(st.assigns) <= Writable
    ensures r.Err? <==> !(st.key.Int? && st.key.i >= 0 && st.key.i as nat in db.recipes)
    ensures r.Err? ==> r.error == NotFoundError(Some("Recipe with id '" + IdText(id) + "' not found"))
    ensures r.Ok? ==> r.value.out.id == st.key.i
    ensures r.Ok? ==> r.value.db == db.(recipes := db.recipes[st.key.i as nat := r.value.out])
    ensures r.Ok? && Valid(db) ==> Valid(r.value.db)
  {
    if !(st.key.Int? && st.key.i >= 0 && st.key.i as nat in db.recipes) then
      Err(NotFoundError(Some("Recipe with id '" + IdText(id) + "' not found")))
    else
      var key := st.key.i as nat;
      var updated := OfRow(key, Sql.Assign(Row(db.recipes[key]), st.assigns));
      ReplaceRecipeValid(db, updated);
      Ok(Step(db.(recipes := db.recipes[key := updated]), updated))
  }

  /** Recipe.update(id, data): the builder's SET list and
      `WHERE id = $(n+1)` with binds `[...values, id]`. */
  function Update(db: Db, id: nat, data: JsObject): (r: Result<Step<Recipe>>)
    ensures |data| == 0 ==> r == Err(BadRequestError(Some("No update data provided")))
    ensures r.FailsWith(NotFound) ==>
              id !in db.recipes && r.error == NotFoundError(Some("Recipe with id '" + IdText(id) + "' not found"))
    ensures r.Err? && |data| > 0 ==> r.error.kind == NotFound || r.error.kind == Unhandled
    ensures r.Ok? ==> id in db.recipes && r.value.out.id == id
    ensures r.Ok? ==> r.value.db == db.(recipes := db.recipes[id := r.value.out])
    ensures r.Ok? && Valid(db) ==> Valid(r.value.db)
  {
    if |data| == 0 then Err(BadRequestError(Some("No update data provided")))
    else
      match Sql.SqlForPartialUpdate(data, map[])
      case Err(e) => Err(e)
      case Ok(pu) =>
        var st :- Sql.Plan(pu, Int(id), Writable);
        Apply(db, id, st)
  }

  /** The columns `data` names are all updatable. */
  predicate WritesWritable(data: JsObject) {
    forall i :: 0 <= i < |data| ==> data[i].0 in Writable
  }

  lemma WritableFields(data: JsObject)
    ensures Sql.AssignedColumns(data) <= Writable <==> WritesWritable(data)
  {
    if !WritesWritable(data) {
      var i :| 0 <= i < |data| && data[i].0 !in Writable;
      assert data[i].0 in Sql.AssignedColumns(data);
    }
  }

  /** The statement a well-formed data object plans: its own fields,
      selecting by the id; or a database error for a field that is not
      updatable. */
  lemma UpdatePlans(db: Db, id: nat, data: JsObject)
    requires |data| > 0 && DistinctKeys(data) && Sql.QuoteFree(data, map[])
    ensures WritesWritable(data) ==> Update(db, id, data) == Apply(db, id, Sql.Statement(data, Int(id)))
    ensures !WritesWritable(data) ==> Update(db, id, data).FailsWith(Unhandled)
  {
    Sql.NoRenames(data);
    Sql.PlanMeaning(data, map[], Int(id), Writable);
    WritableFields(data);
  }

  /** Applying a data object's own fields stores each supplied field (null
      included) and keeps the other columns and the id. */
  lemma ApplyFields(db: Db, id: nat, data: JsObject)
    requires DistinctKeys(data) && WritesWritable(data) && id in db.recipes
    ensures var r := Apply(db, id, Sql.Statement(data, Int(id)));
            var prev := db.recipes[id];
            && r.Ok?
            && r.value.out.name == Get(data, "name").GetOr(prev.name)
            && r.value.out.instructions == Get(data, "instructions").GetOr(prev.instructions)
            && r.value.out.category == Get(data, "category").GetOr(prev.category)
            && r.value.out.area == Get(data, "area").GetOr(prev.area)
  {
    WritableFields(data);
    var row := Row(db.recipes[id]);
    Sql.AssignMeaning(row, data, "name");
    Sql.AssignMeaning(row, data, "instructions");
    Sql.AssignMeaning(row, data, "category");
    Sql.AssignMeaning(row, data, "area");
  }

  /** What an update of a well-formed data object does: it succeeds exactly
      when there is data, every field is an updatable column and the recipe
      exists; a field outside the table fails in the database, an unknown id
      with NotFound; supplied fields are stored, the rest kept. */
  lemma UpdateMeaning(db: Db, id: nat, data: JsObject)
    requires DistinctKeys(data) && Sql.QuoteFree(data, map[])
    ensures var r := Update(db, id, data);
            && (r.Ok? <==> |data| > 0 && WritesWritable(data) && id in db.recipes)
            && (|data| > 0 && !WritesWritable(data) ==> r.FailsWith(Unhandled))
            && (|data| > 0 && WritesWritable(data) && id !in db.recipes ==> r.FailsWith(NotFound))
            && (r.Ok? ==>
                  var prev := db.recipes[id];
                  && r.value.out.name == Get(data, "name").GetOr(prev.name)
                  && r.value.out.instructions == Get(data, "instructions").GetOr(prev.instructions)
                  && r.value.out.category == Get(data, "category").GetOr(prev.category)
                  && r.value.out.area == Get(data, "area").GetOr(prev.area))
  {
    if |data| > 0 {
      UpdatePlans(db, id, data);
      if WritesWritable(data) && id in db.recipes {
        ApplyFields(db, id, data);
      }
    }
  }

  /** Recipe.remove(id); the recipe's ingredient entries and the favourites
      naming it go with it. */
  function Remove(db: Db, id: nat): (r: Result<Db>)
    ensures r.Err? <==> id !in db.recipes
    ensures r.Err? ==> r.error == NotFoundError(Some("Recipe with id " + IdText(id) + " not found"))
    ensures r.Ok? ==> r.value.recipes.Keys == db.recipes.Keys - {id}
    ensures r.Ok? ==> forall k :: k in r.value.recipes ==> r.value.recipes[k] == db.recipes[k]
    ensures r.Ok? ==> forall k :: k in r.value.recipeIngredients <==> k in db.recipeIngredients && k.0 != id
    ensures r.Ok? ==> forall k :: k in r.value.recipeIngredients ==> r.value.recipeIngredients[k] == db.recipeIngredients[k]
    ensures r.Ok? ==> forall p :: p in r.value.userRecipes <==> p in db.userRecipes && p.1 != id
    ensures r.Ok? ==> r.value == db.(recipes := r.value.recipes, recipeIngredients := r.value.recipeIngredients,
                                      userRecipes := r.value.userRecipes)
    ensures r.Ok? && Valid(db) ==> Valid(r.value)
  {
    if id !in db.recipes then Err(NotFoundError(Some("Recipe with id " + IdText(id) + " not found")))
    else
      Ok(db.(recipes := db.recipes - {id},
             recipeIngredients := map k | k in db.recipeIngredients && k.0 != id :: db.recipeIngredients[k],
             userRecipes := set p | p in db.userRecipes && p.1 != id))
  }

  /** After a remove the recipe is gone. */
  lemma RemoveThenGet(db: Db, id: nat)
    requires Remove(db, id).Ok?
    ensures GetRow(Remove(db, id).value, id) == Err(NotFoundError(Some("Recipe not found: " + IdText(id))))
  {
  }

  /** What addIngredient returns: `{ recipeId, ingredientName, ingredientAmount }`. */
  datatype Added = Added(recipeId: nat, ingredientName: string, ingredientAmount: string)

  /** Recipe.addIngredient(recipeId, { name, amount }). An undefined
      ingredient object behaves as `{}`. */
  function AddIngredient(db: Db, recipeId: nat, ingredient: JsObject): (r: Result<Step<Added>>)
    ensures !Given(Get(ingredient, "name")) ==> r == Err(BadRequestError(Some("Cannot add an ingredient without a name")))
    ensures Given(Get(ingredient, "name")) && !Given(Get(ingredient, "amount"))
            ==> r == Err(BadRequestError(Some("Cannot add an ingredient without an amount")))
    ensures Given(Get(ingredient, "name")) && Given(Get(ingredient, "amount")) && recipeId !in db.recipes
            ==> r == Err(NotFoundError(Some("Recipe with id " + IdText(recipeId) + " not found")))
    ensures Given(Get(ingredient, "name")) && Given(Get(ingredient, "amount")) && recipeId in db.recipes ==>
              var name := ValueText(Get(ingredient, "name").value);
              && (name !in db.ingredients ==> r == Err(NotFoundError(Some("Ingredient '" + name + "' not found"))))
              && (name in db.ingredients && (recipeId, name) in db.recipeIngredients
                  ==> r == Err(BadRequestError(Some("Recipe " + IdText(recipeId) + " already contains ingredient '" + name + "'"))))
              && (r.Ok? <==> name in db.ingredients && (recipeId, name) !in db.recipeIngredients)
    ensures r.Ok? ==>
              var name := ValueText(Get(ingredient, "name").value);
              var amount := ValueText(Get(ingredient, "amount").value);
              && r.value.out == Added(recipeId, name, amount)
              && r.value.db.recipeIngredients.Keys == db.recipeIngredients.Keys + {(recipeId, name)}
              && r.value.db.recipeIngredients[(recipeId, name)] == amount
              && (forall k :: k in db.recipeIngredients ==> r.value.db.recipeIngredients[k] == db.recipeIngredients[k])
              && r.value.db == db.(recipeIngredients := r.value.db.recipeIngredients)
  {
    var name := Get(ingredient, "name");
    var amount := Get(ingredient, "amount");
    if !Given(name) then Err(BadRequestError(Some("Cannot add an ingredient without a name")))
    else if !Given(amount) then Err(BadRequestError(Some("Cannot add an ingredient without an amount")))
    else if recipeId !in db.recipes then Err(NotFoundError(Some("Recipe with id " + IdText(recipeId) + " not found")))
    else
      var n := ValueText(name.value);
      if n !in db.ingredients then Err(NotFoundError(Some("Ingredient '" + n + "' not found")))
      else if (recipeId, n) in db.recipeIngredients then
        Err(BadRequestError(Some("Recipe " + IdText(recipeId) + " already contains ingredient '" + n + "'")))
      else
        var a := ValueText(amount.value);
        Ok(Step(db.(recipeIngredients := db.recipeIngredients[(recipeId, n) := a]), Added(recipeId, n, a)))
  }

  /** Adding an ingredient to a recipe keeps the database valid. */
  lemma AddIngredientKeepsValid(db: Db, recipeId: nat, ingredient: JsObject)
    requires Valid(db) && AddIngredient(db, recipeId, ingredient).Ok?
    ensures Valid(AddIngredient(db, recipeId, ingredient).value.db)
  {
  }

  /** What removeIngredient returns: `{ removed: { recipeId, ingredientName } }`. */
  datatype Removed = Removed(recipeId: nat, ingredientName: string)

  /** Recipe.removeIngredient(recipeId, ingredientName). A falsy argument
      (id 0 or the empty name) is refused before any lookup. */
  function RemoveIngredient(db: Db, recipeId: nat, ingredientName: string): (r: Result<Step<Removed>>)
    ensures recipeId == 0 || ingredientName == "" ==>
              r == Err(BadRequestError(Some("Please specify an ingredient and a recipe from which to remove it")))
    ensures recipeId != 0 && ingredientName != "" && recipeId !in db.recipes ==>
              r == Err(NotFoundError(Some("Recipe with id " + IdText(recipeId) + " not found")))
    ensures recipeId != 0 && ingredientName != "" && recipeId in db.recipes && (recipeId, ingredientName) !in db.recipeIngredients ==>
              r == Err(NotFoundError(Some("Recipe " + IdText(recipeId) + " does not contain ingredient " + ingredientName)))
    ensures r.Ok? <==> recipeId != 0 && ingredientName != "" && recipeId in db.recipes
                       && (recipeId, ingredientName) in db.recipeIngredients
    ensures r.Ok? ==>
              && r.value.out == Removed(recipeId, ingredientName)
              && r.value.db.recipeIngredients.Keys == db.recipeIngredients.Keys - {(recipeId, ingredientName)}
              && (forall k :: k in r.value.db.recipeIngredients ==> r.value.db.recipeIngredients[k] == db.recipeIngredients[k])
              && r.value.db == db.(recipeIngredients := r.value.db.recipeIngredients)
    ensures r.Ok? && Valid(db) ==> Valid(r.value.db)
  {
    if recipeId == 0 || ingredientName == "" then
      Err(BadRequestError(Some("Please specify an ingredient and a recipe from which to remove it")))
    else if recipeId !in db.recipes then Err(NotFoundError(Some("Recipe with id " + IdText(recipeId) + " not found")))
    else if (recipeId, ingredientName) !in db.recipeIngredients then
      Err(NotFoundError(Some("Recipe " + IdText(recipeId) + " does not contain ingredient " + ingredientName)))
    else
      Ok(Step(db.(recipeIngredients := db.recipeIngredients - {(recipeId, ingredientName)}),
              Removed(recipeId, ingredientName)))
  }

  /** Removing an ingredient just added to a recipe gives back the database
      it was added to. */
  lemma AddThenRemoveIngredient(db: Db, recipeId: nat, ingredient: JsObject)
    requires Valid(db) && AddIngredient(db, recipeId, ingredient).Ok?
    ensures var s := AddIngredient(db, recipeId, ingredient).value;
            RemoveIngredient(s.db, recipeId, s.out.ingredientName)
            == Ok(Step(db, Removed(recipeId, s.out.ingredientName)))
  {
    var s := AddIngredient(db, recipeId, ingredient).value;
    var name := s.out.ingredientName;
    assert recipeId in db.recipes && recipeId != 0 && name != "";
    assert (recipeId, name) !in db.recipeIngredients;
    assert s.db == db.(recipeIngredients := db.recipeIngredients[(recipeId, name) := s.out.ingredientAmount]);
    PutThenRemove(db.recipeIngredients, (recipeId, name), s.out.ingredientAmount);
  }

  /** Adding the same ingredient to the same recipe twice fails the second
      time. */
  lemma AddIngredientTwice(db: Db, recipeId: nat, ingredient: JsObject)
    requires AddIngredient(db, recipeId, ingredient).Ok?
    ensures AddIngredient(AddIngredient(db, recipeId, ingredient).value.db, recipeId, ingredient).FailsWith(BadRequest)
  {
  }
}
