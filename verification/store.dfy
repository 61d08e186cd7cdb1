/** The database the three models read and write, as immutable tables: the
    ingredients, recipes and users tables keyed by their identifiers, the
    recipe id sequence, and the three junction tables. */
module Store {
  import opened Values
  import opened Crypto

  /** A row of `ingredients`. `kind` is the `type` column. */
  datatype Ingredient = Ingredient(name: string, description: Value, kind: Value)

  /** A row of `recipes`; `id` is assigned by the table's sequence. */
  datatype Recipe = Recipe(id: nat, name: Value, instructions: Value, category: Value, area: Value)

  /** A row of `users`. */
  datatype User = User(username: string, password: Cell, firstName: Cell, lastName: Cell,
                       email: Cell, isAdmin: Cell)

  datatype Db = Db(
    ingredients: map<string, Ingredient>,
    recipes: map<nat, Recipe>,
    /** The next value of the recipes id sequence. */
    nextId: nat,
    users: map<string, User>,
    /** recipe_ingredients: (recipe id, ingredient name) to the amount. */
    recipeIngredients: map<(nat, string), string>,
    /** users_ingredients: (username, ingredient name). */
    userIngredients: set<(string, string)>,
    /** users_recipes: (username, recipe id). */
    userRecipes: set<(string, nat)>)

  /** A successful write: the new database and what the operation returns. */
  datatype Step<T> = Step(db: Db, out: T)

  /** Rows sit under their own key, recipe ids come from the sequence
      (starting at 1), and every junction row refers to existing rows. */
  predicate Valid(db: Db) {
    && 0 < db.nextId
    && (forall n :: n in db.ingredients ==> db.ingredients[n].name == n)
    && (forall id :: id in db.recipes ==> db.recipes[id].id == id && 0 < id < db.nextId)
    && (forall u :: u in db.users ==> db.users[u].username == u)
    && (forall k :: k in db.recipeIngredients ==> k.0 in db.recipes && k.1 in db.ingredients)
    && (forall p :: p in db.userIngredients ==> p.0 in db.users && p.1 in db.ingredients)
    && (forall p :: p in db.userRecipes ==> p.0 in db.users && p.1 in db.recipes)
  }

  /** Storing an ingredient under its own name, new or replacing a row,
      keeps the database valid. */
  lemma PutIngredientValid(db: Db, i: Ingredient)
    ensures Valid(db) ==> Valid(db.(ingredients := db.ingredients[i.name := i]))
  {
  }

  /** Replacing a recipe by a row with the same id keeps the database
      valid. */
  lemma ReplaceRecipeValid(db: Db, r: Recipe)
    requires r.id in db.recipes
    ensures Valid(db) ==> Valid(db.(recipes := db.recipes[r.id := r]))
  {
  }

  /** Storing a user under its own username, new or replacing a row, keeps
      the database valid. */
  lemma PutUserValid(db: Db, u: User)
    ensures Valid(db) ==> Valid(db.(users := db.users[u.username := u]))
  {
  }

  /** Storing a fresh key and removing it again gives back the map. */
  lemma PutThenRemove<K, V>(m: map<K, V>, k: K, v: V)
    requires k !in m
    ensures m[k := v] - {k} == m
  {
  }

  /** The freshly created schema. */
  const Empty: Db := Db(map[], map[], 1, map[], map[], {}, {})
}
