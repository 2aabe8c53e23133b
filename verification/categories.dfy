/** The category routes of `backend/routes/categories.js`: create with its
    required-name and duplicate guards, and delete with its not-found and
    in-use guards. */
module Categories {
  import opened Wrappers
  import opened Store
  import opened Schema

  /** A successful write: the new state and the row the route answers
      with. */
  datatype Changed = Changed(db: Db, category: Row<Category>)

  /** The filter `c => c.name === name`. */
  function Named(name: string): Row<Category> -> bool {
    (row: Row<Category>) => row.data.name == name
  }

  /** The filter `p => p.item_category === name`. */
  function FiledUnder(name: string): Row<Product> -> bool {
    (row: Row<Product>) => row.data.itemCategory == name
  }

  /** Some category row carries the name. */
  predicate NameTaken(t: Table<Category>, name: string) {
    exists i :: 0 <= i < |t| && t[i].data.name == name
  }

  /** No two category rows share a name. */
  predicate UniqueNames(t: Table<Category>) {
    forall i, j :: 0 <= i < j < |t| ==> t[i].data.name != t[j].data.name
  }

  /** The 409 text for a category still in use. */
  function InUseMessage(count: nat): string {
    "Cannot delete category. " + Decimal(count) + " product(s) are using this category."
  }

  /** POST `/`. An empty name is refused (400) and so is a name some
      category already has (409), with no write; otherwise one category is
      appended and returned. Only the categories change. */
  function CreateCategory(db: Db, name: string, now: Time): (r: Result<Changed, Error>)
    ensures r.Failure? <==> name == "" || NameTaken(db.categories, name)
    ensures name == "" ==> r == Failure(BadRequest("Category name is required"))
    ensures name != "" && NameTaken(db.categories, name) ==> r == Failure(Conflict("Category already exists"))
    ensures r.Success? ==>
      && r.value.category == Row(NextId(db.categories), Category(name), now, now)
      && r.value.db == db.(categories := db.categories + [r.value.category])
  {
    if name == "" then Failure(BadRequest("Category name is required"))
    else if |Query(db.categories, Named(name))| > 0 then
      assert NameTaken(db.categories, name) by {
        var hit := Query(db.categories, Named(name))[0];
        var i :| 0 <= i < |db.categories| && db.categories[i] == hit;
        assert Named(name)(hit);
      }
      Failure(Conflict("Category already exists"))
    else
      var ins := Insert(db.categories, Category(name), now);
      Success(Changed(db.(categories := ins.table), ins.table[|db.categories|]))
  }

  /** Creation keeps category names unique: a refused request writes
      nothing, and an accepted one adds a name no row had. */
  lemma CreateKeepsNamesUnique(db: Db, name: string, now: Time)
    requires UniqueNames(db.categories)
    ensures var r := CreateCategory(db, name, now);
      UniqueNames(if r.Success? then r.value.db.categories else db.categories)
  {
  }

  /** DELETE `/:id`. An absent id answers 404. A category that some product
      is filed under answers 409 with the number of such products and
      deletes nothing. Otherwise every row with the id goes and the route
      answers with the row it found; products are never touched. */
  function DeleteCategory(db: Db, id: Id): (r: Result<Changed, Error>)
    ensures !HasId(db.categories, id) ==> r == Failure(NotFound("Category not found"))
    ensures HasId(db.categories, id) ==>
      var found := GetById(db.categories, id).value;
      var count := CountWhere(db.products, FiledUnder(found.data.name));
      && (count > 0 ==> r == Failure(CategoryInUse(InUseMessage(count), count)))
      && (count == 0 ==> r.Success? && r.value.category == found)
    ensures r.Success? ==>
      && r.value.db == db.(categories := r.value.db.categories)
      && !HasId(r.value.db.categories, id)
      && (forall i :: 0 <= i < |r.value.db.categories| ==> r.value.db.categories[i] in db.categories)
      && (forall i :: 0 <= i < |db.categories| && db.categories[i].id != id ==> db.categories[i] in r.value.db.categories)
  {
    match GetById(db.categories, id)
    case None => Failure(NotFound("Category not found"))
    case Some(found) =>
      var using := Query(db.products, FiledUnder(found.data.name));
      QueryCounts(db.products, FiledUnder(found.data.name));
      if |using| > 0 then
        Failure(CategoryInUse(InUseMessage(|using|), |using|))
      else
        Success(Changed(db.(categories := DeleteRow(db.categories, id).table), found))
  }

  /** The in-use guard is exact: a delete of an existing category is
      refused precisely when some product is filed under its name. */
  lemma InUseIffFiled(db: Db, id: Id)
    requires HasId(db.categories, id)
    ensures var name := GetById(db.categories, id).value.data.name;
      DeleteCategory(db, id).Failure? <==> exists i :: 0 <= i < |db.products| && db.products[i].data.itemCategory == name
  {
    var name := GetById(db.categories, id).value.data.name;
    CountWherePositive(db.products, FiledUnder(name));
  }

  /** Deleting a category keeps names unique. */
  lemma DeleteKeepsNamesUnique(db: Db, id: Id)
    requires UniqueNames(db.categories)
    ensures var r := DeleteCategory(db, id);
      UniqueNames(if r.Success? then r.value.db.categories else db.categories)
  {
    var r := DeleteCategory(db, id);
    if r.Success? {
      var u := r.value.db.categories;
      assert u == Query(db.categories, IdIsNot(id));
      FilterKeepsNamesUnique(db.categories, IdIsNot(id));
    }
  }

  /** Filtering a table whose names are unique leaves them unique. */
  lemma {:induction false} FilterKeepsNamesUnique(t: Table<Category>, p: Row<Category> -> bool)
    requires UniqueNames(t)
    ensures UniqueNames(Query(t, p))
  {
    if |t| > 0 {
      var rest := Query(t[1..], p);
      FilterKeepsNamesUnique(t[1..], p);
      forall k | 0 <= k < |rest|
        ensures rest[k].data.name != t[0].data.name
      {
        var j :| 0 <= j < |t[1..]| && t[1..][j] == rest[k];
        assert t[j + 1] == rest[k];
      }
    }
  }
}
