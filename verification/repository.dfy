/**
 * The repository layer: CategoryRepository and ExpenseRepository, each a thin
 * wrapper over the shared entity store. Every state-changing method is proved
 * against a function on store snapshots; the lemmas at the end of each part
 * relate those functions to lookups.
 */
module Repository {
  import opened Entities
  import opened Store

  // ---------------------------------------------------------------- Category

  /**
   * Saving a category: a record without a key is persisted under a fresh key.
   * A record with a key is merged: when the key is stored, that row becomes
   * exactly the given record; when it is not, a copy of the record is
   * inserted under a fresh generated key, as a merge of an unknown record
   * does. Returns the new snapshot and the stored record.
   */
  function SaveCategoryRow(t: Tables, c: Category): (r: (Tables, Category))
    requires WellFormed(t)
    ensures WellFormed(r.0)
    ensures r.1.id.Some? && r.1.name == c.name
    ensures c.id.None? || c.id.value !in t.categories ==> r.1.id.value !in t.categories
    ensures c.id.Some? && c.id.value in t.categories ==> r.1 == c
    ensures r.0.categories == t.categories[r.1.id.value := r.1]
    ensures r.0.expenses == t.expenses
  {
    if c.id.Some? && c.id.value in t.categories then
      (t.(categories := t.categories[c.id.value := c]), c)
    else
      var saved := c.(id := Some(t.nextId));
      (t.(categories := t.categories[t.nextId := saved], nextId := t.nextId + 1), saved)
  }

  /**
   * Deleting a category by key: nothing happens when no row has the key;
   * otherwise the row is removed, unless stored expenses still refer to it,
   * in which case the foreign key refuses the removal when the transaction
   * flushes and nothing changes.
   */
  function DeleteCategoryRow(t: Tables, id: Id): (r: Result<Tables>)
    requires WellFormed(t)
    ensures r.Err? <==> id in t.categories && Referenced(t, id)
    ensures r.Err? ==> r.error == CategoryInUse(id)
    ensures r.Ok? ==> && WellFormed(r.value)
                      && id !in r.value.categories
                      && r.value.categories.Keys == t.categories.Keys - {id}
                      && (forall k | k in r.value.categories :: r.value.categories[k] == t.categories[k])
                      && r.value.expenses == t.expenses
    ensures id !in t.categories ==> r == Ok(t)
  {
    if id !in t.categories then Ok(t)
    else if Referenced(t, id) then Err(CategoryInUse(id))
    else Ok(t.(categories := t.categories - {id}))
  }

  class CategoryRepository {
    const store: EntityStore

    constructor (store: EntityStore)
      ensures this.store == store
    {
      this.store := store;
    }

    method Save(category: Category) returns (saved: Category)
      requires store.Valid()
      modifies store
      ensures store.Valid()
      ensures (store.State(), saved) == SaveCategoryRow(old(store.State()), category)
    {
      if category.id.Some? && category.id.value in store.categories {
        // merge onto a stored row: that row becomes the given record
        store.categories := store.categories[category.id.value := category];
        saved := category;
      } else {
        // persist, or merge of a record the store does not hold: the record
        // is inserted under the next generated key
        saved := category.(id := Some(store.nextId));
        store.categories := store.categories[store.nextId := saved];
        store.nextId := store.nextId + 1;
      }
    }

    /** Every stored category exactly once. */
    method FindAll() returns (rows: seq<Category>)
      requires store.Valid()
      ensures |rows| == |store.categories|
      ensures forall i | 0 <= i < |rows| ::
                rows[i].id.Some? && rows[i].id.value in store.categories && store.categories[rows[i].id.value] == rows[i]
      ensures forall k | k in store.categories :: store.categories[k] in rows
      ensures forall i, j | 0 <= i < j < |rows| :: rows[i] != rows[j]
    {
      ghost var keys;
      rows, keys := Rows(store.categories);
      forall k | k in store.categories
        ensures store.categories[k] in rows
      {
        var i :| 0 <= i < |keys| && keys[i] == k;
        assert rows[i] == store.categories[k];
      }
    }

    method FindById(id: Id) returns (found: Option<Category>)
      ensures found.Some? <==> id in store.categories
      ensures found.Some? ==> found.value == store.categories[id]
    {
      found := if id in store.categories then Some(store.categories[id]) else None;
    }

    method DeleteById(id: Id) returns (r: Result<()>)
      requires store.Valid()
      modifies store
      ensures store.Valid()
      ensures CommitsVoid(DeleteCategoryRow(old(store.State()), id), old(store.State()), store.State(), r)
    {
      var category := FindById(id);
      if category.Some? {
        // the foreign key from expenses is checked when the transaction flushes
        if Referenced(store.State(), id) {
          return Err(CategoryInUse(id));
        }
        store.categories := store.categories - {id};
      }
      return Ok(());
    }
  }

  /** A saved category can be found under the key it was saved with. */
  lemma SaveCategoryThenFind(t: Tables, c: Category)
    requires WellFormed(t)
    ensures var (t', saved) := SaveCategoryRow(t, c);
            saved.id.Some? && saved.id.value in t'.categories && t'.categories[saved.id.value] == saved
  {
  }

  /** Saving a category leaves every other category row as it was. */
  lemma SaveCategoryKeepsOthers(t: Tables, c: Category, k: Id)
    requires WellFormed(t)
    requires Some(k) != SaveCategoryRow(t, c).1.id
    ensures var t' := SaveCategoryRow(t, c).0;
            (k in t'.categories <==> k in t.categories) && (k in t.categories ==> t'.categories[k] == t.categories[k])
  {
  }

  /**
   * Saving a category whose key is missing or not stored adds exactly one row,
   * under a previously free key, holding the returned record.
   */
  lemma SaveNewCategoryGrows(t: Tables, c: Category)
    requires WellFormed(t) && (c.id.None? || c.id.value !in t.categories)
    ensures var (t', saved) := SaveCategoryRow(t, c);
            && |t'.categories| == |t.categories| + 1
            && saved.id.Some? && saved.id.value !in t.categories
            && saved.id.value in t'.categories && t'.categories[saved.id.value] == saved
  {
  }

  /** A category that a stored expense refers to cannot be deleted, and nothing changes. */
  lemma DeleteReferencedCategoryFails(t: Tables, id: Id, e: Id)
    requires WellFormed(t) && e in t.expenses && CategoryKey(t.expenses[e]) == id
    ensures DeleteCategoryRow(t, id) == Err(CategoryInUse(id))
  {
  }

  // ---------------------------------------------------------------- Expense

  /**
   * Saving an expense: the category reference is dereferenced (it must be
   * present), resolved to a reference by its key (the key must be present),
   * and the record is persisted. A record without a key is inserted under a
   * fresh key; a record whose key is a stored row overwrites that row; any
   * other key is refused. At commit the foreign key must name a stored
   * category, otherwise nothing is written.
   */
  function SaveExpenseRow(t: Tables, e: Expense): (r: Result<(Tables, Expense)>)
    requires WellFormed(t)
    ensures e.category.None? ==> r == Err(NullCategory)
    ensures e.category.Some? && e.category.value.id.None? ==> r == Err(NullCategoryId)
    ensures CategoryBound(e) && e.id.Some? && e.id.value !in t.expenses ==> r == Err(PersistDetached(e.id.value))
    ensures CategoryBound(e) && (e.id.None? || e.id.value in t.expenses) && CategoryKey(e) !in t.categories ==>
              r == Err(DanglingCategory(CategoryKey(e)))
    ensures r.Ok? <==> CategoryBound(e) && CategoryKey(e) in t.categories && (e.id.None? || e.id.value in t.expenses)
    ensures r.Ok? ==> WellFormed(r.value.0)
    ensures r.Ok? ==> var (t', saved) := r.value;
              && saved.id.Some?
              && saved == e.(id := saved.id)
              && (e.id.None? ==> saved.id.value !in t.expenses)
              && t'.expenses == t.expenses[saved.id.value := saved]
              && t'.categories == t.categories
  {
    if e.category.None? then Err(NullCategory)
    else if e.category.value.id.None? then Err(NullCategoryId)
    else
      var categoryId := e.category.value.id.value;
      var bound := e.(category := Some(CategoryRef(Some(categoryId))));
      if bound.id.Some? && bound.id.value !in t.expenses then Err(PersistDetached(bound.id.value))
      else if categoryId !in t.categories then Err(DanglingCategory(categoryId))
      else if bound.id.None? then
        var saved := bound.(id := Some(t.nextId));
        Ok((t.(expenses := t.expenses[t.nextId := saved], nextId := t.nextId + 1), saved))
      else
        Ok((t.(expenses := t.expenses[bound.id.value := bound]), bound))
  }

  /** Deleting an expense by key: removes that row if there is one, else nothing. */
  function DeleteExpenseRow(t: Tables, id: Id): (r: Tables)
    requires WellFormed(t)
    ensures WellFormed(r)
    ensures id !in r.expenses
    ensures r.expenses.Keys == t.expenses.Keys - {id}
    ensures forall k | k in r.expenses :: r.expenses[k] == t.expenses[k]
    ensures r.categories == t.categories
    ensures id !in t.expenses ==> r == t
  {
    if id in t.expenses then t.(expenses := t.expenses - {id}) else t
  }

  class ExpenseRepository {
    const store: EntityStore

    constructor (store: EntityStore)
      ensures this.store == store
    {
      this.store := store;
    }

    method Save(expense: Expense) returns (r: Result<Expense>)
      requires store.Valid()
      modifies store
      ensures store.Valid()
      ensures Commits(SaveExpenseRow(old(store.State()), expense), old(store.State()), store.State(), r)
    {
      if expense.category.None? {
        return Err(NullCategory);
      }
      var categoryId := expense.category.value.id;
      if categoryId.None? {
        return Err(NullCategoryId);
      }
      // rebind the category to a reference to the stored row with that key
      var bound := expense.(category := Some(CategoryRef(categoryId)));
      // persist refuses a record that carries a key the store does not hold
      if bound.id.Some? && bound.id.value !in store.expenses {
        return Err(PersistDetached(bound.id.value));
      }
      // the foreign key is checked when the transaction flushes; on failure it rolls back
      if categoryId.value !in store.categories {
        return Err(DanglingCategory(categoryId.value));
      }
      if bound.id.None? {
        var saved := bound.(id := Some(store.nextId));
        store.expenses := store.expenses[store.nextId := saved];
        store.nextId := store.nextId + 1;
        return Ok(saved);
      }
      store.expenses := store.expenses[bound.id.value := bound];
      return Ok(bound);
    }

    /** Every stored expense exactly once. */
    method FindAll() returns (rows: seq<Expense>)
      requires store.Valid()
      ensures |rows| == |store.expenses|
      ensures forall i | 0 <= i < |rows| ::
                rows[i].id.Some? && rows[i].id.value in store.expenses && store.expenses[rows[i].id.value] == rows[i]
      ensures forall k | k in store.expenses :: store.expenses[k] in rows
      ensures forall i, j | 0 <= i < j < |rows| :: rows[i] != rows[j]
    {
      ghost var keys;
      rows, keys := Rows(store.expenses);
      forall k | k in store.expenses
        ensures store.expenses[k] in rows
      {
        var i :| 0 <= i < |keys| && keys[i] == k;
        assert rows[i] == store.expenses[k];
      }
    }

    method FindById(id: Id) returns (found: Option<Expense>)
      ensures found.Some? <==> id in store.expenses
      ensures found.Some? ==> found.value == store.expenses[id]
    {
      found := if id in store.expenses then Some(store.expenses[id]) else None;
    }

    method DeleteById(id: Id)
      requires store.Valid()
      modifies store
      ensures store.Valid()
      ensures store.State() == DeleteExpenseRow(old(store.State()), id)
    {
      var expense := FindById(id);
      if expense.Some? {
        store.expenses := store.expenses - {id};
      }
    }

    method ExistsById(id: Id) returns (present: bool)
      ensures present <==> id in store.expenses
    {
      var expense := FindById(id);
      present := expense.Some?;
    }
  }

  /**
   * A saved expense keeps the key of the category it was given, and that key
   * names a stored category.
   */
  lemma SaveExpenseBindsCategory(t: Tables, e: Expense)
    requires WellFormed(t)
    requires SaveExpenseRow(t, e).Ok?
    ensures var saved := SaveExpenseRow(t, e).value.1;
            CategoryBound(e) && CategoryBound(saved) && CategoryKey(saved) == CategoryKey(e)
            && CategoryKey(saved) in SaveExpenseRow(t, e).value.0.categories
  {
  }

  /** A new expense is stored under a key that was free, and is found there. */
  lemma SaveNewExpenseThenFind(t: Tables, e: Expense)
    requires WellFormed(t) && e.id.None?
    requires SaveExpenseRow(t, e).Ok?
    ensures var (t', saved) := SaveExpenseRow(t, e).value;
            && saved.id.Some? && saved.id.value !in t.expenses
            && saved.id.value in t'.expenses && t'.expenses[saved.id.value] == saved
            && |t'.expenses| == |t.expenses| + 1
  {
  }

  /** Saving an expense leaves every other expense row as it was. */
  lemma SaveExpenseKeepsOthers(t: Tables, e: Expense, k: Id)
    requires WellFormed(t)
    requires SaveExpenseRow(t, e).Ok? && Some(k) != SaveExpenseRow(t, e).value.1.id
    ensures var t' := SaveExpenseRow(t, e).value.0;
            (k in t'.expenses <==> k in t.expenses) && (k in t.expenses ==> t'.expenses[k] == t.expenses[k])
  {
  }

  /** An expense without a category reference, or whose reference has no key, is refused. */
  lemma SaveExpenseWithoutCategoryFails(t: Tables, e: Expense)
    requires WellFormed(t) && !CategoryBound(e)
    ensures SaveExpenseRow(t, e).Err?
    ensures SaveExpenseRow(t, e).error == (if e.category.None? then NullCategory else NullCategoryId)
  {
  }
}
