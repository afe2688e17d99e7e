/**
 * The service layer: CategoryService and ExpenseService, which delegate to the
 * repositories and add the update rules (a category update rewrites the name
 * only; an expense update overwrites only the fields the request carries) and
 * the not-found policies (deleting a missing expense is an error, deleting a
 * missing category is not).
 */
module Service {
  import opened Entities
  import opened Store
  import opened Repository

  // ---------------------------------------------------------------- Category

  /**
   * Updating a category: fails when no category has the key; otherwise the
   * stored row keeps its key and takes the incoming name, even a missing one.
   */
  function UpdateCategoryRow(t: Tables, id: Id, updated: Category): (r: Result<(Tables, Category)>)
    requires WellFormed(t)
    ensures r.Ok? <==> id in t.categories
    ensures r.Err? ==> r.error == NoSuchCategory
    ensures r.Ok? ==> r.value.1 == Category(Some(id), updated.name)
    ensures r.Ok? ==> r.value.0 == t.(categories := t.categories[id := r.value.1])
    ensures r.Ok? ==> WellFormed(r.value.0)
  {
    if id !in t.categories then Err(NoSuchCategory)
    else Ok(SaveCategoryRow(t, t.categories[id].(name := updated.name)))
  }

  class CategoryService {
    const repo: CategoryRepository

    constructor (repo: CategoryRepository)
      ensures this.repo == repo
    {
      this.repo := repo;
    }

    method Create(category: Category) returns (created: Category)
      requires repo.store.Valid()
      modifies repo.store
      ensures repo.store.Valid()
      ensures (repo.store.State(), created) == SaveCategoryRow(old(repo.store.State()), category)
    {
      created := repo.Save(category);
    }

    /** Every stored category exactly once. */
    method GetAll() returns (all: seq<Category>)
      requires repo.store.Valid()
      ensures |all| == |repo.store.categories|
      ensures forall i | 0 <= i < |all| ::
                all[i].id.Some? && all[i].id.value in repo.store.categories && repo.store.categories[all[i].id.value] == all[i]
      ensures forall k | k in repo.store.categories :: repo.store.categories[k] in all
      ensures forall i, j | 0 <= i < j < |all| :: all[i] != all[j]
    {
      all := repo.FindAll();
    }

    method Update(id: Id, updated: Category) returns (r: Result<Category>)
      requires repo.store.Valid()
      modifies repo.store
      ensures repo.store.Valid()
      ensures Commits(UpdateCategoryRow(old(repo.store.State()), id, updated), old(repo.store.State()), repo.store.State(), r)
    {
      var existing := repo.FindById(id);
      if existing.None? {
        return Err(NoSuchCategory);
      }
      var renamed := existing.value.(name := updated.name);
      var saved := repo.Save(renamed);
      return Ok(saved);
    }

    method Delete(id: Id) returns (r: Result<()>)
      requires repo.store.Valid()
      modifies repo.store
      ensures repo.store.Valid()
      ensures CommitsVoid(DeleteCategoryRow(old(repo.store.State()), id), old(repo.store.State()), repo.store.State(), r)
    {
      r := repo.DeleteById(id);
    }
  }

  /** Updating a category twice with the same request gives what updating it once gives. */
  lemma UpdateCategoryIdempotent(t: Tables, id: Id, updated: Category)
    requires WellFormed(t)
    ensures var once := UpdateCategoryRow(t, id, updated);
            once.Ok? ==> UpdateCategoryRow(once.value.0, id, updated) == once
  {
    var once := UpdateCategoryRow(t, id, updated);
    if once.Ok? {
      var (t1, renamed) := once.value;
      assert t1.categories[id := renamed] == t1.categories;
    }
  }

  /** Updating one category leaves every other category row as it was. */
  lemma UpdateCategoryKeepsOthers(t: Tables, id: Id, updated: Category, k: Id)
    requires WellFormed(t) && k != id
    requires UpdateCategoryRow(t, id, updated).Ok?
    ensures var t' := UpdateCategoryRow(t, id, updated).value.0;
            (k in t'.categories <==> k in t.categories) && (k in t.categories ==> t'.categories[k] == t.categories[k])
  {
  }

  /**
   * Deleting a category that is not stored succeeds and changes nothing; a
   * delete that succeeds leaves the key absent, and repeating it changes
   * nothing more.
   */
  lemma DeleteCategoryIsSilent(t: Tables, id: Id)
    requires WellFormed(t)
    ensures id !in t.categories ==> DeleteCategoryRow(t, id) == Ok(t)
    ensures var once := DeleteCategoryRow(t, id);
            once.Ok? ==> id !in once.value.categories && DeleteCategoryRow(once.value, id) == once
  {
  }

  // ---------------------------------------------------------------- Expense

  /** A stored field is replaced only by a value the request actually carries. */
  function Override<T>(incoming: Option<T>, current: Option<T>): (r: Option<T>)
    ensures incoming.Some? ==> r == incoming
    ensures incoming.None? ==> r == current
  {
    if incoming.Some? then incoming else current
  }

  /**
   * The partial-update merge: title, amount, date and category each take the
   * incoming value when it is present and keep the stored one otherwise; the
   * key is never taken from the request.
   */
  function MergeDetails(existing: Expense, details: Expense): (r: Expense)
    ensures r.id == existing.id
    ensures r.title == (if details.title.Some? then details.title else existing.title)
    ensures r.amount == (if details.amount.Some? then details.amount else existing.amount)
    ensures r.expenseDate == (if details.expenseDate.Some? then details.expenseDate else existing.expenseDate)
    ensures r.category == (if details.category.Some? then details.category else existing.category)
  {
    Expense(
      existing.id,
      Override(details.title, existing.title),
      Override(details.amount, existing.amount),
      Override(details.expenseDate, existing.expenseDate),
      Override(details.category, existing.category))
  }

  /** Reading one expense: the stored record, or not-found. */
  function LookupExpense(t: Tables, id: Id): (r: Result<Expense>)
    ensures r.Ok? <==> id in t.expenses
    ensures r.Ok? ==> r.value == t.expenses[id]
    ensures r.Err? ==> r.error == ExpenseNotFound(id)
  {
    if id in t.expenses then Ok(t.expenses[id]) else Err(ExpenseNotFound(id))
  }

  /**
   * Updating an expense: not-found when the key is not stored; otherwise the
   * merged record is saved over the stored one, which succeeds exactly when
   * the merged category reference names a stored category.
   */
  function UpdateExpenseRow(t: Tables, id: Id, details: Expense): (r: Result<(Tables, Expense)>)
    requires WellFormed(t)
    ensures id !in t.expenses ==> r == Err(ExpenseNotFound(id))
    ensures id in t.expenses && details.category == Some(CategoryRef(None)) ==> r == Err(NullCategoryId)
    ensures id in t.expenses ==> var merged := MergeDetails(t.expenses[id], details);
              CategoryBound(merged) && CategoryKey(merged) !in t.categories ==> r == Err(DanglingCategory(CategoryKey(merged)))
    ensures r.Ok? <==> id in t.expenses && var merged := MergeDetails(t.expenses[id], details);
                       CategoryBound(merged) && CategoryKey(merged) in t.categories
    ensures r.Ok? ==> && r.value.1 == MergeDetails(t.expenses[id], details)
                      && r.value.1.id == Some(id)
                      && r.value.0 == t.(expenses := t.expenses[id := r.value.1])
                      && WellFormed(r.value.0)
  {
    match LookupExpense(t, id)
    case Err(e) => Err(e)
    case Ok(existing) => SaveExpenseRow(t, MergeDetails(existing, details))
  }

  /** Deleting an expense: not-found when the key is not stored, else that row goes. */
  function RemoveExpenseRow(t: Tables, id: Id): (r: Result<Tables>)
    requires WellFormed(t)
    ensures r.Ok? <==> id in t.expenses
    ensures r.Err? ==> r.error == ExpenseNotFound(id)
    ensures r.Ok? ==> r.value == DeleteExpenseRow(t, id) && id !in r.value.expenses
  {
    if id in t.expenses then Ok(DeleteExpenseRow(t, id)) else Err(ExpenseNotFound(id))
  }

  class ExpenseService {
    const repo: ExpenseRepository

    constructor (repo: ExpenseRepository)
      ensures this.repo == repo
    {
      this.repo := repo;
    }

    /** Every stored expense exactly once. */
    method GetAllExpenses() returns (all: seq<Expense>)
      requires repo.store.Valid()
      ensures |all| == |repo.store.expenses|
      ensures forall i | 0 <= i < |all| ::
                all[i].id.Some? && all[i].id.value in repo.store.expenses && repo.store.expenses[all[i].id.value] == all[i]
      ensures forall k | k in repo.store.expenses :: repo.store.expenses[k] in all
      ensures forall i, j | 0 <= i < j < |all| :: all[i] != all[j]
    {
      all := repo.FindAll();
    }

    method GetExpenseById(id: Id) returns (r: Result<Expense>)
      ensures r == LookupExpense(repo.store.State(), id)
    {
      var expense := repo.FindById(id);
      if expense.Some? {
        return Ok(expense.value);
      }
      return Err(ExpenseNotFound(id));
    }

    method SaveExpense(expense: Expense) returns (r: Result<Expense>)
      requires repo.store.Valid()
      modifies repo.store
      ensures repo.store.Valid()
      ensures Commits(SaveExpenseRow(old(repo.store.State()), expense), old(repo.store.State()), repo.store.State(), r)
    {
      r := repo.Save(expense);
    }

    method UpdateExpense(id: Id, details: Expense) returns (r: Result<Expense>)
      requires repo.store.Valid()
      modifies repo.store
      ensures repo.store.Valid()
      ensures Commits(UpdateExpenseRow(old(repo.store.State()), id, details), old(repo.store.State()), repo.store.State(), r)
    {
      var found := GetExpenseById(id);
      if found.Err? {
        return Err(found.error);
      }
      var expense := found.value;
      if details.title.Some? {
        expense := expense.(title := details.title);
      }
      if details.amount.Some? {
        expense := expense.(amount := details.amount);
      }
      if details.expenseDate.Some? {
        expense := expense.(expenseDate := details.expenseDate);
      }
      if details.category.Some? {
        expense := expense.(category := details.category);
      }
      r := repo.Save(expense);
    }

    method DeleteExpense(id: Id) returns (r: Result<()>)
      requires repo.store.Valid()
      modifies repo.store
      ensures repo.store.Valid()
      ensures CommitsVoid(RemoveExpenseRow(old(repo.store.State()), id), old(repo.store.State()), repo.store.State(), r)
    {
      var present := repo.ExistsById(id);
      if present {
        repo.DeleteById(id);
        return Ok(());
      }
      return Err(ExpenseNotFound(id));
    }
  }

  /** A request that carries no field leaves the stored record as it is. */
  lemma MergeNothingKeepsRecord(existing: Expense, details: Expense)
    requires details.title.None? && details.amount.None? && details.expenseDate.None? && details.category.None?
    ensures MergeDetails(existing, details) == existing
  {
  }

  /** Merging the same request twice gives what merging it once gives. */
  lemma MergeIdempotent(existing: Expense, details: Expense)
    ensures MergeDetails(MergeDetails(existing, details), details) == MergeDetails(existing, details)
  {
  }

  /** A request that carries every field replaces every field but the key. */
  lemma MergeEverythingTakesRequest(existing: Expense, details: Expense)
    requires details.title.Some? && details.amount.Some? && details.expenseDate.Some? && details.category.Some?
    ensures MergeDetails(existing, details) == details.(id := existing.id)
  {
  }

  /** An update with no fields succeeds and changes nothing. */
  lemma UpdateExpenseWithNothing(t: Tables, id: Id, details: Expense)
    requires WellFormed(t) && id in t.expenses
    requires details.title.None? && details.amount.None? && details.expenseDate.None? && details.category.None?
    ensures UpdateExpenseRow(t, id, details) == Ok((t, t.expenses[id]))
  {
    MergeNothingKeepsRecord(t.expenses[id], details);
    assert t.expenses[id := t.expenses[id]] == t.expenses;
  }

  /** After a successful update, reading the expense gives the merged record under the same key. */
  lemma UpdateExpenseThenGet(t: Tables, id: Id, details: Expense)
    requires WellFormed(t)
    requires UpdateExpenseRow(t, id, details).Ok?
    ensures var (t', saved) := UpdateExpenseRow(t, id, details).value;
            LookupExpense(t', id) == Ok(saved) && saved.id == Some(id)
  {
  }

  /** Updating one expense leaves every other expense as it was. */
  lemma UpdateExpenseKeepsOthers(t: Tables, id: Id, details: Expense, k: Id)
    requires WellFormed(t) && k != id
    requires UpdateExpenseRow(t, id, details).Ok?
    ensures LookupExpense(UpdateExpenseRow(t, id, details).value.0, k) == LookupExpense(t, k)
  {
  }

  /** After a successful delete, reading the expense reports not-found. */
  lemma DeleteExpenseThenGet(t: Tables, id: Id)
    requires WellFormed(t)
    requires RemoveExpenseRow(t, id).Ok?
    ensures LookupExpense(RemoveExpenseRow(t, id).value, id) == Err(ExpenseNotFound(id))
  {
  }
}
