/**
 * The two record kinds of the expense tracker, Category and Expense, and the
 * error kinds the repository and service layers raise.
 *
 * A Java `null` field is `None`; the entity classes themselves are not part of
 * this model, so the field values whose representation is not visible there
 * (the monetary amount, the date) are opaque types that only support equality.
 */
module Entities {

  /** A surrogate key (Java `Long`). */
  type Id = int

  /** Monetary value of an expense; its arithmetic is never used by the core. */
  type Amount(==)

  /** Date of an expense; never parsed or compared by the core. */
  type ExpenseDate(==)

  datatype Option<+T> = None | Some(value: T)

  datatype Category = Category(id: Option<Id>, name: Option<string>)

  /**
   * What an expense holds of its category. The store resolves it to a
   * reference to a stored row, which keeps nothing of the incoming object but
   * its id; the id itself may be missing in a request body.
   */
  datatype CategoryRef = CategoryRef(id: Option<Id>)

  datatype Expense = Expense(
    id: Option<Id>,
    title: Option<string>,
    amount: Option<Amount>,
    expenseDate: Option<ExpenseDate>,
    category: Option<CategoryRef>)

  /** The failures the core raises, each named after its cause. */
  datatype Error =
    | ExpenseNotFound(id: Id)        // no expense is stored under the key; the failure names it
    | NoSuchCategory                 // Optional.orElseThrow() on an empty lookup
    | NullCategory                   // dereference of a missing category reference
    | NullCategoryId                 // resolving a category reference without an id
    | PersistDetached(id: Id)        // persist of a record whose id is not a stored row
    | DanglingCategory(categoryId: Id) // foreign key to a category that is not stored
    | CategoryInUse(categoryId: Id)  // removing a category that stored expenses still refer to

  datatype Result<+T> = Ok(value: T) | Err(error: Error)

  /** An expense whose category reference has been resolved to a key. */
  predicate CategoryBound(e: Expense) {
    e.category.Some? && e.category.value.id.Some?
  }

  /** The key of the category a bound expense refers to. */
  function CategoryKey(e: Expense): Id
    requires CategoryBound(e)
  {
    e.category.value.id.value
  }
}
