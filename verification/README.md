# Expense tracker: verified model of the persistence and service layers

The expense tracker stores two record kinds: Category (key, name) and
Expense (key, title, amount, date, category reference). A repository class for
each record kind talks to the JPA entity manager. A service class for each
applies the update and delete rules on top.

This project models that core in Dafny:

- `entities.dfy` (module `Entities`) holds the records. A Java `null` is
  `None`. The amount and the date are opaque types with equality only. A
  category reference is the key of the category it points to.
  The error kinds are `ExpenseNotFound`, `NoSuchCategory`, `NullCategory`,
  `NullCategoryId`, `PersistDetached`, `DanglingCategory` and `CategoryInUse`.
- `store.dfy` (module `Store`) is the data store behind the entity manager:
  class `EntityStore`, with a Category table, an Expense table (both
  `map<Id, _>`) and a key generator. Its invariant `WellFormed` says:
  - every row carries its own key;
  - every key lies below the generator;
  - every stored expense refers by key to a stored category (the foreign key
    from the Expense table to the Category table).

  `Rows` is the query behind `findAll`. It lists a table row by row, each row
  once.
- `repository.dfy` (module `Repository`) holds the classes `CategoryRepository`
  and `ExpenseRepository`. Each has a `const store`, standing for the injected
  entity manager.
- `service.dfy` (module `Service`) holds the classes `CategoryService` and
  `ExpenseService`. Each has a `const repo`, standing for the injected repository.

Each method that changes the store is proved against a function on store
snapshots (`Tables`). The function is named after the row it changes. For
example, `ExpenseRepository.Save` does what `SaveExpenseRow` says. `Commits`
states the transaction rule: on success the store holds the new snapshot; on
failure it is left as it was. The properties of those functions are proved as
their `ensures` clauses and as lemmas relating them to lookups:
- save then find;
- delete then find;
- update twice equals update once;
- nothing else changes.

The entity manager's operations become map operations:
- `find` is lookup.
- `persist` of a record without a key inserts it under the generator's next key.
- `merge` overwrites the row under the record's key when that key is stored,
  and otherwise inserts a copy under the generator's next key.
- `remove` deletes the row.

Modelling decisions, where the visible code leaves something to the library:
- `ExpenseRepository.save` always calls `persist`. A record that carries a key
  is accepted only when that key is a stored row. This is the managed-record
  case, which `updateExpense` reaches. Its changes are written at commit. Any
  other key is refused as `PersistDetached`. The managed-record case assumes
  that one persistence context spans the whole request, as Spring's
  open-session-in-view default arranges. The repositories are transactional
  per call and the services are not. Without that default, the record
  `getExpenseById` returns is already detached when `save` persists it, and
  every update would fail.
- Resolving the category (`getReference`) keeps only the key. A missing
  reference is `NullCategory` (the code dereferences it unconditionally). A
  reference without a key is `NullCategoryId`. A key with no stored category
  fails at commit as `DanglingCategory`, and nothing is written. Errors are
  checked in the code's order: dereference, resolve, persist, commit.
- Merging a category whose key is not stored inserts a copy under the next
  generated key, and returns that copy. Keys are only ever generated by the
  store.
- The foreign key from expenses to categories is enforced in both directions.
  Saving an expense whose category is not stored fails with
  `DanglingCategory`. Deleting a category that stored expenses still refer to
  fails with `CategoryInUse` when the transaction flushes, and nothing changes.
  This is the policy of a foreign key without an on-delete action. The
  mapping does not cascade removal from a category to its expenses.
  Deleting a category that is not stored is still silent.
- One generator serves both tables.

## Model

| member | source | states |
|---|---|---|
| `Store.Rows` | src/main/java/com/ayush/expensetracker/repository/CategoryRepository.java:30-34 | a query result lists every row of the table exactly once: same length as the table, every listed row is stored under a distinct key, every stored key is listed |
| `Repository.SaveCategoryRow` | src/main/java/com/ayush/expensetracker/repository/CategoryRepository.java:20-27 | a keyless category, or one whose key is not stored, is inserted under a key not previously in the table; one whose key is stored is merged so that its key holds exactly the given record; the stored record always has a key and the given name; no other row and no expense changes; the invariant is kept |
| `Repository.DeleteCategoryRow` | src/main/java/com/ayush/expensetracker/repository/CategoryRepository.java:44-49 | on a missing key, succeeds and leaves the store unchanged; fails with `CategoryInUse` exactly when the key is stored and some expense refers to it; otherwise removes exactly that row, keeps every other row and every expense, and keeps the invariant |
| `Repository.CategoryRepository.Save` | src/main/java/com/ayush/expensetracker/repository/CategoryRepository.java:20-27 | the store afterwards and the returned record are those of `SaveCategoryRow` |
| `Repository.CategoryRepository.FindAll` | src/main/java/com/ayush/expensetracker/repository/CategoryRepository.java:30-34 | returns each stored category exactly once and nothing else |
| `Repository.CategoryRepository.FindById` | src/main/java/com/ayush/expensetracker/repository/CategoryRepository.java:37-41 | returns a value exactly when the key is stored, and that value is the stored record |
| `Repository.CategoryRepository.DeleteById` | src/main/java/com/ayush/expensetracker/repository/CategoryRepository.java:44-49 | commits `DeleteCategoryRow`'s snapshot, or fails with its error and leaves the store unchanged; a missing key is not an error |
| `Repository.SaveCategoryThenFind` | src/main/java/com/ayush/expensetracker/repository/CategoryRepository.java:20-27 | after a save, the returned record is found under its key |
| `Repository.SaveCategoryKeepsOthers` | src/main/java/com/ayush/expensetracker/repository/CategoryRepository.java:20-27 | a save leaves every other category key's presence and row unchanged |
| `Repository.SaveNewCategoryGrows` | src/main/java/com/ayush/expensetracker/repository/CategoryRepository.java:20-27 | saving a category that is keyless or whose key is not stored adds exactly one row, under a previously free key, holding the returned record |
| `Repository.DeleteReferencedCategoryFails` | src/main/java/com/ayush/expensetracker/repository/CategoryRepository.java:45-48 | deleting a category that a stored expense refers to fails with `CategoryInUse` |
| `Repository.SaveExpenseRow` | src/main/java/com/ayush/expensetracker/repository/ExpenseRepository.java:25-31 | a missing category reference, a reference without a key, a key that is not a stored expense, and a category key that is not stored each fail with their own error, in that order; it succeeds exactly otherwise, storing the record with all fields as given under a fresh key (keyless) or its own key, changing no other row and keeping the invariant |
| `Repository.DeleteExpenseRow` | src/main/java/com/ayush/expensetracker/repository/ExpenseRepository.java:48-53 | deleting removes exactly the row under the key, keeps every other row and every category, and on a missing key leaves the store unchanged |
| `Repository.ExpenseRepository.Save` | src/main/java/com/ayush/expensetracker/repository/ExpenseRepository.java:25-31 | commits the snapshot of `SaveExpenseRow` and returns its record, or leaves the store unchanged and returns its error |
| `Repository.ExpenseRepository.FindAll` | src/main/java/com/ayush/expensetracker/repository/ExpenseRepository.java:34-38 | returns each stored expense exactly once and nothing else |
| `Repository.ExpenseRepository.FindById` | src/main/java/com/ayush/expensetracker/repository/ExpenseRepository.java:41-45 | returns a value exactly when the key is stored, and that value is the stored record |
| `Repository.ExpenseRepository.DeleteById` | src/main/java/com/ayush/expensetracker/repository/ExpenseRepository.java:48-53 | the store afterwards is that of `DeleteExpenseRow`; a missing key is not an error |
| `Repository.ExpenseRepository.ExistsById` | src/main/java/com/ayush/expensetracker/repository/ExpenseRepository.java:54-57 | true exactly when the key is stored, i.e. exactly when `FindById` returns a value |
| `Repository.SaveExpenseBindsCategory` | src/main/java/com/ayush/expensetracker/repository/ExpenseRepository.java:26-28 | a saved expense refers to the same category key as the incoming one, and that category is stored |
| `Repository.SaveNewExpenseThenFind` | src/main/java/com/ayush/expensetracker/repository/ExpenseRepository.java:25-31 | a keyless expense is stored under a previously free key, is found there, and the table grows by one |
| `Repository.SaveExpenseKeepsOthers` | src/main/java/com/ayush/expensetracker/repository/ExpenseRepository.java:25-31 | a save leaves every other expense key's presence and row unchanged |
| `Repository.SaveExpenseWithoutCategoryFails` | src/main/java/com/ayush/expensetracker/repository/ExpenseRepository.java:27 | an expense without a category reference, or with a reference lacking a key, is refused with the matching error |
| `Service.UpdateCategoryRow` | src/main/java/com/ayush/expensetracker/service/CategoryService.java:27-33 | fails exactly when the key is not stored; otherwise the row under that key becomes the stored key with the incoming name, even a missing name, and nothing else in the store changes |
| `Service.CategoryService.constructor` | src/main/java/com/ayush/expensetracker/service/CategoryService.java:15-17 | the service uses the given repository |
| `Service.CategoryService.Create` | src/main/java/com/ayush/expensetracker/service/CategoryService.java:19-21 | the store afterwards and the returned record are those of `SaveCategoryRow` |
| `Service.CategoryService.GetAll` | src/main/java/com/ayush/expensetracker/service/CategoryService.java:23-25 | returns each stored category exactly once, as the repository's `FindAll` does |
| `Service.CategoryService.Update` | src/main/java/com/ayush/expensetracker/service/CategoryService.java:27-33 | commits `UpdateCategoryRow`'s snapshot and returns its record, or fails and leaves the store unchanged |
| `Service.CategoryService.Delete` | src/main/java/com/ayush/expensetracker/service/CategoryService.java:35-37 | behaves as the repository's delete: `DeleteCategoryRow` committed, or rolled back with its error |
| `Service.UpdateCategoryIdempotent` | src/main/java/com/ayush/expensetracker/service/CategoryService.java:31-32 | applying the same update a second time changes nothing and returns the same record |
| `Service.UpdateCategoryKeepsOthers` | src/main/java/com/ayush/expensetracker/service/CategoryService.java:27-33 | an update leaves every other category unchanged |
| `Service.DeleteCategoryIsSilent` | src/main/java/com/ayush/expensetracker/service/CategoryService.java:35-37 | deleting a key that is not stored succeeds and leaves the store as it was; after a successful delete the key is absent, and deleting again changes nothing |
| `Service.MergeDetails` | src/main/java/com/ayush/expensetracker/service/ExpenseService.java:42-53 | each of title, amount, date and category is the incoming value when present and the stored value otherwise; the key is the stored one |
| `Service.LookupExpense` | src/main/java/com/ayush/expensetracker/service/ExpenseService.java:26-32 | yields the stored expense exactly when the key is stored, and not-found for that key otherwise |
| `Service.UpdateExpenseRow` | src/main/java/com/ayush/expensetracker/service/ExpenseService.java:39-56 | not-found on a missing key; an incoming category without a key, or a merged category key that is not stored, fails with its error; otherwise succeeds with the merged record under the same key, changing no other row |
| `Service.RemoveExpenseRow` | src/main/java/com/ayush/expensetracker/service/ExpenseService.java:58-64 | not-found exactly when the key is not stored; otherwise the store is `DeleteExpenseRow`'s and the key is gone |
| `Service.ExpenseService.GetAllExpenses` | src/main/java/com/ayush/expensetracker/service/ExpenseService.java:22-24 | returns each stored expense exactly once |
| `Service.ExpenseService.GetExpenseById` | src/main/java/com/ayush/expensetracker/service/ExpenseService.java:26-32 | returns what `LookupExpense` states: the stored record, or not-found |
| `Service.ExpenseService.SaveExpense` | src/main/java/com/ayush/expensetracker/service/ExpenseService.java:35-37 | behaves as the repository's save: `SaveExpenseRow` committed or rolled back |
| `Service.ExpenseService.UpdateExpense` | src/main/java/com/ayush/expensetracker/service/ExpenseService.java:39-56 | the field-by-field conditional overwrite followed by a save commits `UpdateExpenseRow`, or fails leaving the store unchanged |
| `Service.ExpenseService.DeleteExpense` | src/main/java/com/ayush/expensetracker/service/ExpenseService.java:58-64 | removes a stored expense, or fails with not-found and leaves the store unchanged |
| `Service.MergeNothingKeepsRecord` | src/main/java/com/ayush/expensetracker/service/ExpenseService.java:42-53 | a request carrying no field leaves the record unchanged |
| `Service.MergeIdempotent` | src/main/java/com/ayush/expensetracker/service/ExpenseService.java:42-53 | merging the same request twice equals merging it once |
| `Service.MergeEverythingTakesRequest` | src/main/java/com/ayush/expensetracker/service/ExpenseService.java:42-53 | a request carrying every field replaces every field except the key |
| `Service.UpdateExpenseWithNothing` | src/main/java/com/ayush/expensetracker/service/ExpenseService.java:39-56 | an update carrying no field succeeds, returns the stored record and leaves the store unchanged |
| `Service.UpdateExpenseThenGet` | src/main/java/com/ayush/expensetracker/service/ExpenseService.java:39-56 | after a successful update, reading the key gives the merged record, which keeps that key |
| `Service.UpdateExpenseKeepsOthers` | src/main/java/com/ayush/expensetracker/service/ExpenseService.java:39-56 | an update leaves the reading of every other key unchanged |
| `Service.DeleteExpenseThenGet` | src/main/java/com/ayush/expensetracker/service/ExpenseService.java:58-64 | after a successful delete, reading the key reports not-found |

## Left out

- The controllers (`CategoryController`, `ExpenseController`) are not modelled. They only do HTTP routing and status codes, and `getCategoryById` is a stub answering 501. Note: `PUT /expenses/{id}` copies the path key onto the body and calls `saveExpense`, not `updateExpense`. In this model that is `ExpenseService.SaveExpense` on a keyed record. It overwrites when the key is stored and fails with `PersistDetached` otherwise.
- The browser scripts (`expenses.js`, `categories.js`) are not modelled. They are UI and network I/O.
- Logging is not modelled.
- Managed versus detached records (JPA object identity) are not modelled. A record whose key is stored is treated as managed. Real JPA also refuses to `persist` a freshly deserialized record that carries a stored key. The model cannot tell these records apart.
- In `updateExpense`, the fetched record is changed in memory before the save. When the save then fails, those in-memory changes are not modelled. Only the store's rollback is.
- Lazy reference proxies, flush timing and transaction scoping are not modelled. Together they become one rule: check every condition before writing anything.
- Cascading or nullifying on-delete policies are not modelled. The entity mapping is not part of this model. The model applies the default of a foreign key without an on-delete action: deleting a referenced category is refused.
- Repository.SaveCategoryRow: merging a category under a key that is not stored inserts a copy under a new generated key. This is what Hibernate up to 6.5 does. Later versions refuse such a merge, and the model does not capture that.
- The key-generation strategy is not visible. One counter serves both tables, and the model uses only freshness.
- The real types of `amount` and `expenseDate` are not part of this model. No arithmetic and no date parsing are modelled.
- Null keys passed to `findById` or `deleteById`, and null request bodies, are not modelled. The controllers always pass a path key and a body.
- The order of `findAll` results is not modelled. The model picks some order and promises only that each row appears exactly once.
