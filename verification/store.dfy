/**
 * The data store behind both repositories: the Category table, the Expense
 * table and the generator of fresh keys. The entity manager's `find`,
 * `persist`, `merge` and `remove` become lookup, insertion under a fresh key,
 * overwrite and removal on these maps.
 */
module Store {
  import opened Entities

  /** A value snapshot of the whole store. */
  datatype Tables = Tables(categories: map<Id, Category>, expenses: map<Id, Expense>, nextId: Id)

  /**
   * The store's invariant: every row carries its own key, every key lies below
   * the generator (so the generator's next key is fresh in both tables), and
   * every stored expense refers by key to a stored category (the foreign key).
   */
  predicate WellFormed(t: Tables) {
    && (forall k | k in t.categories :: k < t.nextId && t.categories[k].id == Some(k))
    && (forall k | k in t.expenses ::
          && k < t.nextId && t.expenses[k].id == Some(k)
          && CategoryBound(t.expenses[k]) && CategoryKey(t.expenses[k]) in t.categories)
  }

  /** Some stored expense refers to the category stored under `id`. */
  predicate Referenced(t: Tables, id: Id) {
    exists k | k in t.expenses :: CategoryBound(t.expenses[k]) && CategoryKey(t.expenses[k]) == id
  }

  /** The store of a freshly started application. */
  const Empty := Tables(map[], map[], 1)

  /**
   * Relates a state-changing method to its specification function: when the
   * specification succeeds with a new snapshot and a record, the store holds
   * that snapshot and the method returns the record; when it fails, the
   * transaction is rolled back and the method reports the same error.
   */
  predicate Commits<T(==)>(spec: Result<(Tables, T)>, before: Tables, after: Tables, r: Result<T>) {
    match spec
    case Ok(v) => after == v.0 && r == Ok(v.1)
    case Err(e) => after == before && r == Err(e)
  }

  /** `Commits` for an operation that returns nothing but may fail. */
  predicate CommitsVoid(spec: Result<Tables>, before: Tables, after: Tables, r: Result<()>) {
    match spec
    case Ok(t) => after == t && r == Ok(())
    case Err(e) => after == before && r == Err(e)
  }

  class EntityStore {
    var categories: map<Id, Category>
    var expenses: map<Id, Expense>
    var nextId: Id

    function State(): Tables
      reads this
    {
      Tables(categories, expenses, nextId)
    }

    ghost predicate Valid()
      reads this
    {
      WellFormed(State())
    }

    constructor ()
      ensures Valid() && State() == Empty
    {
      categories := map[];
      expenses := map[];
      nextId := 1;
    }
  }

  /**
   * The rows of a table, as a query returns them: each key of `m` is visited
   * once, in an order the store chooses. `keys` records that order.
   */
  method Rows<T(==)>(m: map<Id, T>) returns (rows: seq<T>, ghost keys: seq<Id>)
    ensures |rows| == |keys| == |m|
    ensures forall i | 0 <= i < |keys| :: keys[i] in m && rows[i] == m[keys[i]]
    ensures forall i, j | 0 <= i < j < |keys| :: keys[i] != keys[j]
    ensures forall k | k in m :: k in keys
    ensures forall k | k in m :: m[k] in rows
    ensures forall i | 0 <= i < |rows| :: rows[i] in m.Values
  {
    var remaining := m.Keys;
    rows := [];
    keys := [];
    while remaining != {}
      invariant remaining <= m.Keys
      invariant |rows| == |keys| && |keys| + |remaining| == |m|
      invariant forall i | 0 <= i < |keys| :: keys[i] in m && keys[i] !in remaining && rows[i] == m[keys[i]]
      invariant forall i, j | 0 <= i < j < |keys| :: keys[i] != keys[j]
      invariant forall k | k in m && k !in remaining :: k in keys
      decreases |remaining|
    {
      HasMember(remaining);
      var key :| key in remaining;
      rows := rows + [m[key]];
      keys := keys + [key];
      remaining := remaining - {key};
    }
  }

  /** A non-empty set has a member to pick. */
  lemma HasMember(s: set<Id>)
    requires s != {}
    ensures exists x :: x in s
  {
    assert (forall x :: x !in s) ==> s == {};
  }
}
