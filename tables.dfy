/**
 * The table-level rules the handlers share: the case-insensitive uniqueness
 * query `UPPER(col) = UPPER(:value)` (optionally `AND id != :id`), and the
 * invariant it is meant to keep.
 */
module Tables {
  import opened Wrappers
  import opened Strings
  import opened Inventory

  /** Some row's key equals `s` ignoring case: the uniqueness query finds a row. */
  predicate Taken<R>(t: map<Id, R>, key: R -> string, s: string) {
    exists id :: id in t && SameIgnoringCase(key(t[id]), s)
  }

  /** The same query with `AND id != :self`, as the update handlers run it. */
  predicate TakenByOther<R>(t: map<Id, R>, key: R -> string, s: string, self: Id) {
    exists id :: id in t && id != self && SameIgnoringCase(key(t[id]), s)
  }

  /** No two rows have keys equal ignoring case. */
  predicate DistinctIgnoringCase<R>(t: map<Id, R>, key: R -> string) {
    forall a, b :: a in t && b in t && a != b ==> !SameIgnoringCase(key(t[a]), key(t[b]))
  }

  /** Inserting a row whose key is not taken keeps the keys distinct. */
  lemma InsertKeepsDistinct<R>(t: map<Id, R>, key: R -> string, id: Id, row: R)
    requires id !in t && !Taken(t, key, key(row))
    ensures DistinctIgnoringCase(t, key) ==> DistinctIgnoringCase(t[id := row], key)
  {
    var t' := t[id := row];
    forall a, b | DistinctIgnoringCase(t, key) && a in t' && b in t' && a != b
      ensures !SameIgnoringCase(key(t'[a]), key(t'[b]))
    {
      if a == id {
        assert !SameIgnoringCase(key(t[b]), key(row));
      } else if b == id {
        assert !SameIgnoringCase(key(t[a]), key(row));
      }
    }
  }

  /** Overwriting a row with a key no other row takes keeps the keys distinct. */
  lemma OverwriteKeepsDistinct<R>(t: map<Id, R>, key: R -> string, id: Id, row: R)
    requires id in t && !TakenByOther(t, key, key(row), id)
    ensures DistinctIgnoringCase(t, key) ==> DistinctIgnoringCase(t[id := row], key)
  {
    var t' := t[id := row];
    forall a, b | DistinctIgnoringCase(t, key) && a in t' && b in t' && a != b
      ensures !SameIgnoringCase(key(t'[a]), key(t'[b]))
    {
      if a == id {
        assert !SameIgnoringCase(key(t[b]), key(row));
      } else if b == id {
        assert !SameIgnoringCase(key(t[a]), key(row));
      }
    }
  }

  /** Removing a row keeps the keys distinct. */
  lemma RemoveKeepsDistinct<R>(t: map<Id, R>, key: R -> string, id: Id)
    ensures DistinctIgnoringCase(t, key) ==> DistinctIgnoringCase(t - {id}, key)
  {
  }

  /**
   * In a table with distinct keys, a row's own key in any letter case is not
   * taken by another row: re-saving a row under its own key succeeds.
   */
  lemma OwnKeyIsFree<R>(t: map<Id, R>, key: R -> string, self: Id, s: string)
    requires DistinctIgnoringCase(t, key)
    requires self in t && SameIgnoringCase(key(t[self]), s)
    ensures !TakenByOther(t, key, s, self)
  {
  }

  /**
   * The value an `update` leaves in a column it was given an optional value
   * for: an undefined property is not part of the SET clause.
   */
  function Updated<T>(given: Option<T>, current: Option<T>): (v: Option<T>)
    ensures given.Some? ==> v == given
    ensures given.None? ==> v == current
  {
    if given.Some? then given else current
  }
}
