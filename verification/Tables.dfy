/**
  Histories of one table: rows are inserted, updated and deleted one at a time, and a change is
  accepted only when every CHECK passes, no UNIQUE constraint is broken and no trigger raises.
  A transaction that commits is the sequence of its row changes; one that aborts leaves no trace.
  */
module Tables {
  import opened Wrappers

  datatype Rules<!Row> = Rules(
    key: Row -> nat,               // primary key
    checked: Row -> bool,          // every CHECK passes
    conflict: (Row, Row) -> bool,  // the two rows break a UNIQUE constraint
    mayUpdate: (Row, Row) -> bool, // the BEFORE UPDATE trigger lets the change through
    mayDelete: Row -> bool)        // the BEFORE DELETE trigger lets the change through

  /** A nullable UNIQUE column breaks its constraint only on equal values: NULLs are distinct. */
  predicate SameSlot(a: Option<int>, b: Option<int>) {
    a.Some? && b.Some? && a.value == b.value
  }

  /** The trigger test `OLD.x IS NOT NULL AND OLD.x IS DISTINCT FROM NEW.x` does not hold. */
  predicate WriteOnce<T(==)>(a: Option<T>, b: Option<T>) {
    a.None? || a == b
  }

  type Table<Row> = map<nat, Row>

  datatype Change<Row> = Insert(row: Row) | Update(key: nat, row: Row) | Delete(key: nat)

  ghost predicate Fits<Row(!new)>(rules: Rules<Row>, others: Table<Row>, row: Row) {
    && rules.key(row) !in others
    && rules.checked(row)
    && forall k | k in others :: !rules.conflict(others[k], row)
  }

  ghost predicate Accepts<Row(!new)>(rules: Rules<Row>, t: Table<Row>, change: Change<Row>) {
    match change
    case Insert(row) => Fits(rules, t, row)
    case Update(key, row) => key in t && rules.mayUpdate(t[key], row) && Fits(rules, t - {key}, row)
    case Delete(key) => key in t && rules.mayDelete(t[key])
  }

  function After<Row>(rules: Rules<Row>, t: Table<Row>, change: Change<Row>): Table<Row> {
    match change
    case Insert(row) => t[rules.key(row) := row]
    case Update(key, row) => (t - {key})[rules.key(row) := row]
    case Delete(key) => t - {key}
  }

  /** A table state after each accepted change of some history that starts with an empty table. */
  ghost predicate IsRun<Row(!new)>(rules: Rules<Row>, run: seq<Table<Row>>) {
    && |run| > 0 && run[0] == map[]
    && forall i: nat | i + 1 < |run| :: StepsAt(rules, run, i)
  }

  ghost predicate StepsAt<Row(!new)>(rules: Rules<Row>, run: seq<Table<Row>>, i: nat)
    requires i + 1 < |run|
  {
    Steps(rules, run[i], run[i + 1])
  }

  ghost predicate Steps<Row(!new)>(rules: Rules<Row>, t: Table<Row>, u: Table<Row>) {
    exists change :: Accepts(rules, t, change) && u == After(rules, t, change)
  }

  ghost predicate Symmetric<Row(!new)>(rules: Rules<Row>) {
    forall a, b :: rules.conflict(a, b) == rules.conflict(b, a)
  }

  /** Every row passes its CHECKs and no two rows break a UNIQUE constraint. */
  ghost predicate Consistent<Row(!new)>(rules: Rules<Row>, t: Table<Row>) {
    && (forall k | k in t :: rules.key(t[k]) == k && rules.checked(t[k]))
    && (forall k, l | k in t && l in t && k != l :: !rules.conflict(t[k], t[l]))
  }

  lemma StepConsistent<Row(!new)>(rules: Rules<Row>, t: Table<Row>, change: Change<Row>)
    requires Symmetric(rules) && Consistent(rules, t) && Accepts(rules, t, change)
    ensures Consistent(rules, After(rules, t, change))
  {
    var u := After(rules, t, change);
    if !change.Delete? {
      var others := if change.Update? then t - {change.key} else t;
      forall k | k in others
        ensures !rules.conflict(u[k], change.row) && !rules.conflict(change.row, u[k])
      {
        assert u[k] == others[k];
      }
    }
  }

  /** Every state of every history is consistent. */
  lemma {:induction false} RunConsistent<Row(!new)>(rules: Rules<Row>, run: seq<Table<Row>>, i: nat)
    requires Symmetric(rules) && IsRun(rules, run) && i < |run|
    ensures Consistent(rules, run[i])
  {
    if i > 0 {
      RunConsistent(rules, run, i - 1);
      assert StepsAt(rules, run, i - 1);
      var change :| Accepts(rules, run[i - 1], change) && run[i] == After(rules, run[i - 1], change);
      StepConsistent(rules, run[i - 1], change);
    }
  }

  /** The triggers never let a row go, and let it change only along `kept`. */
  ghost predicate Protects<Row(!new)>(rules: Rules<Row>, kept: (Row, Row) -> bool) {
    && (forall a :: !rules.mayDelete(a))
    && (forall a :: kept(a, a))
    && (forall a, b, c :: kept(a, b) && kept(b, c) ==> kept(a, c))
    && (forall a, b :: rules.mayUpdate(a, b) ==> rules.key(a) == rules.key(b) && kept(a, b))
  }

  lemma StepKeeps<Row(!new)>(rules: Rules<Row>, kept: (Row, Row) -> bool, t: Table<Row>, change: Change<Row>, k: nat)
    requires Protects(rules, kept) && Consistent(rules, t) && Accepts(rules, t, change) && k in t
    ensures k in After(rules, t, change) && kept(t[k], After(rules, t, change)[k])
  {
  }

  /** Once in the table a protected row is there for ever, and every later version is kept from every earlier one. */
  lemma {:induction false} RunKeeps<Row(!new)>(rules: Rules<Row>, kept: (Row, Row) -> bool, run: seq<Table<Row>>,
                                               i: nat, j: nat, k: nat)
    requires Symmetric(rules) && Protects(rules, kept) && IsRun(rules, run)
    requires i <= j < |run| && k in run[i]
    ensures k in run[j] && kept(run[i][k], run[j][k])
  {
    if i < j {
      RunKeeps(rules, kept, run, i, j - 1, k);
      RunConsistent(rules, run, j - 1);
      assert StepsAt(rules, run, j - 1);
      var change :| Accepts(rules, run[j - 1], change) && run[j] == After(rules, run[j - 1], change);
      StepKeeps(rules, kept, run[j - 1], change, k);
    }
  }
}
