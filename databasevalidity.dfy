/** The two checks of the database test suite, as a validity predicate on
    the database: the top-level keys are exactly the two partitions, and the
    keys of each partition, read as integers, are already in sorted order. */
module DatabaseValidity {
  import opened Wrappers
  import opened PyStrings
  import opened Sorting
  import opened FixDatabase

  /** `database.keys()` compared as a set. */
  function TopLevelKeys(db: Database): set<string>
  {
    set i | 0 <= i < |db.sections| :: db.sections[i].0
  }

  /** `test_database_structure`. */
  predicate TestDatabaseStructure(db: Database)
  {
    TopLevelKeys(db) == {"wm_classes", "wm_names"}
  }

  /** `list(map(lambda x: int(x), partition.keys()))`: raises on the first
      key that is not a decimal numeral. */
  function KeysAsInts(p: Partition): (r: Result<seq<int>>)
    ensures r.Ok? <==> forall i :: 0 <= i < |p| ==> ParseInt(p[i].0).Ok?
    ensures r.Ok? ==> |r.value| == |p| && forall i :: 0 <= i < |p| ==> ParseInt(p[i].0) == Ok(r.value[i])
  {
    if p == [] then Ok([])
    else
      match ParseInt(p[0].0)
      case Raise(e) => Raise(e)
      case Ok(n) =>
        var rest := KeysAsInts(p[1..]);
        assert forall i :: 1 <= i < |p| ==> p[i] == p[1..][i - 1];
        match rest
        case Raise(e) =>
          assert exists i :: 0 <= i < |p| && ParseInt(p[i].0).Raise? by {
            var i :| 0 <= i < |p| - 1 && ParseInt(p[1..][i].0).Raise?;
            assert ParseInt(p[i + 1].0).Raise?;
          }
          Raise(e)
        case Ok(ns) => Ok([n] + ns)
  }

  /** `keys == sorted(keys)` for one partition; a `ValueError` fails it. */
  predicate PartitionSorted(p: Partition)
  {
    match KeysAsInts(p)
    case Ok(keys) => keys == Sort(keys, Identity)
    case Raise(_) => false
  }

  /** `test_database_sorted`; a missing partition raises `KeyError` and fails it. */
  predicate TestDatabaseSorted(db: Database)
  {
    match Partitions(db)
    case Ok((classes, names)) => PartitionSorted(classes) && PartitionSorted(names)
    case Raise(_) => false
  }

  /** The database passes the whole test suite. */
  predicate DatabaseValid(db: Database)
  {
    TestDatabaseStructure(db) && TestDatabaseSorted(db)
  }

  /** The value `int(key)` of a key that parses. */
  function KeyValue(key: string): int
    requires ParseInt(key).Ok?
  {
    ParseInt(key).value
  }

  /** The sortedness test holds exactly when every key is a numeral and the
      keys are non-decreasing as integers (not as strings). */
  lemma PartitionSortedIff(p: Partition)
    ensures PartitionSorted(p) <==>
              (forall i :: 0 <= i < |p| ==> ParseInt(p[i].0).Ok?) &&
              (forall i, j :: 0 <= i < j < |p| ==> KeyValue(p[i].0) <= KeyValue(p[j].0))
  {
    match KeysAsInts(p)
    case Ok(keys) =>
      SortFixesExactlySorted(keys, Identity);
      assert forall i :: 0 <= i < |p| ==> KeyValue(p[i].0) == keys[i];
    case Raise(_) =>
  }

  /** A valid database has both partitions, so the fix run gets past
      `database["wm_classes"]` and `database["wm_names"]`. */
  lemma ValidDatabaseHasPartitions(db: Database)
    requires DatabaseValid(db)
    ensures Partitions(db).Ok?
  {
  }

  /** A valid database has no top-level key besides the two partitions. */
  lemma ValidDatabaseHasOnlyPartitions(db: Database, i: nat)
    requires DatabaseValid(db) && i < |db.sections|
    ensures db.sections[i].0 == "wm_classes" || db.sections[i].0 == "wm_names"
  {
    assert db.sections[i].0 in TopLevelKeys(db);
  }

  /** Order is numeric: "99" before "100" passes, "100" before "99" fails,
      although "100" sorts first as a string. */
  lemma NumericNotLexicographic(v: FixValue, w: FixValue)
    ensures PartitionSorted([("99", v), ("100", w)])
    ensures !PartitionSorted([("100", v), ("99", w)])
  {
    ParseIntOfIntToString(99);
    ParseIntOfIntToString(100);
    assert IntToString(99) == "99";
    assert IntToString(100) == "100";
    PartitionSortedIff([("99", v), ("100", w)]);
    PartitionSortedIff([("100", v), ("99", w)]);
  }
}
