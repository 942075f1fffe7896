/** The fix database (`database.json`) as the program loads it: a JSON
    object with two partitions, `wm_classes` and `wm_names`, each mapping a
    numeric-string app id to a string or to a list of strings. */
module FixDatabase {
  import opened Wrappers

  /** A partition value: one string, or a list of `"class=name"` records. */
  datatype FixValue = Str(text: string) | List(items: seq<string>)

  /** A JSON object as `json.load` returns it: keys in document order. */
  type Entries<V> = seq<(string, V)>

  type Partition = Entries<FixValue>

  datatype Database = Database(sections: Entries<Partition>)

  /** No key occurs twice, as in every loaded JSON object. */
  predicate DistinctKeys<V>(es: Entries<V>)
  {
    forall i, j :: 0 <= i < j < |es| ==> es[i].0 != es[j].0
  }

  /** `key in obj` together with `obj[key]`. */
  function Get<V>(es: Entries<V>, key: string): (r: Option<V>)
    ensures r.Some? <==> exists i :: 0 <= i < |es| && es[i].0 == key
    ensures r.Some? ==> exists i :: 0 <= i < |es| && es[i] == (key, r.value)
    ensures DistinctKeys(es) ==> forall i :: 0 <= i < |es| && es[i].0 == key ==> r == Some(es[i].1)
  {
    if es == [] then None
    else if es[0].0 == key then Some(es[0].1)
    else
      var r := Get(es[1..], key);
      assert forall i :: 1 <= i < |es| ==> es[i] == es[1..][i - 1];
      assert r.Some? ==> exists i :: 0 <= i < |es| && es[i] == (key, r.value) by {
        if r.Some? {
          var i :| 0 <= i < |es| - 1 && es[1..][i] == (key, r.value);
          assert es[i + 1] == (key, r.value);
        }
      }
      r
  }

  function HasKey<V>(es: Entries<V>, key: string): bool
  {
    Get(es, key).Some?
  }

  /** `wm_classes = database["wm_classes"]; wm_names = database["wm_names"]`:
      a database lacking either partition makes the program raise `KeyError`. */
  function Partitions(db: Database): (r: Result<(Partition, Partition)>)
    ensures r.Ok? <==> HasKey(db.sections, "wm_classes") && HasKey(db.sections, "wm_names")
    ensures r.Ok? ==>
              Get(db.sections, "wm_classes") == Some(r.value.0) &&
              Get(db.sections, "wm_names") == Some(r.value.1)
  {
    match (Get(db.sections, "wm_classes"), Get(db.sections, "wm_names"))
    case (Some(classes), Some(names)) => Ok((classes, names))
    case _ => Raise(KeyError)
  }
}
