/**
 * A JavaScript object literal with computed keys, `{ [k1]: v1, [k2]: v2, ... }`:
 * its entries are inserted in order and a key that occurs again keeps the later value.
 */
module ObjectLiteral {

  /** The object built from `entries`, in source order. */
  function Build<K(==), V>(entries: seq<(K, V)>): (m: map<K, V>)
    ensures m.Keys == set i | 0 <= i < |entries| :: entries[i].0
    ensures forall i :: 0 <= i < |entries| && LastOccurrence(entries, i) ==> m[entries[i].0] == entries[i].1
  {
    if entries == [] then map[]
    else
      var init, last := entries[..|entries| - 1], entries[|entries| - 1];
      var prior := Build(init);
      InsertLast(entries, prior);
      prior[last.0 := last.1]
  }

  /** Writing the last entry into the object built from the others gives the object built from all of them. */
  lemma InsertLast<K, V>(entries: seq<(K, V)>, prior: map<K, V>)
    requires |entries| > 0
    requires prior.Keys == set i | 0 <= i < |entries| - 1 :: entries[i].0
    requires forall i :: 0 <= i < |entries| - 1 && LastOccurrence(entries[..|entries| - 1], i) ==>
      prior[entries[i].0] == entries[i].1
    ensures var last := entries[|entries| - 1]; var m := prior[last.0 := last.1];
      m.Keys == (set i | 0 <= i < |entries| :: entries[i].0)
      && forall i :: 0 <= i < |entries| && LastOccurrence(entries, i) ==> m[entries[i].0] == entries[i].1
  {
    var init, last := entries[..|entries| - 1], entries[|entries| - 1];
    var m := prior[last.0 := last.1];
    assert m.Keys == set i | 0 <= i < |entries| :: entries[i].0 by {
      forall k | k in m.Keys ensures exists i :: 0 <= i < |entries| && entries[i].0 == k {
        if k != last.0 {
          var i :| 0 <= i < |entries| - 1 && entries[i].0 == k;
        } else {
          assert entries[|entries| - 1].0 == k;
        }
      }
    }
    forall i | 0 <= i < |entries| && LastOccurrence(entries, i) ensures m[entries[i].0] == entries[i].1 {
      if i < |init| {
        assert LastOccurrence(init, i);
        assert entries[i].0 != last.0;
      }
    }
  }

  /** No later entry repeats the key of entry `i`. */
  predicate LastOccurrence<K(==), V>(entries: seq<(K, V)>, i: int)
    requires 0 <= i < |entries|
  {
    forall j :: i < j < |entries| ==> entries[j].0 != entries[i].0
  }

  /** When every entry has the same key, the object holds that key only, with the value of the last entry. */
  lemma SameKeyKeepsLast<K, V>(entries: seq<(K, V)>, k: K)
    requires |entries| > 0
    requires forall i :: 0 <= i < |entries| ==> entries[i].0 == k
    ensures Build(entries) == map[k := entries[|entries| - 1].1]
  {
    var m := Build(entries);
    assert LastOccurrence(entries, |entries| - 1);
    assert m.Keys == {k} by {
      assert entries[0].0 in m.Keys;
    }
  }

  /** When no two entries share a key, each key maps to the value written with it. */
  lemma DistinctKeysKeepAll<K, V>(entries: seq<(K, V)>, i: int)
    requires 0 <= i < |entries|
    requires forall p, q :: 0 <= p < q < |entries| ==> entries[p].0 != entries[q].0
    ensures entries[i].0 in Build(entries) && Build(entries)[entries[i].0] == entries[i].1
  {
    assert LastOccurrence(entries, i);
  }
}
