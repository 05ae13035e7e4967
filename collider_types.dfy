/** The three collider kinds and what a template literal makes of a core collider's `type`. */
module ColliderTypes {
  import opened Wrappers
  import opened ObjectLiteral

  datatype Kind = BoxCollider | CircleCollider | AlphaCollider

  /** The text every `ColliderType` object converts to: it defines no string conversion of its own. */
  const ObjectText: string := "[object Object]"

  /**
   * `${type}` for a core collider's `type`: a `ColliderType` object (`Some`) or
   * `null` (`None`, a collider built through the base class only).
   */
  function KeyOf(t: Option<Kind>): (s: string)
    ensures t.Some? ==> s == ObjectText
    ensures t.None? ==> s == "null"
  {
    match t
    case Some(_) => ObjectText
    case None => "null"
  }

  /** `${a.type}vs${b.type}`, the key of both lookup tables over a pair of colliders. */
  function PairKey(a: Option<Kind>, b: Option<Kind>): string {
    KeyOf(a) + "vs" + KeyOf(b)
  }

  /** Every pair of kinds yields one and the same key, so the kinds cannot be told apart by key. */
  lemma TypedPairKeysCoincide(a: Kind, b: Kind, c: Kind, d: Kind)
    ensures PairKey(Some(a), Some(b)) == PairKey(Some(c), Some(d)) == ObjectText + "vs" + ObjectText
  {
  }

  /** A pair with a `null` side has a key different from that of every typed pair. */
  lemma UntypedPairKeyDiffers(a: Option<Kind>, b: Option<Kind>, c: Kind, d: Kind)
    requires a.None? || b.None?
    ensures PairKey(a, b) != PairKey(Some(c), Some(d))
  {
    var k, t := PairKey(a, b), PairKey(Some(c), Some(d));
    if a.None? {
      assert k[0] == 'n' && t[0] == '[';
    } else {
      assert |k| == |t| + 11 || |k| == |t| - 11 by {
        assert |KeyOf(a)| == 15 && |KeyOf(b)| == 4;
      }
    }
  }

  /** A table's rows keyed the way the source keys them: by the text of the two types. */
  function TextKeyed<V>(rows: seq<(Kind, Kind, V)>): (r: seq<(string, V)>)
    ensures |r| == |rows|
    ensures forall i :: 0 <= i < |rows| ==> r[i] == (PairKey(Some(rows[i].0), Some(rows[i].1)), rows[i].2)
  {
    seq(|rows|, i requires 0 <= i < |rows| => (PairKey(Some(rows[i].0), Some(rows[i].1)), rows[i].2))
  }

  /** The same rows keyed by the pair of kinds itself, as the table's authors meant them. */
  function KindKeyed<V>(rows: seq<(Kind, Kind, V)>): (r: seq<((Kind, Kind), V)>)
    ensures |r| == |rows|
    ensures forall i :: 0 <= i < |rows| ==> r[i] == ((rows[i].0, rows[i].1), rows[i].2)
  {
    seq(|rows|, i requires 0 <= i < |rows| => ((rows[i].0, rows[i].1), rows[i].2))
  }

  /** No two rows name the same pair of kinds. */
  predicate DistinctPairs<V>(rows: seq<(Kind, Kind, V)>) {
    forall p, q :: 0 <= p < q < |rows| ==> (rows[p].0, rows[p].1) != (rows[q].0, rows[q].1)
  }

  /** Keyed by the kinds, rows with distinct pairs each keep their own value. */
  lemma KindKeyedLookup<V>(rows: seq<(Kind, Kind, V)>, i: int)
    requires 0 <= i < |rows| && DistinctPairs(rows)
    ensures var table := Build(KindKeyed(rows));
      (rows[i].0, rows[i].1) in table && table[(rows[i].0, rows[i].1)] == rows[i].2
  {
    DistinctKeysKeepAll(KindKeyed(rows), i);
  }
}
