/**
 * Building a dictionary by inserting key/value pairs in order, as Rust's
 * `HashMap::insert` loops and Python's dict comprehensions do: a later pair
 * with the same key overwrites an earlier one.
 */
module Collections {

  function LastWins<K, V>(pairs: seq<(K, V)>): map<K, V> {
    if pairs == [] then map[]
    else LastWins(pairs[..|pairs| - 1])[pairs[|pairs| - 1].0 := pairs[|pairs| - 1].1]
  }

  /** The keys that occur in a sequence of pairs. */
  function KeysOf<K, V>(pairs: seq<(K, V)>): set<K> {
    set i | 0 <= i < |pairs| :: pairs[i].0
  }

  /** The keys are exactly the keys that occur in the pairs. */
  lemma {:induction false} LastWinsKeys<K, V>(pairs: seq<(K, V)>)
    ensures LastWins(pairs).Keys == KeysOf(pairs)
  {
    if pairs != [] {
      var p := pairs[..|pairs| - 1];
      LastWinsKeys(p);
      var last := pairs[|pairs| - 1].0;
      assert KeysOf(pairs) == KeysOf(p) + {last} by {
        forall k | k in KeysOf(pairs) ensures k in KeysOf(p) + {last} {
          var i :| 0 <= i < |pairs| && pairs[i].0 == k;
          if i < |p| {
            assert p[i] == pairs[i];
          }
        }
        forall k | k in KeysOf(p) ensures k in KeysOf(pairs) {
          var i :| 0 <= i < |p| && p[i].0 == k;
          assert pairs[i] == p[i];
        }
      }
    }
  }

  /** Each key is bound to the value of the last pair that carries it. */
  lemma {:induction false} LastWinsValue<K, V>(pairs: seq<(K, V)>, i: nat)
    requires i < |pairs|
    requires forall j :: i < j < |pairs| ==> pairs[j].0 != pairs[i].0
    ensures pairs[i].0 in LastWins(pairs) && LastWins(pairs)[pairs[i].0] == pairs[i].1
  {
    if i < |pairs| - 1 {
      var p := pairs[..|pairs| - 1];
      assert p[i] == pairs[i];
      forall j | i < j < |p| ensures p[j].0 != p[i].0 {
        assert p[j] == pairs[j];
      }
      LastWinsValue(p, i);
    }
  }

  /** Appending a pair is a single insertion. */
  lemma LastWinsSnoc<K, V>(pairs: seq<(K, V)>, k: K, v: V)
    ensures LastWins(pairs + [(k, v)]) == LastWins(pairs)[k := v]
  {
    assert (pairs + [(k, v)])[..|pairs|] == pairs;
  }

  /** Some element of a non-empty set, for loops that visit a set in no fixed order. */
  lemma SomeMember<T>(s: set<T>) returns (x: T)
    requires s != {}
    ensures x in s
  {
    x :| x in s;
  }
}
