/** The hash collectors write `m[key] = value` for each message they keep,
    so a later message with the same key overwrites an earlier one. This
    module gives the resulting map and what it holds. */
module Recording {

  /** The map after writing every kept message of `es`, in order. */
  function RecordAll<E, K(==), V>(m: map<K, V>, es: seq<E>, keep: E -> bool, key: E -> K, val: E -> V): map<K, V>
    decreases |es|
  {
    if |es| == 0 then m
    else RecordAll(if keep(es[0]) then m[key(es[0]) := val(es[0])] else m, es[1..], keep, key, val)
  }

  /** The keys written by kept messages of `es`. */
  function KeptKeys<E, K(==)>(es: seq<E>, keep: E -> bool, key: E -> K): set<K>
  {
    set j | 0 <= j < |es| && keep(es[j]) :: key(es[j])
  }

  /** Message j is kept and no later kept message has its key. */
  ghost predicate LastWrite<E, K>(es: seq<E>, keep: E -> bool, key: E -> K, j: int)
    requires 0 <= j < |es|
  {
    keep(es[j]) && forall j' :: j < j' < |es| && keep(es[j']) ==> key(es[j']) != key(es[j])
  }

  /** The keys are the old ones and those of the kept messages; a written
      key holds the value of its last kept message; a key no kept message
      wrote keeps its old value. */
  lemma {:induction false} RecordAllMeaning<E, K, V>(m: map<K, V>, es: seq<E>, keep: E -> bool, key: E -> K, val: E -> V)
    decreases |es|
    ensures var r := RecordAll(m, es, keep, key, val);
      && r.Keys == m.Keys + KeptKeys(es, keep, key)
      && (forall j :: 0 <= j < |es| && LastWrite(es, keep, key, j) ==> r[key(es[j])] == val(es[j]))
      && (forall k :: k in m && k !in KeptKeys(es, keep, key) ==> r[k] == m[k])
  {
    if |es| > 0 {
      var m' := if keep(es[0]) then m[key(es[0]) := val(es[0])] else m;
      var rest := es[1..];
      var r := RecordAll(m, es, keep, key, val);
      RecordAllMeaning(m', rest, keep, key, val);
      assert KeptKeys(es, keep, key) == (if keep(es[0]) then {key(es[0])} else {}) + KeptKeys(rest, keep, key) by {
        forall k | k in KeptKeys(es, keep, key)
          ensures k in (if keep(es[0]) then {key(es[0])} else {}) + KeptKeys(rest, keep, key)
        {
          var j :| 0 <= j < |es| && keep(es[j]) && key(es[j]) == k;
          if j > 0 {
            assert rest[j - 1] == es[j];
          }
        }
        forall k | k in KeptKeys(rest, keep, key) ensures k in KeptKeys(es, keep, key) {
          var j :| 0 <= j < |rest| && keep(rest[j]) && key(rest[j]) == k;
          assert es[j + 1] == rest[j];
        }
      }
      forall j | 0 <= j < |es| && LastWrite(es, keep, key, j)
        ensures r[key(es[j])] == val(es[j])
      {
        if j > 0 {
          assert LastWrite(rest, keep, key, j - 1) by {
            forall j' | j - 1 < j' < |rest| && keep(rest[j'])
              ensures key(rest[j']) != key(rest[j - 1])
            {
              assert rest[j'] == es[j' + 1];
            }
          }
        } else {
          assert key(es[0]) !in KeptKeys(rest, keep, key) by {
            forall j' | 0 <= j' < |rest| && keep(rest[j'])
              ensures key(rest[j']) != key(es[0])
            {
              assert rest[j'] == es[j' + 1];
            }
          }
        }
      }
    }
  }
}
