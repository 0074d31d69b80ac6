/** Python dictionaries filled by a run of `d[k] = v` assignments. */
module Dicts {

  /** The keys written by a run of assignments. */
  function WrittenKeys<V>(kvs: seq<(string, V)>): set<string> {
    set i | 0 <= i < |kvs| :: kvs[i].0
  }

  /** The dictionary `d` after `d[k] = v` for each pair of `kvs`, in order.
      Defined from the last assignment so that it follows a forward loop. */
  function StoreAll<V>(d: map<string, V>, kvs: seq<(string, V)>): (r: map<string, V>)
    ensures r.Keys == d.Keys + WrittenKeys(kvs)
    decreases |kvs|
  {
    if kvs == [] then d
    else
      var init := kvs[..|kvs| - 1];
      assert WrittenKeys(kvs) == WrittenKeys(init) + {kvs[|kvs| - 1].0} by {
        assert forall i :: 0 <= i < |init| ==> init[i] == kvs[i];
      }
      StoreAll(d, init)[kvs[|kvs| - 1].0 := kvs[|kvs| - 1].1]
  }

  /** One more assignment after a run of them. */
  lemma StoreAllSnoc<V>(d: map<string, V>, kvs: seq<(string, V)>, k: string, v: V)
    ensures StoreAll(d, kvs + [(k, v)]) == StoreAll(d, kvs)[k := v]
  {
    assert (kvs + [(k, v)])[..|kvs|] == kvs;
  }

  /** One more assignment of a forward loop. */
  lemma StoreAllStep<V>(d: map<string, V>, kvs: seq<(string, V)>, i: nat)
    requires i < |kvs|
    ensures StoreAll(d, kvs[..i + 1]) == StoreAll(d, kvs[..i])[kvs[i].0 := kvs[i].1]
  {
    assert kvs[..i + 1][..i] == kvs[..i];
  }

  /** The last assignment to a key decides its value. */
  lemma {:induction false} StoreAllLastWins<V>(d: map<string, V>, kvs: seq<(string, V)>, i: nat)
    requires i < |kvs|
    requires forall j :: i < j < |kvs| ==> kvs[j].0 != kvs[i].0
    ensures kvs[i].0 in StoreAll(d, kvs) && StoreAll(d, kvs)[kvs[i].0] == kvs[i].1
  {
    if i < |kvs| - 1 {
      var init := kvs[..|kvs| - 1];
      StoreAllLastWins(d, init, i);
    }
  }

  /** A key that no assignment writes keeps what it had. */
  lemma {:induction false} StoreAllUntouched<V>(d: map<string, V>, kvs: seq<(string, V)>, k: string)
    requires forall j :: 0 <= j < |kvs| ==> kvs[j].0 != k
    ensures k in StoreAll(d, kvs) <==> k in d
    ensures k in d ==> StoreAll(d, kvs)[k] == d[k]
  {
    if kvs != [] {
      StoreAllUntouched(d, kvs[..|kvs| - 1], k);
    }
  }
}
