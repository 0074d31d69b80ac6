/** `Bundle` (proteome_exchange/utils.py): an attribute bag whose item keys
    are stored with every space replaced by an underscore. */
module Bundles {
  import opened Wrappers
  import Text
  import Dicts

  /** The slot name a key addresses: `key.replace(" ", "_")`. It is as long
      as the key and holds no space. */
  function Normalise(key: string): (r: string)
    ensures |r| == |key|
    ensures forall i :: 0 <= i < |r| ==> r[i] != ' '
  {
    Text.ReplaceCharwise(key, ' ', '_');
    Text.Replace(key, " ", "_")
  }

  /** Normalising maps the key character by character and leaves no space. */
  lemma NormaliseCharwise(key: string)
    ensures |Normalise(key)| == |key|
    ensures forall i :: 0 <= i < |key| ==> Normalise(key)[i] == if key[i] == ' ' then '_' else key[i]
    ensures forall i :: 0 <= i < |key| ==> Normalise(key)[i] != ' '
  {
    Text.ReplaceCharwise(key, ' ', '_');
  }

  /** A normalised key addresses its own slot. */
  lemma NormaliseIdempotent(key: string)
    ensures Normalise(Normalise(key)) == Normalise(key)
  {
    NormaliseCharwise(key);
    NormaliseCharwise(Normalise(key));
  }

  /** Two keys address the same slot exactly when they agree everywhere except
      that a space in one may stand where the other has a space or an
      underscore: `"a b"` and `"a_b"` are one slot. */
  lemma SameSlot(a: string, b: string)
    ensures Normalise(a) == Normalise(b) <==>
            |a| == |b| && forall i :: 0 <= i < |a| ==> a[i] == b[i] || (a[i] in " _" && b[i] in " _")
  {
    NormaliseCharwise(a);
    NormaliseCharwise(b);
    if |a| == |b| && forall i :: 0 <= i < |a| ==> a[i] == b[i] || (a[i] in " _" && b[i] in " _") {
      assert forall i :: 0 <= i < |a| ==> Normalise(a)[i] == Normalise(b)[i];
    }
    if Normalise(a) == Normalise(b) {
      forall i | 0 <= i < |a| ensures a[i] == b[i] || (a[i] in " _" && b[i] in " _") {
        assert Normalise(a)[i] == Normalise(b)[i];
      }
    }
  }

  /** The slots after `b[key] = value`. */
  function Store<V>(slots: map<string, V>, key: string, value: V): map<string, V> {
    slots[Normalise(key) := value]
  }

  /** `b[key]` raised `KeyError` with the normalised key. */
  datatype KeyError = KeyError(key: string)

  /** The result of `b[key]`. */
  function Lookup<V>(slots: map<string, V>, key: string): Result<V, KeyError> {
    var k := Normalise(key);
    if k in slots then Ok(slots[k]) else Err(KeyError(k))
  }

  /** Reading back: a key that addresses the written slot gives the written
      value, any other key gives what it gave before. */
  lemma LookupAfterStore<V>(slots: map<string, V>, key: string, value: V, other: string)
    ensures Lookup(Store(slots, key, value), other) ==
            if Normalise(other) == Normalise(key) then Ok(value) else Lookup(slots, other)
  {
  }

  /** The keyword arguments of `Bundle(**kwargs)` as slot assignments. */
  function NormalisedPairs<V>(kwargs: seq<(string, V)>): (r: seq<(string, V)>)
    ensures |r| == |kwargs|
    ensures forall i :: 0 <= i < |kwargs| ==> r[i] == (Normalise(kwargs[i].0), kwargs[i].1)
  {
    seq(|kwargs|, i requires 0 <= i < |kwargs| => (Normalise(kwargs[i].0), kwargs[i].1))
  }

  /** After `Bundle(**kwargs)` every keyword reads back its value, unless a
      later keyword addresses the same slot. */
  lemma KwargsReadBack<V>(kwargs: seq<(string, V)>, i: nat)
    requires i < |kwargs|
    requires forall j :: i < j < |kwargs| ==> Normalise(kwargs[j].0) != Normalise(kwargs[i].0)
    ensures Lookup(Dicts.StoreAll(map[], NormalisedPairs(kwargs)), kwargs[i].0) == Ok(kwargs[i].1)
  {
    Dicts.StoreAllLastWins(map[], NormalisedPairs(kwargs), i);
  }

  /** After `Bundle(**kwargs)` a key whose slot no keyword addresses raises
      `KeyError`. */
  lemma KwargsMissing<V>(kwargs: seq<(string, V)>, key: string)
    requires forall j :: 0 <= j < |kwargs| ==> Normalise(kwargs[j].0) != Normalise(key)
    ensures Lookup(Dicts.StoreAll(map[], NormalisedPairs(kwargs)), key) == Err(KeyError(Normalise(key)))
  {
    Dicts.StoreAllUntouched(map[], NormalisedPairs(kwargs), Normalise(key));
  }

  /** A `Bundle` object; `slots` is its instance `__dict__`. */
  class Bundle<V> {
    var slots: map<string, V>

    /** `Bundle(**kwargs)`: stores each keyword argument through `Set`, in the
        order of the (duplicate-free) keyword dictionary. */
    constructor (kwargs: seq<(string, V)>)
      requires forall i, j :: 0 <= i < j < |kwargs| ==> kwargs[i].0 != kwargs[j].0
      ensures slots == Dicts.StoreAll(map[], NormalisedPairs(kwargs))
    {
      slots := map[];
      new;
      ghost var pairs := NormalisedPairs(kwargs);
      var i := 0;
      while i < |kwargs|
        invariant 0 <= i <= |kwargs|
        invariant slots == Dicts.StoreAll(map[], pairs[..i])
      {
        Set(kwargs[i].0, kwargs[i].1);
        Dicts.StoreAllStep(map[], pairs, i);
        i := i + 1;
      }
      assert pairs[..i] == pairs;
    }

    /** `b[key] = value` (`__setitem__`). */
    method Set(key: string, value: V)
      modifies this
      ensures slots == Store(old(slots), key, value)
    {
      slots := slots[Normalise(key) := value];
    }

    /** `b[key]` (`__getitem__`). */
    method Get(key: string) returns (r: Result<V, KeyError>)
      ensures r.Ok? <==> Normalise(key) in slots
      ensures r.Ok? ==> r.value == slots[Normalise(key)]
      ensures r.Err? ==> r.error == KeyError(Normalise(key))
    {
      var k := Normalise(key);
      if k in slots {
        r := Ok(slots[k]);
      } else {
        r := Err(KeyError(k));
      }
    }
  }
}
