/** PHP's ordered map: a Go map together with the slice of its keys in insertion order. */
module OrderedMaps {
  import opened Basics
  import opened PhpValues

  function AppendKey(entries: map<string, Value>, keys: seq<string>, key: string): seq<string> {
    if key in entries then keys else keys + [key]
  }

  function RemoveKey(keys: seq<string>, key: string): seq<string> {
    if keys == [] then [] else if keys[0] == key then keys[1..] else [keys[0]] + RemoveKey(keys[1..], key)
  }

  /** The key slice lists exactly the map's keys, each once. */
  ghost predicate Ordered(entries: map<string, Value>, keys: seq<string>) {
    && Distinct(keys)
    && (forall k :: k in keys <==> k in entries)
  }

  /** One ordered map: an array's Arr and Keys, or an object's Properties and PropKeys. */
  class OrderedMap {
    var entries: map<string, Value>
    var keys: seq<string>

    constructor ()
      ensures entries == map[] && keys == []
      ensures Ordered(entries, keys)
    {
      entries, keys := map[], [];
    }

    /** ArraySet / SetProp: overwrite in place, or append a new key at the end. */
    method Set(key: string, val: Value)
      requires Ordered(entries, keys)
      modifies this
      ensures Ordered(entries, keys)
      ensures entries == old(entries)[key := val]
      ensures keys == AppendKey(old(entries), old(keys), key)
    {
      if key !in entries {
        keys := keys + [key];
      }
      entries := entries[key := val];
    }

    /** ArrayUnset: drop the key from the map and its one slot from the slice. */
    method Unset(key: string)
      requires Ordered(entries, keys)
      modifies this
      ensures Ordered(entries, keys)
      ensures entries == old(entries) - {key}
      ensures keys == RemoveKey(old(keys), key)
    {
      if key !in entries {
        RemoveAbsent(keys, key);
        return;
      }
      entries := entries - {key};
      var i := 0;
      while i < |keys| && keys[i] != key
        invariant 0 <= i <= |keys| && keys == old(keys)
        invariant forall j :: 0 <= j < i ==> keys[j] != key
      {
        i := i + 1;
      }
      RemoveAt(keys, i);
      keys := keys[..i] + keys[i + 1..];
    }
  }

  lemma {:induction false} RemoveAt(keys: seq<string>, i: nat)
    requires Distinct(keys) && i < |keys|
    ensures RemoveKey(keys, keys[i]) == keys[..i] + keys[i + 1..]
    ensures Distinct(keys[..i] + keys[i + 1..])
    ensures forall k :: k in keys[..i] + keys[i + 1..] <==> k in keys && k != keys[i]
  {
    var rest := keys[..i] + keys[i + 1..];
    forall k ensures k in rest <==> k in keys && k != keys[i] {
      if k in keys && k != keys[i] {
        var j :| 0 <= j < |keys| && keys[j] == k;
        assert if j < i then rest[j] == k else rest[j - 1] == k;
      }
    }
    RemoveSplit(keys, i);
  }

  lemma {:induction false} RemoveSplit(keys: seq<string>, i: nat)
    requires Distinct(keys) && i < |keys|
    ensures RemoveKey(keys, keys[i]) == keys[..i] + keys[i + 1..]
  {
    if i > 0 {
      RemoveSplit(keys[1..], i - 1);
      assert keys[..i] + keys[i + 1..] == [keys[0]] + (keys[1..][..i - 1] + keys[1..][i..]);
    }
  }

  lemma {:induction false} RemoveAbsent(keys: seq<string>, key: string)
    requires key !in keys
    ensures RemoveKey(keys, key) == keys
  {
    if keys != [] {
      RemoveAbsent(keys[1..], key);
    }
  }
}
