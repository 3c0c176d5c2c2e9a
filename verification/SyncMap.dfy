/** The mutex-guarded map. Every method is one critical section; a nil Go map reads as the empty one. */
module SyncMaps {
  import opened Options

  class SyncMap<K(==), V> {
    var m: map<K, V>

    constructor ()
      ensures m == map[]
    {
      m := map[];
    }

    method Load(key: K) returns (value: Option<V>)
      ensures value == if key in m then Some(m[key]) else None
    {
      if key in m {
        value := Some(m[key]);
      } else {
        value := None;
      }
    }

    method Store(key: K, value: V)
      modifies this
      ensures m == old(m)[key := value]
    {
      m := m[key := value];
    }

    /** Returns what is there, or puts the given value there first. */
    method LoadOrStore(key: K, value: V) returns (actual: V, loaded: bool)
      modifies this
      ensures loaded == (key in old(m))
      ensures m == (if loaded then old(m) else old(m)[key := value]) && actual == m[key]
    {
      loaded := key in m;
      if !loaded {
        m := m[key := value];
      }
      actual := m[key];
    }

    method LoadAndDelete(key: K) returns (value: Option<V>)
      modifies this
      ensures value == if key in old(m) then Some(old(m)[key]) else None
      ensures m == old(m) - {key}
    {
      value := Load(key);
      if value.Some? {
        m := m - {key};
      }
    }

    method Delete(key: K)
      modifies this
      ensures m == old(m) - {key}
    {
      m := m - {key};
    }

    /** The keys, each once, in the order the iteration happens to meet them. */
    method Keys() returns (keys: seq<K>)
      ensures forall k :: k in keys <==> k in m
      ensures forall i, j :: 0 <= i < j < |keys| ==> keys[i] != keys[j]
      ensures |keys| == |m|
    {
      keys := [];
      var rest := m.Keys;
      while rest != {}
        invariant rest <= m.Keys && |keys| + |rest| == |m|
        invariant forall k :: k in keys <==> k in m && k !in rest
        invariant forall i, j :: 0 <= i < j < |keys| ==> keys[i] != keys[j]
      {
        var k :| k in rest;
        keys := keys + [k];
        rest := rest - {k};
      }
    }
  }
}
