/** The mutex-guarded map that both servers and the client share; one method call is one atomic step. */
module ThreadSafeMap {
  import opened Wrappers

  /** std::map::insert keeps the value of a key that is already there. */
  function Inserted<K, V>(m: map<K, V>, k: K, v: V): map<K, V> {
    if k in m then m else m[k := v]
  }

  /** findAndSet stores only over a key that is already there. */
  function Replaced<K, V>(m: map<K, V>, k: K, v: V): map<K, V> {
    if k in m then m[k := v] else m
  }

  function Lookup<K, V>(m: map<K, V>, k: K): Option<V> {
    if k in m then Some(m[k]) else None
  }

  class CThreadSafeMap<K(==), V(==)> {
    var map_: map<K, V>

    constructor ()
      ensures map_ == map[]
    {
      map_ := map[];
    }

    method Insert(key: K, value: V)
      modifies this
      ensures map_ == Inserted(old(map_), key, value)
    {
      if key !in map_ {
        map_ := map_[key := value];
      }
    }

    method Find(key: K) returns (value: Option<V>)
      ensures value == Lookup(map_, key)
    {
      value := None;
      if |map_| > 0 {
        if key in map_ {
          value := Some(map_[key]);
        }
      }
    }

    method FindValueByKey(key: K, value: V) returns (ret: bool)
      ensures ret <==> key in map_ && map_[key] == value
    {
      ret := false;
      if |map_| > 0 {
        if key in map_ {
          if value == map_[key] {
            ret := true;
          }
        }
      }
    }

    method FindAndSet(key: K, newValue: V) returns (oldValue: Option<V>)
      modifies this
      ensures oldValue == Lookup(old(map_), key)
      ensures map_ == Replaced(old(map_), key, newValue)
    {
      oldValue := None;
      if |map_| > 0 {
        if key in map_ {
          oldValue := Some(map_[key]);
          map_ := map_ - {key};
          map_ := map_[key := newValue];
        }
      }
    }

    method Erase(key: K)
      modifies this
      ensures map_ == old(map_) - {key}
    {
      map_ := map_ - {key};
    }
  }
}
