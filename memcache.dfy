/**
 * The memcached client the service caches forecast text in. Only what the
 * service relies on is modelled: a namespace prepended to every key, the
 * configured servers and whether each is alive, and a store of entries with
 * their expiry. A read may miss (the entry expired or was evicted) or fail
 * (a server chokes); a write may fail. Which of these happens is outside the
 * model, so those choices are nondeterministic.
 */
module MemCache {

  /** A stored value and the expiry, in seconds, it was stored with. */
  datatype Entry = Entry(data: string, expiry: int)

  /** The outcome of a read: the stored text, nothing, or an exception from the client. */
  datatype Lookup = Hit(data: string) | Miss | Choked

  class Client {
    const namespace: string
    /** One flag per configured server: whether it is alive. */
    var servers: seq<bool>
    /** Entries by their namespaced key. */
    var store: map<string, Entry>

    constructor (namespace: string)
      ensures this.namespace == namespace
      ensures servers == [] && store == map[]
    {
      this.namespace := namespace;
      servers := [];
      store := map[];
    }

    /** The key the client sends for `key`. */
    function FullKey(key: string): (r: string)
      ensures |r| == |namespace| + 1 + |key| && r[..|namespace|] == namespace && r[|namespace| + 1..] == key
    {
      namespace + ":" + key
    }

    /** Distinct keys are stored under distinct namespaced keys. */
    lemma FullKeyInjective(a: string, b: string)
      requires FullKey(a) == FullKey(b)
      ensures a == b
    {
      assert a == FullKey(a)[|namespace| + 1..];
    }

    /** `active?`: at least one server is configured. */
    predicate Active()
      reads this
    {
      servers != []
    }

    /** Whether some configured server is alive. */
    predicate AnyAlive()
      reads this
    {
      exists i :: 0 <= i < |servers| && servers[i]
    }

    /** `servers = ...`: configure the servers; the stored entries stay. */
    method SetServers(alive: seq<bool>)
      modifies this
      ensures servers == alive && store == old(store)
    {
      servers := alive;
    }

    /** `get(key)`: a hit only for a key that is stored, with the stored text. */
    method Get(key: string) returns (r: Lookup)
      ensures r.Hit? ==> FullKey(key) in store && r.data == store[FullKey(key)].data
    {
      var k := FullKey(key);
      var found: bool := *;
      if k in store && found {
        r := Hit(store[k].data);
      } else if * {
        r := Miss;
      } else {
        r := Choked;
      }
    }

    /** `set(key, data, expiry)`: on success the entry is stored; on failure nothing changes. */
    method Set(key: string, data: string, expiry: int) returns (ok: bool)
      modifies this
      ensures servers == old(servers)
      ensures ok ==> store == old(store)[FullKey(key) := Entry(data, expiry)]
      ensures !ok ==> store == old(store)
    {
      ok := *;
      if ok {
        store := store[FullKey(key) := Entry(data, expiry)];
      }
    }
  }
}
