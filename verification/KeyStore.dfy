/** API keys and the prefix index that finds them. */
module KeyStore {

  import opened Wrappers

  datatype ApiKey = ApiKey(
    id: string, prefix: string, name: string, scopes: seq<string>, owner: Option<string>,
    createdAt: int, expiresAt: Option<int>, lastUsedAt: Option<int>, revoked: bool)

  datatype KeyError = ErrKeyNotFound | ErrInvalidKeyFormat

  datatype Keys = Keys(keys: map<string, ApiKey>, prefixIndex: map<string, string>) {
    /** The index is the exact inverse of the stored prefixes. */
    ghost predicate Valid() {
      (forall id :: id in keys ==>
         keys[id].id == id && keys[id].prefix in prefixIndex && prefixIndex[keys[id].prefix] == id)
      && forall p :: p in prefixIndex ==> prefixIndex[p] in keys && keys[prefixIndex[p]].prefix == p
    }

    function ByPrefix(prefix: string): Option<ApiKey> {
      if prefix in prefixIndex && prefixIndex[prefix] in keys then Some(keys[prefixIndex[prefix]]) else None
    }
  }

  /** Only the prefix is checked; an existing id is overwritten. */
  function Created(s: Keys, key: ApiKey): Keys {
    if key.prefix in s.prefixIndex then s
    else Keys(s.keys[key.id := key], s.prefixIndex[key.prefix := key.id])
  }

  /** A create keeps the index exact iff it refuses the prefix or the id is new. */
  lemma CreateKeepsIndexIff(s: Keys, key: ApiKey)
    requires s.Valid()
    ensures Created(s, key).Valid() <==> key.prefix in s.prefixIndex || key.id !in s.keys
  {
    var t := Created(s, key);
    if key.prefix !in s.prefixIndex && key.id in s.keys {
      var stale := s.keys[key.id].prefix;
      assert t.prefixIndex[stale] == key.id && t.keys[key.id].prefix != stale;
    }
  }

  /** Otherwise the replaced key's prefix finds the new key. */
  lemma StalePrefix(s: Keys, key: ApiKey)
    requires s.Valid() && key.prefix !in s.prefixIndex && key.id in s.keys
    ensures s.keys[key.id].prefix != key.prefix
    ensures Created(s, key).ByPrefix(s.keys[key.id].prefix) == Some(key)
  {
  }

  /** In a valid state a lookup by prefix finds what a full scan would find. */
  lemma ByPrefixIsScan(s: Keys, prefix: string)
    requires s.Valid()
    ensures s.ByPrefix(prefix).Some? <==> exists id :: id in s.keys && s.keys[id].prefix == prefix
    ensures forall id :: id in s.keys && s.keys[id].prefix == prefix ==> s.ByPrefix(prefix) == Some(s.keys[id])
  {
    if s.ByPrefix(prefix).Some? {
      assert s.keys[s.prefixIndex[prefix]].prefix == prefix;
    }
  }

  class MemoryKeyStore {
    var keys: map<string, ApiKey>
    var prefixIndex: map<string, string>

    constructor ()
      ensures State().Valid() && keys == map[]
    {
      keys, prefixIndex := map[], map[];
    }

    function State(): Keys
      reads this
    {
      Keys(keys, prefixIndex)
    }

    method Create(key: ApiKey) returns (r: Result<(), KeyError>)
      modifies this
      ensures State() == Created(old(State()), key)
      ensures r == if key.prefix in old(prefixIndex) then Err(ErrInvalidKeyFormat) else Ok(())
      ensures old(State().Valid()) ==> (State().Valid() <==> r.Err? || key.id !in old(keys))
    {
      if State().Valid() {
        CreateKeepsIndexIff(State(), key);
      }
      if key.prefix in prefixIndex {
        return Err(ErrInvalidKeyFormat);
      }
      keys := keys[key.id := key];
      prefixIndex := prefixIndex[key.prefix := key.id];
      r := Ok(());
    }

    method GetByPrefix(prefix: string) returns (r: Option<ApiKey>)
      ensures r == State().ByPrefix(prefix)
    {
      if prefix !in prefixIndex || prefixIndex[prefix] !in keys {
        return None;
      }
      r := Some(keys[prefixIndex[prefix]]);
    }

    method Revoke(id: string) returns (r: Result<(), KeyError>)
      modifies this
      ensures r == if id in old(keys) then Ok(()) else Err(ErrKeyNotFound)
      ensures keys == if r.Ok? then old(keys)[id := old(keys)[id].(revoked := true)] else old(keys)
      ensures prefixIndex == old(prefixIndex)
      ensures old(State().Valid()) ==> State().Valid()
    {
      if id !in keys {
        return Err(ErrKeyNotFound);
      }
      keys := keys[id := keys[id].(revoked := true)];
      r := Ok(());
    }

    method UpdateLastUsed(id: string, t: int) returns (r: Result<(), KeyError>)
      modifies this
      ensures r == if id in old(keys) then Ok(()) else Err(ErrKeyNotFound)
      ensures keys == if r.Ok? then old(keys)[id := old(keys)[id].(lastUsedAt := Some(t))] else old(keys)
      ensures prefixIndex == old(prefixIndex)
      ensures old(State().Valid()) ==> State().Valid()
    {
      if id !in keys {
        return Err(ErrKeyNotFound);
      }
      keys := keys[id := keys[id].(lastUsedAt := Some(t))];
      r := Ok(());
    }

    /** Both maps lose the key; a scan would then find neither the id nor the prefix. */
    method Delete(id: string) returns (r: Result<(), KeyError>)
      modifies this
      ensures r == if id in old(keys) then Ok(()) else Err(ErrKeyNotFound)
      ensures keys == if r.Ok? then old(keys) - {id} else old(keys)
      ensures prefixIndex == if r.Ok? then old(prefixIndex) - {old(keys)[id].prefix} else old(prefixIndex)
      ensures old(State().Valid()) ==> State().Valid()
    {
      if id !in keys {
        return Err(ErrKeyNotFound);
      }
      prefixIndex := prefixIndex - {keys[id].prefix};
      keys := keys - {id};
      r := Ok(());
    }
  }
}
