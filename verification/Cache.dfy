/** The in-process cache. It may refuse or drop any entry at any time, and it does nothing for a caller
    whose context has ended. */
module Cache {
  import opened Outcomes

  /** A caller's context: how many more times it is found alive, if it ever ends. */
  type Context = Option<nat>

  predicate Done(ctx: Context, check: nat) {
    ctx.Some? && check >= ctx.value
  }

  function Hit<V>(store: map<string, V>, key: string, ctx: Context, check: nat): Option<V> {
    if !Done(ctx, check) && key in store then Some(store[key]) else None
  }

  /** What a read through the cache answers: the cached value, or else what the loader gives. */
  function ReadThrough<V, E>(store: map<string, V>, key: string, ctx: Context, loaded: Result<V, E>,
          ended: E): Result<V, E>
  {
    if Hit(store, key, ctx, 0).Some? then Ok(store[key])
    else if Done(ctx, 1) then Err(ended)
    else loaded
  }

  // The store after a read through it: a value that was loaded may be kept, an error never is.
  function StoreAfterRead<V, E>(store: map<string, V>, key: string, ctx: Context, loaded: Result<V, E>,
          accepted: bool): map<string, V>
  {
    if Hit(store, key, ctx, 0).None? && loaded.Ok? && !Done(ctx, 3) && accepted then store[key := loaded.value] else store
  }

  class RistrettoCache<V(==)> {
    var store: map<string, V>

    constructor ()
      ensures store == map[]
    {
      store := map[];
    }

    method Get(key: string, ctx: Context, check: nat) returns (value: Option<V>)
      ensures value == Hit(store, key, ctx, check)
      ensures value == if key !in store || (ctx.Some? && ctx.value <= check) then None else Some(store[key])
    {
      if Done(ctx, check) {
        return None;
      }
      value := if key in store then Some(store[key]) else None;
    }

    method Set(key: string, value: V, ctx: Context, check: nat, accepted: bool) returns (kept: bool)
      modifies this
      ensures kept <==> accepted && (ctx.Some? ==> check < ctx.value)
      ensures store == if kept then old(store)[key := value] else old(store)
    {
      if Done(ctx, check) {
        return false;
      }
      if accepted {
        store := store[key := value];
      }
      kept := accepted;
    }

    method Delete(key: string, ctx: Context)
      modifies this
      ensures store == if ctx == Some(0) then old(store) else old(store) - {key}
    {
      if Done(ctx, 0) {
        return;
      }
      store := store - {key};
    }

    // The part of a read through the cache that only one caller at a time runs for a key.
    method Load<E>(key: string, ctx: Context, loaded: Result<V, E>, ended: E, accepted: bool) returns (r: Result<V, E>)
      modifies this
      ensures r == if Done(ctx, 1) then Err(ended) else if Hit(old(store), key, ctx, 2).Some? then Ok(old(store)[key]) else loaded
      ensures store == if !Done(ctx, 1) && Hit(old(store), key, ctx, 2).None? && loaded.Ok? && !Done(ctx, 3) && accepted
                       then old(store)[key := loaded.value] else old(store)
    {
      if Done(ctx, 1) {
        return Err(ended);
      }
      var value := Get(key, ctx, 2);
      if value.Some? {
        return Ok(value.value);
      }
      if loaded.Ok? {
        var _ := Set(key, loaded.value, ctx, 3, accepted);
      }
      return loaded;
    }

    method GetOrSet<E>(key: string, ctx: Context, loaded: Result<V, E>, ended: E, accepted: bool)
      returns (r: Result<V, E>)
      modifies this
      ensures r == ReadThrough(old(store), key, ctx, loaded, ended)
      ensures store == StoreAfterRead(old(store), key, ctx, loaded, accepted)
      ensures ctx.None? && key in old(store) ==> r == Ok(old(store)[key]) && store == old(store)
      ensures ctx.None? && key !in old(store) ==> r == loaded
      ensures ctx.None? && key !in old(store) && loaded.Ok? && accepted ==> store == old(store)[key := loaded.value]
      ensures r.Err? || !accepted ==> store == old(store)
    {
      var value := Get(key, ctx, 0);
      if value.Some? {
        return Ok(value.value);
      }
      r := Load(key, ctx, loaded, ended, accepted);
    }
  }
}
