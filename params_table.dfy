/**
 * The local copy of the parameter table and `register`, which initialises a
 * parameter name the first time an execution meets it. The store behind the
 * table is asynchronous; here its answers are the arguments of the methods
 * that model the callbacks.
 */
module ParamsTable {
  import opened Wrappers
  import opened Dict
  import PS = ParamStruct

  /** The value registered under one name: its array of parameter tensors. */
  type Params = seq<PS.Tensor>

  const StoreReturnedNothing := "Expected store to return params, got"

  /** The module-level `_params` together with the running coroutine's `paramsSeen`. */
  class Registry {
    /** `_params`; `None` until the first `sync`. */
    var table: Option<Dict<Params>>
    /** `env.coroutine.paramsSeen`; `None` when the coroutine keeps none. */
    var paramsSeen: Option<Dict<Params>>

    ghost predicate Valid()
      reads this
    {
      && (table.Some? ==> KeysDistinct(table.value))
      && (paramsSeen.Some? ==> KeysDistinct(paramsSeen.value))
    }

    constructor(paramsSeen: Option<Dict<Params>>)
      requires paramsSeen.Some? ==> KeysDistinct(paramsSeen.value)
      ensures Valid() && table.None? && this.paramsSeen == paramsSeen
    {
      table := None;
      this.paramsSeen := paramsSeen;
    }

    /**
     * The value a later `register(name)` returns without initialising anything,
     * if there is one: the one already seen in this execution, or, when the
     * coroutine keeps no record, the one in the table.
     */
    ghost function Cached(name: string): Option<Params>
      reads this
    {
      if paramsSeen.Some? then
        (if Has(paramsSeen.value, name) then Some(Get(paramsSeen.value, name)) else None)
      else if table.Some? && Has(table.value, name) then Some(Get(table.value, name))
      else None
    }

    /**
     * `sync`'s callback receiving `fetched` from the store: nothing is an
     * error, incremental mode merges the fetched keys into the table, any
     * other mode replaces it. The result is what the continuation receives.
     */
    method Sync(fetched: Option<Dict<Params>>, incremental: bool) returns (r: Result<Option<Dict<Params>>>)
      requires Valid() && (fetched.Some? ==> KeysDistinct(fetched.value))
      modifies this
      ensures Valid() && paramsSeen == old(paramsSeen)
      ensures fetched.None? ==> r == Err(StoreReturnedNothing) && table == old(table)
      ensures fetched.Some? && !incremental ==> table == fetched && r == Ok(table)
      ensures fetched.Some? && incremental && old(table).Some? ==>
        table == Some(Assign(old(table).value, fetched.value)) && r == Ok(table)
      ensures fetched.Some? && incremental && old(table).None? ==> table.None? && r == Ok(None)
    {
      if fetched.None? {
        return Err(StoreReturnedNothing);
      }
      if incremental {
        if table.Some? {
          table := Some(Assign(table.value, fetched.value));
        }
      } else {
        table := fetched;
      }
      return Ok(table);
    }

    /** `get()`: the local table as it is. */
    method GetTable() returns (t: Option<Dict<Params>>)
      ensures t == table
    {
      return table;
    }

    /** `set`'s callback: the table becomes the parameters that were stored. */
    method SetTable(params: Dict<Params>)
      requires Valid() && KeysDistinct(params)
      modifies this
      ensures Valid() && table == Some(params) && paramsSeen == old(paramsSeen)
    {
      table := Some(params);
    }

    /**
     * `register(env, name, getParams)`, where `initial` is what `getParams()`
     * returns and `initialised` says whether it was called. A name seen in
     * this execution returns the same value; a name in the table returns the
     * stored value; only an unknown name runs the initialiser, whose value is
     * then stored. Storing into a table that was never synced is a `TypeError`.
     */
    method Register(name: string, initial: Params) returns (r: Result<Params>, initialised: bool)
      requires Valid()
      modifies this
      ensures Valid()
      ensures old(Cached(name)).Some? ==>
        r == Ok(old(Cached(name)).value) && table == old(table) && paramsSeen == old(paramsSeen)
      ensures initialised <==> old(Cached(name)).None? && !(old(table).Some? && Has(old(table).value, name))
      ensures r.Err? <==> initialised && old(table).None?
      ensures r.Err? ==> table == old(table) && paramsSeen == old(paramsSeen)
      ensures initialised && old(table).Some? ==>
        r == Ok(initial) && table == Some(Put(old(table).value, name, initial))
      ensures !initialised ==> table == old(table)
      ensures r.Ok? ==> Cached(name) == Some(r.value)
      ensures r.Ok? && old(paramsSeen).Some? && !Has(old(paramsSeen).value, name) ==>
        paramsSeen == Some(Put(old(paramsSeen).value, name, r.value))
      ensures old(paramsSeen).None? ==> paramsSeen.None?
    {
      if paramsSeen.Some? && Has(paramsSeen.value, name) {
        return Ok(Get(paramsSeen.value, name)), false;
      }
      var params;
      if table.Some? && Has(table.value, name) {
        params := Get(table.value, name);
        initialised := false;
      } else {
        initialised := true;
        if table.None? {
          return Err("TypeError: Cannot set property of undefined"), initialised;
        }
        table := Some(Put(table.value, name, initial));
        params := initial;
      }
      if paramsSeen.Some? {
        paramsSeen := Some(Put(paramsSeen.value, name, params));
      }
      return Ok(params), initialised;
    }
  }
}
