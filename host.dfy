/** The parts of the game's Lua state the bridge touches: the registry that
    holds callback references, the `Think` hook the poller runs from, and
    the callbacks it calls. What a callback does when it runs is outside the
    model; each call is recorded with the arguments it received. */
module Host {
  import opened Lua
  import opened Worker

  const ThinkEvent: string := "Think"
  const HookIdentifier: string := "gmsv_mongo_async"

  datatype HookCall = HookAdd(event: string, identifier: string) | HookRemove(event: string, identifier: string)

  /** One protected call of a callback with its two arguments. */
  datatype Invocation = Invocation(callback: LuaValue, error: LuaValue, value: LuaValue)

  class LuaState {
    /** `LUA_REGISTRYINDEX` entries made with `luaL_ref`. */
    var registry: map<Handle, LuaValue>
    var nextRef: Handle
    /** Whether `hook.Add("Think", "gmsv_mongo_async", ...)` is in effect. */
    var hookInstalled: bool
    var hookCalls: seq<HookCall>
    var invocations: seq<Invocation>
    /** The references given back with `luaL_unref`, in order. */
    var released: seq<Handle>

    ghost predicate Valid()
      reads this
    {
      nextRef >= 1 && forall h :: h in registry ==> 1 <= h < nextRef
    }

    constructor ()
      ensures Valid()
      ensures registry == map[] && !hookInstalled && hookCalls == [] && invocations == [] && released == []
    {
      registry := map[];
      nextRef := 1;
      hookInstalled := false;
      hookCalls := [];
      invocations := [];
      released := [];
    }

    /** `luaL_ref` of a non-nil value: a reference no live entry uses. */
    method Ref(v: LuaValue) returns (h: Handle)
      requires Valid()
      modifies this`registry, this`nextRef
      ensures Valid()
      ensures h !in old(registry) && registry == old(registry)[h := v]
    {
      h := nextRef;
      registry := registry[h := v];
      nextRef := nextRef + 1;
    }

    /** `lua_rawgeti(l, LUA_REGISTRYINDEX, h)`. */
    method RawGet(h: Handle) returns (v: LuaValue)
      ensures v == if h in registry then registry[h] else Nil
    {
      v := if h in registry then registry[h] else Nil;
    }

    /** `luaL_unref`. */
    method Unref(h: Handle)
      modifies this`registry, this`released
      ensures registry == old(registry) - {h} && released == old(released) + [h]
    {
      registry := registry - {h};
      released := released + [h];
    }

    /** `lua_pcall(l, 2, 0, 0)` of a callback; an error it raises is only
        logged. */
    method PCall(f: LuaValue, error: LuaValue, value: LuaValue)
      modifies this`invocations
      ensures invocations == old(invocations) + [Invocation(f, error, value)]
    {
      invocations := invocations + [Invocation(f, error, value)];
    }

    /** `hook.Add(event, identifier, poll_callbacks)`. */
    method HookAddCall(event: string, identifier: string)
      modifies this`hookInstalled, this`hookCalls
      ensures hookCalls == old(hookCalls) + [HookAdd(event, identifier)]
      ensures hookInstalled == (old(hookInstalled) || (event == ThinkEvent && identifier == HookIdentifier))
    {
      hookCalls := hookCalls + [HookAdd(event, identifier)];
      if event == ThinkEvent && identifier == HookIdentifier {
        hookInstalled := true;
      }
    }

    /** `hook.Remove(event, identifier)`. */
    method HookRemoveCall(event: string, identifier: string)
      modifies this`hookInstalled, this`hookCalls
      ensures hookCalls == old(hookCalls) + [HookRemove(event, identifier)]
      ensures hookInstalled == (old(hookInstalled) && !(event == ThinkEvent && identifier == HookIdentifier))
    {
      hookCalls := hookCalls + [HookRemove(event, identifier)];
      if event == ThinkEvent && identifier == HookIdentifier {
        hookInstalled := false;
      }
    }
  }
}
