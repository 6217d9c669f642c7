/**
 * The component registry of FailoverServer (failover/server.py): two maps
 * from component name to the callable that GET/HEAD and POST requests run.
 */
module Server {
  import opened Outcomes

  /** Stands for a registered Python callable. */
  type ComponentId = nat

  /**
   * `handlers[name] = entry` when `entry` is truthy; a falsy entry (None)
   * leaves the map alone.
   */
  function Register(handlers: map<string, ComponentId>, name: string, entry: Option<ComponentId>): (r: map<string, ComponentId>)
    ensures entry.None? ==> r == handlers
    ensures entry.Some? ==> name in r && r[name] == entry.value
    ensures r.Keys == handlers.Keys + if entry.Some? then {name} else {}
    ensures forall k :: k in handlers && k != name ==> r[k] == handlers[k]
  {
    if entry.Some? then handlers[name := entry.value] else handlers
  }

  /** Registering a name again overwrites the earlier entry. */
  lemma RegisterOverwrites(handlers: map<string, ComponentId>, name: string, first: ComponentId, second: ComponentId)
    ensures Register(Register(handlers, name, Some(first)), name, Some(second)) == Register(handlers, name, Some(second))
  {
  }

  class FailoverServer {
    var getHandlers: map<string, ComponentId>
    var postHandlers: map<string, ComponentId>

    /** A new server has no components. */
    constructor ()
      ensures getHandlers == map[] && postHandlers == map[]
    {
      getHandlers := map[];
      postHandlers := map[];
    }

    /** `add_component(name, task, on_post=None)`; the name is not checked. */
    method AddComponent(name: string, task: Option<ComponentId>, onPost: Option<ComponentId> := None)
      modifies this
      ensures getHandlers == Register(old(getHandlers), name, task)
      ensures postHandlers == Register(old(postHandlers), name, onPost)
    {
      if task.Some? {
        getHandlers := getHandlers[name := task.value];
      }
      if onPost.Some? {
        postHandlers := postHandlers[name := onPost.value];
      }
    }
  }
}
