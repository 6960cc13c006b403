/** One bind from start to end and the endpoint resource it may leave behind, as the
    imperative code runs when nothing else does: `endpoint_bind_start` and
    `EndpointResource` in `native/iroh_beam_nif/src/endpoint.rs`. `IdentityRegistry` has the
    interleavings. */
module EndpointBind {
  import opened Options
  import R = IdentityRegistry

  class Registry {
    var ids: set<R.Id>
    var endpoints: nat

    constructor ()
      ensures ids == {} && endpoints == 0
    {
      ids, endpoints := {}, 0;
    }

    /** `reserve_identity` */
    method Reserve(id: R.Id) returns (ok: bool)
      modifies this`ids
      ensures ok <==> id !in old(ids)
      ensures ids == old(ids) + {id}
    {
      ok := id !in ids;
      ids := ids + {id};
    }

    /** `release_reserved_identity` */
    method ReleaseReserved(id: R.Id)
      modifies this`ids
      ensures ids == old(ids) - {id}
    {
      ids := ids - {id};
    }
  }

  class EndpointResource {
    const registry: Registry
    const id: R.Id
    var endpoint: Option<nat>
    var released: bool

    /** An unreleased resource holds its name and its place in the gauge. */
    ghost predicate Valid()
      reads this, registry
    {
      !released ==> id in registry.ids && registry.endpoints > 0
    }

    constructor (registry: Registry, id: R.Id, endpoint: nat)
      requires id in registry.ids
      modifies registry`endpoints
      ensures Valid() && !released && this.registry == registry && this.id == id && this.endpoint == Some(endpoint)
      ensures registry.endpoints == old(registry.endpoints) + 1
    {
      this.registry, this.id, this.endpoint, this.released := registry, id, Some(endpoint), false;
      new;
      registry.endpoints := registry.endpoints + 1;
    }

    /** `release_identity`: only the first call does anything. */
    method ReleaseIdentity()
      requires Valid()
      modifies this`released, registry
      ensures Valid() && released
      ensures registry.ids == if old(released) then old(registry.ids) else old(registry.ids) - {id}
      ensures registry.endpoints == old(registry.endpoints) - (if old(released) then 0 else 1)
    {
      var was := released;
      released := true;
      if !was {
        registry.ids := registry.ids - {id};
        registry.endpoints := registry.endpoints - 1;
      }
    }

    /** `abort`, also the resource's drop and its owner-down callback: true exactly for the
        call that took the native endpoint. */
    method AbortEndpoint() returns (had: bool)
      requires Valid()
      modifies this`endpoint, this`released, registry
      ensures Valid() && released && endpoint == None
      ensures had <==> old(endpoint).Some?
      ensures registry.ids == if old(released) then old(registry.ids) else old(registry.ids) - {id}
      ensures registry.endpoints == old(registry.endpoints) - (if old(released) then 0 else 1)
    {
      had := endpoint.Some?;
      endpoint := None;
      ReleaseIdentity();
    }
  }

  /** How each stage of a bind turns out; `came` is what the selection sees of the spawned
      task, and `cancelled` says that a cancellation won the operation's exchange. */
  datatype Course = Course(builderOk: bool, callerAlive: bool, came: R.Came, endpoint: nat, cancelled: bool,
                           ownerAlive: bool)

  /** `Silent` is a cancelled bind, which sends no message. */
  datatype BindResult = Made(resource: EndpointResource) | DuplicateIdentity | BindError(why: R.Failure) | Silent

  /** The whole of a bind with nothing beside it. Every way of failing leaves the registry and
      the gauge as they were, and a refusal touches nobody's name; success adds exactly this
      name. */
  method Bind(registry: Registry, id: R.Id, course: Course) returns (result: BindResult)
    requires course.came.Stopped? ==> course.cancelled
    modifies registry
    ensures result.Made? <==>
              id !in old(registry.ids) && course.builderOk && course.callerAlive && !course.cancelled
              && course.came.WithEndpoint? && course.ownerAlive
    ensures result.DuplicateIdentity? <==> id in old(registry.ids)
    ensures result.Silent? <==> id !in old(registry.ids) && course.builderOk && course.callerAlive && course.cancelled
    ensures !result.Made? ==> registry.ids == old(registry.ids) && registry.endpoints == old(registry.endpoints)
    ensures result.BindError? ==>
              result.why == if !course.builderOk then R.BuilderFailed
                            else if !course.callerAlive || course.came.WithEndpoint? then R.CallerGone
                            else if course.came.WithError? then R.BindFailed else R.BindPanicked
    ensures result.Made? ==> result.resource.endpoint == Some(course.endpoint)
    ensures result.Made? ==>
              && fresh(result.resource) && result.resource.Valid() && !result.resource.released
              && result.resource.registry == registry && result.resource.id == id
              && registry.ids == old(registry.ids) + {id} && registry.endpoints == old(registry.endpoints) + 1
  {
    var reserved := registry.Reserve(id);
    if !reserved {
      assert registry.ids == old(registry.ids);
      return DuplicateIdentity;
    }
    if !course.builderOk {
      registry.ReleaseReserved(id);
      return BindError(R.BuilderFailed);
    }
    if !course.callerAlive {
      registry.ReleaseReserved(id);
      return BindError(R.CallerGone);
    }
    if course.cancelled {
      registry.ReleaseReserved(id);
      return Silent;
    }
    match course.came {
      case WithEndpoint =>
        var resource := new EndpointResource(registry, id, course.endpoint);
        if course.ownerAlive {
          return Made(resource);
        }
        var had := resource.AbortEndpoint();
        return BindError(R.CallerGone);
      case WithError =>
        registry.ReleaseReserved(id);
        return BindError(R.BindFailed);
      case WithPanic =>
        registry.ReleaseReserved(id);
        return BindError(R.BindPanicked);
    }
  }
}
