// ComponentService.kt: click listeners keyed by component id. Running a
// listener is recorded in the ghost log `invoked`; what the listener itself
// does is not part of this model.

module Services {
  import opened Values

  class ComponentService {
    var clickListeners: CallbackTable
    ghost var invoked: seq<Handler>

    constructor ()
      ensures clickListeners == map[] && invoked == []
    {
      clickListeners := map[];
      invoked := [];
    }

    /** `registerClickListener`: replaces any listener already registered
        for the component; other components keep theirs. */
    method RegisterClickListener(componentId: Int32, listener: Handler)
      modifies this
      ensures clickListeners == old(clickListeners)[componentId := listener]
      ensures Fired(clickListeners, componentId) == [listener]
      ensures forall other :: other != componentId ==>
                Fired(clickListeners, other) == Fired(old(clickListeners), other)
      ensures invoked == old(invoked)
    {
      clickListeners := clickListeners[componentId := listener];
      forall other | other != componentId
        ensures Fired(clickListeners, other) == Fired(old(clickListeners), other)
      {
        FiredAfterRegister(old(clickListeners), componentId, listener, other);
      }
    }

    /** `triggerClick`: run the component's listener, if it has one; a
        component without a listener is silently ignored. */
    method TriggerClick(componentId: Int32)
      modifies this
      ensures invoked == old(invoked) + Fired(clickListeners, componentId)
      ensures componentId in clickListeners ==> invoked == old(invoked) + [clickListeners[componentId]]
      ensures componentId !in clickListeners ==> invoked == old(invoked)
      ensures clickListeners == old(clickListeners)
    {
      invoked := invoked + Fired(clickListeners, componentId);
    }
  }
}
