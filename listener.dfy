/**
  A registered event listener (src/listener.rs). The callback itself is not
  modelled: invoking a listener is recorded as a `Call` of its handle with
  the event it was given.
 */
module Listeners {
  import opened Events

  /** Identifies a listener for later unsubscription. */
  type Handle = nat

  datatype Listener = Listener(handle: Handle, kind: EventType)

  /** One invocation of a listener's callback. */
  datatype Call = Call(handle: Handle, event: Event)

  function NewListener(handle: Handle, kind: EventType): (l: Listener)
    ensures l.handle == handle && l.kind == kind
  {
    Listener(handle, kind)
  }

  predicate HasHandle(l: Listener, handle: Handle) {
    l.handle == handle
  }

  /** Listener equality compares handles only. */
  predicate SameListener(a: Listener, b: Listener) {
    a.handle == b.handle
  }

  /** Calling a listener hands it the event unchanged, once. */
  function Invoke(l: Listener, event: Event): (c: Call)
    ensures c.handle == l.handle && c.event == event
  {
    Call(l.handle, event)
  }

  /**
    Equality ignores the event kind, and `HasHandle(l, h)` is equality with
    any listener holding handle `h`.
   */
  lemma SameListenerIsHandleEquality(a: Listener, b: Listener, h: Handle, k: EventType)
    ensures SameListener(a, b) <==> HasHandle(a, b.handle)
    ensures SameListener(NewListener(h, k), a) <==> HasHandle(a, h)
    ensures SameListener(a, a)
    ensures SameListener(a, b) ==> SameListener(b, a)
  {
  }
}
