/**
  The listener registry of the client (src/dazeus.rs): a handle counter and
  an ordered list of listeners; subscribing and unsubscribing, with the rule
  for when an unsubscription goes on the wire; dispatch of an event to the
  listeners of its kind; and the choice of where a reply to an event goes.

  Requests handed to the core are recorded in the ghost log `sent`, listener
  invocations in the ghost log `calls`. A response the core will send later
  is not modelled; a response made locally is returned as `Immediate`.
 */
module Registry {
  import opened Wrappers
  import opened JsonValues
  import opened Events
  import opened Listeners
  import opened Sequences
  import Req = Requests
  import Resp = Responses

  /** What a registry operation gives back: a response made locally, or the request sent to the core. */
  datatype Outcome = Immediate(response: Resp.Response) | Sent(request: Req.Request)

  const NoListenerReason: string := "Could not find listener with given handle"
  const NotRepliableReason: string := "Not an event to reply to"

  /** The request that subscribes to events of `kind`: commands use their own request. */
  function SubscribeRequest(kind: EventType): (r: Req.Request)
    ensures !Req.IsCommandUnsubscribe(r)
    ensures Req.JsonName(r) == if kind.Command? then "command" else "subscribe"
    ensures Req.Params(r) == [Str(if kind.Command? then kind.name else ToString(kind))]
  {
    if kind.Command? then Req.SubscribeCommand(kind.name, None) else Req.Subscribe(kind)
  }

  /** An unsubscription names the event kind exactly as the subscription did. */
  lemma UnsubscribeMirrorsSubscribe(kind: EventType)
    requires !kind.Command?
    ensures Req.Params(Req.Unsubscribe(kind)) == Req.Params(SubscribeRequest(kind))
    ensures Req.JsonName(Req.Unsubscribe(kind)) == "unsubscribe"
  {
  }

  function Without(handle: Handle): Listener -> bool {
    (l: Listener) => !HasHandle(l, handle)
  }

  function NotOfKind(kind: EventType): Listener -> bool {
    (l: Listener) => l.kind != kind
  }

  function OfKind(kind: EventType): Listener -> bool {
    (l: Listener) => l.kind == kind
  }

  /** `iter().any(...)` over the listeners: is some listener of this kind? */
  function AnyOfKind(ls: seq<Listener>, kind: EventType): (b: bool)
    ensures b <==> exists i :: 0 <= i < |ls| && ls[i].kind == kind
  {
    if ls == [] then false
    else ls[0].kind == kind || AnyOfKind(ls[1..], kind)
  }

  /** `iter().find(...)` over the listeners: the kind of the first listener with this handle. */
  function KindOf(ls: seq<Listener>, handle: Handle): (r: Option<EventType>)
    ensures r.None? <==> forall i :: 0 <= i < |ls| ==> ls[i].handle != handle
    ensures r.Some? ==> exists i :: 0 <= i < |ls| && ls[i] == Listener(handle, r.value)
                                   && forall j :: 0 <= j < i ==> ls[j].handle != handle
  {
    if ls == [] then None
    else if HasHandle(ls[0], handle) then Some(ls[0].kind)
    else KindOf(ls[1..], handle)
  }
  /** A listener added under a fresh handle is found by that handle, with its kind. */
  lemma {:induction false} NewListenerIsFound(ls: seq<Listener>, h: Handle, k: EventType)
    requires forall i :: 0 <= i < |ls| ==> ls[i].handle != h
    ensures KindOf(ls + [NewListener(h, k)], h) == Some(k)
    ensures AnyOfKind(ls + [NewListener(h, k)], k)
  {
    var all := ls + [NewListener(h, k)];
    assert all[|ls|].kind == k;
    if ls == [] {
      assert all == [Listener(h, k)];
    } else {
      assert all[0] == ls[0] && all[1..] == ls[1..] + [NewListener(h, k)];
      NewListenerIsFound(ls[1..], h, k);
    }
  }



  /** The calls made for `event`: every listener of its kind, in registration order. */
  function Dispatch(ls: seq<Listener>, event: Event): seq<Call> {
    if ls == [] then []
    else (if ls[0].kind == event.kind then [Invoke(ls[0], event)] else []) + Dispatch(ls[1..], event)
  }

  lemma {:induction false} DispatchAppend(a: seq<Listener>, b: seq<Listener>, event: Event)
    ensures Dispatch(a + b, event) == Dispatch(a, event) + Dispatch(b, event)
  {
    if a == [] {
      assert a + b == b;
    } else {
      assert (a + b)[1..] == a[1..] + b;
      DispatchAppend(a[1..], b, event);
    }
  }

  /** Every listener of `ls`, called in order with `event`. */
  function CallAll(ls: seq<Listener>, event: Event): (r: seq<Call>)
    ensures |r| == |ls|
    ensures forall i :: 0 <= i < |ls| ==> r[i] == Invoke(ls[i], event)
  {
    if ls == [] then [] else [Invoke(ls[0], event)] + CallAll(ls[1..], event)
  }

  /**
    Dispatch calls exactly the listeners the kind filter keeps, in order,
    each once and with the event unchanged.
   */
  lemma {:induction false} DispatchIsFilter(ls: seq<Listener>, event: Event)
    ensures Dispatch(ls, event) == CallAll(Filter(ls, OfKind(event.kind)), event)
  {
    if ls != [] {
      DispatchIsFilter(ls[1..], event);
      var tail := Filter(ls[1..], OfKind(event.kind));
      if ls[0].kind == event.kind {
        assert Filter(ls, OfKind(event.kind)) == [ls[0]] + tail;
        assert ([ls[0]] + tail)[1..] == tail;
      } else {
        assert Filter(ls, OfKind(event.kind)) == tail;
      }
    }
  }

  /** Handles are below the next handle to issue. */
  predicate HandlesBelow(ls: seq<Listener>, next: Handle) {
    forall i :: 0 <= i < |ls| ==> 1 <= ls[i].handle < next
  }

  /** Handles increase along the list, so no two listeners share one. */
  predicate HandlesIncreasing(ls: seq<Listener>) {
    forall i, j :: 0 <= i < j < |ls| ==> ls[i].handle < ls[j].handle
  }

  /** Removing listeners keeps the handles issued and in increasing order. */
  lemma RetainKeepsHandles(ls: seq<Listener>, keep: Listener -> bool, next: Handle)
    requires HandlesBelow(ls, next) && HandlesIncreasing(ls)
    ensures HandlesBelow(Filter(ls, keep), next) && HandlesIncreasing(Filter(ls, keep))
  {
    var r := Filter(ls, keep);
    FilterKeepsOrder(ls, keep, (a: Listener, b: Listener) => a.handle < b.handle);
    forall i | 0 <= i < |r|
      ensures 1 <= r[i].handle < next
    {
      FilterMembership(ls, keep, r[i]);
    }
  }

  /** With distinct handles, unsubscribing a handle removes exactly its listener and keeps the rest in order. */
  lemma RetainRemovesOne(ls: seq<Listener>, i: nat)
    requires HandlesIncreasing(ls)
    requires i < |ls|
    ensures Filter(ls, Without(ls[i].handle)) == ls[..i] + ls[i + 1..]
  {
    var keep := Without(ls[i].handle);
    forall k | 0 <= k < |ls| && k != i
      ensures keep(ls[k])
    {
      assert k < i ==> ls[k].handle < ls[i].handle;
      assert i < k ==> ls[i].handle < ls[k].handle;
    }
    FilterRemovesOne(ls, i, keep);
  }

  /** Unsubscribing all of a kind leaves no listener of that kind. */
  lemma RetainOthersLeavesNone(ls: seq<Listener>, kind: EventType)
    ensures !AnyOfKind(Filter(ls, NotOfKind(kind)), kind)
  {
    var r := Filter(ls, NotOfKind(kind));
    forall i | 0 <= i < |r|
      ensures r[i].kind != kind
    {
      FilterMembership(ls, NotOfKind(kind), r[i]);
    }
  }

  /** The events a reply can be sent for. */
  predicate Repliable(kind: EventType) {
    kind == Join || kind == PrivMsg || kind == Notice || kind == Ctcp || kind == Action
  }

  /** Where a reply to an event goes. */
  datatype Targets = Targets(network: string, channel: string, user: string)

  /**
    The network, channel and user of a repliable event: its first, third and
    second parameter. Repliable events carry at least three parameters (the
    source indexes them without a check).
   */
  function TargetsForEvent(event: Event): (r: Option<Targets>)
    requires Repliable(event.kind) ==> |event.params| >= 3
    ensures r.Some? <==> Repliable(event.kind)
    ensures r.Some? ==>
              r.value.network == event.params[0] && r.value.channel == event.params[2]
              && r.value.user == event.params[1]
  {
    if Repliable(event.kind) then Some(Targets(event.params[0], event.params[2], event.params[1]))
    else None
  }

  /** How a reply is sent: as a message (optionally highlighting the user), a notice or an action. */
  datatype ReplyStyle = AsMessage(highlight: bool) | AsNotice | AsAction

  /**
    The reply request. When the event's channel is the bot's own nick (a
    private message), the reply goes to the user; otherwise to the channel,
    and a highlighted message is prefixed with the user's name.
   */
  function ReplyRequest(style: ReplyStyle, t: Targets, nick: string, message: string): Req.Request {
    if t.channel == nick then
      match style
      case AsMessage(_) => Req.Message(t.network, t.user, message)
      case AsNotice => Req.Notice(t.network, t.user, message)
      case AsAction => Req.Action(t.network, t.user, message)
    else
      match style
      case AsMessage(highlight) =>
        Req.Message(t.network, t.channel, if highlight then t.user + ": " + message else message)
      case AsNotice => Req.Notice(t.network, t.channel, message)
      case AsAction => Req.Action(t.network, t.channel, message)
  }

  /** The wire verb of each reply style. */
  function Verb(style: ReplyStyle): string {
    match style
    case AsMessage(_) => "message"
    case AsNotice => "notice"
    case AsAction => "action"
  }

  /**
    On the wire, a reply carries the network, the chosen target and the text,
    with the verb of its style; the target is the user exactly for private
    messages, and only a highlighted message in a channel changes the text.
   */
  lemma ReplyOnTheWire(style: ReplyStyle, t: Targets, nick: string, message: string)
    ensures var r := ReplyRequest(style, t, nick, message);
            var target := if t.channel == nick then t.user else t.channel;
            var text := if t.channel != nick && style == AsMessage(true) then t.user + ": " + message else message;
            !Req.IsCommandUnsubscribe(r)
            && Req.Params(r) == [Str(t.network), Str(target), Str(text)]
            && Req.JsonName(r) == Verb(style)
            && Req.ActionType(r) == "do"
  {
  }

  class DaZeus {
    /** Registered listeners, in registration order. */
    var listeners: seq<Listener>
    /** The handle the next subscription receives. */
    var currentHandle: Handle
    /** Requests sent to the core, in order. */
    ghost var sent: seq<Req.Request>
    /** Listener invocations, in order. */
    ghost var calls: seq<Call>

    ghost predicate Valid()
      reads this
    {
      currentHandle >= 1 && HandlesBelow(listeners, currentHandle) && HandlesIncreasing(listeners)
    }

    constructor ()
      ensures Valid()
      ensures listeners == [] && currentHandle == 1 && sent == [] && calls == []
    {
      listeners := [];
      currentHandle := 1;
      sent := [];
      calls := [];
    }

    /** Call every listener of the event's kind, in registration order. */
    method HandleEvent(event: Event)
      modifies this`calls
      ensures calls == old(calls) + Dispatch(listeners, event)
    {
      for i := 0 to |listeners|
        invariant calls == old(calls) + Dispatch(listeners[..i], event)
      {
        assert listeners[..i + 1] == listeners[..i] + [listeners[i]];
        DispatchAppend(listeners[..i], [listeners[i]], event);
        if listeners[i].kind == event.kind {
          calls := calls + [Invoke(listeners[i], event)];
        }
      }
      assert listeners[..|listeners|] == listeners;
    }

    /**
      Register a listener under a fresh handle, larger than every handle
      issued before, and send the subscription request.
     */
    method Subscribe(kind: EventType) returns (handle: Handle, request: Req.Request)
      requires Valid()
      modifies this`listeners, this`currentHandle, this`sent
      ensures Valid()
      ensures handle == old(currentHandle) && currentHandle == handle + 1
      ensures forall i :: 0 <= i < |old(listeners)| ==> old(listeners)[i].handle < handle
      ensures listeners == old(listeners) + [NewListener(handle, kind)]
      ensures request == SubscribeRequest(kind) && sent == old(sent) + [request]
    {
      request := SubscribeRequest(kind);
      handle := currentHandle;
      currentHandle := handle + 1;
      listeners := listeners + [NewListener(handle, kind)];
      sent := sent + [request];
    }

    /** Subscribe to a command by name. */
    method SubscribeCommand(command: string) returns (handle: Handle, request: Req.Request)
      requires Valid()
      modifies this`listeners, this`currentHandle, this`sent
      ensures Valid()
      ensures handle == old(currentHandle) && currentHandle == handle + 1
      ensures listeners == old(listeners) + [NewListener(handle, Command(command))]
      ensures request == Req.SubscribeCommand(command, None) && sent == old(sent) + [request]
    {
      handle, request := Subscribe(Command(command));
    }

    /**
      Remove the listener with this handle. An unknown handle fails; a
      command listener, or a kind that still has listeners, succeeds at
      once; otherwise the kind is unsubscribed on the wire.
     */
    method Unsubscribe(handle: Handle) returns (outcome: Outcome)
      requires Valid()
      modifies this`listeners, this`sent
      ensures Valid()
      ensures listeners == Filter(old(listeners), Without(handle))
      ensures match KindOf(old(listeners), handle)
              case None =>
                outcome == Immediate(Resp.ForFail(NoListenerReason)) && sent == old(sent)
              case Some(kind) =>
                if kind.Command? || AnyOfKind(listeners, kind) then
                  outcome == Immediate(Resp.ForSuccess()) && sent == old(sent)
                else
                  outcome == Sent(Req.Unsubscribe(kind)) && sent == old(sent) + [Req.Unsubscribe(kind)]
    {
      var event := KindOf(listeners, handle);
      RetainKeepsHandles(listeners, Without(handle), currentHandle);
      listeners := Filter(listeners, Without(handle));
      match event
      case None =>
        outcome := Immediate(Resp.ForFail(NoListenerReason));
      case Some(kind) =>
        if kind.Command? {
          outcome := Immediate(Resp.ForSuccess());
        } else if AnyOfKind(listeners, kind) {
          outcome := Immediate(Resp.ForSuccess());
        } else {
          outcome := Sent(Req.Unsubscribe(kind));
          sent := sent + [Req.Unsubscribe(kind)];
        }
    }

    /** Remove every listener of a kind; the kind is unsubscribed on the wire unless it is a command. */
    method UnsubscribeAll(kind: EventType) returns (outcome: Outcome)
      requires Valid()
      modifies this`listeners, this`sent
      ensures Valid()
      ensures listeners == Filter(old(listeners), NotOfKind(kind))
      ensures !AnyOfKind(listeners, kind)
      ensures kind.Command? ==> outcome == Immediate(Resp.ForSuccess()) && sent == old(sent)
      ensures !kind.Command? ==>
                outcome == Sent(Req.Unsubscribe(kind)) && sent == old(sent) + [Req.Unsubscribe(kind)]
    {
      RetainKeepsHandles(listeners, NotOfKind(kind), currentHandle);
      RetainOthersLeavesNone(listeners, kind);
      listeners := Filter(listeners, NotOfKind(kind));
      if kind.Command? {
        outcome := Immediate(Resp.ForSuccess());
      } else {
        outcome := Sent(Req.Unsubscribe(kind));
        sent := sent + [Req.Unsubscribe(kind)];
      }
    }

    /** Is some listener registered for this kind? */
    function HasAnySubscription(kind: EventType): (b: bool)
      reads this
      ensures b <==> exists i :: 0 <= i < |listeners| && listeners[i].kind == kind
    {
      AnyOfKind(listeners, kind)
    }

    /**
      Reply to an event: ask the core for the bot's nick on the event's
      network, then send the reply chosen from the nick found in the
      response (empty when it has none). Events that cannot be replied to
      fail at once.
     */
    method Reply(event: Event, message: string, style: ReplyStyle, nickResponse: Resp.Response) returns (outcome: Outcome)
      requires Repliable(event.kind) ==> |event.params| >= 3
      modifies this`sent
      ensures TargetsForEvent(event).None? ==>
                outcome == Immediate(Resp.ForFail(NotRepliableReason)) && sent == old(sent)
      ensures TargetsForEvent(event).Some? ==>
                var t := TargetsForEvent(event).value;
                var request := ReplyRequest(style, t, Resp.GetStrOr(nickResponse, "nick", ""), message);
                outcome == Sent(request) && sent == old(sent) + [Req.Nick(t.network), request]
    {
      match TargetsForEvent(event)
      case Some(t) =>
        sent := sent + [Req.Nick(t.network)];
        var nick := Resp.GetStrOr(nickResponse, "nick", "");
        var request := ReplyRequest(style, t, nick, message);
        sent := sent + [request];
        outcome := Sent(request);
      case None =>
        outcome := Immediate(Resp.ForFail(NotRepliableReason));
    }
  }
}
