/**
  The (network, sender, receiver) triple that narrows where a property or a
  permission applies (src/scope.rs). An absent component matches anything.
 */
module Scopes {
  import opened Wrappers
  import opened JsonValues

  datatype Scope = Scope(network: Option<string>, sender: Option<string>, receiver: Option<string>)

  /** Scope to everyone and anything. */
  function Any(): Scope { Scope(None, None, None) }

  /** Scope to one network. */
  function Network(network: string): Scope { Scope(Some(network), None, None) }

  /** Scope to one sender (typically a channel) on a network. */
  function Sender(network: string, sender: string): Scope { Scope(Some(network), Some(sender), None) }

  /** Scope to one receiver (typically a user) on a network. */
  function Receiver(network: string, receiver: string): Scope { Scope(Some(network), None, Some(receiver)) }

  /** Scope to one receiver in one channel on a network. */
  function To(network: string, sender: string, receiver: string): Scope { Scope(Some(network), Some(sender), Some(receiver)) }

  /** A scope that restricts nothing; requests leave such a scope off the wire. */
  predicate IsAny(s: Scope) {
    s.network.None? && s.sender.None? && s.receiver.None?
  }

  function OptionToJson(o: Option<string>): Json {
    match o
    case None => Null
    case Some(v) => Str(v)
  }

  /** The wire form of a scope: `[network or null, sender or null, receiver or null]`. */
  function ScopeToJson(s: Scope): (j: Json)
    ensures j.Array? && |j.arr| == 3
  {
    Array([OptionToJson(s.network), OptionToJson(s.sender), OptionToJson(s.receiver)])
  }

  /** Only `Any()` is the unrestricted scope; every other constructor sets the network. */
  lemma AnyIsTheOnlyUnrestrictedScope(s: Scope)
    ensures IsAny(s) <==> s == Any()
    ensures IsAny(Any())
  {
  }

  /** Each constructor fills exactly the components it names, and the wire form shows them in order. */
  lemma ConstructorsOnTheWire(n: string, snd: string, rcv: string)
    ensures ScopeToJson(Any()) == Array([Null, Null, Null])
    ensures ScopeToJson(Network(n)) == Array([Str(n), Null, Null]) && !IsAny(Network(n))
    ensures ScopeToJson(Sender(n, snd)) == Array([Str(n), Str(snd), Null]) && !IsAny(Sender(n, snd))
    ensures ScopeToJson(Receiver(n, rcv)) == Array([Str(n), Null, Str(rcv)]) && !IsAny(Receiver(n, rcv))
    ensures ScopeToJson(To(n, snd, rcv)) == Array([Str(n), Str(snd), Str(rcv)]) && !IsAny(To(n, snd, rcv))
  {
  }

  /** The wire form loses nothing: two scopes with the same wire form are equal. */
  lemma ScopeToJsonInjective(s: Scope, t: Scope)
    requires ScopeToJson(s) == ScopeToJson(t)
    ensures s == t
  {
    assert ScopeToJson(s).arr[0] == ScopeToJson(t).arr[0];
    assert ScopeToJson(s).arr[1] == ScopeToJson(t).arr[1];
    assert ScopeToJson(s).arr[2] == ScopeToJson(t).arr[2];
  }
}
