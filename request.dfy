/**
  Requests a plugin sends to the core and their JSON form (src/request.rs):
  `{"do"|"get": verb, "params": [...], "scope": [...]}`.
 */
module Requests {
  import opened Wrappers
  import opened JsonValues
  import E = Events
  import opened Scopes

  /** The version of the plugin protocol these bindings speak. */
  const PROTOCOL_VERSION: string := "1"

  /** Which settings a config value is read from. */
  datatype ConfigGroup = Plugin | Core

  datatype ParseConfigGroupError = ParseConfigGroupError

  function ConfigGroupToString(g: ConfigGroup): string {
    match g
    case Plugin => "plugin"
    case Core => "core"
  }

  function LowerChar(c: char): char {
    if 'A' <= c <= 'Z' then (c as int + 32) as char else c
  }

  function Lower(s: string): (l: string)
    ensures |l| == |s|
  {
    seq(|s|, i requires 0 <= i < |s| => LowerChar(s[i]))
  }

  /** Parses a config group, ignoring ASCII case. */
  function ConfigGroupFromStr(s: string): Result<ConfigGroup, ParseConfigGroupError> {
    match Lower(s)
    case "plugin" => Success(Plugin)
    case "core" => Success(Core)
    case _ => Failure(ParseConfigGroupError)
  }

  /** Round trip of the config group names. */
  lemma ConfigGroupRoundTrip(g: ConfigGroup)
    ensures ConfigGroupFromStr(ConfigGroupToString(g)) == Success(g)
  {
    assert Lower("plugin") == "plugin";
    assert Lower("core") == "core";
  }

  /** Parsing ignores ASCII case, and accepts exactly the two names in some casing. */
  lemma ConfigGroupFromStrCases(s: string)
    ensures ConfigGroupFromStr(s) == ConfigGroupFromStr(Lower(s))
    ensures ConfigGroupFromStr(s).Success? <==> Lower(s) == "plugin" || Lower(s) == "core"
    ensures ConfigGroupFromStr(s).Success? ==> ConfigGroupToString(ConfigGroupFromStr(s).value) == Lower(s)
  {
    assert Lower(Lower(s)) == Lower(s);
  }

  lemma ConfigGroupExample()
    ensures ConfigGroupFromStr("CoRe") == Success(Core)
  {
    assert Lower("CoRe") == "core";
  }

  /** Every request the core understands. */
  datatype Request =
    | Subscribe(E.EventType)
    | Unsubscribe(E.EventType)
    | SubscribeCommand(string, Option<string>)
    | Networks
    | Channels(string)
    | Message(string, string, string)
    | Notice(string, string, string)
    | Ctcp(string, string, string)
    | CtcpReply(string, string, string)
    | Action(string, string, string)
    | Names(string, string)
    | Whois(string, string)
    | Join(string, string)
    | Part(string, string)
    | Nick(string)
    | Handshake(string, string, Option<string>)
    | Config(string, ConfigGroup)
    | GetProperty(string, Scope)
    | SetProperty(string, string, Scope)
    | UnsetProperty(string, Scope)
    | PropertyKeys(string, Scope)
    | SetPermission(string, bool, Scope)
    | HasPermission(string, bool, Scope)
    | UnsetPermission(string, Scope)

  /** Commands cannot be unsubscribed on the wire: encoding such a request aborts. */
  predicate IsCommandUnsubscribe(r: Request) {
    match r
    case Unsubscribe(k) => k.Command?
    case _ => false
  }

  /** The verb of a request. */
  function JsonName(r: Request): string {
    match r
    case Subscribe(k) => if k.Command? then "command" else "subscribe"
    case Unsubscribe(_) => "unsubscribe"
    case SubscribeCommand(_, _) => "command"
    case Networks => "networks"
    case Channels(_) => "channels"
    case Message(_, _, _) => "message"
    case Notice(_, _, _) => "notice"
    case Ctcp(_, _, _) => "ctcp"
    case CtcpReply(_, _, _) => "ctcp_rep"
    case Action(_, _, _) => "action"
    case Names(_, _) => "names"
    case Whois(_, _) => "whois"
    case Join(_, _) => "join"
    case Part(_, _) => "part"
    case Nick(_) => "nick"
    case Handshake(_, _, _) => "handshake"
    case Config(_, _) => "config"
    case GetProperty(_, _) => "property"
    case SetProperty(_, _, _) => "property"
    case UnsetProperty(_, _) => "property"
    case PropertyKeys(_, _) => "property"
    case SetPermission(_, _, _) => "permission"
    case HasPermission(_, _, _) => "permission"
    case UnsetPermission(_, _) => "permission"
  }

  /** The key the verb is stored under: `get` for queries, `do` for actions. */
  function ActionType(r: Request): string {
    match r
    case Networks => "get"
    case Channels(_) => "get"
    case Nick(_) => "get"
    case Config(_, _) => "get"
    case _ => "do"
  }

  /** The parameters, in the order they are pushed. */
  function Params(r: Request): seq<Json>
    requires !IsCommandUnsubscribe(r)
  {
    match r
    case Subscribe(evt) => if evt.Command? then [Str(evt.name)] else [Str(E.ToString(evt))]
    case Unsubscribe(evt) => [Str(E.ToString(evt))]
    case SubscribeCommand(cmd, Some(network)) => [Str(cmd), Str(network)]
    case SubscribeCommand(cmd, None) => [Str(cmd)]
    case Networks => []
    case Channels(network) => [Str(network)]
    case Nick(network) => [Str(network)]
    case Message(network, channel, message) => [Str(network), Str(channel), Str(message)]
    case Notice(network, channel, message) => [Str(network), Str(channel), Str(message)]
    case Ctcp(network, channel, message) => [Str(network), Str(channel), Str(message)]
    case CtcpReply(network, channel, message) => [Str(network), Str(channel), Str(message)]
    case Action(network, channel, message) => [Str(network), Str(channel), Str(message)]
    case Names(network, channel) => [Str(network), Str(channel)]
    case Join(network, channel) => [Str(network), Str(channel)]
    case Part(network, channel) => [Str(network), Str(channel)]
    case Whois(network, user) => [Str(network), Str(user)]
    case Handshake(name, version, Some(configName)) =>
      [Str(name), Str(version), Str(PROTOCOL_VERSION), Str(configName)]
    case Handshake(name, version, None) =>
      [Str(name), Str(version), Str(PROTOCOL_VERSION), Str(name)]
    case Config(key, group) => [Str(ConfigGroupToString(group)), Str(key)]
    case GetProperty(property, _) => [Str("get"), Str(property)]
    case SetProperty(property, value, _) => [Str("set"), Str(property), Str(value)]
    case UnsetProperty(property, _) => [Str("unset"), Str(property)]
    case PropertyKeys(prefix, _) => [Str("keys"), Str(prefix)]
    case SetPermission(permission, default, _) => [Str("set"), Str(permission), Boolean(default)]
    case HasPermission(permission, default, _) => [Str("get"), Str(permission), Boolean(default)]
    case UnsetPermission(permission, _) => [Str("unset"), Str(permission)]
  }

  /** The scope of a property or permission request, if it has one. */
  function ScopeOf(r: Request): Option<Scope> {
    match r
    case GetProperty(_, scope) => Some(scope)
    case SetProperty(_, _, scope) => Some(scope)
    case UnsetProperty(_, scope) => Some(scope)
    case PropertyKeys(_, scope) => Some(scope)
    case SetPermission(_, _, scope) => Some(scope)
    case HasPermission(_, _, scope) => Some(scope)
    case UnsetPermission(_, scope) => Some(scope)
    case _ => None
  }

  /** Is `r` a property or permission request? */
  predicate IsScoped(r: Request) {
    ScopeOf(r).Some?
  }

  /**
    The object for a verb stored under `action`, an optional scope (left
    out when it is "any") and the parameters (left out when there are none).
   */
  function Encode(action: string, verb: string, scope: Option<Scope>, params: seq<Json>): Json {
    var header := map[action := Str(verb)];
    var withScope :=
      match scope
      case Some(s) => if !IsAny(s) then header["scope" := ScopeToJson(s)] else header
      case None => header;
    Object(if params != [] then withScope["params" := Array(params)] else withScope)
  }

  /** The JSON object sent for a request. */
  function ToJson(r: Request): Json
    requires !IsCommandUnsubscribe(r)
  {
    Encode(ActionType(r), JsonName(r), ScopeOf(r), Params(r))
  }

  lemma EncodeShape(action: string, verb: string, scope: Option<Scope>, params: seq<Json>)
    requires action != "params" && action != "scope"
    ensures Encode(action, verb, scope, params).Object?
    ensures var o := Encode(action, verb, scope, params).obj;
            action in o && o[action] == Str(verb)
            && ("params" in o <==> params != []) && ("params" in o ==> o["params"] == Array(params))
            && ("scope" in o <==> scope.Some? && !IsAny(scope.value))
            && ("scope" in o ==> o["scope"] == ScopeToJson(scope.value))
            && o.Keys <= {action, "params", "scope"}
  {
  }

  /** `get` is used exactly for the four query requests; every other request is `do`. */
  lemma ActionTypeIsGet(r: Request)
    ensures ActionType(r) == "get" <==> r.Networks? || r.Channels? || r.Nick? || r.Config?
    ensures ActionType(r) != "get" ==> ActionType(r) == "do"
  {
  }

  /**
    The object holds the verb under its action key, `params` iff there is at
    least one parameter, and `scope` iff the request is scoped with a scope
    other than "any"; nothing else.
   */
  lemma ToJsonShape(r: Request)
    requires !IsCommandUnsubscribe(r)
    ensures ToJson(r).Object?
    ensures var o := ToJson(r).obj;
            ActionType(r) in o && o[ActionType(r)] == Str(JsonName(r))
    ensures var o := ToJson(r).obj;
            ("params" in o <==> Params(r) != []) && ("params" in o ==> o["params"] == Array(Params(r)))
    ensures var o := ToJson(r).obj;
            ("scope" in o <==> IsScoped(r) && !IsAny(ScopeOf(r).value))
            && ("scope" in o ==> o["scope"] == ScopeToJson(ScopeOf(r).value))
    ensures ToJson(r).obj.Keys <= {ActionType(r), "params", "scope"}
  {
    ActionTypeIsGet(r);
    EncodeShape(ActionType(r), JsonName(r), ScopeOf(r), Params(r));
  }

  /** Only `Networks` has no parameters, so every other request carries a `params` key. */
  lemma ParamsKeyPresent(r: Request)
    requires !IsCommandUnsubscribe(r)
    ensures "params" in ToJson(r).obj <==> !r.Networks?
  {
    ToJsonShape(r);
  }

  /** Subscribing to a command, either way, uses the verb `command`. */
  lemma CommandSubscriptions(c: string, n: string)
    ensures JsonName(Subscribe(E.Command(c))) == "command" && Params(Subscribe(E.Command(c))) == [Str(c)]
    ensures JsonName(SubscribeCommand(c, None)) == "command" && Params(SubscribeCommand(c, None)) == [Str(c)]
    ensures JsonName(SubscribeCommand(c, Some(n))) == "command"
            && Params(SubscribeCommand(c, Some(n))) == [Str(c), Str(n)]
  {
  }

  /** Any other event subscription names the event kind by its wire name. */
  lemma EventSubscriptions(k: E.EventType)
    requires !k.Command?
    ensures JsonName(Subscribe(k)) == "subscribe" && Params(Subscribe(k)) == [Str(E.ToString(k))]
    ensures JsonName(Unsubscribe(k)) == "unsubscribe" && Params(Unsubscribe(k)) == [Str(E.ToString(k))]
  {
  }

  /** The five message-like requests send network, target and message in that order. */
  lemma MessageParams(r: Request)
    requires r.Message? || r.Notice? || r.Ctcp? || r.CtcpReply? || r.Action?
    ensures match r
            case Message(n, t, m) => Params(r) == [Str(n), Str(t), Str(m)]
            case Notice(n, t, m) => Params(r) == [Str(n), Str(t), Str(m)]
            case Ctcp(n, t, m) => Params(r) == [Str(n), Str(t), Str(m)]
            case CtcpReply(n, t, m) => Params(r) == [Str(n), Str(t), Str(m)]
            case Action(n, t, m) => Params(r) == [Str(n), Str(t), Str(m)]
            case _ => false
  {
  }

  /** A handshake sends name, version, protocol version and config name, which defaults to the name. */
  lemma HandshakeParams(name: string, version: string, config: Option<string>)
    ensures Params(Handshake(name, version, config))
            == [Str(name), Str(version), Str(PROTOCOL_VERSION), Str(if config.Some? then config.value else name)]
    ensures ActionType(Handshake(name, version, config)) == "do"
  {
  }

  /** Property and permission requests lead with their sub-verb. */
  lemma ScopedSubVerb(r: Request)
    requires IsScoped(r)
    ensures |Params(r)| >= 2 && Params(r)[0].Str?
    ensures Params(r)[0].str in {"get", "set", "unset", "keys"}
    ensures (r.GetProperty? || r.HasPermission?) <==> Params(r)[0] == Str("get")
    ensures (r.SetProperty? || r.SetPermission?) <==> Params(r)[0] == Str("set")
    ensures (r.UnsetProperty? || r.UnsetPermission?) <==> Params(r)[0] == Str("unset")
    ensures r.PropertyKeys? <==> Params(r)[0] == Str("keys")
  {
  }

  /** Joining a channel, as it goes on the wire. */
  lemma JoinExample()
    ensures ToJson(Join("net", "#chan"))
            == Object(map["do" := Str("join"), "params" := Array([Str("net"), Str("#chan")])])
  {
  }
}
