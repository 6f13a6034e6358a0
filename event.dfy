/**
  Event kinds, their wire names, and the parsing of an event out of a decoded
  JSON message (src/event.rs).
 */
module Events {
  import opened Wrappers
  import opened JsonValues

  /** The kinds of event the core can report. `Command` carries the command name. */
  datatype EventType =
    | Action | ActionMe | Command(name: string) | Connect | Ctcp | CtcpMe | CtcpReply
    | Disconnect | Invite | Join | Kick | Mode | Names | Nick | Notice | Numeric | Part
    | Pong | PrivMsg | PrivMsgMe | Quit | Topic | Unknown | Whois

  /**
    Why a name is not an event kind. `OffCharBoundary` stands for the panic
    of the source when it slices a name inside a multi-byte character.
   */
  datatype ParseEventTypeError = ParseEventTypeError | OffCharBoundary

  /** Why a message is not an event. `NamePanicked` carries the panic of `FromStr` on to the caller. */
  datatype InvalidJsonError = InvalidJsonError | NamePanicked

  /** An event: its kind and its string parameters, in wire order. */
  datatype Event = Event(kind: EventType, params: seq<string>)

  // ---------------------------------------------------------------------------
  // ASCII upper-casing (the only case mapping this model covers)

  function UpperChar(c: char): char {
    if 'a' <= c <= 'z' then (c as int - 32) as char else c
  }

  predicate IsUpper(s: string) {
    forall i :: 0 <= i < |s| ==> !('a' <= s[i] <= 'z')
  }

  function Upper(s: string): (u: string)
    ensures |u| == |s|
  {
    seq(|s|, i requires 0 <= i < |s| => UpperChar(s[i]))
  }

  /** Upper-casing yields an upper-case string and leaves upper-case strings alone. */
  lemma UpperFacts(s: string)
    ensures IsUpper(Upper(s))
    ensures IsUpper(s) ==> Upper(s) == s
    ensures Upper(Upper(s)) == Upper(s)
  {
  }

  lemma UpperAppend(a: string, b: string)
    ensures Upper(a + b) == Upper(a) + Upper(b)
  {
  }

  // ---------------------------------------------------------------------------
  // UTF-8 lengths: the source measures and slices wire names in bytes

  predicate IsAscii(c: char) {
    c as int < 0x80
  }

  /** The number of bytes of the UTF-8 encoding of `c`. */
  function Utf8Len(c: char): (n: nat)
    ensures 1 <= n <= 4
    ensures n == 1 <==> IsAscii(c)
  {
    if c as int < 0x80 then 1
    else if c as int < 0x800 then 2
    else if c as int < 0x1_0000 then 3
    else 4
  }

  /** The length of `s` in UTF-8 bytes (Rust's `str::len`). */
  function ByteLen(s: string): nat {
    if s == [] then 0 else Utf8Len(s[0]) + ByteLen(s[1..])
  }

  /**
    The number of characters that fill exactly the first `b` bytes of `s`;
    `None` when byte `b` is not a character boundary of `s`.
   */
  function CharIndexAt(s: string, b: nat): (r: Option<nat>)
    ensures r.Some? ==> r.value <= |s|
  {
    if b == 0 then Some(0)
    else if s == [] || b < Utf8Len(s[0]) then None
    else
      match CharIndexAt(s[1..], b - Utf8Len(s[0]))
      case None => None
      case Some(k) => Some(k + 1)
  }

  /** `CharIndexAt` finds a character count exactly when that many characters take `b` bytes. */
  lemma {:induction false} CharIndexAtIsBoundary(s: string, b: nat, k: nat)
    ensures CharIndexAt(s, b) == Some(k) <==> k <= |s| && ByteLen(s[..k]) == b
  {
    if k > 0 && k <= |s| {
      assert s[..k][1..] == s[1..][..k - 1];
    }
    if k > 0 && b > 0 && s != [] && b >= Utf8Len(s[0]) {
      CharIndexAtIsBoundary(s[1..], b - Utf8Len(s[0]), k - 1);
    }
  }

  /** Past an ASCII prefix of `n` characters, bytes and characters are counted alike. */
  lemma {:induction false} AsciiPrefix(s: string, n: nat, b: nat)
    requires n <= |s|
    requires forall i :: 0 <= i < n ==> IsAscii(s[i])
    ensures ByteLen(s) == n + ByteLen(s[n..])
    ensures CharIndexAt(s, n + b) ==
              if CharIndexAt(s[n..], b).None? then None else Some(n + CharIndexAt(s[n..], b).value)
  {
    if n > 0 {
      assert s[1..][n - 1..] == s[n..];
      AsciiPrefix(s[1..], n - 1, b);
    }
  }

  // ---------------------------------------------------------------------------
  // Parsing a wire name

  /**
    A command-shaped name: longer than 8 bytes, `COMMAND` in its first 7 bytes
    and a one-byte 8th character, which is otherwise not looked at.
   */
  predicate IsCommandName(u: string) {
    |u| > 8 && u[..7] == "COMMAND" && IsAscii(u[7])
  }

  /**
    A name longer than 8 bytes whose byte 7, or (after `COMMAND`) byte 8,
    falls inside a character: slicing there makes the source panic.
   */
  predicate SliceOffBoundary(u: string) {
    ByteLen(u) > 8
    && (CharIndexAt(u, 7).None? || (|u| > 7 && u[..7] == "COMMAND" && !IsAscii(u[7])))
  }

  // ---------------------------------------------------------------------------
  // EventType <-> wire name

  /** The wire name of an event kind. */
  function ToString(k: EventType): string {
    match k
    case Command(s) => "COMMAND_" + s
    case Action => "ACTION"
    case ActionMe => "ACTION_ME"
    case Connect => "CONNECT"
    case Ctcp => "CTCP"
    case CtcpMe => "CTCP_ME"
    case CtcpReply => "CTCP_REP"
    case Disconnect => "DISCONNECT"
    case Invite => "INVITE"
    case Join => "JOIN"
    case Kick => "KICK"
    case Mode => "MODE"
    case Names => "NAMES"
    case Nick => "NICK"
    case Notice => "NOTICE"
    case Numeric => "NUMERIC"
    case Part => "PART"
    case Pong => "PONG"
    case PrivMsg => "PRIVMSG"
    case PrivMsgMe => "PRIVMSG_ME"
    case Quit => "QUIT"
    case Topic => "TOPIC"
    case Unknown => "UNKNOWN"
    case Whois => "WHOIS"
  }

  /** The kind whose fixed wire name is `u`, if any. */
  function FixedKind(u: string): Option<EventType> {
    match u
    case "ACTION" => Some(Action)
    case "ACTION_ME" => Some(ActionMe)
    case "CONNECT" => Some(Connect)
    case "CTCP" => Some(Ctcp)
    case "CTCP_ME" => Some(CtcpMe)
    case "CTCP_REP" => Some(CtcpReply)
    case "DISCONNECT" => Some(Disconnect)
    case "INVITE" => Some(Invite)
    case "JOIN" => Some(Join)
    case "KICK" => Some(Kick)
    case "MODE" => Some(Mode)
    case "NAMES" => Some(Names)
    case "NICK" => Some(Nick)
    case "NOTICE" => Some(Notice)
    case "NUMERIC" => Some(Numeric)
    case "PART" => Some(Part)
    case "PONG" => Some(Pong)
    case "PRIVMSG" => Some(PrivMsg)
    case "PRIVMSG_ME" => Some(PrivMsgMe)
    case "QUIT" => Some(Quit)
    case "TOPIC" => Some(Topic)
    case "UNKNOWN" => Some(Unknown)
    case "WHOIS" => Some(Whois)
    case _ => None
  }

  /**
    Parses an event kind from its (case-insensitive) wire name: a fixed name
    first; then a name longer than 8 bytes whose first 7 bytes read `COMMAND`
    is a command named by what follows byte 8; otherwise an error. Lengths
    and slice positions are in UTF-8 bytes.
   */
  function FromStr(s: string): Result<EventType, ParseEventTypeError> {
    var u := Upper(s);
    match FixedKind(u)
    case Some(k) => Success(k)
    case None =>
      if ByteLen(u) <= 8 then Failure(ParseEventTypeError)
      else
        match CharIndexAt(u, 7)
        case None => Failure(OffCharBoundary)
        case Some(i) =>
          if u[..i] != "COMMAND" then Failure(ParseEventTypeError)
          else
            match CharIndexAt(u, 8)
            case None => Failure(OffCharBoundary)
            case Some(j) => Success(Command(u[j..]))
  }

  /** A fixed name is the wire name of the kind it stands for, never a command. */
  lemma FixedKindIsToString(u: string)
    ensures FixedKind(u).Some? ==> !FixedKind(u).value.Command? && ToString(FixedKind(u).value) == u
  {
  }

  /** No fixed name is longer than 8 characters and starts with `C`. */
  lemma FixedKindOfCommandName(u: string)
    requires |u| > 8 && u[0] == 'C'
    ensures FixedKind(u).None?
  {
  }

  /** Every wire name of a kind other than `Command` is upper case. */
  lemma FixedNamesAreUpper(k: EventType)
    requires !k.Command?
    ensures IsUpper(ToString(k))
    ensures !IsCommandName(ToString(k))
  {
    var u := ToString(k);
    if |u| > 8 {
      assert u[..7][0] == u[0] && u[0] != 'C';
    }
  }

  /** Parsing only looks at the upper-cased input. */
  lemma FromStrIgnoresCase(s: string)
    ensures FromStr(s) == FromStr(Upper(s))
  {
    UpperFacts(s);
  }

  /** Round trip for every kind other than `Command`. */
  lemma FromStrToString(k: EventType)
    requires !k.Command?
    ensures FromStr(ToString(k)) == Success(k)
  {
    var u := ToString(k);
    FixedNamesAreUpper(k);
    UpperFacts(u);
    assert FixedKind(u) == Some(k) by {
      FixedKindOfToString(k);
    }
  }

  lemma FixedKindOfToString(k: EventType)
    requires !k.Command?
    ensures FixedKind(ToString(k)) == Some(k)
  {
  }

  lemma CommandIsAscii(u: string)
    requires |u| >= 7 && u[..7] == "COMMAND"
    ensures forall i :: 0 <= i < 7 ==> IsAscii(u[i])
  {
    forall i | 0 <= i < 7
      ensures IsAscii(u[i])
    {
      assert u[i] == u[..7][i];
    }
  }

  /** An ASCII prefix of `n` characters takes exactly `n` bytes. */
  lemma AsciiBoundary(s: string, n: nat)
    requires n <= |s|
    requires forall i :: 0 <= i < n ==> IsAscii(s[i])
    ensures CharIndexAt(s, n) == Some(n)
    ensures ByteLen(s) == n + ByteLen(s[n..])
  {
    AsciiPrefix(s, n, 0);
    assert CharIndexAt(s[n..], 0) == Some(0);
  }

  /** After an ASCII prefix of 7 characters, byte 8 is a character boundary exactly when the 8th character is ASCII. */
  lemma Byte8AfterAscii(u: string)
    requires |u| > 7
    requires forall i :: 0 <= i < 7 ==> IsAscii(u[i])
    ensures CharIndexAt(u, 8) == if IsAscii(u[7]) then Some(8) else None
    ensures ByteLen(u[7..]) == Utf8Len(u[7]) + ByteLen(u[8..])
  {
    var t := u[7..];
    AsciiPrefix(u, 7, 1);
    assert t[0] == u[7] && t[1..] == u[8..];
    assert CharIndexAt(t, 1) == if IsAscii(u[7]) then Some(1) else None;
  }

  /** What bytes 7 and 8 of a name starting with `COMMAND` are, in characters. */
  lemma CommandPrefix(u: string)
    requires |u| >= 7 && u[..7] == "COMMAND"
    ensures CharIndexAt(u, 7) == Some(7)
    ensures ByteLen(u) == 7 + ByteLen(u[7..])
    ensures |u| > 7 ==> CharIndexAt(u, 8) == if IsAscii(u[7]) then Some(8) else None
    ensures |u| > 7 ==> ByteLen(u[7..]) == Utf8Len(u[7]) + ByteLen(u[8..])
  {
    CommandIsAscii(u);
    AsciiBoundary(u, 7);
    if |u| > 7 {
      Byte8AfterAscii(u);
    }
  }

  lemma CommandPrefixIsUpper()
    ensures Upper("COMMAND_") == "COMMAND_"
  {
    var s := "COMMAND_";
    assert IsUpper(s) by {
      forall i | 0 <= i < |s|
        ensures !('a' <= s[i] <= 'z')
      {
      }
    }
    UpperFacts(s);
  }

  /**
    A `Command` name comes back upper-cased; so the round trip holds exactly
    for non-empty upper-case command names.
   */
  lemma FromStrToStringCommand(c: string)
    requires c != []
    ensures FromStr(ToString(Command(c))) == Success(Command(Upper(c)))
    ensures IsUpper(c) ==> FromStr(ToString(Command(c))) == Success(Command(c))
  {
    var u := Upper("COMMAND_" + c);
    UpperOfCommandWire(c);
    FromStrIgnoresCase("COMMAND_" + c);
    FixedKindOfCommandName(u);
    NotFixedCases(u);
    UpperFacts(c);
  }

  /** Upper-casing a `Command` wire name leaves its `COMMAND_` prefix alone. */
  lemma UpperOfCommandWire(c: string)
    requires c != []
    ensures IsUpper(Upper("COMMAND_" + c))
    ensures IsCommandName(Upper("COMMAND_" + c))
    ensures Upper("COMMAND_" + c)[0] == 'C'
    ensures Upper("COMMAND_" + c)[8..] == Upper(c)
  {
    var u := Upper("COMMAND_" + c);
    UpperAppend("COMMAND_", c);
    CommandPrefixIsUpper();
    UpperFacts("COMMAND_" + c);
    assert u == "COMMAND_" + Upper(c);
    assert u[..7] == "COMMAND" && u[7] == '_';
  }

  /** What `FromStr` answers for a name that is not a fixed wire name. */
  lemma NotFixedCases(u: string)
    requires IsUpper(u) && FixedKind(u).None?
    ensures IsCommandName(u) ==> FromStr(u) == Success(Command(u[8..]))
    ensures FromStr(u) == Failure(OffCharBoundary) <==> SliceOffBoundary(u)
    ensures FromStr(u).Success? ==> IsCommandName(u) && FromStr(u) == Success(Command(u[8..]))
  {
    UpperFacts(u);
    if |u| >= 7 && u[..7] == "COMMAND" {
      CommandPrefix(u);
    } else if CharIndexAt(u, 7).Some? {
      var i := CharIndexAt(u, 7).value;
      assert u[..i] == "COMMAND" ==> i == 7;
    }
  }

  /** Lower-case command names do not survive the round trip. */
  lemma CommandNameIsUpperCased()
    ensures FromStr(ToString(Command("greet"))) == Success(Command("GREET"))
  {
    FromStrToStringCommand("greet");
    assert Upper("greet") == "GREET";
  }

  /** A one-byte character after `COMMAND` is skipped without being checked... */
  lemma CommandSeparatorUnchecked()
    ensures FromStr("COMMANDXHI") == Success(Command("HI"))
  {
    var u := "COMMANDXHI";
    assert u[..7] == "COMMAND" && u[8..] == "HI" && IsAscii(u[7]);
    FixedKindOfCommandName(u);
    NotFixedCases(u);
  }

  /** ...but a wider one puts byte 8 inside it, where the source panics. */
  lemma CommandSeparatorOneByte()
    ensures FromStr("COMMAND\U{C9}X") == Failure(OffCharBoundary)
  {
    var u := "COMMAND\U{C9}X";
    assert u[..7] == "COMMAND" && !IsAscii(u[7]);
    FixedKindOfCommandName(u);
    CommandPrefix(u);
    NotFixedCases(u);
  }

  /**
    What `FromStr` accepts: a fixed wire name (giving its kind), or a
    command-shaped name (giving `Command` of the text from byte 8). A name
    that is neither and is sliced inside a character is the panic; every
    other string is an error.
   */
  lemma FromStrCases(s: string)
    ensures FromStr(s).Success? && !FromStr(s).value.Command? ==> ToString(FromStr(s).value) == Upper(s)
    ensures FromStr(s).Success? && FromStr(s).value.Command? ==>
              IsCommandName(Upper(s)) && FromStr(s).value.name == Upper(s)[8..]
    ensures FromStr(s) == Failure(OffCharBoundary) <==>
              FixedKind(Upper(s)).None? && SliceOffBoundary(Upper(s))
    ensures FromStr(s) == Failure(ParseEventTypeError) <==>
              !IsCommandName(Upper(s)) && !SliceOffBoundary(Upper(s))
              && forall k: EventType :: !k.Command? ==> ToString(k) != Upper(s)
  {
    var u := Upper(s);
    UpperFacts(s);
    FromStrIgnoresCase(s);
    FixedKindIsToString(u);
    if FixedKind(u).None? {
      NotFixedCases(u);
      forall k: EventType | !k.Command?
        ensures ToString(k) != u
      {
        if ToString(k) == u {
          FromStrToString(k);
          assert false;
        }
      }
    } else {
      FixedNamesAreUpper(FixedKind(u).value);
      if |u| >= 7 && u[..7] == "COMMAND" {
        CommandPrefix(u);
      }
    }
  }

  // ---------------------------------------------------------------------------
  // Events from JSON

  /** The string elements of `params`, in their original order; other elements are dropped. */
  function StringsOf(params: seq<Json>): (r: seq<string>)
    ensures |r| <= |params|
  {
    if params == [] then []
    else
      var last := params[|params| - 1];
      StringsOf(params[..|params| - 1]) + (if last.Str? then [last.str] else [])
  }

  /** The loop of `param_strs`: push every string parameter. */
  method ParamStrs(params: seq<Json>) returns (strs: seq<string>)
    ensures strs == StringsOf(params)
  {
    strs := [];
    for i := 0 to |params|
      invariant strs == StringsOf(params[..i])
    {
      assert params[..i + 1][..i] == params[..i];
      if params[i].Str? {
        strs := strs + [params[i].str];
      }
    }
    assert params[..|params|] == params;
  }

  /** `StringsOf` keeps exactly the strings: `s` is kept iff `Str(s)` is a parameter. */
  lemma {:induction false} StringsOfMembership(params: seq<Json>, s: string)
    ensures s in StringsOf(params) <==> Str(s) in params
  {
    if params != [] {
      var init := params[..|params| - 1];
      assert params == init + [params[|params| - 1]];
      StringsOfMembership(init, s);
    }
  }

  /** `StringsOf` preserves order: it distributes over concatenation. */
  lemma {:induction false} StringsOfAppend(a: seq<Json>, b: seq<Json>)
    ensures StringsOf(a + b) == StringsOf(a) + StringsOf(b)
  {
    if b == [] {
      assert a + b == a;
    } else {
      var init := b[..|b| - 1];
      assert (a + b)[..|a + b| - 1] == a + init;
      StringsOfAppend(a, init);
    }
  }

  /** When every parameter is a string, all of them are kept, position by position. */
  lemma {:induction false} StringsOfAllStrings(params: seq<Json>)
    requires forall i :: 0 <= i < |params| ==> params[i].Str?
    ensures |StringsOf(params)| == |params|
    ensures forall i :: 0 <= i < |params| ==> StringsOf(params)[i] == params[i].str
  {
    if params != [] {
      StringsOfAllStrings(params[..|params| - 1]);
    }
  }

  /** A JSON value is an event iff it is an object with an `event` key. */
  predicate IsEvent(data: Json) {
    data.Object? && "event" in data.obj
  }

  /** Builds an event from its name and raw parameters; `COMMAND` takes the command from the 4th parameter. */
  function CreateEvent(evt: string, params: seq<Json>): Result<Event, InvalidJsonError> {
    if evt == "COMMAND" then
      if |params| >= 4 && params[3].Str? then
        Success(Event(Command(params[3].str), StringsOf(params)))
      else
        Failure(InvalidJsonError)
    else
      match FromStr(evt)
      case Success(k) => Success(Event(k, StringsOf(params)))
      case Failure(e) => Failure(if e.OffCharBoundary? then NamePanicked else InvalidJsonError)
  }

  /** Parses an event out of a decoded message. */
  function FromJson(data: Json): Result<Event, InvalidJsonError> {
    if data.Object? && "event" in data.obj && "params" in data.obj then
      var evt := data.obj["event"];
      var params := data.obj["params"];
      if evt.Str? && params.Array? then CreateEvent(evt.str, params.arr)
      else Failure(InvalidJsonError)
    else
      Failure(InvalidJsonError)
  }

  /** Well-shaped: an object whose `event` is a string and whose `params` is an array. */
  predicate WellShaped(data: Json) {
    data.Object? && "event" in data.obj && "params" in data.obj
    && data.obj["event"].Str? && data.obj["params"].Array?
  }

  /** Parsing fails unless the message is well-shaped; a parsed event keeps exactly the string parameters. */
  lemma FromJsonFailsUnless(data: Json)
    ensures !WellShaped(data) ==> FromJson(data).Failure?
    ensures FromJson(data).Success? ==>
              WellShaped(data) && IsEvent(data)
              && FromJson(data).value.params == StringsOf(data.obj["params"].arr)
  {
  }

  /** Event name exactly `COMMAND`: the command is the 4th parameter, which must exist and be a string. */
  lemma FromJsonCommand(data: Json)
    requires WellShaped(data) && data.obj["event"] == Str("COMMAND")
    ensures var ps := data.obj["params"].arr;
            FromJson(data).Success? <==> |ps| >= 4 && ps[3].Str?
    ensures var ps := data.obj["params"].arr;
            FromJson(data).Success? ==> FromJson(data).value.kind == Command(ps[3].str)
  {
  }

  /** Any other event name is parsed by `FromStr`; the message fails, or panics, exactly when that does. */
  lemma FromJsonNamed(data: Json)
    requires WellShaped(data) && data.obj["event"] != Str("COMMAND")
    ensures var name := data.obj["event"].str;
            FromJson(data).Success? <==> FromStr(name).Success?
    ensures var name := data.obj["event"].str;
            FromJson(data).Success? ==> FromJson(data).value.kind == FromStr(name).value
    ensures var name := data.obj["event"].str;
            FromJson(data) == Failure(NamePanicked) <==> FromStr(name) == Failure(OffCharBoundary)
  {
  }

  /** Three sample messages: a join event, a command event and a response. */
  lemma ClassifierExamples()
    ensures var join := Object(map["event" := Str("JOIN"),
                                   "params" := Array([Str("net"), Str("chan"), Str("user")])]);
            IsEvent(join) && FromJson(join) == Success(Event(Join, ["net", "chan", "user"]))
    ensures var cmd := Object(map["event" := Str("COMMAND"),
                                  "params" := Array([Str("net"), Str("chan"), Str("user"), Str("greet")])]);
            IsEvent(cmd) && FromJson(cmd) == Success(Event(Command("greet"), ["net", "chan", "user", "greet"]))
    ensures !IsEvent(Object(map["success" := Boolean(true)]))
  {
    var p3 := [Str("net"), Str("chan"), Str("user")];
    StringsOfAllStrings(p3);
    assert StringsOf(p3) == ["net", "chan", "user"];
    FromStrToString(Join);
    assert CreateEvent("JOIN", p3) == Success(Event(Join, ["net", "chan", "user"]));
    var p4 := [Str("net"), Str("chan"), Str("user"), Str("greet")];
    StringsOfAllStrings(p4);
    assert StringsOf(p4) == ["net", "chan", "user", "greet"];
    assert CreateEvent("COMMAND", p4) == Success(Event(Command("greet"), ["net", "chan", "user", "greet"]));
  }
}
