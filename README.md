# DaZeus client bindings: a verified model

DaZeus is an IRC bot whose plugins talk to the core over a socket. Every
message on that socket is a frame: the payload's byte length in ASCII
decimal, then the payload, a JSON object. These Rust bindings frame and
unframe messages, turn the core's JSON into events and responses, turn
requests into JSON, and keep a registry of event listeners. The Dafny
project models that client side and proves what it promises.

| file | module | models |
|---|---|---|
| `wrappers.dfy` | `Wrappers` | `Option` / `Result` |
| `json.dfy` | `JsonValues` | decoded JSON values (null, boolean, number, string, array, object) |
| `sequences.dfy` | `Sequences` | `Vec::retain` as an order-preserving filter |
| `scope.dfy` | `Scopes` | `src/scope.rs` |
| `listener.dfy` | `Listeners` | `src/listener.rs` |
| `event.dfy` | `Events` | `src/event.rs` |
| `request.dfy` | `Requests` | `src/request.rs` |
| `response.dfy` | `Responses` | `src/response.rs` |
| `framing.dfy` | `Framing` | the length-prefix scan and frame encoding shared by both handler files |
| `handler.dfy` | `SyncHandler` | `src/handler.rs`, the single-threaded handler, as class `Handler` |
| `handlers.dfy` | `Handlers` | `src/handlers.rs`, the threaded `Reader`, `Writer` and `Handler` classes |
| `dazeus.dfy` | `Registry` | the listener registry and replies of `src/dazeus.rs`, as class `DaZeus` |

Modelling choices:

- **Framing.**
  - The scan of a length prefix is specified once, in `Framing`, by two functions:
    - `PrefixEnd`: how far the prefix reaches;
    - `PrefixValue`: the decimal value of its digits, skipping CR and LF.
  - `FindFrame` combines them with the source's "non-zero and fully buffered" test.
  - `Drain` repeats `FindFrame` until no frame remains.
- **Two digit tests.**
  - `src/handler.rs:52` counts bytes 0x30–0x39 as digits (`DecimalLimit`).
  - `src/handlers.rs:50` counts bytes 0x30–0x3F as digits (`ReaderLimit`).
  - Every framing function takes the limit as a parameter, and each handler uses its own file's constant.
  - `Framing.DigitTestsDiffer` shows an input on which the two disagree.
- **JSON text and UTF-8.**
  - Turning payload bytes into JSON is a function parameter, `decode`; turning JSON into bytes is `encode`.
  - Both are outside this model.
  - A socket read is a sequence of byte chunks given to the method; a failed read is the chunk `ReadFailed`.
- **Queues and outputs.**
  - Channels and the `VecDeque` of response senders are sequences.
  - The threaded handler hands a response to slot number `n`, recorded in `delivered`.
  - The registry records the requests it sends in the ghost log `sent`.
  - It records each listener invocation as a `Call(handle, event)` in the ghost log `calls`.
- **Panics.**
  - A panic that ends the handler thread is modelled as `false`, with the state unchanged:
    - `Handler::handle_response` with no pending response;
    - `Handler::handle_event` with a malformed event.
  - The `panic!` of `to_json` on `Unsubscribe(Command(_))` is a precondition (`!IsCommandUnsubscribe`).
  - So is the unchecked indexing of `targets_for_event`: a repliable event must have at least three parameters.
  - `EventType::from_str` slices the upper-cased name at bytes 7 and 8; when a slice falls inside a multi-byte character, Rust panics.
    - The model returns the distinct error `OffCharBoundary` there.
    - `Event::from_json` passes it on as `NamePanicked`, the single-threaded handler as `Panicked`, and the threaded handler treats it as fatal.
- **Scopes on the wire.**
  - `src/request.rs` calls `Scope::is_any` and `Scope::to_json`, but `src/scope.rs` does not define them.
  - `Scopes.IsAny` holds when all three components are absent.
  - `Scopes.ScopeToJson` is `[network, sender, receiver]`, with `null` for an absent component.
- **Subscriptions are not de-duplicated.**
  - `subscribe` sends a subscription request every time, even when listeners of the kind already exist (`src/dazeus.rs:133-144`).
  - The model follows the code.
- **The `Reader` loop body.**
  - `Reader.ProcessNext` is one iteration of the inner loop of `Reader::run`: `find_message_len`, then `try_process_message`.
  - `Reader.ProcessBuffered` is the whole inner loop.

## Model

| member | source | states |
|---|---|---|
| Scopes.AnyIsTheOnlyUnrestrictedScope | src/scope.rs:15-17 | `any()` leaves network, sender and receiver unset, and it is the only scope that restricts nothing |
| Scopes.ConstructorsOnTheWire | src/scope.rs:20-37 | `network`, `sender`, `receiver` and `to` set exactly the components they name; none of them is "any"; the wire form lists the components in order |
| Scopes.ScopeToJsonInjective | src/request.rs:426-428 | the scope's wire form loses nothing: two scopes with the same JSON are the same scope |
| Listeners.SameListenerIsHandleEquality | src/listener.rs:18-22 | two listeners are equal iff their handles are equal, whatever their kinds; `has_handle(h)` is that equality |
| Events.UpperFacts | src/event.rs:72 | upper-casing gives an upper-case string, is idempotent, and leaves upper-case strings alone |
| Events.FixedKindIsToString | src/event.rs:73-95 | each fixed name `from_str` accepts is the `to_string` of the kind it returns, and that kind is never `Command` |
| Events.FixedNamesAreUpper | src/event.rs:41-63 | every non-command wire name is upper case and is not command-shaped |
| Events.FromStrIgnoresCase | src/event.rs:72 | `from_str` depends only on the upper-cased input |
| Events.FromStrToString | src/event.rs:38-104 | `from_str(to_string(k)) == Ok(k)` for every kind other than `Command` |
| Events.FromStrToStringCommand | src/event.rs:40 | a `Command(c)` name comes back as `Command(upper(c))`, so the round trip holds exactly for non-empty upper-case `c` |
| Events.CommandNameIsUpperCased | src/event.rs:96-98 | `COMMAND_greet` parses to `Command("GREET")`, not `Command("greet")` |
| Events.CharIndexAtIsBoundary | src/event.rs:96-98 | byte `b` of a name is a character boundary after `k` characters exactly when the first `k` characters take `b` bytes in UTF-8 |
| Events.CommandSeparatorUnchecked | src/event.rs:96-98 | a one-byte character after `COMMAND` is never checked: `COMMANDXHI` parses to `Command("HI")` |
| Events.CommandSeparatorOneByte | src/event.rs:96-98 | a two-byte character after `COMMAND` puts byte 8 inside it: `COMMANDÉX` is the slice panic, not a command |
| Events.FromStrCases | src/event.rs:71-104 | `from_str` succeeds exactly on a fixed wire name (any casing) or a command-shaped name: longer than 8 bytes, `COMMAND` in bytes 0-6 and a one-byte 8th character; a command's name is the upper-cased text from byte 8; a name sliced inside a character at byte 7 or 8 is the panic; everything else is an error |
| Events.ParamStrs | src/event.rs:154-162 | the loop of `param_strs` pushes exactly the string parameters, in order |
| Events.StringsOfMembership | src/event.rs:154-162 | a string is kept iff it is one of the parameters |
| Events.StringsOfAppend | src/event.rs:154-162 | keeping the strings distributes over concatenation, so their relative order is kept |
| Events.StringsOfAllStrings | src/event.rs:154-162 | when every parameter is a string, all of them are kept, position by position |
| Events.FromJsonFailsUnless | src/event.rs:115-132 | `from_json` fails unless the value is an object whose `event` is a string and whose `params` is an array; a parsed event satisfies `is_event` and keeps exactly the string parameters |
| Events.FromJsonCommand | src/event.rs:139-145 | for the event name `COMMAND`, parsing succeeds iff there are at least 4 parameters and the 4th is a string, and the kind is `Command` of that string |
| Events.FromJsonNamed | src/event.rs:146-150 | any other event name succeeds iff `from_str` accepts it, with the kind `from_str` returns; the message panics exactly when `from_str` does |
| Events.ClassifierExamples | src/event.rs:115-166 | a `JOIN` message and a `COMMAND` message parse to the expected events; a response object is not an event |
| Requests.ConfigGroupRoundTrip | src/request.rs:40-58 | `from_str(to_string(g)) == Ok(g)` for both config groups |
| Requests.ConfigGroupFromStrCases | src/request.rs:52-58 | parsing ignores ASCII case and accepts exactly `plugin` and `core` in any casing; every other string is an error |
| Requests.ConfigGroupExample | src/request.rs:53-55 | `CoRe` parses to `Core` |
| Requests.ActionTypeIsGet | src/request.rs:337-346 | the action key is `get` exactly for `Networks`, `Channels`, `Nick` and `Config`, and `do` for every other request |
| Requests.ToJsonShape | src/request.rs:351-482 | the object holds the verb under the action key; `params` iff at least one parameter was pushed, holding them in order; `scope` iff the request is scoped and the scope is not "any"; no other key |
| Requests.ParamsKeyPresent | src/request.rs:384 | `Networks` is the only request without a `params` key |
| Requests.CommandSubscriptions | src/request.rs:305-310 | `Subscribe(Command(c))` and `SubscribeCommand` both use the verb `command`, with params `[c]`, or `[c, n]` when a network `n` is given |
| Requests.EventSubscriptions | src/request.rs:371-376 | subscribing to or unsubscribing from any other kind sends that kind's wire name |
| Requests.MessageParams | src/request.rs:388-396 | message, notice, ctcp, ctcp reply and action send `[network, target, message]` in that order |
| Requests.HandshakeParams | src/request.rs:407-418 | a handshake sends `[name, version, "1", config]`, where the config name defaults to the plugin name |
| Requests.ScopedSubVerb | src/request.rs:423-474 | property and permission requests lead with their sub-verb: `get` for get-property and has-permission, `set`, `unset`, and `keys` for property keys |
| Requests.JoinExample | src/request.rs:397-402 | the exact JSON object sent to join a channel |
| Responses.ForFail | src/response.rs:16-22 | a locally made failure has `success` false and `reason` equal to the message |
| Responses.ForSuccess | src/response.rs:27-32 | a locally made success has `success` true and no `reason` |
| Responses.FromJsonKeepsProperties | src/response.rs:38-40 | building a response from JSON always succeeds, and the response answers `get` and `has_success` exactly as the JSON object it came from |
| Responses.GetOrOnData | src/response.rs:43-48 | `get_or` gives the object's value for a key it holds and the default otherwise (or for non-objects); on `for_fail(m)` the `reason` is `m`, on `for_success()` it is the default |
| Responses.GetStrOrHas | src/response.rs:74-79 | when `has(p)`, `get_str_or` gives the string stored under `p`; otherwise the default; on `for_fail(m)` the `reason` is `m` |
| Responses.GetOnNonObject | src/response.rs:53-60 | data that is not an object has no property, no string property, and no success |
| Responses.GetStrIff | src/response.rs:66-71 | `get_str(p) == Some(s)` iff `p` exists and holds the JSON string `s` |
| Responses.HasIffString | src/response.rs:82-87 | `has(p)` iff `get_str(p)` is `Some`, so non-string properties report false |
| Responses.HasSuccessIff | src/response.rs:90-95 | `has_success` iff the data is an object whose `success` is the boolean `true` |
| Framing.PrefixEndStops | src/handler.rs:50-63 | every byte before the end of the prefix is a digit, CR or LF, and the byte at the end, if any, is not |
| Framing.PrefixEndAtLeast | src/handler.rs:50-63 | the scan never stops before a run of prefix bytes ends |
| Framing.PrefixEndUnique | src/handler.rs:50-63 | the scan's stopping point is the only position with the two properties of `PrefixEndStops` |
| Framing.FindFrame | src/handler.rs:65-71 | a frame is found only when its length is non-zero and it lies entirely within the buffer |
| Framing.DecimalDigits | src/handler.rs:105 | a length is written as at least one ASCII decimal digit |
| Framing.DecimalDigitsValue | src/handler.rs:105 | reading back the digits of a length gives that length |
| Framing.FindFrameAfterPrefix | src/handler.rs:46-72 | any run of digits and newlines whose value is the payload length, in front of a payload that does not start with a digit or newline, delimits exactly that payload, whatever follows it |
| Framing.FrameRoundTrip | src/handler.rs:104-106 | scanning the bytes `write` emits, with anything after them, finds the frame: offset = number of digits, length = payload length |
| Framing.PartialFrameNeverYields | src/handler.rs:65-71 | a strict prefix of a frame never yields a frame |
| Framing.PrefixValueOfNewlines | src/handler.rs:58-59 | CR and LF bytes contribute nothing to the length |
| Framing.PrefixValueLeadingNewlines | src/handler.rs:58-59 | newlines before the digits do not change the length |
| Framing.PrefixValueTrailingNewlines | src/handler.rs:58-59 | newlines after the digits do not change the length |
| Framing.NewlineNoise | src/handler.rs:46-72 | CR/LF bytes before or after the length digits do not change the payload found |
| Framing.DrainLeavesNoFrame | src/handlers.rs:26-31 | after frames are taken out repeatedly, no complete frame remains in the buffer |
| Framing.DrainFrames | src/handlers.rs:26-31 | a buffer of back-to-back frames is taken apart into exactly their payloads, in order, leaving the tail |
| Framing.PrefixEndExtends | src/handlers.rs:47-62 | once the scan stops at a byte inside the buffer, bytes that arrive later do not move where it stops |
| Framing.FindFrameExtends | src/handlers.rs:66-78 | a frame found in the buffer is found unchanged whatever bytes arrive after it |
| Framing.DrainConcat | src/handlers.rs:23-33 | draining `a`, then draining what is left with `b` appended, hands on the same payloads and leaves the same bytes as draining `a + b` at once |
| Framing.DigitTestsDiffer | src/handlers.rs:50 | on the bytes `1:`, the single-threaded test (0x30–0x39) finds a one-byte frame, while the threaded test (0x30–0x3F) reads `:` as a digit worth 10 and finds nothing |
| SyncHandler.ClassifyCases | src/handler.rs:87-97 | a decoding error is passed on; an object with an `event` key becomes an event (or the event's parse error, or the panic of its name's slicing); anything else becomes a response |
| SyncHandler.ReadSpec | src/handler.rs:25-33 | `read` never consumes more reads than it is given |
| SyncHandler.ReadDeliversFrame | src/handler.rs:25-33 | once the buffer and the reads contain a whole frame, `read` returns its classified payload, and exactly the bytes after it remain |
| SyncHandler.Handler.constructor | src/handler.rs:21-23 | a new handler has an empty buffer |
| SyncHandler.Handler.RetrieveFromSocket | src/handler.rs:36-43 | the bytes read are appended to the buffer; nothing already there changes |
| SyncHandler.Handler.FindMessage | src/handler.rs:46-72 | the scan loop computes exactly `FindFrame` with the 0x30–0x39 digit test |
| SyncHandler.Handler.MakeMessage | src/handler.rs:74-98 | the buffer becomes the old buffer from `offset + length` on, and this happens before decoding; the result is the classified decoding of the frame's bytes |
| SyncHandler.Handler.Read | src/handler.rs:25-33 | the read loop's result, reads consumed and final buffer are exactly `ReadSpec` |
| SyncHandler.Handler.Write | src/handler.rs:100-108 | the socket receives the decimal byte length of the encoded request and then the bytes themselves |
| Handlers.Reader.constructor | src/handlers.rs:19-21 | a new reader has an empty buffer, length 0 and offset 0 |
| Handlers.Reader.RetrieveFromSocket | src/handlers.rs:36-44 | the bytes read are appended to the buffer, and the scan state stays valid |
| Handlers.Reader.FindMessageLen | src/handlers.rs:47-62 | the scan resumes at the stored offset and stops at the first byte that is not a 0x30–0x3F digit, CR or LF; `message_len` is the value of the digits before it |
| Handlers.Reader.HandleMessage | src/handlers.rs:81-96 | the frame's bytes are handed on, in order |
| Handlers.Reader.TryProcessMessage | src/handlers.rs:66-78 | processes iff `message_len > 0` and the buffer holds `message_len + offset` bytes; then the buffer becomes the rest after the frame, and length and offset reset to 0; otherwise nothing changes |
| Handlers.Reader.ProcessNext | src/handlers.rs:26-31 | one loop iteration processes a frame iff the buffer holds one; the payload handed on is that frame's |
| Handlers.Reader.ProcessBuffered | src/handlers.rs:26-31 | the inner loop hands on every complete frame in the buffer, in order, and leaves only what follows them |
| Handlers.Reader.Receive | src/handlers.rs:23-33 | one iteration of the outer loop: read, then hand on every frame now complete |
| Handlers.Reader.Run | src/handlers.rs:23-33 | the outer loop over a finite run of reads hands on what draining all the bytes read at once would, however they were split into reads |
| Handlers.Writer.constructor | src/handlers.rs:105-107 | a new writer has written nothing |
| Handlers.Writer.Send | src/handlers.rs:113-117 | a payload is written as its decimal byte length immediately followed by the payload, with no separator |
| Handlers.WriterToReader | src/handlers.rs:113-117 | what the writer emits for a sequence of payloads, the reader takes apart into exactly those payloads, leaving nothing |
| Handlers.WriterToReaderByReads | src/handlers.rs:19-33 | a new reader fed the writer's bytes, split into reads in any way, hands on exactly the payloads written, in order, and keeps nothing back |
| Handlers.Handler.constructor | src/handlers.rs:138-144 | a new handler has no pending responses |
| Handlers.Handler.HandleRequest | src/handlers.rs:197-206 | the request's JSON is written, then its response slot joins the back of the queue |
| Handlers.Handler.HandleResponse | src/handlers.rs:182-195 | a response goes to the front slot, so responses reach slots in request order; with no pending slot it is fatal and nothing changes |
| Handlers.Handler.HandleEvent | src/handlers.rs:172-180 | a message that parses as an event is passed on; a malformed event is fatal |
| Handlers.Handler.HandleSocketMsg | src/handlers.rs:164-170 | a message goes to event handling iff it is an object with an `event` key, otherwise to response handling |
| Sequences.FilterMembership | src/dazeus.rs:166 | retaining keeps exactly the elements that pass the test |
| Sequences.FilterAppend | src/dazeus.rs:166 | retaining distributes over concatenation, so relative order is kept |
| Sequences.FilterKeepsAll | src/dazeus.rs:166 | when every element passes, retaining changes nothing |
| Sequences.FilterKeepsOrder | src/dazeus.rs:166 | any order the elements were in survives retaining |
| Sequences.FilterRemovesOne | src/dazeus.rs:166 | retaining everything but one position removes exactly that element |
| Registry.SubscribeRequest | src/dazeus.rs:133-136 | a command subscription is `SubscribeCommand(c, None)` on verb `command`; any other kind is `Subscribe` on verb `subscribe`, carrying the kind's wire name |
| Registry.UnsubscribeMirrorsSubscribe | src/dazeus.rs:173 | an unsubscription names the kind exactly as its subscription did |
| Registry.AnyOfKind | src/dazeus.rs:172 | true iff some listener has the kind |
| Registry.KindOf | src/dazeus.rs:159-164 | the kind of the first listener with the handle; `None` iff no listener holds the handle |
| Registry.NewListenerIsFound | src/listener.rs:35-44 | a listener made by `new` under a fresh handle is found by `has_handle` on that handle, with the kind it was given, and counts for `any` of that kind |
| Registry.DispatchIsFilter | src/dazeus.rs:82-88 | dispatching calls exactly the listeners of the event's kind, in registration order, each with the event unchanged |
| Registry.DispatchAppend | src/dazeus.rs:82-88 | dispatching over two runs of listeners is dispatching over each, in order |
| Registry.RetainKeepsHandles | src/dazeus.rs:166 | removing listeners keeps the handles issued and increasing |
| Registry.RetainRemovesOne | src/dazeus.rs:166 | with distinct handles, unsubscribing a handle removes exactly its listener; the others keep their order |
| Registry.RetainOthersLeavesNone | src/dazeus.rs:184 | after `unsubscribe_all(e)`, no listener of kind `e` remains |
| Registry.TargetsForEvent | src/dazeus.rs:587-597 | join, privmsg, notice, ctcp and action give `(params[0], params[2], params[1])` as (network, channel, user); every other kind gives nothing |
| Registry.ReplyOnTheWire | src/dazeus.rs:396-449 | a reply sends `[network, target, text]` with the style's verb; the target is the user exactly when the channel is the bot's nick; only a highlighted message in a channel is prefixed with `user: ` |
| Registry.DaZeus.constructor | src/dazeus.rs:58-63 | no listeners, and the first handle is 1 |
| Registry.DaZeus.HandleEvent | src/dazeus.rs:82-88 | the loop calls exactly what `Dispatch` says |
| Registry.DaZeus.Subscribe | src/dazeus.rs:130-145 | returns the current counter, larger than every handle already in use, and increments the counter; the listener is appended; exactly one request is sent |
| Registry.DaZeus.SubscribeCommand | src/dazeus.rs:148-152 | subscribing to a command registers `Command(c)` and sends `SubscribeCommand(c, None)` |
| Registry.DaZeus.Unsubscribe | src/dazeus.rs:155-179 | removes exactly the listeners with the handle; an unknown handle fails with "Could not find listener with given handle" and sends nothing; a command succeeds without sending; another kind sends `Unsubscribe` iff no listener of that kind remains |
| Registry.DaZeus.UnsubscribeAll | src/dazeus.rs:182-189 | removes every listener of the kind; sends `Unsubscribe` for any kind but a command, which succeeds without sending |
| Registry.DaZeus.HasAnySubscription | src/dazeus.rs:192-194 | true iff some listener has the kind |
| Registry.DaZeus.Reply | src/dazeus.rs:396-449 | asks for the bot's nick on the event's network, then sends the reply `ReplyRequest` chooses (nick defaulting to empty); an event that cannot be replied to fails with "Not an event to reply to" and sends nothing |

## Left out

- Threads, channels, `select!` and `Future`: spawning in `DaZeus::new`, `send_to`/`send`, `Handler::run` and the receive loop of `Writer::run` are concurrency plumbing. Queues are sequences and sends are appends.
- Blocking loops: `next_event`, `try_next_event`, `listen`, `whois` and `names` of `src/dazeus.rs` wait on a channel and may never return.
- Socket I/O: reads are given as byte chunks; write, flush and channel-send failures, which panic or are propagated with `try!`, are not modelled.
- JSON text and UTF-8: `Json::from_str`, `from_utf8` and `to_string` are the `decode`/`encode` parameters, not modelled.
- Handlers.Reader.HandleMessage: hands on the payload bytes; the decode and `unwrap` panic on a malformed payload are not modelled, because decoding is outside the model.
- Floating point: JSON numbers are not interpreted.
- Unicode case mapping: `to_uppercase` and `to_ascii_lowercase` are modelled on ASCII letters only.
- Events.FromStr: lengths and slice positions are UTF-8 bytes of the name as the model upper-cases it; a name whose Unicode upper-casing changes a character's byte length (`ß` becomes `SS`) is measured before that change, because only ASCII letters are upper-cased.
- Events.FromStrCases: states `from_str` for the ASCII upper-casing, for the same reason as `Events.FromStr`.
- Handlers.Reader.Run: covers a finite run of reads of the endless `run` loop, started, as a new reader is, with no complete frame buffered.
- Integer width: `usize` overflow of the length prefix and `u64` overflow of the listener-handle counter (`src/dazeus.rs:139`) are not modelled; lengths and handles are unbounded naturals.
- Registry.DaZeus.Subscribe: returns a handle larger than every handle in use only because the counter never overflows; in the source, `handle + 1` after 2^64 - 1 subscriptions panics in a debug build or wraps to 0 in a release build, after which handles repeat and `HandlesIncreasing` (and with it the distinct-handles premise of `Registry.RetainRemovesOne`) no longer holds.
- Logging (`debug!`).
- Callback closures: a listener call is recorded as `Call(handle, event)`; what the callback does is not modelled.
- Registry.DaZeus.Reply: the nick request's response is a parameter, because waiting on a `Future` is not modelled.
- The `RefCell<DaZeus>` forwarding implementation of the command interface, which only delegates.
- `src/connection.rs`, `src/util.rs`, `src/commander.rs`, `src/lib.rs` and `src/error.rs`: address parsing and socket opening, a trait declaration, module wiring, and a one-field error type, with no behaviour to state.
