# HA-TCP Bridge command protocol, modelled in Dafny

HA-TCP Bridge is a line-oriented TCP server. It lets a remote controller, such as a keypad, drive a Home Assistant hub with short text commands. This project models the bridge's protocol core (`ha_tcp_bridge/server.py`):

- **The command dispatcher** (`handle_command`). It preprocesses one line, splits it into tokens and dispatches on the action. It normalises entity ids, validates and converts the LEVEL argument, and builds the reply text from the hub's answer.
- **The entity listings.** These are `get_entity_list` (LIST) and the LISTBUTTONS loop. Each filters the hub's `states` answer by id prefix and formats one line per kept entity.
- **The connection loop** (`handle_client`). It sends a greeting, then accumulates received text in a buffer. Whenever the buffer holds a CR or LF, it cuts the buffer into lines with the `\r\n`/`\n`/`\r` priority. Each non-blank line is answered with its reply and a prompt.

Modules:

| module | file | contents |
|---|---|---|
| `Optional` | `optional.dfy` | `Option` with `GetOr` (Python's `dict.get` default) |
| `Hub` | `hub.dfy` | requests, responses and the hub as an oracle |
| `Text` | `text.dfy` | character classes, case mapping, `strip`, `split()`, substring search, `"\n".join` |
| `Numbers` | `numbers.dfy` | Python's `int()` on a token, `str()` of a natural number, the brightness scaling |
| `Entities` | `entities.dfy` | the LIST and LISTBUTTONS filters: specification functions, and the loops as methods |
| `Dispatcher` | `dispatcher.dfy` | `handle_command`, split into the plan of a line (`Plan`) and the reply to the hub's answer (`Finish`) |
| `Commands` | `commands.dfy` | whole command lines through preprocessing, splitting and dispatch |
| `Session` | `session.dfy` | `handle_client`: the line splitter, the loop as a method, and the reference definitions it is proved against |
| `Scenarios` | `scenarios.dfy` | concrete examples of parsing, normalisation and routing |

How the model reads the program:

- **The hub.** It is an oracle `(n, request) -> response`: the answer to the `n`-th hub request of the session.
  - So the order of requests and their contents are observable.
  - `ha_request`'s transport failure is the response `Hub.TransportFailure`: status 500 and no `message`.
  - A response body holds what the core reads from it:
    - the `message` field, for PRESS;
    - the printed form of the body, for the ON/OFF/LEVEL error replies;
    - the entity states, for LIST and LISTBUTTONS.
- **Splitting `handle_command`.** `Plan(line)` is what `handle_command` decides before any hub call. It is one of:
  - `Immediate(text)`, an error or usage reply;
  - `ShowHelp`;
  - `HubCall(request, pending)`, where `pending` says how `Finish` will turn the hub's answer into the reply.

  `Respond` puts the two halves back together. "Rejected before any hub call" is then a statement about `Plan`.
- **Received data.** It is a sequence of already-decoded chunks, one per `recv` that returned data. The end of the sequence is the peer closing the connection. `Session.HandleClient` returns everything sent and every hub request made. `Session.Transcript` is the same thing as a function.
- **Where the code and its design description differ, the model follows the code:**
  - The whole line is upper-cased before splitting, not only the action. Ids are lower-cased afterwards, so an id's original case is never seen.
  - Brightness is `int(level * 255 / 100)`, which truncates. For levels 0 to 100 that is the floor (`Numbers.Brightness`), not a rounding: level 50 gives 127.
  - The separators are tried against the whole buffer. A CRLF anywhere wins over an earlier lone LF (`Session.CrlfWinsOverEarlierLf`).
  - So where lines are cut depends on how the received data is split into chunks. `a LF b` followed by a separate `CRLF` chunk is two lines; the same text in one chunk is one line (`Session.ChunkBoundaryDecidesCut`).
  - The LIST count is the count of all controllable entities, even when only the first 50 are shown.
- **Characters** follow Python's classification on ASCII:
  - whitespace is characters 9-13 and 28-32;
  - printable is 32-126;
  - case mapping is on A-Z and a-z.

## Model

| member | source | states |
|---|---|---|
| Session.HandleClient | ha_tcp_bridge/server.py:213-234 | The loop sends exactly what `Transcript` sends, the greeting first, in the same order. Every hub request it makes is the same as in `Transcript`. |
| Session.TranscriptShape | ha_tcp_bridge/server.py:213-234 | After the greeting, the session sends exactly one reply per non-blank received line, in order. The k-th reply answers the k-th command, using the hub's answer to the request made in its turn. The hub requests are exactly the ones those commands plan. |
| Session.RunIsConversation | ha_tcp_bridge/server.py:216-234 | Across chunk boundaries, the session handles every complete line in the order received. Only an unterminated tail stays buffered. |
| Session.DrainIsConversation | ha_tcp_bridge/server.py:224-234 | Draining the buffer handles its complete lines in order. It leaves the text after the last line break. |
| Session.ConversationAppend | ha_tcp_bridge/server.py:216-234 | Handling two runs of lines one after the other equals handling their concatenation. |
| Session.ConversationOfCommands | ha_tcp_bridge/server.py:230-234 | Lines that are blank after stripping send nothing and ask nothing. Every other line is served once, in order. |
| Session.BridgeServesCommands | ha_tcp_bridge/server.py:230-233 | The bridge strips each line, drops it if the result is empty, and otherwise serves the stripped command. |
| Session.ConversedRequests | ha_tcp_bridge/server.py:233 | The hub is asked, in order, exactly the requests the commands plan. The hub's answers never change what is asked next. |
| Session.ConversedReply | ha_tcp_bridge/server.py:233-234 | The k-th reply sent is the k-th command's reply followed by the prompt. It uses the answer to the request numbered after all earlier commands' requests. |
| Session.ServeMakesPlannedRequest | ha_tcp_bridge/server.py:233 | Serving a command makes its planned hub request, or none, whatever the hub answers. |
| Session.Answer | ha_tcp_bridge/server.py:117-205 | A hub call asks the hub exactly once, and its reply is what `handle_command` (`Respond`) makes of the hub's answer. Any other step asks nothing, and its reply would be the same whatever the hub answered. |
| Session.Turn | ha_tcp_bridge/server.py:224-234 | One pass of the inner loop: cut one line, and send and ask what handling it sends and asks. Its properties are carried by `DrainTurn` and `DrainIsConversation`. |
| Session.Transcript | ha_tcp_bridge/server.py:213-234 | The whole session as a function of the chunks and the hub. What it sends and asks is stated by `HandleClient`, `RunIsConversation` and `TranscriptShape`. |
| Session.Lines | ha_tcp_bridge/server.py:224-228 | The lines the inner loop cuts from one buffer. `DrainIsConversation`, `LfCut`, `CrlfCut` and `CrlfWinsOverEarlierLf` state what they are. |
| Session.Feed | ha_tcp_bridge/server.py:216-228 | The lines cut as the chunks arrive. `RunIsConversation`, `FeedCons` and `ChunkBoundaryDecidesCut` state what they are. |
| Session.FeedCons | ha_tcp_bridge/server.py:216-228 | The unfolding of `Feed` for one more chunk: the chunk is appended to what stayed buffered, its complete lines are cut, and the rest stays buffered for the next chunk. |
| Session.LfCut | ha_tcp_bridge/server.py:224-228 | `a LF b`, with no other CR or LF, is the one line `a`, and `b` stays buffered. |
| Session.CrlfCut | ha_tcp_bridge/server.py:224-228 | A buffer whose only line break is a final CRLF is one line, and nothing stays buffered. |
| Session.ChunkBoundaryDecidesCut | ha_tcp_bridge/server.py:216-228 | `a LF b`, then `CRLF` in a later chunk, gives the two lines `a` and `b`. The same text in one chunk gives the single line `a LF b`. |
| Session.SplitOnce | ha_tcp_bridge/server.py:225-228 | The `for sep in [...]` loop cuts the buffer exactly as `SplitLine` specifies. |
| Session.SeparatorPriority | ha_tcp_bridge/server.py:224-228 | The chosen separator is in the buffer. CRLF is chosen if and only if the buffer contains CRLF. LF is chosen if and only if there is no CRLF and there is an LF. Otherwise CR is chosen. |
| Session.SplitLine | ha_tcp_bridge/server.py:227 | The cut uses the chosen separator, and the buffer left after it is shorter. |
| Session.SplitLineCut | ha_tcp_bridge/server.py:227 | Line, separator and rest put the buffer back together. The separator's first occurrence is the one cut at. |
| Session.CrlfWinsOverEarlierLf | ha_tcp_bridge/server.py:224-228 | `a LF b CRLF` is one line `a LF b`, not two, and nothing stays buffered. |
| Session.Leftover | ha_tcp_bridge/server.py:224 | What stays buffered holds no CR or LF. |
| Session.Remainder | ha_tcp_bridge/server.py:216-224 | After any chunk, the buffer holds no CR or LF. |
| Session.ChooseSeparator | ha_tcp_bridge/server.py:225 | The separator is one of `\r\n`, `\n`, `\r`. |
| Dispatcher.Clean | ha_tcp_bridge/server.py:92-93 | Preprocessing never lengthens the line. It keeps only printable and whitespace characters, and leaves no space, tab, quote or backtick at either end. |
| Dispatcher.Tokens | ha_tcp_bridge/server.py:94 | There are no tokens if and only if the preprocessed line is all whitespace. |
| Dispatcher.Plan | ha_tcp_bridge/server.py:92-205 | What `handle_command` decides before any hub call. Its properties are stated by `EarlyErrors`, `HubCallOnlyAfterValidation`, `CaseInsensitive` and the per-command lemmas below. |
| Dispatcher.Dispatch | ha_tcp_bridge/server.py:95-205 | The dispatch on the action token. Its cases are stated by `EmptyCommand`, `PressCommand`, `PowerCommand`, `LevelCommand`, `ArgumentFreeCommands` and `UnknownCommand`. |
| Dispatcher.Finish | ha_tcp_bridge/server.py:117-202 | How a hub answer becomes the reply. Stated per command by `PingReplies`, `ListReply`, `ButtonsReply`, `PressCommand`, `PowerCommand` and `LevelCommand`. |
| Dispatcher.Respond | ha_tcp_bridge/server.py:90-205 | `handle_command` as a whole: the plan of the line, finished with the hub's answer when it asks one. `Session.Answer` ties it to the session. |
| Dispatcher.PressId | ha_tcp_bridge/server.py:139-141 | The PRESS id normalisation. `PressIdFacts` states its properties. |
| Dispatcher.RoutePower | ha_tcp_bridge/server.py:152-178 | The ON/OFF routing of an id to an entity and a service domain. `RoutePowerFacts` states its properties. |
| Dispatcher.LevelId | ha_tcp_bridge/server.py:194-195 | The LEVEL id normalisation. `LevelIdFacts` states its properties. |
| Dispatcher.IsLevel | ha_tcp_bridge/server.py:187-192 | The LEVEL argument check. `LevelValidation` states its properties. |
| Commands.CleanUntouched | ha_tcp_bridge/server.py:92-93 | A printable line with no whitespace, quote or backtick at either end passes preprocessing unchanged. |
| Commands.CommandLineTokens | ha_tcp_bridge/server.py:92-94 | A line made of an action, one space and an argument splits into the upper-cased action and argument. This holds when both are printable words, the action does not start with a space, tab, quote or backtick, and the argument does not end with one; `ON x'` splits into `ON` and `X`. |
| Commands.RoutePowerIgnoresCase | ha_tcp_bridge/server.py:152-161 | Routing an id does not depend on the case it was typed in. |
| Commands.OnLine | ha_tcp_bridge/server.py:92-164 | A line `ON <id>` posts to the `turn_on` service of the domain the id routes to, targeting the routed entity, whatever case the id was typed in. The id must be a printable word that does not end in a space, tab, quote or backtick. Such a trailing character is stripped first, so `ON kitchen'` targets `light.kitchen`. |
| Dispatcher.CaseInsensitive | ha_tcp_bridge/server.py:92-98 | Upper- or lower-casing a whole line changes neither the plan nor the request. |
| Dispatcher.CleanCommutesWithCase | ha_tcp_bridge/server.py:92-94 | Preprocessing commutes with upper- and lower-casing. |
| Dispatcher.CaseMapsKeepClasses | ha_tcp_bridge/server.py:92-94 | Case mapping keeps the printable, whitespace and quote classes. |
| Dispatcher.TokensAreUpperCaseWords | ha_tcp_bridge/server.py:94 | Every token is non-empty, holds no whitespace and has no lower-case letter. |
| Dispatcher.EmptyCommand | ha_tcp_bridge/server.py:95-96 | `ERR: Empty command` is the reply if and only if no token is left. |
| Dispatcher.BlankLineIsEmptyCommand | ha_tcp_bridge/server.py:92-96 | A line of only whitespace and unprintable characters is an empty command. |
| Dispatcher.EarlyErrors | ha_tcp_bridge/server.py:95-192 | These get their fixed texts with no hub call: an empty command, PRESS/ON/OFF without an id, LEVEL without two arguments, and LEVEL with an unusable level. |
| Dispatcher.HubCallOnlyAfterValidation | ha_tcp_bridge/server.py:117-198 | A hub request is made only for a known action whose arguments passed every validation. This includes a LEVEL from 0 to 100. |
| Dispatcher.LevelValidation | ha_tcp_bridge/server.py:184-192 | With enough arguments, LEVEL replies at once if and only if the level token is no integer from 0 to 100. That reply is `ERR: Level must be 0-100`. |
| Dispatcher.PressIdFacts | ha_tcp_bridge/server.py:139-141 | A PRESS id is lower-case and in the `button.` domain. The prefix is added only when missing, so normalising twice changes nothing. |
| Dispatcher.RoutePowerFacts | ha_tcp_bridge/server.py:152-161 | ON/OFF routing goes to the light service if and only if the id has no `.` or starts with `light.`; `light.` is added when missing. The switch service is used if and only if the id starts with `switch.` instead. Any other id goes unchanged to the generic service. Routed ids are lower-case and routing them again gives the same result. |
| Dispatcher.LevelIdFacts | ha_tcp_bridge/server.py:186-195 | A LEVEL id is lower-case and in the `light.` domain, even when it names another domain. |
| Dispatcher.RequestIdsLowerCase | ha_tcp_bridge/server.py:139-186 | Every entity id sent to the hub is lower-case. |
| Dispatcher.PressCommand | ha_tcp_bridge/server.py:136-147 | PRESS posts the normalised id to `services/button/press`. A 200 reply is `OK: Pressed <id>`. Otherwise the reply is `ERR: ` with the hub's `message`, or with `Failed to press button` when there is none. |
| Dispatcher.PressTransportFailure | ha_tcp_bridge/server.py:143-147 | A PRESS whose request fails in transport reports `ERR: Failed to press button`. |
| Dispatcher.PowerCommand | ha_tcp_bridge/server.py:149-181 | ON/OFF posts the routed id to the routed domain's `turn_on`/`turn_off` service. It replies `OK: <id> on`/`off` on 200, and otherwise `ERR: ` with the printed response. |
| Dispatcher.LevelCommand | ha_tcp_bridge/server.py:183-202 | A valid LEVEL posts the `light.` id and the truncated 0-255 brightness to `services/light/turn_on`. On 200 it echoes the parsed integer, so `050` answers `50%`; otherwise it replies `ERR: ` with the printed response. |
| Dispatcher.BrightnessInRange | ha_tcp_bridge/server.py:197-201 | Every brightness sent to the hub is within 0-255. |
| Dispatcher.ArgumentFreeCommands | ha_tcp_bridge/server.py:100-134 | HELP, PING, LIST and LISTBUTTONS ignore any arguments. PING is a GET on the API root; LIST and LISTBUTTONS are each one GET of `states`. |
| Dispatcher.PingReplies | ha_tcp_bridge/server.py:117-119 | PING replies `OK: Connected to Home Assistant` if and only if the hub answered 200. |
| Dispatcher.UnknownCommand | ha_tcp_bridge/server.py:204-205 | Any other action gets the unknown-command text quoting it, whatever arguments follow. |
| Dispatcher.ListReply | ha_tcp_bridge/server.py:121-123 | The LIST header carries the count of all controllable entities, and the body shows the first 50 lines at most. When at least one line is shown and no shown line holds a newline, splitting the body at newlines gives back those lines. A hub name or state may hold a newline, and an empty body splits into one empty line. A failed `states` request gives `OK: 0 entities`. |
| Dispatcher.ButtonsReply | ha_tcp_bridge/server.py:125-134 | The LISTBUTTONS header carries the button count. When there is at least one button line and none holds a newline, splitting the body at newlines gives back every button line. A failed request gives `OK: 0 buttons`. |
| Entities.EntityLines | ha_tcp_bridge/server.py:77-88 | The LIST lines as a function of the hub's answer. `GetEntityList` is proved against it, and `EntityLinesMembers` states which lines it holds. |
| Entities.ButtonLines | ha_tcp_bridge/server.py:126-134 | The LISTBUTTONS lines as a function of the hub's answer. `CollectButtons` is proved against it, and `ButtonLinesMembers` states which lines it holds. |
| Entities.GetEntityList | ha_tcp_bridge/server.py:77-88 | The loop returns the `id [state] - name` lines of the controllable entities, in order, and none unless the status is 200. |
| Entities.CollectButtons | ha_tcp_bridge/server.py:125-134 | The LISTBUTTONS loop returns the `id - name` lines of entities whose id starts with `button.`, in order, and none unless the status is 200. |
| Entities.EntityLinesMembers | ha_tcp_bridge/server.py:81-87 | For a 200 answer, a line is listed if and only if it describes an entity of the answer with one of the five domain prefixes. |
| Entities.ButtonLinesMembers | ha_tcp_bridge/server.py:128-133 | For a 200 answer, a line is listed if and only if it describes a `button.` entity of the answer. |
| Entities.ButtonsAmongControllable | ha_tcp_bridge/server.py:82-134 | LISTBUTTONS keeps exactly the buttons among LIST's entities, in the same order. |
| Entities.SelectAppend | ha_tcp_bridge/server.py:82-87 | Filtering keeps the entities in their input order, so filtering a concatenation is concatenating the filtered parts. |
| Entities.SelectMembers | ha_tcp_bridge/server.py:82-84 | An entity is kept if and only if it is in the answer and passes the filter. |
| Entities.LineDefaults | ha_tcp_bridge/server.py:83-86 | A missing friendly name falls back to the id. A missing id is empty and matches no prefix. |
| Entities.StartsWithAny | ha_tcp_bridge/server.py:84 | `startswith` with a tuple is true if and only if one of the prefixes starts the id. |
| Numbers.ParseInt | ha_tcp_bridge/server.py:188 | `int()` accepts a token if and only if it is a run of digits with single underscores between them, optionally after a sign. A `-` gives a result of 0 or less; no sign or `+` gives 0 or more. |
| Numbers.ParseNatToString | ha_tcp_bridge/server.py:123 | Printing a count or level and parsing it back gives the same number. |
| Numbers.ParseSigned | ha_tcp_bridge/server.py:188 | A `-` prefix negates the number and a `+` prefix leaves it unchanged. |
| Numbers.LeadingZero | ha_tcp_bridge/server.py:188 | A leading `0` does not change the value of a digit run. |
| Numbers.UnderscoreIgnored | ha_tcp_bridge/server.py:188 | An underscore between digits does not change the value. |
| Numbers.ParseLeadingZero | ha_tcp_bridge/server.py:188 | `int()` gives the same number with a leading `0` added. |
| Numbers.ParseUnderscore | ha_tcp_bridge/server.py:188 | `int()` gives the same number for two digit runs joined by one underscore as for the runs joined directly. |
| Numbers.NatToString | ha_tcp_bridge/server.py:202 | The printed number is a non-empty run of digits with no leading zero. |
| Numbers.Brightness | ha_tcp_bridge/server.py:197 | For a level from 0 to 100 the brightness is within 0-255 and is the floor of `level * 255 / 100`. |
| Numbers.BrightnessMonotone | ha_tcp_bridge/server.py:197 | A higher level never gives a lower brightness. |
| Hub.TransportFailure | ha_tcp_bridge/server.py:74-75 | A transport failure is a non-200 status whose body has no `message`. |
| Text.Words | ha_tcp_bridge/server.py:94 | `split()` yields whitespace-free, non-empty tokens. There are none if and only if the text is all whitespace. Where it cuts is stated by `WordsOfJoin` and `WordsKeepNonSpace`. |
| Text.WordsKeepNonSpace | ha_tcp_bridge/server.py:94 | The tokens, concatenated, are exactly the text's non-whitespace characters. |
| Text.SplitJoinLines | ha_tcp_bridge/server.py:123 | Joining lines that hold no newline with `"\n"` and cutting at newlines gives the lines back. |
| Text.Find | ha_tcp_bridge/server.py:226-227 | The result is the first occurrence of the separator, or nothing if it does not occur. |
| Text.StripEdges | ha_tcp_bridge/server.py:92-93 | After `strip(chars)`, neither end of the text is one of the stripped characters. |
| Text.StripKeeps | ha_tcp_bridge/server.py:92-93 | `strip(chars)` leaves a text unchanged when neither end is a stripped character. |
| Text.StripWithin | ha_tcp_bridge/server.py:92-93 | Stripping keeps a text's characters within any class they were in, and never lengthens it. |
| Text.WordsOfJoin | ha_tcp_bridge/server.py:94 | `split()` cuts at whitespace and nowhere else: words joined by any non-empty run of whitespace split back into exactly those words. |
| Text.WordThen | ha_tcp_bridge/server.py:94 | A word followed by nothing or by whitespace is split off whole, before the words of the rest. |
| Text.WordsOfSpaced | ha_tcp_bridge/server.py:94 | Two words with one space between them split into those two words. |
| Text.LowerFixedPoint | ha_tcp_bridge/server.py:139 | Lower-casing leaves a text unchanged if and only if it has no upper-case letter. |
| Text.LowerOfUpper | ha_tcp_bridge/server.py:94-139 | Lower-casing an upper-cased text is lower-casing it. |
| Scenarios.ParseExamples | ha_tcp_bridge/server.py:188 | `int()` accepts `50`, `050`, `+50`, `1_00`, `-1` and `101`. |
| Scenarios.ParseRejects | ha_tcp_bridge/server.py:188-192 | `int()` rejects an empty token, `-`, `1__0`, `_1` and `5O`. |
| Scenarios.LevelTokenExamples | ha_tcp_bridge/server.py:188-192 | Out-of-range and non-integer level tokens are refused, and `050`, `+50` and `1_00` are accepted. |
| Scenarios.BrightnessExamples | ha_tcp_bridge/server.py:197 | Levels 0, 50 and 100 give brightness 0, 127 and 255. |
| Scenarios.PressExamples | ha_tcp_bridge/server.py:139-141 | `kitchen_button` becomes `button.kitchen_button`, and `button.x` keeps its prefix. |
| Scenarios.BareIdIsLight | ha_tcp_bridge/server.py:154-157 | `ON kitchen` targets the light `light.kitchen`. |
| Scenarios.SwitchIdIsSwitch | ha_tcp_bridge/server.py:158-159 | `ON switch.fan1` uses the switch service. |
| Scenarios.OtherIdIsGeneric | ha_tcp_bridge/server.py:177-178 | `OFF cover.blind1` uses the generic `homeassistant` service. |
| Scenarios.EndpointExamples | ha_tcp_bridge/server.py:154-178 | The endpoints are `services/light/turn_on` and `services/homeassistant/turn_off`. |
| Scenarios.LevelIdExample | ha_tcp_bridge/server.py:194-195 | `LEVEL switch.x` targets `light.switch.x`. |
| Scenarios.OnKitchenPlan | ha_tcp_bridge/server.py:92-164 | The whole line `ON kitchen` posts `light.kitchen` to `services/light/turn_on`, and its reply will report `light.kitchen` as turned on. |
| Scenarios.UnknownExample | ha_tcp_bridge/server.py:204-205 | `FOO` gets the unknown-command text quoting `FOO`. |

## Left out

- `get_config`, `main`, `log` and the listening socket are not part of this model. They are configuration loading, process start-up and logging.
- `ha_request`'s HTTP and JSON work is modelled only by its result. The hub is an oracle, and a transport failure is status 500 with no `message`. URLs, headers, timeouts and JSON parsing are outside the model.
- The socket operations `send`, `recv`, `settimeout`, the timeout exception and closing the connection are not modelled. Received data is the sequence of decoded chunks instead. Each connection's thread is not modelled either.
- UTF-8 decoding with `errors="ignore"` is not modelled; a chunk is already text. A chunk that decodes to nothing is an empty chunk, and it does not end the session.
- Exceptions raised inside `handle_command` are not modelled. One example is a 200 `states` answer that is not a list of mappings. In the program such an exception ends the session through `handle_client`'s outer handler.
- The printed form of a response body (`f"ERR: {resp}"`) is kept as an opaque string, the `rendered` field. Python's dict repr is not modelled.
- Bodies that are not mappings (where `resp.get` would fail) are not modelled.
- Characters outside ASCII are not modelled faithfully. They count as printable, non-whitespace and caseless. Python's Unicode printability, whitespace and case tables are not reproduced, and neither are digits outside ASCII in `int()`.
- The HELP text is the fixed string `Dispatcher.HelpText`, built from the version. Its wording is not the subject of any property.
- `Session.HandleClient`'s contract gives the whole sequence of texts sent. The partial writes `conn.send` may make are not modelled, because sending is part of the socket layer.
- `Session` keeps the texts sent and the hub requests made in two separate logs. The order between them is not recorded: the model does not show that the reply to one line goes out before the next line's hub request.
