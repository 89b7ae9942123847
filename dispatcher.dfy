/**
 * The command dispatcher (`handle_command`): one received line becomes
 * either an immediate reply or exactly one hub request together with the
 * rule that turns the hub's answer into the reply. Splitting the dispatch
 * into `Plan` and `Finish` makes "no hub request" a property of the plan.
 */
module Dispatcher {
  import opened Optional
  import opened Text
  import opened Numbers
  import opened Hub
  import opened Entities

  const Version := "1.0.0"

  const HelpText := Help(Version)

  function Help(version: string): string {
    "HA-TCP Bridge v" + version + "\nLine ending: CRLF (\\r\\n)\n\nCommands:\nPRESS <entity_id>         - Press a button\nON <entity_id>            - Turn on light/switch\nOFF <entity_id>           - Turn off light/switch\nLEVEL <entity_id> <0-100> - Set brightness\nLIST                      - List entities\nLISTBUTTONS               - List button entities only\nPING                      - Test connection\n\nExample: PRESS button.kitchen_keypad_bright\nExample: ON light.living_room\nExample: LEVEL light.living_room 50"
  }

  const EmptyReply := "ERR: Empty command"
  const PressUsage := "ERR: Usage: PRESS <entity_id>"
  const OnUsage := "ERR: Usage: ON <entity_id>"
  const OffUsage := "ERR: Usage: OFF <entity_id>"
  const LevelUsage := "ERR: Usage: LEVEL <entity_id> <0-100>"
  const LevelRangeError := "ERR: Level must be 0-100"
  const PressFailureDefault := "Failed to press button"

  /** LIST reports every entity in its count but shows at most this many lines. */
  const ListCap := 50

  /** The actions the dispatcher knows, as they appear after upper-casing. */
  const Actions: seq<string> := ["HELP", "PING", "LIST", "LISTBUTTONS", "PRESS", "ON", "OFF", "LEVEL"]

  function UnknownReply(action: string): string {
    "ERR: Unknown command '" + action + "'. Type HELP for commands."
  }

  // ---------------------------------------------------------------------
  // Preprocessing

  /** Characters that survive the first filter: printable ones and whitespace. */
  predicate IsKept(c: char) {
    IsPrintable(c) || IsSpace(c)
  }

  /** The characters `strip("'\"` \t")` removes from both ends. */
  predicate IsEdgeJunk(c: char) {
    c == '\'' || c == '"' || c == '`' || c == ' ' || c == '\t'
  }

  /** The line after dropping unprintable characters, stripping whitespace, then stripping quotes, space and tab. */
  function Clean(line: string): (cmd: string)
    ensures |cmd| <= |line|
    ensures forall i :: 0 <= i < |cmd| ==> IsKept(cmd[i])
    ensures cmd == [] || (!IsEdgeJunk(cmd[0]) && !IsEdgeJunk(cmd[|cmd| - 1]))
  {
    var kept := Filter(line, IsKept);
    StripWithin(kept, IsSpace, IsKept);
    StripWithin(Trim(kept), IsEdgeJunk, IsKept);
    StripEdges(Trim(kept), IsEdgeJunk);
    Strip(Trim(kept), IsEdgeJunk)
  }

  /**
   * `cmd.upper().split()`: the action is `Tokens(line)[0]`, the arguments
   * follow; there are none exactly when the cleaned line is all whitespace.
   */
  function Tokens(line: string): (parts: seq<string>)
    ensures parts == [] <==> All(Clean(line), IsSpace)
  {
    UpperKeepsSpaces(Clean(line));
    Words(Upper(Clean(line)))
  }

  // ---------------------------------------------------------------------
  // Entity-id normalisation

  datatype Domain = Light | Switch | HomeAssistant

  function DomainName(d: Domain): string {
    match d
    case Light => "light"
    case Switch => "switch"
    case HomeAssistant => "homeassistant"
  }

  function ServiceEndpoint(d: Domain, on: bool): string {
    "services/" + DomainName(d) + (if on then "/turn_on" else "/turn_off")
  }

  /** PRESS: the lower-cased argument, with `button.` put in front unless it is already there. */
  function PressId(arg: string): string {
    var id := Lower(arg);
    if "button." <= id then id else "button." + id
  }

  datatype PowerTarget = PowerTarget(entityId: string, domain: Domain)

  /**
   * ON and OFF: an id without a `.` or in the `light` domain is a light;
   * a `switch.` id goes to the switch service; anything else goes to the
   * generic `homeassistant` service.
   */
  function RoutePower(arg: string): PowerTarget {
    var id := Lower(arg);
    if "light." <= id || '.' !in id then
      PowerTarget(if "light." <= id then id else "light." + id, Light)
    else if "switch." <= id then PowerTarget(id, Switch)
    else PowerTarget(id, HomeAssistant)
  }

  /** LEVEL: the lower-cased argument, with `light.` put in front unless it is already there. */
  function LevelId(arg: string): string {
    var id := Lower(arg);
    if "light." <= id then id else "light." + id
  }

  /** The token is an integer Python's `int()` accepts, between 0 and 100. */
  predicate IsLevel(token: string) {
    ParseInt(token).Some? && 0 <= ParseInt(token).value <= 100
  }

  // ---------------------------------------------------------------------
  // Dispatch

  /** How the hub's answer will be turned into the reply. */
  datatype Pending =
    | PingResult
    | ListResult
    | ButtonsResult
    | PressResult(entityId: string)
    | PowerResult(entityId: string, on: bool)
    | LevelResult(entityId: string, level: nat)

  /**
   * What a line calls for: a reply known at once (an error or usage
   * message), the help text, or one hub request whose answer the reply
   * depends on.
   */
  datatype Step =
    | Immediate(text: string)
    | ShowHelp
    | HubCall(request: Request, pending: Pending)

  /** The dispatch table, on the upper-cased tokens of one line. */
  function Dispatch(parts: seq<string>): Step {
    if parts == [] then Immediate(EmptyReply)
    else
      var action := parts[0];
      if action == "HELP" then ShowHelp
      else if action == "PING" then HubCall(Request(Get, "", NoBody), PingResult)
      else if action == "LIST" then HubCall(Request(Get, "states", NoBody), ListResult)
      else if action == "LISTBUTTONS" then HubCall(Request(Get, "states", NoBody), ButtonsResult)
      else if action == "PRESS" then
        if |parts| < 2 then Immediate(PressUsage)
        else
          var id := PressId(parts[1]);
          HubCall(Request(Post, "services/button/press", Target(id)), PressResult(id))
      else if action == "ON" || action == "OFF" then
        var on := action == "ON";
        if |parts| < 2 then Immediate(if on then OnUsage else OffUsage)
        else
          var t := RoutePower(parts[1]);
          HubCall(Request(Post, ServiceEndpoint(t.domain, on), Target(t.entityId)), PowerResult(t.entityId, on))
      else if action == "LEVEL" then
        if |parts| < 3 then Immediate(LevelUsage)
        else if !IsLevel(parts[2]) then Immediate(LevelRangeError)
        else
          var level: nat := ParseInt(parts[2]).value;
          var id := LevelId(parts[1]);
          HubCall(Request(Post, "services/light/turn_on", TargetBrightness(id, Brightness(level))), LevelResult(id, level))
      else Immediate(UnknownReply(action))
  }

  /** What `handle_command` does with one line before any hub request. */
  function Plan(line: string): Step {
    Dispatch(Tokens(line))
  }

  function Min(a: int, b: int): int {
    if a < b then a else b
  }

  /** The reply, once the hub has answered the request of a `HubCall`. */
  function Finish(p: Pending, resp: Response): string {
    var ok := resp.status == StatusOk;
    match p
    case PingResult =>
      if ok then "OK: Connected to Home Assistant" else "ERR: Cannot reach Home Assistant"
    case ListResult =>
      var lines := EntityLines(resp);
      "OK: " + NatToString(|lines|) + " entities\n" + JoinLines(lines[..Min(|lines|, ListCap)])
    case ButtonsResult =>
      var lines := ButtonLines(resp);
      "OK: " + NatToString(|lines|) + " buttons\n" + JoinLines(lines)
    case PressResult(id) =>
      if ok then "OK: Pressed " + id else "ERR: " + resp.payload.message.GetOr(PressFailureDefault)
    case PowerResult(id, on) =>
      if ok then "OK: " + id + (if on then " on" else " off") else "ERR: " + resp.payload.rendered
    case LevelResult(id, level) =>
      if ok then "OK: " + id + " set to " + NatToString(level) + "%" else "ERR: " + resp.payload.rendered
  }

  /** The reply to a line that makes no hub request. */
  function Reply(step: Step): string
    requires !step.HubCall?
  {
    if step.ShowHelp? then HelpText else step.text
  }

  /** `handle_command`: the reply to one line, given the hub's answer to its request if it makes one. */
  function Respond(step: Step, answer: Response): string {
    if step.HubCall? then Finish(step.pending, answer) else Reply(step)
  }

  // ---------------------------------------------------------------------
  // Case-insensitivity

  lemma CaseMapsKeepClasses()
    ensures forall c :: IsKept(UpperChar(c)) == IsKept(c) && IsKept(LowerChar(c)) == IsKept(c)
    ensures forall c :: IsSpace(UpperChar(c)) == IsSpace(c) && IsSpace(LowerChar(c)) == IsSpace(c)
    ensures forall c :: IsEdgeJunk(UpperChar(c)) == IsEdgeJunk(c) && IsEdgeJunk(LowerChar(c)) == IsEdgeJunk(c)
  {
    forall c: char
      ensures IsKept(UpperChar(c)) == IsKept(c) && IsKept(LowerChar(c)) == IsKept(c)
      ensures IsSpace(UpperChar(c)) == IsSpace(c) && IsSpace(LowerChar(c)) == IsSpace(c)
      ensures IsEdgeJunk(UpperChar(c)) == IsEdgeJunk(c) && IsEdgeJunk(LowerChar(c)) == IsEdgeJunk(c)
    {
      assert 'a' as int == 97 && 'z' as int == 122 && 'A' as int == 65 && 'Z' as int == 90;
    }
  }

  /** Preprocessing commutes with upper- and lower-casing the whole line. */
  lemma CleanCommutesWithCase(line: string)
    ensures Clean(Upper(line)) == Upper(Clean(line))
    ensures Clean(Lower(line)) == Lower(Clean(line))
  {
    CaseMapsKeepClasses();
    var kept := Filter(line, IsKept);
    FilterMap(line, IsKept, UpperChar);
    FilterMap(line, IsKept, LowerChar);
    StripMap(kept, IsSpace, UpperChar);
    StripMap(kept, IsSpace, LowerChar);
    StripMap(Trim(kept), IsEdgeJunk, UpperChar);
    StripMap(Trim(kept), IsEdgeJunk, LowerChar);
  }

  /**
   * A whole line may be sent in any case: upper- or lower-casing it changes
   * neither the action, nor the arguments, nor the request, nor the reply.
   */
  lemma CaseInsensitive(line: string)
    ensures Plan(Upper(line)) == Plan(line)
    ensures Plan(Lower(line)) == Plan(line)
  {
    CleanCommutesWithCase(line);
    UpperIdempotent(Clean(line));
    UpperOfLower(Clean(line));
  }

  /** The action and the arguments are upper-case tokens without whitespace. */
  lemma TokensAreUpperCaseWords(line: string)
    ensures forall t :: t in Tokens(line) ==> IsWord(t) && IsUpperCase(t)
  {
    var u := Upper(Clean(line));
    UpperIsUpperCase(Clean(line));
    WordsFrom(u, NotLowerLetter);
  }

  // ---------------------------------------------------------------------
  // Early errors: no hub request
  //
  // From here on the lemmas speak of `Dispatch(parts)`, where `parts` are
  // the tokens of a line: `Plan(line) == Dispatch(Tokens(line))`.

  /** `ERR: Empty command` is the reply exactly when nothing is left of the line after preprocessing. */
  lemma EmptyCommand(parts: seq<string>)
    ensures Dispatch(parts) == Immediate(EmptyReply) <==> parts == []
  {
    if parts != [] {
      assert UnknownReply(parts[0])[5] == 'U';
    }
  }

  /** A line of nothing but whitespace and unprintable characters is an empty command. */
  lemma BlankLineIsEmptyCommand(line: string)
    requires forall i :: 0 <= i < |line| ==> IsSpace(line[i]) || !IsPrintable(line[i])
    ensures Plan(line) == Immediate(EmptyReply)
  {
    FilterWithin(line, IsKept, IsSpace);
    var kept := Filter(line, IsKept);
    assert Trim(kept) == [];
  }

  /**
   * Missing arguments and an unusable level are answered at once with their
   * fixed texts, before any hub request.
   */
  lemma EarlyErrors(parts: seq<string>)
    ensures parts == [] ==> Dispatch(parts) == Immediate(EmptyReply)
    ensures parts != [] && parts[0] == "PRESS" && |parts| < 2 ==> Dispatch(parts) == Immediate(PressUsage)
    ensures parts != [] && parts[0] == "ON" && |parts| < 2 ==> Dispatch(parts) == Immediate(OnUsage)
    ensures parts != [] && parts[0] == "OFF" && |parts| < 2 ==> Dispatch(parts) == Immediate(OffUsage)
    ensures parts != [] && parts[0] == "LEVEL" && |parts| < 3 ==> Dispatch(parts) == Immediate(LevelUsage)
    ensures parts != [] && parts[0] == "LEVEL" && |parts| >= 3 && !IsLevel(parts[2]) ==> Dispatch(parts) == Immediate(LevelRangeError)
  {
  }

  /**
   * The converse: a line makes a hub request only when it names an action
   * that needs one and its arguments have passed every validation.
   */
  lemma HubCallOnlyAfterValidation(parts: seq<string>)
    requires Dispatch(parts).HubCall?
    ensures parts != [] && parts[0] in ["PING", "LIST", "LISTBUTTONS", "PRESS", "ON", "OFF", "LEVEL"]
    ensures parts[0] == "PRESS" || parts[0] == "ON" || parts[0] == "OFF" ==> |parts| >= 2
    ensures parts[0] == "LEVEL" ==> |parts| >= 3 && IsLevel(parts[2])
  {
  }

  /**
   * A level token is accepted exactly when it is an integer from 0 to 100;
   * with enough arguments, LEVEL answers at once only to reject the level.
   */
  lemma LevelValidation(parts: seq<string>)
    requires |parts| >= 3 && parts[0] == "LEVEL"
    ensures Dispatch(parts).Immediate? <==> !IsLevel(parts[2])
    ensures Dispatch(parts).Immediate? ==> Dispatch(parts) == Immediate(LevelRangeError)
  {
  }

  // ---------------------------------------------------------------------
  // Entity-id normalisation

  lemma LowerCaseAppend(a: string, b: string)
    requires IsLowerCase(a) && IsLowerCase(b)
    ensures IsLowerCase(a + b)
  {
  }

  /**
   * PRESS ids always land in the `button` domain, in lower case; an id that
   * is already there is left alone, so normalising twice changes nothing.
   */
  lemma PressIdFacts(arg: string)
    ensures "button." <= PressId(arg) && IsLowerCase(PressId(arg))
    ensures PressId(arg) == Lower(arg) || PressId(arg) == "button." + Lower(arg)
    ensures "button." <= Lower(arg) ==> PressId(arg) == Lower(arg)
    ensures PressId(PressId(arg)) == PressId(arg)
  {
    var id := Lower(arg);
    LowerIsLowerCase(arg);
    LowerCaseAppend("button.", id);
    LowerFixedPoint(PressId(arg));
  }

  /**
   * ON/OFF routing: an id without a `.` or in the `light` domain is a light
   * (the prefix added when missing); a `switch.` id uses the switch
   * service; any other id is passed unchanged to the generic service. The
   * routed id always names a domain, so routing it again gives the same
   * id and service.
   */
  lemma RoutePowerFacts(arg: string)
    ensures var id := Lower(arg); var t := RoutePower(arg);
      && (t.domain == Light <==> "light." <= id || '.' !in id)
      && (t.domain == Switch <==> !("light." <= id) && '.' in id && "switch." <= id)
      && (t.domain == Light ==> "light." <= t.entityId && (t.entityId == id || t.entityId == "light." + id))
      && (t.domain != Light ==> t.entityId == id)
      && '.' in t.entityId
      && IsLowerCase(t.entityId)
      && RoutePower(t.entityId) == t
  {
    var id := Lower(arg);
    var t := RoutePower(arg);
    LowerIsLowerCase(arg);
    LowerCaseAppend("light.", id);
    LowerFixedPoint(t.entityId);
    assert "light."[5] == '.';
    if t.domain == Light {
      assert t.entityId[5] == '.';
    }
    if t.domain == Switch {
      assert "switch."[6] == '.';
      assert !("light." <= t.entityId);
    }
  }

  /** LEVEL ids always land in the `light` domain, even when they name another one. */
  lemma LevelIdFacts(arg: string)
    ensures "light." <= LevelId(arg) && IsLowerCase(LevelId(arg))
    ensures LevelId(arg) == (if "light." <= Lower(arg) then Lower(arg) else "light." + Lower(arg))
    ensures LevelId(LevelId(arg)) == LevelId(arg)
  {
    LowerIsLowerCase(arg);
    LowerCaseAppend("light.", Lower(arg));
    LowerFixedPoint(LevelId(arg));
  }

  /** Every entity id sent to the hub is lower-case. */
  lemma RequestIdsLowerCase(parts: seq<string>)
    requires Dispatch(parts).HubCall? && !Dispatch(parts).request.body.NoBody?
    ensures IsLowerCase(Dispatch(parts).request.body.entityId)
  {
    if parts[0] == "PRESS" {
      PressIdFacts(parts[1]);
    } else if parts[0] == "LEVEL" {
      LevelIdFacts(parts[1]);
    } else {
      RoutePowerFacts(parts[1]);
    }
  }

  // ---------------------------------------------------------------------
  // Commands that reach the hub

  /** PRESS posts the normalised id to `services/button/press`; a failure reports the hub's `message` or a fixed text. */
  lemma PressCommand(parts: seq<string>, resp: Response)
    requires |parts| >= 2 && parts[0] == "PRESS"
    ensures var id := PressId(parts[1]);
      && Dispatch(parts) == HubCall(Request(Post, "services/button/press", Target(id)), PressResult(id))
      && (resp.status == StatusOk ==> Respond(Dispatch(parts), resp) == "OK: Pressed " + id)
      && (resp.status != StatusOk && resp.payload.message.Some? ==>
            Respond(Dispatch(parts), resp) == "ERR: " + resp.payload.message.value)
      && (resp.status != StatusOk && resp.payload.message.None? ==>
            Respond(Dispatch(parts), resp) == "ERR: Failed to press button")
  {
  }

  /** A PRESS whose request fails in transport reports the fixed failure text. */
  lemma PressTransportFailure(parts: seq<string>, rendered: string)
    requires |parts| >= 2 && parts[0] == "PRESS"
    ensures Respond(Dispatch(parts), TransportFailure(rendered)) == "ERR: Failed to press button"
  {
    PressCommand(parts, TransportFailure(rendered));
  }

  /** ON and OFF post the routed id to the routed domain's turn_on or turn_off service. */
  lemma PowerCommand(parts: seq<string>, resp: Response)
    requires |parts| >= 2 && (parts[0] == "ON" || parts[0] == "OFF")
    ensures var on := parts[0] == "ON"; var t := RoutePower(parts[1]);
      && Dispatch(parts) == HubCall(Request(Post, ServiceEndpoint(t.domain, on), Target(t.entityId)), PowerResult(t.entityId, on))
      && (resp.status == StatusOk ==> Respond(Dispatch(parts), resp) == "OK: " + t.entityId + (if on then " on" else " off"))
      && (resp.status != StatusOk ==> Respond(Dispatch(parts), resp) == "ERR: " + resp.payload.rendered)
  {
  }

  /**
   * A valid LEVEL asks the light service for the level scaled to 0-255 and,
   * on success, echoes the parsed integer (so `LEVEL x 050` answers `50%`).
   */
  lemma LevelCommand(parts: seq<string>, resp: Response)
    requires |parts| >= 3 && parts[0] == "LEVEL" && IsLevel(parts[2])
    ensures var level := ParseInt(parts[2]).value; var id := LevelId(parts[1]);
      && 0 <= level <= 100
      && Dispatch(parts) == HubCall(Request(Post, "services/light/turn_on", TargetBrightness(id, level * 255 / 100)), LevelResult(id, level))
      && 0 <= level * 255 / 100 <= 255
      && (resp.status == StatusOk ==> Respond(Dispatch(parts), resp) == "OK: " + id + " set to " + NatToString(level) + "%")
      && ParseInt(NatToString(level)) == Some(level)
      && (resp.status != StatusOk ==> Respond(Dispatch(parts), resp) == "ERR: " + resp.payload.rendered)
  {
    ParseNatToString(ParseInt(parts[2]).value);
  }

  /** Every brightness sent to the hub is within the 0-255 scale. */
  lemma BrightnessInRange(parts: seq<string>)
    requires Dispatch(parts).HubCall? && Dispatch(parts).request.body.TargetBrightness?
    ensures 0 <= Dispatch(parts).request.body.brightness <= 255
  {
  }

  // ---------------------------------------------------------------------
  // Commands without arguments, and unknown ones

  /** HELP, PING, LIST and LISTBUTTONS ignore their arguments. */
  lemma ArgumentFreeCommands(args: seq<string>)
    ensures Dispatch(["HELP"] + args) == ShowHelp
    ensures Dispatch(["PING"] + args) == HubCall(Request(Get, "", NoBody), PingResult)
    ensures Dispatch(["LIST"] + args) == HubCall(Request(Get, "states", NoBody), ListResult)
    ensures Dispatch(["LISTBUTTONS"] + args) == HubCall(Request(Get, "states", NoBody), ButtonsResult)
  {
  }

  /** PING is answered by whether the hub's root answered 200. */
  lemma PingReplies(resp: Response)
    ensures Finish(PingResult, resp) == (if resp.status == StatusOk then "OK: Connected to Home Assistant" else "ERR: Cannot reach Home Assistant")
  {
  }

  /** An unknown action gets the same reply whatever arguments follow it. */
  lemma UnknownCommand(action: string, args: seq<string>)
    requires action != [] && action !in Actions
    ensures Dispatch([action] + args) == Immediate(UnknownReply(action))
  {
  }

  // ---------------------------------------------------------------------
  // Listings

  /**
   * LIST counts every controllable entity but shows only the first 50; a
   * client reading past the header and cutting at newlines gets exactly
   * those lines back. A failed `states` request reports zero entities.
   */
  lemma ListReply(resp: Response)
    ensures var lines := EntityLines(resp); var shown := lines[..Min(|lines|, ListCap)];
      var header := "OK: " + NatToString(|lines|) + " entities\n";
      var reply := Finish(ListResult, resp);
      && header <= reply
      && ParseInt(NatToString(|lines|)) == Some(|lines|)
      && |shown| == Min(|lines|, ListCap) && shown <= lines
      && (|lines| <= ListCap ==> shown == lines)
      && (shown != [] && (forall k :: 0 <= k < |shown| ==> '\n' !in shown[k]) ==> SplitLines(reply[|header|..]) == shown)
      && (resp.status != StatusOk ==> reply == "OK: 0 entities\n")
  {
    var lines := EntityLines(resp);
    var shown := lines[..Min(|lines|, ListCap)];
    var header := "OK: " + NatToString(|lines|) + " entities\n";
    var reply := Finish(ListResult, resp);
    assert reply == header + JoinLines(shown);
    assert reply[|header|..] == JoinLines(shown);
    ParseNatToString(|lines|);
    if shown != [] && (forall k :: 0 <= k < |shown| ==> '\n' !in shown[k]) {
      SplitJoinLines(shown);
    }
  }

  /** LISTBUTTONS counts and shows every button line. */
  lemma ButtonsReply(resp: Response)
    ensures var lines := ButtonLines(resp);
      var header := "OK: " + NatToString(|lines|) + " buttons\n";
      var reply := Finish(ButtonsResult, resp);
      && header <= reply
      && ParseInt(NatToString(|lines|)) == Some(|lines|)
      && (lines != [] && (forall k :: 0 <= k < |lines| ==> '\n' !in lines[k]) ==> SplitLines(reply[|header|..]) == lines)
      && (resp.status != StatusOk ==> reply == "OK: 0 buttons\n")
  {
    var lines := ButtonLines(resp);
    var header := "OK: " + NatToString(|lines|) + " buttons\n";
    var reply := Finish(ButtonsResult, resp);
    assert reply[|header|..] == JoinLines(lines);
    ParseNatToString(|lines|);
    if lines != [] && (forall k :: 0 <= k < |lines| ==> '\n' !in lines[k]) {
      SplitJoinLines(lines);
    }
  }
}
