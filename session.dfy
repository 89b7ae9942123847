/**
 * One client connection (`handle_client`): the greeting, then a buffer
 * that accumulates the received text and is cut into lines; every
 * non-blank line is dispatched and answered with its reply and a prompt.
 * Received data is modelled as the sequence of already-decoded chunks.
 */
module Session {
  import opened Optional
  import opened Text
  import opened Hub
  import opened Dispatcher

  const Greeting := "HA-TCP Bridge v" + Version + " Ready. Type HELP for commands.\r\n> "
  const Prompt := "\r\n> "

  /** The separators tried, in this order, against the whole buffer. */
  const Separators: seq<string> := ["\r\n", "\n", "\r"]

  /** The condition of the inner loop: the buffer holds a CR or an LF somewhere. */
  predicate HasLineBreak(buf: string) {
    '\n' in buf || '\r' in buf
  }

  /**
   * The first separator of the priority list that occurs anywhere in the
   * buffer; not the terminator that comes first (`a\nb\r\n` is cut at CRLF).
   */
  function ChooseSeparator(buf: string): (sep: string)
    requires HasLineBreak(buf)
    ensures sep in Separators
  {
    if Contains(buf, "\r\n") then "\r\n" else if Contains(buf, "\n") then "\n" else "\r"
  }

  /** The chosen separator occurs in the buffer, and CRLF wins over LF, which wins over CR. */
  lemma SeparatorPriority(buf: string)
    requires HasLineBreak(buf)
    ensures Contains(buf, ChooseSeparator(buf))
    ensures ChooseSeparator(buf) == "\r\n" <==> Contains(buf, "\r\n")
    ensures ChooseSeparator(buf) == "\n" <==> !Contains(buf, "\r\n") && '\n' in buf
    ensures ChooseSeparator(buf) == "\r" <==> !Contains(buf, "\r\n") && '\n' !in buf
  {
    ContainsChar(buf, '\n');
    ContainsChar(buf, '\r');
  }

  datatype Cut = Cut(line: string, sep: string, rest: string)

  /** `buffer.split(sep, 1)` with the chosen separator: the text before its first occurrence, and the text after it. */
  function SplitLine(buf: string): (c: Cut)
    requires HasLineBreak(buf)
    ensures c.sep == ChooseSeparator(buf)
    ensures |c.rest| < |buf|
  {
    SeparatorPriority(buf);
    var sep := ChooseSeparator(buf);
    var i := Find(buf, sep).value;
    Cut(buf[..i], sep, buf[i + |sep|..])
  }

  /** The cut puts the buffer back together, and the line holds no earlier occurrence of the separator. */
  lemma SplitLineCut(buf: string)
    requires HasLineBreak(buf)
    ensures var c := SplitLine(buf); buf == c.line + c.sep + c.rest && !Contains(c.line, c.sep)
  {
    SeparatorPriority(buf);
    var sep := ChooseSeparator(buf);
    var i := Find(buf, sep).value;
    var line := buf[..i];
    forall j | OccursAt(line, j, sep) ensures OccursAt(buf, j, sep) {
      OccursInPrefix(buf, i, j, sep);
    }
    assert buf == line + buf[i..i + |sep|] + buf[i + |sep|..];
  }

  /** The inner `for sep in [...]` loop: try the separators in order and cut at the first that occurs. */
  method SplitOnce(buffer: string) returns (line: string, rest: string)
    requires HasLineBreak(buffer)
    ensures line == SplitLine(buffer).line && rest == SplitLine(buffer).rest
  {
    SeparatorPriority(buffer);
    assert Separators[0] == "\r\n" && Separators[1] == "\n" && Separators[2] == "\r";
    var k := 0;
    while k < |Separators|
      invariant 0 <= k <= |Separators|
      invariant forall j :: 0 <= j < k ==> !Contains(buffer, Separators[j])
    {
      var sep := Separators[k];
      if Contains(buffer, sep) {
        var i := Find(buffer, sep).value;
        line, rest := buffer[..i], buffer[i + |sep|..];
        return;
      }
      k := k + 1;
    }
    assert false;
  }

  /** What a session has done so far: the text still buffered, everything sent, every hub request made. */
  datatype Session = Session(buffer: string, sent: seq<string>, requests: seq<Request>)

  const Initial := Session("", [Greeting], [])

  /** The reply to one command and the hub requests made for it. */
  datatype Exchange = Exchange(reply: string, made: seq<Request>)

  /**
   * What the session does with one cut-off line when `n` hub requests
   * precede it: nothing for a blank line, otherwise an exchange.
   */
  type Handler = (string, nat) -> Option<Exchange>

  /** What a handled line sends: its reply followed by the prompt, or nothing. */
  function Sent(r: Option<Exchange>): (out: seq<string>)
    ensures |out| == if r.Some? then 1 else 0
  {
    if r.Some? then [r.value.reply + Prompt] else []
  }

  /** The hub requests a handled line made. */
  function Made(r: Option<Exchange>): seq<Request> {
    if r.Some? then r.value.made else []
  }

  /**
   * A planned step carried out: a hub call asks the hub once, as request
   * number `n`, and replies what `handle_command` (`Respond`) makes of the
   * answer; any other step asks nothing and replies the same whatever the
   * hub would have answered.
   */
  function Answer(step: Step, n: nat, hub: Oracle): (x: Exchange)
    ensures x.made == (if step.HubCall? then [step.request] else [])
    ensures step.HubCall? ==> x.reply == Respond(step, hub(n, step.request))
    ensures !step.HubCall? ==> forall a :: x.reply == Respond(step, a)
  {
    if step.HubCall? then Exchange(Finish(step.pending, hub(n, step.request)), [step.request])
    else Exchange(Reply(step), [])
  }

  /** How a command is planned; the bridge plans with `Dispatcher.Plan`. */
  type Planner = string -> Step

  /** The bridge's handling of a line: strip it, drop it if blank, else plan it and ask the hub if the plan needs it. */
  function Bridge(plan: Planner, hub: Oracle): Handler {
    (line: string, n: nat) => BridgeStep(plan, hub, line, n)
  }

  function BridgeStep(plan: Planner, hub: Oracle, line: string, n: nat): Option<Exchange> {
    var cmd := Trim(line);
    if cmd == [] then None else Some(Answer(plan(cmd), n, hub))
  }

  /** Handle one cut-off line: send what it sends, record the requests it makes. */
  function HandleLine(st: Session, line: string, handle: Handler): Session {
    var r := handle(line, |st.requests|);
    Session(st.buffer, st.sent + Sent(r), st.requests + Made(r))
  }

  /** One turn of the inner loop. */
  function Turn(st: Session, handle: Handler): Session
    requires HasLineBreak(st.buffer)
  {
    var c := SplitLine(st.buffer);
    HandleLine(st.(buffer := c.rest), c.line, handle)
  }

  /** The inner loop: cut and answer lines until no CR or LF is left. */
  function Drain(st: Session, handle: Handler): Session
    decreases |st.buffer|
  {
    if HasLineBreak(st.buffer) then Drain(Turn(st, handle), handle) else st
  }

  /** One chunk received: append it to the buffer, then drain. */
  function Receive(st: Session, chunk: string, handle: Handler): Session {
    Drain(st.(buffer := st.buffer + chunk), handle)
  }

  function Run(st: Session, chunks: seq<string>, handle: Handler): Session
    decreases |chunks|
  {
    if chunks == [] then st else Run(Receive(st, chunks[0], handle), chunks[1..], handle)
  }

  /** The whole session for a sequence of received chunks, up to the peer's close. */
  function Transcript(chunks: seq<string>, hub: Oracle): Session {
    Run(Initial, chunks, Bridge(Plan, hub))
  }

  /** `handle_client`: greet, then for every chunk append it and answer every complete line. */
  method HandleClient(chunks: seq<string>, hub: Oracle) returns (sent: seq<string>, requests: seq<Request>)
    ensures sent == Transcript(chunks, hub).sent
    ensures requests == Transcript(chunks, hub).requests
    ensures |sent| > 0 && sent[0] == Greeting
  {
    ghost var handle := Bridge(Plan, hub);
    sent := [Greeting];
    requests := [];
    var buffer := "";
    for i := 0 to |chunks|
      invariant Run(Session(buffer, sent, requests), chunks[i..], handle) == Transcript(chunks, hub)
      invariant |sent| > 0 && sent[0] == Greeting
    {
      assert chunks[i..][1..] == chunks[i + 1..];
      buffer := buffer + chunks[i];
      while '\n' in buffer || '\r' in buffer
        invariant Run(Drain(Session(buffer, sent, requests), handle), chunks[i + 1..], handle) == Transcript(chunks, hub)
        invariant |sent| > 0 && sent[0] == Greeting
        decreases |buffer|
      {
        ghost var before := Session(buffer, sent, requests);
        assert Drain(before, handle) == Drain(Turn(before, handle), handle);
        var line;
        line, buffer := SplitOnce(buffer);
        ghost var r := handle(line, |requests|);
        line := Trim(line);
        if line != "" {
          var response;
          var step := Plan(line);
          if step.HubCall? {
            response := Finish(step.pending, hub(|requests|, step.request));
            requests := requests + [step.request];
          } else {
            response := Reply(step);
          }
          assert requests == before.requests + Made(r);
          sent := sent + [response + Prompt];
          assert sent == before.sent + Sent(r);
        } else {
          assert Sent(r) == [] && Made(r) == [];
          assert sent + [] == sent && requests + [] == requests;
        }
      }
    }
  }

  // ----- What the loop does, stated without the loop -----

  /** The complete lines held by a buffer, in the order the inner loop cuts them. */
  function Lines(buf: string): seq<string>
    decreases |buf|
  {
    if HasLineBreak(buf) then [SplitLine(buf).line] + Lines(SplitLine(buf).rest) else []
  }

  /** What stays buffered once every complete line is cut off. */
  function Leftover(buf: string): (r: string)
    ensures !HasLineBreak(r)
    ensures |r| <= |buf|
    decreases |buf|
  {
    if HasLineBreak(buf) then Leftover(SplitLine(buf).rest) else buf
  }

  /**
   * Because the separators are tried against the whole buffer, a CRLF
   * anywhere wins over an earlier lone LF: `a LF b CRLF` is one line,
   * `a LF b`, not two.
   */
  lemma CrlfWinsOverEarlierLf(a: string, b: string)
    requires !HasLineBreak(a) && !HasLineBreak(b)
    ensures Lines(a + "\n" + b + "\r\n") == [a + "\n" + b]
    ensures Leftover(a + "\n" + b + "\r\n") == ""
  {
    var line := a + "\n" + b;
    var buf := line + "\r\n";
    var i := |line|;
    assert buf[i..i + 2] == "\r\n";
    assert OccursAt(buf, i, "\r\n");
    forall j | 0 <= j < i ensures !OccursAt(buf, j, "\r\n") {
      if j < |a| {
        assert buf[j] == a[j];
      } else if j > |a| {
        assert buf[j] == b[j - |a| - 1];
      }
      assert buf[j..j + 2][0] != "\r\n"[0];
    }
    FindFirst(buf, "\r\n", i);
    assert buf[..i] == line && buf[i + 2..] == "";
    assert SplitLine(buf) == Cut(line, "\r\n", "");
  }

  /** With no CR in the buffer, a lone LF is the separator, and the text after it stays buffered. */
  lemma LfCut(a: string, b: string)
    requires !HasLineBreak(a) && !HasLineBreak(b)
    ensures Lines(a + "\n" + b) == [a]
    ensures Leftover(a + "\n" + b) == b
  {
    var buf := a + "\n" + b;
    var i := |a|;
    CrlfHasCr(buf);
    assert buf[i..i + 1] == "\n";
    assert OccursAt(buf, i, "\n");
    forall j | 0 <= j < i ensures !OccursAt(buf, j, "\n") {
      assert buf[j] == a[j];
      assert buf[j..j + 1][0] != "\n"[0];
    }
    FindFirst(buf, "\n", i);
    assert buf[..i] == a && buf[i + 1..] == b;
    assert SplitLine(buf) == Cut(a, "\n", b);
  }

  lemma CrlfHasCr(s: string)
    ensures Contains(s, "\r\n") ==> '\r' in s
  {
    if Contains(s, "\r\n") {
      var k := Find(s, "\r\n").value;
      assert s[k..k + 2][0] == s[k];
    }
  }

  /** A buffer that ends in its only CRLF is exactly one line. */
  lemma CrlfCut(b: string)
    requires !HasLineBreak(b)
    ensures Lines(b + "\r\n") == [b]
    ensures Leftover(b + "\r\n") == ""
  {
    var buf := b + "\r\n";
    var i := |b|;
    assert buf[i..i + 2] == "\r\n";
    assert OccursAt(buf, i, "\r\n");
    forall j | 0 <= j < i ensures !OccursAt(buf, j, "\r\n") {
      assert buf[j] == b[j];
      assert buf[j..j + 2][0] != "\r\n"[0];
    }
    FindFirst(buf, "\r\n", i);
    assert buf[..i] == b && buf[i + 2..] == "";
    assert SplitLine(buf) == Cut(b, "\r\n", "");
  }

  /**
   * Where the lines are cut depends on where the received data is split
   * into chunks: `a LF b` followed by a separate `CRLF` chunk is two lines,
   * the same text received at once is one.
   */
  lemma ChunkBoundaryDecidesCut(a: string, b: string)
    requires !HasLineBreak(a) && !HasLineBreak(b)
    ensures Feed("", [a + "\n" + b, "\r\n"]) == [a, b]
    ensures Feed("", [a + "\n" + b + "\r\n"]) == [a + "\n" + b]
  {
    FeedTwo(a + "\n" + b, "\r\n");
    LfCut(a, b);
    CrlfCut(b);
    FeedOne(a + "\n" + b + "\r\n");
    CrlfWinsOverEarlierLf(a, b);
  }

  /** One more chunk: its complete lines are cut, the rest stays buffered for the next. */
  lemma FeedCons(buf: string, c: string, rest: seq<string>)
    ensures Feed(buf, [c] + rest) == Lines(buf + c) + Feed(Leftover(buf + c), rest)
  {
    assert ([c] + rest)[0] == c && ([c] + rest)[1..] == rest;
  }

  lemma FeedOne(c: string)
    ensures Feed("", [c]) == Lines(c)
  {
    FeedCons("", c, []);
    assert [c] + [] == [c];
    assert "" + c == c;
  }

  lemma FeedTwo(c: string, d: string)
    ensures Feed("", [c, d]) == Lines(c) + Lines(Leftover(c) + d)
  {
    FeedCons("", c, [d]);
    FeedOne(Leftover(c) + d);
    assert [c] + [d] == [c, d];
    assert "" + c == c;
    FeedCons(Leftover(c), d, []);
    assert [d] + [] == [d];
  }

  /** What a run of lines sends and asks of the hub. */
  datatype Outcome = Outcome(sent: seq<string>, requests: seq<Request>)

  /** A reference definition: each line handled in turn, when `n` requests precede the first. */
  function Conversation(lines: seq<string>, n: nat, handle: Handler): (o: Outcome)
    ensures |o.sent| <= |lines|
  {
    if lines == [] then Outcome([], [])
    else
      var r := handle(lines[0], n);
      var rest := Conversation(lines[1..], n + |Made(r)|, handle);
      Outcome(Sent(r) + rest.sent, Made(r) + rest.requests)
  }

  lemma AppendAssoc<T>(a: seq<T>, b: seq<T>, c: seq<T>)
    ensures a + (b + c) == a + b + c
  {
  }

  lemma ConversationCons(line: string, lines: seq<string>, n: nat, handle: Handler)
    ensures var r := handle(line, n); var o := Conversation(lines, n + |Made(r)|, handle);
      Conversation([line] + lines, n, handle) == Outcome(Sent(r) + o.sent, Made(r) + o.requests)
  {
    assert ([line] + lines)[1..] == lines;
  }

  /** The claim of `DrainIsConversation` for one session state. */
  ghost predicate DrainsAsConversation(st: Session, handle: Handler) {
    var o := Conversation(Lines(st.buffer), |st.requests|, handle);
    Drain(st, handle) == Session(Leftover(st.buffer), st.sent + o.sent, st.requests + o.requests)
  }

  /** One turn of the inner loop keeps the claim: if it holds after the first cut, it holds before. */
  lemma DrainTurn(st: Session, handle: Handler)
    requires HasLineBreak(st.buffer)
    requires DrainsAsConversation(Turn(st, handle), handle)
    ensures DrainsAsConversation(st, handle)
  {
    var c := SplitLine(st.buffer);
    var st1 := Turn(st, handle);
    var r := handle(c.line, |st.requests|);
    assert st1 == Session(c.rest, st.sent + Sent(r), st.requests + Made(r));
    var o1 := Conversation(Lines(c.rest), |st1.requests|, handle);
    assert Drain(st, handle) == Drain(st1, handle);
    assert Lines(st.buffer) == [c.line] + Lines(c.rest);
    assert Leftover(st.buffer) == Leftover(c.rest);
    ConversationCons(c.line, Lines(c.rest), |st.requests|, handle);
    AppendAssoc(st.sent, Sent(r), o1.sent);
    AppendAssoc(st.requests, Made(r), o1.requests);
  }

  /**
   * Draining handles the buffer's complete lines in the order they arrived,
   * sending and asking what each line sends and asks, and leaves only the
   * unterminated tail buffered.
   */
  lemma {:induction false} DrainIsConversation(st: Session, handle: Handler)
    ensures var o := Conversation(Lines(st.buffer), |st.requests|, handle);
      Drain(st, handle) == Session(Leftover(st.buffer), st.sent + o.sent, st.requests + o.requests)
    decreases |st.buffer|
  {
    if HasLineBreak(st.buffer) {
      DrainIsConversation(Turn(st, handle), handle);
      DrainTurn(st, handle);
    } else {
      assert st.sent + [] == st.sent && st.requests + [] == st.requests;
    }
  }

  // ----- The whole session -----

  /** Every complete line cut as the chunks arrive, in order, starting from buffer `buf`. */
  function Feed(buf: string, chunks: seq<string>): seq<string>
    decreases |chunks|
  {
    if chunks == [] then [] else Lines(buf + chunks[0]) + Feed(Leftover(buf + chunks[0]), chunks[1..])
  }

  /** What is still buffered when the peer closes. */
  function Remainder(buf: string, chunks: seq<string>): (r: string)
    ensures chunks != [] ==> !HasLineBreak(r)
    decreases |chunks|
  {
    if chunks == [] then buf else Remainder(Leftover(buf + chunks[0]), chunks[1..])
  }

  /** The claim of `ConversationAppend` for one pair of runs. */
  ghost predicate HandledInSequence(a: seq<string>, b: seq<string>, n: nat, handle: Handler) {
    var oa := Conversation(a, n, handle);
    var ob := Conversation(b, n + |oa.requests|, handle);
    Conversation(a + b, n, handle) == Outcome(oa.sent + ob.sent, oa.requests + ob.requests)
  }

  /** `ConversationCons`, with the handled line's result and the rest's outcome named. */
  lemma ConsOutcome(h: string, rest: seq<string>, n: nat, handle: Handler, r: Option<Exchange>, o: Outcome)
    requires handle(h, n) == r
    requires Conversation(rest, n + |Made(r)|, handle) == o
    ensures Conversation([h] + rest, n, handle) == Outcome(Sent(r) + o.sent, Made(r) + o.requests)
  {
    ConversationCons(h, rest, n, handle);
  }

  /** The claim of `ConversationAppend`, from the three outcomes it relates. */
  lemma HandledFrom(a: seq<string>, b: seq<string>, n: nat, m: nat, handle: Handler, oa: Outcome, ob: Outcome, ab: Outcome)
    requires Conversation(a, n, handle) == oa
    requires m == n + |oa.requests| && Conversation(b, m, handle) == ob
    requires Conversation(a + b, n, handle) == ab
    requires ab == Outcome(oa.sent + ob.sent, oa.requests + ob.requests)
    ensures HandledInSequence(a, b, n, handle)
  {
  }

  /** Putting one more line in front keeps the claim. */
  lemma LineInFront(h: string, t: seq<string>, b: seq<string>, n: nat, handle: Handler)
    requires HandledInSequence(t, b, n + |Made(handle(h, n))|, handle)
    ensures HandledInSequence([h] + t, b, n, handle)
  {
    var r := handle(h, n);
    var n1 := n + |Made(r)|;
    var ot := Conversation(t, n1, handle);
    var m := n1 + |ot.requests|;
    var ob := Conversation(b, m, handle);
    var oa := Outcome(Sent(r) + ot.sent, Made(r) + ot.requests);
    var ab := Outcome(Sent(r) + (ot.sent + ob.sent), Made(r) + (ot.requests + ob.requests));
    ConsOutcome(h, t, n, handle, r, ot);
    ConsOutcome(h, t + b, n, handle, r, Outcome(ot.sent + ob.sent, ot.requests + ob.requests));
    AppendAssoc([h], t, b);
    AppendAssoc(Sent(r), ot.sent, ob.sent);
    AppendAssoc(Made(r), ot.requests, ob.requests);
    HandledFrom([h] + t, b, n, m, handle, oa, ob, ab);
  }

  /** With no line in front, the claim is immediate. */
  lemma NothingInFront(b: seq<string>, n: nat, handle: Handler)
    ensures HandledInSequence([], b, n, handle)
  {
    assert [] + b == b;
    var ob := Conversation(b, n, handle);
    assert [] + ob.sent == ob.sent && [] + ob.requests == ob.requests;
  }

  /** Handling two runs of lines one after the other is handling them as one run. */
  lemma {:induction false} ConversationAppend(a: seq<string>, b: seq<string>, n: nat, handle: Handler)
    ensures HandledInSequence(a, b, n, handle)
  {
    if a == [] {
      NothingInFront(b, n, handle);
    } else {
      ConversationAppend(a[1..], b, n + |Made(handle(a[0], n))|, handle);
      LineInFront(a[0], a[1..], b, n, handle);
      assert [a[0]] + a[1..] == a;
    }
  }

  /** The claim of `RunIsConversation` for one session state and the chunks still to come. */
  ghost predicate RunsAsConversation(st: Session, chunks: seq<string>, handle: Handler) {
    var o := Conversation(Feed(st.buffer, chunks), |st.requests|, handle);
    Run(st, chunks, handle) == Session(Remainder(st.buffer, chunks), st.sent + o.sent, st.requests + o.requests)
  }

  /** Receiving one chunk keeps the claim: if it holds from the state after the chunk, it holds before. */
  lemma ChunkTurn(st: Session, chunks: seq<string>, handle: Handler)
    requires chunks != []
    requires RunsAsConversation(Receive(st, chunks[0], handle), chunks[1..], handle)
    ensures RunsAsConversation(st, chunks, handle)
  {
    var buf := st.buffer + chunks[0];
    DrainIsConversation(st.(buffer := buf), handle);
    LinesInSequence(st.sent, st.requests, Lines(buf), Feed(Leftover(buf), chunks[1..]), handle);
  }

  /** Handling two runs of lines one after the other is handling them together. */
  lemma LinesInSequence(sent: seq<string>, requests: seq<Request>, first: seq<string>, later: seq<string>, handle: Handler)
    ensures var oa := Conversation(first, |requests|, handle);
      var ob := Conversation(later, |requests + oa.requests|, handle);
      var o := Conversation(first + later, |requests|, handle);
      sent + oa.sent + ob.sent == sent + o.sent && requests + oa.requests + ob.requests == requests + o.requests
  {
    var oa := Conversation(first, |requests|, handle);
    ConversationAppend(first, later, |requests|, handle);
    assert |requests + oa.requests| == |requests| + |oa.requests|;
    var ob := Conversation(later, |requests + oa.requests|, handle);
    AppendAssoc(sent, oa.sent, ob.sent);
    AppendAssoc(requests, oa.requests, ob.requests);
  }

  /**
   * The session handles every complete line it receives, across chunk
   * boundaries, in the order received: what it sends and asks is the
   * conversation over all the lines cut, and only an unterminated tail stays
   * buffered.
   */
  lemma {:induction false} RunIsConversation(st: Session, chunks: seq<string>, handle: Handler)
    ensures var o := Conversation(Feed(st.buffer, chunks), |st.requests|, handle);
      Run(st, chunks, handle) == Session(Remainder(st.buffer, chunks), st.sent + o.sent, st.requests + o.requests)
    decreases |chunks|
  {
    if chunks == [] {
      assert st.sent + [] == st.sent && st.requests + [] == st.requests;
    } else {
      RunIsConversation(Receive(st, chunks[0], handle), chunks[1..], handle);
      ChunkTurn(st, chunks, handle);
    }
  }

  // ----- The bridge's own handling of lines -----

  /** How a line is cleaned before it is planned; the bridge strips it with `Text.Trim`. */
  type Cleaner = string -> string

  /** What is done with a non-blank command when `n` hub requests precede it. */
  type Server = (string, nat) -> Exchange

  /** The bridge serves a command by planning it and carrying the plan out against the hub. */
  function Serve(plan: Planner, hub: Oracle): Server {
    (cmd: string, n: nat) => Answer(plan(cmd), n, hub)
  }

  /** The commands a run of lines carries: each line cleaned, the blank ones dropped. */
  function NonBlankCommands(lines: seq<string>, clean: Cleaner): (cmds: seq<string>)
    ensures |cmds| <= |lines|
  {
    if lines == [] then []
    else
      var cmd := clean(lines[0]);
      if cmd == [] then NonBlankCommands(lines[1..], clean) else [cmd] + NonBlankCommands(lines[1..], clean)
  }

  /**
   * A reference definition over commands rather than lines: each command
   * served in turn, its reply sent with a prompt, when `n` requests precede
   * the first.
   */
  function Conversed(cmds: seq<string>, n: nat, serve: Server): (o: Outcome)
    ensures |o.sent| == |cmds|
  {
    if cmds == [] then Outcome([], [])
    else
      var x := serve(cmds[0], n);
      var rest := Conversed(cmds[1..], n + |x.made|, serve);
      Outcome([x.reply + Prompt] + rest.sent, x.made + rest.requests)
  }

  /** A handler serves commands when it drops the lines that are blank once cleaned and serves the cleaned command of every other. */
  ghost predicate ServesCommands(handle: Handler, clean: Cleaner, serve: Server) {
    forall line: string, n: nat ::
      handle(line, n) == if clean(line) == [] then None else Some(serve(clean(line), n))
  }

  /** The bridge strips each line, drops the blank ones and serves the rest by their plan. */
  lemma BridgeServesCommands(plan: Planner, hub: Oracle)
    ensures ServesCommands(Bridge(plan, hub), Trim, Serve(plan, hub))
  {
  }

  lemma ServesAt(handle: Handler, clean: Cleaner, serve: Server, line: string, n: nat)
    requires ServesCommands(handle, clean, serve)
    ensures handle(line, n) == if clean(line) == [] then None else Some(serve(clean(line), n))
  {
  }

  /** A leading blank line sends nothing, asks nothing and carries no command. */
  lemma BlankLead(lines: seq<string>, n: nat, handle: Handler, clean: Cleaner)
    requires lines != [] && clean(lines[0]) == [] && handle(lines[0], n) == None
    ensures Conversation(lines, n, handle) == Conversation(lines[1..], n, handle)
    ensures NonBlankCommands(lines, clean) == NonBlankCommands(lines[1..], clean)
  {
    var o := Conversation(lines[1..], n, handle);
    assert [] + o.sent == o.sent && [] + o.requests == o.requests;
  }

  /** A leading non-blank line is served first, then the rest follow. */
  lemma CommandLead(lines: seq<string>, n: nat, handle: Handler, clean: Cleaner, x: Exchange)
    requires lines != [] && clean(lines[0]) != [] && handle(lines[0], n) == Some(x)
    ensures var o := Conversation(lines[1..], n + |x.made|, handle);
      Conversation(lines, n, handle) == Outcome([x.reply + Prompt] + o.sent, x.made + o.requests)
    ensures NonBlankCommands(lines, clean) == [clean(lines[0])] + NonBlankCommands(lines[1..], clean)
  {
  }

  lemma ConversedCons(cmd: string, cmds: seq<string>, n: nat, serve: Server)
    ensures var x := serve(cmd, n); var o := Conversed(cmds, n + |x.made|, serve);
      Conversed([cmd] + cmds, n, serve) == Outcome([x.reply + Prompt] + o.sent, x.made + o.requests)
  {
    assert ([cmd] + cmds)[1..] == cmds;
  }

  /**
   * Over a handler that serves commands, a run of lines sends and asks
   * exactly what serving its commands in order does: blank lines vanish
   * without a trace, and every other line is answered once, in order.
   */
  lemma {:induction false} ConversationOfCommands(lines: seq<string>, n: nat, handle: Handler, clean: Cleaner, serve: Server)
    requires ServesCommands(handle, clean, serve)
    ensures Conversation(lines, n, handle) == Conversed(NonBlankCommands(lines, clean), n, serve)
  {
    if lines != [] {
      var cmd := clean(lines[0]);
      ServesAt(handle, clean, serve, lines[0], n);
      if cmd == [] {
        BlankLead(lines, n, handle, clean);
        ConversationOfCommands(lines[1..], n, handle, clean, serve);
      } else {
        var x := serve(cmd, n);
        CommandLead(lines, n, handle, clean, x);
        ConversationOfCommands(lines[1..], n + |x.made|, handle, clean, serve);
        ConversedCons(cmd, NonBlankCommands(lines[1..], clean), n, serve);
      }
    }
  }

  /** The planned request of one command, if it has one. */
  function PlannedRequest(cmd: string, plan: Planner): (reqs: seq<Request>)
    ensures |reqs| <= 1
  {
    if plan(cmd).HubCall? then [plan(cmd).request] else []
  }

  /** The hub requests a run of commands makes, read off their plans alone. */
  function PlannedRequests(cmds: seq<string>, plan: Planner): (reqs: seq<Request>)
    ensures |reqs| <= |cmds|
  {
    if cmds == [] then [] else PlannedRequest(cmds[0], plan) + PlannedRequests(cmds[1..], plan)
  }

  /** Serving a command asks the hub its planned request and nothing else, whatever the hub answers. */
  lemma ServeMakesPlannedRequest(plan: Planner, hub: Oracle, cmd: string, n: nat)
    ensures Serve(plan, hub)(cmd, n).made == PlannedRequest(cmd, plan)
  {
  }

  /**
   * The hub is asked, in order, exactly the requests the commands plan: its
   * answers never change what is asked next.
   */
  lemma {:induction false} ConversedRequests(cmds: seq<string>, n: nat, plan: Planner, hub: Oracle)
    ensures Conversed(cmds, n, Serve(plan, hub)).requests == PlannedRequests(cmds, plan)
  {
    if cmds != [] {
      var x := Serve(plan, hub)(cmds[0], n);
      ServeMakesPlannedRequest(plan, hub, cmds[0], n);
      ConversedRequests(cmds[1..], n + |x.made|, plan, hub);
    }
  }

  /**
   * The `k`-th reply is the `k`-th command's, served after the requests of
   * the commands before it: its hub answer is the answer to the request
   * made in its own turn.
   */
  lemma {:induction false} ConversedReply(cmds: seq<string>, n: nat, serve: Server, k: nat)
    requires k < |cmds|
    ensures Conversed(cmds, n, serve).sent[k] == serve(cmds[k], n + |Conversed(cmds[..k], n, serve).requests|).reply + Prompt
  {
    var x := serve(cmds[0], n);
    var m := n + |x.made|;
    if k == 0 {
      assert cmds[..0] == [];
    } else {
      ConversedReply(cmds[1..], m, serve, k - 1);
      assert cmds[..k][1..] == cmds[1..][..k - 1];
      var before := Conversed(cmds[1..][..k - 1], m, serve);
      assert |Conversed(cmds[..k], n, serve).requests| == |x.made| + |before.requests|;
    }
  }

  /**
   * The greeting goes out first, then, for every non-blank line received, in
   * order, exactly one reply: the `k`-th is the reply to the `k`-th command
   * served against the hub's answer to the request made in its turn. The hub
   * requests are exactly those the commands plan.
   */
  lemma TranscriptShape(chunks: seq<string>, hub: Oracle)
    ensures var cmds := NonBlankCommands(Feed("", chunks), Trim);
      var o := Conversed(cmds, 0, Serve(Plan, hub));
      && Transcript(chunks, hub).sent == [Greeting] + o.sent
      && |Transcript(chunks, hub).sent| == 1 + |cmds|
      && Transcript(chunks, hub).requests == PlannedRequests(cmds, Plan)
  {
    var cmds := NonBlankCommands(Feed("", chunks), Trim);
    RunIsConversation(Initial, chunks, Bridge(Plan, hub));
    BridgeServesCommands(Plan, hub);
    ConversationOfCommands(Feed("", chunks), 0, Bridge(Plan, hub), Trim, Serve(Plan, hub));
    ConversedRequests(cmds, 0, Plan, hub);
  }
}
