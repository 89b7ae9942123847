/**
 * Whole command lines through `handle_command`: a line in the usual
 * `ACTION argument` shape is cleaned, split and dispatched as its words say.
 */
module Commands {
  import opened Text
  import opened Hub
  import opened Dispatcher

  /** A printable line with nothing to strip at its ends comes through the cleaning unchanged. */
  lemma CleanUntouched(line: string)
    requires line != [] && All(line, IsPrintable)
    requires !IsSpace(line[0]) && !IsSpace(line[|line| - 1])
    requires !IsEdgeJunk(line[0]) && !IsEdgeJunk(line[|line| - 1])
    ensures Clean(line) == line
  {
    assert Filter(line, IsKept) == line;
    StripKeeps(line, IsSpace);
    StripKeeps(line, IsEdgeJunk);
  }

  /**
   * A line made of an action, one space and an argument, none of them
   * unprintable and with no quote or space to strip at its ends, splits into
   * the upper-cased action and argument.
   */
  lemma CommandLineTokens(action: string, arg: string)
    requires IsWord(action) && IsWord(arg) && All(action, IsPrintable) && All(arg, IsPrintable)
    requires !IsEdgeJunk(action[0]) && !IsEdgeJunk(arg[|arg| - 1])
    ensures Tokens(action + " " + arg) == [Upper(action), Upper(arg)]
  {
    var line := action + " " + arg;
    SpacedPrintable(action, arg);
    CleanUntouched(line);
    UpperSpaced(action, arg);
    UpperWord(action);
    UpperWord(arg);
    WordsOfSpaced(Upper(action), Upper(arg));
  }

  lemma SpacedPrintable(action: string, arg: string)
    requires IsWord(action) && IsWord(arg) && All(action, IsPrintable) && All(arg, IsPrintable)
    ensures var line := action + " " + arg;
      && All(line, IsPrintable)
      && line[0] == action[0] && line[|line| - 1] == arg[|arg| - 1]
  {
    var line := action + " " + arg;
    forall i | 0 <= i < |line| ensures IsPrintable(line[i]) {
      if i < |action| {
        assert line[i] == action[i];
      } else if i > |action| {
        assert line[i] == arg[i - |action| - 1];
      }
    }
  }

  /** Proof helper, a fact about the literal `ON`: a printable word that upper-casing leaves alone. */
  lemma OnWord()
    ensures IsWord("ON") && All("ON", IsPrintable) && Upper("ON") == "ON"
  {
    assert IsUpperCase("ON");
    UpperFixedPoint("ON");
  }

  /** The line `ON <id>` splits into `ON` and the upper-cased id. */
  lemma OnLineTokens(id: string)
    requires IsWord(id) && All(id, IsPrintable) && !IsEdgeJunk(id[|id| - 1])
    ensures Tokens("ON " + id) == ["ON", Upper(id)]
  {
    OnWord();
    CommandLineTokens("ON", id);
    OnSpace(id);
  }

  /** Proof helper: how the literal `ON ` is glued to an id. */
  lemma OnSpace(id: string)
    ensures "ON" + " " + id == "ON " + id
  {
  }

  /** Routing an id does not depend on the case it was typed in. */
  lemma RoutePowerIgnoresCase(id: string)
    ensures RoutePower(Upper(id)) == RoutePower(id)
  {
    LowerOfUpper(id);
  }

  /**
   * A whole line `ON <id>` turns on the entity `RoutePower` routes the id
   * to, in whatever case the id was typed.
   */
  lemma OnLine(id: string)
    requires IsWord(id) && All(id, IsPrintable) && !IsEdgeJunk(id[|id| - 1])
    ensures var t := RoutePower(id);
      Plan("ON " + id) == HubCall(Request(Post, ServiceEndpoint(t.domain, true), Target(t.entityId)), PowerResult(t.entityId, true))
  {
    var parts := ["ON", Upper(id)];
    OnLineTokens(id);
    RoutePowerIgnoresCase(id);
    PowerCommand(parts, TransportFailure(""));
  }
}
