/**
 * Concrete lines and tokens from the bridge's documented behaviour, worked
 * through the model.
 */
module Scenarios {
  import opened Optional
  import opened Text
  import opened Numbers
  import opened Hub
  import opened Dispatcher
  import opened Commands

  /** Tokens a LEVEL command can carry, and what `int()` makes of them. */
  lemma ParseExamples()
    ensures ParseInt("50") == Some(50)
    ensures ParseInt("050") == Some(50)
    ensures ParseInt("+50") == Some(50)
    ensures ParseInt("1_00") == Some(100)
    ensures ParseInt("-1") == Some(-1)
    ensures ParseInt("101") == Some(101)
  {
    assert "050"[..2] == "05" && "05"[..1] == "0";
    assert "1_00"[..3] == "1_0" && "1_0"[..2] == "1_" && "1_"[..1] == "1";
    assert "-1"[1..] == "1";
    assert "+50"[1..] == "50" && "50"[..1] == "5";
    assert DigitsValue("5") == 5;
    assert DigitsValue("50") == 50;
    assert "101"[..2] == "10" && "10"[..1] == "1";
  }

  lemma ParseRejects()
    ensures ParseInt("") == None
    ensures ParseInt("-") == None
    ensures ParseInt("1__0") == None
    ensures ParseInt("_1") == None
    ensures ParseInt("5O") == None
  {
    assert !IsDigitRun("1__0") by { assert "1__0"[1] == '_' && "1__0"[2] == '_'; }
    assert !IsDigit('O');
    assert !IsDigitRun("5O") by { assert "5O"[1] == 'O'; }
  }

  lemma BrightnessExamples()
    ensures Brightness(0) == 0 && Brightness(50) == 127 && Brightness(100) == 255
  {
  }

  /** `-1` and `101` are integers but out of range; `5O` is no integer; `050` and `+50` are fine. */
  lemma LevelTokenExamples()
    ensures !IsLevel("-1") && !IsLevel("101") && !IsLevel("5O") && !IsLevel("")
    ensures IsLevel("50") && IsLevel("050") && IsLevel("+50") && IsLevel("1_00")
  {
    ParseExamples();
  }

  /** `PRESS kitchen_button` and `PRESS button.x`, after upper-casing. */
  lemma PressExamples()
    ensures PressId("KITCHEN_BUTTON") == "button.kitchen_button"
    ensures PressId("BUTTON.X") == "button.x"
  {
    LowerWord("KITCHEN_BUTTON", "kitchen_button");
    assert "kitchen_button"[0] != "button."[0];
    assert "button." + "kitchen_button" == "button.kitchen_button";
    LowerWord("BUTTON.X", "button.x");
  }

  /** `ON kitchen` turns on the light `light.kitchen`. */
  lemma BareIdIsLight()
    ensures RoutePower("KITCHEN") == PowerTarget("light.kitchen", Light)
  {
    LowerWord("KITCHEN", "kitchen");
    assert "kitchen"[0] != "light."[0];
    assert '.' !in "kitchen";
    assert "light." + "kitchen" == "light.kitchen";
  }

  /** `ON switch.fan1` uses the switch service. */
  lemma SwitchIdIsSwitch()
    ensures RoutePower("SWITCH.FAN1") == PowerTarget("switch.fan1", Switch)
  {
    LowerWord("SWITCH.FAN1", "switch.fan1");
    assert "switch.fan1"[0] != "light."[0];
    assert "switch.fan1"[6] == '.';
    assert "switch." == "switch.fan1"[..7];
  }

  /** `OFF cover.blind1` uses the generic `homeassistant` service. */
  lemma OtherIdIsGeneric()
    ensures RoutePower("COVER.BLIND1") == PowerTarget("cover.blind1", HomeAssistant)
  {
    LowerWord("COVER.BLIND1", "cover.blind1");
    assert "cover.blind1"[0] != "light."[0] && "cover.blind1"[0] != "switch."[0];
    assert "cover.blind1"[5] == '.';
  }

  /** The power services: `light`, `switch` or the generic `homeassistant` domain, `turn_on` or `turn_off`. */
  lemma EndpointExamples()
    ensures ServiceEndpoint(Light, true) == "services/light/turn_on"
    ensures ServiceEndpoint(HomeAssistant, false) == "services/homeassistant/turn_off"
  {
  }

  /** `LEVEL switch.x 50` still targets the light domain. */
  lemma LevelIdExample()
    ensures LevelId("SWITCH.X") == "light.switch.x"
  {
    LowerWord("SWITCH.X", "switch.x");
    assert "switch.x"[0] != "light."[0];
    assert "light." + "switch.x" == "light.switch.x";
  }

  /** `FOO` gets the unknown-command text quoting `FOO`. */
  lemma UnknownExample()
    ensures Dispatch(["FOO"]) == Immediate(UnknownReply("FOO"))
  {
    assert "FOO"[0] != "OFF"[0];
    assert "FOO" !in Actions;
    UnknownCommand("FOO", []);
    assert ["FOO"] + [] == ["FOO"];
  }

  /** The whole line `ON kitchen` asks the light service to turn on `light.kitchen`. */
  lemma OnKitchenPlan()
    ensures Plan("ON kitchen") == HubCall(Request(Post, "services/light/turn_on", Target("light.kitchen")), PowerResult("light.kitchen", true))
  {
    KitchenWord();
    OnLine("kitchen");
    KitchenRoute();
    EndpointExamples();
    KitchenLine();
  }

  /** Proof helper: the literal line `ON kitchen`, glued from its parts. */
  lemma KitchenLine()
    ensures "ON " + "kitchen" == "ON kitchen"
  {
  }

  /** Proof helper: facts about the literal `kitchen`. */
  lemma KitchenWord()
    ensures IsWord("kitchen") && All("kitchen", IsPrintable) && !IsEdgeJunk("kitchen"[6])
  {
  }

  /** A bare lower-case id goes to the light domain. */
  lemma KitchenRoute()
    ensures RoutePower("kitchen") == PowerTarget("light.kitchen", Light)
  {
    assert IsLowerCase("kitchen");
    LowerFixedPoint("kitchen");
    assert "kitchen"[0] != "light."[0];
    assert '.' !in "kitchen";
  }
}
