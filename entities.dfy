/**
 * The LIST and LISTBUTTONS listings: which entity states of the hub's
 * `states` answer are kept, and how each kept entity becomes one text line.
 */
module Entities {
  import opened Optional
  import opened Hub

  /** The domains LIST reports. */
  const ControllablePrefixes: seq<string> := ["button.", "light.", "switch.", "cover.", "fan."]

  const ButtonPrefix := "button."

  /** `str.startswith(tuple)`: `s` starts with one of `prefixes`. */
  function StartsWithAny(s: string, prefixes: seq<string>): (b: bool)
    ensures b <==> exists k :: 0 <= k < |prefixes| && prefixes[k] <= s
    decreases |prefixes|
  {
    if prefixes == [] then false
    else if prefixes[0] <= s then true
    else
      var b := StartsWithAny(s, prefixes[1..]);
      assert forall k :: 0 < k < |prefixes| ==> prefixes[k] == prefixes[1..][k - 1];
      b
  }

  /** `entity.get("entity_id", "")` */
  function Id(e: EntityState): string {
    e.entityId.GetOr("")
  }

  /** `entity.get("attributes", {}).get("friendly_name", eid)` */
  function Name(e: EntityState): string {
    e.friendlyName.GetOr(Id(e))
  }

  predicate IsControllable(e: EntityState) {
    StartsWithAny(Id(e), ControllablePrefixes)
  }

  predicate IsButton(e: EntityState) {
    ButtonPrefix <= Id(e)
  }

  /** `id [state] - name`, one line of the LIST reply. */
  function EntityLine(e: EntityState): string {
    Id(e) + " [" + e.state.GetOr("") + "] - " + Name(e)
  }

  /** `id - name`, one line of the LISTBUTTONS reply. */
  function ButtonLine(e: EntityState): string {
    Id(e) + " - " + Name(e)
  }

  /** The elements of `s` that satisfy `keep`, in their order in `s`. */
  function Select(s: seq<EntityState>, keep: EntityState -> bool): (r: seq<EntityState>)
    ensures |r| <= |s|
    ensures forall e :: e in r ==> e in s && keep(e)
    decreases |s|
  {
    if s == [] then [] else (if keep(s[0]) then [s[0]] else []) + Select(s[1..], keep)
  }

  function Format(es: seq<EntityState>, line: EntityState -> string): (r: seq<string>)
    ensures |r| == |es|
  {
    seq(|es|, i requires 0 <= i < |es| => line(es[i]))
  }

  lemma FormatAppend(a: seq<EntityState>, b: seq<EntityState>, line: EntityState -> string)
    ensures Format(a + b, line) == Format(a, line) + Format(b, line)
  {
  }

  lemma SelectOne(e: EntityState, keep: EntityState -> bool)
    ensures Select([e], keep) == if keep(e) then [e] else []
  {
    assert [e][1..] == [];
  }

  /** One more entity examined: its line is appended when it passes the filter. */
  lemma Extend(states: seq<EntityState>, i: nat, keep: EntityState -> bool, line: EntityState -> string)
    requires i < |states|
    ensures Format(Select(states[..i + 1], keep), line)
         == Format(Select(states[..i], keep), line) + (if keep(states[i]) then [line(states[i])] else [])
  {
    var e := states[i];
    assert states[..i + 1] == states[..i] + [e];
    SelectAppend(states[..i], [e], keep);
    SelectOne(e, keep);
    FormatAppend(Select(states[..i], keep), Select([e], keep), line);
    assert Format([e], line) == [line(e)];
  }

  /** The lines `get_entity_list` returns for the hub's `states` answer; none unless the status is 200. */
  function EntityLines(resp: Response): seq<string> {
    if resp.status == StatusOk then Format(Select(resp.payload.entities, IsControllable), EntityLine) else []
  }

  /** The lines the LISTBUTTONS branch collects; none unless the status is 200. */
  function ButtonLines(resp: Response): seq<string> {
    if resp.status == StatusOk then Format(Select(resp.payload.entities, IsButton), ButtonLine) else []
  }

  /** Selecting from two runs of entities one after the other keeps the input order. */
  lemma {:induction false} SelectAppend(a: seq<EntityState>, b: seq<EntityState>, keep: EntityState -> bool)
    ensures Select(a + b, keep) == Select(a, keep) + Select(b, keep)
    decreases |a|
  {
    if a == [] {
      assert a + b == b;
    } else {
      assert (a + b)[1..] == a[1..] + b;
      SelectAppend(a[1..], b, keep);
    }
  }

  /** An entity is selected exactly when it is in the input and passes the filter. */
  lemma {:induction false} SelectMembers(s: seq<EntityState>, keep: EntityState -> bool, e: EntityState)
    ensures e in Select(s, keep) <==> e in s && keep(e)
    decreases |s|
  {
    if s != [] {
      SelectMembers(s[1..], keep, e);
      assert s == [s[0]] + s[1..];
    }
  }

  /** Every button is controllable, so LISTBUTTONS lists exactly the buttons among LIST's entities, in the same order. */
  lemma {:induction false} ButtonsAmongControllable(s: seq<EntityState>)
    ensures Select(s, IsButton) == Select(Select(s, IsControllable), IsButton)
    decreases |s|
  {
    if s != [] {
      ButtonsAmongControllable(s[1..]);
      var e := s[0];
      if IsButton(e) {
        assert ControllablePrefixes[0] <= Id(e);
      }
      var c := if IsControllable(e) then [e] else [];
      SelectAppend(c, Select(s[1..], IsControllable), IsButton);
    }
  }

  /**
   * For a 200 answer a line is listed exactly when it describes an entity
   * of the answer whose id has one of the five domain prefixes; any other
   * status lists nothing.
   */
  lemma EntityLinesMembers(resp: Response, line: string)
    ensures resp.status != StatusOk ==> EntityLines(resp) == []
    ensures resp.status == StatusOk ==>
      (line in EntityLines(resp) <==>
        exists e :: e in resp.payload.entities && IsControllable(e) && line == EntityLine(e))
  {
    if resp.status == StatusOk {
      var sel := Select(resp.payload.entities, IsControllable);
      forall e | e in resp.payload.entities && IsControllable(e)
        ensures EntityLine(e) in EntityLines(resp)
      {
        SelectMembers(resp.payload.entities, IsControllable, e);
        var k :| 0 <= k < |sel| && sel[k] == e;
        assert EntityLines(resp)[k] == EntityLine(e);
      }
    }
  }

  /** The same for LISTBUTTONS, whose only prefix is `button.`. */
  lemma ButtonLinesMembers(resp: Response, line: string)
    ensures resp.status != StatusOk ==> ButtonLines(resp) == []
    ensures resp.status == StatusOk ==>
      (line in ButtonLines(resp) <==>
        exists e :: e in resp.payload.entities && IsButton(e) && line == ButtonLine(e))
  {
    if resp.status == StatusOk {
      var sel := Select(resp.payload.entities, IsButton);
      forall e | e in resp.payload.entities && IsButton(e)
        ensures ButtonLine(e) in ButtonLines(resp)
      {
        SelectMembers(resp.payload.entities, IsButton, e);
        var k :| 0 <= k < |sel| && sel[k] == e;
        assert ButtonLines(resp)[k] == ButtonLine(e);
      }
    }
  }

  /** The friendly name falls back to the id, and a missing id is the empty string, which no prefix matches. */
  lemma LineDefaults(id: string, state: string)
    ensures EntityLine(EntityState(Some(id), Some(state), None)) == id + " [" + state + "] - " + id
    ensures ButtonLine(EntityState(Some(id), None, None)) == id + " - " + id
    ensures !IsControllable(EntityState(None, Some(state), None))
  {
  }

  /** `get_entity_list`: the loop that appends one line per controllable entity. */
  method GetEntityList(resp: Response) returns (result: seq<string>)
    ensures result == EntityLines(resp)
  {
    result := [];
    if resp.status == StatusOk {
      var states := resp.payload.entities;
      for i := 0 to |states|
        invariant result == Format(Select(states[..i], IsControllable), EntityLine)
      {
        var entity := states[i];
        var eid := entity.entityId.GetOr("");
        if StartsWithAny(eid, ControllablePrefixes) {
          var state := entity.state.GetOr("");
          var name := entity.friendlyName.GetOr(eid);
          var line := eid + " [" + state + "] - " + name;
          assert line == EntityLine(entity);
          result := result + [line];
        }
        Extend(states, i, IsControllable, EntityLine);
      }
      assert states[..|states|] == states;
    }
  }

  /** The LISTBUTTONS loop: one line per entity whose id starts with `button.`. */
  method CollectButtons(resp: Response) returns (buttons: seq<string>)
    ensures buttons == ButtonLines(resp)
  {
    buttons := [];
    if resp.status == StatusOk {
      var states := resp.payload.entities;
      for i := 0 to |states|
        invariant buttons == Format(Select(states[..i], IsButton), ButtonLine)
      {
        var entity := states[i];
        var eid := entity.entityId.GetOr("");
        if ButtonPrefix <= eid {
          var name := entity.friendlyName.GetOr(eid);
          buttons := buttons + [eid + " - " + name];
        }
        Extend(states, i, IsButton, ButtonLine);
      }
      assert states[..|states|] == states;
    }
  }
}
