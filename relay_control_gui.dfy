/** The controller of relay_control_gui.py: the module-level relay list, the
    antenna selector, the description label and the three buttons, updated
    in place by read_status, toggle_state and select_antenna, and the button
    callbacks that run a command and then a status read. Each network round
    trip is an argument: the body the device returned, or `None` when
    connecting, sending, reading or closing raised. */
module RelayControlGui {
  import opened Wrappers
  import opened PyText
  import opened Reconcile

  class Controller {
    /** The `relay_states` list: the same three-slot list throughout, updated slot by slot. */
    const relays: array<int>
    /** `antenna_state` */
    var antenna: int
    /** Text of `relayDescriptionLabel`. */
    var description: string
    /** Background colours of the three buttons. */
    var buttons: Buttons

    ghost predicate Valid()
      reads this
    {
      relays.Length == 3
    }

    /** The controller's state as a value. */
    ghost function State(): Snapshot
      reads this, relays
      requires Valid()
    {
      Snapshot(relays[..], antenna, description, buttons)
    }

    /** Start-up: relays [0, 0, 0], antenna -1, the waiting text, all buttons red. */
    constructor ()
      ensures Valid() && fresh(relays)
      ensures State() == Initial()
    {
      relays := new int[3] [0, 0, 0];
      antenna := -1;
      description := InitialLabel;
      buttons := Buttons(Red, Red, Red);
    }

    /** read_status: GET /read with a 3-second timeout. The label first shows
        the body; lines 2 to 5 must exist; a RELAYS line assigns slots 0, 1
        and 2 one after the other; an ANTENNA line assigns the antenna; the
        buttons are then recoloured. Any exception stops the handling where
        it arose, keeps the assignments already made, and shows the error. */
    method ReadStatus(resp: Option<string>) returns (req: Request)
      requires Valid()
      modifies this, relays
      ensures Valid()
      ensures req == Request(ReadPath, ReadTimeout)
      ensures State() == AfterRead(old(State()), resp)
    {
      req := Request(ReadPath, ReadTimeout);
      if resp.None? {
        description := CommError;
        return;
      }
      ghost var before := State();
      var data := resp.value;
      ghost var reading := InterpretStatus(data);
      description := data;
      var lines := Split(data, '\n');
      if |lines| < 6 {
        description := CommError;
        assert relays[..] == Overwrite(before.relays, reading.relayWrites);
        return;
      }
      var relayData, antennaData := lines[2], lines[3];
      if Contains(relayData, "RELAYS") {
        var ok := AssignRelays(Split(relayData, ','));
        if !ok {
          description := CommError;
          return;
        }
      } else {
        assert relays[..] == Overwrite(before.relays, []);
      }
      assert relays[..] == Overwrite(before.relays, reading.relayWrites);
      if Contains(antennaData, "ANTENNA") {
        var fields := Split(antennaData, ',');
        if |fields| < 2 {
          description := CommError;
          return;
        }
        var a := ParseInt(fields[1]);
        if a.None? {
          description := CommError;
          return;
        }
        antenna := a.value;
      }
      assert reading.ok && antenna == reading.antennaWrite.GetOr(before.antenna);
      buttons := ButtonColours(antenna, relays[2]);
    }

    /** Lines 74-76 of read_status: `relay_states[k] = int(fields[k + 1])`
        for k = 0, 1, 2 in turn; a missing field or a failed conversion
        raises there, leaving the earlier slots assigned and the later ones
        untouched. `ok` is false when it raised. */
    method AssignRelays(fields: seq<string>) returns (ok: bool)
      requires Valid()
      modifies relays
      ensures ok == ParseSlots(fields, 0).ok
      ensures relays[..] == Overwrite(old(relays[..]), ParseSlots(fields, 0).writes)
    {
      assert ParseSlots(fields, 3) == RelayParse([], true);
      if |fields| < 2 {
        return false;
      }
      var v := ParseInt(fields[1]);
      if v.None? {
        return false;
      }
      relays[0] := v.value;
      if |fields| < 3 || ParseInt(fields[2]).None? {
        assert ParseSlots(fields, 0) == RelayParse([v.value], false);
        return false;
      }
      relays[1] := ParseInt(fields[2]).value;
      if |fields| < 4 || ParseInt(fields[3]).None? {
        assert ParseSlots(fields, 0) == RelayParse([v.value, ParseInt(fields[2]).value], false);
        return false;
      }
      relays[2] := ParseInt(fields[3]).value;
      assert ParseSlots(fields, 0) == RelayParse([v.value, ParseInt(fields[2]).value, ParseInt(fields[3]).value], true);
      return true;
    }

    /** toggle_state(i): reads slot i (a Python index, so -1 names slot 2),
        sends GET /relay{i}/{new} with a 1-second timeout, where new is 1 if
        the slot holds 0 and 0 otherwise, shows the body, and assigns the
        slot only if the body contains STATE. */
    method ToggleState(i: int, resp: Option<string>) returns (req: Request)
      requires Valid() && -3 <= i < 3
      modifies this, relays
      ensures Valid()
      ensures req == ToggleRequest(old(State()), i)
      ensures State() == AfterToggle(old(State()), i, resp)
    {
      var slot := Slot(i);
      var newState := Toggled(relays[slot]);
      req := Request(RelayPath(i, newState), ControlTimeout);
      if resp.None? {
        description := CommError;
        return;
      }
      var data := resp.value;
      description := data;
      if Contains(data, "STATE") {
        relays[slot] := newState;
      }
    }

    /** select_antenna(n): sends GET /antenna/{n} with a 1-second timeout and
        shows the body or the error. Its `antenna_state = antenna_number`
        binds a local of the function, so nothing else changes. */
    method SelectAntenna(n: int, resp: Option<string>) returns (req: Request)
      requires Valid()
      modifies this
      ensures Valid()
      ensures req == Request(AntennaPath(n), ControlTimeout)
      ensures State() == AfterSelect(old(State()), resp)
    {
      req := Request(AntennaPath(n), ControlTimeout);
      if resp.None? {
        description := CommError;
        return;
      }
      var data := resp.value;
      description := data;
      if Contains(data, "ANTENNA") {
        var localAntenna := n;
      }
    }

    /** antenna0btnClicked: select_antenna(0), then read_status. */
    method AntennaAClicked(selectResp: Option<string>, readResp: Option<string>) returns (reqs: seq<Request>)
      requires Valid()
      modifies this, relays
      ensures Valid()
      ensures reqs == [Request(AntennaPath(0), ControlTimeout), Request(ReadPath, ReadTimeout)]
      ensures State() == AfterRead(AfterSelect(old(State()), selectResp), readResp)
    {
      var first := SelectAntenna(0, selectResp);
      var second := ReadStatus(readResp);
      reqs := [first, second];
    }

    /** antenna1btnClicked: select_antenna(1), then read_status. */
    method AntennaBClicked(selectResp: Option<string>, readResp: Option<string>) returns (reqs: seq<Request>)
      requires Valid()
      modifies this, relays
      ensures Valid()
      ensures reqs == [Request(AntennaPath(1), ControlTimeout), Request(ReadPath, ReadTimeout)]
      ensures State() == AfterRead(AfterSelect(old(State()), selectResp), readResp)
    {
      var first := SelectAntenna(1, selectResp);
      var second := ReadStatus(readResp);
      reqs := [first, second];
    }

    /** relay2btnClicked: toggle_state(2), then read_status. */
    method SpareRelayClicked(toggleResp: Option<string>, readResp: Option<string>) returns (reqs: seq<Request>)
      requires Valid()
      modifies this, relays
      ensures Valid()
      ensures reqs == [ToggleRequest(old(State()), 2), Request(ReadPath, ReadTimeout)]
      ensures State() == AfterRead(AfterToggle(old(State()), 2, toggleResp), readResp)
    {
      var first := ToggleState(2, toggleResp);
      var second := ReadStatus(readResp);
      reqs := [first, second];
    }
  }
}
