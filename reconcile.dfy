/** The state the relay controller keeps about the remote transfer switch
    (three relay slots, the antenna selector, the diagnostic label and the
    colours of the three buttons) as a value, and what each operation of
    relay_control_gui.py does to that value once the network round trip is
    replaced by its outcome: `Some(body)` for a response body, `None` for any
    exception raised while connecting, sending, reading or closing. */
module Reconcile {
  import opened Wrappers
  import opened PyText

  /** Text shown whenever a round trip or the parse of its body raised. */
  const CommError: string := "Communication Error!"
  /** Text of the label before the first status read. */
  const InitialLabel: string := "Waiting for first update..."

  const ReadPath: string := "/read"
  /** Timeout, in seconds, of the status read. */
  const ReadTimeout: nat := 3
  /** Timeout, in seconds, of a relay or antenna command. */
  const ControlTimeout: nat := 1

  /** An HTTP GET the controller issues to the device. */
  datatype Request = Request(path: string, timeoutSeconds: nat)

  datatype Colour = Red | Green

  /** Background colours of the "Antenna A", "Antenna B" and "Spare Relay" buttons. */
  datatype Buttons = Buttons(antennaA: Colour, antennaB: Colour, spare: Colour)

  /** The relay list always has exactly three slots; the values are whatever
      integers the device reported, not only 0 and 1. */
  type Relays = r: seq<int> | |r| == 3 witness [0, 0, 0]

  datatype Snapshot = Snapshot(relays: Relays, antenna: int, description: string, buttons: Buttons)

  /** State at start-up: relays [0, 0, 0], antenna -1, all buttons red, which
      are the colours updateButtons gives that state. */
  function Initial(): (s: Snapshot)
    ensures s.relays == [0, 0, 0] && s.antenna == -1 && s.description == InitialLabel
    ensures s.buttons == ButtonColours(s.antenna, s.relays[2])
  {
    Snapshot([0, 0, 0], -1, InitialLabel, Buttons(Red, Red, Red))
  }

  // ---------------------------------------------------------------------------
  // updateButtons
  // ---------------------------------------------------------------------------

  /** Colours chosen by updateButtons: antenna 0 lights A, antenna 1 lights B,
      any other value (the initial -1 included) leaves both red; the spare
      button is green exactly when relay slot 2 is non-zero. */
  function ButtonColours(antenna: int, spare: int): (b: Buttons)
    ensures b.antennaA == Green <==> antenna == 0
    ensures b.antennaB == Green <==> antenna == 1
    ensures b.spare == Green <==> spare != 0
  {
    var spareColour := if spare == 0 then Red else Green;
    if antenna == 0 then Buttons(Green, Red, spareColour)
    else if antenna == 1 then Buttons(Red, Green, spareColour)
    else Buttons(Red, Red, spareColour)
  }

  // ---------------------------------------------------------------------------
  // read_status
  // ---------------------------------------------------------------------------

  /** Values assigned to the relay slots, in slot order, before the parse of
      the RELAYS line stopped; `ok` is false when it stopped on an exception. */
  datatype RelayParse = RelayParse(writes: seq<int>, ok: bool)

  /** Assigns `int(fields[k + 1])` to slot k, for k = `from`, …, 2 in turn,
      stopping at the first missing field or failed conversion. */
  function ParseSlots(fields: seq<string>, from: nat): (p: RelayParse)
    requires from <= 3
    ensures |p.writes| <= 3 - from
    ensures p.ok ==> |p.writes| == 3 - from
    ensures !p.ok ==> from + |p.writes| < 3
    decreases 3 - from
  {
    if from == 3 then RelayParse([], true)
    else if |fields| <= from + 1 then RelayParse([], false)
    else
      var v := ParseInt(fields[from + 1]);
      if v.None? then RelayParse([], false)
      else
        var rest := ParseSlots(fields, from + 1);
        RelayParse([v.value] + rest.writes, rest.ok)
  }

  /** Slot `from + j` is assigned `int()` of field `from + j + 1`, and a
      parse that stops does so at the first missing or unreadable field: the
      one after the fields it has read. */
  lemma {:induction false} ParseSlotsReads(fields: seq<string>, from: nat)
    requires from <= 3
    ensures var p := ParseSlots(fields, from);
      (forall j :: 0 <= j < |p.writes| ==>
        from + 1 + j < |fields| && ParseInt(fields[from + 1 + j]) == Some(p.writes[j])) &&
      (!p.ok ==> |fields| <= from + |p.writes| + 1 || ParseInt(fields[from + |p.writes| + 1]).None?)
    decreases 3 - from
  {
    if from < 3 && |fields| > from + 1 && ParseInt(fields[from + 1]).Some? {
      ParseSlotsReads(fields, from + 1);
      var rest := ParseSlots(fields, from + 1);
      var p := ParseSlots(fields, from);
      assert p == RelayParse([ParseInt(fields[from + 1]).value] + rest.writes, rest.ok);
      forall j | 0 < j < |p.writes|
        ensures from + 1 + j < |fields| && ParseInt(fields[from + 1 + j]) == Some(p.writes[j])
      {
        assert p.writes[j] == rest.writes[j - 1];
        assert from + 1 + j == from + 1 + 1 + (j - 1);
      }
    }
  }

  /** Everything read_status assigns while handling one body: the relay slot
      values in order, the antenna value if it got that far, and whether the
      handling ran to the end without an exception. */
  datatype Reading = Reading(relayWrites: seq<int>, antennaWrite: Option<int>, ok: bool)

  /** The parse of a /read body: lines 2 to 5 must exist; line 2 updates the
      relays only if it contains RELAYS somewhere, line 3 updates the antenna
      only if it contains ANTENNA somewhere; lines 4 and 5 are not looked at. */
  function InterpretStatus(data: string): (r: Reading)
    ensures |r.relayWrites| <= 3
    ensures r.antennaWrite.Some? ==> r.ok
    ensures r.relayWrites != [] ==>
      var lines := Split(data, '\n'); |lines| >= 6 && Contains(lines[2], "RELAYS")
    ensures r.antennaWrite.Some? ==>
      var lines := Split(data, '\n'); |lines| >= 6 && AntennaLineReports(lines[3], r.antennaWrite.value)
  {
    var lines := Split(data, '\n');
    if |lines| < 6 then Reading([], None, false)
    else
      var relay := if Contains(lines[2], "RELAYS") then ParseSlots(Split(lines[2], ','), 0)
                   else RelayParse([], true);
      if !relay.ok then Reading(relay.writes, None, false)
      else if !Contains(lines[3], "ANTENNA") then Reading(relay.writes, None, true)
      else
        var fields := Split(lines[3], ',');
        var a := if |fields| < 2 then None else ParseInt(fields[1]);
        Reading(relay.writes, a, a.Some?)
  }

  /** The first |writes| slots take the written values, the others keep theirs. */
  function Overwrite(relays: Relays, writes: seq<int>): (r: Relays)
    requires |writes| <= 3
    ensures forall k :: 0 <= k < |writes| ==> r[k] == writes[k]
    ensures forall k :: |writes| <= k < 3 ==> r[k] == relays[k]
  {
    writes + relays[|writes|..]
  }

  /** State after read_status. The label shows the body unless the handling
      raised; the buttons are recoloured only when it did not. */
  function AfterRead(s: Snapshot, resp: Option<string>): (t: Snapshot)
    ensures resp.None? ==> t == s.(description := CommError)
    ensures t.description == CommError || (resp.Some? && t.description == resp.value)
    ensures t.buttons == s.buttons || t.buttons == ButtonColours(t.antenna, t.relays[2])
  {
    match resp
    case None => s.(description := CommError)
    case Some(data) =>
      var r := InterpretStatus(data);
      var relays := Overwrite(s.relays, r.relayWrites);
      var antenna := r.antennaWrite.GetOr(s.antenna);
      if r.ok then Snapshot(relays, antenna, data, ButtonColours(antenna, relays[2]))
      else Snapshot(relays, antenna, CommError, s.buttons)
  }

  /** `line` carries the RELAYS marker and three integer fields after it,
      reporting the relay values `r`. */
  predicate RelayLineReports(line: string, r: Relays) {
    Contains(line, "RELAYS") &&
    var fields := Split(line, ',');
    |fields| >= 4 &&
    ParseInt(fields[1]) == Some(r[0]) && ParseInt(fields[2]) == Some(r[1]) && ParseInt(fields[3]) == Some(r[2])
  }

  /** `line` carries the ANTENNA marker and an integer field after it,
      reporting the antenna value `a`. */
  predicate AntennaLineReports(line: string, a: int) {
    Contains(line, "ANTENNA") &&
    var fields := Split(line, ',');
    |fields| >= 2 && ParseInt(fields[1]) == Some(a)
  }

  // ---------------------------------------------------------------------------
  // toggle_state and select_antenna
  // ---------------------------------------------------------------------------

  /** The slot a Python list index in -3 .. 2 designates. */
  function Slot(i: int): (k: nat)
    requires -3 <= i < 3
    ensures k < 3 && (k == i || k == i + 3)
  {
    if i < 0 then i + 3 else i
  }

  /** `0 if cur else 1`: any non-zero value counts as on. */
  function Toggled(cur: int): (v: int)
    ensures v == 0 || v == 1
    ensures v == 1 <==> cur == 0
  {
    if cur != 0 then 0 else 1
  }

  /** `"/relay%d/%d" % (i, v)`. */
  function RelayPath(i: int, v: int): string {
    "/relay" + FormatInt(i) + "/" + FormatInt(v)
  }

  /** `"/antenna/%d" % n`. */
  function AntennaPath(n: int): string {
    "/antenna/" + FormatInt(n)
  }

  /** The command toggle_state(i) sends from state `s`: it asks for 1
      exactly when the relay is off, and for 0 otherwise. */
  function ToggleRequest(s: Snapshot, i: int): (q: Request)
    requires -3 <= i < 3
    ensures q.timeoutSeconds == ControlTimeout
    ensures q.path == RelayPath(i, 0) || q.path == RelayPath(i, 1)
    ensures q.path == RelayPath(i, 1) <==> s.relays[Slot(i)] == 0
  {
    var off, on := RelayPath(i, 0), RelayPath(i, 1);
    assert off[|off| - 1] == '0' && on[|on| - 1] == '1';
    Request(RelayPath(i, Toggled(s.relays[Slot(i)])), ControlTimeout)
  }

  /** State after toggle_state(i): the label shows the body (or the error);
      slot i takes the toggled value only if the body contains STATE. */
  function AfterToggle(s: Snapshot, i: int, resp: Option<string>): (t: Snapshot)
    requires -3 <= i < 3
    ensures t.antenna == s.antenna && t.buttons == s.buttons
    ensures forall k :: 0 <= k < 3 && k != Slot(i) ==> t.relays[k] == s.relays[k]
    ensures t.relays[Slot(i)] == s.relays[Slot(i)] || t.relays[Slot(i)] == Toggled(s.relays[Slot(i)])
  {
    match resp
    case None => s.(description := CommError)
    case Some(data) =>
      if Contains(data, "STATE") then s.(relays := s.relays[Slot(i) := Toggled(s.relays[Slot(i)])], description := data)
      else s.(description := data)
  }

  /** State after select_antenna(n), for any n: only the label changes. The
      function assigns `antenna_state` without a `global` declaration, so the
      assignment binds a local and the module-level antenna is untouched. */
  function AfterSelect(s: Snapshot, resp: Option<string>): (t: Snapshot)
    ensures t.relays == s.relays && t.antenna == s.antenna && t.buttons == s.buttons
  {
    match resp
    case None => s.(description := CommError)
    case Some(data) => s.(description := data)
  }
}
