/** What read_status, toggle_state, select_antenna and the click handlers
    guarantee about the controller's state, proved about the value-level
    definitions in Reconcile. */
module ReconcileProperties {
  import opened Wrappers
  import opened PyText
  import opened Reconcile

  // ---------------------------------------------------------------------------
  // read_status
  // ---------------------------------------------------------------------------

  /** The relay line reporting `r` is parsed into exactly `r`. */
  lemma ParseReportedSlots(line: string, r: Relays)
    requires RelayLineReports(line, r)
    ensures ParseSlots(Split(line, ','), 0) == RelayParse(r, true)
  {
    var fields := Split(line, ',');
    var p := ParseSlots(fields, 0);
    ParseSlotsReads(fields, 0);
    assert forall j :: 0 <= j < 3 ==> ParseInt(fields[j + 1]) == Some(r[j]);
    assert p.ok;
    assert p.writes == r;
  }

  /** A body of at least six lines whose line 2 reports relays `r` and whose
      line 3 reports antenna `a` sets the relays to `r` and the antenna to
      `a`, shows the body, and recolours the buttons from the new state. */
  lemma ReadWellFormed(s: Snapshot, data: string, r: Relays, a: int)
    requires var lines := Split(data, '\n');
      |lines| >= 6 && RelayLineReports(lines[2], r) && AntennaLineReports(lines[3], a)
    ensures AfterRead(s, Some(data)) == Snapshot(r, a, data, ButtonColours(a, r[2]))
  {
    ParseReportedSlots(Split(data, '\n')[2], r);
  }

  /** Line 2 without the RELAYS marker anywhere leaves the relays as they
      were and raises nothing; the antenna line is still handled, and a
      field 1 it cannot read raises, so only the label changes, to the error. */
  lemma ReadWithoutRelaysMarker(s: Snapshot, data: string, a: int)
    requires var lines := Split(data, '\n');
      |lines| >= 6 && !Contains(lines[2], "RELAYS")
    ensures AfterRead(s, Some(data)).relays == s.relays
    ensures AntennaLineReports(Split(data, '\n')[3], a) ==>
      AfterRead(s, Some(data)) == Snapshot(s.relays, a, data, ButtonColours(a, s.relays[2]))
    ensures !Contains(Split(data, '\n')[3], "ANTENNA") ==>
      AfterRead(s, Some(data)) == s.(description := data, buttons := ButtonColours(s.antenna, s.relays[2]))
    ensures var line := Split(data, '\n')[3]; var f := Split(line, ',');
      Contains(line, "ANTENNA") && (|f| < 2 || ParseInt(f[1]).None?) ==>
        AfterRead(s, Some(data)) == s.(description := CommError)
  {
  }

  /** Line 3 without the ANTENNA marker anywhere leaves the antenna as it
      was and raises nothing, and the relay line is still handled. */
  lemma ReadWithoutAntennaMarker(s: Snapshot, data: string, r: Relays)
    requires var lines := Split(data, '\n');
      |lines| >= 6 && !Contains(lines[3], "ANTENNA")
    ensures AfterRead(s, Some(data)).antenna == s.antenna
    ensures RelayLineReports(Split(data, '\n')[2], r) ==>
      AfterRead(s, Some(data)) == Snapshot(r, s.antenna, data, ButtonColours(s.antenna, r[2]))
  {
    if RelayLineReports(Split(data, '\n')[2], r) {
      ParseReportedSlots(Split(data, '\n')[2], r);
    }
  }

  /** A failed round trip, or a body with fewer than five line feeds (so
      that line 5 does not exist), changes nothing but the label, which
      shows the communication error. */
  lemma ReadFailureKeepsState(s: Snapshot, resp: Option<string>)
    requires resp.None? || Count(resp.value, '\n') < 5
    ensures AfterRead(s, resp) == s.(description := CommError)
  {
  }

  /** When the parse stops at relay slot `k` (field k + 1 missing or not an
      integer) after slots 0 .. k - 1 were read as `done`, exactly those
      slots have their new values: later slots and the antenna keep theirs,
      the buttons are not recoloured and the label shows the error. */
  lemma ReadStopsAtBadRelayField(s: Snapshot, data: string, k: nat, done: seq<int>)
    requires k < 3 && |done| == k
    requires var lines := Split(data, '\n');
      |lines| >= 6 && Contains(lines[2], "RELAYS") &&
      var fields := Split(lines[2], ',');
      (forall j :: 0 <= j < k ==> FieldReads(fields, j + 1, done[j])) &&
      (|fields| <= k + 1 || ParseInt(fields[k + 1]).None?)
    ensures AfterRead(s, Some(data)) == Snapshot(done + s.relays[k..], s.antenna, CommError, s.buttons)
  {
    var fields := Split(Split(data, '\n')[2], ',');
    SlotsStopAt(fields, 0, k, done);
    assert done[0..] == done;
  }

  /** When the relay line reports `r` but the antenna line, which carries the
      ANTENNA marker, has no readable field 1, all three relays have their
      new values while the antenna and the buttons keep theirs and the label
      shows the error: the spare button's colour may then disagree with
      relay slot 2 until the next successful read. */
  lemma ReadStopsAtBadAntennaField(s: Snapshot, data: string, r: Relays)
    requires var lines := Split(data, '\n');
      |lines| >= 6 && RelayLineReports(lines[2], r) && Contains(lines[3], "ANTENNA") &&
      var fields := Split(lines[3], ',');
      |fields| < 2 || ParseInt(fields[1]).None?
    ensures AfterRead(s, Some(data)) == Snapshot(r, s.antenna, CommError, s.buttons)
  {
    ParseReportedSlots(Split(data, '\n')[2], r);
  }

  /** Field `i` exists and `int()` reads it as `v`. */
  predicate FieldReads(fields: seq<string>, i: nat, v: int) {
    i < |fields| && ParseInt(fields[i]) == Some(v)
  }

  /** ParseSlots from slot `from` stops at slot `k` having read `done[from..]`. */
  lemma {:induction false} SlotsStopAt(fields: seq<string>, from: nat, k: nat, done: seq<int>)
    requires from <= k < 3 && |done| == k
    requires forall j :: from <= j < k ==> FieldReads(fields, j + 1, done[j])
    requires |fields| <= k + 1 || ParseInt(fields[k + 1]).None?
    ensures ParseSlots(fields, from) == RelayParse(done[from..], false)
    decreases k - from
  {
    if from < k {
      SlotsStopAt(fields, from + 1, k, done);
      assert done[from..] == [done[from]] + done[from + 1..];
    }
  }

  /** Reading the same response twice leaves the state reading it once gave:
      a partial parse redoes the same slot writes and stops at the same place. */
  lemma ReadIdempotent(s: Snapshot, resp: Option<string>)
    ensures AfterRead(AfterRead(s, resp), resp) == AfterRead(s, resp)
  {
  }

  // ---------------------------------------------------------------------------
  // The /read body the device sends, and reading it back
  // ---------------------------------------------------------------------------

  /** "RELAYS,<r0>,<r1>,<r2>" */
  function RelaysLine(r: Relays): string {
    Join(["RELAYS", FormatInt(r[0]), FormatInt(r[1]), FormatInt(r[2])], ',')
  }

  /** "ANTENNA,<a>" */
  function AntennaLine(a: int): string {
    Join(["ANTENNA", FormatInt(a)], ',')
  }

  /** A /read body as the device lays it out: two free-text lines, the relay
      line, the antenna line, the RSSI line and the analog line. */
  function StatusBody(head0: string, head1: string, r: Relays, a: int, rssi: string, analog: string): string {
    Join([head0, head1, RelaysLine(r), AntennaLine(a), rssi, analog], '\n')
  }

  /** A formatted number holds neither a comma nor a line feed. */
  lemma FormatIntPlain(n: int)
    ensures ',' !in FormatInt(n) && '\n' !in FormatInt(n)
  {
  }

  /** The relay line built from `r` has no line feed and splits on commas
      into the marker and the three formatted values. */
  lemma RelaysLineFields(r: Relays)
    ensures '\n' !in RelaysLine(r)
    ensures Split(RelaysLine(r), ',') == ["RELAYS", FormatInt(r[0]), FormatInt(r[1]), FormatInt(r[2])]
  {
    FormatIntPlain(r[0]);
    FormatIntPlain(r[1]);
    FormatIntPlain(r[2]);
    var fields := ["RELAYS", FormatInt(r[0]), FormatInt(r[1]), FormatInt(r[2])];
    JoinAvoids(fields, ',', '\n');
    SplitJoin(fields, ',');
  }

  /** `int()` reads a formatted number back. */
  lemma ParseFormatted(n: int)
    ensures ParseInt(FormatInt(n)) == Some(n)
  {
    ParseFormatInt(n, [], []);
    assert [] + FormatInt(n) + [] == FormatInt(n);
  }

  /** The relay line built from `r` has no line feed and reports `r`. */
  lemma RelaysLineReports(r: Relays)
    ensures '\n' !in RelaysLine(r) && RelayLineReports(RelaysLine(r), r)
  {
    RelaysLineFields(r);
    ParseFormatted(r[0]);
    ParseFormatted(r[1]);
    ParseFormatted(r[2]);
    var line := RelaysLine(r);
    assert line == "RELAYS" + line[6..];
    ContainsPrefix("RELAYS", line[6..]);
  }

  /** The antenna line built from `a` has no line feed and reports `a`. */
  lemma AntennaLineReportsValue(a: int)
    ensures '\n' !in AntennaLine(a) && AntennaLineReports(AntennaLine(a), a)
  {
    FormatIntPlain(a);
    var fields := ["ANTENNA", FormatInt(a)];
    JoinAvoids(fields, ',', '\n');
    SplitJoin(fields, ',');
    ParseFormatted(a);
    var line := AntennaLine(a);
    assert line == "ANTENNA" + line[7..];
    ContainsPrefix("ANTENNA", line[7..]);
  }

  /** Reading a device body back gives exactly the relay and antenna values
      it was built from, whatever the free-text lines say. */
  lemma ReadStatusBody(s: Snapshot, head0: string, head1: string, r: Relays, a: int, rssi: string, analog: string)
    requires '\n' !in head0 && '\n' !in head1 && '\n' !in rssi && '\n' !in analog
    ensures var data := StatusBody(head0, head1, r, a, rssi, analog);
      AfterRead(s, Some(data)) == Snapshot(r, a, data, ButtonColours(a, r[2]))
  {
    RelaysLineReports(r);
    AntennaLineReportsValue(a);
    StatusBodyLines(head0, head1, r, a, rssi, analog);
    ReadWellFormed(s, StatusBody(head0, head1, r, a, rssi, analog), r, a);
  }

  /** A device body splits on line feeds into exactly its six lines. */
  lemma StatusBodyLines(head0: string, head1: string, r: Relays, a: int, rssi: string, analog: string)
    requires '\n' !in head0 && '\n' !in head1 && '\n' !in rssi && '\n' !in analog
    requires '\n' !in RelaysLine(r) && '\n' !in AntennaLine(a)
    ensures Split(StatusBody(head0, head1, r, a, rssi, analog), '\n') == [head0, head1, RelaysLine(r), AntennaLine(a), rssi, analog]
  {
    SplitJoin([head0, head1, RelaysLine(r), AntennaLine(a), rssi, analog], '\n');
  }

  // ---------------------------------------------------------------------------
  // toggle_state
  // ---------------------------------------------------------------------------

  /** toggle_state(i) can change slot i and the label only. Slot i takes the
      toggled value exactly when a body came back containing STATE; the label
      shows that body, STATE or not, and the error text when the round trip
      failed. */
  lemma ToggleEffect(s: Snapshot, i: int, resp: Option<string>)
    requires -3 <= i < 3
    ensures var t := AfterToggle(s, i, resp);
      t.antenna == s.antenna && t.buttons == s.buttons &&
      (forall j :: 0 <= j < 3 && j != Slot(i) ==> t.relays[j] == s.relays[j]) &&
      t.relays[Slot(i)] == (if resp.Some? && Contains(resp.value, "STATE") then Toggled(s.relays[Slot(i)]) else s.relays[Slot(i)]) &&
      t.description == (if resp.None? then CommError else resp.value)
  {
  }

  /** Two acknowledged toggles of the same relay give back its value when it
      was 0 or 1; any other non-zero value comes back as 1. */
  lemma ToggleTwice(s: Snapshot, i: int, first: string, second: string)
    requires -3 <= i < 3
    requires Contains(first, "STATE") && Contains(second, "STATE")
    ensures var t := AfterToggle(AfterToggle(s, i, Some(first)), i, Some(second));
      t.relays[Slot(i)] == (if s.relays[Slot(i)] == 0 then 0 else 1) &&
      (s.relays[Slot(i)] == 0 || s.relays[Slot(i)] == 1 ==> t.relays == s.relays)
  {
  }

  /** Every relay slot holds 0 or 1. */
  predicate Binary(r: Relays) {
    forall k :: 0 <= k < 3 ==> r[k] == 0 || r[k] == 1
  }

  /** toggle_state keeps relays that all hold 0 or 1 that way. */
  lemma ToggleKeepsBinary(s: Snapshot, i: int, resp: Option<string>)
    requires -3 <= i < 3 && Binary(s.relays)
    ensures Binary(AfterToggle(s, i, resp).relays)
  {
  }

  /** The path toggle_state sends names the relay and the value
      unambiguously: split on '/', its second piece is "relay" followed by
      the index and its third is the value, each read back by `int()`. */
  lemma RelayPathFields(i: int, v: int)
    ensures Split(RelayPath(i, v), '/') == ["", "relay" + FormatInt(i), FormatInt(v)]
    ensures ParseInt(("relay" + FormatInt(i))[5..]) == Some(i)
    ensures ParseInt(FormatInt(v)) == Some(v)
  {
    var pieces := ["", "relay" + FormatInt(i), FormatInt(v)];
    assert '/' !in "relay" + FormatInt(i);
    SplitJoin(pieces, '/');
    RelayPathJoin(i, v);
    assert ("relay" + FormatInt(i))[5..] == FormatInt(i);
    ParseFormatted(i);
    ParseFormatted(v);
  }

  /** The relay path is the join of its pieces on '/'. */
  lemma RelayPathJoin(i: int, v: int)
    ensures Join(["", "relay" + FormatInt(i), FormatInt(v)], '/') == RelayPath(i, v)
  {
    var pieces := ["", "relay" + FormatInt(i), FormatInt(v)];
    assert pieces[1..][1..] == [FormatInt(v)];
    assert Join(pieces[1..], '/') == "relay" + FormatInt(i) + "/" + FormatInt(v);
  }

  /** A read that reports all three relays wipes out what a preceding toggle
      did: the click handler's toggle-then-read ends where the read alone
      would. */
  lemma ReadAfterToggle(s: Snapshot, i: int, toggleResp: Option<string>, data: string, r: Relays)
    requires -3 <= i < 3
    requires var lines := Split(data, '\n'); |lines| >= 6 && RelayLineReports(lines[2], r)
    ensures AfterRead(AfterToggle(s, i, toggleResp), Some(data)) == AfterRead(s, Some(data))
  {
    ParseReportedSlots(Split(data, '\n')[2], r);
  }

  /** toggle_state(2) on a relay at 0 with the reply "STATE SET" asks for
      /relay2/1 and switches the relay on. */
  lemma ToggleExample(s: Snapshot)
    requires s.relays[2] == 0
    ensures ToggleRequest(s, 2).path == "/relay2/1"
    ensures AfterToggle(s, 2, Some("STATE SET")).relays[2] == 1
  {
  }

  // ---------------------------------------------------------------------------
  // select_antenna
  // ---------------------------------------------------------------------------

  /** The path select_antenna sends splits on '/' into "antenna" and the
      number, which `int()` reads back. */
  lemma AntennaPathFields(n: int)
    ensures Split(AntennaPath(n), '/') == ["", "antenna", FormatInt(n)]
    ensures ParseInt(FormatInt(n)) == Some(n)
  {
    var pieces := ["", "antenna", FormatInt(n)];
    SplitJoin(pieces, '/');
    assert pieces[1..][1..] == [FormatInt(n)];
    assert Join(pieces[1..], '/') == "antenna/" + FormatInt(n);
    assert Join(pieces, '/') == AntennaPath(n);
    ParseFormatted(n);
  }

  /** select_antenna changes only the label, whether or not the reply
      contains ANTENNA, and whether or not the round trip failed. */
  lemma SelectKeepsDeviceState(s: Snapshot, resp: Option<string>)
    ensures var t := AfterSelect(s, resp);
      t.relays == s.relays && t.antenna == s.antenna && t.buttons == s.buttons &&
      t.description == (if resp.None? then CommError else resp.value)
  {
  }

  /** Since read_status overwrites the label in every case, an antenna
      button's select-then-read ends exactly where the read alone would. */
  lemma ReadAfterSelect(s: Snapshot, selectResp: Option<string>, readResp: Option<string>)
    ensures AfterRead(AfterSelect(s, selectResp), readResp) == AfterRead(s, readResp)
  {
  }
}
