# OCDX transfer-switch relay controller, modelled in Dafny

`relay_control_gui.py` drives an ESP8266 board that switches a 40 m antenna
between two feeds and controls a spare relay. Its logic lives in
module-level state: the three-slot list `relay_states`, the selector
`antenna_state`, the text of `relayDescriptionLabel` and the colours of
three buttons. Three functions change that state:

- `read_status` fetches `/read` and parses the plain-text body;
- `toggle_state` inverts one relay and trusts any reply containing `STATE`;
- `select_antenna` asks for an antenna path.

The button callbacks run a command and then `read_status`.

This project models that logic. Every HTTP round trip becomes an argument
of type `Option<string>`. `Some(body)` is the body the device returned.
`None` stands for any exception raised while connecting, sending, reading
or closing; Python's bare `except` catches all of them alike.

- `wrappers.dfy`, module `Wrappers`: the `Option` type.
- `py_text.dfy`, module `PyText`: the Python 2 string operations the code
  relies on, with Python's edge cases. `str.split` keeps empty pieces and
  always yields one piece more than there are separators. `t in s` tests
  for a substring anywhere, not for a prefix. `int()` on a `str` skips
  C-locale white space (blank, `\t`, `\n`, `\v`, `\f`, `\r`) around the
  number and also between the sign and the digits, so `int("- 5") == -5`
  in Python 2. `"%d" % n` formats a number.
- `reconcile.dfy`, module `Reconcile`: the controller state as a value
  (`Snapshot`) and one function per operation (`AfterRead`, `AfterToggle`,
  `AfterSelect`), plus the button-colour choice of `updateButtons`.
- `reconcile_properties.dfy`, module `ReconcileProperties`: the properties
  of those functions.
- `relay_control_gui.dfy`, module `RelayControlGui`: class `Controller`.
  Its fields are those of the module-level state. The relay list is an
  `array<int>` that the methods update slot by slot, as the Python list
  is updated. Each method is proved to leave exactly the state the
  matching `Reconcile` function gives.

Where the code and its intended design part ways, the model follows the
code:

- The `RELAYS` and `ANTENNA` markers are matched anywhere in their line,
  not only at its start.
- A reply to a relay command without `STATE` is not an error: the label
  shows the reply and the relay keeps its value.
- A failed read keeps the last antenna value; it does not reset it to -1.
- Relay values are whatever integers the device sends, not only 0 and 1.
- `select_antenna` assigns `antenna_state` without a `global` declaration.
  That assignment binds a local variable, so the module-level antenna
  never changes there. Only the next `read_status` updates it.
- When the parse of a status body fails part-way, what was already
  assigned stays: the relay slots read before the failing field, or all
  three when the antenna field fails, keep their new values while the
  label shows the error and the buttons keep their old colours. The
  displayed state is then not that of the last fully parsed response
  (`ReconcileProperties.ReadStopsAtBadRelayField`,
  `ReconcileProperties.ReadStopsAtBadAntennaField`).

## Model

| member | source | states |
|---|---|---|
| `PyText.Split` | relay_control_gui.py:68-71 | `str.split` with a one-character separator gives one piece more than there are separators, keeps empty pieces, no piece holds the separator, and joining the pieces gives the string back |
| `PyText.SplitJoin` | relay_control_gui.py:68-73 | splitting is the unique inverse of joining: pieces free of the separator come back exactly from their join |
| `PyText.Contains` | relay_control_gui.py:72-78 | `t in s` holds exactly when `t` occurs at some position of `s`, not only at its start |
| `PyText.ParseFormatInt` | relay_control_gui.py:74-79 | `int()` reads back what `%d` writes for every integer, negative ones included, also when white space such as a trailing `\r` surrounds it |
| `PyText.ParseIntExactly` | relay_control_gui.py:74-79 | `int(s)` is `v` if and only if `s` is white space, an optional `+` or `-`, white space only after a sign, at least one decimal digit and white space, denoting `v`; so leading zeros and a `+` are accepted and trailing text such as `5x` or `1.0` is refused |
| `PyText.ParseIntSpaceAfterSign` | relay_control_gui.py:74-79 | Python 2 reads `"- 5"` as -5 |
| `PyText.ParseIntPlusSign` | relay_control_gui.py:74-79 | Python 2 reads `"+7"` as 7 |
| `PyText.ParseIntLeadingZeros` | relay_control_gui.py:74-79 | Python 2 reads `"007"` as 7 |
| `PyText.ParseIntSurroundingSpace` | relay_control_gui.py:74-79 | Python 2 reads `" 12\r"` as 12, white space and a trailing carriage return included |
| `PyText.ParseIntRefuses` | relay_control_gui.py:74-79 | Python 2 refuses `"5x"`, `"1.0"`, `"--5"` and a lone `"-"` |
| `PyText.FormatInt` | relay_control_gui.py:92 | `%d` writes a minus sign exactly for negative numbers and otherwise only decimal digits, never empty, so the number never contains `/`, `,` or a line feed |
| `PyText.ParseIntNeedsDigit` | relay_control_gui.py:74-79 | `int()` raises on text with no decimal digit, the empty field included |
| `Reconcile.Initial` | relay_control_gui.py:18-39 | start-up state: relays `[0, 0, 0]`, antenna -1, the waiting label, and buttons that agree with what updateButtons gives that state |
| `Reconcile.ButtonColours` | relay_control_gui.py:43-57 | antenna 0 lights button A only, antenna 1 lights button B only, any other value (the initial -1 included) leaves both red; the spare button is green exactly when relay slot 2 is non-zero |
| `Reconcile.ParseSlots` | relay_control_gui.py:73-76 | at most one write per remaining slot, and the parse completes only after all three slots are written (the written values and the stop point are `Reconcile.ParseSlotsReads`) |
| `Reconcile.ParseSlotsReads` | relay_control_gui.py:73-76 | the value assigned to slot `from + j` is `int()` of field `from + j + 1`, in slot order; a parse that stops does so at the first missing or unreadable field, the one after those it has read |
| `Reconcile.InterpretStatus` | relay_control_gui.py:68-81 | at most three relay writes, and none unless the body has six lines and line 2 contains `RELAYS`; the antenna is written only when the body is handled to the end and line 3 then reports that value |
| `Reconcile.Overwrite` | relay_control_gui.py:74-76 | the slots assigned so far hold the new values and the remaining slots keep their old ones |
| `Reconcile.Slot` | relay_control_gui.py:88 | a Python list index from -3 to 2 names slot `i` or slot `i + 3` |
| `Reconcile.Toggled` | relay_control_gui.py:89 | the new relay value is 0 or 1, and it is 1 exactly when the current value is 0, so any non-zero value counts as on |
| `Reconcile.AfterRead` | relay_control_gui.py:60-84 | a failed round trip changes only the label, to the error; the label shows either the body or the error; the buttons are either unchanged or the colours updateButtons gives the new state (the outcomes of the individual paths are the `ReconcileProperties.Read…` lemmas below) |
| `ReconcileProperties.ReadWellFormed` | relay_control_gui.py:65-81 | a body of at least six lines whose line 2 reports three relay integers and whose line 3 reports an antenna integer sets exactly those values, shows the body and recolours the buttons from the new state |
| `ReconcileProperties.ReadWithoutRelaysMarker` | relay_control_gui.py:72-81 | a line 2 without `RELAYS` leaves the relays unchanged without an error, and line 3 is still parsed: a reported antenna value is set with the body shown and the buttons recoloured, a line without `ANTENNA` keeps the antenna, and a line with `ANTENNA` whose field 1 is missing or not an integer changes only the label, to the error |
| `ReconcileProperties.ReadWithoutAntennaMarker` | relay_control_gui.py:72-81 | a line 3 without `ANTENNA` leaves the antenna unchanged without an error, and line 2 is still parsed for the relays |
| `ReconcileProperties.ReadFailureKeepsState` | relay_control_gui.py:62-71 | a failed round trip, or a body with fewer than five line feeds, leaves relays, antenna and buttons unchanged and shows "Communication Error!" |
| `ReconcileProperties.ReadStopsAtBadRelayField` | relay_control_gui.py:73-84 | when field `k + 1` of the relay line is missing or not an integer, slots before `k` hold their new values, later slots, the antenna and the buttons keep their old ones, and the label shows the error |
| `ReconcileProperties.ReadStopsAtBadAntennaField` | relay_control_gui.py:78-84 | when the relay line reports `r` and line 3 contains `ANTENNA` but field 1 is missing or not an integer, the relays become `r` while the antenna and the buttons keep their old values and the label shows the error, so the spare button may disagree with relay slot 2 |
| `ReconcileProperties.ReadIdempotent` | relay_control_gui.py:60-84 | handling the same status response twice leaves the state that handling it once gave, partial parses included |
| `ReconcileProperties.ReadStatusBody` | relay_control_gui.py:65-81 | a body laid out as the device lays it out (two free lines, `RELAYS,r0,r1,r2`, `ANTENNA,a`, RSSI, analog) is read back as exactly `r0, r1, r2` and `a`, whatever the free lines hold |
| `Reconcile.ToggleRequest` | relay_control_gui.py:88-93 | the command has a 1-second timeout and asks for `/relay{i}/0` or `/relay{i}/1`, the latter exactly when the relay is off |
| `Reconcile.AfterToggle` | relay_control_gui.py:87-102 | toggling never changes the antenna, the buttons or another slot; the addressed slot keeps its value or takes the toggled one (exactly when, see `ReconcileProperties.ToggleEffect`) |
| `ReconcileProperties.ToggleEffect` | relay_control_gui.py:95-102 | toggling changes the addressed slot to the toggled value exactly when the reply contains `STATE`; other slots, the antenna and the buttons never change; the label shows the reply, or the error on failure |
| `ReconcileProperties.ToggleTwice` | relay_control_gui.py:88-99 | two acknowledged toggles give back a relay holding 0 or 1; any other value comes back as 1 |
| `ReconcileProperties.ToggleKeepsBinary` | relay_control_gui.py:88-99 | if every relay holds 0 or 1 before a toggle, every relay still does after it |
| `ReconcileProperties.RelayPathFields` | relay_control_gui.py:92 | the relay command path splits on `/` into `relay` followed by the index and then the value, both of which `int()` reads back |
| `ReconcileProperties.ToggleExample` | relay_control_gui.py:87-99 | toggling relay 2 from 0 with the reply "STATE SET" requests `/relay2/1` and sets the relay to 1 |
| `ReconcileProperties.ReadAfterToggle` | relay_control_gui.py:133-135 | the spare button's toggle-then-read ends where the read alone would whenever the read reports all three relays |
| `ReconcileProperties.AntennaPathFields` | relay_control_gui.py:108 | the antenna command path splits on `/` into `antenna` and the number, which `int()` reads back |
| `Reconcile.AfterSelect` | relay_control_gui.py:105-118 | selecting an antenna never changes the relays, the antenna or the buttons |
| `ReconcileProperties.SelectKeepsDeviceState` | relay_control_gui.py:105-118 | selecting an antenna changes only the label, with or without `ANTENNA` in the reply and on failure too |
| `ReconcileProperties.ReadAfterSelect` | relay_control_gui.py:121-131 | an antenna button's select-then-read ends exactly where the read alone would |
| `RelayControlGui.Controller.constructor` | relay_control_gui.py:18-39 | start-up state: relays `[0, 0, 0]`, antenna -1, label "Waiting for first update...", all three buttons red |
| `RelayControlGui.Controller.ReadStatus` | relay_control_gui.py:60-84 | requests `/read` with a 3-second timeout and leaves exactly the state `Reconcile.AfterRead` gives from the old state and the response |
| `RelayControlGui.Controller.AssignRelays` | relay_control_gui.py:73-76 | writes the relay array in place, slot by slot, with the values parsed before the first failure, and reports whether all three were written |
| `RelayControlGui.Controller.ToggleState` | relay_control_gui.py:87-102 | requests `/relay{i}/{new}` with a 1-second timeout and leaves exactly the state `Reconcile.AfterToggle` gives |
| `RelayControlGui.Controller.SelectAntenna` | relay_control_gui.py:105-118 | requests `/antenna/{n}` with a 1-second timeout and leaves exactly the state `Reconcile.AfterSelect` gives, so only the label changes |
| `RelayControlGui.Controller.AntennaAClicked` | relay_control_gui.py:121-125 | requests `/antenna/0` and then `/read`; the new state is the read applied after the select |
| `RelayControlGui.Controller.AntennaBClicked` | relay_control_gui.py:127-131 | requests `/antenna/1` and then `/read`; the new state is the read applied after the select |
| `RelayControlGui.Controller.SpareRelayClicked` | relay_control_gui.py:133-137 | requests the toggle path of relay 2 and then `/read`; the new state is the read applied after the toggle |

## Left out

- HTTP transport: the connection to the hard-coded host, sending the GET and the timeouts themselves. A round trip is its outcome (`Option<string>`), and each operation returns the `Request` (path and timeout in seconds) it would send.
- PyQt4 plumbing: widget creation, style-sheet strings, layout, the window and the event loop. The style sheets are reduced to a `Colour` per button.
- The 5-second `QTimer`: each tick calls `read_status`, which is `Controller.ReadStatus` applied to that tick's response. The timing itself is not modelled.
- Lines 4 and 5 of a status body (RSSI and analog data): the code only requires that they exist and never interprets them, and so does the model.
- `Controller.ToggleState`: an index outside -3 .. 2 makes line 88, which runs before the `try`, raise an `IndexError` that escapes `toggle_state`. The model excludes such indices by a precondition; the only caller passes 2.
- `PyText.ParseInt`: Python 2 passes magnitudes beyond the platform's C `long` to its long-integer parser. The model reads every magnitude with one rule over unbounded integers. Python 2 strings are bytes; the model works on characters, and only the C-locale white space and ASCII digits matter.
