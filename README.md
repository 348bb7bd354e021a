# InVesalius neuronavigation markers, modelled in Dafny

This project models the marker store of InVesalius's neuronavigation panel
(`invesalius/gui/task_navigator.py`) and proves properties of the model. It also
models the marker file format and three small rules of the navigation panel.

- **The `Marker` record** (`marker.dfy`, module `Markers`): the 17 dataclass fields, in
  declaration order, with the grouped accessors and `to_dict`. Every `float` field is a
  `Scalar`, either Python's `None` (`Unset`) or a number.
- **The marker file format** (`marker_codec.dfy`, module `MarkerCodec`):
  - `to_string_headers`, `to_string` and `from_string`;
  - the magic line `OnSaveMarkers` writes and `OnLoadMarkers` checks.

  The main property is the round trip: reading back a line that `to_string` wrote gives the
  same marker. The reader as written breaks this for `session_id` (see Findings).
- **The marker list as a value** (`marker_list.dfy`, module `MarkerList`):
  - the invariant that at most one marker is the target;
  - `__find_target_marker`, `__get_brain_target_markers` and `__set_marker_as_target`;
  - deleting by position, highest position first;
  - the row search by label in `OnDeleteMultipleMarkers`.
- **Marker creation and the two loaders** (`marker_load.dfy`, module `MarkerLoad`):
  - `CreateMarker` with its `x or default` fall-backs;
  - the data-line loop of `OnLoadMarkers` and the dictionary loop of `LoadState`.

  Both loaders create each marker as a non-target and only then mark it, so the invariant
  survives loading. The file loader takes the line reader as a parameter `Reader`:
  `AsWritten` is `from_string` as the source writes it, `Corrected` is the same loop with an
  `int` branch. Saving then loading a file appends the saved markers in order. For a
  marker that is `Reloadable`, with `AsWritten` every field comes back except
  `session_id`, which becomes 1 (see Findings), and with `Corrected` every field comes
  back. A marker is `Reloadable` when:
  - its label holds no tab, `\n` or `\r`;
  - its size is truthy and its session is not 0;
  - if it is a brain target, it is blue.

  Other markers come back changed (see Left out). A session round trip (`SaveState`,
  then `LoadState`) restores every marker except its brain-target flag, when each
  marker's size is truthy and its session is not 0.
- **`MarkersPanel` as a class** (`markers_panel.dfy`, module `MarkerStore`):
  - the fields the handlers update in place;
  - every marker handler, each specified by the functions above. Each handler keeps the
    invariant.
- **`NeuronavigationPanel` rules** (`navigation.dfy`, module `Neuronavigation`):
  - `GetFiducialByAttribute`, a first-match lookup;
  - the `tracker_fiducial_being_set` gate of `OnTrackerFiducials`;
  - the checks `OnStartNavigation` makes before navigation starts. A bad fiducial
    registration error does not block the start.

`text.dfy` (module `Text`) holds the few pieces of Python string handling the format uses:
`split`, `join`, `str(int)` and `int(str)`. `seqs.dfy` holds one sequence fact.

Three behaviours of the code that the model keeps:

- **Partial loads.** `OnLoadMarkers` (task_navigator.py:2084-2113) catches the first
  exception inside its data-line loop. The markers created before the bad line stay in
  the list, and the session state is saved afterwards. `MarkerLoad.LoadLines` and
  `MarkerStore.MarkersPanel.OnLoadMarkers` model this.
- **World columns.** When an angle is unset, `to_string` (task_navigator.py:1389-1402)
  converts the position with orientation `[0, 0, 0]`. It writes `N/A` only for a converted
  value that is missing (`MarkerCodec.ToString`).
- **No value checks.** `CreateMarker` (task_navigator.py:2200-2210) accepts any position,
  orientation and colour values. The model checks only that each list has three entries,
  which the three-way unpacking setters need.

## Model

All source paths are under `invesalius/gui/`.

| member | source | states |
|---|---|---|
| Markers.GetField | invesalius/gui/task_navigator.py:1314-1330 | field k of a marker has the type declared for the k-th dataclass field; the only string field is the label |
| Markers.SetField | invesalius/gui/task_navigator.py:1409-1419 | `setattr` of field k reads back as the value set, and the other 16 fields are unchanged |
| Markers.FieldsDetermineMarker | invesalius/gui/task_navigator.py:1314-1330 | two markers that agree on all 17 fields are the same marker |
| Markers.ToDict | invesalius/gui/task_navigator.py:1421-1431 | `to_dict` stores position, orientation, colour and seed as triples, together with size, label, target flag and session id; position followed by orientation is the coordinate |
| MarkerCodec.HeaderColumns | invesalius/gui/task_navigator.py:1373-1378 | the header line splits at tabs into the quoted field names in declaration order, then the six quoted world-column names |
| MarkerCodec.ParseField | invesalius/gui/task_navigator.py:1409-1419 | a column read into a field of type t yields a value of type t; only float and int columns can fail to parse |
| MarkerCodec.ParseFieldAsWritten | invesalius/gui/task_navigator.py:1409-1419 | the source's reader has no branch for `int`, so it never assigns the `session_id` column |
| MarkerCodec.DecodeFrom | invesalius/gui/task_navigator.py:1409-1419 | the `zip` loop never changes a field it has no column for |
| MarkerCodec.DecodeAsWrittenFrom | invesalius/gui/task_navigator.py:1409-1419 | the source's loop never changes `session_id` |
| MarkerCodec.FromString | invesalius/gui/task_navigator.py:1405-1419 | the field-by-field `setattr` loop computes the chosen reader's decoding of the tab-split line, stopping at the first column that fails to parse |
| MarkerCodec.FieldRoundTrip | invesalius/gui/task_navigator.py:1382-1419 | every column `to_string` writes for a field reads back as that field, including `None` |
| MarkerCodec.ShownColumns | invesalius/gui/task_navigator.py:1380-1403 | when the label has no tab, a marker line splits into the 17 shown fields, then the tab-separated world columns of the position and the converted orientation |
| MarkerCodec.RoundTrip | invesalius/gui/task_navigator.py:1380-1419 | with the `int` branch, reading back a line `to_string` wrote gives the marker exactly, whatever marker the reader starts from, when the label holds no tab |
| MarkerCodec.SessionIdNotRestored | invesalius/gui/task_navigator.py:1380-1419 | when the label has no tab: with the reader as written, every field but `session_id` comes back; `session_id` stays 1, so any other session is lost |
| MarkerCodec.ReadBack | invesalius/gui/task_navigator.py:1380-1419 | when the label has no tab: for either reader, a written line reads back as the marker, with `session_id` 1 under the source's reader |
| MarkerCodec.FileVersion | invesalius/gui/task_navigator.py:2086-2088 | a first line is accepted only if it starts with the magic prefix |
| MarkerCodec.VersionLine | invesalius/gui/task_navigator.py:2086-2088 | a magic line written for version v reads back as version v |
| MarkerCodec.SavedFileVersion | invesalius/gui/task_navigator.py:2142 | the first line `OnSaveMarkers` writes carries the version `OnLoadMarkers` accepts |
| MarkerList.NoTargetCount | invesalius/gui/task_navigator.py:1607-1616 | the target count is zero exactly when no marker is a target |
| MarkerList.OnlyTarget | invesalius/gui/task_navigator.py:1607-1616 | under the invariant, a target marker is the only one |
| MarkerList.FirstTarget | invesalius/gui/task_navigator.py:1607-1616 | the result is the smallest index of a target marker, and `None` exactly when there is none |
| MarkerList.NoFirstTarget | invesalius/gui/task_navigator.py:1607-1616 | no target is found exactly when the target count is zero |
| MarkerList.MarkTargetSpec | invesalius/gui/task_navigator.py:1683-1710 | under the invariant, after setting the target at `idx`: `idx` is flagged, every other marker is unflagged, no other field changes, and `idx` is the one target |
| MarkerList.ClearTargetSpec | invesalius/gui/task_navigator.py:1913-1915 | clearing one marker's flag keeps the invariant, and leaves no target if that marker was it |
| MarkerList.WithoutBeyond | invesalius/gui/task_navigator.py:1654-1661 | in the model's set-based deletion, naming no position below the list's length deletes nothing (the loop's starting point; Python's `del` would raise instead) |
| MarkerList.WithoutDeleteAt | invesalius/gui/task_navigator.py:1654-1661 | one `del` in the reverse loop equals deleting that position along with the higher ones already deleted |
| MarkerList.WithoutLength | invesalius/gui/task_navigator.py:1654-1661 | deleting n distinct ascending valid positions shortens the list by n |
| MarkerList.WithoutTargets | invesalius/gui/task_navigator.py:2057-2066 | deletion keeps the invariant; deleting the target's position leaves no target |
| MarkerList.BrainTargets | invesalius/gui/task_navigator.py:1618-1630 | the brain-target coordinates are empty exactly when no marker is a brain target |
| MarkerList.BrainTargetsSnoc | invesalius/gui/task_navigator.py:1618-1630 | scanning one more marker appends its coordinate when it is a brain target |
| MarkerList.LastWithLabel | invesalius/gui/task_navigator.py:2040-2046 | the row search settles on the highest position whose label matches, `None` exactly when none does |
| MarkerLoad.NewMarkerSpec | invesalius/gui/task_navigator.py:2200-2223 | each falsy argument takes the panel's value; every other argument is used as given; a brain target is always blue |
| MarkerLoad.FileArgsRestore | invesalius/gui/task_navigator.py:2097-2100 | `CreateMarker` on the fields of a marker read from a file recreates that marker as a non-target, when its size and session are truthy and, if it is a brain target, it is blue |
| MarkerLoad.DictArgsRestore | invesalius/gui/task_navigator.py:1589-1600 | `CreateMarker` on a marker's dictionary recreates it, neither target nor brain target |
| MarkerLoad.AddLoadedKeeps | invesalius/gui/task_navigator.py:2099-2108 | creating as a non-target, then perhaps marking, keeps the invariant |
| MarkerLoad.AddLoadedRestores | invesalius/gui/task_navigator.py:2099-2108 | loading a target record clears the earlier target and appends the record |
| MarkerLoad.RestoreStep | invesalius/gui/task_navigator.py:2096-2108 | one step of either loader keeps the invariant, and the rest of the load restores the rest |
| MarkerLoad.LoadLinesKeeps | invesalius/gui/task_navigator.py:2096-2108 | loading lines with either reader keeps the invariant, however far the load gets |
| MarkerLoad.LoadFile | invesalius/gui/task_navigator.py:2074-2113 | a read file is never reported cancelled; an unknown version leaves the markers unchanged |
| MarkerLoad.LoadFileKeeps | invesalius/gui/task_navigator.py:2074-2113 | loading any file with either reader keeps the invariant |
| MarkerLoad.OtherVersionLoadsNothing | invesalius/gui/task_navigator.py:2088-2091 | a file announcing a version other than 0 loads nothing |
| MarkerLoad.LoadReadLine | invesalius/gui/task_navigator.py:2096-2108 | a line that the chosen reader reads as a reloadable record loads exactly that record |
| MarkerLoad.LoadLinesRestores | invesalius/gui/task_navigator.py:2096-2108 | loading lines that the chosen reader reads as reloadable records appends them in order; a target among them replaces the existing target |
| MarkerLoad.SaveThenLoad | invesalius/gui/task_navigator.py:2074-2147 | loading a saved file appends the saved markers in order and reports success; a saved target replaces the existing target; this holds for `Reloadable` markers (no tab, `\n` or `\r` in the label, a truthy size, a session other than 0, blue if a brain target): the source's reader brings every `session_id` back as 1, the corrected reader restores every field |
| MarkerLoad.LoadAllKeeps | invesalius/gui/task_navigator.py:1582-1605 | loading any session state keeps the invariant |
| MarkerLoad.LoadAllRestores | invesalius/gui/task_navigator.py:1582-1605 | dictionaries that recreate given records append those records; a target among them replaces the existing target |
| MarkerLoad.SessionRoundTrip | invesalius/gui/task_navigator.py:1576-1605 | `LoadState` of what `SaveState` stored gives back the markers in order, every field kept except `is_brain_target`, when each size and session is truthy |
| MarkerStore.RequestedIndexes | invesalius/gui/task_navigator.py:2033-2049 | a fiducial label names at most one row: a row holding that label, and only when the label is a fiducial label |
| MarkerStore.MarkersPanel.constructor | invesalius/gui/task_navigator.py:1456-1559 | the start values, then `LoadState`; the invariant holds |
| MarkerStore.MarkersPanel.FindTargetMarker | invesalius/gui/task_navigator.py:1607-1616 | the scan returns `FirstTarget` of the markers |
| MarkerStore.MarkersPanel.BrainTargetMarkers | invesalius/gui/task_navigator.py:1618-1630 | `None` exactly when there is no brain target, else their coordinates in order |
| MarkerStore.MarkersPanel.LastMarkerWithLabel | invesalius/gui/task_navigator.py:2040-2046 | the row loop finds `LastWithLabel` |
| MarkerStore.MarkersPanel.SaveState | invesalius/gui/task_navigator.py:1576-1580 | the session stores every marker's dictionary |
| MarkerStore.MarkersPanel.CreateMarker | invesalius/gui/task_navigator.py:2200-2237 | appends exactly `NewMarker`; appending a non-target keeps the invariant |
| MarkerStore.MarkersPanel.SetTarget | invesalius/gui/task_navigator.py:1683-1710 | the list becomes `MarkTarget`; under the invariant `idx` is then the one target |
| MarkerStore.MarkersPanel.AddLoadedMarker | invesalius/gui/task_navigator.py:2099-2108 | creating a marker as a non-target, then marking it if needed, gives `AddLoaded` |
| MarkerStore.MarkersPanel.DeleteAllMarkers | invesalius/gui/task_navigator.py:1646-1652 | the list is empty afterwards and has no target |
| MarkerStore.MarkersPanel.DeleteMultipleMarkers | invesalius/gui/task_navigator.py:1654-1665 | the listed positions are removed and the rest kept in order; the length drops by the count; the invariant holds, and no target is left if its position was listed |
| MarkerStore.MarkersPanel.LoadState | invesalius/gui/task_navigator.py:1582-1605 | nothing changes without a stored state; otherwise the markers become `LoadAll` of the state; the invariant holds |
| MarkerStore.MarkersPanel.LoadDicts | invesalius/gui/task_navigator.py:1589-1605 | the dictionary loop computes `LoadAll` |
| MarkerStore.MarkersPanel.OnLoadMarkers | invesalius/gui/task_navigator.py:2074-2113 | a cancelled dialog changes nothing; otherwise markers and outcome are `LoadFile`'s for the chosen reader (`AsWritten` is the source); the session is saved on success and on an invalid file, not on an unknown version; the invariant holds |
| MarkerStore.MarkersPanel.LoadDataLines | invesalius/gui/task_navigator.py:2096-2108 | the data-line loop, with the chosen reader, computes `LoadLines`, stopping at the first bad line |
| MarkerStore.MarkersPanel.OnSaveMarkers | invesalius/gui/task_navigator.py:2123-2147 | writes the magic line, the header line, then one `to_string` line per marker in order; nothing when cancelled |
| MarkerStore.MarkersPanel.OnCreateMarker | invesalius/gui/task_navigator.py:2069-2072 | appends a marker made from the panel values, then saves the session; the invariant holds |
| MarkerStore.MarkersPanel.OnDeleteAllMarkers | invesalius/gui/task_navigator.py:2012-2031 | a refused confirmation changes nothing; otherwise the list and the stored state are emptied |
| MarkerStore.MarkersPanel.OnDeleteMultipleMarkers | invesalius/gui/task_navigator.py:2033-2067 | deletes the requested rows and saves; with nothing requested nothing changes and nothing is saved; the invariant holds |
| MarkerStore.MarkersPanel.OnMenuSetTarget | invesalius/gui/task_navigator.py:1826-1837 | with no focused row nothing changes; otherwise the focused row becomes the one target and the session is saved |
| MarkerStore.MarkersPanel.OnMenuRemoveTarget | invesalius/gui/task_navigator.py:1913-1927 | clears the focused row's flag, or the last row's when none is focused; the invariant holds; the session is saved |
| MarkerStore.MarkersPanel.SetMarkers | invesalius/gui/task_navigator.py:2177-2197 | replaces the markers by one new marker per pose, in order; none is a target; the session is saved |
| MarkerStore.MarkersPanel.UpdateCurrentCoord | invesalius/gui/task_navigator.py:1717-1721 | the position is the first three values; the orientation is the last three, or unset without a tracked object |
| MarkerStore.MarkersPanel.UpdateNavigationStatus | invesalius/gui/task_navigator.py:1723-1728 | records the status; leaving navigation unsets the orientation |
| MarkerStore.MarkersPanel.UpdateSeedCoordinates | invesalius/gui/task_navigator.py:1730-1731 | the seed becomes the world offset |
| MarkerStore.MarkersPanel.OnChangeCurrentSession | invesalius/gui/task_navigator.py:2156-2157 | the current session becomes the new id |
| Neuronavigation.Matching | invesalius/gui/task_navigator.py:636-637 | the comprehension raises `KeyError` exactly when some record lacks the key; otherwise it keeps matching records only, and is empty exactly when none matches |
| Neuronavigation.GetFiducialByAttribute | invesalius/gui/task_navigator.py:636-640 | a returned record is in the table and has the requested value |
| Neuronavigation.FirstMatch | invesalius/gui/task_navigator.py:636-640 | when every record has the key, the lookup returns the first matching record |
| Neuronavigation.NoMatch | invesalius/gui/task_navigator.py:636-640 | when every record has the key and none matches, the `assert` fails |
| Neuronavigation.MissingKeyFails | invesalius/gui/task_navigator.py:636-640 | a record without the key makes the lookup raise `KeyError`, even after a match |
| Neuronavigation.TrackerFiducialGate.constructor | invesalius/gui/task_navigator.py:416 | no button down and no fiducial being set |
| Neuronavigation.TrackerFiducialGate.AtMostOnePressed | invesalius/gui/task_navigator.py:806-811 | under the gate's invariant, at most one tracker-fiducial button is down |
| Neuronavigation.TrackerFiducialGate.SetFiducialCallback | invesalius/gui/task_navigator.py:817-823 | with `state` true, records the fiducial, releases its button and clears `tracker_fiducial_being_set`; with `state` false, nothing changes |
| Neuronavigation.TrackerFiducialGate.OnTrackerFiducials | invesalius/gui/task_navigator.py:806-847 | while another fiducial is being set, a click changes nothing; pressing starts setting n; releasing records n and resets the field to `None`; the invariant holds |
| Neuronavigation.OnStartNavigation | invesalius/gui/task_navigator.py:877-913 | refuses with "fiducials incomplete" exactly when a fiducial set is incomplete, then with "tracker not initialised"; otherwise starts after estimating and checking the error, with start as the last step; a bad error only warns |
| Neuronavigation.FreDoesNotBlock | invesalius/gui/task_navigator.py:899-913 | whether and how navigation starts does not depend on the registration error; the error is checked twice exactly when ICP is in use |

## Left out

- Widgets, dialogs and message boxes are not modelled. A list-control row is an index
  parameter, a confirmation is a boolean, and a chosen file is its lines (`None` when
  cancelled). The list control's row numbering, colours and item texts are left out.
- `Publisher` messages are left out, apart from 'Set tracker fiducial', which
  `TrackerFiducialGate.recorded` logs. The left-out messages include 'Add marker',
  'Update target', 'Load image fiducials' and the robot and coil messages.
- Floating point is not modelled. Numbers are integers written and read in decimal, so
  `str(float)` and `float(str)` are not modelled. Nor is the leniency of `int()`/`float()`
  towards whitespace, underscores, `inf` and `nan`.
- Files are lists of lines without line terminators. File I/O and its exceptions are
  not modelled, nor is the default file name built from the clock and the project name.
  Because the lines carry no newline, the model does not cover a data line with no
  world columns, whose last field keeps its `\n`. A label holding `\t`, `\n` or `\r`
  breaks the line apart when it is read back (`readlines()` in text mode ends a line at
  `\r` too); the file round trip excludes such labels through `Serializable`.
- `imagedata_utils.convert_invesalius_to_world` is foreign numeric code. It is the
  parameter `toWorld`; the reader never looks at the world columns.
- invesalius/constants.py is not part of this model. The magic prefix and the version
  number 0 are written out. The marker colour and size defaults are constructor
  parameters. The fiducial tables and the list of fiducial labels are parameters.
- The session singleton is the panel's `sessionState` field.
- Navigation, Tracker, Robot, ICP and FRE computation are external collaborators. Their
  answers (fiducials set, tracker initialised, the FRE verdict, `use_icp`) are
  parameters of `OnStartNavigation`.
- Pedal callback registration and removal are left out. `SetFiducialCallback` is the
  callback itself.
- `ObjectRegistrationPanel`, `TractographyPanel`, `E_fieldPanel`, `DbsPanel` and
  `SessionPanel` are UI or foreign-library glue and are not modelled. So are
  `OnMouseRightDown` and the E-field target menu items.
- The label and colour edit dialogs (`OnMenuEditMarkerLabel`, `OnMenuSetColor`) and
  `OnSelectColour`/`OnSelectSize` are widget callbacks and are not modelled.
- `__delete_all_brain_targets` is left out: no code calls it.
- Markers are values, so the model does not capture aliasing between a marker object and
  the list that holds it.
- MarkerLoad.SaveThenLoad: promises an exact reload only for `Reloadable` markers.
  `CreateMarker`'s fall-backs change the others: a brain target recoloured through
  `OnMenuSetColor` comes back blue, and a size that is zero or `None` or a session of 0
  takes the panel's current value.
- MarkerStore.MarkersPanel.CreateMarker: requires each of position, orientation, colour
  and seed to be absent or have three entries. The source's three-way unpacking setters
  raise `ValueError` on other lengths, and that error path is not modelled.
- MarkerStore.MarkersPanel.SetMarkers: requires three-entry pose lists, as `CreateMarker`
  does. The `ValueError` the source would raise after the list was already emptied is not
  modelled.
- MarkerStore.MarkersPanel.OnMenuRemoveTarget: requires a non-empty list, because the
  source raises `IndexError` on an empty one (its menu is only offered on a row).

## Findings

| source | as written | input that shows it | evidently intended | confidence | as-written member | corrected member |
|---|---|---|---|---|---|---|
| invesalius/gui/task_navigator.py:1405-1419 | `from_string` assigns float, str and bool fields only; `session_id` is typed `int`, so its column is never read and the field keeps the default 1 | a marker with `session_id` 2, saved by `OnSaveMarkers` and loaded by `OnLoadMarkers`, comes back with `session_id` 1 | `session_id` is parsed with `int` and restored, as `to_dict`/`LoadState` restore it | high; not executed | MarkerCodec.SessionIdNotRestored | MarkerCodec.RoundTrip |
