# parqour core, modelled in Dafny

parqour is a terminal browser for parquet files. It has a Data tab that shows a
window of decoded rows and a Metadata tab that shows the file summary, the
schema table and the statistics of one column chunk. This project models the
parts of it that are plain logic:

- `commands.dfy` (`Commands`): the mapping from a key event to a command.
  It is total, and it reads only the key code.
- `tui_state.dfy` (`TuiState`): the session `State`, a class whose
  `RunCommand` stops the loop on `Exit` and moves the tab on `Next` and
  `Previous`, and whose `RunCommands` is the `while state.running` loop of
  `start_tui` over the key commands. `Transition` and `RunAll` describe the
  same behaviour as functions, so lemmas can state what a sequence of
  commands does.
- `app.dfy` (`App`): `Viewer::new`. It flattens the key/value metadata,
  builds one nine-cell row per schema column, tracks the widest column name
  in bytes, and sets the initial cursor and window of the Data tab.
- `ui.dfy` (`Ui`): the tab enumeration and its decoding from an index,
  `mask_string` and `batch_slice`, the loop of `render_data` that builds the
  text columns and marks the selected cell, the file-metadata panel's lines
  and height, and the column-chunk panel. That panel covers kB sizes and the
  rendering of min/max/distinct/null statistics.
- `text.dfy` (`Text`): the decimal `to_string` of integers and UTF-8
  encoding and decoding (`std::str::from_utf8`). Each comes with its inverse
  and a round-trip proof.
- `parquet.dfy` (`Parquet`): the library values the core consumes, taken as
  inputs.
- `wrappers.dfy` (`Wrappers`): `Option` and `Result`.

A panic in the source is modelled as a `Failure` result. This covers
`reader.next().unwrap()` on a file with no batch, indexing a row group or
column past its end, the arrow formatter reading past a column's end, and
`from_utf8(..).unwrap()` on bytes that are not UTF-8, and
`table_state.selected().unwrap()` when no schema row is selected.

Some behaviours worth noting:

- Byte-array statistics that are not valid UTF-8 panic (`unwrap`). The model
  returns `Failure(InvalidUtf8)`.
- The tab wraps through the `N_TABS` constant. `NextTab` and `PreviousTab`
  prove that this is the same as moving the index modulo the number of tabs.
- Commands scroll over `Tab`, `Table` and `Chunk`. `Exit` sets `running` to
  false inside `State`.
- A chunk index out of range panics. The model returns
  `Failure(IndexOutOfBounds)`.
- A new viewer shows rows 0 to 49 of the first batch. If one of the first 10
  columns has fewer than 50 cells, as in a file of fewer than 50 rows, the
  formatter reads past that column's end on the first render of the Data
  tab. `Ui.ShortFirstBatchFailsFirstRender` proves that the model's render
  fails then.

The revisions of the source files do not match. `state.rs` matches
payload-less `Next`/`Previous`, while `command.rs` gives them a `ScrollType`.
The model uses `command.rs`'s type and moves the tab on `Next(_)` and
`Previous(_)` whatever their kind. `render_metadata` reads `state.table_state`
and `state.chunk_ind`, which `State` does not have, so `Ui.ChunkMetadata`
takes the chunk index and the table's selection (`Option<nat>`) as
parameters.

## Model

| member | source | states |
|---|---|---|
| `Commands.FromKeyEvent` | src/tui/command.rs:19-30 | Esc and 'q' give Exit; Tab/BackTab give Next/Previous(Tab); 'j'/'k' give Next/Previous(Table); 'l'/'h' give Next/Previous(Chunk); each iff the key is that key; every other key gives Nothing |
| `Commands.FromKeyEventReadsOnlyCode` | src/tui/command.rs:20 | events with the same key code give the same command, whatever their modifiers or kind |
| `TuiState.CheckedSub` | src/tui/state.rs:45 | `checked_sub` gives a value iff no underflow, and that value plus the subtrahend is the minuend |
| `TuiState.NextTab` | src/tui/state.rs:36-43 | the tab index after Next is (index + 1) mod the number of tabs |
| `TuiState.PreviousTab` | src/tui/state.rs:44-46 | the tab index after Previous is (index − 1) mod the number of tabs; from Data, `unwrap_or(N_TABS)` wraps to Metadata |
| `TuiState.TabCycle` | src/tui/state.rs:36-46 | Next and Previous each take Data to Metadata and Metadata to Data |
| `TuiState.NextPreviousInverse` | src/tui/state.rs:36-46 | Previous undoes Next and Next undoes Previous |
| `TuiState.NextTwiceIsIdentity` | src/tui/state.rs:36-43 | two Next commands return to the starting tab |
| `TuiState.Transition` | src/tui/state.rs:32-48 | one command: the session keeps running iff it was running and the command is not Exit; the tab index moves by the command's net tab moves, mod 2 |
| `TuiState.RunAll` | src/lib.rs:46-60 | the `while state.running` loop's effect: with no commands, or once stopped, nothing changes; after an Exit the session is not running |
| `TuiState.BeforeExit` | src/lib.rs:46-60 | the commands a running loop acts on: a prefix of the commands with no Exit, followed by the first Exit if there is one |
| `TuiState.RunAllTab` | src/lib.rs:46-60 | from a running session, the tab index after the loop is the start index plus the net number of Next over Previous before the first Exit, mod 2 |
| `TuiState.RunAllRunning` | src/lib.rs:46-60 | after the loop, the session is running iff it was running and no Exit came |
| `TuiState.State.constructor` | src/tui/state.rs:19-25 | a new state is running, on the default (Data) tab, holding the given viewer |
| `TuiState.State.RunCommands` | src/lib.rs:46-60 | the loop runs `run_command` on each key command while `running` holds; the new running state and tab are `RunAll` of the old ones; the viewer is unchanged |
| `TuiState.State.RunCommand` | src/tui/state.rs:27-50 | Exit clears `running` and keeps the tab; Next/Previous move the tab and keep `running`; Nothing changes nothing; the viewer never changes |
| `Ui.TabIndex` | src/tui/state.rs:37-45 | `tab as usize`: Data is 0, Metadata is 1, no other value |
| `Ui.DefaultTab` | src/tui/ui.rs:74-78 | the default tab has discriminant 0 |
| `Ui.Headers` | src/tui/ui.rs:80-84 | there are two headers, one per tab, indexed by the discriminants |
| `Ui.NTabs` | src/tui/ui.rs:96 | `N_TABS` is one less than the header count, and no tab's discriminant exceeds it |
| `Ui.TabFromIndex` | src/tui/ui.rs:86-94 | an index below the header count gives the tab with that discriminant; any other index gives the default tab |
| `Ui.TabIndexRoundTrip` | src/tui/ui.rs:68-94 | `Tab::from(t as usize) == t` for every tab |
| `Ui.NTabsIsLastIndex` | src/tui/ui.rs:96 | `N_TABS` is 1, the discriminant of Metadata and the largest tab index |
| `Ui.MaskString` | src/tui/ui.rs:416-424 | the result is a prefix of the input; it equals the input when that has at most `max_len` characters; otherwise it has exactly `max_len` |
| `Ui.FormatRows` | src/tui/ui.rs:438-441 | formatting rows `row..row+nrows` of one column succeeds iff the range is empty or those rows exist, and yields exactly those cells in order |
| `Ui.SliceFields` | src/tui/ui.rs:433-444 | the first `ncols` columns each give exactly their cells `row..row+nrows`; the result fails iff the range is not empty and one of those columns is too short |
| `Ui.BatchSlice` | src/tui/ui.rs:425-445 | at most `ncols` columns starting at column `col`; each holds exactly the cells of rows `row..row+nrows`; fails iff `nrows > 0` and a shown column has fewer rows |
| `Ui.WindowHeaders` | src/tui/ui.rs:366-375 | the headers are the names of the same fields the window shows, skipping `col_offset` and taking `visible_cols` |
| `Ui.IsHighlighted` | src/tui/ui.rs:396-397 | a cell is highlighted only when the selected cell lies at or beyond the window's offsets |
| `Ui.HighlightIsUnique` | src/tui/ui.rs:396-397 | at most one cell of the window is highlighted |
| `Ui.SelectedCellIsHighlighted` | src/tui/ui.rs:396-397 | the selected cell, when at or beyond the offsets, is highlighted at its window position |
| `Ui.ShortFirstBatchFailsFirstRender` | src/tui/ui.rs:376-382 | a new viewer's first window (rows 0-49 of columns 0-9) fails to render when one of those columns has fewer than 50 cells |
| `Ui.BuildColumnViews` | src/tui/ui.rs:388-411 | the zipped loop yields exactly one text column per window column, in window order, built from that column's name and cells |
| `Ui.DataColumns` | src/tui/ui.rs:376-411 | one text column per window column: the truncated field name, then each cell truncated to 9 characters plus a space; a cell is highlighted iff `i + col_offset == selected_col` and `j + row_offset == selected_row`; fails exactly when `batch_slice` does |
| `Ui.MetadataHeight` | src/tui/ui.rs:99-100 | the height is 4 with no kv pairs and 5 + pairs otherwise, cut to a `u16` (equal to that value modulo 65536, and exactly that value when it fits) |
| `Ui.FileMetadataLines` | src/tui/ui.rs:116-154 | two summary lines; then, when kv pairs exist, "Other" and one "key: value" line per pair in order; the panel height (4, or 5 + pairs) is the line count plus the two border rows |
| `Ui.Kilobytes` | src/tui/ui.rs:218-219 | sizes are shown in kB as an integer division by 1000 that truncates toward zero |
| `Ui.DecodeOr` | src/tui/ui.rs:310-315 | an absent bound gives ""; a present one fails iff its bytes are not UTF-8, and otherwise gives the text whose UTF-8 is those bytes |
| `Ui.MinMaxStrings` | src/tui/ui.rs:254-327 | an absent min or max renders as ""; rendering fails iff a present byte-array bound is not valid UTF-8 |
| `Ui.MinMaxStringsReadBack` | src/tui/ui.rs:254-327 | rendered bounds determine the bounds: integers parse back, a boolean renders as "true" or "false", byte arrays re-encode to the same bytes |
| `Ui.ByteArrayBoundsShowText` | src/tui/ui.rs:309-326 | byte-array bounds holding the UTF-8 of two strings render as exactly those strings |
| `Ui.ShowCountParsesBack` | src/tui/ui.rs:248-253 | an absent count renders as ""; a present count's text parses back as the count |
| `Ui.StatisticsDisplay` | src/tui/ui.rs:247-342 | distinct and null counts render as "" iff absent, and a present count's text parses back as the count; min and max as `MinMaxStrings`; fails iff a byte-array bound is undecodable |
| `Ui.Join` | src/tui/ui.rs:211-216 | joining no encodings gives ""; one gives that item; otherwise the result starts with the first item and its length is the items' total length plus one separator between each pair of neighbours |
| `Ui.JoinAppend` | src/tui/ui.rs:211-216 | joining two non-empty lists is the join of the first, one separator, then the join of the second |
| `Ui.ChunkMetadata` | src/tui/ui.rs:206-356 | fails with `NoSelection` when no schema row is selected, with `IndexOutOfBounds` when the row group or column is out of range, and otherwise iff its statistics cannot render; the title is `name[chunk_ind]`, `# values` parses back as the chunk's count, encodings are joined with ", ", compression is the chunk's; sizes are `Kilobytes` of the chunk's sizes; the statistics line is present iff the chunk has statistics |
| `App.FlattenKeyValues` | src/app.rs:57-62 | kv metadata keeps its order and duplicates; a missing value becomes ""; no kv list gives an empty sequence |
| `App.SchemaRow` | src/app.rs:73-116 | nine cells: name, "primitive" or "group", logical type or "", converted type, and sort order last; a primitive column's physical type in cell 4; the physical-type, length, scale and precision cells are all empty iff the column is a group |
| `App.SchemaRowNumbersReadBack` | src/app.rs:87-97 | a primitive row's length, scale and precision cells parse back as the column's values |
| `App.MaxNameWidth` | src/app.rs:64-72 | the running maximum starts at 0 and, after each column, is at least that column's name length in bytes |
| `App.MaxNameWidthIsMax` | src/app.rs:64-72 | the running `max(max_col_name_width, name.len())` is, after any number of columns, the largest byte length among them, and 0 before the first |
| `App.BuildSchemaTable` | src/app.rs:63-118 | exactly one row per column, in schema order; `max_col_name_width` is the largest byte length of a column name, 0 for no columns |
| `App.NewViewer` | src/app.rs:41-155 | fails iff the reader yields no first batch (`NoFirstBatch`, the `unwrap` panic) or the first batch is an error (passed on by `?`); otherwise the viewer holds the summary, flattened kv data, schema rows, max width, `created_by` or "", the file stem or "no name", `batch_size` 64, selection and offsets 0, and 50 visible rows by 10 visible columns |
| `Text.NatToString` | src/tui/ui.rs:248-253 | an unsigned integer renders as decimal digits with no leading zero |
| `Text.BoolToString` | src/tui/ui.rs:256-261 | a boolean renders as "true" or "false", never as the empty text of an absent bound |
| `Text.IntToString` | src/app.rs:93-95 | a signed integer renders with a leading minus iff it is negative |
| `Text.NatToStringRoundTrip` | src/tui/ui.rs:248-253 | the decimal digits of a count read back as that count |
| `Text.NatToStringParses` | src/tui/ui.rs:248-253 | a count's decimal text parses back as that count |
| `Text.IntToStringRoundTrip` | src/app.rs:93-95 | every integer's decimal rendering parses back to it |
| `Text.Utf8Length` | src/app.rs:72 | `name.len()` counts bytes: between the character count and four times that |
| `Text.Utf8LengthIsEncodedLength` | src/app.rs:72 | `name.len()` is the length of the name's UTF-8 encoding |
| `Text.Utf8Encode` | src/tui/ui.rs:309-326 | a string's UTF-8 bytes number between one and four per character |
| `Text.EncodeCharDecodes` | src/tui/ui.rs:311 | the decoder reads back each encoded character, using exactly its encoded bytes, whatever bytes follow |
| `Text.DecodeFirst` | src/tui/ui.rs:311 | a decoded character consumes between 1 and 4 of the available bytes |
| `Text.Utf8Decode` | src/tui/ui.rs:311 | `std::str::from_utf8`: empty bytes decode to ""; a decoded string has between a quarter of the byte count and the byte count in characters |
| `Text.EncodeDecodeRoundTrip` | src/tui/ui.rs:309-326 | every string's UTF-8 bytes decode to exactly that string |
| `Text.DecodeEncodeRoundTrip` | src/tui/ui.rs:309-326 | bytes that decode re-encode to exactly the same bytes |

## Left out

- Terminal setup, the event loop, `File::open`, logging, argument parsing and
  configuration (`lib.rs`, `main.rs`, `cli.rs`, `args.rs`, `utils.rs`) are I/O.
  `State.RunCommands` and `RunAll` model the loop's effect on the state, with
  the key commands as input; drawing and the tick, mouse and resize events,
  which run no command, are left out.
- The tokio-based `components/home.rs` is from another revision and is about
  message passing. `error.rs` only wraps foreign errors.
- Parsing the footer, building the record-batch reader and their `?` errors
  are library calls. Their results are the inputs `ParquetMetaData` and
  `firstBatch`. The viewer's `reader` field is not modelled, because no shown
  code reads from it again.
- App.NewViewer: its errors are only the two the first batch causes. The `?`
  errors of parsing the footer (`app.rs:42`), of `ArrowReaderMetadata::try_new`
  (`app.rs:124`) and of `builder.build()` (`app.rs:127`) happen before its
  inputs exist, so it does not return them.
- Labels the parquet and arrow libraries print themselves are given strings.
  These are the converted, physical and logical types, the sort order,
  encodings and compression. So are the values of Int96, Float and Double
  statistics (floating point) and every data cell (`ArrayFormatter`).
  `ArrayFormatter::try_new(..).unwrap()` is taken to succeed.
- Widgets, layout constraints, colours and the alternating row backgrounds
  (`i % 2`, `j % 2`) are presentation only. `render`, the `Tabs` widget and
  `render_batch`, which does nothing, are left out for the same reason.
- The unused `event_sender` parameter of `run_command` is dropped. Its
  `Ok(())` result, which it always returns, is dropped too.
- `KeyEvent`'s `state` field is not modelled, and crossterm's media and
  modifier key payloads are folded into one code each. Neither affects the
  mapping.
- Data-tab cursor movement, window following, batch paging, and the
  Metadata tab's column and chunk selection are not modelled. No shown code
  implements them; the fields are only initialised and read.
- Integer widths (`i32`, `i64`, `usize`) are not enforced on inputs. The
  only truncation inside the modelled code, the `as u16` of the panel height,
  is modelled. The layout widths `max_col_name_width as u16` (`ui.rs:175`)
  and `col_width as u16` (`ui.rs:386`) also truncate, but feed only widget
  layout, which is not modelled. `row + nrows` and `5 + kv_n` could only overflow a `usize` at
  2^64, which is out of reach.
