# Stream Manager model

A Dafny model of the logic inside `StreamManagerApp`. This Tkinter
application edits the radio-stream list of a `.sii` definition file.

The model covers:

- **The `.sii` reader and writer.** The reader runs over the lines `readlines` returns. The writer emits the header, the ` stream_data: N` count line, one `stream_data[i]: "url|name|genre|language|bitrate|extra"` line per record, and the footer. A round-trip theorem connects the two, both line by line and through the file text.
- **The validator.** Its five ordered rules return the first failing rule's message or nothing.
- **The edits of the record store.** These are add/update, delete with renumbering of the status map, and the case-insensitive AND filter that keeps original positions.
- **The sort-column toggle.**
- **The playback generation fence.** It is a state machine over Play, Stop and deferred worker-completion events. It shows that a completion carrying a stale generation tears down only its own handles.
- **The batch health check.** This covers the single-flight flag, the mapping from probe outcome to status label, and the order of the updates posted back.

Modules:

- `Wrappers`: `Option`.
- `Text`: the Python string operations used: `strip`, `lower`, `in`, `split`, the newline translation of text-mode reads, `readlines` and decimal rendering. `Text.Join` joins fields with a separator. It stands in for the writer's f-string, which places `|` between the six fields.
- `Records`: the stream record and the status labels.
- `Validator`: `is_valid_url` and `validate_stream`.
- `SiiCodec`: the parse loop of `load_file` and the writer of `save_file`.
- `Store`: removal, status renumbering and the filter, as values.
- `Batch`: the `check_stream` decision and the batch worker's updates.
- `Playback`: the generation fence as a pure state machine, with lemmas over event traces.
- `App`: the class `StreamManagerApp`. It holds the program's mutable fields, and its methods change them in place. Each method's contract ties its effect to the pure functions above.

The engine handles are opaque tokens. The `stop()` and `release()` calls made on them are kept in a log: a ghost field of the class, and a plain field of the pure playback state.

The core functions and where their meaning is proved:
- `Validator.Validate` (lines 214-228) and `Validator.IsValidUrl` (209-212): by ValidateNoneIffAllPass, ValidateReportsFirstFailing and ValidateRejectsWithFirstFailing.
- `SiiCodec.ParseLine` and `SiiCodec.ParseLines` (248-266): by ParseLinesConcat, ParseQuotedLine, UnquotedLineSkipped and RoundTrip.
- `SiiCodec.Serialize` (499-509): by SerializeLayout, RoundTrip and FileRoundTrip.
- `Store.Matching` (272-287): by MatchingIsFilter and MatchingAllEmpty.
- `Playback.Stop` (183-203), `StartPlay` (123-149), `Complete` (162-177), `Apply` and `Run`: by StopEndsSession, StaleCompletionIsInert, LiveCompletionCommits, Fenced, UnfencedCommits and SessionAccountedAlong.

## Model

| member | source | states |
|---|---|---|
| Text.TrimLeftIsSuffix | stream_manager_gui_with_editing_and_threading.py:216 | what is left is a suffix of the input; every character cut off is in the stripped set; and a non-empty result starts with a character outside it |
| Text.TrimRightIsPrefix | stream_manager_gui_with_editing_and_threading.py:216 | what is left is a prefix of the input; every character cut off is in the stripped set; and a non-empty result ends with a character outside it |
| Text.StripEmptyIffBlank | stream_manager_gui_with_editing_and_threading.py:133 | `not s.strip()` holds exactly of the strings made only of whitespace |
| Text.ContainsIffOccurs | stream_manager_gui_with_editing_and_threading.py:280-285 | the substring test succeeds exactly when the needle occurs at some position of the text |
| Text.ContainsWitness | stream_manager_gui_with_editing_and_threading.py:280-285 | when the scan succeeds, the needle occurs at the position it returns |
| Text.OccursContains | stream_manager_gui_with_editing_and_threading.py:280-285 | an occurrence at any position makes the scan succeed |
| Text.ContainsHasChars | stream_manager_gui_with_editing_and_threading.py:250 | a text containing a substring contains each of the substring's characters |
| Text.IndexOf | stream_manager_gui_with_editing_and_threading.py:252 | the index returned holds the character, and no earlier index does |
| Text.IndexOfIsFirst | stream_manager_gui_with_editing_and_threading.py:252 | a position holding the character with none before it is the one found |
| Text.Split | stream_manager_gui_with_editing_and_threading.py:252 | splitting yields at least one piece, and no piece holds the separator |
| Text.SplitAtFirst | stream_manager_gui_with_editing_and_threading.py:252 | splitting at the first separator gives the text before it followed by the pieces of the rest |
| Text.JoinSplit | stream_manager_gui_with_editing_and_threading.py:252 | joining the pieces of a split with the separator gives back the original string |
| Text.SplitJoin | stream_manager_gui_with_editing_and_threading.py:252 | splitting a join of separator-free pieces gives back the pieces |
| Text.ReadLinesConcat | stream_manager_gui_with_editing_and_threading.py:242 | reading back text written line by line, each line ending in one newline, gives back the same lines |
| Text.FirstNewline | stream_manager_gui_with_editing_and_threading.py:242 | the first newline of a line followed by more text is the line's own last character, so `readlines` cuts there |
| Text.ReadLinesCons | stream_manager_gui_with_editing_and_threading.py:242 | a line followed by more text is read as that line, then the lines of the rest |
| Text.UniversalNewlinesDropsCr | stream_manager_gui_with_editing_and_threading.py:241 | the text read in text mode holds no carriage return |
| Text.CrLfReadsAsNewline | stream_manager_gui_with_editing_and_threading.py:241 | a `\r\n` pair anywhere in the file reads as one `\n`, and the text on either side of it reads as it would alone |
| Text.LoneCrReadsAsNewline | stream_manager_gui_with_editing_and_threading.py:241 | a `\r` that no `\n` follows reads as one `\n`, and the text on either side of it reads as it would alone |
| Text.UniversalNewlinesConcat | stream_manager_gui_with_editing_and_threading.py:241 | two pieces of a file read as they would apart, unless the first ends in `\r` and the second starts with `\n` |
| Text.CrLfStep | stream_manager_gui_with_editing_and_threading.py:241 | a file starting with `\r\n` reads as `\n`, then the rest |
| Text.LoneCrStep | stream_manager_gui_with_editing_and_threading.py:241 | a file starting with a `\r` that no `\n` follows reads as `\n`, then the rest |
| Text.PlainStep | stream_manager_gui_with_editing_and_threading.py:241 | a file starting with any other character reads as that character, then the rest |
| Text.FrontCrLf | stream_manager_gui_with_editing_and_threading.py:241 | a `\r\n` at the front of a piece reads the same way when more text follows |
| Text.FrontCr | stream_manager_gui_with_editing_and_threading.py:241 | a lone `\r` at the front of a piece stays lone when more text follows, unless the piece is that `\r` and the next text starts with `\n` |
| Text.FrontPlain | stream_manager_gui_with_editing_and_threading.py:241 | any other first character of a piece reads the same way when more text follows |
| Text.WrittenNewlinesReadBack | stream_manager_gui_with_editing_and_threading.py:499-506 | text without a carriage return, written in text mode with `\n` or `\r\n` as line separator and read back in text mode, is the text itself |
| Text.UniversalNewlinesKeeps | stream_manager_gui_with_editing_and_threading.py:241 | a text without a carriage return is read unchanged |
| Text.ConcatExcludes | stream_manager_gui_with_editing_and_threading.py:501-509 | a character in none of the written lines is not in the file text |
| Text.ConcatReadLines | stream_manager_gui_with_editing_and_threading.py:242 | concatenating the lines `readlines` returns gives back the text |
| Text.Decimal | stream_manager_gui_with_editing_and_threading.py:502 | the rendering of a count is made only of digits and denotes the count, with no leading zero except for 0 itself |
| Records.Fields | stream_manager_gui_with_editing_and_threading.py:506 | a record has six fields; the reader takes them back in the same order (see SiiCodec.FieldsReadBack) |
| Validator.ValidateNoneIffAllPass | stream_manager_gui_with_editing_and_threading.py:209-228 | `validate_stream` returns `None` exactly when all five rules pass |
| Validator.ValidateReportsFirstFailing | stream_manager_gui_with_editing_and_threading.py:214-228 | `validate_stream` returns the message of rule k exactly when rule k is the first failing rule, in the order: url non-blank, url http/https with a host, name non-blank, bitrate non-blank, bitrate an integer |
| Validator.ValidateRejectsWithFirstFailing | stream_manager_gui_with_editing_and_threading.py:214-226 | every rejection carries the message of some first failing rule |
| Validator.SeparatorBitrateRejected | stream_manager_gui_with_editing_and_threading.py:214-227 | when the URL and name checks pass, a bitrate made of an information separator (U+001C to U+001F) and non-blank text passes the blank check but is reported as "Bitrate must be a number." |
| Validator.SeparatorLeadStripped | stream_manager_gui_with_editing_and_threading.py:222 | `str.strip` removes a leading information separator, whatever follows it |
| Validator.SeparatorLeadNotInteger | stream_manager_gui_with_editing_and_threading.py:225 | `int()` refuses every text that starts with an information separator |
| Validator.SeparatorBitrateExample | stream_manager_gui_with_editing_and_threading.py:214-227 | url `http://a`, name `n` and bitrate U+001C then `5` are rejected with "Bitrate must be a number." |
| Validator.SampleUrlValid | stream_manager_gui_with_editing_and_threading.py:218 | `http://a` is unchanged by stripping and is a valid URL |
| SiiCodec.GatherConcat | stream_manager_gui_with_editing_and_threading.py:249-266 | collecting over two runs of lines gives the records of the first run followed by those of the second |
| SiiCodec.GatherNone | stream_manager_gui_with_editing_and_threading.py:249-266 | when no line contributes a record, nothing is collected |
| SiiCodec.GatherEach | stream_manager_gui_with_editing_and_threading.py:249-266 | when line k contributes exactly record k, the records collected are the records, in order |
| SiiCodec.ParseLinesConcat | stream_manager_gui_with_editing_and_threading.py:248-266 | the loop reads two runs of lines one after the other: the records of a concatenation are the concatenation of the records |
| SiiCodec.ParseOne | stream_manager_gui_with_editing_and_threading.py:249-266 | a single line yields just the records that line contributes |
| SiiCodec.LineInContext | stream_manager_gui_with_editing_and_threading.py:249-266 | each line adds its own records (one or none) at its place, and reading goes on with the next line |
| SiiCodec.NoDataLines | stream_manager_gui_with_editing_and_threading.py:250 | lines with no `stream_data[` add no records |
| SiiCodec.NoBracketNoData | stream_manager_gui_with_editing_and_threading.py:250 | a line without `[` is not a data line |
| SiiCodec.JoinExcludes | stream_manager_gui_with_editing_and_threading.py:506 | a character in no field, other than the separator, is absent from the joined fields |
| SiiCodec.ParseQuotedLine | stream_manager_gui_with_editing_and_threading.py:250-264 | a data line whose first quoted segment has at least five fields yields a record of those fields in order (url, name, genre, language, bitrate), with `extra` the sixth field or "0"; with fewer than five no record |
| SiiCodec.UnquotedLineSkipped | stream_manager_gui_with_editing_and_threading.py:250-266 | a data line holding no `"` is the `IndexError` case and adds no record; a line without the marker is not a data line |
| SiiCodec.NoQuoteInPrefix | stream_manager_gui_with_editing_and_threading.py:506 | the `stream_data[i]: ` prefix of a written line holds no quote, no newline and no carriage return |
| SiiCodec.RecordLineParses | stream_manager_gui_with_editing_and_threading.py:250-262 | the line written for a clean record reads back as that record |
| SiiCodec.CountLineSkipped | stream_manager_gui_with_editing_and_threading.py:502 | the count line holds no data marker, whatever the count, so it adds no record |
| SiiCodec.RecordLinesParse | stream_manager_gui_with_editing_and_threading.py:505-506 | the record lines read back as the records, in order |
| SiiCodec.RecordLinesEmit | stream_manager_gui_with_editing_and_threading.py:505-506 | there is one record line per record, and record line k alone reads back as record k |
| SiiCodec.HeaderSkipped | stream_manager_gui_with_editing_and_threading.py:501-502 | the header and count lines add no records |
| SiiCodec.FooterSkipped | stream_manager_gui_with_editing_and_threading.py:508-509 | the two closing lines add no records |
| SiiCodec.FixedLinesSkipped | stream_manager_gui_with_editing_and_threading.py:501-509 | none of the three header lines and two closing lines is a data line |
| SiiCodec.ShortLineSkipped | stream_manager_gui_with_editing_and_threading.py:250 | a line shorter than `stream_data[` cannot contain it and is not a data line |
| SiiCodec.DefinitionLineSkipped | stream_manager_gui_with_editing_and_threading.py:502 | the `live_stream_def` line holds no `[` and is not a data line |
| SiiCodec.RoundTrip | stream_manager_gui_with_editing_and_threading.py:501-509 | reading the written lines gives back the same records, in order, when no field holds `\|`, `"` or a newline; this includes zero records |
| SiiCodec.SerializedLinesAreLines | stream_manager_gui_with_editing_and_threading.py:501-509 | every written line ends in exactly one newline |
| SiiCodec.EveryWrittenLine | stream_manager_gui_with_editing_and_threading.py:501-509 | a property of the header, closing, count and record lines holds of every written line |
| SiiCodec.FixedLinesAreLines | stream_manager_gui_with_editing_and_threading.py:501-509 | each header and closing line ends in its only newline |
| SiiCodec.DefinitionLineIsLine | stream_manager_gui_with_editing_and_threading.py:502 | the `live_stream_def` line ends in its only newline |
| SiiCodec.CountLineIsLine | stream_manager_gui_with_editing_and_threading.py:502 | the count line ends in its only newline, whatever the count |
| SiiCodec.RecordLineIsLine | stream_manager_gui_with_editing_and_threading.py:506 | the line written for a record with no newline in its fields ends in its only newline |
| SiiCodec.FieldsReadBack | stream_manager_gui_with_editing_and_threading.py:252-261 | the record the reader builds from a written record's fields, taken in the writer's order, is the record |
| SiiCodec.FileRoundTrip | stream_manager_gui_with_editing_and_threading.py:241-266 | on a platform whose line separator is `\n` or `\r\n`: writing the file in text mode, reading it back in text mode with `readlines` and parsing the lines gives back the records, when they are clean and no field holds a carriage return; the text encoding is not modelled (see "Left out") |
| SiiCodec.SerializedHasNoCarriageReturn | stream_manager_gui_with_editing_and_threading.py:501-509 | no written line holds a carriage return when no field does |
| SiiCodec.FixedLinesHaveNoCarriageReturn | stream_manager_gui_with_editing_and_threading.py:501-509 | the header and closing lines hold no carriage return |
| SiiCodec.CountLineHasNoCarriageReturn | stream_manager_gui_with_editing_and_threading.py:502 | the count line holds no carriage return |
| SiiCodec.RecordLineHasNoCarriageReturn | stream_manager_gui_with_editing_and_threading.py:506 | a record line holds no carriage return when no field does |
| SiiCodec.SerializeLayout | stream_manager_gui_with_editing_and_threading.py:501-509 | the written file is the three header lines, then ` stream_data: N` with N the number of records, then the line for record k numbered k, in order, then the two closing lines |
| SiiCodec.RecordLinesAt | stream_manager_gui_with_editing_and_threading.py:505-506 | the k-th record line is record k's line with index k |
| SiiCodec.NumberedAt | stream_manager_gui_with_editing_and_threading.py:505 | numbering the records from 0 gives one line per record, the k-th made from k and record k |
| Store.RemoveAt | stream_manager_gui_with_editing_and_threading.py:452 | the list is one shorter; rows before the index stay in place and rows after it move down by one |
| Store.Source | stream_manager_gui_with_editing_and_threading.py:454 | the old key whose status lands on a key is never the deleted row, lies on the same side of it, and is at most one above the key |
| Store.ShiftDown | stream_manager_gui_with_editing_and_threading.py:453-454 | the deleted row's key is gone, keys below it keep their status, and each key above it moves one lower with its status |
| Store.ShiftedKeys | stream_manager_gui_with_editing_and_threading.py:453-454 | the renumbered keys are those whose old key, the same below the deleted row and one higher from it on, is present and is not the deleted row |
| Store.FieldMatchesIffOccurs | stream_manager_gui_with_editing_and_threading.py:274-285 | one filter lets a field through exactly when the filter is empty or, both lower-cased, occurs in the field |
| Store.MatchingIsFilter | stream_manager_gui_with_editing_and_threading.py:272-287 | the filter returns only rows that pass every non-empty filter, each with its original position; positions strictly increase; no passing row is missing |
| Store.MatchingAllEmpty | stream_manager_gui_with_editing_and_threading.py:272-287 | with all filters empty, every row is returned at its own position |
| Batch.CheckStream | stream_manager_gui_with_editing_and_threading.py:348-362 | the stream is working exactly when the response has status 200 and a first chunk; a request error gives "not working"; any other error propagates |
| Batch.ProbeSucceeded | stream_manager_gui_with_editing_and_threading.py:534-537 | the batch worker counts a probe as working exactly when it is a 200 response with a first chunk; every exception counts as failure |
| Batch.StatusFor | stream_manager_gui_with_editing_and_threading.py:539 | the label is "Working" exactly for a working verdict, else "Not Responding" |
| Batch.Verdict | stream_manager_gui_with_editing_and_threading.py:534-540 | a record's batch status is "Working" exactly when its probe succeeded |
| Batch.ReportsInOrder | stream_manager_gui_with_editing_and_threading.py:533-542 | the worker posts, for each record k in order, its status update and then the progress value k + 1 |
| Playback.StopEndsSession | stream_manager_gui_with_editing_and_threading.py:183-203 | after `stop_playback` there is no player, instance or playing row. The generation grows exactly when asked to. The playing row becomes "Stopped" when asked to, and no other status changes. The player is stopped and then the instance released, each only when held |
| Playback.StaleCompletionIsInert | stream_manager_gui_with_editing_and_threading.py:162-172 | a completion with a stale generation leaves the generation, handles, playing row and statuses unchanged, and stops and releases its own player and instance |
| Playback.LiveCompletionCommits | stream_manager_gui_with_editing_and_threading.py:174-177 | a completion with the live generation commits its instance, player and row, marks the row "Playing", leaves other statuses alone and tears nothing down |
| Playback.RunConcat | stream_manager_gui_with_editing_and_threading.py:123-207 | handling two runs of events one after the other is handling their concatenation |
| Playback.GenerationAdvancesByBumps | stream_manager_gui_with_editing_and_threading.py:141-142 | a trace moves the generation forward by two per Play and one per Stop, whatever completions it holds; it never goes back |
| Playback.SupersedingTraceAdvances | stream_manager_gui_with_editing_and_threading.py:141-142 | a trace holding a Play or a Stop strictly increases the generation |
| Playback.BumpsPositive | stream_manager_gui_with_editing_and_threading.py:141-142 | a trace holding a Play or a Stop moves the generation at least once |
| Playback.CapturedGenerationsIncrease | stream_manager_gui_with_editing_and_threading.py:140-143 | a later Play captures a strictly larger generation than an earlier one |
| Playback.Fenced | stream_manager_gui_with_editing_and_threading.py:140-172 | once a Play has captured its generation, any later Play or Stop makes that worker's completion stale: whenever it arrives, it changes no shared state and tears down exactly its own two handles |
| Playback.UnfencedCommits | stream_manager_gui_with_editing_and_threading.py:163-176 | with no Play or Stop between the launch and the completion, the completion commits its handles and row |
| Playback.NoBumps | stream_manager_gui_with_editing_and_threading.py:163 | helper for Playback.Fenced: a trace of completions alone adds no generation bumps |
| Playback.SessionAccountedAlong | stream_manager_gui_with_editing_and_threading.py:162-177 | from no session, the player and instance are always held together, and a held session was committed by a completion of the trace that carried the generation live when it arrived; the handles, row and generation held are that completion's |
| Playback.CommittedCarriesOver | stream_manager_gui_with_editing_and_threading.py:162-172 | a stale completion at the end of the trace leaves the held session committed by the same earlier completion |
| Playback.LiveCompletionFindsNoSession | stream_manager_gui_with_editing_and_threading.py:163-175 | from no session, when each worker reports once, a live completion always finds no handles held, so no committed handle is overwritten without teardown |
| Playback.RunTwo | stream_manager_gui_with_editing_and_threading.py:162-181 | helper: handling two events is handling the first and then the second |
| Playback.SecondPlayWins | stream_manager_gui_with_editing_and_threading.py:140-177 | after Play on a and then Play on b, in either order of the workers' reports, b's session is committed and a's player and instance are stopped and released |
| App.SortToggle | stream_manager_gui_with_editing_and_threading.py:289-295 | the clicked column becomes the sort column; clicking it again flips the direction, a new column sorts ascending |
| App.SortToggleTwice | stream_manager_gui_with_editing_and_threading.py:289-295 | two clicks on the same heading restore the direction, and a third click gives the state after one click |
| App.FirstRejected | stream_manager_gui_with_editing_and_threading.py:463-467 | no position is returned exactly when every row passes; otherwise the 1-based position of a rejected row, its message, and every earlier row passes |
| App.StreamManagerApp.constructor | stream_manager_gui_with_editing_and_threading.py:15-30 | starts with no records, no statuses, no sort column, no batch running, no engine loaded, no session and generation 0 |
| App.StreamManagerApp.LoadLines | stream_manager_gui_with_editing_and_threading.py:248-268 | after loading, the records are exactly those the lines define, the status map is empty, and the playback and flag fields are untouched |
| App.StreamManagerApp.FilteredStreams | stream_manager_gui_with_editing_and_threading.py:272-287 | the loop returns exactly the rows passing every non-empty case-insensitive filter, with their original positions, in list order, none missing |
| App.StreamManagerApp.SortByColumn | stream_manager_gui_with_editing_and_threading.py:289-295 | the sort fields become the toggled pair and nothing else changes |
| App.StreamManagerApp.StopPlayback | stream_manager_gui_with_editing_and_threading.py:183-203 | the playback fields take the values of the pure stop step; no session remains |
| App.StreamManagerApp.PlaySelectedStream | stream_manager_gui_with_editing_and_threading.py:97-143 | nothing happens without a selection, with a blank URL, or when the engine is not loaded and cannot be. Otherwise the old session is stopped, the generation is bumped twice, and the worker gets the row, its URL and the new generation |
| App.StreamManagerApp.UpdateState | stream_manager_gui_with_editing_and_threading.py:162-177 | a stale completion logs the stop and release of its own handles and changes no shared field; a live one commits the handles and row and marks the row "Playing" |
| App.StreamManagerApp.ShowStreamCheckResult | stream_manager_gui_with_editing_and_threading.py:339-341 | the checked row's status becomes the label of the verdict |
| App.StreamManagerApp.SaveStream | stream_manager_gui_with_editing_and_threading.py:430-437 | a stream the validator rejects changes nothing and its message is returned. An accepted stream edited into a row that no longer exists is the `IndexError` and changes nothing. Otherwise it replaces the edited row or is appended. A list of valid records stays valid |
| App.StreamManagerApp.DeleteStream | stream_manager_gui_with_editing_and_threading.py:444-454 | the selected row is removed and the status map renumbered. Statuses stay within the list, and valid records stay valid. The playing row index is not renumbered |
| App.StreamManagerApp.SaveFile | stream_manager_gui_with_editing_and_threading.py:459-509 | refused with no records; otherwise refused at the first invalid record, with its 1-based position and message; it writes exactly when the list is non-empty and every record is valid, and then the lines written are the serialisation, which reads back as the records when they are clean, hold no carriage return and every character can be written in the encoding the file is opened with (by SiiCodec.FileRoundTrip) |
| App.StreamManagerApp.WriteLines | stream_manager_gui_with_editing_and_threading.py:499-509 | the lines the writer emits, one record line per record in list order between the header and footer, are the serialisation of the list |
| App.StreamManagerApp.TestAllStreams | stream_manager_gui_with_editing_and_threading.py:518-529 | a request while a batch runs changes nothing; with no records nothing starts; otherwise the flag is raised |
| App.StreamManagerApp.TestAllThread | stream_manager_gui_with_editing_and_threading.py:531-544 | each record's status becomes the label of its own probe, other statuses are kept, and the posted updates are the per-record reports in order followed by `finish_testing` |
| App.StreamManagerApp.FinishTesting | stream_manager_gui_with_editing_and_threading.py:551-552 | the batch flag is lowered and nothing else changes |

## Left out

- Widgets, dialogs, message boxes, the progress bar, the status label and the diagnostic `print`s of the load loop (lines 264 and 266): user interface. A handler that showed a warning returns an outcome value instead.
- `update_treeview`, including its sort by the lower-cased column value: rendering only. The sort fields are modelled; the sorted view is not.
- File and settings I/O (`open`, `filedialog`, the overwrite prompt, the timestamped backup, `load_settings`, `save_settings`, `file_path`): I/O. The reader takes the lines `readlines` returns, and the writer returns the lines it would write.
- The newline translation of text-mode files is modelled only for the whole-file round trip, in both directions: `Text.WriteNewlines` writes each `\n` as the platform's separator (`\r\n` on Windows), and `Text.UniversalNewlines` reads it back. The separator is a parameter of SiiCodec.FileRoundTrip. `LoadLines` takes the lines after translation, and `WriteLines` returns them before it.
- HTTP: `check_stream` decides on an abstract probe outcome. A timeout is one of the request errors.
- The engine: handles are tokens. Whether the `vlc` module can be imported is a boolean parameter of `PlaySelectedStream`, and exceptions raised while loading it are not modelled.
- Threads and `root.after`: a worker's completion is an event handled on its own. The unsynchronised write to `statuses` from the batch worker thread is modelled as a sequential update, without the race.
- A playback worker that fails to start sends no completion, so its instance is never released. The model has no event for it.
- `update_state` reads `streams[index]['name']` after committing. This raises `IndexError` when the row was deleted in between, and the model does not capture it.
- `DeleteStream`: the source does not renumber `currently_playing_index`, and neither does the model.
- `on_close`: it is `stop_playback` followed by settings I/O.
- Text.LowerChar: lower-cases ASCII letters only, not Python's full Unicode case mapping.
- Text.IsDigit: ASCII digits only; Python's `int()` also accepts other Unicode decimal digits.
- Validator.IsValidUrl: `urlparse` is approximated. The URL must start with `http://` or `https://` (case ignored) and be followed by a host part whose first character is not `/`, `?` or `#`. Not modelled: the removal of tabs and newlines; the removal of leading C0 control characters and spaces that newer Python releases perform in `urlsplit` (so `\x01http://a`, which `str.strip` keeps, is accepted by the source but refused by the model); the `ValueError` on a malformed bracketed host; and the `ValueError` that `urlsplit` raises for a non-ASCII host part whose NFKC normal form holds `/`, `?`, `#`, `@` or `:` (for instance `http://a\uFF0Fb`). That error escapes `validate_stream` at lines 211 and 218, while the model accepts the URL.
- SiiCodec.RoundTrip: holds only for records whose fields hold no `|`, `"` or newline. The validator does not forbid these characters, so a record holding one is saved but does not read back as itself.
- SiiCodec.FileRoundTrip: also needs no carriage return in any field. Text-mode reading turns a lone `\r` into a line break, so such a record is split across two lines when read back.
- SiiCodec.FileRoundTrip: characters are not encoded. The file is opened at lines 241 and 499 with the locale's default encoding, and the round trip also needs every character of every field to be representable in it. Otherwise `f.write` at line 506 raises `UnicodeEncodeError` (Cyrillic text under cp1252, say). That is not an `OSError`, so the handler at line 510 does not catch it: the file is left cut short and the exception escapes. A `UnicodeDecodeError` while reading at line 242 escapes in the same way. The model has neither outcome.
- Validator.IsInteger: sets no limit on the number of digits. Newer Python releases make `int()` refuse a decimal text with more digits than `sys.get_int_max_str_digits()` (4300 unless changed). The limit depends on the version and can be changed at run time. Such a bitrate gets "Bitrate must be a number." from the source and is accepted by the model.
