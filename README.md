# 16tribes subtitle workstation — a verified model of its core

`16tribes.py` is a single-page tool for Taiwan's sixteen indigenous
languages. You upload a recording and pick a language. The tool then:

- cuts the audio into 4500 ms windows;
- has a speech-recognition service transcribe each window;
- drops chunks that are silent or a single character;
- has a translation service render each remaining chunk into Traditional
  Chinese;
- stores every accepted chunk as a row of an SQLite `corpus` table;
- builds the SRT text as it goes, and writes it to a file once the last
  window is done.

A proofreading tab shows the rows of the most recent video 20 to a page.
Edits are kept in a session buffer and written back four ways: by a
periodic autosave, by a per-row save button, by the play button, and by the
export. The export rebuilds the SRT from the corpus with the buffer laid
over it. An embedded player shows the subtitle that covers the playback
position and can loop one sentence.

This project models that core in Dafny and proves what it promises.

- The services are oracles: a function from the attempt number to what the
  call does. The pipeline's oracles also take the window start, so the
  recognition of window `w` on attempt `k` is `asr(w.start)(k)`.
- The clock is a millisecond parameter.
- The database is an in-memory class, `Corpus.CorpusStore`. Its rows are
  kept in rowid order, with an AUTOINCREMENT counter.
- The session is a class, `Workstation.Session`. It holds the edit buffer,
  the autosave clock and the player's jump target.

The modules follow the program's parts:

| module | part of the program |
|---|---|
| `Decimal` | decimal spelling of numbers |
| `SrtTime` | `get_srt_time` |
| `Text` | `str.strip` and the silence test |
| `RobustCall` | `robust_predict` |
| `Timeline` | the 4500 ms windows |
| `Languages` | the language table |
| `Corpus` | the table and its queries |
| `Edits` | the edit buffer and autosave on rows |
| `Subtitles` | SRT blocks, fresh and rebuilt |
| `Pipeline` | `run_v16_workflow`, as a specification function and as the imperative loop |
| `RunFacts` | what a run does, window by window |
| `Playback` | the player script |
| `Pagination` | the pager |
| `Workstation` | the session and its buttons |

Autosave works entry by entry:

- it issues one `UPDATE` per buffer entry, in buffer order;
- a key without `_` is skipped;
- an `UPDATE` whose id part matches no row does nothing and raises no error;
- an empty buffer returns early and does not reset the autosave clock.

## Model

| member | source | states |
|---|---|---|
| `Decimal.NatToString` | 16tribes.py:202 | the index printed in a block is a non-empty digit string with no leading zero |
| `Decimal.DigitsValueOfNatToString` | 16tribes.py:202 | reading the printed index back in base 10 gives the number |
| `Decimal.NatToStringInjective` | 16tribes.py:202 | distinct numbers print differently |
| `Decimal.NatToStringOfDigitsValue` | 16tribes.py:174-175 | a digit string without a superfluous leading zero is the printing of its value, so the id part of an edit key names exactly one row id |
| `SrtTime.Format` | 16tribes.py:131-133 | `get_srt_time`: whole seconds by floor division, `%H:%M:%S` from them with the hour modulo 24, then `,` and the milliseconds in three digits; its layout and inverse are stated by `SrtTime.FormatLayout` and `SrtTime.ParseFormat` |
| `SrtTime.Pad2` | 16tribes.py:133 | `%H`/`%M`/`%S` give two digits whose value is the field |
| `SrtTime.Pad3` | 16tribes.py:133 | `{…:03}` gives three digits whose value is the milliseconds |
| `SrtTime.FieldsFromMillis` | 16tribes.py:132-133 | the nested floors of `gmtime` then `strftime` equal dividing the millisecond offset directly |
| `SrtTime.FormatLayout` | 16tribes.py:133 | a timestamp is 12 characters, `HH:MM:SS,mmm`, each field in range and made of its digits |
| `SrtTime.ParseFormat` | 16tribes.py:131-133 | parsing a timestamp gives back the offset modulo one day (the hour wraps at 24) |
| `SrtTime.DayDecomposition` | 16tribes.py:132-133 | hours, minutes, seconds and milliseconds recompose the offset modulo one day |
| `SrtTime.WithinDayDecomposition` | 16tribes.py:132-133 | within one day the fields recompose the offset itself |
| `SrtTime.ParseFormatWithinDay` | 16tribes.py:131-133 | in the first 24 hours a timestamp reads back as the offset |
| `SrtTime.FormatInjectiveModDay` | 16tribes.py:131-133 | two offsets print alike exactly when they agree modulo one day |
| `SrtTime.FieldsModDay` | 16tribes.py:132 | every field of an offset is the field of its remainder modulo one day |
| `SrtTime.FieldsAgreeModDay` | 16tribes.py:132 | offsets equal modulo one day have equal fields |
| `SrtTime.ExampleFourAndAHalfSeconds` | 16tribes.py:131-133 | 4500 ms prints `00:00:04,500` |
| `SrtTime.ExampleOneHourOneMinute` | 16tribes.py:131-133 | 3661023 ms prints `01:01:01,023` |
| `SrtTime.ExampleNineSeconds` | 16tribes.py:131-133 | 9000 ms prints `00:00:09,000` |
| `SrtTime.ExampleEightPointNineFiveSeconds` | 16tribes.py:131-133 | 8950 ms prints `00:00:08,950` |
| `SrtTime.ExampleZero` | 16tribes.py:131-133 | 0 ms prints `00:00:00,000` |
| `SrtTime.ExampleMinusFifty` | 16tribes.py:131-133 | −50 ms prints `23:59:59,950`, the last second of the previous day |
| `SrtTime.ExampleNextDay` | 16tribes.py:131-133 | one day plus 4500 ms prints as 4500 ms does |
| `Text.Strip` | 16tribes.py:196 | `strip` never lengthens its input |
| `Text.IsSpace` | 16tribes.py:196 | the characters `str.isspace` accepts, which `strip()` removes: characters 9-13 (tab to carriage return), 28-32 (the four separators and the space), and the Unicode spaces Python counts as whitespace |
| `Text.LeadingSpaceMeaning` | 16tribes.py:196 | the leading run `strip` removes is all whitespace and cannot be extended |
| `Text.TrailingSpaceMeaning` | 16tribes.py:196 | likewise for the trailing run |
| `Text.StripMeaning` | 16tribes.py:196 | `strip` returns a slice of its input whose outside is all whitespace and whose ends are not whitespace |
| `Text.Keep` | 16tribes.py:196 | `raw and len(str(raw).strip()) > 1`: the chunk is non-empty and its stripped form has more than one character; `Text.KeepIffTwoNonSpace` states what that means |
| `Text.KeepIffTwoNonSpace` | 16tribes.py:196 | a chunk is kept exactly when it holds two non-whitespace characters |
| `Text.DropExamples` | 16tribes.py:196 | `""`, `" "`, `"a"` and `" a\n"` are dropped |
| `Text.KeepExamples` | 16tribes.py:196 | `"ab"` and `" a b "` are kept |
| `RobustCall.RetryFrom` | 16tribes.py:125-129 | the retry loop from attempt `k`: the first attempt that returns gives its value; a raise before the third attempt moves on; a raise on the third is re-raised |
| `RobustCall.Retry` | 16tribes.py:124-129 | `robust_predict` as a value: the retry loop from the first attempt; `RobustCall.RetryMeaning` states its outcome |
| `RobustCall.LastAttempt` | 16tribes.py:125-129 | the attempt that ends the loop is the first that returns, or the third, and every earlier one raised |
| `RobustCall.RetryMeaning` | 16tribes.py:124-129 | the call succeeds exactly when one of three attempts returns, with the first return value; otherwise all three raised and the third error is re-raised |
| `RobustCall.RobustPredict` | 16tribes.py:124-129 | the loop makes 1 to 3 calls and sleeps once fewer; its outcome is the retry outcome; failure means three calls and the last error |
| `Timeline.WindowsFrom` | 16tribes.py:190-206 | the windows the loop visits from `current_start`: `[start, min(start + 4500, duration))`, then on from its end, until the duration is reached |
| `Timeline.Windows` | 16tribes.py:187-206 | the windows of a whole recording, from 0; `Timeline.WindowsTile` states that they tile it |
| `Timeline.WindowsFromTile` | 16tribes.py:190-206 | the windows from a start tile up to the duration: they are contiguous and non-empty, all full but the last, and none longer than 4500 ms |
| `Timeline.WindowsFromCount` | 16tribes.py:190-206 | there are ⌈(duration − start)/4500⌉ windows |
| `Timeline.WindowsTile` | 16tribes.py:185-191 | all windows of a recording tile `[0, duration)`, ⌈duration/4500⌉ of them |
| `Timeline.WindowStartsIncrease` | 16tribes.py:206 | window starts strictly increase and windows do not overlap |
| `Timeline.WindowStartAt` | 16tribes.py:190-206 | window `i` starts at `start + 4500·i` |
| `Timeline.FullWindowsWhenDivisible` | 16tribes.py:191 | when the duration is a multiple of 4500 every window is full |
| `Timeline.WindowsFromStep` | 16tribes.py:190-206 | one loop iteration consumes exactly the next window |
| `Timeline.TenSecondExample` | 16tribes.py:185-191 | 10000 ms gives (0,4500), (4500,9000), (9000,10000) |
| `Languages.DisplayName` | 16tribes.py:13-31 | the key of each `LANG_MATRIX` entry, which the run stores in the `lang` column |
| `Languages.AsrModel` | 16tribes.py:13-31 | each entry's `asr` model id, which the run passes to every recognition request |
| `Languages.Ethnonym` | 16tribes.py:13-31 | each entry's `eth` name, which the run looks up to get the translation source code |
| `Languages.ProfilesDistinct` | 16tribes.py:14-31 | different languages have different recognition models, ethnonyms and names |
| `Corpus.WithField` | 16tribes.py:175 | changing one text column sets it and leaves every other column as it was |
| `Corpus.SetField` | 16tribes.py:175 | `UPDATE … WHERE id=?` changes that field of the row with that id only, and nothing when the id is absent |
| `Corpus.FilterVideo` | 16tribes.py:240 | the `WHERE video_path = ?` filter returns no more rows than the table |
| `Corpus.FilterVideoMembers` | 16tribes.py:240 | the filter keeps exactly the rows of the video |
| `Corpus.SortedCons` | 16tribes.py:240 | a row no later than a sorted tail can go in front of it |
| `Corpus.SortedAfterHead` | 16tribes.py:240 | a sorted tail with a later row inserted can follow the head |
| `Corpus.InsertByStart` | 16tribes.py:240 | inserting adds exactly that row and keeps the rows sorted |
| `Corpus.SortByStart` | 16tribes.py:240 | `ORDER BY start_ms ASC` returns a sorted permutation of its input |
| `Corpus.SortSortedIsIdentity` | 16tribes.py:240 | sorting rows already in order changes nothing |
| `Corpus.QueryByVideo` | 16tribes.py:240 | the query is sorted by start, a permutation of the filtered rows, and holds exactly the rows of the video |
| `Corpus.FilterAppend` | 16tribes.py:240 | filtering distributes over appended rows |
| `Corpus.FilterNoneMatch` | 16tribes.py:240 | no row of the video means an empty filter |
| `Corpus.FilterAllMatch` | 16tribes.py:240 | rows all of the video pass the filter unchanged |
| `Corpus.QueryOfAppendedRows` | 16tribes.py:240 | rows appended in start order for a new video come back exactly, in that order |
| `Corpus.MapRows` | 16tribes.py:172-175 | rewriting every row keeps the number of rows |
| `Corpus.MapRowsCons` | 16tribes.py:172-175 | rewriting distributes over the first row |
| `Corpus.FilterMapRows` | 16tribes.py:240 | rewriting text columns commutes with the video filter |
| `Corpus.InsertMapRows` | 16tribes.py:240 | rewriting text columns commutes with insertion by start |
| `Corpus.SortMapRows` | 16tribes.py:240 | rewriting text columns commutes with the sort |
| `Corpus.QueryMapRows` | 16tribes.py:240 | rewriting text columns then querying gives the query rewritten, row for row |
| `Corpus.LexLeTotal` | 16tribes.py:237 | text comparison of `created_at` is total |
| `Corpus.LexLeReflexive` | 16tribes.py:237 | and reflexive |
| `Corpus.LexLeTransitive` | 16tribes.py:237 | and transitive |
| `Corpus.Latest` | 16tribes.py:237 | `ORDER BY created_at DESC LIMIT 1` is empty only on an empty table, and otherwise returns a row whose `created_at` is not below any other |
| `Corpus.CorpusStore.constructor` | 16tribes.py:102-108 | a new table is empty with the id counter at 1 |
| `Corpus.CorpusStore.Insert` | 16tribes.py:199-200 | the new row is appended with the next id, above every existing id, and the counter moves on |
| `Corpus.CorpusStore.UpdateField` | 16tribes.py:175 | one column of the row with that id takes the value |
| `Corpus.CorpusStore.UpdateRow` | 16tribes.py:317-318 | both text columns of the row with that id take the values |
| `Corpus.CorpusStore.DeleteAll` | 16tribes.py:330 | every row goes; the id counter is kept, so ids are never reused |
| `Corpus.CorpusStore.Query` | 16tribes.py:240 | the rows of the video, sorted by start: exactly the table's rows with that path, each as often as in the table |
| `Corpus.CorpusStore.LatestRow` | 16tribes.py:237 | a row with the greatest `created_at`, or none on an empty table |
| `Edits.Lookup` | 16tribes.py:252-253 | `temp_edits.get(key)`: a value is found exactly when some entry has the key, and it is the value of such an entry |
| `Edits.Overlay` | 16tribes.py:252-253 | `temp_edits.get(key, stored)`: the buffered text when the key is in the buffer, the stored text otherwise |
| `Edits.Replace` | 16tribes.py:312-313 | overwriting a key keeps every position and every other key's value |
| `Edits.Put` | 16tribes.py:312-313 | `d[key] = value`: the key then reads the value; other keys read what they did; an existing key keeps its place and a new one is appended |
| `Edits.PutKeepsKeysDistinct` | 16tribes.py:312-313 | the buffer never holds a key twice |
| `Edits.EditKey` | 16tribes.py:312-313 | the key a text area writes, `r_{id}` or `t_{id}`; `Edits.ParseEditKey` and `Edits.EditKeyCanonical` state that autosave reads it back |
| `Edits.IndexOf` | 16tribes.py:174 | finds the first `_` |
| `Edits.ParseKey` | 16tribes.py:173-174 | a key is split exactly when it contains `_`; the prefix `r` selects `raw_text`, anything else `translated_text` |
| `Edits.RowIdOf` | 16tribes.py:175 | the row that `WHERE id=?` matches for the id text: its decimal value when it is a digit string, none otherwise; `Edits.ParseEditKey` states that it inverts the printing of an id |
| `Edits.UnderscoresAppend` | 16tribes.py:174 | underscore counts add up over concatenation |
| `Edits.NoUnderscoreInDecimal` | 16tribes.py:174 | a row id spelling contains no `_` |
| `Edits.ParseEditKey` | 16tribes.py:312-313 | the keys the editor writes split back into their column and row id |
| `Edits.ApplyEdit` | 16tribes.py:172-175 | one autosave iteration: a key without `_` changes nothing; otherwise only the targeted field of the targeted row changes |
| `Edits.ApplyEdits` | 16tribes.py:168-177 | the autosave loop: each entry applied in turn, in buffer order; `Edits.ApplyEditsPointwise` states the result field by field |
| `Edits.ApplyEditsPointwise` | 16tribes.py:168-177 | after autosave every row keeps its other columns, and each text holds the last buffer entry aimed at it, or its old value |
| `Edits.RowsEqual` | 16tribes.py:172-175 | rows agreeing on every column are equal |
| `Edits.AutosaveIdempotent` | 16tribes.py:168-177 | autosaving twice stores what autosaving once does |
| `Edits.EditKeyCanonical` | 16tribes.py:312-313 | every key the editor writes is one autosave reads back exactly |
| `Edits.TargetsIffKey` | 16tribes.py:174-175 | for such keys, an entry targets column `f` of row `id` exactly when its key is that row's key for `f` |
| `Edits.LastEditForIsLookup` | 16tribes.py:172-175 | the last entry aimed at a field is the buffer lookup of the field's key |
| `Edits.AutosaveMatchesOverlay` | 16tribes.py:168-177 | after autosave each stored text is the buffer-over-store text |
| `Edits.OverlayStableUnderAutosave` | 16tribes.py:245-253 | the overlay read gives the same text before and after autosave, and after it the store agrees |
| `Edits.OverlayExample` | 16tribes.py:172-175 | stored `"A"` and buffered `"B"` read `"B"`, and autosave stores `"B"` |
| `Edits.SavedRow` | 16tribes.py:252-253 | a row as the buffer-over-store read shows it: its other columns unchanged, each text the overlay |
| `Edits.AutosaveIsMap` | 16tribes.py:168-177 | autosave of an editor-written buffer rewrites each row into its overlay view, and changes neither start nor path |
| `Subtitles.Block` | 16tribes.py:202 | one SRT block: the index, the start and end stamps joined by ` --> `, the original and the translation, each line ending in a newline |
| `Subtitles.FreshSrt` | 16tribes.py:202-208 | the SRT of a run: its blocks, ending 100 ms before each window ends, joined by newlines; `Subtitles.FreshBlocksSnoc` states its numbering |
| `Subtitles.RebuiltBlock` | 16tribes.py:252-254 | an exported block: the row's start, start + 4400, and the buffer-over-store texts |
| `Subtitles.RebuiltSrt` | 16tribes.py:250-255 | the exported SRT: one rebuilt block per queried row, numbered from 1, joined by newlines; `Subtitles.RebuiltOfSavedRows` and `Workstation.ExportEqualsSavedStore` relate it to the saved store |
| `Subtitles.JoinBlocks` | 16tribes.py:208 | `"\n".join` of no blocks is empty and of one block is that block |
| `Subtitles.FreshBlocks` | 16tribes.py:202-203 | the run writes one block per accepted window |
| `Subtitles.RebuiltBlocks` | 16tribes.py:251-254 | the export writes one block per queried row |
| `Subtitles.NewRows` | 16tribes.py:199-200 | a run inserts one row per accepted window |
| `Subtitles.FreshSrtOne` | 16tribes.py:202-208 | a single accepted window gives exactly its block, numbered 1 |
| `Subtitles.FreshBlocksSnoc` | 16tribes.py:202-203 | each accepted window appends the block numbered one past the previous, so the numbers run 1..n over accepted windows only |
| `Subtitles.NewRowsSnoc` | 16tribes.py:199-200 | each accepted window appends its row with the next id |
| `Subtitles.NewRowsAppend` | 16tribes.py:199-200 | the rows of two stretches of windows concatenate |
| `Subtitles.RebuiltMatchesFreshOnFullWindow` | 16tribes.py:254 | for a full window and an untouched row, the rebuilt block (start + 4400) equals the block the run wrote (end − 100) |
| `Subtitles.RebuiltBlockOfRunRow` | 16tribes.py:254 | the same, block by block, for the rows a run inserted |
| `Subtitles.RebuiltSrtOfRunRows` | 16tribes.py:250-255 | with full windows and no edits the export reproduces the run's SRT |
| `Subtitles.RebuiltOfSavedRows` | 16tribes.py:250-255 | rebuilding saved rows with no buffer equals rebuilding the unsaved rows under the buffer |
| `Subtitles.ShortWindowEndsBeforeStart` | 16tribes.py:191-202 | a last window shorter than 100 ms that ends at or after 100 ms, within the first day, gets a block whose end stamp reads earlier than its start |
| `Subtitles.NegativeStampWraps` | 16tribes.py:131-133 | a negative offset of less than a day prints as the previous day's clock, the stamp of the offset one day later |
| `Subtitles.ShortRecordingEndWraps` | 16tribes.py:191-202 | a window ending before 100 ms gets an end stamp of the previous day, which reads back almost a day later than its start |
| `Subtitles.ShortRecordingExample` | 16tribes.py:190-202 | a 50 ms recording has the single window (0,50), whose block runs from `00:00:00,000` to `23:59:59,950` |
| `Subtitles.ShortWindowExample` | 16tribes.py:190-202 | a 9050 ms recording has the windows (0,4500), (4500,9000) and (9000,9050), and the block written for the last of them runs from `00:00:09,000` to `00:00:08,950` |
| `Pipeline.TranslateStep` | 16tribes.py:197-203 | a kept chunk: one translation request into `zho_Hant`; a failure aborts at the window, a success adds the window's segment |
| `Pipeline.StepWindow` | 16tribes.py:191-203 | one loop iteration: a recognition request with the language's model; a failure aborts at the window, a dropped chunk adds nothing, a kept one goes on to `Pipeline.TranslateStep`; `RunFacts.SkipRule` and `RunFacts.StepWindowShape` state its outcome |
| `Pipeline.Scan` | 16tribes.py:190-206 | the while loop over the windows, stopping at the first failure; `Pipeline.ScanStopsAfterFailure` and `RunFacts.AbortedScan` state the stop |
| `Pipeline.Run` | 16tribes.py:179-206 | a whole run: the source-code lookup with the language's ethnonym, aborting before any window when it fails, then the loop over every window |
| `Pipeline.ResultOf` | 16tribes.py:208-212 | what the run returns: the joined SRT of its segments when it finishes, or the window and error that aborted it |
| `Pipeline.ScanSnoc` | 16tribes.py:190-206 | the loop over one more window is one more iteration, unless it has already stopped |
| `Pipeline.ScanStopsAfterFailure` | 16tribes.py:190-206 | once a window has failed, no later window is processed |
| `Pipeline.RunAfterLookup` | 16tribes.py:186-190 | a run whose source lookup succeeds is the lookup request followed by the window loop |
| `Pipeline.StoreSegment` | 16tribes.py:198-203 | storing an accepted window inserts its row with the next id, appends its block, and advances the block number |
| `Pipeline.TranslateAndStore` | 16tribes.py:197-203 | translating a kept chunk and storing it is one step of the specification, with the rows and blocks it implies |
| `Pipeline.ProcessWindow` | 16tribes.py:191-206 | one iteration of the loop is one step of the specification; a failure ends every later step |
| `Pipeline.ScanWindows` | 16tribes.py:187-206 | the loop ends where the specification does: the same segments, requests and failure, SRT blocks for exactly the segments, and exactly their rows appended to the table |
| `Pipeline.RunWorkflow` | 16tribes.py:179-212 | the whole run: the result, the requests made and the rows appended are those of the specification `Run` |
| `RunFacts.SkipRule` | 16tribes.py:195-203 | after a recognised chunk, a translation is requested exactly when the chunk is kept, and a segment is added exactly when it is kept and translated; a dropped chunk changes nothing else |
| `RunFacts.StepWindowShape` | 16tribes.py:195-203 | one window adds at most its own segment, keeps earlier segments and requests, and fails only when one of its services fails |
| `RunFacts.StepWindowCalls` | 16tribes.py:195-197 | each request of a window is a recognition with the language's model or a translation of a kept chunk into `zho_Hant` |
| `RunFacts.SegmentsFromWindows` | 16tribes.py:190-203 | each segment, finished or aborted, is one window's bounds, recognised text and translation |
| `RunFacts.SegmentsInOrder` | 16tribes.py:190-206 | the segments, and so the rows and SRT blocks of a run, are in strictly increasing start order |
| `RunFacts.FinishedScan` | 16tribes.py:190-206 | a finished loop recognised every window, holds a segment for every kept one, and made one recognition per window plus one translation per segment |
| `RunFacts.ScanCalls` | 16tribes.py:195-197 | every request of a run is well formed; no translation is requested for a dropped chunk |
| `RunFacts.AbortedScan` | 16tribes.py:190-206 | an aborted loop stopped at a window whose service failed, after every earlier window went through |
| `RunFacts.StopsAtExtend` | 16tribes.py:190-206 | the stopping window stays the same when more windows follow it |
| `RunFacts.StopsAtLast` | 16tribes.py:190-206 | when the first failure is at the last window, the run stops there |
| `RunFacts.WindowsInOrder` | 16tribes.py:206 | the windows of a recording are in time order |
| `RunFacts.ExportMatchesRun` | 16tribes.py:250-255 | for a new video whose length is a multiple of 4500 ms and an empty buffer, the export rebuilds exactly the SRT the run wrote |
| `RunFacts.LookupFailureAborts` | 16tribes.py:186 | a failed source lookup aborts before any window, with the lookup's third error |
| `RunFacts.FirstChunkFails` | 16tribes.py:195 | three failed recognitions of the first chunk abort there, after two requests and with no segment |
| `RunFacts.SilentSecondChunkScan` | 16tribes.py:190-206 | a 9000 ms recording with a silent second chunk makes three requests and keeps one segment |
| `RunFacts.SilentSecondChunk` | 16tribes.py:186-208 | and its SRT is the single block 1, from 0 ms to 4400 ms |
| `Playback.Shows` | 16tribes.py:156 | a subtitle is eligible when the position is between its start and 4500 ms after it, both ends included |
| `Playback.Caption` | 16tribes.py:157 | the overlay markup: the original, a line break, and the translation in a smaller span |
| `Playback.FirstShowing` | 16tribes.py:155-160 | the first subtitle whose span contains the position; none exactly when no subtitle shows |
| `Playback.ActiveSubtitle` | 16tribes.py:154-161 | the search loop finds that subtitle and leaves its caption, or the empty string |
| `Playback.LoopReset` | 16tribes.py:162 | in loop mode the position returns to the jump target once it is 4500 ms past; otherwise it is untouched |
| `Playback.OnTimeUpdate` | 16tribes.py:153-163 | the handler shows the first covering subtitle and then applies the loop check |
| `Playback.SpacedApart` | 16tribes.py:156 | subtitles spaced by 4500 ms are at least that far apart pairwise |
| `Playback.SpacedShowsCurrent` | 16tribes.py:155-160 | strictly after a subtitle's start and within its span, that subtitle is the one shown |
| `Playback.BoundaryShowsPrevious` | 16tribes.py:156-158 | at the exact start of a subtitle that follows another by 4500 ms, the earlier one still shows |
| `Playback.SpacedNothingAfterLast` | 16tribes.py:155-161 | past the last span the overlay is empty |
| `Playback.LoopShowsSelected` | 16tribes.py:162 | in loop mode the position the handler leaves is within 4500 ms of the selected sentence's start; strictly after that start the sentence is shown (at the start itself an adjacent earlier sentence still shows, see `Playback.BoundaryShowsPrevious`) |
| `Pagination.TotalPages` | 16tribes.py:272-274 | the page count is the fewest pages of 20 that hold every row |
| `Pagination.PageRange` | 16tribes.py:281-289 | page `p` covers rows `[(p−1)·20, min(p·20, n))`; it is never empty; only the last page can be short |
| `Pagination.PageRows` | 16tribes.py:290 | a page has as many rows as its range |
| `Pagination.PageOfRow` | 16tribes.py:272-290 | row `k` lies on page `k/20 + 1` and on no other |
| `Pagination.RowOnItsPage` | 16tribes.py:288-290 | every row is shown, as entry `k mod 20` of its page |
| `Workstation.SubtitlesOf` | 16tribes.py:293-298 | the player gets one subtitle per queried row |
| `Workstation.ExportEqualsSavedStore` | 16tribes.py:245-255 | the export, read from rows queried before the autosave, equals what the saved store holds for the video, read with no buffer |
| `Workstation.SubtitlesStableUnderAutosave` | 16tribes.py:295-298 | the player shows the same texts before and after an autosave |
| `Workstation.SaveRowMatchesOverlay` | 16tribes.py:315-319 | after the row save that row holds its buffer-over-store texts and other rows are unchanged |
| `Workstation.PutKeepsCanonical` | 16tribes.py:312-313 | the editor only ever writes keys autosave can read back |
| `Workstation.ApplyEditsSnoc` | 16tribes.py:172-175 | autosave over one more entry applies that entry last |
| `Workstation.WriteEntry` | 16tribes.py:173-175 | one iteration of the autosave loop updates the store as `ApplyEdit` says |
| `Workstation.FinalSrt` | 16tribes.py:250-255 | the export loop's text is the rebuilt SRT, numbered 1..n in query order |
| `Workstation.Session.constructor` | 16tribes.py:92-94 | a session starts with an empty buffer, the autosave clock at now, and jump target 0 |
| `Workstation.Session.EditText` | 16tribes.py:312-313 | a text area writes its value under the row's key; the buffer keeps one entry per key |
| `Workstation.Session.Autosave` | 16tribes.py:168-177 | the store becomes `ApplyEdits` of the buffer; the buffer is kept; an empty buffer leaves the clock alone |
| `Workstation.Session.MaybeAutosave` | 16tribes.py:245 | autosave runs exactly when more than 60 s have passed |
| `Workstation.Session.SaveRow` | 16tribes.py:315-319 | both buffered texts of the row are written in one update |
| `Workstation.Session.Play` | 16tribes.py:306-307 | autosave, then the jump target becomes the row's start |
| `Workstation.Session.PlayerSubtitles` | 16tribes.py:293-298 | the loop builds the player's list from every queried row |
| `Workstation.Session.Export` | 16tribes.py:247-259 | autosave, then the rebuilt SRT of the rows queried earlier, recorded as ready |
| `Workstation.Session.ClearHistory` | 16tribes.py:329-331 | every row is deleted, the id counter is kept, and the export is withdrawn |

## Left out

- The Streamlit interface is not modelled: tabs, buttons, spinners, toasts,
  the progress bar, the CSS and the HTML around the overlay. Where a button
  changes state it appears as a method of `Session`.
- The recognition and translation clients are oracles. `robust_predict`'s
  two-second sleeps are counted, not taken.
- The source of the `/lambda` lookup result (its `['value']` field) is taken
  to be a string.
- Writing the upload to disk, audio decoding and slicing (pydub), and the
  temporary chunk files are left out. The duration is a parameter.
- Subtitle burning with ffmpeg and the output file names (`_raw.mp4`,
  `_final.mp4`, `temp.srt`, `final.srt`) are left out, since they are
  external processes and file I/O.
- Floating point is left out. Positions and durations are whole
  milliseconds. The player's `currentTime * 1000` and the jump target
  `start_ms / 1000.0` are exact in the model.
- The wall clock is a parameter. `created_at` is a `stamp` oracle of the
  window start, and the video path is a parameter.
- `Corpus.Latest`: states only that the row has a greatest `created_at`;
  which of several rows with equal timestamps SQLite returns is left open.
- `Corpus.SortByStart`: rows with equal `start_ms` stay in rowid order,
  which SQLite does not promise. The model picks this one order.
- `Edits.ParseKey`: a key with two or more `_` is excluded by a
  precondition, because the source raises `ValueError` when it unpacks it.
  Keys the editor writes always have exactly one.
- `Edits.RowIdOf`: SQLite's text-to-integer conversion of ids such as
  `"+5"` or `"5.0"` is left out. Only plain digit strings match a row.
- `temp_edits` is a Python dict. It is modelled as a sequence of entries
  with distinct keys, in insertion order.
- `Workstation.Session.SaveRow`: requires both buffer entries of the row.
  The source always writes them just before, and would raise `KeyError`
  otherwise.
- `Pipeline`: the window loop is split into helper methods, one per part
  of the loop body. Together they perform the source's single loop in the
  same order.
- `Text.Strip`: its own contract states only a length bound. What it means
  is proved in `Text.StripMeaning`.
- Python's `str(raw)` of a non-string recognition result is left out. The
  recognised text is a string.
