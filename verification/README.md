# Barcode scan pipeline — a Dafny model

The program is a desktop window that receives the keystrokes of a barcode
scanner working as a keyboard. It collects the typed characters in an input
field until Return or Enter arrives. It then strips the collected code of
surrounding whitespace and cuts a fixed piece out of it: from a start offset,
for at most a given length, both set with spin boxes. Each scan becomes a
record (timestamp, original code, extracted text, start, length) appended to
an in-memory history. Buttons clear the history after a confirmation
question, copy the latest extracted text, and export the history as CSV rows.

This project models that pipeline as pure functions over a state of
(input buffer, history) and proves what each step does.

- `wrappers.dfy` — `Option`, for "no latest result" and "nothing to export".
- `text.dfy` (`Text`) — Python's `str.isspace()` character set and `str.strip()`.
- `decimal.dfy` (`Decimal`) — Python's `str(int)`, used for the two integer
  cells of an exported row, and a reader that inverts it.
- `extraction.dfy` (`Extraction`) — Python slicing with non-negative bounds and
  the bounds-checked extraction.
- `history.dfy` (`History`) — the settings, scan records, processing a code,
  clear, copy and the exported rows.
- `scanner.dfy` (`Scanner`) — key events, the key handler, button actions,
  runs of actions and the history invariant.

The timestamp is a parameter (`now`): the clock is not modelled. The spin-box
ranges (offset 0..100, length 1..100) are `History.Config.Valid()`, required by
the steps that read the spin boxes. The answer to the clear confirmation is a
boolean parameter. Strings are sequences of Unicode scalar values, which
Python counts and slices one by one, and whitespace is the set of characters for which
Python's `str.isspace()` holds.

Two behaviours of the code are easy to miss:
- Exporting an empty history writes no file. The window shows a warning
  instead. So "N records give N + 1 rows" holds only for N >= 1, and
  `History.ExportRows` returns `None` for N = 0.
- Clearing takes effect only when the operator confirms. An empty history is
  left alone without asking.

## Model

| member | source | states |
|---|---|---|
| `Text.IsSpace` | barcode_app.py:128 | the characters `strip()` removes: exactly those for which Python's `str.isspace()` holds |
| `Text.LeadingSpaces` | barcode_app.py:128 | the count of leading characters removed by `strip()`: all whitespace, and the next character is not |
| `Text.ContentEnd` | barcode_app.py:128 | where `strip()` cuts the tail: everything from there on is whitespace and the character before it is not |
| `Text.Strip` | barcode_app.py:128 | the stripped code is the piece of the input after its leading whitespace with only whitespace after it; it neither starts nor ends with whitespace; it is empty exactly when the input is all whitespace |
| `Text.StripUnique` | barcode_app.py:128 | any piece of the input with only whitespace around it and none at its own edges is what `strip()` returns |
| `Text.StripKeepsStripped` | barcode_app.py:128 | a code without edge whitespace is returned unchanged |
| `Text.StripIdempotent` | barcode_app.py:128 | stripping an already stripped code changes nothing |
| `Decimal.NatToDecimal` | barcode_app.py:232-233 | the text of a non-negative integer is a non-empty run of digits with no leading zero |
| `Decimal.IntToString` | barcode_app.py:232-233 | Python's `str(n)`: a minus sign for negative `n`, then the digits of the magnitude, and only digits for `n >= 0` |
| `Decimal.DecimalRoundTrip` | barcode_app.py:232-233 | reading the digits written for a natural number gives the number back |
| `Decimal.IntToStringRoundTrip` | barcode_app.py:232-233 | the start and length cells of an exported row read back as the recorded integers |
| `Extraction.Slice` | barcode_app.py:147 | a slice with non-negative bounds has `max(0, min(j, len) - i)` characters and its k-th character is the code's `(i + k)`-th |
| `Extraction.Extract` | barcode_app.py:146-149 | an offset at or past the end gives ""; otherwise the code from the offset up to `min(start + length, len)`, at most `length` characters, non-empty when `length >= 1`, and the code is that piece with its prefix and remainder put back around it |
| `Extraction.ExtractIsSlice` | barcode_app.py:146-149 | the bounds check agrees with the plain slice `barcode[start:start+length]` on every input |
| `Extraction.ExtractChars` | barcode_app.py:146-149 | the extracted text has `min(length, len - start)` characters (none past the end) and each equals the code's character at `start + k` |
| `Extraction.ExtractMonotone` | barcode_app.py:147 | a longer length from the same offset extends the shorter cut |
| `Extraction.ExtractIgnoresTail` | barcode_app.py:147 | characters beyond the cut window do not affect the extracted text |
| `Extraction.Examples` | barcode_app.py:146-149 | "ABC123456" at 0 for 6 gives "ABC123"; "12" at 5 for 3 gives "" |
| `History.ProcessBarcode` | barcode_app.py:142-161 | processing appends exactly one record holding the clock reading, the code, its extraction and the spin-box settings, and keeps every earlier record |
| `History.ProcessBarcodeWellFormed` | barcode_app.py:127-161 | a non-empty stripped code with settings in range gives a record the pipeline can produce, so the history stays well formed |
| `History.WellFormedExtracted` | barcode_app.py:142-149 | in such a record the extracted text has at most `length` characters, is empty exactly when the offset is past the code's end, and is the code's piece at the offset |
| `History.ClearHistory` | barcode_app.py:191-203 | the question is asked exactly when the history is non-empty; an empty history is unchanged; the result is empty exactly when the history was empty or the operator confirmed; otherwise nothing changes |
| `History.CopyResult` | barcode_app.py:243-252 | nothing is copied from an empty history; otherwise the latest record's extracted text |
| `History.CopyAfterProcess` | barcode_app.py:243-249 | right after a code is processed, copy yields that code's extraction |
| `History.CopyAfterClear` | barcode_app.py:200-201 | after a confirmed clear there is nothing to copy |
| `History.RecordRow` | barcode_app.py:228-234 | a data row has one cell per header column: the timestamp, the code, the extraction, then start and length written as Python's `str` writes them |
| `History.RowRoundTrip` | barcode_app.py:228-234 | reading a data row back gives the record it was written from |
| `History.DataRows` | barcode_app.py:227-234 | one data row per record, row `i` written from record `i` |
| `History.ExportRows` | barcode_app.py:205-234 | an empty history exports nothing; otherwise `n + 1` rows: the header, then row `i + 1` written from record `i` |
| `History.ExportRoundTrip` | barcode_app.py:224-234 | reading back the rows `ExportRows` writes gives the exported history, in scan order with every field in place |
| `History.DataRowsRoundTrip` | barcode_app.py:227-234 | reading the data rows back gives the records, in order |
| `History.ParseRowsEach` | barcode_app.py:227-234 | rows that each read back as the matching record read back as the whole record list, in order |
| `Scanner.KeyPress` | barcode_app.py:120-137 | modifiers change nothing; Return/Enter empties the buffer and appends the record of the stripped buffer unless it is all whitespace; any other key appends its text and keeps the history |
| `Scanner.IgnoredKeys` | barcode_app.py:123-135 | a modifier, or an ordinary key typing no text, leaves buffer and history unchanged |
| `Scanner.EnterRecordsIff` | barcode_app.py:127-132 | after Return/Enter the buffer is empty; one record is added if and only if the stripped buffer is non-empty, and then its code is the stripped buffer; earlier records stay |
| `Scanner.Step` | barcode_app.py:120-203 | the clear button leaves the input field alone and either keeps or empties the history; a key press keeps the old history as a prefix of the new |
| `Scanner.RunAppend` | barcode_app.py:120-137 | running two action lists one after the other is running their concatenation |
| `Scanner.TypingAppends` | barcode_app.py:134-137 | typing a code key by key appends it to the input field and leaves the history alone |
| `Scanner.Scan` | barcode_app.py:120-161 | a whole scan from an empty field records the stripped code, unless it is all whitespace, and leaves the field empty |
| `Scanner.StepKeepsInvariant` | barcode_app.py:120-203 | every key press and clear keeps each record well formed |
| `Scanner.RunKeepsInvariant` | barcode_app.py:120-203 | from a well-formed state any run of actions keeps every record well formed |
| `Scanner.ReachableWellFormed` | barcode_app.py:25-203 | from the window's start state (empty field, empty history), every run of actions leaves only well-formed records |
| `Scanner.PressesKeepHistory` | barcode_app.py:120-161 | key presses never remove or alter records: the old history is a prefix of the new |

## Left out

- Window construction, layout, status-bar messages and message boxes: user interface. The confirmation answer is a parameter.
- Settings persistence (`save_settings`, `closeEvent`, the stored defaults): a foreign key-value store. The spin-box values reach the model as `Config`.
- The file dialog, CSV file writing and CSV quoting of cells: file I/O. Only the list of rows is modelled. Updating the output directory after an export is also left out.
- The auto-save append of `timestamp<TAB>extracted` to a log file: file I/O.
- Clock reading and its `%Y-%m-%d %H:%M:%S` formatting: not deterministic. The timestamp is an opaque string parameter.
- Clipboard access: a foreign call. `History.CopyResult` returns the text that would be put there.
- The padded, newest-first history display: presentation only.
- Python strings may hold lone surrogate code points; Dafny's characters are scalar values, so such strings are not modelled. Keyboard input does not produce them.
- Scanner.KeyPress: the input field's default 32767-character limit is not modelled. The buffer is unbounded, because the limit belongs to the widget library and not to the program.
