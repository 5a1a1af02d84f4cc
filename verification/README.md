# SST drive data logger — a Dafny model of its reporting rules

The logger is a Python script an operator runs on a Windows host. It asks the
vendor tool `sst show -output json -ssd` for the solid-state drives it can see,
prints each drive's index, serial number, model, firmware and health to the
terminal, appends the raw fields to a CSV log, and finally asks whether to
power the host off. One drive, the boot drive with serial `21314E804991`, is
skipped by both the terminal report and the log.

This project models the deterministic rules inside that glue:

- `Inventory`: the tool's snapshot as an insertion-ordered sequence of
  (drive id, record) entries, a record being the drive's JSON object (field
  name to value text), and the boot-drive filter, which compares the entry's
  key with the boot serial.
- `Styles`: the ANSI select-graphic-rendition strings the report uses, and
  `Visible`, the text a terminal shows once every escape sequence is removed.
- `Formatter`: the serial-number highlighter (fixed offsets with Python's
  slicing rules: an index past the end raises, a slice past the end is
  clipped) and the health colouring (an exact, case-sensitive match with
  `"Healthy"`).
- `TerminalReport`: the printed screen, line by line. A missing field or a
  serial shorter than 16 characters raises: the lines already printed stay and
  the report stops there.
- `LogWriter`: the log as `Option<seq<seq<string>>>` (`None` is a missing
  file), create-if-absent with the header row, and one appended row per
  non-boot drive. A record missing one of the four fields yields a warning
  instead of a row and the loop goes on.
- `PowerPrompt`: the closing y/n question as a function of the operator's
  lines.
- `Program`: `main` composed from the above, and the worked example of a
  snapshot holding the boot drive and one other drive.

Where the code contradicts its own header row and slice comments, the model
follows the code:

- The header row (sst_drive_data_logger_py3.py:177-182) reads Model, Serial,
  Firmware, Device_Status, but each row is written Serial, Model, Firmware,
  DeviceStatus (lines 245-250). The model keeps the written order;
  `LogWriter.RowDisagreesWithHeader` states the swap.
- The slice comments (lines 120-126) lay a serial out over 18 characters, but
  only index 15 is read directly. A serial of 16 or 17 characters is therefore
  highlighted without complaint, with its last segment shortened. Characters
  past position 18 are dropped, so removing the styles gives the input back
  only for serials of 16 to 18 characters.
- The filter compares the snapshot key with the boot serial, not the record's
  `SerialNumber` field (`Inventory.FilterIsByKey`).

## Model

| member | source | states |
|---|---|---|
| Inventory.NonBootMembers | sst_drive_data_logger_py3.py:90-92 | an entry survives the boot filter exactly when it is in the snapshot and its key is not the boot serial |
| Inventory.NonBootCounts | sst_drive_data_logger_py3.py:90-92 | each non-boot entry survives the filter as often as it occurs in the snapshot, and a boot entry never |
| Inventory.NonBootAppend | sst_drive_data_logger_py3.py:90-92 | the filter keeps snapshot order: filtering a concatenation concatenates the filtered parts |
| Inventory.NonBootIgnoresBootEntry | sst_drive_data_logger_py3.py:194-196 | a boot entry at any position, with any record, does not change the filtered snapshot |
| Inventory.NonBootIdempotent | sst_drive_data_logger_py3.py:90-92 | filtering twice is filtering once |
| Inventory.FilterIsByKey | sst_drive_data_logger_py3.py:24 | a record whose SerialNumber field is the boot serial is kept when its key is another id |
| Styles.MarkersDistinct | sst_drive_data_logger_py3.py:259-271 | the date, counter, healthy and unhealthy styles differ from each other where they share a role and from the reset |
| Formatter.HighlightSerial | sst_drive_data_logger_py3.py:120-136 | fails with an index error exactly when the serial is shorter than 16; otherwise the first four characters, the date segment in the date style, the counter in the counter style, then characters 12 up to 18 (clipped) |
| Formatter.HighlightFullWidth | sst_drive_data_logger_py3.py:127-134 | for a serial of 18 or more, the output is s[0:4], date style, s[4:8], reset, counter style, s[8:12], reset, s[12:18] |
| Formatter.HighlightVisible | sst_drive_data_logger_py3.py:126-134 | on a terminal the highlighted serial reads as the serial cut to its first 18 characters |
| Formatter.HighlightRoundTrip | sst_drive_data_logger_py3.py:120-126 | removing the styles gives back a serial of 16 to 18 characters whole, and a longer one without its characters past 18 |
| Formatter.FormatHealth | sst_drive_data_logger_py3.py:148-157 | the output starts with the healthy style exactly when the status is "Healthy", with the unhealthy style for every other status, is the chosen style, then the status verbatim, then the reset, and shows as the status itself |
| Formatter.HealthExamples | sst_drive_data_logger_py3.py:152-155 | "Healthy" is shown healthy; "healthy", "", "Degraded" and "Failed" are shown unhealthy |
| TerminalReport.DriveBlock | sst_drive_data_logger_py3.py:94-104 | a drive block prints fully (six lines: index, highlighted serial, model, firmware, coloured status, blank) exactly when every field is present and the serial reaches index 15; otherwise the first missing field in print order, or the short serial, decides the exception, and the lines printed before it (none for a missing Index, the index line alone for a missing or short serial, and so on) are the full block's lines |
| TerminalReport.DriveBlockPrintable | sst_drive_data_logger_py3.py:94-104 | a printable record prints the index, highlighted serial, model, firmware and coloured status lines, then a blank line |
| TerminalReport.ReportDrivesAppend | sst_drive_data_logger_py3.py:90-104 | reporting a concatenation is reporting the first part and then, unless it raised, the second |
| TerminalReport.ReportIgnoresBoot | sst_drive_data_logger_py3.py:90-92 | the screen for a snapshot is the screen for its non-boot entries |
| TerminalReport.ReportBootAnywhere | sst_drive_data_logger_py3.py:91-92 | a boot entry at any position, with any record, leaves the screen unchanged |
| TerminalReport.ReportCompletes | sst_drive_data_logger_py3.py:90-104 | the report runs to the end exactly when every non-boot record is printable, and then prints six lines per non-boot drive |
| TerminalReport.ReportBlocks | sst_drive_data_logger_py3.py:90-104 | a report that runs to the end shows exactly the drive blocks of the non-boot entries, one after another in snapshot order |
| TerminalReport.ReportStartsBlank | sst_drive_data_logger_py3.py:89 | the screen opens with a blank line and raises exactly when the drive loop raises |
| LogWriter.EnsureLogFile | sst_drive_data_logger_py3.py:215-224 | an existing log is left untouched; a missing one becomes the header row alone |
| LogWriter.EnsureLogFileIdempotent | sst_drive_data_logger_py3.py:208-224 | creating the log twice equals creating it once, so a new log holds one header row |
| LogWriter.BuildRow | sst_drive_data_logger_py3.py:245-250 | a row is built exactly when the four fields are present; it holds SerialNumber, ModelNumber, Firmware, DeviceStatus verbatim in that order; otherwise the first missing field in row order is reported |
| LogWriter.RowDisagreesWithHeader | sst_drive_data_logger_py3.py:177-182 | under the header column "Model" the row holds the serial, under "Serial" the model; Firmware and Device_Status line up |
| LogWriter.AppendRow | sst_drive_data_logger_py3.py:242-251 | appending keeps every existing row in place and adds the new row last, creating a missing file |
| LogWriter.WriteDrivesRows | sst_drive_data_logger_py3.py:194-200 | writing drive by drive leaves the existing rows and adds, in snapshot order, the row of every non-boot record that builds |
| LogWriter.WriteDrivesWarnings | sst_drive_data_logger_py3.py:252-254 | writing drive by drive warns once per non-boot record that fails to build, in order, and goes on |
| LogWriter.RunLogAppends | sst_drive_data_logger_py3.py:184-202 | the run keeps an existing log as a prefix, adds the header only to a missing log, and rows plus warnings number the non-boot drives |
| LogWriter.RunLogAllLoggable | sst_drive_data_logger_py3.py:194-200 | when every non-boot record has its fields, exactly one row per non-boot drive is appended, each that record's raw fields, and no warning |
| LogWriter.WriteDrivesIgnoresBoot | sst_drive_data_logger_py3.py:195-196 | writing a snapshot is writing its non-boot entries |
| LogWriter.RunLogBootAnywhere | sst_drive_data_logger_py3.py:194-196 | a boot entry at any position, with any record, leaves the log and the warnings unchanged |
| LogWriter.OksErrsPartition | sst_drive_data_logger_py3.py:244-254 | every row attempt ends as a row or as a warning, never both, never neither |
| PowerPrompt.Answers | sst_drive_data_logger_py3.py:295-304 | a line powers off exactly when it is "y" or "Y" and declines exactly when it is "n" or "N" |
| PowerPrompt.PromptFirstAnswer | sst_drive_data_logger_py3.py:285-316 | the first answering line decides: power-off or decline at position k exactly when line k says so and no earlier line answered; still waiting exactly when no line answers |
| PowerPrompt.PromptIgnoresLaterLines | sst_drive_data_logger_py3.py:303-310 | after an answer the loop ends and later lines are never read |
| Program.RunMain | sst_drive_data_logger_py3.py:276-285 | the screen is the terminal report of the screen snapshot, line by line up to any exception: a blank line, then, when every non-boot record there is printable, exactly the drive blocks of those records in order; a crash of the terminal report leaves the log untouched and asks nothing; otherwise the log gains, after its old rows (and a header if it was missing), the rows of the log snapshot's non-boot records that build, warns once for each that does not, and the question is answered from the operator's lines |
| Program.MainBootInvisibleOnScreen | sst_drive_data_logger_py3.py:81-92 | inserting the boot drive anywhere in the screen snapshot alone changes nothing in the run |
| Program.MainBootInvisibleInLog | sst_drive_data_logger_py3.py:194-196 | inserting the boot drive anywhere in the log snapshot alone changes nothing in the run |
| Program.MainBootInvisible | sst_drive_data_logger_py3.py:278-283 | inserting the boot drive anywhere in both snapshots at once changes nothing in the run |
| Program.ExampleHighlight | sst_drive_data_logger_py3.py:120-134 | the 17-character serial SN0001ABCDEF12345 shows SN00, 01AB styled as date, CDEF styled as counter, then 12345 |
| Program.ExampleBlock | sst_drive_data_logger_py3.py:94-104 | a record with the example fields prints the six-line example block |
| Program.ExampleLog | sst_drive_data_logger_py3.py:184-200 | a missing log becomes the header and the one row SN0001ABCDEF12345, X1, 1.0, Healthy |
| Program.ExamplePrompt | sst_drive_data_logger_py3.py:295-316 | the lines "maybe" then "N" decline after one warning |
| Program.EndToEndExample | sst_drive_data_logger_py3.py:276-316 | boot drive plus one drive: one highlighted block on screen, one raw row after the header in the new log, no warning, declined |

## Left out

- Running the vendor tool and parsing its JSON (lines 43-44): a foreign process and a library parser; the snapshot is an input.
- The administrator check and the countdown exit (lines 50-70): operating-system calls and sleeps. `_exit_program` reads `self.text`, which `SstRunner` never sets, so that path would itself raise; it is not modelled.
- The log file's location from `USERPROFILE` (lines 169-176, 204-206): environment and platform path handling; the log is an input value.
- CSV quoting and escaping by `csv.writer`, and errors from opening the file: library and file-system behaviour; a row is a sequence of field texts.
- `logging` messages and the boot-drive banner (lines 25-29), and the `shutdown /s /t 0` subprocess with its sleep (lines 301-302): side effects only; the prompt's outcome says which branch ran.
- The power-off question's prompt text (lines 286-294), which prints yellow, green and red styles: only the operator's answers are modelled, not what the prompt displays.
- The styles that appear only in `logging` messages (yellow at lines 26, 189 and 305-309, red at line 62, bold at line 217, and the colours of the invalid-answer warning at lines 313-315) and `fgWhite_bgDefault_bold`, which nothing uses: they do not reach the report or the log.
- JSON value types: every field value is held as its text. Printing a JSON integer `Index` as decimal, the error a non-string serial would raise when sliced, and the `TypeError` a non-string `DeviceStatus` raises when concatenated with the styles (lines 148-150), are not modelled.
- End of input at the power-off question (Python's `input` raises `EOFError`): a finite list of lines that gives no answer is modelled as still waiting.
- Formatter.HighlightVisible: stated only for serials without the escape character, because a serial that contains one would be read by the terminal as a style sequence.
- Formatter.HighlightRoundTrip: stated only for serials without the escape character, for the same reason.
- Formatter.FormatHealth: its "shows as the status" clause is stated only for statuses without the escape character, for the same reason.
- PowerPrompt.Answers: lower-casing is ASCII only; full Unicode `str.lower` is not modelled.
