# Store scanner: row capture and CSV export

A Dafny model of the logic inside the Android activity `MainActivity` of a
small barcode-capture app. The user types a store code, scans a barcode with
the camera or types it, and optionally picks a date. Each capture becomes a
`ScanRow(storeCode, barcode, date)` appended to an in-memory list `scans`.
The app can export the list as a CSV file named after the export time, and
it can share the most recently modified CSV file.

The model is functional. The activity's mutable fields become an immutable
`Capture.Session`. Each UI callback becomes a pure transition that runs to
completion, as the UI thread guarantees. The clock, the current date, the
file listing and the outcome of the file write are passed in as inputs.

| module | file | what it holds |
|---|---|---|
| `Options` | options.dfy | `Option`, for Kotlin's nullable values |
| `JvmInt` | jvm_int.dfy | 32- and 64-bit integers and the wrapping `Int` addition |
| `Text` | text.dfy | `trim()`, `padStart()`, splitting at a separator, newline-terminated lines |
| `Decimal` | decimal.dfy | `Int.toString()` and the reader that inverts it |
| `Rows` | rows.dfy | `ScanRow` |
| `DatePicker` | date_picker.dfy | the picked date text `y-MM-DD` |
| `Listing` | listing.dfy | the list and status texts of `refreshList` |
| `Csv` | csv.dfy | the CSV text and the reader it round-trips with |
| `Files` | files.dfy | directory entries and `File.extension` |
| `Export` | export.dfy | `saveCsvToFile`: file name, content, outcome |
| `Share` | share.dfy | `shareLatestCsv`: the filter and the latest-file choice |
| `Capture` | capture.dfy | the session state, the "Add" and scan handlers, event traces |

## Notes on the code

The "Add" handler rejects a store code or a barcode that is blank after
trimming (`MainActivity.kt:78-82`). The scan callback appends the decoded
text untrimmed and unchecked (`MainActivity.kt:102`).
`Capture.ScanAcceptsBlankBarcode` shows a blank barcode getting in this way.
The store code is checked on both paths, and `Capture.RunKeepsStoreCodesValid`
proves that every row's store code is non-empty and trimmed.

Which of several equally recent CSV files is shared depends on the order
`listFiles` returns them in. `maxByOrNull` keeps the first greatest entry in
that order (`MainActivity.kt:167`), and `Share.MaxByLastModified` states
exactly that. The listing order itself comes from the file system and is
not modelled.

## Model

| member | source | states |
|---|---|---|
| `Capture.Initial` | app/src/main/java/com/example/storescanner/MainActivity.kt:35-36 | a new activity has no rows and no picked date |
| `Capture.ResolveDate` | app/src/main/java/com/example/storescanner/MainActivity.kt:83 | the date field is used verbatim, untrimmed, when it is non-empty, and "today" otherwise; the result is empty only when both are empty |
| `Capture.AddScanRow` | app/src/main/java/com/example/storescanner/MainActivity.kt:113-117 | appending grows the store by exactly one row at the end; the earlier rows and the fields are untouched |
| `Capture.AddClicked` | app/src/main/java/com/example/storescanner/MainActivity.kt:72-86 | an empty trimmed store code is rejected first, even when the barcode is empty too, and then an empty trimmed barcode; each rejection leaves the whole state unchanged. A row is added if and only if both trimmed values are non-empty. The new last row is (trimmed store, trimmed barcode, resolved date), the earlier rows keep their order, the barcode field is cleared, and nothing else changes |
| `Capture.BarcodeDecoded` | app/src/main/java/com/example/storescanner/MainActivity.kt:94-106 | a missing result does nothing. With a non-empty trimmed store code, the decoded text, untrimmed and unchecked, becomes the barcode of one new last row, and the fields stay as they were. Without a store code, no row is added and the text goes into the manual-barcode field |
| `Capture.DatePicked` | app/src/main/java/com/example/storescanner/MainActivity.kt:64-69 | the picked text becomes both the remembered date and the date field; rows and the other fields are unchanged |
| `Capture.Handle` | app/src/main/java/com/example/storescanner/MainActivity.kt:62-106 | the listener wiring: each user event goes to its handler. Its contract is carried by `Capture.HandleAppendOnly` (one event appends at most one row and changes none) and `Capture.HandleKeepsStoreCodesValid` |
| `Capture.Run` | app/src/main/java/com/example/storescanner/MainActivity.kt:62-106 | the events handled in order. Its contract is carried by `Capture.RunAppendOnly` (earlier rows stay a prefix; at most one row per event) and `Capture.RunKeepsStoreCodesValid` (every store code stays trimmed and non-empty) |
| `Capture.HandleAppendOnly` | app/src/main/java/com/example/storescanner/MainActivity.kt:113-115 | one event never removes, changes or reorders a row, and it adds at most one |
| `Capture.RunAppendOnly` | app/src/main/java/com/example/storescanner/MainActivity.kt:35 | over any sequence of events, the earlier rows are a prefix of the later rows, and each event adds at most one row |
| `Capture.HandleKeepsStoreCodesValid` | app/src/main/java/com/example/storescanner/MainActivity.kt:99-102 | each handler keeps every row's store code non-empty and trimmed |
| `Capture.RunKeepsStoreCodesValid` | app/src/main/java/com/example/storescanner/MainActivity.kt:73-84 | every row ever added, on either path, carries a non-empty trimmed store code |
| `Capture.ScanStaged` | app/src/main/java/com/example/storescanner/MainActivity.kt:103-104 | a scan with no store code changes nothing but the manual-barcode field, which then holds the decoded text |
| `Capture.StagedScanThenAdd` | app/src/main/java/com/example/storescanner/MainActivity.kt:103-105 | a scan without a store code is staged; typing a store code and pressing "Add" then adds the staged text, trimmed, as the next row and clears the field |
| `Capture.ScanAcceptsBlankBarcode` | app/src/main/java/com/example/storescanner/MainActivity.kt:102 | the scan path adds a row whose barcode is a single space |
| `Capture.AddedRowShown` | app/src/main/java/com/example/storescanner/MainActivity.kt:116-125 | after a row is added on either path, the list shows the earlier text plus one entry numbered with the new count, and the status reports the new count |
| `Listing.Entry` | app/src/main/java/com/example/storescanner/MainActivity.kt:122 | one listing entry `"{n}. store, barcode, date"`. `Listing.ListTextLines` shows line i is the entry numbered i+1 |
| `Listing.ListText` | app/src/main/java/com/example/storescanner/MainActivity.kt:120-124 | the list text is empty exactly when there are no rows; otherwise it opens with entry 1 and ends with a line break. `Listing.ListTextLines` and `Listing.ListTextAppend` give its full content |
| `Listing.Refresh` | app/src/main/java/com/example/storescanner/MainActivity.kt:119-125 | the list is blank exactly when the store is empty, and the status line reads "Total rows: " followed by the row count, which reads back |
| `Listing.StatusText` | app/src/main/java/com/example/storescanner/MainActivity.kt:125 | the status reads "Total rows: " followed by a number that reads back as the row count |
| `Listing.ListTextAppend` | app/src/main/java/com/example/storescanner/MainActivity.kt:120-124 | the list for one more row is the earlier list plus one line for that row |
| `Listing.ListTextLines` | app/src/main/java/com/example/storescanner/MainActivity.kt:121-123 | with no line break inside a field, the list has exactly one newline-terminated line per row, line i reads "{i+1}. store, barcode, date", and nothing follows the last line break |
| `Csv.Record` | app/src/main/java/com/example/storescanner/MainActivity.kt:141 | one unquoted `store,barcode,date` line. `Csv.ParseRecordOf` reads it back when no field holds a comma, and `Csv.CommaBreaksRecord` shows it cannot otherwise |
| `Csv.CsvText` | app/src/main/java/com/example/storescanner/MainActivity.kt:139-141 | the exported text opens with the header line `StoreCode,Barcode,Date` and ends with a line break. `Csv.CsvTextLines` and `Csv.CsvRoundTrip` give its full content and the round trip |
| `Csv.CsvTextAppend` | app/src/main/java/com/example/storescanner/MainActivity.kt:141 | rows are written in store order: one more row adds one line at the end |
| `Csv.CsvTextLines` | app/src/main/java/com/example/storescanner/MainActivity.kt:139-141 | with no line break inside a field, the text has `|rows| + 1` lines, each ending in a line break: the header `StoreCode,Barcode,Date`, then `store,barcode,date` for each row in order |
| `Csv.CommaBreaksRecord` | app/src/main/java/com/example/storescanner/MainActivity.kt:141 | fields are not quoted, so a comma in any field gives its line more than three fields |
| `Csv.CsvRoundTrip` | app/src/main/java/com/example/storescanner/MainActivity.kt:139-141 | for rows with no line break in a field, splitting the text on line breaks and then on commas gives back exactly the rows, in order, if and only if no field holds a comma |
| `Csv.TwoRowExample` | app/src/main/java/com/example/storescanner/MainActivity.kt:140-141 | the exact text for two sample rows |
| `Export.ExportFileName` | app/src/main/java/com/example/storescanner/MainActivity.kt:144 | the name is `scans_`, the time in decimal, then `.csv`; the time reads back from the name; the extension is `csv` |
| `Export.ExportFileNamesDistinct` | app/src/main/java/com/example/storescanner/MainActivity.kt:144 | exports at different milliseconds get different file names |
| `Export.SaveCsv` | app/src/main/java/com/example/storescanner/MainActivity.kt:133-155 | an empty store writes nothing. Otherwise a successful write produces one file with the export name and the CSV text of all rows, which reads back as the rows when no field holds a comma or line break. A failed write reports its message |
| `Files.Extension` | app/src/main/java/com/example/storescanner/MainActivity.kt:162 | the extension is the dot-free tail after the last `.`, or empty when the name has no `.` |
| `Files.ExtensionAfterLastDot` | app/src/main/java/com/example/storescanner/MainActivity.kt:162 | whatever precedes the last dot, a dot-free tail after it is the extension |
| `Share.Candidates` | app/src/main/java/com/example/storescanner/MainActivity.kt:162 | a null listing gives no candidates (`?: arrayOf()`); otherwise the candidates are exactly the listed files with extension `csv` |
| `Share.CsvFiles` | app/src/main/java/com/example/storescanner/MainActivity.kt:162 | the candidates are exactly the listed files whose extension is `csv` |
| `Share.MaxByLastModified` | app/src/main/java/com/example/storescanner/MainActivity.kt:167 | the chosen position holds a greatest last-modified time, and every earlier entry is strictly older |
| `Share.ShareLatestCsv` | app/src/main/java/com/example/storescanner/MainActivity.kt:157-167 | a missing directory gives StorageUnavailable. No `csv` file, including a null listing, gives NoExportFound. Otherwise the shared file is a candidate no older than any other candidate |
| `Share.ExportedFileIsCandidate` | app/src/main/java/com/example/storescanner/MainActivity.kt:144 | a file named by an export always passes the `csv` filter, and the shared file is at least as recent |
| `Share.LaterExportWins` | app/src/main/java/com/example/storescanner/MainActivity.kt:162-167 | of two `.csv` files, exports included, the one modified earlier is never shared, and the shared file is no older than the later one |
| `DatePicker.TwoDigits` | app/src/main/java/com/example/storescanner/MainActivity.kt:65-66 | `toString().padStart(2, '0')`. `DatePicker.TwoDigitsOf` shows that on 0..99 it gives two digits denoting the value |
| `DatePicker.PickedDateText` | app/src/main/java/com/example/storescanner/MainActivity.kt:64-67 | the picked date text `"$y-$mm-$dd"`. `DatePicker.PickedDateFields` states its fields and `DatePicker.PickedDateRoundTrip` reads it back as (y, m+1, d) |
| `DatePicker.TwoDigitsOf` | app/src/main/java/com/example/storescanner/MainActivity.kt:65-66 | a value from 0 to 99 is padded to exactly two digits that denote it |
| `DatePicker.PickedDateFields` | app/src/main/java/com/example/storescanner/MainActivity.kt:64-67 | for a month from 0 to 11 and a day from 1 to 31, the text is the year, a dash, two digits for m+1 (so 01 to 12), a dash, and two digits for the day |
| `DatePicker.PickedDateIsIso` | app/src/main/java/com/example/storescanner/MainActivity.kt:64-67 | a four-digit year gives a ten-character `YYYY-MM-DD` text |
| `DatePicker.PickedDateRoundTrip` | app/src/main/java/com/example/storescanner/MainActivity.kt:64-67 | reading the picked text back gives year, m+1 and day |
| `JvmInt.AddInt32` | app/src/main/java/com/example/storescanner/MainActivity.kt:65 | Kotlin `Int` addition: the true sum when it fits in 32 bits, and congruent to it modulo 2^32 always |
| `Decimal.NatToStringDigits` | app/src/main/java/com/example/storescanner/MainActivity.kt:65-66 | the decimal text of a natural number is all digits, has no leading zero, is one character exactly below 10, and denotes the number |
| `Decimal.IntToStringRoundTrip` | app/src/main/java/com/example/storescanner/MainActivity.kt:122 | the text of any integer, sign included, reads back as that integer |
| `Decimal.IntToStringChars` | app/src/main/java/com/example/storescanner/MainActivity.kt:144 | no integer's text holds a line break, a comma or a dot, so a number never splits a list line, a CSV field or a file extension |
| `Text.Trim` | app/src/main/java/com/example/storescanner/MainActivity.kt:73 | the trimmed text has no whitespace at either end, and it is empty exactly when the input is all whitespace |
| `Text.TrimOfPadded` | app/src/main/java/com/example/storescanner/MainActivity.kt:78 | whatever whitespace surrounds a trimmed core, trimming returns exactly that core |
| `Text.TrimIdempotent` | app/src/main/java/com/example/storescanner/MainActivity.kt:99 | trimming twice is trimming once |
| `Text.PadStart` | app/src/main/java/com/example/storescanner/MainActivity.kt:66 | padding keeps the text as its suffix, fills the front with the pad character, and reaches the requested length when the text is shorter |

## Left out

- Camera permission handling, the barcode decoder and its pause/resume (`MainActivity.kt:55-60`, `92-96`, `177-197`). These are foreign library calls and the Android lifecycle. Only the decoded text, or its absence, reaches the model.
- `runOnUiThread` (`MainActivity.kt:97`). Every handler is one atomic step, as the UI thread makes it.
- Toasts and the status messages "Scanned: ..." and "Saved: ..." (`MainActivity.kt:98`, `149-150`). Handler results carry a `Feedback` or `SaveResult` tag instead. The "Total rows" status is modelled.
- Showing the `DatePickerDialog` and its initial date from `Calendar` (`MainActivity.kt:63`, `69`). The model starts from the callback's three numbers.
- `currentDateString()` and `System.currentTimeMillis()` (`MainActivity.kt:128-131`, `144`). These read the clock, so "today" and the milliseconds are inputs, and the `SimpleDateFormat` rendering is not modelled.
- `getExternalFilesDir`, `FileWriter`, `listFiles` and `lastModified` (`MainActivity.kt:143-148`, `158-162`, `167`). These are file-system calls. The directory is an optional, possibly null listing of (name, time) entries, and a write is an input outcome. A null directory during a save shows up only as a failed write.
- `FileProvider`, the share `Intent` with type `text/csv`, and the chooser (`MainActivity.kt:168-174`). These are OS calls. The model stops at the file chosen.
- Share.ShareLatestCsv: states only that the shared file is no older than any candidate. Which of several equally recent files comes first depends on the order `listFiles` returns them in, and that order is unspecified. `Share.MaxByLastModified` does state the first-maximum rule of `maxByOrNull` relative to that order.
- `Text.IsWhitespace`: fixes the whitespace characters at the Unicode space, line and paragraph separators plus the ASCII controls that `Char.isWhitespace()` accepts. A different Unicode version of the platform could add characters.
- The `Int` overflow of `idx + 1` and `scans.size` is not modelled. A list cannot hold 2^31 rows.
