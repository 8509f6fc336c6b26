# Personal CRM: a verified model of the contact table

The application is a single Streamlit page (`app.py`) for logging cold calls.
Each call becomes a contact record with eight text columns: Business, Name,
Number, Email, Location, Industry, Call Notes and Date Added. One run of
`main()` does the following:

- it loads the table from `contacts_data.json`;
- it offers a form to log a call, a search box, and per-row edit and delete
  buttons;
- it offers a "Clear All Data" button;
- it shows a "Total Contacts" count and a CSV download.

This project models that table and the operations on it, and proves what
each operation does to the table and to the session state.

The model has six modules:

- `Contacts` (contacts.dfy) holds the record, the storage file, and the pure
  add, edit and delete operations.
- `Search` (search.dfy) holds the filtered view that the search box produces.
- `Crm` (session.dfy) holds `Session`, a class for one browser session. It
  has four fields: the file, the table loaded for the current run, the
  log-call form key, and the `edit_<position>` flags. Its methods are the
  button actions. Each action that reruns the page ends by reloading the
  table, as the next run does. `Valid()` states that the table in memory is
  the one the file holds; the constructor and every action keep it.
- `Timestamps` (timestamps.dfy) holds the Date Added format, with a parser
  that reads it back. It also holds the export file name, whose contract says
  where each field sits and what value it reads back as.
- `Text` and `Wrappers` (text.dfy) hold case folding, literal substring search
  and decimal digits.
- `Scenario` (scenario.dfy) is a client of `Session`. It walks through a
  submission without a Business name, an add, an edit and a delete, using only the method
  contracts.

Positions are what the code uses to address rows. The table is always
renumbered from 0: on load (a list of records from JSON), on add
(`ignore_index=True`) and on delete (`reset_index(drop=True)`). So the label
`idx` that `iterrows` yields, the label `.loc[idx]` writes, and the
positional `df.index[idx]` all mean the same row, and the model uses one
natural-number position for all three.

Guards and error paths in `app.py`:

- A call is logged only when Business and Name are both non-empty
  (app.py:149). Other fields may be left empty.
- No code checks the position before an edit or a delete. Save Changes
  with an unknown label silently appends a partly empty row (app.py:223).
  Delete with an unknown position raises an IndexError (app.py:258). Both
  cases are excluded by a precondition here (see "Left out").
- Each row shows either its edit form or its view with the edit and delete
  buttons, as its `edit_<position>` flag selects (app.py:196-261). So Save
  Changes and Cancel act only on a row in edit mode. Edit and Delete act only
  on a row in view mode. The four `Session` methods require that mode.
- The rows and their buttons are drawn only for rows of the table, and Clear
  All only when the table is non-empty (app.py:173-191). `StartEdit` and
  `CancelEdit` require a row of the table. `ClearAll` requires a non-empty
  table.

Three behaviours of the code are kept as written:

- A call is appended to the table loaded at the start of the run, not to a
  fresh reload.
- Save Changes and Delete reload the file before they write.
- Delete leaves the `edit_<position>` flags alone. A row in edit mode below
  the deleted row therefore hands its edit mode to the record that moves into
  its position. `Crm.Session.Delete` states this: `flags` is unchanged while
  every later record moves up one position.

## Model

| member | source | states |
|---|---|---|
| Contacts.Load | app.py:11-16 | With no contacts file, loading gives an empty table. Otherwise it gives exactly the stored records. |
| Contacts.Column | app.py:203-212 | Reading a record by column name (`row['Business']`) gives a value exactly for the eight canonical column names, and nothing for any other name. |
| Contacts.FieldsFollowColumns | app.py:16 | The k-th value of a record, in table order, is the value under the k-th canonical column name. |
| Contacts.Accepted | app.py:149 | The log-call guard holds exactly when Business and Name are both non-empty. |
| Contacts.NewContact | app.py:150-159 | The new record holds the seven form values exactly as entered. Its Date Added text parses back to the time it was logged. |
| Contacts.Append | app.py:161-164 | Both branches (empty table, concatenation) grow the table by exactly one row. Every earlier row stays at its position and the new record is last. |
| Crm.Session.LogCall | app.py:147-169 | A submission adds a record if and only if it was submitted with Business and Name non-empty. Then the saved table and the reloaded table are the old table with the new record appended, and the form key goes up by one. Otherwise the file, the table and the form key are unchanged. The edit flags never change. |
| Contacts.EditRow | app.py:222-229 | Length is unchanged. Row `idx` shows exactly the seven submitted values and keeps its Date Added. Every other row is unchanged. |
| Contacts.EditUnchangedFormIsNoop | app.py:203-229 | Saving the pre-filled edit form without changing anything leaves the table as it was. |
| Crm.Session.SaveChanges | app.py:196-234 | On a row in edit mode, the file is reloaded and `EditRow` of it is saved, so the table has the same length. Row `idx` leaves edit mode and no other row's mode changes. The table is reloaded. |
| Contacts.DeleteAt | app.py:258 | The table is one row shorter. Rows before `idx` keep their positions. Rows after `idx` move up one position, in the same order. |
| Contacts.DeleteRemovesOne | app.py:258 | Delete removes exactly one copy of the deleted record: the multiset of rows loses that record and nothing else. |
| Contacts.DeleteThenReinsert | app.py:258 | Putting the deleted record back at its position gives back the original table. |
| Crm.Session.Delete | app.py:239-261 | On a row in view mode, the file is reloaded and `DeleteAt` of it is saved. Edit flags and form key are unchanged. The table is reloaded. |
| Crm.Session.ClearAll | app.py:173-181 | Offered only when the table is non-empty (app.py:173). The file is gone and the reloaded table is empty. Flags and form key are unchanged. |
| Text.ContainsIgnoreCase | app.py:186 | The case-insensitive test holds exactly when the lower-cased term occurs as a contiguous block of the lower-cased value. |
| Search.RowMatchesByColumn | app.py:186 | A row matches (`.any(axis=1)` over the columns) exactly when the value under some canonical column name contains the term, ignoring case. |
| Text.Contains | app.py:186 | The scan returns true exactly when the term occurs as a contiguous block at some offset of the text. |
| Text.LiteralMatchFolds | app.py:186 | An exact-case occurrence is also a case-insensitive occurrence. |
| Text.FoldedTermSame | app.py:186 | Case-insensitive containment depends only on the lower-cased term. |
| Search.RowMatchesIgnoresTermCase | app.py:186 | Whether a row matches does not depend on the case of the search term. |
| Search.Matching | app.py:186-187 | The masked filter keeps only rows with some column containing the term, ignoring case. It keeps them in increasing position order, each under its own position, and never yields more rows than the table has. |
| Search.Filter | app.py:185-189 | The view is an order-preserving subsequence of the table that keeps original positions. It has at most as many rows as the table, and with an empty term it has every row. |
| Search.FilterMembership | app.py:185-189 | Position `i` is in the view if and only if it is a row of the table and either the term is empty or the row matches. |
| Search.EmptyTermShortcut | app.py:185-189 | Skipping the filter for an empty term gives the same view as filtering with it, because every row contains the empty string. |
| Crm.EditKey | app.py:193 | The key of row `idx` is `edit_` followed by decimal digits, without a leading zero, that read back as `idx`. |
| Crm.IsEditing | app.py:194 | A row is in edit mode exactly when its key holds True. A row whose key is missing reads as not editing (`get(edit_key, False)`). |
| Crm.EditKeyInjective | app.py:193 | Two different positions never share an `edit_<position>` session key. |
| Crm.SetFlagIsLocal | app.py:193-194 | Setting one row's flag gives that row the new mode and leaves every other row's mode as it was. |
| Crm.Session.StartEdit | app.py:239-254 | The edit button, drawn only for a row in view mode, puts row `idx` in edit mode and changes no other row's mode. The file is not touched. |
| Crm.Session.CancelEdit | app.py:196-238 | Cancel, drawn only in a row's edit form, takes row `idx` out of edit mode, changes no other row's mode, and saves nothing. |
| Crm.DrawRows | app.py:191-194 | The loop over the view draws one row per entry, in view order, each under its position and in the mode its flag selects. |
| Crm.Session.Render | app.py:191-265 | The page draws one row per entry of the filtered view, in view order and under the entry's position. Each row is in edit mode exactly when its flag is set. Total Contacts is the size of the view, never more than the table's length. On an empty table the page draws no metric, and `total` is 0. |
| Crm.Session.constructor | app.py:27-31 | A new session starts with form key 0, no edit flags, and the table loaded from the file. |
| Crm.Session.Rerun | app.py:31 | A rerun reloads the table from the file and changes nothing else. |
| Text.PadDigits | app.py:158 | A zero-padded field has exactly the given width, only digits, and reads back as the number. |
| Text.PadDigitsOfValue | app.py:158 | Every digit string is the zero-padded rendering of the number it denotes. |
| Text.Decimal | app.py:193 | The decimal rendering of a position is only digits, has no leading zero, and reads back as the position. |
| Timestamps.FormatDateAdded | app.py:158 | Date Added is 16 characters: `-` at offsets 4 and 7, a space at 10 and `:` at 13. The five digit fields read back as year, month, day, hour and minute. |
| Timestamps.ParseFormatRoundTrip | app.py:158 | Parsing a formatted Date Added gives back the time it was made from. |
| Timestamps.FormatParseRoundTrip | app.py:158 | Every string that parses as a Date Added is the formatting of what it parses to. |
| Timestamps.FormatDateAddedInjective | app.py:158 | Different times never give the same Date Added text. |
| Timestamps.ExportFileName | app.py:272 | The export file name is 26 characters: `contacts_`, then four digits of year and two each of month and day, then `_`, two digits each of hour and minute, then `.csv`. Each digit field reads back as its component. |
| Timestamps.ExportNameMatchesDateAdded | app.py:272 | The export file name is `contacts_`, the Date Added digits with `-` and `:` dropped and the space turned into `_`, then `.csv`. |

## Left out

- Streamlit rendering is not modelled: forms, columns, messages, captions, the `#idx+1` labels, the divider and the metric widget. `Render` keeps only which rows are drawn, in which mode, and the count.
- The JavaScript Enter-key navigation (app.py:46-145) is DOM event wiring with timers, so it is not modelled.
- JSON reading and writing, `os.path.exists` and `os.remove` are modelled by one `Storage` value that is replaced wholesale. A malformed file (a parse failure) is not modelled.
- `datetime.now()` is not modelled. The current time is a `Timestamp` parameter.
- The CSV text produced by `to_csv` is not modelled, because it is a pandas call with its own quoting rules. Only the download's file name is.
- Text.ContainsIgnoreCase: folds ASCII letters only, while the code uses Unicode-aware case-insensitive matching.
- Search.Matching: matches the term as a literal string. The code's `str.contains` reads it as a regular expression, so the model assumes a term with no regex metacharacters.
- Search.Matching: does not model `astype(str)` turning missing values into text such as `nan`. Every field in the model is already a string.
- Timestamps.FormatDateAdded: always pads the year to four digits. For years below 1000 the platform's `%Y` may print fewer.
- Timestamps.ExportFileName: always pads the year to four digits too, where the same `%Y` (app.py:272) may print fewer below year 1000.
- Crm.Session.SaveChanges: requires `idx` to be a row of the reloaded file. In the code, `.loc` with an unknown label appends a new, partly empty row.
- Crm.Session.Delete: requires `idx` to be a row of the reloaded file. In the code, `df.index[idx]` raises an IndexError.
- Two sessions writing the same file (the lost update between reload and save) are not modelled. One session owns the file.
