# Texas QSO Party contest rules, in Dafny

A model of the Texas QSO Party plugin of the not1mm contest logger
(`not1mm/plugins/texas_qso_party.py`), with proofs of what its rules promise:

- the county-code table, and the call-history check that auto-fills the
  received county (`Rcvd Cty/State`) field or names the county typed in it;
- the fields saved with each contact, with the multiplier flag;
- the points of one contact, the multiplier and contact totals, and the
  claimed score;
- the Cabrillo 3.0 export: a header, one `QSO:` line per logged contact in
  order, and a trailer, each line ended by CR LF.

Files:

| file | module | what it holds |
|---|---|---|
| `wrappers.dfy` | `Wrappers` | `Option`, the Python exceptions the rules can raise, `Result` |
| `pystr.dfy` | `PyStr` | the Python `str` operations the plugin uses: `strip`, ASCII `upper`, slicing, `ljust`/`rjust`, `str(int)`, `int(str)`; and, only to read back the text the exporter writes, splitting at blanks and `" ".join` |
| `pyvalue.dfy` | `PyValue` | database cells (text, integer, NULL), rows as dicts, `dict.get`, truthiness, `int()` |
| `texas_qso_party.dfy` | `TexasQsoParty` | the county table, class `EntryForm` (the entry window's fields and the contact record) with `CheckCallHistory` and `SetContactVars`, `Points`, `ShowMults`, `ShowQso`, `CalcScore` |
| `cabrillo.dfy` | `TqpCabrillo` | the `QSO:` line, the log text, the export loop `WriteCabrillo`, and a reader for the text it writes |

The database queries the plugin makes (`fetch_call_history`, `fetch_call_exists`,
`fetch_call_count`, `fetch_qso_count`, `fetch_points`, `fetch_all_contacts_asc`)
become parameters: a map from key to row for a keyed lookup, an `Option<Row>`
for a single-row query, a sequence of rows for the log. A Python exception that
the source lets propagate becomes `Raises(...)` in a `Result`, or an exception
returned by a method. A stateful method is proved against a pure specification
function (`CallHistoryCheck`, `LogText`), and the properties are proved about
that function.

Details of the code that the model keeps exactly:

- besides CW, the only mode that scores two points is one that upper-cases to
  `DIGI`, so `Digital` and `RTTY` score one;
- the mode column of a `QSO:` line is the stored mode upper-cased, with
  `LSB`/`USB` written `PH`, and is not padded;
- the own-station column of a `QSO:` line is the contact's `StationPrefix`;
- the multiplier flag is 1 when the call-exists query returns a row whose
  `call_count` (0 when the column is missing) is 0;
- the score is the stored points total times the `call_count` that the
  call-count query returns;
- a row whose frequency `int()` refuses, or whose text column holds NULL or a
  number, makes the export raise after the lines before it were written, so a
  partial file is left behind.

## Model

| member | source | states |
|---|---|---|
| `TexasQsoParty.CountyCodesAreNormalized` | not1mm/plugins/texas_qso_party.py:30-35 | every key of the county table is one upper-case word, which the exchange normalisation leaves unchanged |
| `TexasQsoParty.ExchangeField` | not1mm/plugins/texas_qso_party.py:77-78 | a saved exchange has no Python whitespace at either end, and upper-casing it again changes nothing |
| `TexasQsoParty.ExchangeFieldPiece` | not1mm/plugins/texas_qso_party.py:77-78 | the saved exchange is the piece of the typed text that starts at its first non-whitespace character, upper-cased, and only whitespace lies before and after that piece |
| `TexasQsoParty.HistoryFill` | not1mm/plugins/texas_qso_party.py:94-100 | the Rcvd text changes exactly when the field is empty and the history exchange is not; it then becomes `<EXCH> (<county name>) ` when the upper-cased exchange is a county code and `<EXCH> ` otherwise, so it starts with the upper-cased exchange and ends in a blank |
| `TexasQsoParty.CountyInfo` | not1mm/plugins/texas_qso_party.py:103-106 | the label becomes `TX County: <name>` exactly when the trimmed, upper-cased Rcvd text is a county code, and is otherwise unchanged |
| `TexasQsoParty.CallHistoryCheck` | not1mm/plugins/texas_qso_party.py:86-106 | with a history row, numeric notes raise TypeError and change nothing; otherwise the label shows its notes, the county check is skipped, and Rcvd changes only by the auto-fill; with none, Rcvd is never changed, and the label changes only when the typed text is a county code; a non-text history exchange raises AttributeError with Rcvd unchanged |
| `TexasQsoParty.EntryForm.CheckCallHistory` | not1mm/plugins/texas_qso_party.py:86-106 | the Rcvd field, the history label and the exception raised afterwards are those `CallHistoryCheck` gives for the history row of the trimmed, upper-cased call |
| `TexasQsoParty.EntryForm.ShowHistory` | not1mm/plugins/texas_qso_party.py:92-101 | with a history row, the label, the Rcvd field and the exception are those `CallHistoryCheck` gives for that row |
| `TexasQsoParty.EntryForm.ShowCounty` | not1mm/plugins/texas_qso_party.py:103-106 | with no history row, the label becomes what `CountyInfo` gives for the typed Rcvd text, and Rcvd is left alone |
| `TexasQsoParty.MultiplierFlag` | not1mm/plugins/texas_qso_party.py:83-84 | the flag is 0 or 1, and it is 1 exactly when the call-exists query returned a non-empty row whose `call_count` (0 when missing) is the integer 0 |
| `TexasQsoParty.SavedContact` | not1mm/plugins/texas_qso_party.py:73-84 | the saved record has the old keys plus `SNT`, `RCV`, `SentCounty`, `RcvCounty`, `NR` and `IsMultiplier1`; every other key keeps its value; the reports are stored as typed, `NR` equals `RcvCounty`, and the flag is stored as an integer |
| `TexasQsoParty.EntryForm.SetContactVars` | not1mm/plugins/texas_qso_party.py:73-84 | the new contact record is `SavedContact` of the old one, with both counties trimmed and upper-cased by `ExchangeField` and the flag from `MultiplierFlag` (0 or 1) for the upper-cased call |
| `TexasQsoParty.Points` | not1mm/plugins/texas_qso_party.py:108-115 | a duplicate scores 0 whatever its mode, before the mode is read; otherwise the upper-cased mode `CW` or `DIGI` scores 2 and any other text scores 1; a non-text mode raises; every score is in 0..2 |
| `TexasQsoParty.PointsIgnoreCase` | not1mm/plugins/texas_qso_party.py:112-114 | a contact's points do not depend on the letter case of its mode |
| `TexasQsoParty.DigitalModesScoreOne` | not1mm/plugins/texas_qso_party.py:112-115 | `Digital` and `RTTY` score 1, `digi` scores 2, and a contact with no mode scores 1 |
| `TexasQsoParty.CountColumn` | not1mm/plugins/texas_qso_party.py:117-123 | no row or a missing column counts 0; otherwise the count is `int()` of the stored value |
| `TexasQsoParty.ShowMults` | not1mm/plugins/texas_qso_party.py:117-119 | the multiplier total is 0 without a row, and it can fail only when the row holds a `call_count` |
| `TexasQsoParty.ShowQso` | not1mm/plugins/texas_qso_party.py:121-123 | the contact total is 0 without a row, and it can fail only when the row holds a `qsos` |
| `TexasQsoParty.ShownCountsReadBack` | not1mm/plugins/texas_qso_party.py:117-123 | both totals read back a count stored as an integer or as its decimal text |
| `TexasQsoParty.PointsTotal` | not1mm/plugins/texas_qso_party.py:130-134 | a missing, NULL or falsy points value is 0; an integer, or a numeral that `int()` accepts, gives its value; any other text gives 0 |
| `TexasQsoParty.CalcScore` | not1mm/plugins/texas_qso_party.py:125-135 | no points row scores 0; otherwise the score is the points total times the multiplier total; it fails exactly when a points row exists and reading the multiplier total fails |
| `TexasQsoParty.MalformedPointsScoreZero` | not1mm/plugins/texas_qso_party.py:128-135 | whenever the multiplier total reads, a points value stored as NULL, as 0, or as text that is not a number scores 0 instead of failing |
| `TexasQsoParty.AutoFilledCountySavedWithName` | not1mm/plugins/texas_qso_party.py:96-98 | as written, for every history exchange that upper-cases to a county code (such as `trv`), saving the auto-filled Rcvd field stores `<code> (<NAME>)`: at least two words, and not what typing the same exchange saves |
| `TexasQsoParty.ReceivedCountyCode` | not1mm/plugins/texas_qso_party.py:78-81 | the corrected saved county is the saved exchange, except exactly when that is the saved auto-fill `<code> (<NAME>)` of a county code, and then it is that code; it is upper-case and trimmed |
| `TexasQsoParty.ReceivedCountyCodeOfAutoFill` | not1mm/plugins/texas_qso_party.py:94-100 | after an auto-fill, the correction saves the history exchange just as typing it would: the code alone for a county code, and any other exchange unchanged unless it itself reads as a saved auto-fill |
| `TexasQsoParty.AutoFillCode` | not1mm/plugins/texas_qso_party.py:96-98 | a code recognised in saved text is a county code whose saved auto-fill is exactly that text, and is shorter than it |
| `TexasQsoParty.AutoFillCodeOfSaved` | not1mm/plugins/texas_qso_party.py:96-98 | the saved auto-fill of every county code is recognised and gives back that code |
| `TexasQsoParty.AutoFillSaved` | not1mm/plugins/texas_qso_party.py:96-98 | saving the auto-fill of a county code stores the code, a blank and the upper-cased county name in parentheses |
| `TexasQsoParty.TravisSavedAsCode` | not1mm/plugins/texas_qso_party.py:96-98 | with the correction, the history exchange `trv` is saved as `TRV` |
| `PyValue.TextOf` | not1mm/plugins/texas_qso_party.py:154-166 | `row.get(key, "")` used as a string: a missing key gives the empty text, a text cell gives its text, and any other cell fails |
| `PyValue.ToInt` | not1mm/plugins/texas_qso_party.py:132-133 | `int()` gives an integer cell as it is, parses text as a decimal literal and raises `ValueError` when it is not one, and raises `TypeError` on NULL |
| `PyValue.ToIntOfStored` | not1mm/plugins/texas_qso_party.py:156 | `int()` reads back an integer stored as a number or as its decimal text, and fails exactly on NULL and on text that is not a literal |
| `PyStr.Strip` | not1mm/plugins/texas_qso_party.py:88 | the result has no Python whitespace at either end, is no longer than the input, and equals the input exactly when the input is already trimmed |
| `PyStr.StripPiece` | not1mm/plugins/texas_qso_party.py:88 | `strip()` keeps the piece of the text from its first non-whitespace character, and only whitespace lies around that piece |
| `PyStr.StripUnique` | not1mm/plugins/texas_qso_party.py:88 | any trimmed piece of a text with only whitespace around it is what `strip()` gives, so `StripPiece` determines the result |
| `PyStr.Upper` | not1mm/plugins/texas_qso_party.py:94 | the result has the same length, each character upper-cased, and no ASCII lower-case letter left |
| `PyStr.UpperIdempotent` | not1mm/plugins/texas_qso_party.py:104 | upper-casing twice is upper-casing once |
| `PyStr.Slice` | not1mm/plugins/texas_qso_party.py:154-155 | a slice clamps to the text: its length and its characters are those of the part of `[i, j)` that lies inside the text |
| `PyStr.LJust` | not1mm/plugins/texas_qso_party.py:163-166 | the result has length max(length, width), starts with the text, and is filled with blanks, so nothing is cut |
| `PyStr.RJust` | not1mm/plugins/texas_qso_party.py:156 | the result has length max(length, width), ends with the text, and is filled with blanks in front |
| `PyStr.IntToStringRoundTrip` | not1mm/plugins/texas_qso_party.py:156 | `int(str(i)) == i` for every integer |
| `PyStr.ParseInt` | not1mm/plugins/texas_qso_party.py:132 | `int()` of text that is blank after trimming fails |
| `PyStr.ParseUnsigned` | not1mm/plugins/texas_qso_party.py:156 | `int()` of a run of decimal digits is their value |
| `PyStr.ParseNegative` | not1mm/plugins/texas_qso_party.py:132 | `int()` of a minus sign and a run of decimal digits is minus their value |
| `PyStr.WordsAppend` | not1mm/plugins/texas_qso_party.py:161-166 | splitting at blanks: no word runs across a blank |
| `PyStr.WordsOfJoin` | not1mm/plugins/texas_qso_party.py:161-166 | columns that each hold one word, joined by blanks, split back into those words in order |
| `TqpCabrillo.ModeOf` | not1mm/plugins/texas_qso_party.py:157-158 | the mode column is `PH` for `LSB` and `USB` in any letter case, and the upper-cased mode otherwise |
| `TqpCabrillo.TimestampColumns` | not1mm/plugins/texas_qso_party.py:154-155 | the date is the first ten characters of the timestamp (fewer when it is shorter); for a timestamp of at least 16 characters the time is characters 11, 12, 14 and 15; for a `YYYY-MM-DD HH:MM:SS` stamp both are single words, the time is four digits |
| `TqpCabrillo.QsoLineWritten` | not1mm/plugins/texas_qso_party.py:161-166 | the line built from the nine columns is the exporter's format string: tag, frequency right-justified to 5, mode, date, time, prefix left-justified to 13, sent county to 6, call to 13, received county to 6, one blank between each |
| `TqpCabrillo.QsoLineColumns` | not1mm/plugins/texas_qso_party.py:154-166 | splitting a `QSO:` line of one-word fields at its blanks gives back the tag, frequency, mode column, date, time, prefix, sent county, call and received county in order: the padding adds only blanks and cuts nothing |
| `TqpCabrillo.QsoLineFrequency` | not1mm/plugins/texas_qso_party.py:156 | the frequency column of a `QSO:` line parses back to the logged frequency |
| `TqpCabrillo.QsoLineNoCr` | not1mm/plugins/texas_qso_party.py:161-166 | a `QSO:` line holds no CR unless a logged text field does |
| `TqpCabrillo.Contacts` | not1mm/plugins/texas_qso_party.py:148-153 | a readable log yields one contact per row, in the order of the rows |
| `TqpCabrillo.FirstUnreadable` | not1mm/plugins/texas_qso_party.py:153-160 | the first row the export raises on: every row before it reads, and it is the end of the log exactly when the whole log reads |
| `TqpCabrillo.HeaderTerminated` | not1mm/plugins/texas_qso_party.py:151-152 | the header is `START-OF-LOG: 3.0` and `CONTEST: TQP`, each ended by CR LF |
| `TqpCabrillo.TerminatedAppend` | not1mm/plugins/texas_qso_party.py:161-168 | writing one more line appends it and its CR LF to the text |
| `TqpCabrillo.LinesOfTerminated` | not1mm/plugins/texas_qso_party.py:151-168 | lines without CR, each written with CR LF, read back as the same lines |
| `TqpCabrillo.LogTextLines` | not1mm/plugins/texas_qso_party.py:151-168 | when no logged text field holds a CR, the log text reads back as the two header lines, exactly one `QSO:` line per contact in order, and `END-OF-LOG:`: the number of contacts plus three lines |
| `TqpCabrillo.FormatContact` | not1mm/plugins/texas_qso_party.py:154-167 | one row's line is the `QSO:` line of its fields, and there is none exactly when reading the row raises |
| `TqpCabrillo.FormatFields` | not1mm/plugins/texas_qso_party.py:154-167 | the columns read from a row, written with the exporter's slices, `rjust`, `upper`, sideband mapping and `ljust`, give exactly the `QSO:` line of those fields |
| `TqpCabrillo.FreqDefaultIsZero` | not1mm/plugins/texas_qso_party.py:156 | a contact without a frequency is written with frequency 0 |
| `TqpCabrillo.ReadContact` | not1mm/plugins/texas_qso_party.py:154-160 | reading a row fails exactly when one of `TS`, `Mode`, `SentCounty`, `RcvCounty`, `StationPrefix` or `Call` is present but not text, or `int()` refuses the frequency; otherwise the fields are the row's texts and that integer |
| `TqpCabrillo.WriteCabrillo` | not1mm/plugins/texas_qso_party.py:148-168 | the export completes exactly when every row reads, and then writes the whole log text; otherwise it stops with the header and the lines of the rows before the first unreadable one written |

## Left out

- The Qt wiring (`init_contest`, `interface`, `reset_label`, `set_tab_next`, `set_tab_prev`, label and accessible-name text, `show_message_box`) is user-interface plumbing with no rule in it.
- The malformed `columns` list (source line 25 holds a stray `]`) is display metadata and is not part of this model.
- The database queries are not modelled; their results are parameters.
- `cabrillo`'s file handling is left out: the file name built from the home directory, the station call and the clock, `open` and its encoding, and the `IOError` handler. Only the text written is modelled, and `WriteCabrillo` returns it.
- `adif` calls `gen_adif`, which is not part of this model.
- Logging and `__version__` are left out.
- The plugin's `name`, `mode` and `dupe_type` settings (source lines 11, 13 and 27) are read by the host application and hold no rule; they are not modelled. `cabrillo_name` is (`TexasQsoParty.CabrilloName`).
- `PyStr.Upper` models ASCII upper-casing only. Python's Unicode case mapping, which can change a text's length, is not modelled.
- `PyStr.ParseInt` accepts ASCII decimal digits only. Python's `int()` also accepts other Unicode decimal digits, such as full-width ones, which the model refuses, so `PyValue.ToInt` gives `ValueError` where Python would succeed.
- `PyValue.ToInt` does not model floating-point cells. `int()` of a float truncates toward zero, and the host may store `Freq` as a float.
- `TexasQsoParty.EntryForm.CheckCallHistory`, `TexasQsoParty.EntryForm.ShowHistory` and `TexasQsoParty.CallHistoryCheck` require the history row's `UserText` not to be NULL. A number there raises `TypeError` from the label in every Qt binding, and the model raises it; what the label does with NULL depends on the Qt binding.
- `TexasQsoParty.Points`: the duplicate flag is an integer parameter; how the host computes it is not modelled.
- `TexasQsoParty.EntryForm.SetContactVars` and `TexasQsoParty.EntryForm.CheckCallHistory` do not model the widgets themselves: each field is its text.

## Findings

| source | as written | input that shows it | evidently intended | confidence | as-written member | corrected member |
|---|---|---|---|---|---|---|
| not1mm/plugins/texas_qso_party.py:96-98 with 78-81 | the auto-fill writes the county's name into the Rcvd field, and saving the contact stores the whole field as `RcvCounty` and `NR` | history exchange `trv` with an empty Rcvd field: `RcvCounty` becomes `TRV (TRAVIS)` (two words), so the `QSO:` line gets an extra column | the name is shown to the operator, and the saved county is the code `TRV`, as typing `trv` would save | medium, not executed | `TexasQsoParty.AutoFilledCountySavedWithName` | `TexasQsoParty.ReceivedCountyCode` (`TexasQsoParty.ReceivedCountyCodeOfAutoFill`, `TexasQsoParty.TravisSavedAsCode`) |
