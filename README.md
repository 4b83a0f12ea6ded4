# Attendance registration — a Dafny model

This project models the decision logic of a single-page attendance app
(`app.py`). The app checks that the caller is near the UFMA campus. It then
looks up today's session in an iCalendar file. Finally it appends one row
`[ip_hash, date, name, event]` to a Google Sheets tab, unless that caller has
already registered today. All I/O is replaced by inputs:

- the location lookup becomes a `Probe`: no IP address, no coordinates, or a measured distance in km;
- the calendar file becomes `Parsed(walk)` (the components in walk order), `FileMissing` or `Unparsable`;
- `date.today()` and its `strftime('%Y-%m-%d')` text become the fields `today` and `todayText`;
- credentials, the two sheet reads and the append become success flags;
- the hashed IP becomes an optional opaque string;
- the text box and button become one optional submitted name (`None` means the button was not pressed);
- the spreadsheet tab becomes a `Spreadsheet` object whose `rows: seq<seq<string>>` only ever grows at the end.

Modules:
- `Calendar` (calendar.dfy): event extraction (`ler_datas_do_calendario`) and today's lookup (`verificar_data_atual`).
- `Location` (location.dfy): the 1.0 km gate of `verificar_localizacao`.
- `Ledger` (ledger.dfy): the duplicate scan (`verificar_registro_unico`), the row layout and the append (`registrar_presenca`).
- `Registration` (registration.dfy): the gate sequence of `main`. The pure function `Run` gives a run's outcome. The method `RunRegistration` performs the run on a `Spreadsheet` and is proved equal to `Run`.

Behaviour of the code worth noting, which the model keeps:
- A VEVENT without SUMMARY is named `"Sem nome"`.
- A name is refused only when it is the empty string. Python's `if nome:` accepts a name made only of blanks.
- When the read inside the duplicate check fails, the answer is "not registered" (fail-open), not an abort.
- An exception raised by the first sheet read ends the run with its own outcome (`SheetUnreachable`).
- A VEVENT without DTSTART makes `componente.get('dtstart').dt` raise inside the `try`, so the whole event list comes back empty.

## Model

| member | source | states |
|---|---|---|
| `Calendar.ReadCalendarEvents` | app.py:114-136 | The loop returns exactly `LoadEvents(file)`. That is empty for a missing or unparsable file or an undated VEVENT, and otherwise one pair per VEVENT in walk order. |
| `Calendar.LoadEvents` | app.py:118-136 | The event list has one entry per VEVENT when the file parses and every VEVENT has a DTSTART, and is empty otherwise (missing file, parse error, undated VEVENT). |
| `Calendar.PairsSnoc` | app.py:123-129 | For `Pairs`, the list the walk loop builds: one more component adds its pair at the end when it is a VEVENT, and nothing otherwise. |
| `Calendar.PairsLength` | app.py:123-129 | `Pairs` yields exactly as many pairs as there are VEVENT components. |
| `Calendar.PairsAt` | app.py:123-129 | In `Pairs`, the VEVENT at walk position i gives the pair at index "VEVENTs before i". Its date is DTSTART truncated to a date, and its name is SUMMARY or "Sem nome". |
| `Calendar.TodaysEvent` | app.py:138-146 | Found iff some event is dated today. When found, the name is that of the first such event in list order. When not found, including for an empty list, the name is None. |
| `Calendar.FirstMatchWins` | app.py:143-145 | If event i is the first dated today, the answer is (True, its name); later events on the same date are never returned. |
| `Calendar.TodaysEventAppend` | app.py:143-146 | Events appended after a match do not change the answer. |
| `Location.CheckLocation` | app.py:63-98 | The caller is accepted iff a distance was measured and it is <= 1.0 km. Without an IP address or coordinates the verdict is Unlocated. TooFar carries the measured distance. |
| `Location.ThresholdIsInclusive` | app.py:94-98 | A distance of exactly 1.0 km is accepted; any larger distance is refused as TooFar. |
| `Ledger.ColumnsAB` | app.py:170 | Reading range A:B cuts each row to a prefix of at most two cells and keeps the number of rows. |
| `Ledger.ScanRows` | app.py:175-178 | True iff some row has at least two cells, with the hash in cell 0 and the date text in cell 1. |
| `Ledger.AlreadyRegisteredToday` | app.py:165-181 | The duplicate check is True iff its read succeeds and some full row records (hash, date). Cutting rows to A:B loses no match, shorter rows never match, and a failed read answers False. |
| `Ledger.EmptySheetNeverRegistered` | app.py:171-173 | An empty sheet answers False whatever the hash and date. |
| `Ledger.AttendanceRow` | app.py:193 | The appended row has four cells in the order hash, date, name, event, so it records that visit. |
| `Ledger.AppendKeepsVisitsUnique` | app.py:189-194 | Appending a visit that no row records keeps every (hash, date) pair unique. |
| `Ledger.Spreadsheet.RegisterAttendance` | app.py:183-197 | A successful call appends exactly that one row. A failed call leaves the sheet unchanged. |
| `Registration.RunRegistration` | app.py:199-256 | The run's outcome is `Run(env, old rows)`. The sheet gains exactly `Appended(env, old rows)`: the attendance row on success, nothing otherwise. |
| `Registration.LaterGatesUntouched` | app.py:207-245 | Suppose a run ends at gate k. Changing any input of a later gate leaves the outcome unchanged. This covers the ledger rows before the duplicate check, so with no event today the ledger is never consulted. |
| `Registration.LocationGateFirst` | app.py:206-209 | A run is denied at the first gate iff the location is unknown or farther than 1.0 km. The refusal says which. |
| `Registration.NoEventTodayExactly` | app.py:216-219 | Once the location is accepted and the calendar holds events, `Run` ends in NoEventToday iff no event is dated today. |
| `Registration.AlreadyRegisteredExactly` | app.py:240-245 | Once every earlier gate passes, `Run` ends in AlreadyRegistered iff the sheet holds rows, the duplicate read succeeds and some row records this hash on today's date. |
| `Registration.RegisteredExactlyWhenAllGatesPass` | app.py:199-256 | `Run`, the outcome of the gate sequence, registers iff every gate passes. The duplicate gate passes when the sheet is empty, the read fails, or no row records the visit. The name must be non-empty and the append must succeed. The record names the submitted person and today's first event. |
| `Registration.LedgerChangesOnlyOnRegistration` | app.py:247-252 | One row `[hash, date, name, event]` is appended exactly on a registration, and none on any other outcome. |
| `Registration.SecondRunRefused` | app.py:240-245 | If the duplicate read works, repeating a successful run on the updated ledger ends in AlreadyRegistered. |
| `Registration.RunKeepsVisitsUnique` | app.py:240-252 | If the duplicate read works, a run never records one caller twice for the same date. |
| `Registration.EmptyLedgerNeverRepeat` | app.py:240-242 | With an empty ledger the duplicate check is skipped and the run is never refused as a repeat. |
| `Registration.FailedDuplicateReadAdmitsRepeat` | app.py:179-181 | There is a ledger with unique visits that a run makes non-unique when the duplicate read fails (fail-open). |
| `Registration.SeminarScenario` | app.py:199-256 | Caller at distance 0, today's only event "Seminar", empty ledger, name "Ana": the run registers Ana for the Seminar and appends `[hash, date, "Ana", "Seminar"]`. |
| `Registration.DuplicateEventDateScenario` | app.py:143-145 | With two events on the same date, the first one's name is returned. |

## Left out

- Haversine distance `calcular_distancia` (app.py:27-42): floating-point trigonometry. The gate receives the distance as a real number.
- IP discovery by socket probe and host-name lookup (app.py:69-78, app.py:152-161) and the ip-api.com request (app.py:44-61): network I/O. They appear only as the `Probe` input and the optional `ipHash`.
- An exception that `verificar_localizacao` does not catch (app.py:74-78), such as a non-`gaierror` from `gethostbyname`, would crash the page. This path is not modelled.
- An exception that `obter_ip_hash` does not catch is caught by `main` at app.py:254-256. That handler shows the same message as a failed sheet read, so the model folds this case into `sheetReachable = false` and the outcome `SheetUnreachable`. The model does not tell the two causes apart.
- SHA-256 of the IP (app.py:162): a library call. The hash is an opaque string.
- Credential loading, the Sheets client and its calls (app.py:100-112, app.py:229-233): foreign calls. They are success flags plus the `rows` of a `Spreadsheet`.
- `'values' in values_result` (app.py:241) is modelled as "the tab holds at least one row", which is how the Sheets API reports an empty range.
- Ledger.ColumnsAB keeps every row and every cell of columns A and B. The real A:B read drops trailing empty rows and trailing empty cells, so `[h, ""]` comes back as `[h]`. This cannot change the scan's answer while the hash and `todayText` are non-empty, and in the application they always are.
- File reading and iCalendar parsing (app.py:120-122): I/O and a library. The model starts from the walked component list.
- `date.today()` and `strftime` (app.py:142, app.py:174, app.py:188) are the inputs `today` and `todayText`. The model does not relate the two, and it assumes the date does not change during a run.
- Streamlit rendering, messages and the rerun-on-interaction model are left out. Each outcome stands for its distinct message.
- Two concurrent sessions can both pass the duplicate check before either appends. This race is a concurrency matter and is not modelled.
