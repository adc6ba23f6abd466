# Movimientos — a Dafny model of the entry, save and access rules

This project models the logic core of a small accounting data-entry web application. Users log in
and enter *movimientos*: a header with client, company and bank, plus debit and credit lines. They
can attach one file per line, save the movement into two database tables (`movimientos` and
`movimiento_detalle`), and later list and consult what was saved. Administrators also create users,
activate or deactivate them and reset their passwords. The UI, SQL, file system and password
hashing are outside the model.

The modules follow the application's files:

- `Movimientos` (`movimientos.dfy`) models the Movimientos page:
  - the page's role gate
  - `safe_filename`
  - the session's table of lines with its Nuevo, Duplicar, edit and reset steps (a class whose methods update it)
  - the catalog dictionaries and their options
  - the Enviar checks and totals
  - the two loops that store uploads and attach their paths to the lines
  - the stored upload name
  - the download name
  - the whole submission as one method over the table and the database
- `GeDb` (`ge_db.dfy`) models the persistence layer:
  - the two tables and their AUTO_INCREMENT counters, as a class
  - `guardar_movimiento`, with its timestamp conversion and its insert loop
  - the field defaulting of each detail row
  - `obtener_movimiento`, `listar_movimientos` and `listar_detalle_movimiento`
- `Auth` (`auth.dfy`) models `require_login` and logout (a session class), `require_roles` with its "CONSULTA" default, and the sidebar's name and role fallbacks.
- `Usuarios` (`usuarios.dfy`) models the users page: the ADMIN-only gate, the create-user checks and the record they produce, the `activo`/estado flags, and the password-reset check.
- Supporting modules:
  - `Timestamps` (`timestamps.dfy`): the `%d/%m/%Y %H:%M:%S` parser with CPython's accepted field forms, and the `strftime` layouts.
  - `Text` (`text.dfy`): Python whitespace, `strip`, `str(int)`, `split(sep)[-1]`.
  - `Records` (`records.dfy`): a line dictionary whose keys may be absent, `None`, or hold a value.
  - `Wrappers` (`wrappers.dfy`): Option and Result.

**Amounts** are integers counting cents. A NaN amount, as pandas produces for a cleared cell, is kept as its own value. Rounding totals to two decimals is then the identity, so the balance check compares the cent totals exactly.

**Time** enters as parameters. The date-time text of the form is one parameter, and each stored upload receives its own clock reading.

## Model

| member | source | states |
|---|---|---|
| Text.Strip | pages/movimientos.py:44 | `str.strip()`: the result is the slice of the text that starts after its leading whitespace run, and everything after the slice is whitespace. Neither end of the result is whitespace, so the cut-off ends are exactly the whitespace ones. The result is empty iff the text is all whitespace, and a text whose ends are not whitespace is returned unchanged |
| Text.NatToString | pages/movimientos.py:77 | `str(id)`: a non-empty run of decimal digits whose value is the id, without a leading zero (only "0" starts with '0') |
| Text.AfterLast | pages/movimientos.py:320 | `split(sep)[-1]`: a suffix of the text without `sep`; when shorter than the text it is preceded by `sep` |
| Text.AfterLastJoin | pages/movimientos.py:320 | what follows the last separator of `a + sep + b`, with no separator in `b`, is exactly `b` |
| Text.AfterLastNone | pages/movimientos.py:320 | a text without the separator is its own last component |
| Timestamps.DaysInMonth | ge_db.py:16 | months have 28 to 31 days; February has 29 exactly in Gregorian leap years; April, June, September and November have 30 |
| Timestamps.CutDate | ge_db.py:16 | the pattern's date part: the day up to the first '/', the month up to the next '/', four year characters, and the rest; the pieces make up the text again |
| Timestamps.CutDateJoin | ge_db.py:16 | a day and a month without '/', joined by '/' and followed by four year characters, are cut back into exactly those pieces |
| Timestamps.CutClock | ge_db.py:16 | after the year: a non-empty whitespace run, then the hour, minute and second around the next two ':'; the pieces make up the text again |
| Timestamps.CutClockJoin | ge_db.py:16 | pieces laid out as whitespace, `H:M:S` (no ':' in the hour or minute, no leading whitespace in the hour) are cut back into exactly those pieces |
| Timestamps.CutDisplay | ge_db.py:16 | where the `%d/%m/%Y %H:%M:%S` pattern's separators fall in a text; the pieces found make up the text again |
| Timestamps.CutJoin | ge_db.py:16 | a text laid out from well-cut pieces is cut back into exactly those pieces |
| Timestamps.ParseDisplay | ge_db.py:16 | `strptime(..., "%d/%m/%Y %H:%M:%S")`: an accepted text is cut by the pattern into fields each in a form CPython's `%d`, `%m`, `%H`, `%M` and `%S` accept, plus a four-digit year, and the result is the date-time those fields spell, which is a real one (years 1 to 9999, real day of month, seconds below 60) |
| Timestamps.ParseDisplayLayout | ge_db.py:16 | a text laid out as `dd/mm/YYYY<whitespace>HH:MM:SS` parses to t iff every field has an accepted form, t is the date-time the fields spell, and t is a real date-time |
| Timestamps.ImpossibleDateRefused | ge_db.py:16 | well-formed fields that name no real date-time (31 April, 29 February of a common year, year 0000, second 60 or 61) are refused |
| Timestamps.ThirtyFirstOfAprilRefused | ge_db.py:16 | "31/04/2024 10:00:00" is refused |
| Timestamps.FormatSql | ge_db.py:16 | `strftime("%Y-%m-%d %H:%M:%S")`: 19 characters, separators at fixed positions, and each fixed slice reads back as its field |
| Timestamps.FormatCompact | pages/movimientos.py:181 | `strftime('%Y%m%d_%H%M%S')`: 15 characters with '_' at position 8, and each fixed slice reads back as its field |
| Timestamps.FormatCompactInjective | pages/movimientos.py:181 | two valid date-times with the same compact stamp are equal |
| Timestamps.PaddedFields | pages/movimientos.py:93 | the zero-padded fields of a valid date-time are well cut, each in an accepted form, and spell that date-time |
| Timestamps.ParseFormatDisplay | pages/movimientos.py:93 | the form's default text, the current time in `%d/%m/%Y %H:%M:%S`, parses back to exactly that time |
| Timestamps.FormatDisplay | pages/movimientos.py:93 | `strftime("%d/%m/%Y %H:%M:%S")`: PaddedFields shows its fields are accepted and spell the date-time, and ParseFormatDisplay that it parses back to it |
| GeDb.FechaSql | ge_db.py:16 | the conversion fails exactly when parsing fails, and otherwise gives the SQL layout of the parsed date-time; FechaSqlLayout and FechaSqlOfDisplay state which texts those are |
| GeDb.FechaSqlLayout | ge_db.py:16 | a text laid out as `dd/mm/YYYY HH:MM:SS` with accepted fields is refused iff its fields name no real date-time, and otherwise becomes the `YYYY-mm-dd HH:MM:SS` text of that date-time |
| GeDb.FechaSqlOfDisplay | ge_db.py:16 | a `dd/mm/YYYY HH:MM:SS` text of a valid date-time becomes the `YYYY-mm-dd HH:MM:SS` text of the same six fields |
| GeDb.TextField | ge_db.py:40-44 | `l.get(key, "")`: an absent key stores "", `None` stores NULL, a value is stored as is |
| GeDb.StoredAmountAsWritten | ge_db.py:42-43 | `float(l.get(key, 0) or 0)` as written: absent, `None` and 0 give 0, and NaN passes through as NaN |
| GeDb.StoredAmount | ge_db.py:42-43 | the corrected amount: a number is stored as is, and every missing amount (absent, `None`, NaN) is stored as 0 |
| GeDb.ArchivoField | ge_db.py:45 | `l.get("archivo")`: a path is stored as is; an absent key and `None` both store NULL |
| GeDb.DetallesDe | ge_db.py:31-47 | one detail row per line in line order: row k has id `firstId + k`, the header's id, and line k's defaulted fields (amounts by the corrected reading, see Findings) |
| GeDb.DetalleDe | ge_db.py:38-46 | the row inserted for one line: its texts, amounts and path defaulted field by field (TextField, StoredAmount, ArchivoField); DetallesDe states its place among the rows |
| GeDb.FindMovimiento | ge_db.py:83-89 | the row found has the id asked for; no row is found only when no row has that id |
| GeDb.DetallesDeMovimiento | ge_db.py:101-102 | `WHERE movimiento_id = %s`: a row is listed iff it is in the table and belongs to that movement |
| GeDb.DetallesDeMovimientoAscending | ge_db.py:103 | `ORDER BY id ASC`: over a table with ascending ids, the listing's ids ascend |
| GeDb.DetallesDeMovimientoAppend | ge_db.py:101-103 | the listing of a table extended by new rows is the old listing followed by the new rows' listing |
| GeDb.DetallesDeMovimientoOwn | ge_db.py:101-103 | the rows inserted for a movement all list under that movement, in insertion order |
| GeDb.DetallesDeMovimientoNone | ge_db.py:101-102 | a movement without rows in a table lists nothing |
| GeDb.ResumenesEntre | ge_db.py:60-70 | `WHERE DATE(fecha_hora) BETWEEN desde AND hasta`: a movement is listed iff its date lies in the closed range, every listed row lies in that range with Estado "OK", and the listing is no longer than the table |
| GeDb.ResumenesEntreSound | ge_db.py:60-68 | every listed row is the summary of some movement of the table |
| GeDb.InRange | ge_db.py:69 | `DATE(fecha_hora) BETWEEN desde AND hasta`, both ends included; ResumenesEntre lists a movement iff it holds |
| GeDb.ResumenDe | ge_db.py:60-67 | the summary columns of a header with Estado "OK"; ResumenesEntre and ResumenesEntreSound state that the listing is made of them |
| GeDb.EarlierListedBelow | ge_db.py:70 | over ascending ids, every row listed from the table without its last movement has an id below that last movement's |
| GeDb.ResumenesEntreDescending | ge_db.py:70 | `ORDER BY id DESC`: over a table with ascending ids, the listing's ids strictly descend |
| GeDb.InsertHeaderValid | ge_db.py:21-29 | inserting a header under the next AUTO_INCREMENT id keeps the tables' invariant: ascending ids below the counters, and every detail row pointing at an existing header |
| GeDb.InsertDetalleValid | ge_db.py:31-47 | inserting a detail row for an existing header under the next id keeps the invariant |
| GeDb.Database.constructor | ge_db.py:29 | new tables are empty, and both counters start at 1 |
| GeDb.Database.ObtenerMovimiento | ge_db.py:77-91 | `obtener_movimiento`: the header row with that id, or none when no row has it |
| GeDb.Database.ListarDetalle | ge_db.py:93-107 | `listar_detalle_movimiento`: exactly that movement's detail rows, in ascending id order |
| GeDb.Database.ListarMovimientos | ge_db.py:54-74 | `listar_movimientos`: exactly the movements dated within [desde, hasta], each as its summary, highest id first |
| GeDb.Database.GuardarMovimiento | ge_db.py:14-50 | a text that does not parse fails and changes nothing. Otherwise exactly one header is appended under the next id, holding the parsed date-time and the totals exactly as passed. Then one detail row per line follows, in line order, each pointing at that id, which is returned. Reading back gives that header and those rows (amounts by the corrected reading, see Findings) |
| GeDb.Database.InsertarMovimiento | ge_db.py:21-47 | the two inserts: one header under the next id holding the values as passed, then the lines' detail rows numbered from the next detail id; both counters advance by the rows inserted and the tables' invariant is kept (amounts by the corrected reading, see Findings) |
| GeDb.DetallesNuevos | ge_db.py:31-47 | the detail insert loop produces exactly `DetallesDe`: one row per line, in line order (amounts by the corrected reading, see Findings) |
| GeDb.DetallesDeSnoc | ge_db.py:31-47 | one more turn of the loop appends exactly the next line's row, numbered after the previous rows |
| GeDb.InsertDetallesValid | ge_db.py:31-47 | appending the detail rows of an existing header under the next ids keeps the tables' invariant |
| GeDb.ListingOfNewMovement | ge_db.py:101-103 | a movement saved under a fresh id lists exactly the rows inserted for it, in line order |
| GeDb.FindAfterAppend | ge_db.py:83-89 | a header appended under an id no other row has is the one found for that id |
| Auth.CurrentUser | auth.py:15 | `st.session_state.get("auth") or {}`: the stored user, or the empty dictionary when absent or `None` |
| Auth.Rol | auth.py:16 | `user.get("rol", "CONSULTA")`: a missing key reads as "CONSULTA", otherwise the stored value |
| Auth.RequireRoles | auth.py:14-19 | the page goes on iff the user's role is among the listed roles; without a signed-in user it goes on iff "CONSULTA" is listed |
| Auth.SidebarName | auth.py:24 | the shown name is the user's nombre when non-empty, else their usuario when non-empty, else "Usuario"; never empty |
| Auth.SidebarRol | auth.py:23-28 | the shown role is the user's role, "None" for a `None` role, and "CONSULTA" without a signed-in user |
| Auth.DefaultRoleSeesNoPage | auth.py:16-17 | a user whose role reads as "CONSULTA" is refused by every page's role list |
| Auth.Session.constructor | auth.py:6 | a new session holds no `auth` entry and nothing else |
| Auth.Session.RequireLogin | auth.py:5-12 | an absent `auth` entry becomes `None`, nothing else changes, and the page stops iff `auth` is then `None` |
| Auth.Session.Logout | auth.py:31-33 | `st.session_state.clear()`: no `auth` entry and no other entry remain |
| Auth.LogoutThenNextPage | auth.py:31-33 | after logging out, the next page's login check stops it |
| Movimientos.PageOpens | pages/movimientos.py:29-35 | the page opens iff the role is ADMIN, ASISTENTE or SOCIO, which agrees with the role gate for that list; a user without a role is refused |
| Movimientos.SpacesToUnderscores | pages/movimientos.py:44 | `replace(" ", "_")`: same length, each blank becomes '_', every other character is kept in place |
| Movimientos.SpacesToUnderscoresCounts | pages/movimientos.py:44 | each blank adds one '_' and the count of every other character is unchanged |
| Movimientos.KeepNameChars | pages/movimientos.py:45 | `re.sub(r"[^A-Za-z0-9._-]", "", s)`: only letters, digits, '.', '_' and '-' remain, and the text does not grow; a single character is kept iff it is allowed |
| Movimientos.KeepNameCharsAppend | pages/movimientos.py:45 | the filter keeps the order: what remains of `a + b` is what remains of `a` followed by what remains of `b` |
| Movimientos.KeepNameCharsCounts | pages/movimientos.py:45 | every allowed character is kept as often as it occurs |
| Movimientos.KeepNameCharsAllowed | pages/movimientos.py:45 | a text made only of allowed characters passes the filter unchanged |
| Movimientos.CleanedEmpty | pages/movimientos.py:44-46 | the cleaned text is empty iff no character of the stripped name is allowed or a blank, and it keeps the allowed characters' counts, with blanks counted as '_' |
| Movimientos.SurvivorKept | pages/movimientos.py:44-45 | a stripped name with an allowed character or a blank leaves a non-empty cleaned text |
| Movimientos.KeptSurvives | pages/movimientos.py:44-45 | a non-empty cleaned text comes from a stripped name with an allowed character or a blank |
| Movimientos.SafeFilename | pages/movimientos.py:43-46 | `safe_filename`: never empty and only allowed characters. It is "archivo" when nothing of the stripped name survives. Otherwise it is the stripped name with blanks turned into '_' and then filtered, in order, so every allowed character is kept as often as it occurs and '_' also stands for each blank |
| Movimientos.NameCharsUntouched | pages/movimientos.py:44-46 | a text made only of allowed characters is unchanged by the strip and by the blank replacement |
| Movimientos.SafeFilenameFixedPoint | pages/movimientos.py:43-46 | a name is returned unchanged iff it is non-empty and made of allowed characters |
| Movimientos.SafeFilenameIdempotent | pages/movimientos.py:43-46 | cleaning a cleaned name changes nothing |
| Movimientos.UploaderSlots | pages/movimientos.py:146-149 | one uploader per line: slot i holds a file iff key `mov_file_i` holds one, and then that file |
| Movimientos.LineTable.constructor | pages/movimientos.py:107-114 | the table starts as exactly one blank line (empty texts, zero amounts), with no uploads |
| Movimientos.LineTable.Nuevo | pages/movimientos.py:118-123 | one blank line is appended; earlier lines keep their values and order |
| Movimientos.LineTable.Duplicar | pages/movimientos.py:125-129 | a copy of the last line is appended and earlier lines are kept; an empty table stays empty |
| Movimientos.LineTable.Editar | pages/movimientos.py:142 | the editor's result becomes the table |
| Movimientos.LineTable.ElegirArchivo | pages/movimientos.py:148 | choosing a file fills that line's uploader and nothing else |
| Movimientos.LineTable.ArchivosSubidos | pages/movimientos.py:146-149 | `uploaded_files` has one entry per line, present iff that line's uploader holds a file, and then that file |
| Movimientos.LineTable.Reiniciar | pages/movimientos.py:229-241 | after a save the table is one blank line again, the first `slots` uploaders are emptied, and the others are kept |
| Movimientos.TotalAppend | pages/movimientos.py:163-164 | the column total of two tables joined is the sum of their totals |
| Movimientos.TotalOnlyAmounts | pages/movimientos.py:163-164 | totals depend only on the amounts: tables agreeing on every line's amount have equal totals |
| Movimientos.Total | pages/movimientos.py:163-164 | `fillna(0).sum()` in cents: a single line totals its own amount, with a missing amount counting 0, and a table whose amounts are all missing totals 0; TotalAppend and TotalOnlyAmounts give the rest |
| Movimientos.Cuadra | pages/movimientos.py:166 | the balance check compares the two cent totals for equality; NuevoKeepsTotals, DuplicarTotals and SavedMovementBalances state what keeps it |
| Movimientos.NuevoKeepsTotals | pages/movimientos.py:118-123 | a blank line changes neither total nor the balance |
| Movimientos.DuplicarTotals | pages/movimientos.py:125-129 | duplicating adds the last line's amounts once more; a balanced table stays balanced iff that line's debit equals its credit |
| Movimientos.StoredTotalOfLines | ge_db.py:31-47 | the saved detail rows of a table add up, column by column, to the table's totals (missing amounts as 0) |
| Movimientos.NaNDebitAsWritten | ge_db.py:42 | a NaN debit counts 0 in the page's total but reaches the detail row as NaN when the save's expression is used as written |
| Movimientos.CatalogLabel | pages/movimientos.py:77 | `f'{nombre} (ID {id})'` ends in ')' |
| Movimientos.LabelDeterminesId | pages/movimientos.py:77-79 | two rows with the same option text have the same id |
| Movimientos.CatalogMap | pages/movimientos.py:77-79 | the dictionary's keys are exactly the rows' option texts |
| Movimientos.CatalogMapResolves | pages/movimientos.py:101-103 | every row's option text resolves to that row's id |
| Movimientos.SeleccioneIsNoLabel | pages/movimientos.py:81-83 | "Seleccione" is never an option text of a row |
| Movimientos.Labels | pages/movimientos.py:77 | the option text of each row, in row order |
| Movimientos.LabelsAreMapKeys | pages/movimientos.py:77-79 | the rows' option texts are exactly the dictionary's keys |
| Movimientos.FirstIndex | pages/movimientos.py:81-83 | the position of the first occurrence: it holds the text and no earlier position does |
| Movimientos.FirstIndexPrefix | pages/movimientos.py:81-83 | a first occurrence inside a prefix is the first occurrence in the whole sequence |
| Movimientos.DedupFirstIndices | pages/movimientos.py:81-83 | appending a text moves no earlier first occurrence, and a new text's first occurrence is the last position |
| Movimientos.Dedup | pages/movimientos.py:81-83 | `list(d.keys())`: the same texts, each once, in the order of their first occurrence |
| Movimientos.CatalogOptions | pages/movimientos.py:81-83 | "Seleccione" first, then each option text exactly once, in the order of its first row; the rest are exactly the dictionary's keys |
| Movimientos.EnviarGate | pages/movimientos.py:155-168 | the checks in order. It stops iff a selection is "Seleccione". Next it stops iff some selection does not resolve. Next it stops iff the debit and credit totals differ. When all pass, the three resolved ids and the two (equal) totals go on |
| Movimientos.OptionResolves | pages/movimientos.py:95-103 | an offered option is "Seleccione" or a key of the dictionary |
| Movimientos.OptionsAlwaysResolve | pages/movimientos.py:159-161 | selections taken from the catalogs' own options never stop at the id check |
| Movimientos.EmptyCatalogBlocks | pages/movimientos.py:71-75 | when a catalog failed to load (no rows), every submission stops at the selection check |
| Movimientos.NameHead | pages/movimientos.py:181 | `mov_<stamp>_linea_` is 26 allowed characters with the stamp at positions 4 to 18 |
| Movimientos.NameTail | pages/movimientos.py:180-181 | `<i+1>_<safe_filename(name)>` is made of allowed characters |
| Movimientos.UniqueName | pages/movimientos.py:180-181 | the stored name `mov_<stamp>_linea_<i+1>_<safe_filename(name)>` is made only of allowed characters |
| Movimientos.NameTailInjective | pages/movimientos.py:181 | equal tails have equal line numbers and equal cleaned names |
| Movimientos.UniqueNameDetermines | pages/movimientos.py:181 | a stored name determines its stamp, its line number and its cleaned name |
| Movimientos.UniqueNameInjective | pages/movimientos.py:180-181 | two stored names are equal iff their stamps, line numbers and cleaned names are |
| Movimientos.StoredPath | pages/movimientos.py:182 | `data/uploads/<stored name>`; BasenameOfStoredPath recovers the stored name from it, and StoredPathInjective and UniqueNameInjective state when two paths coincide |
| Movimientos.StoredPathInjective | pages/movimientos.py:180-182 | two stored paths are equal iff their stamps, line numbers and cleaned names are |
| Text.Basename | pages/movimientos.py:320 | the download name is the longest suffix of the path holding neither '/' nor '\\': when shorter than the path, it is preceded by one of them |
| Movimientos.BasenameOfStoredPath | pages/movimientos.py:182 | the download name of `data/uploads/<name>` is the stored name itself |
| Movimientos.DownloadName | pages/movimientos.py:313-320 | a download is offered iff the row's path is a non-empty text, under its longest separator-free suffix |
| Movimientos.SavedPath | pages/movimientos.py:175-187 | a slot with a file yields its stored path; an empty slot yields `None` |
| Movimientos.SavedPaths | pages/movimientos.py:174-187 | `saved_paths` has one entry per slot, and entry i is slot i's stored path under its own stamp and line number, or `None` for an empty slot |
| Movimientos.SavedPathsSnoc | pages/movimientos.py:174-187 | saving one more slot appends that slot's entry to the paths saved so far |
| Movimientos.WithArchivos | pages/movimientos.py:189-190 | the line count is unchanged, line i keeps everything but `archivo`, and `archivo` is slot i's path or `None` (also past the last slot) |
| Movimientos.Attach | pages/movimientos.py:190 | one line with `archivo` set to its slot's path, or `None`; WithArchivos states it for every line |
| Movimientos.AttachKeepsTotals | pages/movimientos.py:189-190 | attaching paths changes neither total |
| Movimientos.GuardarArchivos | pages/movimientos.py:174-187 | the first loop builds exactly `SavedPaths` |
| Movimientos.AsignarArchivos | pages/movimientos.py:189-190 | the in-place loop leaves exactly `WithArchivos` |
| Movimientos.DownloadOfAttachedLine | pages/movimientos.py:313-320 | a saved line stores a path iff its slot held a file, and it is then offered for download under the stored name |
| Movimientos.Enviar | pages/movimientos.py:153-243 | a failed check returns its reason and changes neither the table nor the database. A failed date conversion changes neither either. Otherwise one header (parsed date-time, selection texts, page totals) and one detail row per line (with its file path) are saved, the header counter advances by one and the detail counter by the number of lines, the table is reset, and only the uploaders past the submitted lines keep their files, unchanged (amounts by the corrected reading, see Findings) |
| Movimientos.SavedMovementBalances | pages/movimientos.py:163-168 | the detail rows saved for a balanced table have equal debit and credit sums, each equal to the header's total |
| Usuarios.RolesMapKeys | pages/usuarios.py:29 | the role dictionary's keys are exactly the role names |
| Usuarios.RolesMap | pages/usuarios.py:29 | `{r["nombre"]: r["id"] for r in roles}`; RolesMapKeys and RolesMapLastWins state its keys and values |
| Usuarios.RolesMapLastWins | pages/usuarios.py:29 | a name resolves to the id of the last row carrying it |
| Usuarios.CrearUsuario | pages/usuarios.py:43-60 | refused for a blank login first, then for differing or empty passwords, then for a role that is not in the dictionary. Otherwise the record has the stripped login, the stripped name (NULL only when empty), the hash of the password, the role's id and the activo flag |
| Usuarios.ActivoFlag | pages/usuarios.py:59 | `activo` is 1 iff "Sí", else 0 |
| Usuarios.EstadoFlag | pages/usuarios.py:92 | 1 iff "Activar", else 0 |
| Usuarios.ResetPassword | pages/usuarios.py:100-106 | refused iff the passwords differ or are empty; otherwise the hash of the new password, for the user selected by id |
| Usuarios.OnlyAdminOpens | pages/usuarios.py:16 | the page's role gate lets through exactly the role ADMIN |

## Left out

- Streamlit rendering, layout, messages, `st.rerun`, and the login screen `require_login` shows (`login.py`, `login_view.py`, `utils.py`, `app.py`): UI.
- The MySQL connection, commit and close: the tables are in-memory sequences with AUTO_INCREMENT counters. An exception between the inserts and the commit is not modelled.
- File-system effects: creating `data/uploads`, writing the uploaded bytes, and reading them back for download. Only the paths are modelled.
- `datetime.now()`: the form's default text and each upload's stamp are parameters.
- bcrypt: the hash is a function parameter. The random salt is not modelled.
- The Excel export, `st.cache_data` with its 60-second TTL, and the query form's Día/Mes/Año filter, which nothing reads.
- `pages/reportes.py`, `pages/catalogos.py` and `pages/roles.py`: only their role lists are modelled, as constants in `Auth`.
- `pages/movimientos.py:19-21` imports `listar_clientes`, `listar_empresas` and `listar_bancos`, which are absent from `ge_db.py`, so the page as written stops at the import. The model follows the intended page: the catalog rows those calls would return are parameters (`rows` of Movimientos.CatalogMap and Movimientos.CatalogOptions, and the `clientes`, `empresas` and `bancos` dictionaries of Movimientos.EnviarGate and Movimientos.Enviar).
- The database calls of the users page (`crear_usuario`, `set_usuario_activo`, `reset_password`, `listar_roles`, `listar_usuarios`) are absent from `ge_db.py`. The model produces the record or flag each would receive.
- The undefined `puede_guardar` of the Enviar button is not modelled: the button is taken as enabled.
- `guardar_movimiento` does not accept the `cliente_id`, `empresa_id` and `banco_id` keyword arguments the page passes. The model calls it without them, so the resolved ids are checked but not stored.
- Amounts are exact cents, so IEEE rounding and the `round(x, 2)` comparison are not modelled. Of the `float` conversions of the save, only the NaN case is modelled, by GeDb.StoredAmountAsWritten.
- Text amounts, non-numeric cell types, and the editor's `min_value=0.0` bound are not modelled: a cell is a number, NaN, `None` or absent.
- Timestamps.ParseDisplay: `\d` accepts ASCII digits only, whereas CPython's regular expressions also accept other Unicode decimal digits.
- Timestamps.FormatSql: pads years below 1000 to four digits, where the C library's `%Y` prints them without padding.
- Timestamps.FormatCompact: pads years below 1000 to four digits, for the same reason.
- Timestamps.FormatDisplay: pads years below 1000 to four digits, for the same reason. Its input is the current clock reading, so the difference does not arise in practice.
- The `creado_en` column of `obtener_movimiento` and the query's `fecha_hora` text form: the header keeps the parsed date-time.
- The detail page's row selection and the `Id` column fallback (pages/movimientos.py:286-292): UI.
- Movimientos.StoredPath: joins with '/', as `os.path.join` does on POSIX systems; on Windows the separator would be '\\'.
- GeDb.Database.GuardarMovimiento: stores each detail amount by the corrected reading (GeDb.StoredAmount), so a NaN amount is stored as 0, where ge_db.py:42-43 as written sends NaN to the insert. Only GeDb.StoredAmountAsWritten and Movimientos.NaNDebitAsWritten model the as-written path.
- GeDb.DetallesDe: uses the same corrected amount reading.
- GeDb.Database.InsertarMovimiento: uses the same corrected amount reading.
- GeDb.DetallesNuevos: uses the same corrected amount reading.
- Movimientos.Enviar: saves through GeDb.Database.GuardarMovimiento, so its detail amounts also follow the corrected reading.
- Movimientos.Enviar: the uploader keys are emptied only up to the number of slots at submission, as the source does. Widget keys of other pages are not part of the model.

## Findings

| source | as written | input that shows it | evidently intended | confidence | as-written member | corrected member |
|---|---|---|---|---|---|---|
| ge_db.py:42-43 | `float(l.get("Débito", 0) or 0)` turns absent, `None` and 0 into 0, but NaN is truthy in Python and passes through | a line whose Débito cell was cleared in the editor (NaN): the page's total counts it as 0 (`fillna(0)`), but the insert is sent NaN; what the database driver then does is outside these files | every missing amount stored as 0, so the detail rows add up to the header's totals | medium, not executed | GeDb.StoredAmountAsWritten, Movimientos.NaNDebitAsWritten | GeDb.StoredAmount, Movimientos.StoredTotalOfLines |
