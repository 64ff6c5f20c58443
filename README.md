# Shop attendance kiosk, modelled in Dafny

This project models the core of a walk-up sign-in kiosk written in Rust (`src/main.rs`).
A visitor types a line, either `First Last Year` or a badge-scanner line `first$last$year%`.
The kiosk parses the line into a name tag and turns the tag into a stored record. The record
gets an id taken from the epoch milliseconds and a `day/month/year` creation date. The record
is written as a six-column row. Once an administrator has typed the admin password, they can
export every stored record as concatenated JSON into a dump file named after the current minute.

The model is split by component:

| file | module | models |
|---|---|---|
| `ascii.dfy` | `Ascii` | `to_lowercase`, `split('$')` and `split_whitespace` on ASCII text |
| `numbers.dfy` | `Numbers` | `u16` parsing (`+` allowed, at most 65535) and decimal printing |
| `clock.dfy` | `Clock` | a local clock reading (year, month, day, hour, minute) |
| `name_tags.dfy` | `NameTags` | `NameTag::from_str`, including its panics |
| `records.dfy` | `Records` | `NameTagDB`, `From<NameTag>`, the insert tuple and `from_row` |
| `json.dfy` | `Json` | the compact JSON serde_json writes for a `NameTagDB` |
| `greeting.dfy` | `Greetings` | the greeting label under the input box |
| `dumps.dfy` | `Dumps` | the dump file name and append-mode export, on a path-to-contents map |
| `kiosk.dfy` | `Kiosk` | `MyApp::update`: a `Step` function over values, built from the frame's three blocks (`SubmitStep`, `LabelStep`, `ExportStep`), and the class `KioskApp` whose `Submit`, `Label`, `Export` and `Update` methods follow them |
| `wrappers.dfy` | `Wrappers` | `Option` and `Result` |

Behaviour of the code that the model keeps, even where a reader might expect otherwise:

- A badge line's year comes from `tag[2][..tag.len() - 1]`. The slice is bounded by the field count, not the field length. For a three-field line it reads only the first two characters, so `john$doe$2025%` is stored with year 20. Badge years are therefore always 1..99.
- A line ending in `%` with fewer than two `$` makes the parser panic; a lone `%` is an example. So does one whose third field is too short for that slice, such as `a$b$%`. A panic ends the kiosk process.
- A line ending in `%` never yields a non-badge record: when the badge probe fails, its last whitespace token ends in `%` and cannot be a number.
- The typed format accepts year 0. The greeting shows any `u16` year, reprinted in decimal (`007` shows as 7).
- Names on the badge path are the raw `$`-fields, lower-cased. They may be empty or hold spaces.
- A stored row that fails to decode makes the export panic (`unwrap`), when the dump file has opened (src/main.rs:144-146); it is not skipped. The model's invariant `KioskApp.Valid` says every row decodes, under two assumptions. First, the rows present at start-up are rows this kiosk wrote. Second, SQLite hands back each value with the type it was written with. Under these assumptions every row the kiosk writes decodes back to its record. A table whose column types convert the values, for instance an `INTEGER` ID column, would make every export panic instead.
- The dump name omits the hour, and its unpadded fields run together. Two exports in the same minute, or at the same minute of different hours, append to one file. Distinct dates can collide: 2024-01-11 and 2024-11-01 at minute 5 both give `dumps/20241115.json`.
- The record id and the creation date come from two separate clock reads. They are separate parameters here.

## Model

| member | source | states |
|---|---|---|
| `Ascii.JoinSplit` | src/main.rs:189 | joining the `$`-fields back with `$` restores the line: the split loses nothing |
| `Ascii.SplitJoin` | src/main.rs:189 | splitting `$`-free fields joined with `$` gives exactly those fields |
| `Ascii.SplitCount` | src/main.rs:189-191 | there is one more field than separators, so `tag[2]` exists exactly when the line has at least two `$` |
| `Ascii.SplitLower` | src/main.rs:187-189 | lower-casing then splitting on `$` equals splitting then lower-casing each field |
| `Ascii.Tokens` | src/main.rs:201 | every whitespace token is non-empty and contains no whitespace |
| `Ascii.TokensOfWeave` | src/main.rs:201 | whenever a text is whitespace gaps alternating with tokens (gaps non-empty between tokens, possibly empty at either end, any mix of spaces, tabs and line breaks), its tokens are exactly those tokens, in order |
| `Ascii.WeaveTokens` | src/main.rs:201 | every text is such an alternation of its gaps and its tokens, so with `TokensOfWeave` the tokens are exactly the maximal whitespace-free runs |
| `Ascii.ThreeWordsSpaced` | src/main.rs:201-202 | three tokens with any whitespace around them and non-empty whitespace between them tokenise to those three |
| `Ascii.TokensLower` | src/main.rs:187-201 | the tokens of the lower-cased line are the lower-cased tokens of the line |
| `Ascii.TokensJoinWords` | src/main.rs:201 | tokenising tokens joined by single spaces gives them back |
| `Ascii.LastTokenEnd` | src/main.rs:201 | a line ending in a non-whitespace character has a last token ending in that character |
| `Ascii.ThreeWords` | src/main.rs:201-202 | three tokens joined by spaces tokenise to exactly those three |
| `Numbers.DecimalValue` | src/main.rs:248-252 | reading the decimal text of `n` gives `n` back |
| `Numbers.DecimalCanonical` | src/main.rs:115 | decimal text starts with `0` only for 0: no leading zeros |
| `Numbers.DecimalInjective` | src/main.rs:248-252 | two numbers have the same decimal text exactly when they are equal |
| `Numbers.ParseU16Decimal` | src/main.rs:205 | parsing the decimal text of any 16-bit value gives that value |
| `Numbers.ParseU16Bound` | src/main.rs:191 | a parsed value is below 10 to the power of the text's length, so a two-character probe yields at most 99 |
| `Numbers.ParseU16NonDigitEnd` | src/main.rs:205 | text ending in a non-digit never parses as a `u16` |
| `Numbers.ParseU16Lower` | src/main.rs:187-205 | lower-casing never changes whether or how a token parses as a `u16` |
| `NameTags.PlainLine` | src/main.rs:184-216 | a line not ending in `%` is accepted exactly when it has 3 tokens and the third is a `u16`, with lower-cased names, that year (0 included) and no badge; otherwise `DeserializeError`; never a panic |
| `NameTags.PercentLine` | src/main.rs:188-214 | a line ending in `%` panics when the badge indexing panics; it is a badge entry exactly when it has 3 `$`-fields and the probe is above 0; otherwise it is rejected. Badge years lie in 1..99 |
| `NameTags.PercentLineNotWords` | src/main.rs:201-214 | the whitespace format rejects every line ending in `%` |
| `NameTags.PercentLineFewSeparators` | src/main.rs:189-191 | a `%` line with fewer than two `$` panics |
| `NameTags.BadgeLine` | src/main.rs:188-199 | `first$last$field%` whose field starts with a number in 1..99 yields the lower-cased names, that number and `badge = true` |
| `NameTags.ThreeTokenLine` | src/main.rs:201-214 | three tokens are accepted or rejected by the third token alone |
| `NameTags.SpacedThreeTokenLine` | src/main.rs:201-214 | the same holds with any whitespace around and between the three tokens |
| `NameTags.SpacedLineExample` | src/main.rs:201-211 | `  John<tab>Doe  2025 ` gives `john`, `doe`, 2025, not a badge |
| `NameTags.TwoTokenLine` | src/main.rs:202-204 | a two-token line is rejected |
| `NameTags.TypedLineExample` | src/main.rs:201-211 | `John Doe 2025` gives `john`, `doe`, 2025, not a badge |
| `NameTags.BadgeLineExample` | src/main.rs:188-199 | `john$doe$2025%` gives `john`, `doe`, year 20, badge |
| `NameTags.TwoTokenExample` | src/main.rs:202-204 | `John Doe` is rejected |
| `NameTags.NonNumericYearExample` | src/main.rs:212-214 | `John Doe abc` is rejected |
| `NameTags.LonePercentExample` | src/main.rs:189-191 | `%` panics |
| `Records.MaterializeSpec` | src/main.rs:244-260 | names and badge copied; year widened unchanged into 0..65535; the id is all digits and reads back as the injected milliseconds; the date splits on `/` into day, month, year in unpadded decimal |
| `Records.MaterializeIdsDiffer` | src/main.rs:248-252 | records made at different milliseconds get different ids |
| `Records.RowRoundTrip` | src/main.rs:171-182 | `from_row` on the inserted tuple returns the inserted record, because the tuple order matches columns 0-5 |
| `Records.RowReadBack` | src/main.rs:171-182 | a six-column row that decodes, with 0 or 1 in the badge column, is exactly the tuple its record is written as |
| `Records.DecodeAll` | src/main.rs:131-133 | a scan returns one record per row, in row order, each the row's decoding |
| `Records.DecodeAppend` | src/main.rs:73-83 | after inserting a record's row, the scan is the old scan followed by that record |
| `Records.ScanRoundTrip` | src/main.rs:127-133 | writing records as rows and scanning gives them back in order |
| `Json.EscapeRoundTrip` | src/main.rs:146 | decoding the escaped JSON string body gives the original text |
| `Json.EscapeInjective` | src/main.rs:146 | distinct strings are escaped to distinct JSON text |
| `Greetings.Greeting` | src/main.rs:106-122 | the label is empty exactly for an empty buffer; otherwise it starts with `Welcome `; when no year is shown it echoes the buffer unchanged |
| `Greetings.PreviewMatchesParse` | src/main.rs:106-122 | on a line not ending in `%`, the label shows a year exactly when the parser would accept the line; the parser's names are the label's names lower-cased; the year is printed without leading zeros and reads back as the stored year |
| `Greetings.GreetingOfThree` | src/main.rs:111-115 | three tokens with a `u16` third give `Welcome {t0} {t1}, Graduation year: {v}` |
| `Greetings.GreetingNormalisesYear` | src/main.rs:113-115 | `Ann Lee 007` shows `Welcome Ann Lee, Graduation year: 7` |
| `Dumps.DumpTextAppend` | src/main.rs:143-151 | the text written for a list of records is the texts for its parts, in order |
| `Dumps.DumpTextSnoc` | src/main.rs:143-151 | one more record appends exactly its JSON |
| `Dumps.ExportAppends` | src/main.rs:134-151 | an export never truncates: every file keeps its old contents as a prefix; only the minute's file changes, and it grows by exactly the records' JSON; a failed open changes nothing |
| `Dumps.ExportTwiceSameMinute` | src/main.rs:136-142 | two exports in the same minute append to one file, second after first |
| `Dumps.DumpNameCollision` | src/main.rs:136-142 | 2024-01-11 and 2024-11-01 at minute 5, at different hours, both give `dumps/20241115.json` |
| `Dumps.DumpNameWideFields` | src/main.rs:136-142 | with a four-digit year and two-digit month, day and minute, equal names mean equal year, month, day and minute |
| `Kiosk.StepClearsBuffer` | src/main.rs:85-104 | after Submit or a `%` auto-submit the buffer is empty; otherwise it holds what was typed |
| `Kiosk.StepAdmin` | src/main.rs:88 | the admin flag equals the buffer after the Submit clear and before the `%` clear, compared with the password |
| `Kiosk.StepStore` | src/main.rs:69-105 | the process survives unless the committed line panics; a panic changes neither store nor files; otherwise the store grows by exactly the committed line's record when it parses and the insert succeeds, and is otherwise unchanged |
| `Kiosk.StepExport` | src/main.rs:124-152 | the files change only when the admin flag is set and Export is clicked; they then receive the export of the whole store, including a record stored in this frame |
| `Kiosk.RunAppendOnly` | src/main.rs:62-155 | over any sequence of frames the store only grows at its end and no dump file loses contents |
| `Kiosk.KioskApp.constructor` | src/main.rs:51-57 | the buffer starts as `Joe`, the admin flag unset, the store holding the earlier records |
| `Kiosk.KioskApp.Insert` | src/main.rs:73-83 | a successful insert appends the record to the scan; a failed one leaves it unchanged |
| `Kiosk.KioskApp.CommitName` | src/main.rs:69-86 | parse the buffer, store its record, and clear the buffer; a panic leaves store and buffer as they were |
| `Kiosk.KioskApp.Submit` | src/main.rs:68-86 | the text edit and the Submit block leave the object's state equal to `SubmitStep` of its old state: on Submit the buffer is committed and cleared, and a parser panic stops the process with the buffer as typed |
| `Kiosk.KioskApp.Label` | src/main.rs:87-105 | the label block leaves the object's state equal to `LabelStep` of its old state: the admin flag is the buffer compared with the password, then a buffer ending in `%` is committed and cleared, or panics |
| `Kiosk.KioskApp.Export` | src/main.rs:124-152 | the append loop leaves the files equal to `ExportFiles` of the decoded store |
| `Kiosk.KioskApp.Update` | src/main.rs:62-155 | one frame leaves the object's state equal to `Step` of its old state and returns the greeting of the new buffer |

## Left out

- Window, widgets and the `main` bootstrap (src/main.rs:17-24, 63-68), including the example-year label that reads the clock. This is UI plumbing.
- Kiosk.KioskApp.constructor: the rows present at start-up are taken to be rows this kiosk wrote, built from records. The database may hold rows from elsewhere that fail to decode; with those, the export panics at src/main.rs:146, and the model does not capture that.
- Reading `config.json` and exiting when it is missing or malformed (src/main.rs:35-50). The admin password is a constructor parameter.
- The SQLite engine (src/main.rs:54, 73, 92, 127-133). The store is the sequence of rows, scanned in insertion order. The table's column types and SQLite's type conversions are not part of the source.
- `Kiosk.KioskApp.Insert`: the database's answer to an insert is the parameter `ok`; the reason for a failure (a constraint, I/O) is not modelled.
- The panics of `prepare(...).expect` and `query_map(...).unwrap()` (src/main.rs:129-133), which depend on the database connection. The decode `unwrap` at src/main.rs:146 is excluded by the `Valid` invariant instead, which rests on the two assumptions stated above.
- `Json.EscapeRoundTrip`: `serde_json::to_string` is foreign code. Its output for `NameTagDB` is written out, and `to_string` cannot fail for this struct. `Unescape` is the model's own decoder and does not decode surrogate pairs, which `Escape` never writes.
- `fs::create_dir_all` (src/main.rs:134). The dump directory is a map from path to contents.
- `Kiosk.KioskApp.Export`: whether the dump file opens is the parameter `openOk`. Each `write` is taken to write its whole buffer. The source ignores short or failed writes.
- The clocks `Local::now` and `SystemTime::now` are parameters. A clock before the epoch (the `expect` at src/main.rs:250) is not modelled.
- `NameTags.Parse`: requires ASCII input. Rust's Unicode lower-casing and Unicode whitespace are not modelled, nor are byte slices that split a multi-byte character.
- `Greetings.Greeting`: requires ASCII input, for the same reason.
- `Kiosk.KioskApp.Update`: requires the typed buffer to be ASCII, for the same reason. After a panic the process is gone, so the model only records `running == false` and returns an empty label.
- The debug `println!` (src/main.rs:190), the `Debug` text of `DBError` (src/main.rs:218-231), the unused `export_len` field and the unused `NameTagErr` variants.
