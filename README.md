# Eye-capture pairing engine, modelled in Dafny

This project models the pairing engine of `main.py` in the eye-capture PDF watcher. A capture device drops image files named like `P1_20240101_S1_L_a.jpg` into a watched folder. Each capture has:

- a patient and session part;
- a `YYYYMMDD` date token (token 1);
- a side code `L` or `R` (token 3);
- a free tail.

Files that differ only in the side code form a pair. The engine does four things:

- **Filtering.** `EyeHandler.on_created` drops directories and names that do not end in `.jpg`, `.jpeg` or `.png`, compared case-insensitively.
- **Recording and completion.** `EyeHandler._process_file` does the following:
  - derives the pairing key, which is every token except the side, joined with `_`;
  - parses token 1 with `strptime('%Y%m%d')`;
  - records the path under the key and side, where the last file wins;
  - once both sides are present, calls `create_pdf`.
- **Emission.** `EyeHandler.create_pdf` does the following:
  - writes `<output>/<key>.pdf` with the left capture as page one and the right capture as page two;
  - creates `<archive>/<year>/<MM>/<DD>`;
  - moves both captures there;
  - drops the key.
- **Backfill.** `App.backfill` replays a directory listing:
  - the first loop fills a fresh table, in listing order;
  - the second loop emits every key that has both sides, in order of first appearance, and counts them.

The model is split by concern:

- `strings.dfy`: the Python `str` operations used: `lower`, `endswith`, `split`, `join`, `rfind`.
- `paths.dfy`: the POSIX `os.path` operations: `basename`, `join`, `splitext`.
- `dates.dfy`: `datetime.strptime(token, '%Y%m%d')` and the `str(year)` / `%m` / `%d` renderings. It follows the regular-expression semantics Python uses:
  - ordered alternatives, with backtracking over the month alternatives;
  - the "unconverted data remains" check;
  - the calendar check.
- `names.dfy`: key, side and date-token extraction.
- `pairing.dfy`: the live engine as values:
  - the pending table;
  - `Step` for `_process_file` and `Handle` for `on_created`;
  - `Run` over a sequence of notifications, ending at the first date token `strptime` rejects.
- `handler.dfy`: the `EyeHandler` class. Its `pending` table is updated in place by `OnCreated`, `ProcessFile` and `CreatePdf`, each proved against the value-level functions above.
- `backfill.dfy`: the two loops of `App.backfill` as imperative methods, each proved against a specification function, plus lemmas about what a backfill reports and emits.

Image decoding, the document write, `os.makedirs` and `os.rename` are not performed. One `Emit` record stands for decoding both captures and saving the document; `os.makedirs` becomes a `MakeDirs` record and each `os.rename` a `Move` record. These `Effect` records are appended, in the order the source performs them, to a log the handler owns. A date token that `strptime` rejects raises `ValueError` in the source. In the model it is the outcome `BadDate` (live) or the report `DateError` (backfill). In both cases nothing has been recorded or emitted for that file. Live, the error leaves `on_created` and ends the observer's thread, so `Run` handles no later notification. In a backfill it ends the first loop, so nothing is emitted at all.

The key keeps every token except the side (main.py:47), date token included, so the key of `P1_20240101_S1_L_a.jpg` is `P1_20240101_S1_a`. The document is always written as `<key>.pdf` (main.py:56), whatever the captures' extension.

## Model

| member | source | states |
|---|---|---|
| Strings.Lower | main.py:37 | no contract of its own: ASCII lower-casing per character; `Names.ImageExtensionIgnoresCase` states what the filter gains from it |
| Strings.EndsWith | main.py:37 | no contract of its own: `str.endswith` for one suffix; `Names.SuffixTest` states that after a prefix ending in '/' the lower-cased whole ends with a '/'-free suffix exactly when the lower-cased tail does, and `Names.ImageExtensionAccepts` that a name ending in an image extension passes |
| Strings.Split | main.py:43 | `str.split` on one character: at least one piece, and no piece contains the separator |
| Strings.Join | main.py:47 | no contract of its own: `'_'.join`; `Strings.JoinSplit` and `Strings.SplitJoin` state that it and `Split` undo each other |
| Strings.JoinSplit | main.py:43 | joining the pieces of a split with the same separator gives the string back |
| Strings.SplitWithoutSeparator | main.py:43 | a string without the separator splits into itself alone |
| Strings.SplitAtFirstSeparator | main.py:43 | splitting stops at the first separator |
| Strings.SplitJoin | main.py:47 | splitting a join of separator-free pieces gives the pieces back, so the key's pieces are recoverable |
| Strings.LastIndex | main.py:42 | `rfind` of one character: the index holds it and no later index does, or -1 when it is absent |
| Paths.Basename | main.py:42 | the basename has no '/' and is a suffix of the path |
| Paths.BasenameIsLastComponent | main.py:42 | the basename is the whole path or starts right after a '/', so it is the entire last component |
| Paths.PathJoin | main.py:56-62 | no contract of its own: `os.path.join` of two components, also used at main.py:165; `Paths.BasenameOfJoin` states that the joined name is recovered by `basename` |
| Paths.SplitExt | main.py:43 | stem and extension concatenate to the path; the extension is empty or one leading '.' with no further '.' or '/' |
| Paths.SplitExtAtLastDot | main.py:43 | a non-empty extension starts after the last '/' at a '.' not preceded only by dots in that component; with an empty one, every '.' of the last component is preceded only by dots |
| Paths.Stem | main.py:43 | no contract of its own: `splitext(p)[0]`; `Paths.StemDropsExtension` states that it removes exactly one extension |
| Paths.BasenameOfJoin | main.py:165 | the basename of `os.path.join(dir, name)` is `name` for any '/'-free non-empty name |
| Paths.StemDropsExtension | main.py:43 | `splitext` strips exactly one extension from a component that is not all dots |
| Dates.IsLeapYear | main.py:48 | no contract of its own: the Gregorian leap-year rule `datetime.date` applies; `Dates.ParseFormat` and `Dates.NoThirtiethOfFebruary` use it through `Dates.ValidDate` |
| Dates.DaysInMonth | main.py:48 | no contract of its own: the month lengths `datetime.date` checks against, 29 for a leap February; `Dates.NoThirtiethOfFebruary` exhibits the bound |
| Dates.ValidDate | main.py:48 | no contract of its own: the calendar check `datetime.date` applies inside `strptime`, years 1..9999; `Dates.ParseDate` ensures every parsed date meets it and `Dates.ParseFormat` that every date meeting it parses back from its `YYYYMMDD` form |
| Dates.MonthPieces | main.py:48 | the `%m` alternatives that match denote months 1..12 read from the characters at the position |
| Dates.MonthPiecesComplete | main.py:48 | every digit reading of a month 1..12 at the position is among the alternatives, and two-character alternatives come before the one-character one |
| Dates.DayPieces | main.py:48 | no contract of its own: the `%d` alternatives in the order they are tried; `Dates.DayPiecesSound` and `Dates.DayPiecesComplete` state that they are exactly the readings of a day |
| Dates.DayPiecesSound | main.py:48 | every `%d` alternative that matches denotes a day 1..31 read from the characters at the position |
| Dates.DayPiecesComplete | main.py:48 | every reading of a day 1..31 at the position, a blank-led one included, is among the alternatives, two-character ones first |
| Dates.FirstFit | main.py:48 | the backtracking choice is a month reading at index 4 followed by a day reading; `Dates.FirstFitIsLeast` states which of the alternatives it is |
| Dates.FitIndex | main.py:48 | independent definition of the least month alternative followed by some day alternative: it is followed by one and no earlier one is |
| Dates.FirstFitIsLeast | main.py:48 | backtracking picks exactly that least month alternative with the first day alternative after it, and fails exactly when no month alternative is followed by a day alternative |
| Dates.ParseDate | main.py:48 | `strptime('%Y%m%d')` only succeeds on a real calendar date with year 1..9999 |
| Dates.Pad2 | main.py:49 | `strftime('%m')` / `('%d')`: two digits whose value is the number |
| Dates.DecimalString | main.py:59 | `str(year)`: digits only, no leading zero, and its decimal value is the year |
| Dates.ParseFormat | main.py:48 | every valid date written as `YYYYMMDD` parses back to itself |
| Dates.ParseIsCanonical | main.py:48 | an eight-character blank-free token parses only if it is exactly the `YYYYMMDD` form of its date |
| Dates.OneDigitMonth | main.py:48 | "202411" is accepted as 2024-01-01, because the parser backtracks from month "11" to month "1" |
| Dates.OneDigitDay | main.py:48 | "2024111" is accepted as 2024-11-01 |
| Dates.MonthThirteenRejected | main.py:48 | "20241301" is rejected, because month "1" and day "30" leave data unconverted |
| Dates.NoThirtiethOfFebruary | main.py:48 | "20240230" is rejected by the calendar check |
| Names.HasImageExtension | main.py:37 | no contract of its own: the case-insensitive `.jpg`/`.jpeg`/`.png` test, also at main.py:166; `Names.ImageExtensionAccepts` and `Names.ImageExtensionOnly` state which suffixes pass, `Names.ImageExtensionIgnoresCase` that case does not matter, and `Names.LiveAgreesWithBackfill` that a path and its last component get the same answer |
| Names.ImageExtensionOnly | main.py:37 | a name passes the filter only if some tail of it lower-cases to `.jpg`, `.jpeg` or `.png` |
| Names.ImageExtensionAccepts | main.py:37 | any name ending in `.jpg`, `.jpeg` or `.png`, in any mix of case, passes the filter |
| Names.Tokens | main.py:43 | no contract of its own: `os.path.splitext(fn)[0].split('_')`, also at main.py:168; `Paths.StemDropsExtension` states what the stem is and `Strings.SplitJoin` / `Strings.JoinSplit` what the split keeps |
| Names.SideOf | main.py:44 | a token names a side exactly when it is "L" or "R", and the side renders back to that token |
| Names.KeyOf | main.py:47 | no contract of its own: the key joins every token but index 3; `Names.KeyRoundTrip` and `Names.SameKeyIff` state what it keeps |
| Names.ParseName | main.py:43-46 | no contract of its own: five or more tokens with "L" or "R" at index 3 give key, side and token 1; `Names.ParseBuiltName`, `Names.KeyRoundTrip` and `Pairing.IgnoredNames` state both outcomes |
| Names.KeyRoundTrip | main.py:43-47 | splitting the key on '_' and reinserting the side token at index 3 gives back the name's tokens; piece 1 of the key is the date token |
| Names.SameKeyIff | main.py:47 | two accepted names share a key exactly when their tokens agree everywhere except at the side position |
| Names.SameKeySameDate | main.py:47-48 | names with the same key have the same date token |
| Names.ImageExtensionIgnoresCase | main.py:37 | the extension filter gives the same answer for a name and its lower-cased form |
| Names.LiveAgreesWithBackfill | main.py:165-172 | the backfill test of a listed name and the live test of its joined path accept the same names and derive the same key, side and date token |
| Names.ParseBuiltName | main.py:43-47 | a name built from separator-free tokens with a valid side token and an extension parses to their key, side and token 1 |
| Pairing.EntryOf | main.py:50 | no contract of its own: reading `pending[key]` on the `defaultdict` of main.py:32, an absent key giving an empty entry; `Pairing.Record` states the update through it |
| Pairing.Record | main.py:50 | `pending[key][eye] = path` sets that slot (keep-last), keeps the other side of the key and leaves every other key unchanged |
| Pairing.ArchiveDir | main.py:59 | no contract of its own: `<archive>/<str(year)>/<month>/<day>`; `Pairing.StepEmits` states which date it is built from |
| Pairing.Moves | main.py:61-62 | no contract of its own: one rename per path into the partition under its basename, in order; `Pairing.AcceptEmits` states the two moves |
| Pairing.PdfEffects | main.py:54-62 | no contract of its own: the effects of `create_pdf`; `Pairing.PdfEffectsOrdered`, `Pairing.PdfEffectsShape` and `Pairing.AcceptEmits` state them |
| Pairing.Step | main.py:41-52 | no contract of its own: `_process_file`; `Pairing.IgnoredNames`, `Pairing.BadDateLeavesTable`, `Pairing.StepRecords`, `Pairing.StepEmits` and `Pairing.StepKeepsOneSided` state every outcome |
| Pairing.Accept | main.py:50-52 | no contract of its own: `_process_file` once name and date are parsed; `Pairing.AcceptEmits` and `Pairing.AcceptPair` state its outcomes |
| Pairing.Handle | main.py:36-39 | no contract of its own: `on_created`; `Pairing.IgnoredNames` states the filter and `Pairing.StepKeepsWellFormed` what a handled notification keeps |
| Pairing.Run | main.py:36-63 | no contract of its own: notifications handled one after another until a date raises; `Pairing.RunKeepsInvariants` states what every prefix keeps |
| Pairing.IgnoredNames | main.py:37-45 | a directory, a non-image name, fewer than five tokens, or a token 3 other than L/R is ignored: table unchanged, nothing emitted |
| Pairing.BadDateLeavesTable | main.py:48-50 | a date token `strptime` rejects fails before the table is touched and emits nothing |
| Pairing.StepKeepsOneSided | main.py:50-52 | after a call returns, the key it touched does not hold both sides; no pending key holding both sides is an invariant |
| Pairing.StepRecords | main.py:50-51 | a name that does not complete its pair is recorded and nothing is emitted |
| Pairing.StepEmits | main.py:51-63 | completing a pair removes the key, keeps every other key, and emits the document `<output>/<key>.pdf` with pages [L, R], then the partition from the date written in the key, then moves of both captures into it |
| Pairing.AcceptEmits | main.py:54-63 | once both sides are present, the effects are exactly: document write, partition creation, move of L, move of R |
| Pairing.RecordKeepsWellFormed | main.py:50 | recording a path under its own key and side keeps every pending path filed under its own key and side |
| Pairing.PdfEffectsOrdered | main.py:55-58 | the document written for a key has its left capture as page one and its right capture as page two |
| Pairing.PdfEffectsShape | main.py:55-62 | the document write is the first effect of `create_pdf` and the only write among them |
| Pairing.StepKeepsWellFormed | main.py:36-52 | one notification keeps every pending path under its own key and side and orders every document it emits |
| Pairing.HandleKeepsInvariants | main.py:36-52 | one `on_created` call keeps the table one-sided and well formed and orders every document it emits |
| Pairing.RunKeepsInvariants | main.py:36-63 | over any sequence of notifications the table never holds a complete pair and every document is [L, R], whatever the arrival order |
| Pairing.PairInEitherOrder | main.py:41-63 | two opposite captures of a key not yet pending, in either order: the first only records, the second emits one document with L first and restores the table |
| Pairing.AcceptPair | main.py:50-63 | the same at the level of an already-parsed name and date |
| Handler.EyeHandler.constructor | main.py:30-34 | a new handler has an empty table, no effects and the given directories |
| Handler.EyeHandler.OnCreated | main.py:36-39 | the new table, effects and outcome are those of `Handle`; the table never holds a complete pair |
| Handler.EyeHandler.ProcessFile | main.py:41-52 | the new table, effects and outcome are those of `Step`; the table never holds a complete pair |
| Handler.EyeHandler.CreatePdf | main.py:54-63 | drops exactly the key and appends the document write, the partition creation and both moves, in order |
| Backfill.Classify | main.py:165-173 | an entry is skipped exactly when it is a directory, lacks an image extension, has fewer than five tokens or no L/R at index 3; otherwise it is read under the name's key and side with a valid calendar date, or it is the entry whose date token `strptime` rejects |
| Backfill.ScanStep | main.py:165-174 | no contract of its own: one iteration of the first loop; `Backfill.ScanStepKeepsConsistent` states what it keeps |
| Backfill.Absorb | main.py:174 | no contract of its own: one iteration once the entry is classified; `Backfill.AbsorbSlot`, `Backfill.AbsorbOrder` and `Backfill.AbsorbKeepsConsistent` state its effect |
| Backfill.ScanAll | main.py:164-174 | after the first loop, each key is listed once, every entry is non-empty and every date is valid |
| Backfill.ScanStepKeepsConsistent | main.py:174 | one iteration of the first loop keeps that consistency |
| Backfill.AbsorbKeepsConsistent | main.py:174 | the same for an already-classified entry |
| Backfill.FailureSticks | main.py:173 | once a date has raised, later entries make no difference |
| Backfill.FirstUndated | main.py:173 | independent definition of the first entry whose date raises: it raises and no earlier entry does |
| Backfill.ScanFailsAtFirstUndated | main.py:164-174 | the first loop raises exactly when some entry has a bad date, and it raises on the first such entry |
| Backfill.FirstSighting | main.py:174 | independent definition of the first entry read as a given key: it is one, and no earlier entry is |
| Backfill.ScanOrder | main.py:174-176 | after the first loop the table's keys are exactly the keys some entry is read as, listed by first sighting, which is the dictionary's insertion order that the second loop follows |
| Backfill.AbsorbOrder | main.py:174 | one iteration appends the key it reads only when the key is new, keeping first-sighting order |
| Backfill.LastSighting | main.py:174 | independent definition of the last entry read as a given key and side: it is one, and no later entry is |
| Backfill.ScanKeepsLast | main.py:174 | the table holds a key's side exactly when some entry is read as it, and then holds the path and date of the last such entry |
| Backfill.AbsorbSlot | main.py:174 | one iteration sets the slot it reads and leaves every other slot unchanged |
| Backfill.SightingDate | main.py:172-173 | a recorded entry's date is the date written in piece 1 of its key |
| Backfill.PairDatesAgree | main.py:178-181 | both captures of a complete key have the same date, so using the left one's date loses nothing |
| Backfill.PairEffects | main.py:178-181 | no contract of its own: `create_pdf` on a complete entry with the left capture's date; `Backfill.PairEffectsEmitOnce` and `Backfill.PairEffectsMoves` state its effects |
| Backfill.EmitLog | main.py:175-181 | no contract of its own: the effects of the second loop; `Backfill.EmitLogOncePerPair` and `Backfill.EmitLogMovesOnlyPairs` state them |
| Backfill.CountPairs | main.py:175-182 | no contract of its own: the second loop's `count`; `Backfill.CountIsPairedKeys` states its value |
| Backfill.BackfillReport | main.py:157-183 | no contract of its own: how `backfill` ends; `Backfill.BackfillProcessesEveryPair` and `Backfill.Backfill` state it |
| Backfill.CountIsPairedKeys | main.py:175-182 | the count equals the number of distinct keys with both sides |
| Backfill.PairEffectsEmitOnce | main.py:181 | one `create_pdf` writes exactly one document, for its own key |
| Backfill.PairEffectsMoves | main.py:181 | one `create_pdf` moves only the two captures of its entry |
| Backfill.EmitLogOncePerPair | main.py:175-181 | the second loop writes exactly one document for each key with both sides and none for single-sided keys |
| Backfill.EmitLogMovesOnlyPairs | main.py:175-181 | every move the second loop performs is of a capture of a key with both sides, so a single-sided capture stays in the input folder |
| Backfill.BackfillProcessesEveryPair | main.py:157-182 | a backfill that passes the first loop reports the number of complete keys, writes one document per complete key and none for any other key, and moves only captures of complete keys |
| Backfill.ScanListing | main.py:164-174 | the first loop, as a method, computes exactly the first-loop specification, including the raise |
| Backfill.Backfill | main.py:157-182 | the whole backfill computes exactly the specified report: the missing-folder warning, the date error, or the count with the effects of every `create_pdf` call |

## Left out

- The tkinter GUI, the message boxes (modelled only as the `Report` values), configuration load/save, and the watchdog observer and its thread. Live watching is modelled as a sequence of `on_created` calls handled one after another.
- Image decoding and the multi-page save. They become one `Emit` record with the page paths in order. If decoding, saving, `os.makedirs` or `os.rename` fails, the source raises and leaves the complete entry pending. The model assumes these calls succeed.
- `os.listdir` and `os.path.isdir`. These become the `listing` input with an `isDirectory` flag per entry. Any order the operating system returns is covered, because every lemma holds for every listing.
- Re-running a backfill over the same folder. Its result depends on the files the first run moved away, which is filesystem state outside the model.
- Windows path semantics. Paths follow `posixpath`.
- main.py has no retention step: nothing removes a document or an archived capture because of its age. A later document or capture with the same name replaces the earlier one, since the save truncates `<key>.pdf` (main.py:58) and POSIX `rename` replaces an existing target (main.py:62); the model records that as a second `Emit` or `Move` with the same target and does not model the file contents.
- Strings.Lower: only ASCII letters are lower-cased. The non-ASCII case folding of Python's `str.lower` is not modelled.
- Dates.ParseDate: `\d` is ASCII digits only. Python's `re` also accepts other Unicode decimal digits in a date token.
- Handler.EyeHandler.CreatePdf: it requires the key to be pending with both sides. The source only calls it in that state, and otherwise it raises `KeyError` on line 55. That error path is not modelled.
