# mb2cs — a verified model of the Manabox-to-Cardsphere row normaliser

`mb2cs.py` converts a Manabox collection export (CSV) into a file that
Cardsphere can import. It loads two override tables (`names.csv` and
`editions.csv`). It then runs every data row of the export through a fixed,
ordered chain of rewrite rules over four working strings: the card name,
the edition (set name), the collector number and the set code. The chain
ends in one `cardsphere.csv` line, in a silent drop (tokens and sticker
sheets), or in a logged skip (promos and alternate printings it cannot
place).

This project models that chain and the loop around it in Dafny, and proves
what each stage does.

- `Text.dfy` — the Python string operations the rules use, written out
  with their Python meaning:
  - substring tests, `str.replace`, `split(sep)[0]`, `strip()`;
  - ASCII `lower()`, `isnumeric()`, `re.sub("[^0-9]", "", s)` and `int()`.
- `Overrides.dfy` — the two loaders, and the two inner loops that scan a
  set code's entries.
  - The loaders group rows by set code in file order.
  - The name scan lets the last matching collector number win.
  - The range scan lets the last matching range win. A failed `int()` is
    a crash.
- `Rules.dfy` — one function per stage, each with lemmas that state the
  stage's rule. The stages are:
  - the synonym table;
  - the substring edition rules;
  - the lookup test and the lookup reply;
  - the collector-number suffix resolver;
  - basic lands and numbered reprints;
  - split names, quotes and blanks;
  - the two override stages;
  - the token filter.
- `SynonymTable.dfy` — why every value of the synonym table passes the
  substring rules unchanged, value by value.
- `Converter.dfy` — the whole row:
  - `Normalize` is the specification function and `NormalizeRow` is the
    loop body written as statements. The method is proved equal to the
    function.
  - The main loop `ConvertRows` keeps the row number, the lookup counter,
    the output lines and the error log. It is proved equal to a fold of
    the rows' results that stops at the first crash.
  - `Convert` loads the tables and runs the loop.

Python exceptions are outcomes, not preconditions. An exception ends the
program, so each one is modelled as a crash that ends the run. The model
covers these exceptions:

- IndexError: a row with fewer than 14 columns, an override row with fewer
  than 4, or an empty collector number or set code where the code indexes
  it;
- KeyError: a language code missing from the language table;
- ValueError: `int()` on a string that is not a number.

The Multiverse Bridge reply for data row `i` is a parameter, `replies[i]`.
A missing index stands for an empty reply.

Some behaviours of the code are easy to misread; the model follows the code:

- The three forcing edition rules ("Convention Promo", "Friday Night
  Magic", "Wizards Play Network") are tested in sequence, but each forced
  value contains none of the later patterns. So the first pattern present
  decides, rather than the last one (`Rules.PatternRewrites`).
- A basic land numbered below 100 gets exactly one "0" prepended, not
  padding to a fixed width (`Rules.BasicLandNumbered`).
- The sticker-sheet filter is a substring test on the edition, not an
  equality test (`Rules.Keep`).
- An empty lookup reply is logged, and the row then continues through the
  chain unchanged; it is not skipped (`Converter.EmptyReplyFallsThrough`).

## Model

| member | source | states |
|---|---|---|
| `Text.Replace` | mb2cs.py:221 | `str.replace`: a string without the pattern comes back unchanged, and every character of the result comes from the input or the replacement |
| `Text.ReplaceFirst` | mb2cs.py:124-127 | `str.replace` is determined: the text before the first occurrence is copied, that occurrence becomes the replacement, and the scan goes on after it |
| `Text.ReplaceRemovesChar` | mb2cs.py:221 | replacing a one-character pattern by a text without that character leaves no occurrence of it |
| `Text.ContainsAt` | mb2cs.py:116-127 | `sub in s` holds when `sub` occurs at some position of `s` |
| `Text.ContainsWitness` | mb2cs.py:116-127 | `sub in s` holds only when `sub` occurs at some position of `s` |
| `Text.BeforeFirst` | mb2cs.py:219 | `split(sep)[0]` is a prefix of the input, has no occurrence of the separator starting inside it, ends exactly where the first separator starts, and is the whole input when there is no separator |
| `Text.StripStart` | mb2cs.py:219 | `lstrip()` removes a run of Python whitespace from the front, and the result does not start with whitespace |
| `Text.StripEnd` | mb2cs.py:219 | `rstrip()` removes a run of Python whitespace from the end, and the result does not end with whitespace |
| `Text.StripKeepsAbsent` | mb2cs.py:219 | stripping a string cannot create an occurrence of anything |
| `Text.Lower` | mb2cs.py:198 | `lower()` keeps the length and lowers each ASCII capital in place |
| `Text.DigitsOnly` | mb2cs.py:193 | `re.sub("[^0-9]", "", s)` yields only ASCII digits, exactly as many of each digit as the input holds, and leaves an all-digit string unchanged |
| `Text.DigitsOnlyConcat` | mb2cs.py:193 | the digit filter works piecewise, so the digits come out in input order |
| `Text.ParseIntDecimal` | mb2cs.py:237 | `int(str(n))` is `n` for every natural number: parsing undoes decimal printing |
| `Text.ParseIntIsNumeric` | mb2cs.py:151 | a number `int()` accepts is `isnumeric()`, and an ASCII string that is `isnumeric()` is accepted by `int()` |
| `Text.ParseIntLeadingZero` | mb2cs.py:201-202 | prepending "0" to a number `int()` accepts keeps its value |
| `Text.AsciiOnly` | mb2cs.py:92 | the ASCII folding keeps only ASCII characters, all taken from the input, and leaves ASCII text unchanged |
| `Overrides.LoadTable` | mb2cs.py:55-68 | the loader loop builds exactly `Group(rows)`: every set code mapped to its entries in file order, or a crash on a row with fewer than four columns |
| `Overrides.EntriesForNonEmpty` | mb2cs.py:59-61 | a set code is a key of the table exactly when it lists at least one entry |
| `Overrides.EntriesForFromRows` | mb2cs.py:61 | every entry under a set code comes from a row of the file with that set code |
| `Overrides.GroupAppend` | mb2cs.py:59-61 | one more row appends its three fields to the end of its set code's list and changes no other key |
| `Overrides.NameOverrideLastMatch` | mb2cs.py:227-231 | with no entry for the collector number, name and edition are unchanged; otherwise the last matching entry sets both |
| `Overrides.ScanNames` | mb2cs.py:228-231 | the names.csv loop computes `NameOverride` |
| `Overrides.RangeOverrideLastMatch` | mb2cs.py:233-238 | the range scan crashes exactly when some entry's `int()` fails; with no failure the last range containing the number sets the edition, and no such range leaves it unchanged |
| `Overrides.ScanRanges` | mb2cs.py:236-238 | the editions.csv loop computes `RangeOverride`, stopping at the first failing `int()` |
| `Overrides.RangeOverrideFailureSticks` | mb2cs.py:237 | once a prefix of the range scan has crashed, the whole scan has crashed |
| `Overrides.InRangeShortCircuit` | mb2cs.py:237 | the range test fails exactly when the number, the lower bound, or (for a number not below the lower bound) the upper bound does not parse; it holds exactly when all three parse and lower <= number <= upper |
| `Rules.Take` | mb2cs.py:142 | `s[:n]` is a prefix of length at most `n` |
| `SynonymTable.SynonymIsFinal` | mb2cs.py:95-127 | every Manabox set name listed in the synonym table ends up exactly as the table spells it: the substring rules leave every value alone |
| `SynonymTable.SynonymKeys` | mb2cs.py:95-113 | the synonym table has exactly the seventeen listed keys |
| `Rules.PatternRewrites` | mb2cs.py:116-127 | "Convention Promo" forces "Convention"; otherwise "Friday Night Magic" forces "FNM Promos"; otherwise "Wizards Play Network" forces "Miscellaneous Promos"; with none of the three, "Theros Beyond Death" and then "The Lord of the Rings" are replaced throughout; an edition with none of the five patterns is unchanged |
| `Rules.ConventionIsFinal` | mb2cs.py:116-127 | "Convention" contains none of the patterns tested after it |
| `Rules.FnmIsFinal` | mb2cs.py:118-127 | "FNM Promos" contains none of the patterns tested after it |
| `Rules.MiscellaneousIsFinal` | mb2cs.py:120-127 | "Miscellaneous Promos" contains none of the patterns tested after it |
| `Rules.LookupDue` | mb2cs.py:130 | the service is queried exactly when the number contains "-", the set code is "PLST", the edition is "The List" or the last character is one of a-f; the test crashes exactly when the first three fail and the number is empty |
| `Rules.SuffixSkipsExactly` | mb2cs.py:150-193 | `ResolveSuffix` skips a row exactly in the listed cases (unknown promo, UNF, FEM/HML/ALL/CHR, unlisted a-f, other non-numeric), crashes exactly on an empty number or set code, and logs the Unfinity entry exactly for UNF with an a-f suffix |
| `Rules.PromoSuffixStripped` | mb2cs.py:151-172 | a promo suffix p, s, ★ or F removes exactly that character and the set code's first character; p and s retag the edition, F forces "30th Anniversary", ★ keeps the edition |
| `Rules.NumericPromoNumber` | mb2cs.py:191-193 | a numeric number under a "P" set code becomes exactly `DigitsOnly` of itself (its ASCII digits, in order, so "1½" gives "1"), an all-digit number is kept, and the edition loses " Promos" |
| `Rules.FullArtZendikar` | mb2cs.py:173-176 | a BFZ number with an a-f suffix loses the suffix and the name gains " (Full Art)" |
| `Rules.ResalePromoStripped` | mb2cs.py:167-172 | an "A"-prefixed promo number without "-" or a known suffix loses the "A", and the set code its first character |
| `Rules.PlainNumberUntouched` | mb2cs.py:151-193 | a numeric number under a set code not starting with "P" passes the suffix stage unchanged |
| `Rules.BasicLandNumbered` | mb2cs.py:198-204 | a basic land outside the single-art sets gets one "0" below 100 (except UND and JMP), keeps its numeric value, and gets " (#n)" appended unless it is Plains 262 |
| `Rules.NonLandUntouched` | mb2cs.py:198-200 | other names, and lands of the single-art sets, pass the land stage unchanged |
| `Rules.BasicLandCrashes` | mb2cs.py:198-201 | `BasicLand` never skips, and crashes with a ValueError exactly on a basic land outside the single-art sets whose number `int()` rejects |
| `Rules.ReprintTagsName` | mb2cs.py:206-211 | `Reprint` appends " (#n)" to exactly the listed reprints; nothing else changes |
| `Rules.SplitNameTruncates` | mb2cs.py:218-219 | `SplitName`: for the listed sets the name has no "//" afterwards, and a split name becomes its stripped first part; edition, number and set code are unchanged |
| `Rules.SplitNameKeepsOthers` | mb2cs.py:214-219 | a name without "//", or any card of a set outside the list, passes the split-name rule unchanged |
| `Rules.Cosmetic` | mb2cs.py:220-224 | after the quote and blank steps the name has no double quote; edition, number and set code are unchanged |
| `Rules.CosmeticKeepsPlainNames` | mb2cs.py:221-224 | a name without quotes and blanks is unchanged |
| `Rules.CosmeticWidensBlanks` | mb2cs.py:223-224 | a quoteless name made of underscore-free pieces joined by five-underscore blanks comes out as the same pieces joined by eight-underscore blanks |
| `Rules.NameStage` | mb2cs.py:226-231 | the names.csv stage never changes the number or the set code |
| `Rules.RangeStageFacts` | mb2cs.py:233-238 | `RangeStage`: a set code without editions.csv entries passes unchanged; otherwise it crashes with a ValueError exactly when the scan does, and changes at most the edition |
| `Converter.LookupExactlyWhenDue` | mb2cs.py:129-131 | a row queries the service exactly when it reaches the lookup test and the test holds |
| `Converter.ReplyReplacesFromFirst` | mb2cs.py:135-142 | `ApplyLookup`: a non-empty reply sets edition and number from its first element, the name unless it contains "//", and cuts the set code to three characters exactly when the new number contains "-" |
| `Converter.EmptyReplyFallsThrough` | mb2cs.py:143-144 | an empty reply logs one lookup failure and the row ends exactly as an unlooked row would |
| `Converter.FinishFacts` | mb2cs.py:150-242 | the stages after the lookup keep the lookup flag; an emitted line carries a kept card and the row's count, language and foil flag; a drop or crash logs nothing; a skip logs one entry that is not a lookup failure |
| `Converter.NormalizeFinishes` | mb2cs.py:75-242 | `Normalize`: a row either crashes before logging anything, or ends as `FinishFacts` says after at most one lookup failure |
| `Converter.EmittedRowsAreKept` | mb2cs.py:240-242 | `Keep`: an emitted line has no "Token" in the name and no "Tokens" or "Unfinity Sticker Sheets" in the edition, and carries the row's quantity, full language name and foil flag |
| `Converter.DroppedRowsAreSilent` | mb2cs.py:240-241 | a filtered token row leaves at most a lookup failure in the log |
| `Converter.SkippedRowsAreLogged` | mb2cs.py:169-190 | a skipped row leaves exactly one skip entry, after at most one lookup failure |
| `Converter.NormalizeRow` | mb2cs.py:76-242 | the loop body, with its two inner scans, computes `Normalize` |
| `Converter.AdvanceKeepsPauses` | mb2cs.py:131-148 | one row keeps the pause count equal to lookups / 100 |
| `Converter.PausesPerHundredLookups` | mb2cs.py:145-148 | over any run, exactly lookups / 100 pauses are taken |
| `Converter.FoldIndependent` | mb2cs.py:75-242 | the run crashes exactly when some row crashes; without a crash the output is the header followed by each row's own line in order, the log is each row's own entries in order, and the lookup counter is the number of rows that queried the service |
| `Converter.RowsAreIndependent` | mb2cs.py:75-242 | the same for the normaliser's results: the run crashes exactly when some row's `Normalize` crashes; otherwise lines, log and counter are the rows' own, in order |
| `Converter.ProgramRunsDataRows` | mb2cs.py:55-76 | `Program`: a loader crash leaves only the header; otherwise the CSV header row is passed over, input row i is normalised as row number i, and the program crashes exactly when one of those rows does |
| `Converter.RenderIsOneLine` | mb2cs.py:242 | `Render`: a line starts with the quantity twice and ends with a line break, which is its only one when the fields hold none |
| `Converter.FoldStep` | mb2cs.py:75-76 | the run over one more row is that row's result applied to the run so far |
| `Converter.FoldAfterCrash` | mb2cs.py:75-89 | rows after a crash change nothing |
| `Converter.Tally` | mb2cs.py:131-148 | one row bumps the counter when it was looked up, takes a pause on each hundredth lookup, and appends its log entries and line |
| `Converter.ConvertRows` | mb2cs.py:70-242 | the main loop computes the fold of the rows' results: the header first, one pause per hundred lookups |
| `Converter.Convert` | mb2cs.py:55-75 | the whole program: both loaders, then the main loop over the rows after the CSV header; a loader crash leaves only the header |

## Left out

- Text.AsciiOnly: Unicode NFKD decomposition is not modelled. The model drops every non-ASCII character, where the source first decomposes it, so that "é" becomes "e" and is not dropped.
- Text.ParseInt: accepts only non-empty strings of ASCII digits. Python's `int()` also accepts surrounding whitespace, a sign, underscores between digits and non-ASCII decimal digits.
- Text.IsNumericChar: `isnumeric()` is the ASCII digits plus the Latin-1 numeric characters (superscripts one to three, the vulgar fractions). Other Unicode numerics are not modelled.
- Text.Lower: lowers ASCII letters only. For the basic-land test this is exact, because no non-ASCII character lowers to a letter of the six land names.
- Rules.Synonym: stated for any synonym table. `Converter.Program` and `Converter.Convert` pass `Rules.SetReplace`, the source's table, and `SynonymTable.SynonymIsFinal` is about that table.
- The HTTP request and the JSON decoding (mb2cs.py:132-133) are not modelled. The decoded reply is a parameter. A malformed reply or a missing key is not handled by the source and is not modelled.
- `time.sleep` and the progress prints (mb2cs.py:146-148, 244) are not modelled. Only the number of pauses is.
- File handling and CSV parsing (mb2cs.py:45-49, 56-58, 63-65, 70-72) are not modelled. Files are sequences of rows of column strings, and the output and the log are sequences.
- Output lines are `Render`ed without CSV escaping, as in the source.
- Command-line handling (mb2cs.py:39-43) is not modelled.
- The wording of the error-log messages is not modelled; each message is a structured entry. This includes the missing line ends after the Unfinity and alternate-art messages (mb2cs.py:179, 182).
- Unused columns (purchase price, rarity, condition and so on) are not modelled. The source reads column 12 into a variable it never uses.
