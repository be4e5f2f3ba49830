# csv_to_anki in Dafny

A model of the conversion core of `csv_to_anki.py`. The script turns CSV
files into one Anki deck. For each input file, in the order given, it does
three things:

- It picks a note template from the file's name, using `re.match` with the
  patterns `.*cloze.*csv`, `.*verb.*csv` and `.*csv`, tried in that order.
  The results are Cloze, the eight-field verb conjugation template, and
  "basic and reversed".
- If no pattern matches, it stops the whole run.
- Otherwise it adds one note for every CSV row whose field count is exactly
  the count the template expects: 8 for verb files, 2 for all others.

The model has four modules:

- `Regex`: the fragment of Python's `re.match` that these patterns use.
  A pattern is a chain of literal characters and `.*`. It is anchored at the
  start of the name only, and `.` does not match a newline. The matcher
  `ReMatch` is proved equivalent to declarative conditions on where the
  words occur in the name.
- `Classification`: the three patterns, the template choice `Classify`, and
  the field count of each template.
- `Rows`: the row-length gate `FilterRows`, with its subsequence, counting,
  idempotence and "longest well-shaped subsequence" properties.
- `Conversion`:
  - the functional definition of a run, `BuildDeck`, which either aborts at
    a file name or writes a deck of notes;
  - the lemmas about it;
  - the script's two loops as methods, `ClassifyFile`, `ReadNotes` and
    `Convert`, each proved to compute what the functional definition says.

Two behaviours of the script are worth stating outright:

- Every 8-field row of a verb file becomes a note, the first row included;
  no row is read as column labels (`Conversion.VerbFirstRowIsANote`,
  csv_to_anki.py:118).
- The deck and verb-model IDs are the fixed literals at csv_to_anki.py:55
  and csv_to_anki.py:93; they are outside the model.

The help text of `--input` (csv_to_anki.py:19-20) says a file whose name
contains "cloze" is treated as cloze cards. The cascade at
csv_to_anki.py:101 asks for more: "cloze" must be followed by "csv" before
the first newline. So "cloze.txt" stops the run and "csvcloze.txt" is a
basic file. `Classification.HelpSaysCloze` states the help text's reading,
and `Classification.ClozeWithoutCsv` and
`Classification.ClozeAfterCsvAgainstHelp` prove the two readings differ on
those names. The model follows the code.

File names are any strings. The model covers names that contain a newline:
`.*` cannot cross the newline, so only the part before the first newline is
searched. Names without a newline get plain substring statements
(`Classification.ClassifySingleLine`).

## Model

| member | source | states |
|---|---|---|
| Regex.MatchRunThen | csv_to_anki.py:108 | `re.match(".*y", s)` succeeds iff `y` occurs with no newline before it |
| Regex.MatchRunThenRunThen | csv_to_anki.py:101 | `re.match(".*x.*y", s)` succeeds iff `x` occurs before the first newline and `y` occurs after it, without overlap, also before the first newline |
| Regex.OccursThenOnLineImpliesOnLine | csv_to_anki.py:101-109 | when `x` holds no newline, a name where `x` then `y` occur before the first newline also has `y` before it; so every cloze or verb name also matches `.*csv` |
| Regex.SingleLine | csv_to_anki.py:101-109 | on a name without newlines, "occurs before the first newline" is the same as "occurs" |
| Regex.LiteralThen | csv_to_anki.py:101 | a literal part of a pattern matches exactly where its text occurs in the name |
| Regex.AnyRunThen | csv_to_anki.py:101 | `.*` followed by the rest of a pattern matches iff the rest matches after some run of characters with no newline |
| Classification.FieldCount | csv_to_anki.py:99-107 | a row needs 8 fields exactly for the verb template and 2 for every other template |
| Classification.PatternsMeaning | csv_to_anki.py:101-108 | each of the three patterns matches exactly when its words occur, in order, before the first newline of the name |
| Classification.ClassifyCloze | csv_to_anki.py:101-103 | a file is a cloze file iff "cloze" is followed by "csv" before the first newline |
| Classification.ClassifyVerb | csv_to_anki.py:104-107 | a file is a verb file iff it is not a cloze file and "verb" is followed by "csv" before the first newline |
| Classification.ClassifyBasic | csv_to_anki.py:108-109 | a file is a basic file iff neither earlier pattern applies and "csv" occurs before the first newline |
| Classification.ClassifyUnsupported | csv_to_anki.py:110-112 | a name is rejected iff "csv" does not occur before its first newline |
| Classification.ClassifySingleLine | csv_to_anki.py:101-112 | for a name without newlines, the four outcomes as plain substring conditions |
| Classification.ClozeBeforeVerb | csv_to_anki.py:101-107 | "verb_cloze.csv" matches the verb pattern and is still classified as cloze, because the cloze pattern comes first in the cascade |
| Classification.CsvInsideName | csv_to_anki.py:108-109 | "data.csvx" is a basic file: the pattern is not anchored at the end of the name |
| Classification.ClozeAfterCsv | csv_to_anki.py:101-109 | "csvcloze.txt" is a basic file: "cloze" counts only when "csv" follows it |
| Classification.ClozeWithoutCsv | csv_to_anki.py:19-20 | "cloze.txt" contains "cloze", so the help text would read it as cloze cards, yet the cascade at csv_to_anki.py:101-112 rejects it |
| Classification.ClozeAfterCsvAgainstHelp | csv_to_anki.py:19-20 | "csvcloze.txt" contains "cloze", so the help text would read it as cloze cards, yet the cascade classifies it as basic |
| Classification.NewlineHidesCsv | csv_to_anki.py:108-112 | "deck\n.csv" is rejected: the only "csv" comes after a newline |
| Rows.FilterRows | csv_to_anki.py:116-118 | the kept rows all have `n` fields, are no more numerous than the input, and form a subsequence of it |
| Rows.FilterRowsMembers | csv_to_anki.py:116-118 | a row is kept iff it is an input row with exactly `n` fields |
| Rows.FilterRowsCounts | csv_to_anki.py:116-118 | each row with `n` fields is kept as many times as it occurs; every other row is dropped |
| Rows.FilterRowsIsLongest | csv_to_anki.py:116-118 | the kept rows are the only subsequence of `n`-field rows that is as long as the kept rows |
| Rows.WellShapedSubsequenceBound | csv_to_anki.py:116-118 | no subsequence of `n`-field rows is longer than the kept rows |
| Rows.FilterRowsAppend | csv_to_anki.py:116-118 | filtering two batches one after the other equals filtering them together |
| Rows.FilterRowsKeepsWellShaped | csv_to_anki.py:116-118 | rows that all have `n` fields pass the gate unchanged |
| Rows.FilterRowsIdempotent | csv_to_anki.py:116-118 | filtering twice keeps the same rows as filtering once |
| Conversion.TagIndex | csv_to_anki.py:119-124 | the `k`-th note of a file holds the `k`-th kept row |
| Conversion.TagAppend | csv_to_anki.py:119-124 | tagging two batches of rows equals tagging each batch and concatenating |
| Conversion.FileNotesShape | csv_to_anki.py:116-124 | every note of a file carries the file's template, has that template's field count, and holds one of the file's rows |
| Conversion.FileNotesAppend | csv_to_anki.py:116-124 | the notes of two batches of rows are the notes of the first batch, then of the second |
| Conversion.FileNotesOfRow | csv_to_anki.py:118-124 | a single row gives one note when its length is right, and none otherwise |
| Conversion.FileNotesSnoc | csv_to_anki.py:116-124 | one more row adds one note at the end when its length is right, and nothing otherwise |
| Conversion.BuildDeckWellFormed | csv_to_anki.py:92-124 | a written deck has the requested name, and every note in it has its template's field count |
| Conversion.BuildDeckNoteOrigin | csv_to_anki.py:98-124 | every note comes from a row of some input file whose name selects that note's template |
| Conversion.BuildDeckAborts | csv_to_anki.py:98-112 | a run aborts iff some file name is unsupported, and it names the first such file |
| Conversion.BuildDeckNotes | csv_to_anki.py:98-124 | when every name is supported, the deck is the concatenation of each file's notes, in input order |
| Conversion.BuildDeckAppend | csv_to_anki.py:98-124 | running over two batches of files equals running over the first batch, then the second |
| Conversion.SingleFile | csv_to_anki.py:98-124 | one supported file yields exactly its own notes |
| Conversion.VerbFirstRowIsANote | csv_to_anki.py:104-124 | a verb file's first row with eight fields becomes the deck's first note; it is not taken as a header |
| Conversion.BuildDeckSnoc | csv_to_anki.py:98-124 | one more supported file appends exactly that file's notes |
| Conversion.AbortAt | csv_to_anki.py:110-112 | an unsupported file after supported ones aborts the run with that file's name, whatever follows it |
| Conversion.ClassifyFile | csv_to_anki.py:99-112 | the script's `fields`/`model` cascade gives the template `Classify` chooses and that template's field count; `fields` ends at 8 only for a verb file |
| Conversion.ReadNotes | csv_to_anki.py:116-124 | the row loop over one file adds exactly the file's notes, in row order |
| Conversion.Convert | csv_to_anki.py:92-130 | the script's file loop gives the same outcome as `BuildDeck`: the same abort, or the same deck |

## Left out

- Argument parsing (`csv_to_anki.py:11-34`): the file list and the deck
  name are parameters of `Conversion.Convert`.
- Reading the files (`get_csv`, `csv_to_anki.py:40-48`): the `;` delimiter
  and the `|` quote character belong to Python's `csv` module. Each input
  file is given as the rows that reader produced. Any exception while
  opening or reading a file (a missing file, a decode error, a `csv.Error`)
  ends the run with no package; this is not modelled.
- The genanki objects (`csv_to_anki.py:54-95`, `119-124`):
  - the model ID, CSS and HTML card templates of the verb model;
  - the deck ID;
  - the built-in cloze and basic models.

  A note is modelled as its template plus its field values.
- Writing the package `<deck name>.apkg` (`csv_to_anki.py:130`): file output.
  A run that completes is modelled as `Written` with the deck.
- Console output (`csv_to_anki.py:97`, `102`, `105`, `111`, `131`) and the
  exit status 1 on an unsupported name. The abort is modelled as
  `Aborted(name)`.
- Regular expressions beyond literal characters and `.*`: the script uses
  nothing else.
