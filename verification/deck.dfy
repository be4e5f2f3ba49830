/**
 Building the deck: every input file is classified, its well-shaped rows
 become notes of the file's template, and the notes of all files go into
 one deck in input order. One unsupported file name stops the run before
 any package is written.
 */
module Conversion {
  import opened Regex
  import opened Classification
  import opened Rows

  /** A note: the template it uses and the fields filled in from one CSV row. */
  datatype Note = Note(template: Template, fields: Row)

  /** An input file: its name and the rows the CSV reader produced from it. */
  datatype InputFile = InputFile(name: string, rows: seq<Row>)

  datatype Deck = Deck(name: string, notes: seq<Note>)

  /** The outcome of a run: stopped at an unsupported file, or a deck to package. */
  datatype Run = Aborted(file: string) | Written(deck: Deck)

  /** A note has the field count of its template. */
  predicate WellFormed(note: Note) {
    |note.fields| == FieldCount(note.template)
  }

  /** The notes one file of template `t` contributes: its well-shaped rows, tagged. */
  function FileNotes(t: Template, rows: seq<Row>): seq<Note> {
    Tag(t, FilterRows(rows, FieldCount(t)))
  }

  /** Each row as a note of template `t`. */
  function Tag(t: Template, rows: seq<Row>): seq<Note> {
    if |rows| == 0 then [] else [Note(t, rows[0])] + Tag(t, rows[1..])
  }

  /** The `k`-th tagged note holds the `k`-th row. */
  lemma {:induction false} TagIndex(t: Template, rows: seq<Row>)
    ensures |Tag(t, rows)| == |rows|
    ensures forall k :: 0 <= k < |rows| ==> Tag(t, rows)[k] == Note(t, rows[k])
    decreases |rows|
  {
    if |rows| > 0 {
      TagIndex(t, rows[1..]);
    }
  }

  /** Tagging two batches of rows is tagging each of them. */
  lemma {:induction false} TagAppend(t: Template, a: seq<Row>, b: seq<Row>)
    ensures Tag(t, a + b) == Tag(t, a) + Tag(t, b)
    decreases |a|
  {
    if |a| == 0 {
      assert a + b == b;
    } else {
      assert (a + b)[1..] == a[1..] + b;
      TagAppend(t, a[1..], b);
    }
  }

  /** A file's notes all carry its template, are well formed, and come from its rows. */
  lemma FileNotesShape(t: Template, rows: seq<Row>)
    ensures |FileNotes(t, rows)| <= |rows|
    ensures forall note :: note in FileNotes(t, rows) ==>
      note.template == t && WellFormed(note) && note.fields in rows
  {
    var kept := FilterRows(rows, FieldCount(t));
    TagIndex(t, kept);
    forall note | note in FileNotes(t, rows)
      ensures note.template == t && WellFormed(note) && note.fields in rows
    {
      var k :| 0 <= k < |kept| && FileNotes(t, rows)[k] == note;
      assert note.fields == kept[k] && kept[k] in kept;
      FilterRowsMembers(rows, FieldCount(t), note.fields);
    }
  }

  /** The notes of one file on its own, none when its name is not supported. */
  function NotesOf(file: InputFile): seq<Note> {
    match Classify(file.name)
    case None => []
    case Some(t) => FileNotes(t, file.rows)
  }

  /** True iff every file name is supported. */
  predicate AllSupported(files: seq<InputFile>) {
    forall k :: 0 <= k < |files| ==> Classify(files[k].name).Some?
  }

  /** The concatenation of a sequence of note sequences, in order. */
  function Concat(parts: seq<seq<Note>>): seq<Note> {
    if |parts| == 0 then [] else parts[0] + Concat(parts[1..])
  }

  /** The whole conversion: files in input order, stopping at the first unsupported name. */
  function BuildDeck(deckName: string, files: seq<InputFile>): Run
    decreases |files|
  {
    if |files| == 0 then Written(Deck(deckName, []))
    else match Classify(files[0].name)
      case None => Aborted(files[0].name)
      case Some(t) =>
        match BuildDeck(deckName, files[1..])
        case Aborted(f) => Aborted(f)
        case Written(d) => Written(Deck(deckName, FileNotes(t, files[0].rows) + d.notes))
  }

  /** A written deck carries the given name and only well-formed notes. */
  lemma {:induction false} BuildDeckWellFormed(deckName: string, files: seq<InputFile>)
    requires BuildDeck(deckName, files).Written?
    ensures BuildDeck(deckName, files).deck.name == deckName
    ensures forall note :: note in BuildDeck(deckName, files).deck.notes ==> WellFormed(note)
    decreases |files|
  {
    if |files| > 0 {
      var t := Classify(files[0].name).value;
      FileNotesShape(t, files[0].rows);
      BuildDeckWellFormed(deckName, files[1..]);
    }
  }

  /** Every note comes from a row of an input file whose template it carries. */
  lemma {:induction false} BuildDeckNoteOrigin(deckName: string, files: seq<InputFile>, note: Note)
    requires BuildDeck(deckName, files).Written?
    requires note in BuildDeck(deckName, files).deck.notes
    ensures exists m :: && 0 <= m < |files|
                        && Classify(files[m].name) == Some(note.template)
                        && note.fields in files[m].rows
    decreases |files|
  {
    var t := Classify(files[0].name).value;
    var rest := BuildDeck(deckName, files[1..]).deck.notes;
    if note in FileNotes(t, files[0].rows) {
      FileNotesShape(t, files[0].rows);
    } else {
      assert note in rest;
      BuildDeckNoteOrigin(deckName, files[1..], note);
      var m :| && 0 <= m < |files| - 1
               && Classify(files[1..][m].name) == Some(note.template)
               && note.fields in files[1..][m].rows;
      assert files[1..][m] == files[m + 1];
    }
  }

  /** A run stops exactly when some file name is unsupported, and names the first one. */
  lemma {:induction false} BuildDeckAborts(deckName: string, files: seq<InputFile>)
    ensures BuildDeck(deckName, files).Aborted? <==> !AllSupported(files)
    ensures BuildDeck(deckName, files).Aborted? ==>
      exists k :: && 0 <= k < |files|
                  && files[k].name == BuildDeck(deckName, files).file
                  && Classify(files[k].name) == None
                  && AllSupported(files[..k])
    decreases |files|
  {
    if |files| > 0 {
      BuildDeckAborts(deckName, files[1..]);
      assert forall m :: 0 <= m < |files| - 1 ==> files[1..][m] == files[m + 1];
      if Classify(files[0].name).None? {
        assert files[..0] == [];
      } else if BuildDeck(deckName, files[1..]).Aborted? {
        var k :| && 0 <= k < |files| - 1
                 && files[1..][k].name == BuildDeck(deckName, files[1..]).file
                 && Classify(files[1..][k].name) == None
                 && AllSupported(files[1..][..k]);
        assert files[..k + 1] == [files[0]] + files[1..][..k];
        assert files[k + 1] == files[1..][k];
      }
    }
  }

  /** With every name supported, the deck holds each file's notes, file after file. */
  lemma {:induction false} BuildDeckNotes(deckName: string, files: seq<InputFile>)
    requires AllSupported(files)
    ensures BuildDeck(deckName, files)
         == Written(Deck(deckName, Concat(seq(|files|, k requires 0 <= k < |files| => NotesOf(files[k])))))
    decreases |files|
  {
    var parts := seq(|files|, k requires 0 <= k < |files| => NotesOf(files[k]));
    if |files| > 0 {
      var rest := files[1..];
      assert AllSupported(rest) by {
        assert forall m :: 0 <= m < |rest| ==> rest[m] == files[m + 1];
      }
      BuildDeckNotes(deckName, rest);
      assert parts[1..] == seq(|rest|, k requires 0 <= k < |rest| => NotesOf(rest[k]));
      assert Classify(files[0].name).Some?;
    }
  }

  /** Running over two batches of files is running over the first, then the second. */
  lemma {:induction false} BuildDeckAppend(deckName: string, a: seq<InputFile>, b: seq<InputFile>)
    ensures BuildDeck(deckName, a + b)
         == match BuildDeck(deckName, a)
            case Aborted(f) => Aborted(f)
            case Written(d) =>
              match BuildDeck(deckName, b)
              case Aborted(g) => Aborted(g)
              case Written(e) => Written(Deck(deckName, d.notes + e.notes))
    decreases |a|
  {
    if |a| == 0 {
      assert a + b == b;
      if BuildDeck(deckName, b).Written? {
        assert [] + BuildDeck(deckName, b).deck.notes == BuildDeck(deckName, b).deck.notes;
      }
    } else {
      assert (a + b)[0] == a[0];
      assert (a + b)[1..] == a[1..] + b;
      BuildDeckAppend(deckName, a[1..], b);
      if Classify(a[0].name).Some? && BuildDeck(deckName, a[1..]).Written?
         && BuildDeck(deckName, b).Written? {
        var mine := FileNotes(Classify(a[0].name).value, a[0].rows);
        var d := BuildDeck(deckName, a[1..]).deck.notes;
        var e := BuildDeck(deckName, b).deck.notes;
        assert mine + (d + e) == (mine + d) + e;
      }
    }
  }

  /** A single supported file yields exactly its own notes. */
  lemma SingleFile(deckName: string, file: InputFile, t: Template)
    requires Classify(file.name) == Some(t)
    ensures BuildDeck(deckName, [file]) == Written(Deck(deckName, FileNotes(t, file.rows)))
  {
    assert [file][1..] == [];
    assert FileNotes(t, file.rows) + [] == FileNotes(t, file.rows);
  }

  /**
   A verb file's first row is not treated as a header: when it has eight
   fields it becomes the file's first note like any other row.
   */
  lemma VerbFirstRowIsANote(deckName: string, file: InputFile)
    requires Classify(file.name) == Some(Verb)
    requires |file.rows| > 0 && |file.rows[0]| == 8
    ensures BuildDeck(deckName, [file]).Written?
    ensures |BuildDeck(deckName, [file]).deck.notes| > 0
    ensures BuildDeck(deckName, [file]).deck.notes[0] == Note(Verb, file.rows[0])
  {
    SingleFile(deckName, file, Verb);
    assert FilterRows(file.rows, 8) == [file.rows[0]] + FilterRows(file.rows[1..], 8);
  }

  /** Before a file is read its name is classified; the `fields`/`model` cascade of the script. */
  method ClassifyFile(name: string) returns (t: Option<Template>, fields: nat)
    ensures t == Classify(name)
    ensures t.Some? ==> fields == FieldCount(t.value)
    ensures fields == 8 <==> t == Some(Verb)
  {
    fields := 2;
    if ReMatch(ClozePattern, name) {
      t := Some(Cloze);
    } else if ReMatch(VerbPattern, name) {
      fields := 8;
      t := Some(Verb);
    } else if ReMatch(CsvPattern, name) {
      t := Some(Basic);
    } else {
      t := None;
    }
  }

  /** The notes of two batches of rows are the notes of the first, then of the second. */
  lemma FileNotesAppend(t: Template, a: seq<Row>, b: seq<Row>)
    ensures FileNotes(t, a + b) == FileNotes(t, a) + FileNotes(t, b)
  {
    FilterRowsAppend(a, b, FieldCount(t));
    TagAppend(t, FilterRows(a, FieldCount(t)), FilterRows(b, FieldCount(t)));
  }

  /** A single row gives one note when it has the template's field count, none otherwise. */
  lemma FileNotesOfRow(t: Template, row: Row)
    ensures FileNotes(t, [row]) == if |row| == FieldCount(t) then [Note(t, row)] else []
  {
    assert [row][1..] == [];
    if |row| == FieldCount(t) {
      assert FilterRows([row], FieldCount(t)) == [row];
      assert Tag(t, [row]) == [Note(t, row)] + Tag(t, []);
    }
  }

  /** One more row adds one note when it has the template's field count, none otherwise. */
  lemma FileNotesSnoc(t: Template, rows: seq<Row>, row: Row)
    ensures FileNotes(t, rows + [row])
         == FileNotes(t, rows) + if |row| == FieldCount(t) then [Note(t, row)] else []
  {
    FileNotesAppend(t, rows, [row]);
    FileNotesOfRow(t, row);
  }

  /** Processing one more supported file appends that file's notes. */
  lemma {:induction false} BuildDeckSnoc(deckName: string, files: seq<InputFile>, file: InputFile, t: Template)
    requires BuildDeck(deckName, files).Written?
    requires Classify(file.name) == Some(t)
    ensures BuildDeck(deckName, files + [file])
         == Written(Deck(deckName, BuildDeck(deckName, files).deck.notes + FileNotes(t, file.rows)))
    decreases |files|
  {
    if |files| == 0 {
      assert files + [file] == [file];
      SingleFile(deckName, file, t);
    } else {
      assert (files + [file])[0] == files[0];
      assert (files + [file])[1..] == files[1..] + [file];
      BuildDeckSnoc(deckName, files[1..], file, t);
      var mine := FileNotes(Classify(files[0].name).value, files[0].rows);
      var d := BuildDeck(deckName, files[1..]).deck.notes;
      assert mine + (d + FileNotes(t, file.rows)) == (mine + d) + FileNotes(t, file.rows);
    }
  }

  /** An unsupported file after supported ones ends the run, naming that file. */
  lemma {:induction false} AbortAt(deckName: string, before: seq<InputFile>, file: InputFile, after: seq<InputFile>)
    requires BuildDeck(deckName, before).Written?
    requires Classify(file.name) == None
    ensures BuildDeck(deckName, before + [file] + after) == Aborted(file.name)
    decreases |before|
  {
    if |before| == 0 {
      assert before + [file] + after == [file] + after;
    } else {
      assert (before + [file] + after)[0] == before[0];
      assert (before + [file] + after)[1..] == before[1..] + [file] + after;
      AbortAt(deckName, before[1..], file, after);
    }
  }

  /** The script's inner loop over one file: a note for each row that has `fields` fields. */
  method ReadNotes(template: Template, fields: nat, rows: seq<Row>) returns (added: seq<Note>)
    requires fields == FieldCount(template)
    ensures added == FileNotes(template, rows)
  {
    added := [];
    var i := 0;
    while i < |rows|
      invariant 0 <= i <= |rows|
      invariant added == FileNotes(template, rows[..i])
    {
      var row := rows[i];
      assert rows[..i + 1] == rows[..i] + [row];
      FileNotesSnoc(template, rows[..i], row);
      if |row| == fields {
        added := added + [Note(template, row)];
      }
      i := i + 1;
    }
    assert rows[..i] == rows;
  }

  /**
   The script's main loop: files in order, each classified before it is
   read, the run stopping at the first unsupported name.
   */
  method Convert(deckName: string, files: seq<InputFile>) returns (r: Run)
    ensures r == BuildDeck(deckName, files)
  {
    var notes: seq<Note> := [];
    var k := 0;
    while k < |files|
      invariant 0 <= k <= |files|
      invariant BuildDeck(deckName, files[..k]) == Written(Deck(deckName, notes))
    {
      var file := files[k];
      var t, fields := ClassifyFile(file.name);
      assert files[..k + 1] == files[..k] + [file];
      if t.None? {
        AbortAt(deckName, files[..k], file, files[k + 1..]);
        assert files[..k] + [file] + files[k + 1..] == files;
        return Aborted(file.name);
      }
      BuildDeckSnoc(deckName, files[..k], file, t.value);
      var added := ReadNotes(t.value, fields, file.rows);
      notes := notes + added;
      k := k + 1;
    }
    assert files[..k] == files;
    r := Written(Deck(deckName, notes));
  }
}
