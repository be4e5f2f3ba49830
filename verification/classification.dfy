/**
 Choosing a card template from an input file's name.

 The converter tries three `re.match` patterns in order, `.*cloze.*csv`,
 `.*verb.*csv` and `.*csv`; the first that matches picks the template, and a
 name that matches none is not supported and stops the whole run.
 */
module Classification {
  import opened Regex

  /** The three note types a file can produce. */
  datatype Template = Cloze | Verb | Basic

  datatype Option<T> = None | Some(value: T)

  // The patterns are spelled out constructor by constructor rather than as
  // `RunThen("cloze", RunThen("csv", Empty))`, so that the verifier can evaluate
  // them on concrete names without unfolding `Literal`; `PatternShapes` proves
  // the two spellings equal.

  /** `.*cloze.*csv` */
  const ClozePattern: Pattern :=
    AnyRun(Char('c', Char('l', Char('o', Char('z', Char('e',
      AnyRun(Char('c', Char('s', Char('v', Empty))))))))))

  /** `.*verb.*csv` */
  const VerbPattern: Pattern :=
    AnyRun(Char('v', Char('e', Char('r', Char('b',
      AnyRun(Char('c', Char('s', Char('v', Empty)))))))))

  /** `.*csv` */
  const CsvPattern: Pattern := AnyRun(Char('c', Char('s', Char('v', Empty))))

  /** The number of fields a row needs to become a note of template `t`. */
  function FieldCount(t: Template): (n: nat)
    ensures n == 8 <==> t == Verb
    ensures n == 2 <==> t != Verb
  {
    if t == Verb then 8 else 2
  }

  /** The template for a file name, or `None` when the format is not supported. */
  function Classify(name: string): Option<Template> {
    if ReMatch(ClozePattern, name) then Some(Cloze)
    else if ReMatch(VerbPattern, name) then Some(Verb)
    else if ReMatch(CsvPattern, name) then Some(Basic)
    else None
  }

  /** The three patterns are the `.*word` pieces their comments show. */
  lemma PatternShapes()
    ensures ClozePattern == RunThen("cloze", RunThen("csv", Empty))
    ensures VerbPattern == RunThen("verb", RunThen("csv", Empty))
    ensures CsvPattern == RunThen("csv", Empty)
  {
  }

  /** Each pattern in terms of where its words occur in the name. */
  lemma PatternsMeaning(name: string)
    ensures ReMatch(ClozePattern, name) <==> OccursThenOnLine(name, "cloze", "csv")
    ensures ReMatch(VerbPattern, name) <==> OccursThenOnLine(name, "verb", "csv")
    ensures ReMatch(CsvPattern, name) <==> OccursOnLine(name, "csv")
  {
    PatternShapes();
    MatchRunThenRunThen(name, "cloze", "csv");
    MatchRunThenRunThen(name, "verb", "csv");
    MatchRunThen(name, "csv");
  }

  /** A name is a cloze file iff "cloze" is followed, on its first line, by "csv". */
  lemma ClassifyCloze(name: string)
    ensures Classify(name) == Some(Cloze) <==> OccursThenOnLine(name, "cloze", "csv")
  {
    PatternsMeaning(name);
  }

  /** A name is a verb file iff it is not a cloze file and "verb" is followed by "csv". */
  lemma ClassifyVerb(name: string)
    ensures Classify(name) == Some(Verb)
        <==> !OccursThenOnLine(name, "cloze", "csv") && OccursThenOnLine(name, "verb", "csv")
  {
    PatternsMeaning(name);
  }

  /** A name is a basic file iff neither earlier pattern applies and "csv" occurs on its first line. */
  lemma ClassifyBasic(name: string)
    ensures Classify(name) == Some(Basic)
        <==> && !OccursThenOnLine(name, "cloze", "csv")
             && !OccursThenOnLine(name, "verb", "csv")
             && OccursOnLine(name, "csv")
  {
    PatternsMeaning(name);
  }

  /** A name is rejected iff "csv" does not occur before its first newline. */
  lemma ClassifyUnsupported(name: string)
    ensures Classify(name) == None <==> !OccursOnLine(name, "csv")
  {
    ClassifyCloze(name);
    ClassifyVerb(name);
    ClassifyBasic(name);
    if OccursThenOnLine(name, "cloze", "csv") {
      OccursThenOnLineImpliesOnLine(name, "cloze", "csv");
    }
    if OccursThenOnLine(name, "verb", "csv") {
      OccursThenOnLineImpliesOnLine(name, "verb", "csv");
    }
  }

  /**
   The same four outcomes for a name without newlines, stated as plain
   substring conditions.
   */
  lemma ClassifySingleLine(name: string)
    requires NoNewline(name)
    ensures Classify(name) == Some(Cloze) <==> ContainsThen(name, "cloze", "csv")
    ensures Classify(name) == Some(Verb)
        <==> !ContainsThen(name, "cloze", "csv") && ContainsThen(name, "verb", "csv")
    ensures Classify(name) == Some(Basic)
        <==> && !ContainsThen(name, "cloze", "csv")
             && !ContainsThen(name, "verb", "csv")
             && Contains(name, "csv")
    ensures Classify(name) == None <==> !Contains(name, "csv")
  {
    SingleLine(name, "cloze", "csv");
    SingleLine(name, "verb", "csv");
    ClassifyCloze(name);
    ClassifyVerb(name);
    ClassifyBasic(name);
    ClassifyUnsupported(name);
  }

  /** A name that matches both the cloze and the verb pattern is a cloze file. */
  lemma ClozeBeforeVerb()
    ensures ReMatch(VerbPattern, "verb_cloze.csv")
    ensures Classify("verb_cloze.csv") == Some(Cloze)
  {
    assert ReMatch(ClozePattern, "verb_cloze.csv");
  }

  /** "csv" anywhere on the first line is enough, even when it is not the suffix. */
  lemma CsvInsideName()
    ensures Classify("data.csvx") == Some(Basic)
  {
  }

  /** A "cloze" that comes after the only "csv" does not make a cloze file. */
  lemma ClozeAfterCsv()
    ensures Classify("csvcloze.txt") == Some(Basic)
  {
    var name := "csvcloze.txt";
    forall j | OccursAt(name, "csv", j)
      ensures j == 0
    {
      assert name[j + 0] == 'c' && name[j + 1] == 's';
    }
    ClassifyCloze(name);
    ClassifyVerb(name);
    assert ReMatch(CsvPattern, name);
  }

  /** A newline before the only "csv" makes the name unsupported. */
  lemma NewlineHidesCsv()
    ensures Classify("deck\n.csv") == None
  {
  }

  /**
   The `--input` help text says a file name that contains "cloze" is read as
   cloze cards. The cascade asks for more: "cloze" must be followed by "csv"
   on the first line. "cloze.txt" contains "cloze" and is not supported at all.
   */
  ghost predicate HelpSaysCloze(name: string) {
    Contains(name, "cloze")
  }

  /** "cloze.txt" is a cloze file by the help text and an unsupported name by the cascade. */
  lemma ClozeWithoutCsv()
    ensures HelpSaysCloze("cloze.txt")
    ensures Classify("cloze.txt") == None
  {
    assert OccursAt("cloze.txt", "cloze", 0);
  }

  /** "csvcloze.txt" is a cloze file by the help text and a basic file by the cascade. */
  lemma ClozeAfterCsvAgainstHelp()
    ensures HelpSaysCloze("csvcloze.txt")
    ensures Classify("csvcloze.txt") == Some(Basic)
  {
    assert OccursAt("csvcloze.txt", "cloze", 3);
    ClozeAfterCsv();
  }
}
