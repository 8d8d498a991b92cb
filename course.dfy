/**
 * The course record shared by the scraper and the search backend, and its
 * text rendering: the string that is sent to the embedding service for every
 * course.
 */
module CourseRecord {

  import opened Wrappers
  import opened Text

  /** An IEEE-754 single-precision number, kept as its 32-bit pattern. */
  type Float32 = bv32

  /** A dense embedding vector. */
  type Embedding = seq<Float32>

  datatype Course = Course(
    departmentFull: string,
    departmentShort: string,
    code: string,
    title: string,
    professor: string,
    time: string,
    description: string,
    writ: bool,
    soph: bool,
    fys: bool,
    rpp: bool,
    embedding: Option<Embedding>)

  // The four attribute sentences, spelled as the record's renderer spells them
  // (typo included). Each is written as a concatenation of short literals so
  // that the verifier can see every character of it.
  const SentenceStart := "This course "
  const WritSentence := SentenceStart + "satsifies " + "the WRIT / " + "writing " + "requirement."
  const SophSentence := SentenceStart + "is a SOPH " + "/ sophomore" + " seminar."
  const FysSentence := SentenceStart + "is a FYS " + "/ first-year" + " seminar."
  const RppSentence := SentenceStart + "is under " + "the RPP / " + "Race Power " + "Privilege " + "category."

  const Newline := '\n'

  /** The six header lines, in order. */
  function HeaderLines(c: Course): (ls: seq<string>)
    ensures |ls| == 6
  {
    [ "Department: " + c.departmentFull + " - " + c.departmentShort,
      "Course code: " + c.code,
      "Title: " + c.title,
      "Professor: " + c.professor,
      "Time: " + c.time,
      "Description: " + c.description ]
  }

  function Sentence(flag: bool, s: string): seq<string>
  {
    if flag then [s] else []
  }

  /** One sentence per true flag, in the order writ, soph, fys, rpp. */
  function FlagLines(c: Course): seq<string>
  {
    Sentence(c.writ, WritSentence) + Sentence(c.soph, SophSentence)
      + Sentence(c.fys, FysSentence) + Sentence(c.rpp, RppSentence)
  }

  function FlagCount(c: Course): nat
  {
    (if c.writ then 1 else 0) + (if c.soph then 1 else 0)
      + (if c.fys then 1 else 0) + (if c.rpp then 1 else 0)
  }

  /** The lines of the rendering. */
  function DisplayLines(c: Course): seq<string>
  {
    HeaderLines(c) + FlagLines(c)
  }

  /** The rendered text: the display lines separated by newlines. */
  function Display(c: Course): string
  {
    Join(DisplayLines(c), Newline)
  }

  /** `Display::fmt`: the header built by one format string, then one `push_str` per true flag. */
  method Fmt(c: Course) returns (output: string)
    ensures output == Display(c)
  {
    var department := "Department: " + c.departmentFull + " - " + c.departmentShort;
    var courseCode := "Course code: " + c.code;
    var title := "Title: " + c.title;
    var professor := "Professor: " + c.professor;
    var time := "Time: " + c.time;
    var description := "Description: " + c.description;
    output := department + "\n" + courseCode + "\n" + title + "\n" + professor + "\n"
      + time + "\n" + description;
    JoinSix(department, courseCode, title, professor, time, description);
    ghost var lines := HeaderLines(c);
    PushStep(lines, c.writ, WritSentence, output);
    if c.writ {
      output := output + "\n" + WritSentence;
    }
    lines := lines + Sentence(c.writ, WritSentence);
    PushStep(lines, c.soph, SophSentence, output);
    if c.soph {
      output := output + "\n" + SophSentence;
    }
    lines := lines + Sentence(c.soph, SophSentence);
    PushStep(lines, c.fys, FysSentence, output);
    if c.fys {
      output := output + "\n" + FysSentence;
    }
    lines := lines + Sentence(c.fys, FysSentence);
    PushStep(lines, c.rpp, RppSentence, output);
    if c.rpp {
      output := output + "\n" + RppSentence;
    }
    lines := lines + Sentence(c.rpp, RppSentence);
    Regroup(HeaderLines(c), Sentence(c.writ, WritSentence), Sentence(c.soph, SophSentence),
      Sentence(c.fys, FysSentence), Sentence(c.rpp, RppSentence));
  }

  /** Concatenation regrouped: the header lines followed by the four flag groups. */
  lemma Regroup(h: seq<string>, a: seq<string>, b: seq<string>, c: seq<string>, d: seq<string>)
    ensures h + a + b + c + d == h + (a + b + c + d)
  {
  }

  /** One conditional `push_str`: the output stays the join of the lines so far. */
  lemma PushStep(lines: seq<string>, flag: bool, sentence: string, output: string)
    requires |lines| >= 1 && output == Join(lines, Newline)
    ensures |lines + Sentence(flag, sentence)| >= 1
    ensures (if flag then output + "\n" + sentence else output)
         == Join(lines + Sentence(flag, sentence), Newline)
  {
    if flag {
      JoinSnoc(lines, sentence, Newline);
      assert "\n" == [Newline];
    } else {
      assert lines + [] == lines;
    }
  }

  lemma JoinSix(a: string, b: string, c: string, d: string, e: string, f: string)
    ensures Join([a, b, c, d, e, f], Newline)
         == a + "\n" + b + "\n" + c + "\n" + d + "\n" + e + "\n" + f
  {
    assert "\n" == [Newline];
    JoinSnoc([a], b, Newline);
    assert [a] + [b] == [a, b];
    JoinSnoc([a, b], c, Newline);
    assert [a, b] + [c] == [a, b, c];
    JoinSnoc([a, b, c], d, Newline);
    assert [a, b, c] + [d] == [a, b, c, d];
    JoinSnoc([a, b, c, d], e, Newline);
    assert [a, b, c, d] + [e] == [a, b, c, d, e];
    JoinSnoc([a, b, c, d, e], f, Newline);
    assert [a, b, c, d, e] + [f] == [a, b, c, d, e, f];
  }

  /** No text field of the record holds a line break. */
  predicate SingleLineFields(c: Course)
  {
    && Newline !in c.departmentFull && Newline !in c.departmentShort && Newline !in c.code
    && Newline !in c.title && Newline !in c.professor && Newline !in c.time
    && Newline !in c.description
  }

  /** The rendering starts with the department line, then a line break. */
  lemma DisplayStartsWithDepartment(c: Course)
    ensures var d := "Department: " + c.departmentFull + " - " + c.departmentShort;
            |d| < |Display(c)| && Display(c)[..|d|] == d && Display(c)[|d|] == Newline
  {
    var ls := DisplayLines(c);
    assert ls == [ls[0]] + ls[1..];
    JoinCons(ls[0], ls[1..], Newline);
  }

  /** With all four flags false the rendering is exactly the six header lines. */
  lemma DisplayWithoutFlags(c: Course)
    requires !c.writ && !c.soph && !c.fys && !c.rpp
    ensures Display(c) ==
      ("Department: " + c.departmentFull + " - " + c.departmentShort) + "\n"
      + ("Course code: " + c.code) + "\n"
      + ("Title: " + c.title) + "\n"
      + ("Professor: " + c.professor) + "\n"
      + ("Time: " + c.time) + "\n"
      + ("Description: " + c.description)
  {
    var h := HeaderLines(c);
    assert DisplayLines(c) == h;
    JoinSix(h[0], h[1], h[2], h[3], h[4], h[5]);
  }

  /**
   * When no field holds a line break, the lines of the rendering are the six
   * header lines followed by the flag sentences.
   */
  lemma DisplayLinesRecovered(c: Course)
    requires SingleLineFields(c)
    ensures Split(Display(c), Newline) == HeaderLines(c) + FlagLines(c)
    ensures |Split(Display(c), Newline)| == 6 + FlagCount(c)
  {
    var ls := DisplayLines(c);
    SentencesAreSingleLines();
    forall k | 0 <= k < |ls| ensures Newline !in ls[k] {
      if k >= 6 {
        assert ls[k] in FlagLines(c);
      }
    }
    SplitJoin(ls, Newline);
  }

  lemma SentencesAreSingleLines()
    ensures Newline !in WritSentence && Newline !in SophSentence
    ensures Newline !in FysSentence && Newline !in RppSentence
  {
    NoNewlineIn(SentenceStart);
    NoNewlineIn("satsifies ");
    NoNewlineIn("the WRIT / ");
    NoNewlineIn("writing ");
    NoNewlineIn("requirement.");
    NoNewlineIn("is a SOPH ");
    NoNewlineIn("/ sophomore");
    NoNewlineIn(" seminar.");
    NoNewlineIn("is a FYS ");
    NoNewlineIn("/ first-year");
    NoNewlineIn("is under ");
    NoNewlineIn("the RPP / ");
    NoNewlineIn("Race Power ");
    NoNewlineIn("Privilege ");
    NoNewlineIn("category.");
  }

  /** A piece of a sentence holds no line break. */
  lemma NoNewlineIn(piece: string)
    requires forall k :: 0 <= k < |piece| ==> piece[k] != Newline
    ensures Newline !in piece
  {
  }

  lemma SentencesDistinct()
    ensures |{WritSentence, SophSentence, FysSentence, RppSentence}| == 4
  {
    assert SophSentence[17] == 'S' && FysSentence[17] == 'F';
    assert |WritSentence| == 53 && |SophSentence| == 42 && |FysSentence| == 42 && |RppSentence| == 61;
  }

  /** No header line is one of the flag sentences (their first two characters differ). */
  lemma HeaderIsNoSentence(c: Course, k: int)
    requires 0 <= k < 6
    ensures HeaderLines(c)[k] !in {WritSentence, SophSentence, FysSentence, RppSentence}
  {
    var h := HeaderLines(c)[k];
    assert WritSentence[0] == SophSentence[0] == FysSentence[0] == RppSentence[0] == 'T';
    assert WritSentence[1] == SophSentence[1] == FysSentence[1] == RppSentence[1] == 'h';
    if k == 0 { assert h[0] == 'D'; }
    else if k == 1 { assert h[0] == 'C'; }
    else if k == 2 { assert h[1] == 'i'; }
    else if k == 3 { assert h[0] == 'P'; }
    else if k == 4 { assert h[1] == 'i'; }
    else { assert h[0] == 'D'; }
  }

  /** With single-line fields, each flag's sentence is a line of the rendering exactly when the flag is set. */
  lemma FlagSentencePresentIffSet(c: Course)
    requires SingleLineFields(c)
    ensures WritSentence in Split(Display(c), Newline) <==> c.writ
    ensures SophSentence in Split(Display(c), Newline) <==> c.soph
    ensures FysSentence in Split(Display(c), Newline) <==> c.fys
    ensures RppSentence in Split(Display(c), Newline) <==> c.rpp
  {
    DisplayLinesRecovered(c);
    HeaderHoldsNoSentence(c);
    FlagLinesHoldSentences(c);
  }

  /** None of the flag sentences is a header line. */
  lemma HeaderHoldsNoSentence(c: Course)
    ensures WritSentence !in HeaderLines(c) && SophSentence !in HeaderLines(c)
    ensures FysSentence !in HeaderLines(c) && RppSentence !in HeaderLines(c)
  {
    forall k | 0 <= k < 6
      ensures HeaderLines(c)[k] !in {WritSentence, SophSentence, FysSentence, RppSentence}
    {
      HeaderIsNoSentence(c, k);
    }
  }

  /** A flag sentence is among the flag lines exactly when its flag is set. */
  lemma FlagLinesHoldSentences(c: Course)
    ensures WritSentence in FlagLines(c) <==> c.writ
    ensures SophSentence in FlagLines(c) <==> c.soph
    ensures FysSentence in FlagLines(c) <==> c.fys
    ensures RppSentence in FlagLines(c) <==> c.rpp
  {
    SentencesDistinct();
  }

  /** The embedding plays no part in the rendering. */
  lemma DisplayIgnoresEmbedding(c: Course, e: Option<Embedding>)
    ensures Display(c.(embedding := e)) == Display(c)
  {
  }
}
