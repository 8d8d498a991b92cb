/**
 * `structure_course_metadata`: the scraper's pass that turns catalogue rows
 * and their details into course records. Rows taught online, by a team or
 * cross-listed are skipped; the remaining rows are de-duplicated on their
 * (department, number) pair, first occurrence winning; each kept row becomes
 * a record whose four flags come from substring tests on the attribute HTML.
 */
module Scraper {

  import opened Wrappers
  import opened Text
  import opened CourseRecord
  import opened ScrapeCourses

  /** The two ways the pass raises: a row without a details entry (`KeyError`), a code that is not two words (`ValueError`). */
  datatype ScrapeError = MissingDetails(code: string) | MalformedCode(code: string)

  const OnlineMeeting := "Course offered online"
  const TeamInstructor := "Team"
  const CrossListed := "X"

  /** The departments whose courses all count as writing courses. */
  const WritDepartments: seq<string> := ["ENGL", "COLT", "LITA", "LITR"]

  /** Online, team-taught and cross-listed rows are left out of the output. */
  predicate Skipped(r: CourseRow)
  {
    r.meets == OnlineMeeting || r.instr == TeamInstructor || r.stat == CrossListed
  }

  /** `code.split(" ")` unpacked into exactly two names: "CSCI 0320" becomes ("CSCI", "0320"). */
  function SplitCode(code: string): (r: Result<(string, string), ScrapeError>)
    ensures r.Ok? <==> CountChar(code, ' ') == 1
    ensures r.Ok? ==> code == r.value.0 + " " + r.value.1 && ' ' !in r.value.0 && ' ' !in r.value.1
    ensures r.Err? ==> r.error == MalformedCode(code)
  {
    var parts := Split(code, ' ');
    if |parts| == 2 then
      JoinSplit(code, ' ');
      assert Join(parts, ' ') == Join(parts[..1], ' ') + " " + parts[1];
      Ok((parts[0], parts[1]))
    else Err(MalformedCode(code))
  }

  /** Splitting loses nothing: two codes that split have the same halves exactly when they are the same code. */
  lemma SplitCodeInjective(a: string, b: string)
    requires SplitCode(a).Ok? && SplitCode(b).Ok?
    ensures SplitCode(a).value == SplitCode(b).value <==> a == b
  {
  }

  /** The (department, number) pair of a row whose code splits. */
  function Key(r: CourseRow): (string, string)
    requires SplitCode(r.code).Ok?
  {
    SplitCode(r.code).value
  }

  /** The record built for a kept row, its code split into `short` and `number`. */
  function CourseDatum(r: CourseRow, d: CourseDetail, short: string, number: string,
                       subjects: map<string, string>, clean: string -> string): (c: Course)
    ensures c.departmentShort == short && c.code == number
    ensures short in subjects ==> c.departmentFull == subjects[short]
    ensures short !in subjects ==> c.departmentFull == short
    ensures c.title == r.title && c.professor == r.instr && c.time == r.meets
    ensures c.description == clean(d.description)
    ensures c.writ <==> (exists i: nat :: OccursAt(d.attrHtml, "WRIT", i)) || short in WritDepartments
    ensures c.soph <==> exists i: nat :: OccursAt(d.attrHtml, "SOPH", i)
    ensures c.fys <==> exists i: nat :: OccursAt(d.attrHtml, "FYS", i)
    ensures c.rpp <==> exists i: nat :: OccursAt(d.attrHtml, "RPP", i)
    ensures c.embedding == None
  {
    Course(
      departmentFull := if short in subjects then subjects[short] else short,
      departmentShort := short,
      code := number,
      title := r.title,
      professor := r.instr,
      time := r.meets,
      description := clean(d.description),
      writ := Contains(d.attrHtml, "WRIT") || short in WritDepartments,
      soph := Contains(d.attrHtml, "SOPH"),
      fys := Contains(d.attrHtml, "FYS"),
      rpp := Contains(d.attrHtml, "RPP"),
      embedding := None)
  }

  /** The record of a row whose details exist and whose code splits. */
  function RowRecord(r: CourseRow, details: map<string, CourseDetail>,
                     subjects: map<string, string>, clean: string -> string): Course
    requires r.code in details && SplitCode(r.code).Ok?
  {
    CourseDatum(r, details[r.code], Key(r).0, Key(r).1, subjects, clean)
  }

  // ---------------------------------------------------------------------------
  // When the pass raises
  // ---------------------------------------------------------------------------

  /**
   * The loop gets past row `r`: its details entry exists (looked up before the
   * filter, so even for a skipped row) and, unless it is skipped, its code splits.
   */
  predicate RowOk(r: CourseRow, details: map<string, CourseDetail>)
  {
    r.code in details && (Skipped(r) || SplitCode(r.code).Ok?)
  }

  predicate AllRowsOk(rows: seq<CourseRow>, details: map<string, CourseDetail>)
  {
    forall i :: 0 <= i < |rows| ==> RowOk(rows[i], details)
  }

  /** The error a row that fails `RowOk` raises: the missing lookup comes first. */
  function RowError(r: CourseRow, details: map<string, CourseDetail>): (e: ScrapeError)
    requires !RowOk(r, details)
    ensures e.MissingDetails? <==> r.code !in details
    ensures e.MalformedCode? <==> r.code in details && !Skipped(r) && CountChar(r.code, ' ') != 1
    ensures e.code == r.code
  {
    if r.code !in details then MissingDetails(r.code) else SplitCode(r.code).error
  }

  /** Row `i` is the first row that makes the pass raise. */
  predicate FirstBadRow(rows: seq<CourseRow>, details: map<string, CourseDetail>, i: int)
  {
    0 <= i < |rows| && !RowOk(rows[i], details) && AllRowsOk(rows[..i], details)
  }

  /** At most one row is the first to make the pass raise. */
  lemma FirstBadRowUnique(rows: seq<CourseRow>, details: map<string, CourseDetail>, i: int)
    requires FirstBadRow(rows, details, i)
    ensures forall j :: FirstBadRow(rows, details, j) ==> j == i
  {
  }

  // ---------------------------------------------------------------------------
  // Which rows are kept
  // ---------------------------------------------------------------------------

  /** No row before `i` that survives the filter has row `i`'s (department, number) pair. */
  predicate FirstOfKey(rows: seq<CourseRow>, i: int)
    requires 0 <= i < |rows| && SplitCode(rows[i].code).Ok?
  {
    forall j :: 0 <= j < i && !Skipped(rows[j]) && SplitCode(rows[j].code).Ok? ==>
      Key(rows[j]) != Key(rows[i])
  }

  /** Row `i` reaches the output: it survives the filter and is the first with its pair. */
  predicate Kept(rows: seq<CourseRow>, i: int)
    requires 0 <= i < |rows|
  {
    !Skipped(rows[i]) && SplitCode(rows[i].code).Ok? && FirstOfKey(rows, i)
  }

  /** The pairs of the rows that survive the filter: the set the loop has seen after these rows. */
  function SeenKeys(rows: seq<CourseRow>): set<(string, string)>
  {
    set j | 0 <= j < |rows| && !Skipped(rows[j]) && SplitCode(rows[j].code).Ok? :: Key(rows[j])
  }

  /** The indices of the kept rows, in input order. */
  function KeptIndices(rows: seq<CourseRow>): seq<nat>
  {
    if |rows| == 0 then []
    else
      var n := |rows| - 1;
      KeptIndices(rows[..n]) + (if Kept(rows, n) then [n] else [])
  }

  /** The output of the pass on rows that do not make it raise: one record per kept row, in input order. */
  function Structured(rows: seq<CourseRow>, details: map<string, CourseDetail>,
                      subjects: map<string, string>, clean: string -> string): seq<Course>
    requires AllRowsOk(rows, details)
  {
    if |rows| == 0 then []
    else
      var n := |rows| - 1;
      var r := rows[n];
      Structured(rows[..n], details, subjects, clean)
        + (if Kept(rows, n) then [RowRecord(r, details, subjects, clean)] else [])
  }

  // ---------------------------------------------------------------------------
  // The loop
  // ---------------------------------------------------------------------------

  /**
   * The loop of `structure_course_metadata`, with the `classes` list and the
   * `seen_courses` set; an exception it would raise is returned as `Err`.
   */
  method StructureCourseMetadata(courses: seq<CourseRow>, details: map<string, CourseDetail>,
                                 subjects: map<string, string>, clean: string -> string)
    returns (r: Result<seq<Course>, ScrapeError>)
    ensures r.Ok? <==> AllRowsOk(courses, details)
    ensures forall i :: FirstBadRow(courses, details, i) ==> r == Err(RowError(courses[i], details))
    ensures r.Ok? ==> r.value == Structured(courses, details, subjects, clean)
  {
    var classes: seq<Course> := [];
    var seen: set<(string, string)> := {};
    for i := 0 to |courses|
      invariant AllRowsOk(courses[..i], details)
      invariant classes == Structured(courses[..i], details, subjects, clean)
      invariant seen == SeenKeys(courses[..i])
    {
      PrefixStep(courses, i);
      var course := courses[i];
      if course.code !in details {
        FirstBadRowUnique(courses, details, i);
        return Err(MissingDetails(course.code));
      }
      var courseDetail := details[course.code];
      if Skipped(course) {
        continue;
      }
      var split := SplitCode(course.code);
      if split.Err? {
        FirstBadRowUnique(courses, details, i);
        return Err(split.error);
      }
      var (short, number) := split.value;
      SeenIffNotFirst(courses[..i + 1], i);
      if (short, number) in seen {
        continue;
      }
      seen := seen + {(short, number)};
      classes := classes + [CourseDatum(course, courseDetail, short, number, subjects, clean)];
    }
    assert courses[..|courses|] == courses;
    return Ok(classes);
  }

  /** Extending a prefix by one row changes the seen set only by that row's pair. */
  lemma PrefixStep(rows: seq<CourseRow>, i: int)
    requires 0 <= i < |rows|
    ensures rows[..i + 1][..i] == rows[..i]
    ensures SeenKeys(rows[..i + 1])
         == SeenKeys(rows[..i]) + (if !Skipped(rows[i]) && SplitCode(rows[i].code).Ok? then {Key(rows[i])} else {})
  {
    var p := rows[..i + 1];
    assert p[..i] == rows[..i];
    forall k | k in SeenKeys(p)
      ensures k in SeenKeys(rows[..i]) + (if !Skipped(rows[i]) && SplitCode(rows[i].code).Ok? then {Key(rows[i])} else {})
    {
      var j :| 0 <= j < |p| && !Skipped(p[j]) && SplitCode(p[j].code).Ok? && Key(p[j]) == k;
      if j < i {
        assert rows[..i][j] == p[j];
      }
    }
    forall k | k in SeenKeys(rows[..i])
      ensures k in SeenKeys(p)
    {
      var j :| 0 <= j < i && !Skipped(rows[..i][j]) && SplitCode(rows[..i][j].code).Ok? && Key(rows[..i][j]) == k;
      assert p[j] == rows[..i][j];
    }
    if !Skipped(rows[i]) && SplitCode(rows[i].code).Ok? {
      assert p[i] == rows[i];
      assert Key(p[i]) in SeenKeys(p);
    }
  }

  /** The last row's pair has been seen exactly when the row is not the first with its pair. */
  lemma SeenIffNotFirst(rows: seq<CourseRow>, n: int)
    requires n == |rows| - 1 >= 0 && SplitCode(rows[n].code).Ok?
    ensures Key(rows[n]) in SeenKeys(rows[..n]) <==> !FirstOfKey(rows, n)
  {
    if Key(rows[n]) in SeenKeys(rows[..n]) {
      var j :| 0 <= j < n && !Skipped(rows[..n][j]) && SplitCode(rows[..n][j].code).Ok? && Key(rows[..n][j]) == Key(rows[n]);
      assert rows[..n][j] == rows[j];
    }
    if !FirstOfKey(rows, n) {
      var j :| 0 <= j < n && !Skipped(rows[j]) && SplitCode(rows[j].code).Ok? && Key(rows[j]) == Key(rows[n]);
      assert rows[..n][j] == rows[j];
      assert Key(rows[..n][j]) in SeenKeys(rows[..n]);
    }
  }

  // ---------------------------------------------------------------------------
  // What the output is
  // ---------------------------------------------------------------------------

  /** Whether a row is the first of its pair does not depend on the rows after it. */
  lemma FirstOfKeyPrefix(rows: seq<CourseRow>, m: int, i: int)
    requires 0 <= i < m <= |rows| && SplitCode(rows[i].code).Ok?
    ensures FirstOfKey(rows[..m], i) <==> FirstOfKey(rows, i)
  {
    assert forall j :: 0 <= j < m ==> rows[..m][j] == rows[j];
  }

  /** The kept indices are increasing, in range, and name exactly the kept rows. */
  lemma {:induction false} KeptIndicesExact(rows: seq<CourseRow>)
    ensures forall k :: 0 <= k < |KeptIndices(rows)| ==> KeptIndices(rows)[k] < |rows|
    ensures forall k1, k2 :: 0 <= k1 < k2 < |KeptIndices(rows)| ==> KeptIndices(rows)[k1] < KeptIndices(rows)[k2]
    ensures forall i :: 0 <= i < |rows| ==> (i in KeptIndices(rows) <==> Kept(rows, i))
  {
    if |rows| > 0 {
      var n := |rows| - 1;
      var init := rows[..n];
      KeptIndicesExact(init);
      var ks := KeptIndices(rows);
      assert ks == KeptIndices(init) + (if Kept(rows, n) then [n] else []);
      forall i | 0 <= i < n
        ensures Kept(init, i) <==> Kept(rows, i)
      {
        assert init[i] == rows[i];
        if SplitCode(rows[i].code).Ok? {
          FirstOfKeyPrefix(rows, n, i);
        }
      }
    }
  }

  /** Output record k is the record of the k-th kept row. */
  lemma {:induction false} StructuredFromKept(rows: seq<CourseRow>, details: map<string, CourseDetail>,
                                              subjects: map<string, string>, clean: string -> string)
    requires AllRowsOk(rows, details)
    ensures |Structured(rows, details, subjects, clean)| == |KeptIndices(rows)|
    ensures forall k :: 0 <= k < |KeptIndices(rows)| ==>
      && KeptIndices(rows)[k] < |rows|
      && rows[KeptIndices(rows)[k]].code in details && SplitCode(rows[KeptIndices(rows)[k]].code).Ok?
      && Structured(rows, details, subjects, clean)[k] == RowRecord(rows[KeptIndices(rows)[k]], details, subjects, clean)
  {
    KeptIndicesExact(rows);
    if |rows| > 0 {
      var n := |rows| - 1;
      var init := rows[..n];
      assert AllRowsOk(init, details) by {
        forall i | 0 <= i < n ensures RowOk(init[i], details) {
          assert init[i] == rows[i];
        }
      }
      StructuredFromKept(init, details, subjects, clean);
      var ks := KeptIndices(rows);
      var out := Structured(rows, details, subjects, clean);
      var before := Structured(init, details, subjects, clean);
      var ksBefore := KeptIndices(init);
      assert RowOk(rows[n], details);
      assert out == before + (if Kept(rows, n) then [RowRecord(rows[n], details, subjects, clean)] else []);
      assert ks == ksBefore + (if Kept(rows, n) then [n] else []);
      forall k | 0 <= k < |ks|
        ensures rows[ks[k]].code in details && SplitCode(rows[ks[k]].code).Ok?
        ensures out[k] == RowRecord(rows[ks[k]], details, subjects, clean)
      {
        if k < |ksBefore| {
          assert ks[k] == ksBefore[k] < n;
          assert rows[ks[k]] == init[ksBefore[k]];
          assert out[k] == before[k];
        }
      }
    }
  }

  /** Every kept row is in the output and every output record comes from a kept row. */
  lemma StructuredRows(rows: seq<CourseRow>, details: map<string, CourseDetail>,
                       subjects: map<string, string>, clean: string -> string)
    requires AllRowsOk(rows, details)
    ensures forall i :: 0 <= i < |rows| && Kept(rows, i) ==>
      rows[i].code in details && RowRecord(rows[i], details, subjects, clean) in Structured(rows, details, subjects, clean)
    ensures forall c :: c in Structured(rows, details, subjects, clean) ==>
      exists i :: 0 <= i < |rows| && Kept(rows, i) && rows[i].code in details
        && c == RowRecord(rows[i], details, subjects, clean)
  {
    KeptIndicesExact(rows);
    StructuredFromKept(rows, details, subjects, clean);
    var ks := KeptIndices(rows);
    var out := Structured(rows, details, subjects, clean);
    forall i | 0 <= i < |rows| && Kept(rows, i)
      ensures rows[i].code in details && RowRecord(rows[i], details, subjects, clean) in out
    {
      var k :| 0 <= k < |ks| && ks[k] == i;
      assert out[k] == RowRecord(rows[i], details, subjects, clean);
    }
    forall c | c in out
      ensures exists i :: (0 <= i < |rows| && Kept(rows, i) && rows[i].code in details
        && c == RowRecord(rows[i], details, subjects, clean))
    {
      var k :| 0 <= k < |out| && out[k] == c;
      assert ks[k] in ks;
    }
  }

  /** No two output records share a (department, number) pair. */
  lemma UniqueCourses(rows: seq<CourseRow>, details: map<string, CourseDetail>,
                      subjects: map<string, string>, clean: string -> string)
    requires AllRowsOk(rows, details)
    ensures var out := Structured(rows, details, subjects, clean);
      forall k1, k2 :: 0 <= k1 < k2 < |out| ==>
        (out[k1].departmentShort, out[k1].code) != (out[k2].departmentShort, out[k2].code)
  {
    KeptIndicesExact(rows);
    StructuredFromKept(rows, details, subjects, clean);
    var ks := KeptIndices(rows);
    var out := Structured(rows, details, subjects, clean);
    forall k1, k2 | 0 <= k1 < k2 < |out|
      ensures (out[k1].departmentShort, out[k1].code) != (out[k2].departmentShort, out[k2].code)
    {
      assert ks[k1] in ks && ks[k2] in ks;
      assert Kept(rows, ks[k2]);
      assert Key(rows[ks[k1]]) != Key(rows[ks[k2]]);
    }
  }

  /** The output never holds an online or team-taught course, and is no longer than the input. */
  lemma SkippedRowsAbsent(rows: seq<CourseRow>, details: map<string, CourseDetail>,
                          subjects: map<string, string>, clean: string -> string)
    requires AllRowsOk(rows, details)
    ensures var out := Structured(rows, details, subjects, clean);
      |out| <= |rows| &&
      forall k :: 0 <= k < |out| ==> out[k].time != OnlineMeeting && out[k].professor != TeamInstructor
  {
    KeptIndicesExact(rows);
    StructuredFromKept(rows, details, subjects, clean);
    var ks := KeptIndices(rows);
    KeptIndicesBound(ks, |rows|);
    forall k | 0 <= k < |ks| ensures !Skipped(rows[ks[k]]) {
      assert ks[k] in ks;
    }
  }

  /** A skipped row never reaches the output. */
  lemma SkippedRowNeverKept(rows: seq<CourseRow>, i: int)
    requires 0 <= i < |rows| && Skipped(rows[i])
    ensures i !in KeptIndices(rows)
  {
    KeptIndicesExact(rows);
  }

  /** An increasing sequence of indices below `n` has at most `n` elements. */
  lemma {:induction false} KeptIndicesBound(ks: seq<nat>, n: nat)
    requires forall k :: 0 <= k < |ks| ==> ks[k] < n
    requires forall k1, k2 :: 0 <= k1 < k2 < |ks| ==> ks[k1] < ks[k2]
    ensures |ks| <= n
  {
    if |ks| > 0 {
      var last := ks[|ks| - 1];
      KeptIndicesBound(ks[..|ks| - 1], last);
    }
  }

  /** Of two surviving rows with the same code, the first one's record is the one kept. */
  lemma FirstOccurrenceWins(a: CourseRow, b: CourseRow, details: map<string, CourseDetail>,
                            subjects: map<string, string>, clean: string -> string)
    requires a.code == b.code && RowOk(a, details) && RowOk(b, details)
    requires !Skipped(a) && !Skipped(b)
    ensures Structured([a, b], details, subjects, clean)
         == [RowRecord(a, details, subjects, clean)]
  {
    var rows := [a, b];
    assert rows[..1] == [a];
    assert [a][..0] == [];
    assert Kept([a], 0);
    assert AllRowsOk([a], details);
    assert Structured([a], details, subjects, clean)
        == [RowRecord(a, details, subjects, clean)];
    assert Key(rows[0]) == Key(rows[1]);
    assert !Kept(rows, 1);
  }

  /** A skipped row does not block a later surviving row with the same code. */
  lemma SkippedRowDoesNotBlock(a: CourseRow, b: CourseRow, details: map<string, CourseDetail>,
                               subjects: map<string, string>, clean: string -> string)
    requires a.code == b.code && RowOk(a, details) && RowOk(b, details)
    requires Skipped(a) && !Skipped(b)
    ensures Structured([a, b], details, subjects, clean)
         == [RowRecord(b, details, subjects, clean)]
  {
    var rows := [a, b];
    assert rows[..1] == [a];
    assert [a][..0] == [];
    assert !Kept([a], 0);
    assert AllRowsOk([a], details);
    assert Structured([a], details, subjects, clean) == [];
    assert Kept(rows, 1);
  }
}
