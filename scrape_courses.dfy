/**
 * The scraper's term and request helpers: the catalogue's database name for a
 * term, the payload of a course-details request, and the collection of the
 * details replies into a dictionary keyed by course code.
 */
module ScrapeCourses {

  import opened Wrappers
  import opened Text
  import opened Maps

  /** One row of the catalogue's search results (the fields the scraper reads). */
  datatype CourseRow = CourseRow(
    code: string,
    title: string,
    instr: string,
    meets: string,
    stat: string,
    crn: string,
    srcdb: string)

  /** The JSON body of a course-details reply (the fields the scraper reads). */
  datatype CourseDetail = CourseDetail(code: string, description: string, attrHtml: string)

  /** A details reply: its JSON body on success, or the HTTP status of a failed request. */
  datatype Response = Fetched(body: CourseDetail) | HttpError(status: nat)

  /**
   * `construct_db_string`: fall terms use the year itself, all others the year
   * before; spring ends in 20, all others in 10. The name splits back into the
   * decimal year it was made from, written canonically as `str` writes it
   * (so by `CanonicalIntIsIntToString` it is exactly that numeral), and the
   * two-digit term suffix.
   */
  function ConstructDbString(season: string, year: int): (s: string)
    ensures |s| >= 3
    ensures s[|s| - 2..] == (if season == "spring" then "20" else "10")
    ensures ParseInt(s[..|s| - 2]) == Some(if season == "fall" then year else year - 1)
    ensures CanonicalInt(s[..|s| - 2])
  {
    var databaseYear := if season == "fall" then year else year - 1;
    var suffix := if season == "spring" then "20" else "10";
    var s := IntToString(databaseYear) + suffix;
    assert s[..|s| - 2] == IntToString(databaseYear);
    ParseIntToString(databaseYear);
    IntToStringCanonical(databaseYear);
    s
  }

  /** The year 2022 is written with the digits `2022`. */
  lemma Digits2022()
    ensures IntToString(2022) == "2022"
  {
    assert NatToString(2) == "2";
    assert NatToString(20) == "20";
    assert NatToString(202) == "202";
    assert NatToString(2022) == "2022";
  }

  /** The spring term named in the helper's documentation: spring 2023 is `202220`. */
  lemma DbStringSpringExample()
    ensures ConstructDbString("spring", 2023) == "202220"
  {
    Digits2022();
    assert IntToString(2022) + "20" == "202220";
  }

  /** The fall term named in the helper's documentation: fall 2022 is `202210`. */
  lemma DbStringFallExample()
    ensures ConstructDbString("fall", 2022) == "202210"
  {
    Digits2022();
    assert IntToString(2022) + "10" == "202210";
  }

  /** The request body of `get_details_payload`. */
  datatype DetailsPayload = DetailsPayload(group: string, key: string, srcdb: string, matched: string)

  const GroupPrefix := "code:"
  const KeyPrefix := "crn:"

  function GetDetailsPayload(r: CourseRow): (p: DetailsPayload)
    ensures p.key == p.matched && p.srcdb == r.srcdb
    ensures |p.group| >= |GroupPrefix| && p.group[..|GroupPrefix|] == GroupPrefix && p.group[|GroupPrefix|..] == r.code
    ensures |p.key| >= |KeyPrefix| && p.key[..|KeyPrefix|] == KeyPrefix && p.key[|KeyPrefix|..] == r.crn
  {
    DetailsPayload(GroupPrefix + r.code, KeyPrefix + r.crn, r.srcdb, KeyPrefix + r.crn)
  }

  /** The payload names its section unambiguously: equal payloads come from rows with equal code, CRN and term. */
  lemma DetailsPayloadIdentifiesSection(a: CourseRow, b: CourseRow)
    ensures GetDetailsPayload(a) == GetDetailsPayload(b) <==>
      (a.code, a.crn, a.srcdb) == (b.code, b.crn, b.srcdb)
  {

  }

  /** The writes of the details loop: one per successful reply, keyed by the reply's own code. */
  function SuccessPairs(responses: seq<Response>): seq<(string, CourseDetail)>
  {
    if |responses| == 0 then []
    else
      var init := SuccessPairs(responses[..|responses| - 1]);
      match responses[|responses| - 1]
      case Fetched(body) => init + [(body.code, body)]
      case HttpError(_) => init
  }

  /**
   * The dictionary-building loop of `parallel_get_course_details`: failed
   * replies are skipped, every other reply is stored under its own code.
   */
  method CollectDetails(responses: seq<Response>) returns (details: map<string, CourseDetail>)
    ensures details == PutAll(map[], SuccessPairs(responses))
  {
    details := map[];
    for i := 0 to |responses|
      invariant details == PutAll(map[], SuccessPairs(responses[..i]))
    {
      assert responses[..i + 1][..i] == responses[..i];
      match responses[i]
      case HttpError(_) =>
        continue;
      case Fetched(body) =>
        details := details[body.code := body];
    }
    assert responses[..|responses|] == responses;
  }

  /** Every collected pair is a successful reply under its own code, and every successful reply is collected. */
  lemma {:induction false} SuccessPairsFromReplies(responses: seq<Response>)
    ensures forall k :: 0 <= k < |SuccessPairs(responses)| ==>
      SuccessPairs(responses)[k].0 == SuccessPairs(responses)[k].1.code
    ensures forall k :: 0 <= k < |SuccessPairs(responses)| ==>
      exists i :: 0 <= i < |responses| && responses[i] == Fetched(SuccessPairs(responses)[k].1)
    ensures forall i :: 0 <= i < |responses| && responses[i].Fetched? ==>
      responses[i].body.code in KeysOf(SuccessPairs(responses))
    ensures |SuccessPairs(responses)| <= |responses|
  {
    if |responses| > 0 {
      var n := |responses|;
      var init := responses[..n - 1];
      SuccessPairsFromReplies(init);
      var before := SuccessPairs(init);
      var after := SuccessPairs(responses);
      forall i | 0 <= i < n - 1 ensures responses[i] == init[i] { }
      var extra := if responses[n - 1].Fetched? then [(responses[n - 1].body.code, responses[n - 1].body)] else [];
      assert after == before + extra;
      forall k | 0 <= k < |after|
        ensures after[k].0 == after[k].1.code
        ensures exists i :: 0 <= i < n && responses[i] == Fetched(after[k].1)
      {
        if k == |before| {
          assert 0 <= n - 1 < n && responses[n - 1] == Fetched(after[k].1);
        } else {
          assert after[k] == before[k];
          var i :| 0 <= i < n - 1 && init[i] == Fetched(before[k].1);
          assert 0 <= i < n && responses[i] == Fetched(after[k].1);
        }
      }
      assert forall k :: 0 <= k < |after| ==>
        exists i :: 0 <= i < |responses| && responses[i] == Fetched(after[k].1);

      forall i | 0 <= i < n && responses[i].Fetched?
        ensures responses[i].body.code in KeysOf(after)
      {
        if i == n - 1 {
          assert after[|before|].0 == responses[i].body.code;
        } else {
          assert init[i] == responses[i];
          var k :| 0 <= k < |before| && before[k].0 == responses[i].body.code;
          assert after[k] == before[k];
        }
      }
    } else {
      assert SuccessPairs(responses) == [];
    }
  }

  /** The details are keyed exactly by the codes of the successful replies; failed replies leave no trace. */
  lemma DetailsKeys(responses: seq<Response>)
    ensures PutAll(map[], SuccessPairs(responses)).Keys
         == set i | 0 <= i < |responses| && responses[i].Fetched? :: responses[i].body.code
    ensures |PutAll(map[], SuccessPairs(responses))| <= |responses|
  {
    var kvs := SuccessPairs(responses);
    PutAllKeys(map[], kvs);
    SuccessPairsFromReplies(responses);
    PutAllSize(kvs);
  }

  /** A later successful reply with the same code overwrites an earlier one. */
  lemma {:induction false} DetailsLastReplyWins(responses: seq<Response>, i: int)
    requires 0 <= i < |responses| && responses[i].Fetched?
    requires forall j :: i < j < |responses| && responses[j].Fetched? ==>
      responses[j].body.code != responses[i].body.code
    ensures var d := PutAll(map[], SuccessPairs(responses));
      responses[i].body.code in d && d[responses[i].body.code] == responses[i].body
  {
    var n := |responses|;
    var init := responses[..n - 1];
    var kvs := SuccessPairs(responses);
    var before := SuccessPairs(init);
    var code := responses[i].body.code;
    if i < n - 1 {
      assert init[i] == responses[i];
      DetailsLastReplyWins(init, i);
      match responses[n - 1]
      case HttpError(_) =>
        assert kvs == before;
      case Fetched(body) =>
        assert body.code != code;
        assert kvs == before + [(body.code, body)];
        assert kvs[..|kvs| - 1] == before;
        assert PutAll(map[], kvs) == PutAll(map[], before)[body.code := body];
    } else {
      assert kvs == before + [(code, responses[i].body)];
      assert kvs[|kvs| - 1] == (code, responses[i].body);
    }
  }
}
