/**
 * The vector store: one JSON document per course under a namespaced key, an
 * index over them, and the two-step search (ranked keys first, then the
 * documents for those keys in rank order). The similarity ranking itself is
 * done by the store and enters the model as a function from the request to
 * the reply.
 */
module Vector {

  import opened Wrappers
  import opened Text
  import opened Maps
  import opened CourseRecord

  const IndexName := "idx:course_vss"
  const KeyPrefix := "courses:"

  // ---------------------------------------------------------------------------
  // Document keys
  // ---------------------------------------------------------------------------

  /** The key under which a course's document is stored. */
  function DocKey(c: Course): (key: string)
    ensures |key| > |KeyPrefix| && key[..|KeyPrefix|] == KeyPrefix
  {
    KeyPrefix + c.departmentShort + ":" + c.code
  }

  /**
   * Two courses share a key exactly when they share department and code,
   * provided department codes hold no `:`.
   */
  lemma DocKeyIdentifiesCourse(a: Course, b: Course)
    requires ':' !in a.departmentShort && ':' !in b.departmentShort
    ensures DocKey(a) == DocKey(b) <==> (a.departmentShort, a.code) == (b.departmentShort, b.code)
  {
    if DocKey(a) == DocKey(b) {
      var p := |KeyPrefix|;
      assert DocKey(a)[p..] == a.departmentShort + ":" + a.code;
      assert DocKey(b)[p..] == b.departmentShort + ":" + b.code;
      SplitAtFirstColon(a.departmentShort, a.code, b.departmentShort, b.code);
    }
  }

  /** A string of the form `x:y` with no `:` in `x` determines `x` and `y`. */
  lemma SplitAtFirstColon(x: string, y: string, u: string, v: string)
    requires ':' !in x && ':' !in u && x + ":" + y == u + ":" + v
    ensures x == u && y == v
  {
    var s := x + ":" + y;
    assert s == x + [':'] + y == u + [':'] + v;
    SplitAround(x, y, ':');
    SplitAround(u, v, ':');
    SplitWithoutSeparator(x, ':');
    SplitWithoutSeparator(u, ':');
    assert x == Split(s, ':')[0] == u;
    assert x == s[..|x|] && u == s[..|u|];
    assert y == s[|x| + 1..] && v == s[|u| + 1..];
  }

  /** Without that proviso different courses can share a key. */
  lemma DocKeyCollidesAcrossColon(a: Course, b: Course)
    requires a.departmentShort == "AB:" && a.code == "C" && b.departmentShort == "AB" && b.code == ":C"
    ensures DocKey(a) == DocKey(b) && (a.departmentShort, a.code) != (b.departmentShort, b.code)
  {
    assert DocKey(a) == KeyPrefix + "AB::C" == DocKey(b);
  }

  /** The writes of `populate_database`: one per course, in course order. */
  function KeyedCourses(courses: seq<Course>): (kvs: seq<(string, Course)>)
    ensures |kvs| == |courses|
    ensures forall i :: 0 <= i < |courses| ==> kvs[i] == (DocKey(courses[i]), courses[i])
  {
    seq(|courses|, i requires 0 <= i < |courses| => (DocKey(courses[i]), courses[i]))
  }

  // ---------------------------------------------------------------------------
  // The search request
  // ---------------------------------------------------------------------------

  /** The little-endian bytes of one 32-bit float. */
  function FloatBytes(f: Float32): (b: seq<bv8>)
    ensures |b| == 4
  {
    [(f & 0xFF) as bv8, ((f >> 8) & 0xFF) as bv8, ((f >> 16) & 0xFF) as bv8, ((f >> 24) & 0xFF) as bv8]
  }

  /** The float whose little-endian bytes are `b`. */
  function FloatOfBytes(b: seq<bv8>): Float32
    requires |b| == 4
  {
    (b[0] as bv32) | ((b[1] as bv32) << 8) | ((b[2] as bv32) << 16) | ((b[3] as bv32) << 24)
  }

  lemma FloatBytesRoundTrip(f: Float32)
    ensures FloatOfBytes(FloatBytes(f)) == f
  {
  }

  /** The query vector as the raw byte buffer sent with the request: four bytes per float, in order. */
  function QueryBytes(e: Embedding): (b: seq<bv8>)
    ensures |b| == 4 * |e|
    ensures forall i :: 0 <= i < |e| ==> b[4 * i..4 * i + 4] == FloatBytes(e[i])
  {
    if |e| == 0 then []
    else
      var rest := QueryBytes(e[1..]);
      var b := FloatBytes(e[0]) + rest;
      assert forall i :: 1 <= i < |e| ==> b[4 * i..4 * i + 4] == rest[4 * (i - 1)..4 * (i - 1) + 4];
      b
  }

  /** The query vector can be read back from the byte buffer. */
  lemma QueryBytesDecode(e: Embedding, i: int)
    requires 0 <= i < |e|
    ensures FloatOfBytes(QueryBytes(e)[4 * i..4 * i + 4]) == e[i]
  {
    FloatBytesRoundTrip(e[i]);
  }

  /**
   * The text pre-filter: the quoted text verbatim, or `*` (everything) without
   * one. A quoted `*` is therefore indistinguishable from no quote at all.
   */
  function PreFilter(quoted: Option<string>): (f: string)
    ensures quoted.Some? ==> f == quoted.value
    ensures f == "*" <==> quoted.None? || quoted.value == "*"
  {
    match quoted
    case Some(q) => q
    case None => "*"
  }

  const KnnTail := " @embedding $query_vector AS score]"

  /**
   * A hybrid query over `preFilter` whose KNN count is a canonical decimal
   * numeral (no leading zero) that reads back as `numResults`; by
   * `CanonicalNatIsNatToString` that numeral is the one `{}` writes.
   */
  ghost predicate ReadsBackAs(q: string, preFilter: string, numResults: nat) {
    exists digits ::
      && q == "(" + preFilter + ")=>[KNN " + digits + KnnTail
      && CanonicalNat(digits) && ParseNat(digits) == numResults
  }

  /** The pre-filter and the count fix the query string: two queries that both read back to them are equal. */
  lemma ReadsBackAsUnique(q1: string, q2: string, preFilter: string, numResults: nat)
    requires ReadsBackAs(q1, preFilter, numResults) && ReadsBackAs(q2, preFilter, numResults)
    ensures q1 == q2
  {
    var d1 :| && q1 == "(" + preFilter + ")=>[KNN " + d1 + KnnTail
              && CanonicalNat(d1) && ParseNat(d1) == numResults;
    var d2 :| && q2 == "(" + preFilter + ")=>[KNN " + d2 + KnnTail
              && CanonicalNat(d2) && ParseNat(d2) == numResults;
    CanonicalNatIsNatToString(d1);
    CanonicalNatIsNatToString(d2);
  }

  /** The buffer holds one four-byte group per component, each decoding back to that component. */
  predicate DecodesTo(buffer: seq<bv8>, embedding: Embedding) {
    && |buffer| == 4 * |embedding|
    && forall i :: 0 <= i < |embedding| ==> FloatOfBytes(buffer[4 * i..4 * i + 4]) == embedding[i]
  }

  /**
   * The hybrid query: the pre-filter, then a KNN clause over the embedding
   * field. It holds the pre-filter verbatim and a decimal count that reads
   * back as the requested one.
   */
  function QueryString(preFilter: string, numResults: nat): (q: string)
    ensures ReadsBackAs(q, preFilter, numResults)
  {
    var digits := NatToString(numResults);
    ParseNatToString(numResults);
    "(" + preFilter + ")=>[KNN " + digits + KnnTail
  }

  /** The arguments of the `FT.SEARCH` command. */
  datatype KnnRequest = KnnRequest(
    index: string,
    query: string,
    queryVector: seq<bv8>,
    sortBy: string,
    ascending: bool,
    noContent: bool,
    offset: nat,
    limit: nat,
    dialect: nat)

  /**
   * The request `search_embedding` sends: the query reads back to the
   * pre-filter and the count, the byte buffer decodes back to the embedding,
   * and the store is asked for keys only, nearest first, at most `numResults`.
   */
  function SearchRequest(quoted: Option<string>, embedding: Embedding, numResults: nat): (req: KnnRequest)
    ensures ReadsBackAs(req.query, PreFilter(quoted), numResults)
    ensures DecodesTo(req.queryVector, embedding)
    ensures req.index == IndexName && req.sortBy == "score" && req.ascending && req.noContent
    ensures req.offset == 0 && req.limit == numResults && req.dialect == 4
  {
    var buffer := QueryBytes(embedding);
    assert forall i :: 0 <= i < |embedding| ==> FloatOfBytes(buffer[4 * i..4 * i + 4]) == embedding[i] by {
      forall i | 0 <= i < |embedding| ensures FloatOfBytes(buffer[4 * i..4 * i + 4]) == embedding[i] {
        QueryBytesDecode(embedding, i);
      }
    }
    KnnRequest(IndexName, QueryString(PreFilter(quoted), numResults), buffer,
      "score", true, true, 0, numResults, 4)
  }

  // ---------------------------------------------------------------------------
  // The store
  // ---------------------------------------------------------------------------

  datatype VectorError =
    | SearchFailed(reason: string)   // the store rejected or failed the query
    | MissingDocument(key: string)   // a ranked key has no document to fetch

  /** The reply without its leading element, which is the number of results. */
  function ReplyKeys(reply: seq<string>): (keys: seq<string>)
    ensures |reply| > 0 ==> reply == [reply[0]] + keys
    ensures |reply| == 0 ==> keys == []
  {
    if |reply| == 0 then [] else reply[1..]
  }

  /**
   * `r` is what fetching the documents of the reply yields from `docs`: an
   * error when the store failed or a key has no document, otherwise one
   * document per returned key, in the order of the keys.
   */
  predicate FetchedInOrder(docs: map<string, Course>, reply: Result<seq<string>, VectorError>,
                           r: Result<seq<Course>, VectorError>)
  {
    match reply
    case Err(e) => r == Err(e)
    case Ok(ranked) =>
      var keys := ReplyKeys(ranked);
      && (r.Ok? <==> forall i :: 0 <= i < |keys| ==> keys[i] in docs)
      && (r.Ok? ==> |r.value| == |keys| && forall i :: 0 <= i < |keys| ==> r.value[i] == docs[keys[i]])
  }

  class VectorDB {
    /** The JSON documents by key. */
    var docs: map<string, Course>
    /** Whether the search index is defined. */
    var indexDefined: bool

    constructor (docs: map<string, Course>, indexDefined: bool)
      ensures this.docs == docs && this.indexDefined == indexDefined
    {
      this.docs := docs;
      this.indexDefined := indexDefined;
    }

    /** `reset`: `FLUSHALL` removes every document and the index with them. */
    method Reset()
      modifies this
      ensures docs == map[] && !indexDefined
    {
      docs := map[];
      indexDefined := false;
    }

    /** `create_index`: drop the index if it exists, then define it afresh over the stored documents. */
    method CreateIndex()
      modifies this
      ensures indexDefined && docs == old(docs)
    {
      if indexDefined {
        indexDefined := false;
      }
      indexDefined := true;
    }

    /** `populate_database`: queue one `JSON.SET` per course, then run the pipeline. */
    method PopulateDatabase(courses: seq<Course>)
      modifies this
      ensures docs == PutAll(old(docs), KeyedCourses(courses))
      ensures indexDefined == old(indexDefined)
    {
      var pipeline: seq<(string, Course)> := [];
      for i := 0 to |courses|
        invariant pipeline == KeyedCourses(courses[..i])
      {
        pipeline := pipeline + [(DocKey(courses[i]), courses[i])];
        assert courses[..i + 1] == courses[..i] + [courses[i]];
      }
      assert courses[..|courses|] == courses;
      docs := PutAll(docs, pipeline);
    }

    /**
     * `search_embedding`: send the KNN request, drop the count at the head
     * of the reply, and fetch the document of every remaining key in order.
     */
    method SearchEmbedding(quoted: Option<string>, embedding: Embedding, numResults: nat,
                           knn: KnnRequest -> Result<seq<string>, VectorError>)
      returns (r: Result<seq<Course>, VectorError>)
      ensures FetchedInOrder(docs, knn(SearchRequest(quoted, embedding, numResults)), r)
    {
      var request := SearchRequest(quoted, embedding, numResults);
      var reply := knn(request);
      if reply.Err? {
        return Err(reply.error);
      }
      var pipeline := SkipCount(reply.value);
      r := FetchDocuments(pipeline);
    }

    /** The loop over the reply: every element after the leading count, in order. */
    static method SkipCount(results: seq<string>) returns (pipeline: seq<string>)
      ensures pipeline == ReplyKeys(results)
    {
      pipeline := [];
      if |results| > 0 {
        for i := 1 to |results|
          invariant pipeline == results[1..i]
        {
          pipeline := pipeline + [results[i]];
        }
      }
    }

    /** Run a pipeline of `JSON.GET` reads: all the documents in order, or an error for a missing one. */
    method FetchDocuments(keys: seq<string>) returns (r: Result<seq<Course>, VectorError>)
      ensures r.Ok? <==> forall i :: 0 <= i < |keys| ==> keys[i] in docs
      ensures r.Ok? ==> |r.value| == |keys| && forall i :: 0 <= i < |keys| ==> r.value[i] == docs[keys[i]]
    {
      var courses: seq<Course> := [];
      for i := 0 to |keys|
        invariant |courses| == i
        invariant forall j :: 0 <= j < i ==> keys[j] in docs && courses[j] == docs[keys[j]]
      {
        if keys[i] !in docs {
          return Err(MissingDocument(keys[i]));
        }
        courses := courses + [docs[keys[i]]];
      }
      return Ok(courses);
    }
  }

  // ---------------------------------------------------------------------------
  // What population leaves in the store
  // ---------------------------------------------------------------------------

  /** The populated keys are the old ones plus one per course, and each carries the key prefix. */
  lemma PopulatedKeys(docs: map<string, Course>, courses: seq<Course>)
    ensures PutAll(docs, KeyedCourses(courses)).Keys
         == docs.Keys + set i | 0 <= i < |courses| :: DocKey(courses[i])
  {
    var kvs := KeyedCourses(courses);
    PutAllKeys(docs, kvs);
    assert KeysOf(kvs) == set i | 0 <= i < |courses| :: DocKey(courses[i]) by {
      forall k | k in KeysOf(kvs) ensures k in set i | 0 <= i < |courses| :: DocKey(courses[i]) {
        var i :| 0 <= i < |kvs| && kvs[i].0 == k;
        assert DocKey(courses[i]) == k;
      }
    }
  }

  /** Populating an empty store leaves only keys with the index prefix. */
  lemma PopulatedKeysArePrefixed(courses: seq<Course>)
    ensures forall k :: k in PutAll(map[], KeyedCourses(courses)) ==>
      |k| > |KeyPrefix| && k[..|KeyPrefix|] == KeyPrefix
  {
    PopulatedKeys(map[], courses);
  }

  /** Of several courses with the same key, the store keeps the last one. */
  lemma PopulateKeepsLastCourse(docs: map<string, Course>, courses: seq<Course>, i: int)
    requires 0 <= i < |courses|
    requires forall j :: i < j < |courses| ==> DocKey(courses[j]) != DocKey(courses[i])
    ensures DocKey(courses[i]) in PutAll(docs, KeyedCourses(courses))
    ensures PutAll(docs, KeyedCourses(courses))[DocKey(courses[i])] == courses[i]
  {
    PutAllLastWriteWins(docs, KeyedCourses(courses), i);
  }

  /** A key no course of the batch maps to keeps its old document, or stays absent. */
  lemma PopulateKeepsOtherDocuments(docs: map<string, Course>, courses: seq<Course>, k: string)
    requires forall i :: 0 <= i < |courses| ==> DocKey(courses[i]) != k
    ensures (k in PutAll(docs, KeyedCourses(courses))) == (k in docs)
    ensures k in docs ==> PutAll(docs, KeyedCourses(courses))[k] == docs[k]
  {
    PutAllUntouched(docs, KeyedCourses(courses), k);
  }

  /** An empty store populated with a batch holds at most one document per course. */
  lemma PopulateSize(courses: seq<Course>)
    ensures |PutAll(map[], KeyedCourses(courses))| <= |courses|
  {
    PutAllSize(KeyedCourses(courses));
  }
}
