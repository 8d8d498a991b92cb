/**
 * The search request handler: it extracts the quoted sub-filter from the
 * whole query text, embeds the whole query text, and asks the store for the
 * twenty nearest courses. Failures of either step abort the request.
 */
module Server {

  import opened Wrappers
  import opened Text
  import opened CourseRecord
  import opened Embed
  import opened Vector

  /** The number of results a search asks for. */
  const ResultLimit := 20

  /** The two `unwrap` calls of the handler: each aborts the request. */
  datatype SearchAbort =
    | QueryEmbeddingFailed(reason: string)
    | StoreSearchFailed(error: VectorError)

  method Search(db: VectorDB, query: string,
                embedQuery: string -> Result<Embedding, string>,
                knn: KnnRequest -> Result<seq<string>, VectorError>)
    returns (r: Result<seq<Course>, SearchAbort>)
    ensures embedQuery(query).Err? ==> r == Err(QueryEmbeddingFailed(embedQuery(query).error))
    ensures embedQuery(query).Ok? ==>
      var reply := knn(SearchRequest(FirstQuote(query), embedQuery(query).value, ResultLimit));
      && (r.Ok? ==> FetchedInOrder(db.docs, reply, Ok(r.value)))
      && (r.Err? ==> exists e :: r.error == StoreSearchFailed(e) && FetchedInOrder(db.docs, reply, Err(e)))
  {
    // the pre-filter comes from the whole query text
    var quoted := ExtractFirstQuote(query);
    var embedding := embedQuery(query);
    if embedding.Err? {
      return Err(QueryEmbeddingFailed(embedding.error));
    }
    var output := db.SearchEmbedding(quoted, embedding.value, ResultLimit, knn);
    if output.Err? {
      return Err(StoreSearchFailed(output.error));
    }
    return Ok(output.value);
  }

  /** The result count is written into the query as the two digits `20`. */
  lemma ResultLimitDigits()
    ensures NatToString(ResultLimit) == "20"
  {
    assert NatToString(2) == "2";
  }

  /** A query with a quoted phrase searches only documents matching that phrase. */
  lemma QuotedPhraseFiltersSearch(before: string, phrase: string, after: string, embedding: Embedding)
    requires Quote !in before && Quote !in phrase
    ensures SearchRequest(FirstQuote(before + [Quote] + phrase + [Quote] + after), embedding, ResultLimit).query
         == "(" + phrase + ")=>[KNN 20" + KnnTail
  {
    FirstQuoteInContext(before, phrase, after);
    ResultLimitDigits();
    assert PreFilter(FirstQuote(before + [Quote] + phrase + [Quote] + after)) == phrase;
    assert ")=>[KNN " + "20" == ")=>[KNN 20";
    assert "(" + phrase + ")=>[KNN " + "20" == "(" + phrase + ")=>[KNN 20";
  }

  /** A query without a quote character searches every document. */
  lemma UnquotedQuerySearchesAll(query: string, embedding: Embedding)
    requires Quote !in query
    ensures SearchRequest(FirstQuote(query), embedding, ResultLimit).query == "(*)=>[KNN 20" + KnnTail
  {
    NoQuoteNoFilter(query);
    ResultLimitDigits();
    assert PreFilter(FirstQuote(query)) == "*";
    assert "(" + "*" + ")=>[KNN " == "(*)=>[KNN ";
    assert "(*)=>[KNN " + "20" == "(*)=>[KNN 20";
  }
}
