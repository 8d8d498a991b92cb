/**
 * The embedding cache: turning the raw course snapshot into embedded courses
 * once and keeping the result in a second snapshot file that later runs read
 * instead of calling the embedding service again.
 */
module Corpus {

  import opened Wrappers
  import opened CourseRecord

  datatype CorpusError =
    | NotFound(path: string)          // the snapshot file does not exist
    | Malformed(path: string)         // the snapshot file does not parse as a list of courses
    | EmbeddingFailed(reason: string) // the embedding service refused or failed
    | WriteFailed(path: string)       // the snapshot file could not be created

  /** `embed_courses`: course `i` receives embedding `i`; `zip` stops at the shorter input. */
  function EmbedCourses(courses: seq<Course>, embeddings: seq<Embedding>): (r: seq<Course>)
    ensures |r| == if |courses| <= |embeddings| then |courses| else |embeddings|
    ensures forall i :: 0 <= i < |r| ==> r[i] == courses[i].(embedding := Some(embeddings[i]))
  {
    if |courses| == 0 || |embeddings| == 0 then []
    else [courses[0].(embedding := Some(embeddings[0]))] + EmbedCourses(courses[1..], embeddings[1..])
  }

  /** Every embedded course has an embedding, and its rendered text is the raw course's. */
  lemma EmbedCoursesKeepsText(courses: seq<Course>, embeddings: seq<Embedding>)
    ensures forall i :: 0 <= i < |EmbedCourses(courses, embeddings)| ==>
      && EmbedCourses(courses, embeddings)[i].embedding.Some?
      && Display(EmbedCourses(courses, embeddings)[i]) == Display(courses[i])
  {
    forall i | 0 <= i < |EmbedCourses(courses, embeddings)|
      ensures Display(EmbedCourses(courses, embeddings)[i]) == Display(courses[i])
    {
      DisplayIgnoresEmbedding(courses[i], Some(embeddings[i]));
    }
  }

  /** The documents sent to the embedding service: each course's rendered text, in order. */
  function Texts(courses: seq<Course>): (documents: seq<string>)
    ensures |documents| == |courses|
    ensures forall i :: 0 <= i < |courses| ==> documents[i] == Display(courses[i].(embedding := None))
  {
    seq(|courses|, i requires 0 <= i < |courses| => Display(courses[i]))
  }

  /** Embedding an already embedded batch again would send the same documents as the raw batch. */
  lemma TextsIgnoreEmbeddings(courses: seq<Course>, embeddings: seq<Embedding>)
    requires |courses| <= |embeddings|
    ensures Texts(EmbedCourses(courses, embeddings)) == Texts(courses)
  {
    EmbedCoursesKeepsText(courses, embeddings);
  }

  /** One observable effect of the cache on its environment. */
  datatype Effect =
    | ReadFile(path: string)
    | EmbedRequest(documents: seq<string>)
    | WriteFile(path: string)

  /**
   * The file system holding the snapshot files, the embedding service, and a
   * record of the effects performed on them, in order.
   */
  class Environment {
    /** What reading and parsing each existing file yields. */
    var files: map<string, Result<seq<Course>, CorpusError>>
    /** Paths at which a file cannot be created. */
    const readOnly: set<string>
    /** The batched embedding request to the hosted service. */
    const embedService: seq<string> -> Result<seq<Embedding>, CorpusError>
    var effects: seq<Effect>

    constructor (files: map<string, Result<seq<Course>, CorpusError>>, readOnly: set<string>,
                 embedService: seq<string> -> Result<seq<Embedding>, CorpusError>)
      ensures this.files == files && this.readOnly == readOnly
      ensures this.embedService == embedService && effects == []
    {
      this.files := files;
      this.readOnly := readOnly;
      this.embedService := embedService;
      effects := [];
    }

    /** What `read_courses(path)` would return now. */
    function Stored(path: string): Result<seq<Course>, CorpusError>
      reads this
    {
      if path in files then files[path] else Err(NotFound(path))
    }

    /** `read_courses`: open and parse a snapshot file. */
    method ReadCourses(path: string) returns (r: Result<seq<Course>, CorpusError>)
      modifies this`effects
      ensures r == Stored(path)
      ensures effects == old(effects) + [ReadFile(path)]
    {
      r := Stored(path);
      effects := effects + [ReadFile(path)];
    }

    /** `embed_documents`: one batched request with the rendered text of every course. */
    method EmbedDocuments(courses: seq<Course>) returns (r: Result<seq<Embedding>, CorpusError>)
      modifies this`effects
      ensures r == embedService(Texts(courses))
      ensures effects == old(effects) + [EmbedRequest(Texts(courses))]
    {
      r := embedService(Texts(courses));
      effects := effects + [EmbedRequest(Texts(courses))];
    }

    /** `write_courses`: create (or truncate) the file and serialise the courses into it. */
    method WriteCourses(path: string, courses: seq<Course>) returns (r: Result<(), CorpusError>)
      modifies this`files, this`effects
      ensures path in readOnly ==> r == Err(WriteFailed(path)) && files == old(files)
      ensures path !in readOnly ==> r == Ok(()) && files == old(files)[path := Ok(courses)]
      ensures effects == old(effects) + [WriteFile(path)]
    {
      if path in readOnly {
        r := Err(WriteFailed(path));
      } else {
        files := files[path := Ok(courses)];
        r := Ok(());
      }
      effects := effects + [WriteFile(path)];
    }
  }

  /**
   * `process_courses`: use the embedded snapshot when it reads; otherwise read
   * the raw snapshot, embed it in one batch, write the embedded snapshot and
   * return what was written. Any failure is returned as it arises.
   */
  method ProcessCourses(env: Environment, rawPath: string, embeddedPath: string)
    returns (r: Result<seq<Course>, CorpusError>)
    modifies env`files, env`effects
    // the embedded snapshot reads: it is returned as is, nothing is embedded or written
    ensures old(env.Stored(embeddedPath)).Ok? ==>
      && r == old(env.Stored(embeddedPath))
      && env.files == old(env.files)
      && env.effects == old(env.effects) + [ReadFile(embeddedPath)]
    // neither snapshot reads: the raw snapshot's error, nothing written
    ensures old(env.Stored(embeddedPath)).Err? && old(env.Stored(rawPath)).Err? ==>
      && r == old(env.Stored(rawPath))
      && env.files == old(env.files)
      && env.effects == old(env.effects) + [ReadFile(embeddedPath), ReadFile(rawPath)]
    // the fallback: embed the raw courses, then write, and only after embedding succeeded
    ensures old(env.Stored(embeddedPath)).Err? && old(env.Stored(rawPath)).Ok? ==>
      var raw := old(env.Stored(rawPath)).value;
      var embedded := env.embedService(Texts(raw));
      && (embedded.Err? ==>
           && r == Err(embedded.error)
           && env.files == old(env.files)
           && env.effects == old(env.effects) + [ReadFile(embeddedPath), ReadFile(rawPath),
                                                 EmbedRequest(Texts(raw))])
      && (embedded.Ok? ==>
           var courses := EmbedCourses(raw, embedded.value);
           && env.effects == old(env.effects) + [ReadFile(embeddedPath), ReadFile(rawPath),
                                                 EmbedRequest(Texts(raw)), WriteFile(embeddedPath)]
           && (embeddedPath in env.readOnly ==>
                 r == Err(WriteFailed(embeddedPath)) && env.files == old(env.files))
           && (embeddedPath !in env.readOnly ==>
                 r == Ok(courses) && env.files == old(env.files)[embeddedPath := Ok(courses)]))
    // only the embedded snapshot can change, and after success it holds the result
    ensures forall p :: p != embeddedPath ==> env.Stored(p) == old(env.Stored(p))
    ensures r.Ok? ==> env.Stored(embeddedPath) == r
  {
    var cached := env.ReadCourses(embeddedPath);
    if cached.Ok? {
      // the cache hit: the embedded snapshot is the answer
      return cached;
    }
    // the cache miss: rebuild the embedded snapshot from the raw one
    var raw := env.ReadCourses(rawPath);
    if raw.Err? {
      return Err(raw.error);
    }
    var embeddings := env.EmbedDocuments(raw.value);
    if embeddings.Err? {
      return Err(embeddings.error);
    }
    var courses := EmbedCourses(raw.value, embeddings.value);
    var written := env.WriteCourses(embeddedPath, courses);
    if written.Err? {
      return Err(written.error);
    }
    return Ok(courses);
  }

  /**
   * Running the cache twice: once the first run has succeeded, the second one
   * reads the embedded snapshot, returns the same courses, and does nothing
   * else. `mid` is the effect record between the two runs.
   */
  method ProcessTwice(env: Environment, rawPath: string, embeddedPath: string)
    returns (first: Result<seq<Course>, CorpusError>, second: Result<seq<Course>, CorpusError>,
             ghost mid: seq<Effect>)
    modifies env`files, env`effects
    // the first run: a cache hit reads once; a successful rebuild reads twice, embeds once and writes once
    ensures old(env.Stored(embeddedPath)).Ok? ==>
      mid == old(env.effects) + [ReadFile(embeddedPath)]
    ensures old(env.Stored(embeddedPath)).Err? && first.Ok? ==>
      && old(env.Stored(rawPath)).Ok?
      && mid == old(env.effects) + [ReadFile(embeddedPath), ReadFile(rawPath),
                                    EmbedRequest(Texts(old(env.Stored(rawPath)).value)), WriteFile(embeddedPath)]
    // the second run: one read of the embedded snapshot, no embedding request, no write
    ensures first.Ok? ==> second == first && env.effects == mid + [ReadFile(embeddedPath)]
  {
    first := ProcessCourses(env, rawPath, embeddedPath);
    mid := env.effects;
    second := ProcessCourses(env, rawPath, embeddedPath);
  }
}
