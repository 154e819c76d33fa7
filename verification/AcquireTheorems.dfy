/** What downloads guarantee, against any server and against honest ones. */
module AcquireTheorems {
  import opened Wrappers
  import opened Bytes
  import opened Acquire
  import opened Numerals

  // ---- the declared size is never exceeded ----

  predicate SizeKept(temporary: Option<Bytes>, item: Item) {
    item.bytes.Some? ==> SizeOf(temporary) <= item.bytes.value
  }

  lemma {:induction false} WrittenBounded(file: Bytes, chunks: seq<Bytes>, limit: nat)
    requires |file| <= limit
    ensures |Written(file, chunks, Some(limit)).0| <= limit
    decreases |chunks|
  {
    if chunks != [] && chunks[0] != [] && !Exceeds(|file| + |chunks[0]|, Some(limit)) {
      WrittenBounded(file + chunks[0], chunks[1..], limit);
    }
  }

  /** The response is one whose body is written to the temporary file. */
  predicate Writes(item: Item, temporary: Option<Bytes>, response: Response) {
    && response.Answer? && response.trusted
    && (Resumes(temporary, response.status) ==> RangeAccepted(response.contentRange, SizeOf(temporary), item.bytes))
  }

  /** The temporary file once the first `j` chunks of a response are handled. */
  function Instant(item: Item, temporary: Option<Bytes>, response: Response, j: nat): Option<Bytes>
    requires response.Answer? && j <= |response.chunks|
  {
    Some(Written(if Resumes(temporary, response.status) then temporary.value else [], response.chunks[..j], item.bytes).0)
  }

  /** The temporary file at every instant of a request: when the body begins, after each chunk, and at the end. */
  function Instants(item: Item, temporary: Option<Bytes>, response: Response): seq<Option<Bytes>> {
    (if Writes(item, temporary, response)
     then seq(|response.chunks| + 1, j requires 0 <= j <= |response.chunks| => Instant(item, temporary, response, j))
     else [])
    + [Received(item, temporary, response).0]
  }

  /** Whatever a server sends, the temporary file stays within the declared size, at every instant of the
      request. */
  lemma SizeNeverExceeded(item: Item, temporary: Option<Bytes>, response: Response)
    requires SizeKept(temporary, item)
    ensures forall t | t in Instants(item, temporary, response) :: SizeKept(t, item)
  {
    if response.Answer? && item.bytes.Some? {
      var base := if Resumes(temporary, response.status) then temporary.value else [];
      WrittenBounded(base, response.chunks, item.bytes.value);
      forall j | 0 <= j <= |response.chunks|
        ensures SizeKept(Instant(item, temporary, response, j), item)
      {
        WrittenBounded(base, response.chunks[..j], item.bytes.value);
      }
    }
  }

  // ---- honest servers ----

  /** The bytes of a body: its chunks up to the first empty one. */
  function Body(chunks: seq<Bytes>): Bytes {
    if chunks == [] || chunks[0] == [] then [] else chunks[0] + Body(chunks[1..])
  }

  predicate Prefix(a: Bytes, b: Bytes) {
    |a| <= |b| && a == b[..|a|]
  }

  /** An accepted partial response continues the content at the offset; any other starts it anew. */
  predicate Honest(content: Bytes, offset: nat, response: Response) {
    response.Answer? ==>
      if offset > 0 && response.status == 206 then offset <= |content| && Prefix(Body(response.chunks), content[offset..])
      else Prefix(Body(response.chunks), content)
  }

  /** Every response to a request for the item is honest about its content. */
  ghost predicate AlwaysHonest(server: Server, identity: string, content: Bytes) {
    forall log: seq<Request> | log != [] && log[|log| - 1].identity == identity :: AnswersHonestly(server, log, content)
  }

  predicate AnswersHonestly(server: Server, log: seq<Request>, content: Bytes)
    requires log != []
  {
    Honest(content, log[|log| - 1].offset, server(log))
  }

  lemma AskedHonest(server: Server, s: State, identity: string, url: string, content: Bytes)
    requires AlwaysHonest(server, identity, content)
    ensures Honest(content, SizeOf(s.temporary), server(Requested(s, identity, url).requests))
  {
    var log := Requested(s, identity, url).requests;
    assert log[|log| - 1] == Request(identity, url, SizeOf(s.temporary));
    assert AnswersHonestly(server, log, content);
  }

  lemma {:induction false} WrittenPrefix(file: Bytes, chunks: seq<Bytes>, expected: Option<nat>, content: Bytes)
    requires Prefix(file + Body(chunks), content)
    ensures Prefix(Written(file, chunks, expected).0, content)
    ensures !Exceeds(|content|, expected) ==> !Written(file, chunks, expected).1 && Written(file, chunks, expected).0 == file + Body(chunks)
    decreases |chunks|
  {
    if chunks == [] || chunks[0] == [] {
      assert file + Body(chunks) == file;
    } else {
      assert file + Body(chunks) == (file + chunks[0]) + Body(chunks[1..]);
      assert (file + Body(chunks))[..|file|] == file;
      if !Exceeds(|file| + |chunks[0]|, expected) {
        WrittenPrefix(file + chunks[0], chunks[1..], expected, content);
      }
    }
  }

  lemma ResumedPrefix(a: Bytes, b: Bytes, content: Bytes)
    requires Prefix(a, content) && Prefix(b, content[|a|..])
    ensures Prefix(a + b, content)
  {
    assert content == content[..|a|] + content[|a|..];
  }

  predicate PrefixKept(temporary: Option<Bytes>, content: Bytes) {
    temporary.Some? ==> Prefix(temporary.value, content)
  }

  /** The chunks that come first make up a first part of the body. */
  lemma {:induction false} FirstChunks(chunks: seq<Bytes>, j: nat)
    requires j <= |chunks|
    ensures Prefix(Body(chunks[..j]), Body(chunks))
    decreases j
  {
    if j > 0 && chunks[0] != [] {
      FirstChunks(chunks[1..], j - 1);
      assert chunks[..j][1..] == chunks[1..][..j - 1];
      assert Body(chunks[..j]) == chunks[0] + Body(chunks[1..][..j - 1]);
    }
  }

  lemma PrefixOfPrefix(base: Bytes, a: Bytes, b: Bytes, content: Bytes)
    requires Prefix(a, b) && Prefix(base + b, content)
    ensures Prefix(base + a, content)
  {
    assert base + a == (base + b)[..|base| + |a|];
  }

  /** An honest server keeps the temporary file a prefix of the content, at every instant of a request; when the
      request for content of its declared size is done, the file is the content. */
  lemma HonestResponse(item: Item, temporary: Option<Bytes>, response: Response, content: Bytes)
    requires PrefixKept(temporary, content) && Honest(content, SizeOf(temporary), response)
    ensures forall t | t in Instants(item, temporary, response) :: PrefixKept(t, content)
    ensures Received(item, temporary, response).1 == Done && item.bytes == Some(|content|) ==>
      Received(item, temporary, response).0 == Some(content)
  {
    if response.Answer? {
      var base := if Resumes(temporary, response.status) then temporary.value else [];
      HonestBody(item, temporary, response, content, base);
      WrittenPrefix(base, response.chunks, item.bytes, content);
      assert content[..|content|] == content;
      forall j | 0 <= j <= |response.chunks|
        ensures PrefixKept(Instant(item, temporary, response, j), content)
      {
        FirstChunks(response.chunks, j);
        PrefixOfPrefix(base, Body(response.chunks[..j]), Body(response.chunks), content);
        WrittenPrefix(base, response.chunks[..j], item.bytes, content);
      }
    }
  }

  lemma HonestBody(item: Item, temporary: Option<Bytes>, response: Response, content: Bytes, base: Bytes)
    requires PrefixKept(temporary, content) && response.Answer? && Honest(content, SizeOf(temporary), response)
    requires base == if Resumes(temporary, response.status) then temporary.value else []
    ensures Prefix(base + Body(response.chunks), content)
  {
    if Resumes(temporary, response.status) {
      ResumedPrefix(base, Body(response.chunks), content);
    } else {
      assert base + Body(response.chunks) == Body(response.chunks);
    }
  }

  /** What an honest server's response to the next request leaves. */
  lemma HonestRequest(server: Server, s: State, identity: string, item: Item, url: string, content: Bytes)
    requires AlwaysHonest(server, identity, content) && PrefixKept(s.temporary, content)
    ensures var received := Received(item, s.temporary, server(Requested(s, identity, url).requests));
      received.1 == Done && item.bytes == Some(|content|) ==> received.0 == Some(content)
  {
    AskedHonest(server, s, identity, url, content);
    HonestResponse(item, s.temporary, server(Requested(s, identity, url).requests), content);
  }

  // ---- every instant of all attempts ----

  /** The temporary file at every instant of the attempts from `attempt` on. */
  function AllInstants(server: Server, s: State, identity: string, item: Item, attempt: nat): seq<Option<Bytes>>
    requires 1 <= attempt <= ATTEMPTS
    decreases ATTEMPTS - attempt
  {
    var asked := Requested(s, identity, Urls(item)[(attempt - 1) % |Urls(item)|]);
    var received := Received(item, s.temporary, server(asked.requests));
    Instants(item, s.temporary, server(asked.requests))
    + if received.1 == Retry && attempt < ATTEMPTS
      then AllInstants(server, asked.(temporary := received.0), identity, item, attempt + 1)
      else []
  }

  ghost predicate All(instants: seq<Option<Bytes>>, kept: Option<Bytes> -> bool) {
    forall t | t in instants :: kept(t)
  }

  /** A request that finds a temporary file with the property leaves one at every instant. */
  ghost predicate Keeps(server: Server, identity: string, item: Item, kept: Option<Bytes> -> bool) {
    forall s: State, url | kept(s.temporary) ::
      All(Instants(item, s.temporary, server(Requested(s, identity, url).requests)), kept)
  }

  lemma AllJoin(a: seq<Option<Bytes>>, b: seq<Option<Bytes>>, kept: Option<Bytes> -> bool)
    requires All(a, kept) && All(b, kept)
    ensures All(a + b, kept)
  {
  }

  lemma LastInstant(item: Item, temporary: Option<Bytes>, response: Response, kept: Option<Bytes> -> bool)
    requires All(Instants(item, temporary, response), kept)
    ensures kept(Received(item, temporary, response).0)
  {
    assert Received(item, temporary, response).0 in Instants(item, temporary, response);
  }

  /** What every request keeps holds at every instant of all attempts. */
  lemma {:induction false} AttemptsKeep(server: Server, s: State, identity: string, item: Item, attempt: nat, kept: Option<Bytes> -> bool)
    requires 1 <= attempt <= ATTEMPTS && Keeps(server, identity, item, kept) && kept(s.temporary)
    ensures All(AllInstants(server, s, identity, item, attempt), kept)
    decreases ATTEMPTS - attempt
  {
    var asked := Requested(s, identity, Urls(item)[(attempt - 1) % |Urls(item)|]);
    var response := server(asked.requests);
    var received := Received(item, s.temporary, response);
    LastInstant(item, s.temporary, response, kept);
    if received.1 == Retry && attempt < ATTEMPTS {
      var next := asked.(temporary := received.0);
      AttemptsKeep(server, next, identity, item, attempt + 1, kept);
      AllJoin(Instants(item, s.temporary, response), AllInstants(server, next, identity, item, attempt + 1), kept);
    }
  }

  /** A call leaves the temporary file of one of its instants or none, and caches that of one of them. */
  ghost predicate EndsAt(r: (State, bool), identity: string, instants: seq<Option<Bytes>>) {
    && (r.0.temporary.Some? ==> r.0.temporary in instants)
    && (r.1 ==> identity in r.0.cache && Some(r.0.cache[identity]) in instants)
  }

  lemma EndedAt(hash: Hash, asked: State, received: (Option<Bytes>, Outcome), identity: string, item: Item, instants: seq<Option<Bytes>>)
    requires received.0 in instants
    ensures EndsAt(Ended(hash, asked, received, identity, item), identity, instants)
  {
  }

  lemma EndsLater(r: (State, bool), identity: string, a: seq<Option<Bytes>>, b: seq<Option<Bytes>>)
    requires EndsAt(r, identity, b)
    ensures EndsAt(r, identity, a + b)
  {
  }

  lemma {:induction false} AttemptsEnd(server: Server, hash: Hash, s: State, identity: string, item: Item, attempt: nat)
    requires 1 <= attempt <= ATTEMPTS
    ensures EndsAt(Attempts(server, hash, s, identity, item, attempt), identity, AllInstants(server, s, identity, item, attempt))
    decreases ATTEMPTS - attempt
  {
    var asked := Requested(s, identity, Urls(item)[(attempt - 1) % |Urls(item)|]);
    var response := server(asked.requests);
    var received := Received(item, s.temporary, response);
    var instants := Instants(item, s.temporary, response);
    if received.1 == Retry && attempt < ATTEMPTS {
      var next := asked.(temporary := received.0);
      AttemptsEnd(server, hash, next, identity, item, attempt + 1);
      EndsLater(Attempts(server, hash, next, identity, item, attempt + 1), identity, instants,
                AllInstants(server, next, identity, item, attempt + 1));
    } else {
      assert received.0 in instants && instants + [] == instants;
      EndedAt(hash, asked, received, identity, item, instants);
    }
  }

  /** The requests `t` has beyond those of `s` ask for offsets up to `limit`. */
  ghost predicate OffsetsWithin(s: State, t: State, limit: nat) {
    && |s.requests| <= |t.requests| && t.requests[..|s.requests|] == s.requests
    && forall j | |s.requests| <= j < |t.requests| :: t.requests[j].offset <= limit
  }

  lemma OffsetsNext(s: State, next: State, t: State, identity: string, url: string, limit: nat)
    requires next.requests == Requested(s, identity, url).requests && SizeOf(s.temporary) <= limit
    requires OffsetsWithin(next, t, limit)
    ensures OffsetsWithin(s, t, limit)
  {
    assert t.requests[..|s.requests|] == t.requests[..|next.requests|][..|s.requests|];
    assert t.requests[|s.requests|] == t.requests[..|next.requests|][|s.requests|];
  }

  lemma OffsetsEnd(hash: Hash, s: State, asked: State, received: (Option<Bytes>, Outcome), identity: string, url: string,
                   item: Item, limit: nat)
    requires asked == Requested(s, identity, url) && SizeOf(s.temporary) <= limit
    ensures OffsetsWithin(s, Ended(hash, asked, received, identity, item).0, limit)
  {
    assert asked.requests[..|asked.requests|] == asked.requests;
    OffsetsNext(s, asked, Ended(hash, asked, received, identity, item).0, identity, url, limit);
  }

  ghost predicate Bounds(kept: Option<Bytes> -> bool, limit: nat) {
    forall t | kept(t) :: SizeOf(t) <= limit
  }

  lemma {:induction false} OffsetsKept(server: Server, hash: Hash, s: State, identity: string, item: Item, attempt: nat,
                                       kept: Option<Bytes> -> bool, limit: nat)
    requires 1 <= attempt <= ATTEMPTS && kept(s.temporary) && Bounds(kept, limit) && Keeps(server, identity, item, kept)
    ensures OffsetsWithin(s, Attempts(server, hash, s, identity, item, attempt).0, limit)
    decreases ATTEMPTS - attempt
  {
    var url := Urls(item)[(attempt - 1) % |Urls(item)|];
    var asked := Requested(s, identity, url);
    var response := server(asked.requests);
    var received := Received(item, s.temporary, response);
    if received.1 == Retry && attempt < ATTEMPTS {
      var next := asked.(temporary := received.0);
      LastInstant(item, s.temporary, response, kept);
      OffsetsKept(server, hash, next, identity, item, attempt + 1, kept, limit);
      OffsetsNext(s, next, Attempts(server, hash, next, identity, item, attempt + 1).0, identity, url, limit);
    } else {
      OffsetsEnd(hash, s, asked, received, identity, url, item, limit);
    }
  }

  /** At every instant of all attempts and mirrors the temporary file is within the declared size, and so is
      every offset asked for. */
  lemma AttemptsBounded(server: Server, hash: Hash, s: State, identity: string, item: Item, attempt: nat)
    requires 1 <= attempt <= ATTEMPTS && SizeKept(s.temporary, item)
    ensures forall t | t in AllInstants(server, s, identity, item, attempt) :: SizeKept(t, item)
    ensures SizeKept(Attempts(server, hash, s, identity, item, attempt).0.temporary, item)
    ensures item.bytes.Some? ==> OffsetsWithin(s, Attempts(server, hash, s, identity, item, attempt).0, item.bytes.value)
  {
    var kept := (t: Option<Bytes>) => SizeKept(t, item);
    forall u: State, url | kept(u.temporary)
      ensures All(Instants(item, u.temporary, server(Requested(u, identity, url).requests)), kept)
    {
      SizeNeverExceeded(item, u.temporary, server(Requested(u, identity, url).requests));
    }
    AttemptsKeep(server, s, identity, item, attempt, kept);
    AttemptsEnd(server, hash, s, identity, item, attempt);
    if item.bytes.Some? {
      OffsetsKept(server, hash, s, identity, item, attempt, kept, item.bytes.value);
    }
  }

  /** At every instant of all attempts and mirrors an honest server's content is only ever extended from its
      beginning: the temporary file is a prefix of it, every offset asked for lies in it, and a success with its
      size puts the content itself into the cache. */
  lemma AttemptsHonest(server: Server, hash: Hash, s: State, identity: string, item: Item, attempt: nat, content: Bytes)
    requires 1 <= attempt <= ATTEMPTS && AlwaysHonest(server, identity, content) && PrefixKept(s.temporary, content)
    ensures forall t | t in AllInstants(server, s, identity, item, attempt) :: PrefixKept(t, content)
    ensures PrefixKept(Attempts(server, hash, s, identity, item, attempt).0.temporary, content)
    ensures OffsetsWithin(s, Attempts(server, hash, s, identity, item, attempt).0, |content|)
    ensures var r := Attempts(server, hash, s, identity, item, attempt);
      r.1 && item.bytes == Some(|content|) ==> identity in r.0.cache && r.0.cache[identity] == content
  {
    var kept := (t: Option<Bytes>) => PrefixKept(t, content);
    forall u: State, url | kept(u.temporary)
      ensures All(Instants(item, u.temporary, server(Requested(u, identity, url).requests)), kept)
    {
      AskedHonest(server, u, identity, url, content);
      HonestResponse(item, u.temporary, server(Requested(u, identity, url).requests), content);
    }
    AttemptsKeep(server, s, identity, item, attempt, kept);
    AttemptsEnd(server, hash, s, identity, item, attempt);
    OffsetsKept(server, hash, s, identity, item, attempt, kept, |content|);
    AttemptsDo(server, hash, s, identity, item, attempt, attempt - 1, ATTEMPTS + 1 - attempt);
    WholeContent(Attempts(server, hash, s, identity, item, attempt), identity, item, hash, content);
  }

  lemma WholeContent(r: (State, bool), identity: string, item: Item, hash: Hash, content: Bytes)
    requires r.1 ==> identity in r.0.cache && Valid(r.0.cache[identity], item, hash) && Prefix(r.0.cache[identity], content)
    ensures r.1 && item.bytes == Some(|content|) ==> r.0.cache[identity] == content
  {
    assert content[..|content|] == content;
  }

  /** The content an item stands for never makes its download differ from the authority: a request that is done
      ends the attempts with the content in the cache. */
  lemma AuthorityNeverDiffers(server: Server, hash: Hash, s: State, identity: string, item: Item, attempt: nat, content: Bytes)
    requires 1 <= attempt <= ATTEMPTS && AlwaysHonest(server, identity, content) && PrefixKept(s.temporary, content)
    requires item.bytes == Some(|content|) && item.sha256 == hash(content)
    ensures var asked := Requested(s, identity, Urls(item)[(attempt - 1) % |Urls(item)|]);
      Received(item, s.temporary, server(asked.requests)).1 == Done ==>
        Attempts(server, hash, s, identity, item, attempt) == (asked.(cache := asked.cache[identity := content], temporary := None), true)
  {
    HonestRequest(server, s, identity, item, Urls(item)[(attempt - 1) % |Urls(item)|], content);
  }

  // ---- requests, and what the cache holds ----

  /** The requests of `t` are those of `s` and at most `limit` more for the item, over its addresses in turn
      from the `first` one on. */
  ghost predicate Asks(s: State, t: State, identity: string, item: Item, first: nat, limit: int) {
    && |s.requests| <= |t.requests| <= |s.requests| + limit && t.requests[..|s.requests|] == s.requests
    && forall j | |s.requests| <= j < |t.requests| ::
         t.requests[j].identity == identity
         && t.requests[j].url == ([item.url] + item.mirrors)[(first + j - |s.requests|) % (1 + |item.mirrors|)]
  }

  /** The content has the declared hash and, if one is declared, the declared size. */
  predicate Declared(content: Bytes, item: Item, hash: Hash) {
    hash(content) == item.sha256 && (item.bytes == None || item.bytes == Some(|content|))
  }

  lemma ValidIsDeclared(content: Bytes, item: Item, hash: Hash)
    ensures Valid(content, item, hash) <==> Declared(content, item, hash)
  {
  }

  /** Only the item's own file changes, and only to declared content. */
  ghost predicate CacheKept(s: State, t: State, identity: string, item: Item, hash: Hash) {
    && (forall id | id in s.cache :: id in t.cache && (id != identity ==> t.cache[id] == s.cache[id]))
    && (forall id | id in t.cache && id != identity :: id in s.cache)
    && (identity in t.cache ==> Declared(t.cache[identity], item, hash) || (identity in s.cache && t.cache[identity] == s.cache[identity]))
  }

  /** A call asked at most `limit` times, and left declared content or the cache as it was. */
  ghost predicate Does(s: State, r: (State, bool), identity: string, item: Item, hash: Hash, first: nat, limit: int) {
    && Asks(s, r.0, identity, item, first, limit)
    && CacheKept(s, r.0, identity, item, hash)
    && (r.1 ==> identity in r.0.cache && Declared(r.0.cache[identity], item, hash))
    && (!r.1 ==> r.0.cache == s.cache)
  }

  /** One attempt that ends the call. */
  lemma LastAttempt(s: State, asked: State, r: (State, bool), identity: string, item: Item, hash: Hash, first: nat, limit: int)
    requires asked == Requested(s, identity, Urls(item)[first % |Urls(item)|]) && limit >= 1
    requires r.0.requests == asked.requests
    requires if r.1 then identity in r.0.cache && Declared(r.0.cache[identity], item, hash) && r.0.cache == s.cache[identity := r.0.cache[identity]]
             else r.0.cache == s.cache
    ensures Does(s, r, identity, item, hash, first, limit)
  {
  }

  lemma EndedDoes(s: State, asked: State, received: (Option<Bytes>, Outcome), identity: string, item: Item, hash: Hash, first: nat, limit: int)
    requires asked == Requested(s, identity, Urls(item)[first % |Urls(item)|]) && limit >= 1
    ensures Does(s, Ended(hash, asked, received, identity, item), identity, item, hash, first, limit)
  {
    LastAttempt(s, asked, Ended(hash, asked, received, identity, item), identity, item, hash, first, limit);
  }

  /** One attempt, and then those after it. */
  lemma FirstAttempt(s: State, next: State, r: (State, bool), identity: string, item: Item, hash: Hash, first: nat, limit: int)
    requires next.requests == Requested(s, identity, Urls(item)[first % |Urls(item)|]).requests && next.cache == s.cache
    requires Does(next, r, identity, item, hash, first + 1, limit - 1)
    ensures Does(s, r, identity, item, hash, first, limit)
  {
    AskedFirst(s, next, r.0, identity, item, first, limit);
  }

  lemma AskedFirst(s: State, next: State, t: State, identity: string, item: Item, first: nat, limit: int)
    requires next.requests == s.requests + [Request(identity, Urls(item)[first % |Urls(item)|], SizeOf(s.temporary))]
    requires Asks(next, t, identity, item, first + 1, limit - 1)
    ensures Asks(s, t, identity, item, first, limit)
  {
    assert t.requests[..|s.requests|] == t.requests[..|next.requests|][..|s.requests|];
    assert t.requests[|s.requests|] == t.requests[..|next.requests|][|s.requests|];
  }

  /** The attempts from `attempt` on, as the ones after the `first`. */
  lemma {:induction false} AttemptsDo(server: Server, hash: Hash, s: State, identity: string, item: Item, attempt: nat, first: nat, limit: nat)
    requires 1 <= attempt <= ATTEMPTS && first == attempt - 1 && limit == ATTEMPTS - first
    ensures Does(s, Attempts(server, hash, s, identity, item, attempt), identity, item, hash, first, limit)
    decreases ATTEMPTS - attempt
  {
    var asked := Requested(s, identity, Urls(item)[first % |Urls(item)|]);
    var received := Received(item, s.temporary, server(asked.requests));
    if received.1 == Retry && attempt < ATTEMPTS {
      var next := asked.(temporary := received.0);
      var r := Attempts(server, hash, next, identity, item, attempt + 1);
      AttemptsDo(server, hash, next, identity, item, attempt + 1, first + 1, limit - 1);
      FirstAttempt(s, next, r, identity, item, hash, first, limit);
    } else {
      EndedDoes(s, asked, received, identity, item, hash, first, limit);
    }
  }

  lemma ItemDoes(server: Server, hash: Hash, s: State, identity: string, item: Item)
    ensures Does(s, AcquireItem(server, hash, s, identity, item), identity, item, hash, 0, 4)
  {
    if item.local == Ok(None) && !(identity in s.cache && Valid(s.cache[identity], item, hash)) {
      AttemptsDo(server, hash, s.(temporary := None), identity, item, 1, 0, ATTEMPTS);
      SameDoes(s, AcquireItem(server, hash, s, identity, item), identity, item, hash);
    } else {
      assert s.requests[..|s.requests|] == s.requests;
    }
  }

  lemma SameDoes(s: State, r: (State, bool), identity: string, item: Item, hash: Hash)
    requires Does(s.(temporary := None), r, identity, item, hash, 0, ATTEMPTS)
    ensures Does(s, r, identity, item, hash, 0, ATTEMPTS)
  {
  }

  predicate DistinctItems(items: seq<(string, Item)>) {
    forall i, j | 0 <= i < j < |items| :: items[i].0 != items[j].0
  }

  // ---- how each request and each item ends ----

  /** A body is too much exactly when all of it, behind what is there, is more than declared. */
  lemma {:induction false} TooMuch(file: Bytes, chunks: seq<Bytes>, expected: Option<nat>)
    ensures Written(file, chunks, expected).1
       <==> expected.Some? && Body(chunks) != [] && |file| + |Body(chunks)| > expected.value
    ensures !Written(file, chunks, expected).1 ==> Written(file, chunks, expected).0 == file + Body(chunks)
    decreases |chunks|
  {
    if chunks == [] || chunks[0] == [] {
      assert file + Body(chunks) == file;
    } else {
      TooMuch(file + chunks[0], chunks[1..], expected);
      assert file + Body(chunks) == (file + chunks[0]) + Body(chunks[1..]);
    }
  }

  /** The whole content that an accepted response stands for: what is there already, if it resumes, and its body. */
  function Total(temporary: Option<Bytes>, response: Response): Bytes
    requires response.Answer?
  {
    (if temporary.Some? && temporary.value != [] && response.status == 206 then temporary.value else []) + Body(response.chunks)
  }

  /** How an accepted response ends: too much is refused; a body cut off by a retried failure, or shorter than
      declared, is retried; one that is done is there in full. */
  lemma AcceptedEnds(item: Item, temporary: Option<Bytes>, response: Response)
    requires Writes(item, temporary, response)
    ensures var total, r := Total(temporary, response), Received(item, temporary, response);
      var cut := response.ending != Eof && [] !in response.chunks;
      if item.bytes.Some? && Body(response.chunks) != [] && |total| > item.bytes.value then r.1 == Abort
      else
        && r.0 == Some(total)
        && r.1 == (if cut then (if response.ending == Broken then Retry else Abort)
                   else if item.bytes.Some? && |total| != item.bytes.value then Retry
                   else Done)
  {
    var base := if Resumes(temporary, response.status) then temporary.value else [];
    TooMuch(base, response.chunks, item.bytes);
    assert Total(temporary, response) == base + Body(response.chunks);
  }

  /** No other response writes anything: a refused request may be retried, a redirect out of the allowed hosts and a
      wrong range end the call, and a wrong range loses the temporary file. */
  lemma NotAcceptedEnds(item: Item, temporary: Option<Bytes>, response: Response)
    requires !Writes(item, temporary, response)
    ensures var r := Received(item, temporary, response);
      match response
      case Refused(retried) => r == (temporary, if retried then Retry else Abort)
      case Answer(trusted, _, _, _, _) => r == (if trusted then None else temporary, Abort)
  {
  }

  /** A range is accepted exactly when it starts at the offset asked for and names the declared total. */
  lemma RangeExactly(contentRange: string, offset: nat, expected: Option<nat>)
    ensures RangeAccepted(contentRange, offset, expected)
       <==> "bytes " + Decimal(offset) + "-" <= contentRange
            && exists i | 0 <= i <= |contentRange| ::
                 (if expected.Some? then "/" + Decimal(expected.value) else "/") <= contentRange[i..]
  {
  }

  /** A request that is done ends the call: with the content cached if it is the declared one, and otherwise with
      the cache as it was; a retried one is followed by another request while fewer than four were made. */
  lemma AttemptExactly(server: Server, hash: Hash, s: State, identity: string, item: Item, attempt: nat)
    requires 1 <= attempt <= 4
    ensures var asked := Requested(s, identity, ([item.url] + item.mirrors)[(attempt - 1) % (1 + |item.mirrors|)]);
      var received := Received(item, s.temporary, server(asked.requests));
      var r := Attempts(server, hash, s, identity, item, attempt);
      match received.1
      case Done =>
        received.0.Some? && (
          if hash(received.0.value) == item.sha256 && (item.bytes.Some? ==> |received.0.value| == item.bytes.value)
          then r == (asked.(cache := asked.cache[identity := received.0.value], temporary := None), true)
          else r == (asked.(temporary := None), false))
      case Abort => r == (asked.(temporary := received.0), false)
      case Retry =>
        if attempt == 4 then r == (asked.(temporary := None), false)
        else r == Attempts(server, hash, asked.(temporary := received.0), identity, item, attempt + 1)
             && |r.0.requests| > |asked.requests|
  {
    var asked := Requested(s, identity, ([item.url] + item.mirrors)[(attempt - 1) % (1 + |item.mirrors|)]);
    var received := Received(item, s.temporary, server(asked.requests));
    if received.1 == Retry && attempt < 4 {
      AsksAgain(server, hash, asked.(temporary := received.0), identity, item, attempt + 1);
    }
  }

  lemma AsksAgain(server: Server, hash: Hash, s: State, identity: string, item: Item, attempt: nat)
    requires 1 <= attempt <= 4
    ensures |Attempts(server, hash, s, identity, item, attempt).0.requests| > |s.requests|
  {
    var asked := Requested(s, identity, Urls(item)[(attempt - 1) % |Urls(item)|]);
    var received := Received(item, s.temporary, server(asked.requests));
    if received.1 == Retry && attempt < ATTEMPTS {
      AttemptsDo(server, hash, asked.(temporary := received.0), identity, item, attempt + 1, attempt, ATTEMPTS - attempt);
    }
  }

  /** What happens without a request: a bad declaration is refused, a declared file in the cache is kept, and a file
      of the repository is cached exactly when it is the declared one. */
  lemma ItemExactly(server: Server, hash: Hash, s: State, identity: string, item: Item)
    ensures var r := AcquireItem(server, hash, s, identity, item);
      if item.local.Err? then r == (s, false)
      else if identity in s.cache && Declared(s.cache[identity], item, hash) then r == (s, true)
      else if item.local.value.Some? then
        var content := item.local.value.value;
        r == if Declared(content, item, hash)
             then (s.(cache := s.cache[identity := content], temporary := None), true)
             else (s.(temporary := None), false)
      else r == Attempts(server, hash, s.(temporary := None), identity, item, 1)
  {
  }

  /** When a run returns normally every declared file is in the cache with its size and hash; whether or not it
      does, no request went beyond four for an item, and files of other names are as they were. */
  lemma {:induction false} RunsLeaveValidFiles(server: Server, hash: Hash, s: State, items: seq<(string, Item)>)
    requires DistinctItems(items)
    ensures var r := AcquireAll(server, hash, s, items);
      && |s.requests| <= |r.0.requests| <= |s.requests| + 4 * |items|
      && (forall id | id in s.cache && (forall i | 0 <= i < |items| :: items[i].0 != id) :: id in r.0.cache && r.0.cache[id] == s.cache[id])
      && (r.1 ==> forall i | 0 <= i < |items| ::
            && items[i].0 in r.0.cache && hash(r.0.cache[items[i].0]) == items[i].1.sha256
            && (items[i].1.bytes.Some? ==> |r.0.cache[items[i].0]| == items[i].1.bytes.value))
    decreases |items|
  {
    if items != [] {
      var first := AcquireItem(server, hash, s, items[0].0, items[0].1);
      ItemDoes(server, hash, s, items[0].0, items[0].1);
      var rest := items[1..];
      assert forall i | 0 <= i < |rest| :: rest[i] == items[i + 1];
      if first.1 {
        RunsLeaveValidFiles(server, hash, first.0, rest);
        var r := AcquireAll(server, hash, first.0, rest);
        assert forall i | 0 <= i < |rest| :: rest[i].0 != items[0].0;
        assert items[0].0 in r.0.cache && r.0.cache[items[0].0] == first.0.cache[items[0].0];
      }
    }
  }

  /** A second run finds everything valid: it makes no request and changes nothing. */
  lemma {:induction false} ValidFilesAreKept(server: Server, hash: Hash, s: State, items: seq<(string, Item)>)
    requires forall i | 0 <= i < |items| ::
      items[i].1.local.Ok? && items[i].0 in s.cache && Valid(s.cache[items[i].0], items[i].1, hash)
    ensures AcquireAll(server, hash, s, items) == (s, true)
    decreases |items|
  {
    if items != [] {
      assert forall i | 0 <= i < |items[1..]| :: items[1..][i] == items[i + 1];
      ValidFilesAreKept(server, hash, s, items[1..]);
    }
  }
}
