/** Downloads of exact size and hash, resumed over attempts and mirrors. */
module Acquire {
  import opened Wrappers
  import opened Bytes
  import opened Numerals

  const ATTEMPTS: nat := 4

  type Digest = string

  type Hash = Bytes -> Digest

  /** A declared download; `local` is what checking the declaration gives: an error, a file of the
      repository, or neither. */
  datatype Item = Item(bytes: Option<nat>, sha256: Digest, url: string, mirrors: seq<string>, local: Result<Option<Bytes>>)

  datatype Request = Request(identity: string, url: string, offset: nat)

  /** How reading a body ends: at its end, with a failure that is retried, or with another one. An empty
      chunk is the end as well. */
  datatype Ending = Eof | Broken | Crashed

  /** No response, which is retried or not, or a response and the chunks of its body. */
  datatype Response =
    | Refused(retried: bool)
    | Answer(trusted: bool, status: int, contentRange: string, chunks: seq<Bytes>, ending: Ending)

  /** A server answers a request in view of all requests before it. */
  type Server = seq<Request> -> Response

  datatype Outcome = Done | Retry | Abort

  // ---- one request ----

  predicate Within(part: string, whole: string) {
    exists i | 0 <= i <= |whole| :: part <= whole[i..]
  }

  predicate RangeAccepted(contentRange: string, offset: nat, expected: Option<nat>) {
    && "bytes " + Decimal(offset) + "-" <= contentRange
    && Within(if expected.Some? then "/" + Decimal(expected.value) else "/", contentRange)
  }

  predicate Exceeds(total: nat, expected: Option<nat>) {
    expected.Some? && total > expected.value
  }

  /** The file after the chunks up to the first empty one, and whether one of them was too much. */
  function Written(file: Bytes, chunks: seq<Bytes>, expected: Option<nat>): (Bytes, bool)
    decreases |chunks|
  {
    if chunks == [] || chunks[0] == [] then (file, false)
    else if Exceeds(|file| + |chunks[0]|, expected) then (file, true)
    else Written(file + chunks[0], chunks[1..], expected)
  }

  function SizeOf(temporary: Option<Bytes>): nat {
    if temporary.Some? then |temporary.value| else 0
  }

  predicate Resumes(temporary: Option<Bytes>, status: int) {
    SizeOf(temporary) > 0 && status == 206
  }

  /** What a response leaves in the temporary file, and how the request ends. */
  function Received(item: Item, temporary: Option<Bytes>, response: Response): (Option<Bytes>, Outcome) {
    match response
    case Refused(retried) => (temporary, if retried then Retry else Abort)
    case Answer(trusted, status, contentRange, chunks, ending) =>
      if !trusted then (temporary, Abort)
      else if Resumes(temporary, status) && !RangeAccepted(contentRange, SizeOf(temporary), item.bytes) then (None, Abort)
      else
        var written := Written(if Resumes(temporary, status) then temporary.value else [], chunks, item.bytes);
        (Some(written.0), EndOf(item, written, if [] in chunks then Eof else ending))
  }

  function EndOf(item: Item, written: (Bytes, bool), ending: Ending): Outcome {
    if written.1 then Abort
    else
      match ending
      case Broken => Retry
      case Crashed => Abort
      case Eof => if item.bytes.Some? && item.bytes.value != |written.0| then Retry else Done
  }

  predicate Valid(content: Bytes, item: Item, hash: Hash) {
    (item.bytes.Some? ==> |content| == item.bytes.value) && hash(content) == item.sha256
  }

  // ---- one item ----

  function Urls(item: Item): (urls: seq<string>)
    ensures urls != []
  {
    [item.url] + item.mirrors
  }

  /** The cache, the temporary file and the requests made so far. */
  datatype State = State(cache: map<string, Bytes>, temporary: Option<Bytes>, requests: seq<Request>)

  function Requested(s: State, identity: string, url: string): State {
    s.(requests := s.requests + [Request(identity, url, SizeOf(s.temporary))])
  }

  /** The attempts from `attempt` on: the state afterwards, and whether the call returned normally. */
  function Attempts(server: Server, hash: Hash, s: State, identity: string, item: Item, attempt: nat): (State, bool)
    requires 1 <= attempt <= ATTEMPTS
    decreases ATTEMPTS - attempt
  {
    var urls := Urls(item);
    var asked := Requested(s, identity, urls[(attempt - 1) % |urls|]);
    var received := Received(item, s.temporary, server(asked.requests));
    if received.1 == Retry && attempt < ATTEMPTS
    then Attempts(server, hash, asked.(temporary := received.0), identity, item, attempt + 1)
    else Ended(hash, asked, received, identity, item)
  }

  /** How the call ends that makes no further attempt. */
  function Ended(hash: Hash, asked: State, received: (Option<Bytes>, Outcome), identity: string, item: Item): (State, bool) {
    match received.1
    case Abort => (asked.(temporary := received.0), false)
    case Retry => (asked.(temporary := None), false)
    case Done =>
      if received.0.Some? && Valid(received.0.value, item, hash)
      then (asked.(cache := asked.cache[identity := received.0.value], temporary := None), true)
      else (asked.(temporary := None), false)
  }

  function AcquireItem(server: Server, hash: Hash, s: State, identity: string, item: Item): (State, bool) {
    match item.local
    case Err => (s, false)
    case Ok(local) =>
      if identity in s.cache && Valid(s.cache[identity], item, hash) then (s, true)
      else
        match local
        case Some(content) =>
          if Valid(content, item, hash) then (s.(cache := s.cache[identity := content], temporary := None), true)
          else (s.(temporary := None), false)
        case None => Attempts(server, hash, s.(temporary := None), identity, item, 1)
  }

  /** The items in the order given, up to the first failure. */
  function AcquireAll(server: Server, hash: Hash, s: State, items: seq<(string, Item)>): (State, bool)
    decreases |items|
  {
    if items == [] then (s, true)
    else
      var first := AcquireItem(server, hash, s, items[0].0, items[0].1);
      if first.1 then AcquireAll(server, hash, first.0, items[1..]) else first
  }

  /** The cache directory as downloads change it. */
  class Cache {
    var files: map<string, Bytes>
    var temporary: Option<Bytes>
    var requests: seq<Request>
    const server: Server
    const hash: Hash

    ghost function View(): State
      reads this
    {
      State(files, temporary, requests)
    }

    constructor (files: map<string, Bytes>, temporary: Option<Bytes>, server: Server, hash: Hash)
      ensures View() == State(files, temporary, []) && this.server == server && this.hash == hash
    {
      this.files, this.temporary, this.requests, this.server, this.hash := files, temporary, [], server, hash;
    }

    method DownloadOnce(identity: string, item: Item, url: string) returns (outcome: Outcome)
      modifies this
      ensures var asked := Requested(old(View()), identity, url);
        var received := Received(item, old(temporary), server(asked.requests));
        outcome == received.1 && View() == asked.(temporary := received.0)
    {
      var offset := SizeOf(temporary);
      requests := requests + [Request(identity, url, offset)];
      match server(requests) {
        case Refused(retried) => return if retried then Retry else Abort;
        case Answer(trusted, status, contentRange, chunks, ending) =>
          if !trusted { return Abort; }
          if offset > 0 && status == 206 {
            if !RangeAccepted(contentRange, offset, item.bytes) {
              temporary := None;
              return Abort;
            }
          } else {
            temporary := Some([]);
          }
          var exceeded, ended := WriteChunks(chunks, item.bytes);
          return EndOf(item, (temporary.value, exceeded), if ended then Eof else ending);
      }
    }

    /** The chunks of a body appended until they are too much or `ended` with an empty one. */
    method WriteChunks(chunks: seq<Bytes>, expected: Option<nat>) returns (exceeded: bool, ended: bool)
      requires temporary.Some?
      modifies this`temporary
      ensures temporary == Some(Written(old(temporary).value, chunks, expected).0)
      ensures exceeded == Written(old(temporary).value, chunks, expected).1
      ensures !exceeded ==> (ended <==> [] in chunks)
    {
      var total := |temporary.value|;
      var i := 0;
      while i < |chunks| && chunks[i] != []
        invariant 0 <= i <= |chunks| && temporary.Some? && total == |temporary.value| && [] !in chunks[..i]
        invariant Written(old(temporary).value, chunks, expected) == Written(temporary.value, chunks[i..], expected)
      {
        total := total + |chunks[i]|;
        if expected.Some? && total > expected.value {
          return true, false;
        }
        assert chunks[i..][1..] == chunks[i + 1..];
        temporary := Some(temporary.value + chunks[i]);
        i := i + 1;
      }
      return false, i < |chunks|;
    }

    method Fetch(identity: string, item: Item) returns (ok: bool)
      modifies this
      ensures (View(), ok) == Attempts(server, hash, old(View()), identity, item, 1)
    {
      var urls := Urls(item);
      ghost var all := Attempts(server, hash, View(), identity, item, 1);
      var attempt := 1;
      while attempt <= ATTEMPTS
        invariant 1 <= attempt <= ATTEMPTS
        invariant all == Attempts(server, hash, View(), identity, item, attempt)
        decreases ATTEMPTS - attempt
      {
        var outcome := DownloadOnce(identity, item, urls[(attempt - 1) % |urls|]);
        match outcome {
          case Abort => return false;
          case Retry =>
            if attempt == ATTEMPTS {
              temporary := None;
              return false;
            }
            attempt := attempt + 1;
          case Done =>
            if temporary.None? || !Valid(temporary.value, item, hash) {
              temporary := None;
              return false;
            }
            files := files[identity := temporary.value];
            temporary := None;
            return true;
        }
      }
    }

    method AcquireOne(identity: string, item: Item) returns (ok: bool)
      modifies this
      ensures (View(), ok) == AcquireItem(server, hash, old(View()), identity, item)
    {
      if item.local.Err? {
        return false;
      }
      if identity in files && Valid(files[identity], item, hash) {
        return true;
      }
      temporary := None;
      if item.local.value.Some? {
        temporary := item.local.value;
        if !Valid(temporary.value, item, hash) {
          temporary := None;
          return false;
        }
        files := files[identity := temporary.value];
        temporary := None;
        return true;
      }
      ok := Fetch(identity, item);
    }

    method Acquire(items: seq<(string, Item)>) returns (ok: bool)
      modifies this
      ensures (View(), ok) == AcquireAll(server, hash, old(View()), items)
    {
      ghost var all := AcquireAll(server, hash, View(), items);
      for i := 0 to |items|
        invariant all == AcquireAll(server, hash, View(), items[i..])
      {
        assert items[i..][1..] == items[i + 1..];
        var done := AcquireOne(items[i].0, items[i].1);
        if !done {
          return false;
        }
      }
      return true;
    }
  }
}
