/** Downloading one chunk: from the snapshot cache if what is there has the right id, else from the storage. */
module ChunkDownload {
  import opened Common
  import opened Buzhash
  import opened Chunking

  const MaxDownloadAttempts: nat := 3

  /** Looking for a file, and what reading it gives. */
  datatype Lookup = FindFailed | Missing | ReadFailed(truncated: bool) | Found(content: Bytes)

  /** What the storage answers at one attempt, about the chunk and about its fossil. */
  datatype Answer = Answer(chunk: Lookup, fossil: Lookup)

  /** How chunks are named and stored, and how reliable the storage is. */
  datatype Operator<!Id(==)> = Operator(
    id: Bytes -> Id, decrypt: Bytes -> Option<Bytes>, isHubic: bool, isWebDAV: bool, rawData: bool, allowFailures: bool)

  datatype Attempt = Good(content: Bytes) | Retry | GiveUp

  /** One attempt to get the chunk from the storage, where it may be a fossil. */
  function Try<Id>(op: Operator<Id>, chunkID: Id, answer: Answer): (a: Attempt)
    ensures a.Good? && !op.rawData ==> op.id(a.content) == chunkID
  {
    var file := if answer.chunk.Missing? then answer.fossil else answer.chunk;
    match file
    case FindFailed => GiveUp
    case Missing => if op.isHubic || op.isWebDAV then Retry else GiveUp
    case ReadFailed(truncated) => if truncated || op.isHubic then Retry else GiveUp
    case Found(stored) =>
      if op.rawData then Good(stored)
      else match op.decrypt(stored)
        case None => Retry
        case Some(content) => if op.id(content) == chunkID then Good(content) else Retry
  }

  /** The first attempt that succeeds, if only attempts to be repeated come before it. */
  function Fetch<Id>(op: Operator<Id>, chunkID: Id, answers: nat -> Answer, attempt: nat): Option<Bytes>
    requires attempt <= MaxDownloadAttempts
    decreases MaxDownloadAttempts - attempt
  {
    match Try(op, chunkID, answers(attempt))
    case Good(content) => Some(content)
    case Retry => if attempt < MaxDownloadAttempts then Fetch(op, chunkID, answers, attempt + 1) else None
    case GiveUp => None
  }

  /** It is the first one, and there are at most four. */
  lemma {:induction false} FetchIsFirst<Id>(op: Operator<Id>, chunkID: Id, answers: nat -> Answer, attempt: nat)
    requires attempt <= MaxDownloadAttempts
    ensures Fetch(op, chunkID, answers, attempt).Some? <==>
      exists k :: attempt <= k <= MaxDownloadAttempts && Try(op, chunkID, answers(k)).Good? &&
        forall j :: attempt <= j < k ==> Try(op, chunkID, answers(j)).Retry?
    ensures Fetch(op, chunkID, answers, attempt).Some? && !op.rawData ==>
      op.id(Fetch(op, chunkID, answers, attempt).value) == chunkID
    decreases MaxDownloadAttempts - attempt
  {
    if Try(op, chunkID, answers(attempt)).Retry? && attempt < MaxDownloadAttempts {
      FetchIsFirst(op, chunkID, answers, attempt + 1);
    }
  }

  // ------------------------------------------------------------------ what the answers amount to

  /** The storage has the chunk, or, if not, its fossil. */
  ghost predicate Stores(answer: Answer, stored: Bytes) {
    answer.chunk == Found(stored) || (answer.chunk == Missing && answer.fossil == Found(stored))
  }

  /** What the storage has is the chunk asked for. */
  ghost predicate Yields<Id>(op: Operator<Id>, chunkID: Id, answer: Answer, content: Bytes) {
    if op.rawData then Stores(answer, content)
    else exists stored :: Stores(answer, stored) && op.decrypt(stored) == Some(content) && op.id(content) == chunkID
  }

  /** It is something else, or cannot be decrypted. */
  ghost predicate Spoilt<Id>(op: Operator<Id>, chunkID: Id, answer: Answer) {
    !op.rawData &&
    exists stored :: Stores(answer, stored) && (op.decrypt(stored).Some? ==> op.id(op.decrypt(stored).value) != chunkID)
  }

  /** Reading the chunk, or its fossil if there is no chunk, has failed. */
  ghost predicate Unread(answer: Answer, truncated: bool) {
    answer.chunk == ReadFailed(truncated) || (answer.chunk == Missing && answer.fossil == ReadFailed(truncated))
  }

  /** The storage is asked again: what it has is spoilt, or it is known to fail in this way. */
  ghost predicate AsksAgain<Id>(op: Operator<Id>, chunkID: Id, answer: Answer) {
    Spoilt(op, chunkID, answer) || Unread(answer, true) || (Unread(answer, false) && op.isHubic) ||
    (answer == Answer(Missing, Missing) && (op.isHubic || op.isWebDAV))
  }

  lemma TryMeans<Id>(op: Operator<Id>, chunkID: Id, answer: Answer)
    ensures forall content :: Try(op, chunkID, answer) == Good(content) <==> Yields(op, chunkID, answer, content)
    ensures Try(op, chunkID, answer).Retry? <==> AsksAgain(op, chunkID, answer)
  {
    var file := if answer.chunk.Missing? then answer.fossil else answer.chunk;
    if file.Found? { assert Stores(answer, file.content); }
  }

  /** At the `k`-th attempt the chunk is there, and not before, though the storage is asked again each time. */
  ghost predicate YieldsAt<Id>(op: Operator<Id>, chunkID: Id, answers: nat -> Answer, k: nat, content: Bytes) {
    Yields(op, chunkID, answers(k), content) && forall j :: 0 <= j < k ==> AsksAgain(op, chunkID, answers(j))
  }

  ghost predicate YieldsInTime<Id>(op: Operator<Id>, chunkID: Id, answers: nat -> Answer) {
    exists k, content :: 0 <= k < 4 && YieldsAt(op, chunkID, answers, k, content)
  }

  /** The chunk is fetched exactly if it is there at one of four attempts. */
  lemma FetchYields<Id>(op: Operator<Id>, chunkID: Id, answers: nat -> Answer)
    ensures Fetch(op, chunkID, answers, 0).Some? <==> YieldsInTime(op, chunkID, answers)
    ensures forall k, content :: 0 <= k < 4 && YieldsAt(op, chunkID, answers, k, content) ==>
      Fetch(op, chunkID, answers, 0) == Some(content)
  {
    forall k: nat ensures forall content :: Try(op, chunkID, answers(k)) == Good(content) <==>
                                             Yields(op, chunkID, answers(k), content)
      ensures Try(op, chunkID, answers(k)).Retry? <==> AsksAgain(op, chunkID, answers(k))
    {
      TryMeans(op, chunkID, answers(k));
    }
    FetchIsFirst(op, chunkID, answers, 0);
    forall k, content | 0 <= k < 4 && YieldsAt(op, chunkID, answers, k, content)
      ensures Fetch(op, chunkID, answers, 0) == Some(content)
    {
      FetchAt(op, chunkID, answers, 0, k, content);
    }
    if Fetch(op, chunkID, answers, 0).Some? {
      var k :| 0 <= k <= MaxDownloadAttempts && Try(op, chunkID, answers(k)).Good? &&
        forall j :: 0 <= j < k ==> Try(op, chunkID, answers(j)).Retry?;
      assert YieldsAt(op, chunkID, answers, k, Try(op, chunkID, answers(k)).content);
    }
  }

  lemma {:induction false} FetchAt<Id>(op: Operator<Id>, chunkID: Id, answers: nat -> Answer, attempt: nat, k: nat,
                                       content: Bytes)
    requires attempt <= k <= MaxDownloadAttempts && Try(op, chunkID, answers(k)) == Good(content)
    requires forall j :: attempt <= j < k ==> Try(op, chunkID, answers(j)).Retry?
    ensures Fetch(op, chunkID, answers, attempt) == Some(content)
    decreases k - attempt
  {
    if attempt < k { FetchAt(op, chunkID, answers, attempt + 1, k, content); }
  }

  datatype Outcome = Delivered(content: Bytes) | Broken | Aborted

  /**
   Download a chunk.  Whatever the cache holds, what is delivered, unless raw bytes are asked for, has the id of the
   chunk. Unless the cache has it, the storage decides: the chunk is delivered if and only if the storage has it, or its
   fossil, at one of four attempts, and gives a reason to ask again at all those before.
   */
  method DownloadChunk<Id>(op: Operator<Id>, chunkID: Id, isMetadata: bool, cacheNeeded: bool, cached: Lookup,
                           answers: nat -> Answer)
    returns (outcome: Outcome, newCache: Option<Bytes>)
    ensures outcome.Delivered? && !op.rawData ==> op.id(outcome.content) == chunkID
    ensures isMetadata && cacheNeeded && cached.Found? && op.id(cached.content) == chunkID ==>
      outcome == Delivered(cached.content) && newCache.None?
    ensures !(isMetadata && cacheNeeded && cached.Found? && op.id(cached.content) == chunkID) ==>
      (forall k, content :: 0 <= k < 4 && YieldsAt(op, chunkID, answers, k, content) ==>
         outcome == Delivered(content)) &&
      (!YieldsInTime(op, chunkID, answers) ==> outcome == if op.allowFailures then Broken else Aborted)
    ensures newCache == if outcome.Delivered? && isMetadata && cacheNeeded && !cached.FindFailed? &&
                           !(cached.Found? && op.id(cached.content) == chunkID)
                        then Some(outcome.content) else None
  {
    FetchYields(op, chunkID, answers);
    var cachedPath := false;
    newCache := None;
    if isMetadata && cacheNeeded {
      cachedPath := !cached.FindFailed?;
      if cached.Found? && op.id(cached.content) == chunkID {
        return Delivered(cached.content), None;
      }
    }
    var attempt: nat := 0;
    while true
      invariant attempt <= MaxDownloadAttempts && Fetch(op, chunkID, answers, 0) == Fetch(op, chunkID, answers, attempt)
      decreases MaxDownloadAttempts - attempt
    {
      var a := Try(op, chunkID, answers(attempt));
      if a.Good? {
        outcome := Delivered(a.content);
        break;
      }
      if a.GiveUp? || attempt == MaxDownloadAttempts {
        return if op.allowFailures then Broken else Aborted, None;
      }
      attempt := attempt + 1;
    }
    if isMetadata && cachedPath {
      newCache := Some(outcome.content);
    }
  }

  /** If names are not shared, only one content can be delivered, and the cache never holds another. */
  method DownloadIsRight<Id>(op: Operator<Id>, content: Bytes, isMetadata: bool, cacheNeeded: bool, cached: Lookup,
                             answers: nat -> Answer)
    returns (outcome: Outcome, newCache: Option<Bytes>)
    requires !op.rawData && forall other :: op.id(other) == op.id(content) ==> other == content
    ensures outcome.Delivered? ==> outcome.content == content
    ensures newCache.Some? ==> newCache.value == content
  {
    outcome, newCache := DownloadChunk(op, op.id(content), isMetadata, cacheNeeded, cached, answers);
  }
}
