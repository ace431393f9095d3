/** What a server says and what an honest one may say (sections 13.1.5, 14.4 and 15.5.17 of RFC 9110). */
module Server {
  import opened Wrappers
  import opened Text
  import opened Partial
  import ContentRange

  const OK: nat := 200
  const PARTIAL_CONTENT: nat := 206
  const RANGE_NOT_SATISFIABLE: nat := 416

  /** The headers of an attempt that decide the answer: no `Range` at offset zero. */
  datatype Request = Request(offset: nat, ifRange: Option<string>)

  /** No answer at all, or a status, the headers read from it, and a body in chunks that ends whole or breaks off. */
  datatype Reply =
    | NoAnswer(transient: bool)
    | Answer(status: nat, contentRange: Option<string>, contentLength: Option<nat>, etag: Option<string>,
             lastModified: Option<string>, chunks: seq<seq<byte>>, whole: bool)

  /** `base` followed by the first `n` chunks. */
  function Onto(base: seq<byte>, chunks: seq<seq<byte>>, n: nat): seq<byte>
    requires n <= |chunks|
  {
    if n == 0 then base else Onto(base, chunks, n - 1) + chunks[n - 1]
  }

  function Flatten(chunks: seq<seq<byte>>): seq<byte> {
    Onto([], chunks, |chunks|)
  }

  lemma {:induction false} OntoIsConcat(base: seq<byte>, chunks: seq<seq<byte>>, n: nat)
    requires n <= |chunks|
    ensures Onto(base, chunks, n) == base + Onto([], chunks, n)
  {
    if n > 0 {
      OntoIsConcat(base, chunks, n - 1);
    }
  }

  lemma {:induction false} OntoGrows(base: seq<byte>, chunks: seq<seq<byte>>, n: nat, m: nat)
    requires n <= m <= |chunks|
    ensures Onto(base, chunks, n) <= Onto(base, chunks, m)
    decreases m
  {
    if n < m {
      OntoGrows(base, chunks, n, m - 1);
    }
  }

  lemma OntoNone(base: seq<byte>, chunks: seq<seq<byte>>)
    ensures Onto(base, chunks, 0) == base
  {
  }

  lemma OntoStep(base: seq<byte>, chunks: seq<seq<byte>>, n: nat)
    requires n < |chunks|
    ensures Onto(base, chunks, n + 1) == Onto(base, chunks, n) + chunks[n]
  {
  }

  /** A weak validator, which may not be sent back as `If-Range`. */
  predicate IsWeak(etag: string) {
    "W/" <= etag
  }

  lemma WeakExactly(etag: string)
    ensures IsWeak(etag) <==> |etag| >= 2 && etag[0] == 'W' && etag[1] == '/'
  {
  }

  /** The strong `ETag` of an answer. */
  function StrongEtag(reply: Reply): Option<string>
    requires reply.Answer?
  {
    if reply.etag.Some? && IsWeak(reply.etag.value) then None else reply.etag
  }

  /** A validator that is an entity tag, and not a date (section 8.8.3 of RFC 9110). */
  predicate IsTag(validator: string) {
    validator != "" && validator[0] == '"'
  }

  /** The resources behind the URLs. Requests in one realm get at the same resource; a strong `ETag`, or the date it was
      last modified at when it has none, names one version of it, byte for byte. */
  datatype World = World(realm: (string, Option<string>) -> int, version: (int, string) -> seq<byte>)

  /** The bytes of version `name` of what `identity` asks for. */
  ghost function Version(w: World, identity: Identity, name: string): seq<byte> {
    w.version(w.realm(identity.url, identity.resumeKey), name)
  }

  /** `bytes` are one complete version of what `identity` asks for. */
  ghost predicate IsVersion(w: World, identity: Identity, bytes: seq<byte>) {
    exists name :: bytes == Version(w, identity, name)
  }

  /** An entity tag and a date, either of which may be missing, name a version: the tag when there is one. */
  ghost predicate Names(etag: Option<string>, date: Option<string>, name: string) {
    if etag.Some? then etag.value == name && IsTag(name) else date == Some(name) && !IsTag(name)
  }

  /** What an answer with the whole of a version says of it. */
  ghost predicate IsNamed(reply: Reply, name: string)
    requires reply.Answer?
  {
    if reply.etag.Some? && !IsWeak(reply.etag.value) then Names(reply.etag, None, name)
    else Names(None, reply.lastModified, name)
  }

  /** What an answer with a part of it says, which need not repeat the name. */
  ghost predicate MayBeNamed(reply: Reply, name: string)
    requires reply.Answer?
  {
    && (reply.etag.Some? && !IsWeak(reply.etag.value) ==> Names(reply.etag, None, name))
    && (reply.lastModified.Some? && !IsTag(name) ==> reply.lastModified == Some(name))
  }

  /** A caller that shares a key across URLs means the same resource by all of them. */
  ghost predicate SharesOneResource(w: World, identity: Identity) {
    identity.acrossUrls && identity.resumeKey.Some? ==>
      forall url :: w.realm(url, identity.resumeKey) == w.realm(identity.url, identity.resumeKey)
  }

  /** A partial whose sidecar can be read is the start of the version the sidecar names, of the resource it names. */
  ghost predicate StartsAVersion(w: World, disk: Disk)
    reads disk
  {
    disk.Bytes() != [] && disk.sidecar.Holds? ==>
      var s := disk.sidecar.sidecar;
      exists name :: Names(s.etag, s.lastModified, name) && disk.Bytes() <= w.version(w.realm(s.url, s.resumeKey), name)
  }

  /** The body is `content`, or a prefix of it when the stream broke. */
  ghost predicate Carries(reply: Reply, content: seq<byte>)
    requires reply.Answer?
  {
    Flatten(reply.chunks) <= content && (reply.whole ==> Flatten(reply.chunks) == content)
  }

  /** An answer from the version called `name`: the whole of it, or, when the `If-Range` validator lets the range stand,
      the part asked for or the refusal of a range past its end. */
  ghost predicate Serves(w: World, identity: Identity, request: Request, name: string, reply: Reply)
    requires reply.Answer?
  {
    var full := Version(w, identity, name);
    var ranged := request.offset > 0 && (request.ifRange.None? || request.ifRange == Some(name));
    && |full| <= U64_MAX
    && (
         || (reply.status == OK && IsNamed(reply, name) && Carries(reply, full))
         || (&& reply.status == PARTIAL_CONTENT
             && ranged && request.offset < |full|
             && reply.contentRange == Some(ContentRange.RenderRange(request.offset, |full| - 1, |full|))
             && MayBeNamed(reply, name)
             && Carries(reply, full[request.offset..]))
         || (&& reply.status == RANGE_NOT_SATISFIABLE
             && ranged && |full| <= request.offset
             && (reply.contentRange == None || reply.contentRange == Some(ContentRange.RenderUnsatisfied(|full|))))
       )
  }

  ghost predicate IsHonest(w: World, identity: Identity, request: Request, reply: Reply) {
    || reply.NoAnswer?
    || (400 <= reply.status < 600 && reply.status != RANGE_NOT_SATISFIABLE)
    || (reply.status == RANGE_NOT_SATISFIABLE && request.offset == 0)
    || exists name :: Serves(w, identity, request, name, reply)
  }

  /** Every answer to every attempt is honest; the version may change between any two. */
  ghost predicate HonestServer(w: World, identity: Identity, server: (nat, Request) -> Reply) {
    forall attempt, request :: IsHonest(w, identity, request, server(attempt, request))
  }
}

/** One download: attempts, resumption, hashing and promotion (src/fetch/download.rs). */
module Download {
  import opened Wrappers
  import opened Digest
  import opened Partial
  import opened Server
  import ContentRange
  import Text

  datatype Mode = Resume | Overwrite | Skip

  datatype DownloadError = Http(transient: bool) | Io(error: IoError)

  datatype Outcome = Finished(digest: Option<string>) | Failed(error: DownloadError)

  predicate IsRetryable(e: DownloadError) {
    match e
    case Http(transient) => transient
    case Io(error) => !IsFinal(error)
  }

  /** Whether a status that is an error is worth another attempt. */
  predicate IsTransientStatus(status: nat) {
    status >= 500 || status == 408 || status == 429
  }

  /** An error status is followed by another attempt when the server is at fault or asks for patience, and a disk error
      unless it is one of nine. */
  lemma RetriedExactly(status: nat, error: IoError)
    ensures IsRetryable(Http(IsTransientStatus(status))) <==> status == 408 || status == 429 || 500 <= status
    ensures IsRetryable(Io(error)) <==>
              error !in {PermissionDenied, NotFound, ReadOnlyFilesystem, StorageFull, QuotaExceeded, FileTooLarge,
                         IsADirectory, NotADirectory, InvalidInput}
  {
  }

  const PROGRESS_BYTES: nat := 256 * 1024

  /** A copied hash state and the length of the prefix it covers. */
  datatype Checkpoint = Checkpoint(state: int, covers: nat)

  datatype Progress = Progress(total: Option<nat>, downloaded: nat)

  class Transfer {
    const disk: Disk
    const identity: Identity
    const mode: Mode
    const algorithm: Option<Algorithm>
    const server: (nat, Request) -> Reply
    ghost const world: World

    var checkpoint: Option<Checkpoint>
    var progress: Progress

    var completed: bool
    var failed: bool
    var digest: Option<string>

    constructor (disk: Disk, identity: Identity, mode: Mode, algorithm: Option<Algorithm>,
                 server: (nat, Request) -> Reply, ghost world: World)
      ensures this.disk == disk && this.identity == identity && this.mode == mode && this.algorithm == algorithm
      ensures this.server == server && this.world == world && checkpoint == None && digest == None
    {
      this.disk, this.identity, this.mode, this.algorithm := disk, identity, mode, algorithm;
      this.server, this.world := server, world;
      checkpoint, progress := None, Progress(None, 0);
      completed, failed, digest := false, false, None;
    }

    /** The assumptions under which no two versions are ever spliced. */
    ghost predicate Trusted() {
      && disk.orderly
      && SharesOneResource(world, identity)
      && HonestServer(world, identity, server)
    }

    /** A checkpoint the partial still reaches hashes exactly the prefix it claims. */
    ghost predicate CheckpointHolds()
      reads this, disk
    {
      checkpoint.Some? && checkpoint.value.covers <= |disk.Bytes()| ==>
        algorithm.Some? &&
        checkpoint.value.state
        == Absorb(algorithm.value, algorithm.value.start, disk.Bytes()[..checkpoint.value.covers])
    }

    /** Every byte of the partial is of this request's identity. */
    ghost predicate OwnBytes()
      reads disk
    {
      forall i :: 0 <= i < |disk.sources| ==>
        SameIdentity(disk.sources[i], identity.url, identity.resumeKey, disk.shared)
    }

    /** What holds between any two steps of a run. */
    ghost predicate Running()
      reads this, disk
    {
      && disk.Provenance()
      && (identity.acrossUrls && identity.resumeKey.Some? ==> identity.resumeKey.value in disk.shared)
      && (algorithm.None? ==> checkpoint.None?)
      && CheckpointHolds()
      && OwnBytes()
    }

    /** The partial is the start of the version its sidecar names, so an `If-Range` on it is sound. */
    ghost predicate Aligned()
      reads disk
    {
      disk.Bytes() != [] ==>
        && disk.sidecar.Holds?
        && disk.sidecar.sidecar.Matches(identity)
        && exists name ::
             && Names(disk.sidecar.sidecar.etag, disk.sidecar.sidecar.lastModified, name)
             && disk.Bytes() <= Version(world, identity, name)
    }

    /** The hash of the first `offset` bytes, reading back only those a usable checkpoint does not cover. */
    method HashPrefix(offset: nat) returns (hasher: Hasher?)
      requires Running() && algorithm.Some? && offset <= |disk.Bytes()|
      modifies this`checkpoint
      ensures Running() && checkpoint == None
      ensures hasher != null ==>
                fresh(hasher) && hasher.algorithm == algorithm.value &&
                hasher.state == Absorb(algorithm.value, algorithm.value.start, disk.Bytes()[..offset])
      ensures !disk.faults.Arbitrary? ==> hasher != null
    {
      var carried := checkpoint;
      checkpoint := None;
      if carried.None? || carried.value.covers > offset {
        carried := Some(Checkpoint(algorithm.value.start, 0));
      }
      var covered := carried.value.covers;
      var bytes := disk.Bytes();
      var continued := new Hasher(algorithm.value, carried.value.state);
      if covered < offset {
        var ok := continued.UpdateRange(bytes, covered, offset, !disk.faults.Arbitrary?);
        if !ok {
          return null;
        }
        AbsorbConcat(algorithm.value, algorithm.value.start, bytes[..covered], bytes[covered..offset]);
        assert bytes[..covered] + bytes[covered..offset] == bytes[..offset];
      }
      return continued;
    }

    /** A refused range: the partial is the whole resource unless the resource is known to be of another length. */
    method Unsatisfied(offset: nat, recorded: Option<Sidecar>, reply: Reply) returns (r: Outcome)
      requires Running() && disk.part.Some? && offset == |disk.Bytes()| && offset > 0 && reply.Answer?
      modifies this`checkpoint, this`progress, disk`target, disk`part, disk`sidecar, disk`sources
      ensures Running()
      ensures r.Finished? ==> Delivered(r, old(disk.Bytes()))
      ensures r.Failed? ==> disk.target == old(disk.target)
      ensures r.Failed? && IsRetryable(r.error) ==> disk.part == None || disk.sidecar == old(disk.sidecar) || !disk.orderly
      ensures r.Failed? ==> disk.part == None || disk.part == old(disk.part)
      ensures r.Failed? ==> disk.sidecar == Missing || disk.sidecar == old(disk.sidecar)
      ensures !disk.faults.Arbitrary? ==>
                (r.Finished? <==> KnownTotal(recorded, reply) in {None, Some(offset)}) &&
                (r.Failed? ==> disk.part == None && disk.sidecar == Missing && r == Failed(Io(InvalidData)))
    {
      hide ContentRange.UnsatisfiedTotal, Absorb, SameIdentity;
      var total := KnownTotal(recorded, reply);
      if total.Some? && total.value != offset {
        var fault := disk.Discard();
        if fault.Some? {
          return Failed(Io(fault.value));
        }
        checkpoint := None;
        return Failed(Io(InvalidData));
      }
      var digest: Option<string> := None;
      if algorithm.Some? {
        var hasher := HashPrefix(offset);
        if hasher == null {
          return Failed(Io(OtherIo));
        }
        digest := Some(algorithm.value.encode(hasher.state));
        assert disk.Bytes()[..offset] == disk.Bytes();
      }
      var fault := disk.Promote();
      if fault.Some? {
        return Failed(Io(fault.value));
      }
      progress := Progress(Some(offset), offset);
      return Finished(digest);
    }

    /** Mid-stream: the partial and the writer's buffer together are `body`, under this request's sidecar. */
    ghost predicate Writing(pending: seq<byte>, body: seq<byte>)
      reads this, disk
    {
      && Running()
      && disk.part.Some?
      && disk.Bytes() + pending == body
      && disk.sidecar.Holds?
      && disk.sidecar.sidecar.url == identity.url && disk.sidecar.sidecar.resumeKey == identity.resumeKey
      && (checkpoint.Some? ==> checkpoint.value.covers <= |disk.Bytes()|)
    }

    /** The hash, when one was asked for, covers exactly `body`. */
    ghost predicate Hashing(hasher: Hasher?, body: seq<byte>)
      reads hasher
    {
      && (hasher == null <==> algorithm.None?)
      && (hasher != null ==>
            hasher.algorithm == algorithm.value &&
            hasher.state == Absorb(algorithm.value, algorithm.value.start, body))
    }

    /** Moves the first `n` buffered bytes to the partial. */
    method Spill(pending: seq<byte>, n: nat, ghost body: seq<byte>) returns (fault: Option<IoError>)
      requires Writing(pending, body) && n <= |pending|
      modifies disk`part, disk`sources
      ensures Running() && old(disk.Bytes()) <= disk.Bytes() <= body
      ensures fault.None? ==> Writing(pending[n..], body)
      ensures fault.Some? ==> disk.faults.Arbitrary?
    {
      fault := disk.AppendPart(pending[..n], Source(identity.url, identity.resumeKey));
      assert checkpoint.Some? ==>
          disk.Bytes()[..checkpoint.value.covers] == old(disk.Bytes())[..checkpoint.value.covers];
      assert pending == pending[..n] + pending[n..];
    }

    /** Writes one chunk, of which the writer spills as much as it likes, and then hashes it. */
    method WriteChunk(chunk: seq<byte>, buffered: seq<byte>, hasher: Hasher?, ghost body: seq<byte>)
      returns (fault: Option<IoError>, pending: seq<byte>)
      requires Writing(buffered, body) && Hashing(hasher, body)
      modifies disk`part, disk`sources, if hasher == null then {} else {hasher}
      ensures Running() && old(disk.Bytes()) <= disk.Bytes() <= body + chunk
      ensures fault.None? ==> Writing(pending, body + chunk) && Hashing(hasher, body + chunk)
      ensures fault.Some? ==> disk.faults.Arbitrary?
    {
      pending := buffered + chunk;
      assert disk.Bytes() + pending == body + chunk;
      var n: nat :| n <= |pending|;
      fault := Spill(pending, n, body + chunk);
      pending := pending[n..];
      if fault.None? && hasher != null {
        AbsorbConcat(algorithm.value, algorithm.value.start, body, chunk);
        hasher.Update(chunk);
      }
    }

    /** Flushes the writer and only then records the hash, so the checkpoint covers bytes a retry will find. */
    method FlushAndCheckpoint(pending: seq<byte>, hasher: Hasher, ghost body: seq<byte>)
      returns (fault: Option<IoError>)
      requires Writing(pending, body) && Hashing(hasher, body)
      modifies this`checkpoint, disk`part, disk`sources
      ensures Running() && old(disk.Bytes()) <= disk.Bytes() <= body
      ensures fault.None? ==> Writing([], body) && checkpoint == Some(Checkpoint(hasher.state, |body|))
      ensures fault.Some? ==> disk.faults.Arbitrary?
    {
      fault := Spill(pending, |pending|, body);
      if fault.None? {
        assert disk.Bytes() == body == body[..|body|];
        checkpoint := Some(Checkpoint(hasher.state, |disk.Bytes()|));
      }
    }

    /** Takes one chunk in, and now and then reports progress and checkpoints the hash. */
    method TakeChunk(chunk: seq<byte>, buffered: seq<byte>, hasher: Hasher?, total: Option<nat>, ghost body: seq<byte>)
      returns (fault: Option<IoError>, pending: seq<byte>)
      requires Writing(buffered, body) && Hashing(hasher, body) && progress.downloaded <= |body|
      modifies this`checkpoint, this`progress, disk`part, disk`sources, if hasher == null then {} else {hasher}
      ensures Running() && old(disk.Bytes()) <= disk.Bytes() <= body + chunk
      ensures fault.None? ==>
                Writing(pending, body + chunk) && Hashing(hasher, body + chunk) && progress.downloaded <= |body + chunk|
      ensures fault.Some? ==> disk.faults.Arbitrary?
    {
      var downloaded := |disk.Bytes()| + |buffered| + |chunk|;
      fault, pending := WriteChunk(chunk, buffered, hasher, body);
      if fault.Some? {
        return;
      }
      var elapsed: bool := *;
      if downloaded - progress.downloaded >= PROGRESS_BYTES || elapsed {
        progress := Progress(total, downloaded);
        if hasher != null {
          fault := FlushAndCheckpoint(pending, hasher, body + chunk);
          pending := [];
        }
      }
    }

    /** Streams a body onto the partial, chunk by chunk. */
    method ReceiveBody(reply: Reply, total: Option<nat>, hasher: Hasher?)
      returns (fault: Option<IoError>, pending: seq<byte>)
      requires reply.Answer? && checkpoint.None? && Writing([], disk.Bytes()) && Hashing(hasher, disk.Bytes())
      modifies this`checkpoint, this`progress, disk`part, disk`sources, if hasher == null then {} else {hasher}
      ensures Running()
      ensures old(disk.Bytes()) <= disk.Bytes() <= Onto(old(disk.Bytes()), reply.chunks, |reply.chunks|)
      ensures fault.None? ==>
                && Writing(pending, Onto(old(disk.Bytes()), reply.chunks, |reply.chunks|))
                && Hashing(hasher, Onto(old(disk.Bytes()), reply.chunks, |reply.chunks|))
                && progress.downloaded <= |disk.Bytes() + pending|
      ensures fault.Some? ==> disk.faults.Arbitrary?
    {
      hide Absorb, SameIdentity, Onto, Hashing;
      ghost var base := disk.Bytes();
      OntoNone(base, reply.chunks);
      ghost var whole := Onto(base, reply.chunks, |reply.chunks|);
      progress := Progress(total, |disk.Bytes()|);
      pending := [];
      OntoGrows(base, reply.chunks, 0, |reply.chunks|);

      for i := 0 to |reply.chunks|
        invariant Writing(pending, Onto(base, reply.chunks, i)) && Hashing(hasher, Onto(base, reply.chunks, i))
        invariant base <= disk.Bytes() && Onto(base, reply.chunks, i) <= whole
        invariant progress.downloaded <= |Onto(base, reply.chunks, i)|
      {
        OntoGrows(base, reply.chunks, i + 1, |reply.chunks|);
        OntoStep(base, reply.chunks, i);
        fault, pending := TakeChunk(reply.chunks[i], pending, hasher, total, Onto(base, reply.chunks, i));
        if fault.Some? {
          return;
        }
      }
      return None, pending;
    }

    /** Receives a body to its end, flushes it and promotes the partial; a broken stream leaves what reached the disk. */
    method Receive(reply: Reply, total: Option<nat>, hasher: Hasher?) returns (r: Outcome)
      requires reply.Answer? && checkpoint.None? && Writing([], disk.Bytes()) && Hashing(hasher, disk.Bytes())
      modifies this`checkpoint, this`progress, disk`target, disk`part, disk`sidecar, disk`sources,
               if hasher == null then {} else {hasher}
      ensures Running()
      ensures r.Finished? ==> reply.whole && Delivered(r, old(disk.Bytes()) + Flatten(reply.chunks))
      ensures r.Failed? ==>
                && disk.target == old(disk.target)
                && old(disk.Bytes()) <= disk.Bytes() <= old(disk.Bytes()) + Flatten(reply.chunks)
                && (disk.sidecar == old(disk.sidecar) || disk.sidecar == Missing)
                && (disk.orderly && IsRetryable(r.error) ==> disk.sidecar == old(disk.sidecar))
                && (!reply.whole ==> disk.sidecar == old(disk.sidecar))
      ensures !disk.faults.Arbitrary? ==> if reply.whole then r.Finished? else r == Failed(Http(true))
    {
      ghost var body := disk.Bytes() + Flatten(reply.chunks);
      OntoIsConcat(disk.Bytes(), reply.chunks, |reply.chunks|);
      var fault, pending := ReceiveBody(reply, total, hasher);
      if fault.Some? {
        return Failed(Io(fault.value));
      }
      if !reply.whole {
        return Failed(Http(true));
      }
      fault := Spill(pending, |pending|, body);
      if fault.Some? {
        return Failed(Io(fault.value));
      }
      assert disk.Bytes() == body;
      var downloaded := |disk.Bytes()|;
      fault := disk.Promote();
      if fault.Some? {
        return Failed(Io(fault.value));
      }
      if downloaded != progress.downloaded {
        progress := Progress(total, downloaded);
      }
      checkpoint := None;
      return Finished(if hasher == null then None else Some(algorithm.value.encode(hasher.state)));
    }

    /** Drives the download and publishes its result; a digest is published only by a transfer that finished, and is the
        one-pass hash of what is at the target. */
    method Run(retries: nat) returns (r: Outcome)
      requires disk.Provenance() && checkpoint.None? && digest.None?
      modifies this, disk
      ensures disk.Provenance() && old(disk.shared) <= disk.shared
      ensures completed && failed == r.Failed?
      ensures digest.Some? ==>
                algorithm.Some? && disk.target.Some? && digest.value == HashOf(algorithm.value, disk.target.value)
      ensures r.Finished? && algorithm.Some? ==> digest.Some? || Skips(old(disk.target))
      ensures r.Failed? || Skips(old(disk.target)) ==> disk.target == old(disk.target)
      ensures old(disk.faults).Never? ==>
                r.Finished? || !IsRetryable(r.error) || forall k :: 0 <= k <= retries ==> !AnswersWhole(k)
      ensures Trusted() && old(StartsAVersion(world, disk)) ==>
                && StartsAVersion(world, disk)
                && (disk.target == old(disk.target) ||
                    (disk.target.Some? && IsVersion(world, identity, disk.target.value)))
    {
      hide Absorb;
      var attempts;
      r, attempts := StreamToFile(retries);
      if r.Finished? {
        digest := r.digest;
      }
      completed, failed := true, r.Failed?;
    }

    /** The partial's sidecar can be read and describes what is asked for. */
    predicate Keeps()
      reads this, disk
    {
      disk.sidecar.Holds? && disk.sidecar.sidecar.Matches(identity)
    }

    /** What is already at the target decides whether there is anything to do. */
    predicate Skips(target: Option<seq<byte>>) {
      !mode.Overwrite? && target.Some?
    }

    /** The whole run: settle what the existing partial is worth, then attempt until it finishes, fails for good, or the
        retries are spent. */
    method StreamToFile(retries: nat) returns (r: Outcome, attempts: nat)
      requires disk.Provenance() && checkpoint.None?
      modifies this`checkpoint, this`progress, disk
      ensures disk.Provenance() && old(disk.shared) <= disk.shared
      ensures r.Failed? ==> disk.target == old(disk.target)
      ensures r.Finished? ==>
                if Skips(old(disk.target))
                then r == Finished(None) && attempts == 0 && disk.target == old(disk.target) &&
                     disk.part == old(disk.part) && disk.sidecar == old(disk.sidecar)
                else disk.target.Some? && Delivered(r, disk.target.value)
      ensures old(disk.faults).Never? && Skips(old(disk.target)) ==> r.Finished?
      ensures Trusted() && old(StartsAVersion(world, disk)) ==>
                && StartsAVersion(world, disk)
                && (r.Finished? && !Skips(old(disk.target)) ==> IsVersion(world, identity, disk.target.value))
      ensures attempts <= retries + 1
      ensures r.Failed? && IsRetryable(r.error) ==> attempts == 0 || attempts == retries + 1
      ensures old(disk.faults).Never? && !Skips(old(disk.target)) ==>
                && attempts > 0
                && var kept := KeptFor(identity, mode, old(disk.Bytes()), old(disk.sidecar));
                   var reply := server(0, RequestFor(|kept.0|, kept.1));
                   FinishesAtOnce(kept.0, reply) ==> r.Finished? && attempts == 1 && TargetIs(kept.0, reply)
      ensures old(disk.faults).Never? ==>
                && disk.faults.Never?
                && (r.Finished? || !IsRetryable(r.error) || forall k :: 0 <= k <= retries ==> !AnswersWhole(k))
      ensures retries > 0 && old(disk.target.None? && TornThenAnswered() && Keeps()) ==>
                r.Finished? && attempts == 2 && TargetIs(old(disk.Bytes()), old(AfterTearing()))
    {
      hide ContentRange.Start, ContentRange.UnsatisfiedTotal, Onto, Absorb, SameIdentity, StrongEtag, IsVersion,
           Settled, FinishesAtOnce, RangeStart, HashOf;
      attempts := 0;
      if !mode.Overwrite? {
        var fault := disk.Fault(false);
        if fault.Some? {
          return Failed(Io(fault.value)), 0;
        }
        if disk.target.Some? {
          progress := Progress(Some(|disk.target.value|), |disk.target.value|);
          return Finished(None), 0;
        }
      }
      var fault := Settle();
      if fault.Some? {
        return Failed(Io(fault.value)), 0;
      }
      r, attempts := AttemptAll(retries);
    }

    /** Where an attempt asks from. */
    function Offset(): nat
      reads this, disk
    {
      if mode.Overwrite? then 0 else |disk.Bytes()|
    }

    /** What it knows of the bytes before that. */
    function Known(): Option<Sidecar>
      reads this, disk
    {
      if Offset() > 0 then Recorded(disk.sidecar) else None
    }

    /** What the `n`-th attempt is answered if it is made now. */
    function Answered(n: nat): Reply
      reads this, disk
    {
      server(n, RequestFor(Offset(), Known()))
    }

    /** That answer is all it takes. */
    predicate FinishesNow(n: nat)
      reads this, disk
    {
      Offset() == |disk.Bytes()| && FinishesAtOnce(disk.Bytes(), Answered(n))
    }

    /** Attempts until one finishes or fails for good, or the retries are spent. */
    method AttemptAll(retries: nat) returns (r: Outcome, attempts: nat)
      requires Running()
      modifies this`checkpoint, this`progress, disk`target, disk`part, disk`sidecar, disk`sources, disk`faults
      ensures Running()
      ensures r.Finished? ==> disk.target.Some? && Delivered(r, disk.target.value)
      ensures r.Failed? ==> disk.target == old(disk.target)
      ensures Trusted() && old(Aligned()) ==> Unspliced(r)
      ensures 1 <= attempts <= retries + 1
      ensures r.Failed? && IsRetryable(r.error) ==> attempts == retries + 1
      ensures old(disk.faults).Never? && old(FinishesNow(0)) ==>
                r.Finished? && attempts == 1 && TargetIs(old(disk.Bytes()), old(Answered(0)))
      ensures old(disk.faults).Never? ==>
                && disk.faults.Never?
                && (r.Finished? || !IsRetryable(r.error) || forall k :: 0 <= k <= retries ==> !AnswersWhole(k))
      ensures retries > 0 && old(TornThenAnswered()) ==>
                r.Finished? && attempts == 2 && TargetIs(old(disk.Bytes()), old(AfterTearing()))
    {
      ghost var before, first, again := disk.Bytes(), Answered(0), AfterTearing();
      ghost var torn := retries > 0 && TornThenAnswered();
      ghost var atOnce := disk.faults.Never? && FinishesNow(0);
      assert atOnce ==> first.Answer?;
      assert torn ==> disk.TearsNext() && Continues(Offset(), Answered(0)) && again.Answer?;
      assert torn ==> again == server(1, RequestFor(|before|, None)) && FinishesAtOnce(before, again);
      assert torn ==> !mode.Overwrite? && before != [];
      hide *;
      r := Attempt(0);
      if torn {
        AsksAgain(r, before, again);
      }
      r, attempts := Retry(r, retries);
    }

    /** Whether another attempt is worth making. */
    predicate IsWorthRetrying(r: Outcome) {
      r.Failed? && IsRetryable(r.error)
    }

    /** The attempts after the first. */
    method Retry(first: Outcome, retries: nat) returns (r: Outcome, attempts: nat)
      requires Running() && (first.Finished? ==> disk.target.Some? && Delivered(first, disk.target.value))
      modifies this`checkpoint, this`progress, disk`target, disk`part, disk`sidecar, disk`sources, disk`faults
      ensures Running()
      ensures r.Finished? ==> disk.target.Some? && Delivered(r, disk.target.value)
      ensures r.Failed? ==> disk.target == old(disk.target)
      ensures Trusted() && old(Unspliced(first)) ==> Unspliced(r)
      ensures 1 <= attempts <= retries + 1
      ensures IsWorthRetrying(r) ==> attempts == retries + 1
      ensures !IsWorthRetrying(first) ==> r == first && attempts == 1 && disk.target == old(disk.target)
      ensures old(disk.faults).Never? ==>
                && disk.faults.Never?
                && (IsWorthRetrying(r) ==> forall k :: 1 <= k <= retries ==> !AnswersWhole(k))
      ensures retries > 0 && IsWorthRetrying(first) && old(disk.faults.Never? && FinishesNow(1)) ==>
                r.Finished? && attempts == 2 && TargetIs(old(disk.Bytes()), old(Answered(1)))
    {
      ghost var before, second := disk.Bytes(), Answered(1);
      ghost var unspliced := Trusted() && Unspliced(first);
      ghost var reliable := disk.faults.Never?;
      ghost var soon := reliable && FinishesNow(1);
      assert soon ==> second.Answer?;
      hide *;
      r, attempts := first, 1;
      while IsWorthRetrying(r) && attempts <= retries
        invariant 1 <= attempts <= retries + 1
        invariant Running() && (r.Failed? ==> disk.target == old(disk.target))
        invariant r.Finished? ==> disk.target.Some? && Delivered(r, disk.target.value)
        invariant unspliced ==> Unspliced(r)
        invariant reliable ==> disk.faults.Never?
        invariant reliable && IsWorthRetrying(r) ==> forall k :: 1 <= k < attempts ==> !AnswersWhole(k)
        invariant !IsWorthRetrying(first) ==> attempts == 1 && disk.target == old(disk.target)
        invariant attempts == 1 ==> r == first
        invariant soon ==> if attempts == 1 then FinishesNow(1) && disk.Bytes() == before && Answered(1) == second
                           else r.Finished? && attempts == 2 && TargetIs(before, second)
        decreases retries + 1 - attempts
      {
        CanBeRetried(r);
        r := Attempt(attempts);
        attempts := attempts + 1;
      }
    }

    lemma CanBeRetried(r: Outcome)
      requires IsWorthRetrying(r)
      ensures r.Failed? && (Unspliced(r) ==> Aligned())
    {
    }

    lemma AsksAgain(r: Outcome, before: seq<byte>, again: Reply)
      requires IsTorn(r, before) && !mode.Overwrite? && before != []
      requires again == server(1, RequestFor(|before|, None)) && FinishesAtOnce(before, again)
      ensures IsWorthRetrying(r) && disk.faults.Never?
      ensures disk.Bytes() == before && Answered(1) == again && FinishesNow(1)
    {
    }

    /** Whatever it is asked for, the server answers this attempt with the whole resource. */
    ghost predicate AnswersWhole(attempt: nat) {
      forall request :: var reply := server(attempt, request); reply.Answer? && reply.status == OK && reply.whole
    }

    lemma FinishesWhole(r: Outcome, before: seq<byte>, offset: nat, recorded: Option<Sidecar>, reply: Reply)
      requires Settled(r, before, offset, recorded, reply) && reply.Answer? && reply.status == OK && reply.whole
      ensures r.Finished?
    {
    }

    /** What the second attempt is answered when the first one's sidecar was cut short: it asks for the rest without any
        validator. */
    function AfterTearing(): Reply
      reads this, disk
    {
      server(1, RequestFor(|disk.Bytes()|, None))
    }

    /** The first attempt's answer continues the partial, and its sidecar is cut short. */
    predicate FirstIsTorn()
      reads this, disk
    {
      disk.TearsNext() && !mode.Overwrite? && disk.Bytes() != [] && Continues(Offset(), Answered(0))
    }

    /** So it is, and the second one's answer finishes it. */
    predicate TornThenAnswered()
      reads this, disk
    {
      FirstIsTorn() && FinishesAtOnce(disk.Bytes(), AfterTearing())
    }

    lemma AtOnce(r: Outcome, kept: seq<byte>, recorded: Option<Sidecar>, reply: Reply)
      requires Settled(r, kept, |kept|, recorded, reply) && FinishesAtOnce(kept, reply)
      ensures r.Finished? && TargetIs(kept, reply)
    {
    }

    /** The target is what the answer carries, after the kept bytes when it continues them. */
    ghost predicate TargetIs(kept: seq<byte>, reply: Reply)
      requires reply.Answer?
      reads disk
    {
      disk.target == Some((if reply.status == PARTIAL_CONTENT then kept else []) + Flatten(reply.chunks))
    }

    /** Discards or reconciles the partial, once, before the first attempt. */
    method Settle() returns (fault: Option<IoError>)
      requires disk.Provenance() && checkpoint.None?
      modifies disk`part, disk`sidecar, disk`sources, disk`shared
      ensures disk.Provenance() && old(disk.shared) <= disk.shared
      ensures fault.None? ==> Running()
      ensures fault.Some? ==> disk.faults.Arbitrary?
      ensures Trusted() && old(StartsAVersion(world, disk)) ==>
                StartsAVersion(world, disk) && (fault.None? ==> Aligned())
      ensures !disk.faults.Arbitrary? ==>
                var kept := KeptFor(identity, mode, old(disk.Bytes()), old(disk.sidecar));
                disk.Bytes() == kept.0 && (kept.0 != [] ==> kept.1 == Recorded(disk.sidecar))
    {
      if identity.acrossUrls && identity.resumeKey.Some? {
        disk.shared := disk.shared + {identity.resumeKey.value};
      }
      if mode.Overwrite? {
        fault := disk.Discard();
      } else {
        fault := disk.Reconcile(identity);
      }
    }

    /** One attempt, `n`-th of the run: ask from where the partial ends, and act on the answer. */
    method Attempt(n: nat) returns (r: Outcome)
      requires Running()
      modifies this`checkpoint, this`progress, disk`target, disk`part, disk`sidecar, disk`sources, disk`faults
      ensures Running()
      ensures r.Finished? ==> disk.target.Some? && Delivered(r, disk.target.value)
      ensures r.Failed? ==> disk.target == old(disk.target)
      ensures Trusted() && old(Aligned()) ==> Unspliced(r)
      ensures old(disk.faults).Never? ==>
                && Settled(r, old(disk.Bytes()), old(Offset()), old(Known()), old(Answered(n)))
                && disk.faults.Never?
                && (AnswersWhole(n) ==> r.Finished?)
                && (old(FinishesNow(n)) ==> r.Finished? && TargetIs(old(disk.Bytes()), old(Answered(n))))
      ensures old(disk.TearsNext() && Continues(Offset(), Answered(n))) ==> IsTorn(r, old(disk.Bytes()))
    {
      hide Absorb, SameIdentity, Settled, FinishesAtOnce, TargetIs, IsVersion, HashOf, StrongEtag, RangeStart, Onto;
      var fault := disk.Fault(false);
      if fault.Some? && !mode.Overwrite? {
        return Failed(Io(fault.value));
      }
      var offset := if mode.Overwrite? then 0 else |disk.Bytes()|;
      var recorded: Option<Sidecar> := None;
      if offset > 0 {
        recorded := disk.ReadSidecar();
      }
      var reply := server(n, RequestFor(offset, recorded));
      assert Trusted() ==> IsHonest(world, identity, RequestFor(offset, recorded), reply);
      ghost var before, sure := disk.Bytes(), disk.faults.Never?;
      r := Act(offset, recorded, reply);
      if sure && AnswersWhole(n) {
        FinishesWhole(r, before, offset, recorded, reply);
      }
      if sure && offset == |before| && FinishesAtOnce(before, reply) {
        AtOnce(r, before, recorded, reply);
      }
    }

    /** What an attempt comes to whose sidecar was cut short: another one is worth trying, and finds the bytes without what
        was known of them. */
    ghost predicate IsTorn(r: Outcome, bytes: seq<byte>)
      reads disk
    {
      r == Failed(Io(OtherIo)) && disk.Bytes() == bytes && disk.sidecar == Unreadable && disk.faults.Never?
    }

    /** What an attempt under the assumptions of `Trusted` leaves: a whole version at the target, or a partial that is
        still the start of one version, and still resumable as that when there is another attempt. */
    ghost predicate Unspliced(r: Outcome)
      reads disk
    {
      && (r.Finished? ==> disk.target.Some? && IsVersion(world, identity, disk.target.value))
      && StartsAVersion(world, disk)
      && (r.Failed? && IsRetryable(r.error) ==> Aligned())
    }

    /** Acts on the answer to a request that asked for everything from `offset`. */
    method Act(offset: nat, recorded: Option<Sidecar>, reply: Reply) returns (r: Outcome)
      requires Running()
      requires offset == 0 || offset == |disk.Bytes()|
      requires recorded.Some? ==> disk.sidecar == Holds(recorded.value)
      requires offset > 0 && disk.orderly && disk.sidecar.Holds? ==> recorded.Some?
      modifies this`checkpoint, this`progress, disk`target, disk`part, disk`sidecar, disk`sources, disk`faults
      ensures Running()
      ensures r.Finished? ==> disk.target.Some? && Delivered(r, disk.target.value)
      ensures r.Failed? ==> disk.target == old(disk.target)
      ensures Trusted() && old(Aligned()) && IsHonest(world, identity, RequestFor(offset, recorded), reply) ==>
                Unspliced(r)
      ensures old(disk.faults).Never? ==> Settled(r, old(disk.Bytes()), offset, recorded, reply) && disk.faults.Never?
      ensures old(disk.TearsNext()) && Continues(offset, reply) ==> IsTorn(r, old(disk.Bytes()))
    {
      hide ContentRange.Start, ContentRange.UnsatisfiedTotal, Onto, Absorb;
      if reply.NoAnswer? {
        return Failed(Http(reply.transient));
      }
      if offset > 0 && reply.status == RANGE_NOT_SATISFIABLE {
        r := Unsatisfied(offset, recorded, reply);
        return;
      }
      if 400 <= reply.status < 600 {
        return Failed(Http(IsTransientStatus(reply.status)));
      }
      var resuming := offset > 0 && reply.status == PARTIAL_CONTENT;
      if resuming && RangeStart(reply) != Some(offset) {
        r := RejectRange();
        return;
      }
      r := Take(offset, recorded, reply);
    }

    /** Takes in an answer that carries bytes of the artifact. */
    method Take(offset: nat, recorded: Option<Sidecar>, reply: Reply) returns (r: Outcome)
      requires Running() && reply.Answer? && !(400 <= reply.status < 600)
      requires offset == 0 || offset == |disk.Bytes()|
      requires recorded.Some? ==> disk.sidecar == Holds(recorded.value)
      requires offset > 0 && disk.orderly && disk.sidecar.Holds? ==> recorded.Some?
      modifies this`checkpoint, this`progress, disk`target, disk`part, disk`sidecar, disk`sources, disk`faults
      ensures Running()
      ensures var resuming := offset > 0 && reply.status == PARTIAL_CONTENT;
              var content := (if resuming then old(disk.Bytes()) else []) + Flatten(reply.chunks);
              && (r.Finished? ==> reply.whole && Delivered(r, content))
              && (r.Failed? ==> disk.target == old(disk.target))
              && (old(disk.faults).Never? && reply.whole ==> r.Finished?)
              && (old(disk.faults).Never? && !reply.whole ==>
                    && r == Failed(Http(true)) && (if resuming then old(disk.Bytes()) else []) <= disk.Bytes() <= content
                    && disk.sidecar.Holds? && Describes(disk.sidecar.sidecar, identity, offset, recorded, resuming, reply))
              && (old(disk.TearsNext()) ==> IsTorn(r, if resuming then old(disk.Bytes()) else []))
      ensures old(disk.faults).Never? ==> disk.faults.Never?
      ensures Trusted() && old(Aligned()) && IsHonest(world, identity, RequestFor(offset, recorded), reply) ==>
                Unspliced(r)
    {
      hide Onto, Absorb;
      ghost var trusted := Trusted() && Aligned() && IsHonest(world, identity, RequestFor(offset, recorded), reply);
      ghost var name := "";
      if trusted {
        ghost var kept := "";
        if offset > 0 {
          kept :| Names(recorded.value.etag, recorded.value.lastModified, kept) &&
                  disk.Bytes() <= Version(world, identity, kept);
        }
        name := HonestContent(world, identity, disk.Bytes(), offset, recorded, reply, kept);
      }
      r := Collect(offset, recorded, offset > 0 && reply.status == PARTIAL_CONTENT, reply);
    }

    /** After an answer for another range the next attempt starts from nothing. */
    method RejectRange() returns (r: Outcome)
      requires Running()
      modifies this`checkpoint, disk`part, disk`sources
      ensures Running() && r.Failed?
      ensures disk.Bytes() == [] || disk.part == old(disk.part)
      ensures checkpoint == None || (disk.part == old(disk.part) && checkpoint == old(checkpoint))
      ensures !disk.faults.Arbitrary? ==> r == Failed(Io(InvalidData)) && disk.Bytes() == []
    {
      var fault := disk.CreatePart();
      if fault.Some? {
        return Failed(Io(fault.value));
      }
      checkpoint := None;
      return Failed(Io(InvalidData));
    }

    /** Opens the partial for what the answer carries, records whose bytes these are, and receives them. */
    method Collect(offset: nat, recorded: Option<Sidecar>, resuming: bool, reply: Reply) returns (r: Outcome)
      requires Running() && reply.Answer?
      requires resuming ==> offset > 0 && offset == |disk.Bytes()|
      modifies this`checkpoint, this`progress, disk`target, disk`part, disk`sidecar, disk`sources, disk`faults
      ensures Running()
      ensures var base := if resuming then old(disk.Bytes()) else [];
              var next := NextSidecar(identity, offset, recorded, resuming, reply);
              match r
              case Finished(_) => reply.whole && Delivered(r, base + Flatten(reply.chunks))
              case Failed(e) =>
                && disk.target == old(disk.target)
                && (|| disk.Bytes() == []
                    || (disk.Bytes() == old(disk.Bytes()) && disk.sidecar == old(disk.sidecar))
                    || (disk.Bytes() <= base + Flatten(reply.chunks) && disk.sidecar == Holds(next))
                    || (!disk.sidecar.Holds? && (disk.orderly ==> !IsRetryable(e))))
      ensures old(disk.faults).Never? && reply.whole ==> r.Finished?
      ensures old(disk.faults).Never? && !reply.whole ==>
                var base := if resuming then old(disk.Bytes()) else [];
                && r == Failed(Http(true)) && base <= disk.Bytes() <= base + Flatten(reply.chunks)
                && disk.sidecar.Holds? && Describes(disk.sidecar.sidecar, identity, offset, recorded, resuming, reply)
      ensures old(disk.faults).Never? ==> disk.faults.Never?
      ensures old(disk.TearsNext()) ==> IsTorn(r, if resuming then old(disk.Bytes()) else [])
    {
      hide Onto, SameIdentity, StrongEtag, Describes;
      if !resuming {
        checkpoint := None;
        var fault := disk.CreatePart();
        if fault.Some? {
          return Failed(Io(fault.value));
        }
      }
      var hasher: Hasher? := null;
      if algorithm.Some? {
        if resuming {
          hasher := HashPrefix(offset);
          if hasher == null {
            return Failed(Io(OtherIo));
          }
          assert disk.Bytes()[..offset] == disk.Bytes();
        } else {
          hasher := new Hasher(algorithm.value, algorithm.value.start);
        }
      }
      var next := NextSidecar(identity, offset, recorded, resuming, reply);
      NextDescribes(identity, offset, recorded, resuming, reply);
      var fault := disk.WriteSidecar(next);
      if fault.Some? {
        return Failed(Io(fault.value));
      }
      assert disk.Bytes() + [] == disk.Bytes();
      r := Receive(reply, next.total, hasher);
    }

    /** What an attempt does when the disk never fails, answer by answer. */
    ghost predicate Settled(r: Outcome, before: seq<byte>, offset: nat, recorded: Option<Sidecar>, reply: Reply)
      reads this, disk
    {
      match reply
      case NoAnswer(transient) => r == Failed(Http(transient)) && disk.Bytes() == before
      case Answer(status, _, _, _, _, chunks, whole) =>
        var resuming := offset > 0 && status == PARTIAL_CONTENT;
        var content := (if resuming then before else []) + Flatten(chunks);
        if offset > 0 && status == RANGE_NOT_SATISFIABLE then
          if KnownTotal(recorded, reply) in {None, Some(offset)}
          then r.Finished? && disk.target == Some(before)
          else r == Failed(Io(InvalidData)) && disk.part == None && disk.sidecar == Missing
        else if 400 <= status < 600 then
          r == Failed(Http(IsTransientStatus(status))) && disk.Bytes() == before
        else if resuming && RangeStart(reply) != Some(offset) then
          r == Failed(Io(InvalidData)) && disk.Bytes() == []
        else if whole then
          r.Finished? && disk.target == Some(content)
        else
          && r == Failed(Http(true)) && (if resuming then before else []) <= disk.Bytes() <= content
          && disk.sidecar.Holds? && Describes(disk.sidecar.sidecar, identity, offset, recorded, resuming, reply)
    }

    /** A refused range: the length a conforming refusal gives decides; without one the recorded length does; and without
        either the partial is taken for the whole. */
    lemma RefusalDecides(r: Outcome, before: seq<byte>, offset: nat, recorded: Option<Sidecar>, reply: Reply, length: nat)
      requires Settled(r, before, offset, recorded, reply) && reply.Answer? && offset > 0
      requires reply.status == RANGE_NOT_SATISFIABLE && length <= Text.U64_MAX
      ensures reply.contentRange == Some(ContentRange.RenderUnsatisfied(length)) ==> (r.Finished? <==> length == offset)
      ensures reply.contentRange.None? && recorded.Some? && recorded.value.total == Some(length) ==>
                (r.Finished? <==> length == offset)
      ensures reply.contentRange.None? && (recorded.None? || recorded.value.total.None?) ==> r.Finished?
      ensures r.Finished? ==> disk.target == Some(before)
      ensures r.Failed? ==> disk.part == None && disk.sidecar == Missing
    {
      hide ContentRange.RenderUnsatisfied, ContentRange.UnsatisfiedTotal;
      ContentRange.TotalOfRendered(length);
    }

    /** The attempt after one whose body broke off: it asks for what follows the bytes that were kept, on condition that
        they are still those of the answer they came with, by its strong tag when it gave one, and else by its date. */
    lemma AsksForTheRest(r: Outcome, before: seq<byte>, offset: nat, recorded: Option<Sidecar>, reply: Reply, n: nat)
      requires Settled(r, before, offset, recorded, reply) && !mode.Overwrite? && disk.Bytes() != []
      requires reply.Answer? && !(400 <= reply.status < 600) && !reply.whole
      requires offset > 0 && reply.status == PARTIAL_CONTENT ==> RangeStart(reply) == Some(offset) && recorded.Some?
      ensures var next := |disk.Bytes()|;
              if reply.etag.Some? && !IsWeak(reply.etag.value) then Answered(n) == server(n, Request(next, reply.etag))
              else if offset > 0 && reply.status == PARTIAL_CONTENT && recorded.value.etag.Some?
              then Answered(n) == server(n, Request(next, recorded.value.etag))
              else if reply.lastModified.Some? then Answered(n) == server(n, Request(next, reply.lastModified))
              else if offset > 0 && reply.status == PARTIAL_CONTENT
              then Answered(n) == server(n, Request(next, recorded.value.lastModified))
              else Answered(n) == server(n, Request(next, None))
    {
    }

    /** A transfer that finished put exactly `bytes` at the target, left nothing beside it, and its digest, when one was
        asked for, is the one-pass hash of those bytes. */
    ghost predicate Delivered(r: Outcome, bytes: seq<byte>)
      requires r.Finished?
      reads this, disk
    {
      && disk.target == Some(bytes)
      && disk.part == None
      && disk.sidecar == Missing
      && progress.downloaded == |bytes|
      && r.digest == if algorithm.None? then None else Some(HashOf(algorithm.value, bytes))
    }
  }

  function KnownTotal(recorded: Option<Sidecar>, reply: Reply): Option<nat>
    requires reply.Answer?
  {
    Or(if reply.contentRange.Some? then ContentRange.UnsatisfiedTotal(reply.contentRange.value) else None,
       if recorded.Some? then recorded.value.total else None)
  }

  function Recorded(file: SidecarFile): Option<Sidecar> {
    if file.Holds? then Some(file.sidecar) else None
  }

  /** What an attempt asks: a strong `ETag` is preferred as the `If-Range` validator, a date taken when there is none. */
  function RequestFor(offset: nat, recorded: Option<Sidecar>): Request {
    Request(offset,
            if offset > 0 && recorded.Some? then Or(recorded.value.etag, recorded.value.lastModified) else None)
  }

  function RangeStart(reply: Reply): Option<nat>
    requires reply.Answer?
  {
    if reply.contentRange.Some? then ContentRange.Start(reply.contentRange.value) else None
  }

  /** What is recorded of an answer: a `206` need not repeat a validator, so the recorded one carries forward, and its
      length is what remains; any other answer replaced the bytes. */
  function NextSidecar(identity: Identity, offset: nat, recorded: Option<Sidecar>, resuming: bool, reply: Reply): Sidecar
    requires reply.Answer?
  {
    var carries := resuming && recorded.Some?;
    Sidecar(identity.url,
            if carries then Or(StrongEtag(reply), recorded.value.etag) else StrongEtag(reply),
            if carries then Or(reply.lastModified, recorded.value.lastModified) else reply.lastModified,
            if resuming && reply.contentLength.Some? then Some(offset + reply.contentLength.value) else reply.contentLength,
            identity.resumeKey)
  }

  /** What is recorded of an answer: whose bytes it carries; the tag and the date it gives, unless the tag is weak; the
      length it promises. Of a part that gives no tag or no date, the tag or the date recorded before. */
  ghost predicate Describes(s: Sidecar, identity: Identity, offset: nat, recorded: Option<Sidecar>, resuming: bool,
                            reply: Reply)
    requires reply.Answer?
  {
    var strong := reply.etag.Some? && !IsWeak(reply.etag.value);
    && s.url == identity.url && s.resumeKey == identity.resumeKey
    && (strong ==> s.etag == reply.etag)
    && (reply.lastModified.Some? ==> s.lastModified == reply.lastModified)
    && (!strong ==> s.etag == if resuming && recorded.Some? then recorded.value.etag else None)
    && (reply.lastModified.None? ==>
          s.lastModified == if resuming && recorded.Some? then recorded.value.lastModified else None)
    && (s.total.Some? <==> reply.contentLength.Some?)
    && (s.total.Some? ==> s.total.value == reply.contentLength.value + if resuming then offset else 0)
  }

  lemma NextDescribes(identity: Identity, offset: nat, recorded: Option<Sidecar>, resuming: bool, reply: Reply)
    requires reply.Answer?
    ensures Describes(NextSidecar(identity, offset, recorded, resuming, reply), identity, offset, recorded, resuming, reply)
  {
  }

  lemma PrefixJoin(front: seq<byte>, rest: seq<byte>, full: seq<byte>)
    requires front <= full && rest <= full[|front|..]
    ensures front + rest <= full && (rest == full[|front|..] ==> front + rest == full)
  {
    assert full == front + full[|front|..];
  }

  /** An honest `206` starts where it was asked to. */
  lemma HonestRange(w: World, identity: Identity, request: Request, reply: Reply)
    requires IsHonest(w, identity, request, reply) && reply.Answer? && reply.status == PARTIAL_CONTENT
    ensures RangeStart(reply) == Some(request.offset)
  {
    hide ContentRange.Start, ContentRange.RenderRange;
    var name :| Serves(w, identity, request, name, reply);
    var last := |Version(w, identity, name)|;
    ContentRange.StartOfRendered(request.offset, last - 1, last);
  }

  /** An honest answer that is received at all continues the version that what was recorded names, or starts one; and what
      is recorded of it then names that. */
  lemma HonestContent(w: World, identity: Identity, before: seq<byte>, offset: nat, recorded: Option<Sidecar>, reply: Reply,
                      kept: string)
    returns (name: string)
    requires IsHonest(w, identity, RequestFor(offset, recorded), reply) && reply.Answer? && !(400 <= reply.status < 600)
    requires offset == 0 || offset == |before|
    requires offset > 0 ==>
               && recorded.Some? && Names(recorded.value.etag, recorded.value.lastModified, kept)
               && before <= Version(w, identity, kept)
    ensures var resuming := offset > 0 && reply.status == PARTIAL_CONTENT;
            var content := (if resuming then before else []) + Flatten(reply.chunks);
            var next := NextSidecar(identity, offset, recorded, resuming, reply);
            && Names(next.etag, next.lastModified, name)
            && content <= Version(w, identity, name)
            && (reply.whole ==> content == Version(w, identity, name))
  {
    name :| Serves(w, identity, RequestFor(offset, recorded), name, reply);
    var full := Version(w, identity, name);
    var body := Flatten(reply.chunks);
    if reply.status == PARTIAL_CONTENT {
      assert name == kept;
      PrefixJoin(before, body, full);
    } else {
      assert reply.status == OK && [] + body == body;
    }
  }

  /** The answer continues the bytes before `offset`. */
  predicate Continues(offset: nat, reply: Reply) {
    offset > 0 && reply.Answer? && reply.status == PARTIAL_CONTENT && RangeStart(reply) == Some(offset)
  }

  /** The partial a run starts from and what is recorded of it, on a disk that does not fail. */
  function KeptFor(identity: Identity, mode: Mode, bytes: seq<byte>, file: SidecarFile): (seq<byte>, Option<Sidecar>) {
    if !mode.Overwrite? && bytes != [] && file.Holds? && file.sidecar.Matches(identity)
    then (bytes, Some(file.sidecar))
    else ([], None)
  }

  /** An answer that carries everything the request asked for, or everything there is. */
  predicate FinishesAtOnce(kept: seq<byte>, reply: Reply) {
    && reply.Answer? && reply.whole && !(400 <= reply.status < 600)
    && (kept == [] ==> reply.status != PARTIAL_CONTENT)
    && (reply.status == PARTIAL_CONTENT ==> RangeStart(reply) == Some(|kept|))
  }
}

/** Any number of downloads to one path, one after the other, each stopped wherever it may be. */
module DownloadRuns {
  import opened Wrappers
  import opened Digest
  import opened Partial
  import opened Server
  import opened Download
  import Text
  import ContentRange

  datatype Plan = Plan(
    identity: Identity, mode: Mode, algorithm: Option<Algorithm>, retries: nat, server: (nat, Request) -> Reply)

  ghost predicate Trustworthy(w: World, plan: Plan) {
    SharesOneResource(w, plan.identity) && HonestServer(w, plan.identity, plan.server)
  }

  /** However many runs follow one another, of whatever identities and modes, and wherever each of them stops: a readable
      sidecar tells the truth about every byte of the partial; and when the servers are honest, whatever was renamed
      onto the target is, byte for byte, one complete version of what one of the runs asked for. */
  method RunAll(disk: Disk, plans: seq<Plan>, ghost world: World)
    requires disk.Provenance()
    modifies disk
    ensures disk.Provenance()
    ensures disk.orderly && old(StartsAVersion(world, disk)) && (forall plan <- plans :: Trustworthy(world, plan)) ==>
              && StartsAVersion(world, disk)
              && (disk.target == old(disk.target) ||
                  (disk.target.Some? && exists plan <- plans :: IsVersion(world, plan.identity, disk.target.value)))
  {
    ghost var trusted :=
      disk.orderly && StartsAVersion(world, disk) && forall plan <- plans :: Trustworthy(world, plan);
    for i := 0 to |plans|
      invariant disk.Provenance()
      invariant trusted ==> StartsAVersion(world, disk)
      invariant trusted ==>
                  disk.target == old(disk.target) ||
                  (disk.target.Some? && exists plan <- plans :: IsVersion(world, plan.identity, disk.target.value))
    {
      var plan := plans[i];
      var transfer := new Transfer(disk, plan.identity, plan.mode, plan.algorithm, plan.server, world);
      assert trusted ==> Trustworthy(world, plan);
      var _ := transfer.Run(plan.retries);
    }
  }

  /** Whether a resume of `before`, the start of version `name`, is continued soundly by every honest server. */
  ghost predicate ResumesSoundly(identity: Identity, name: string, before: seq<byte>, file: SidecarFile) {
    forall w: World, reply: Reply ::
      && IsHonest(w, identity, RequestFor(|before|, Recorded(file)), reply)
      && reply.Answer? && reply.status == PARTIAL_CONTENT
      && before <= Version(w, identity, name)
      ==> before + Flatten(reply.chunks) <= Version(w, identity, name)
  }

  function Validator(file: SidecarFile): Option<string> {
    if file.Holds? then Or(file.sidecar.etag, file.sidecar.lastModified) else None
  }

  /** Exactly when a resume cannot splice two versions: the sidecar reads back and its validator names the version the
      partial starts. A retry in the same run does not settle the partial again, so one that follows a sidecar write or
      a rename that failed half-way asks without a validator, and an honest server may answer with another version. */
  lemma ResumesSoundlyExactly(identity: Identity, name: string, before: seq<byte>, file: SidecarFile)
    requires before != [] && |before| < Text.U64_MAX
    ensures ResumesSoundly(identity, name, before, file) <==> Validator(file) == Some(name)
  {
    hide ContentRange.RenderRange;
    var request := RequestFor(|before|, Recorded(file));
    if Validator(file) == Some(name) {
      forall w: World, reply: Reply |
        && IsHonest(w, identity, request, reply)
        && reply.Answer? && reply.status == PARTIAL_CONTENT
        && before <= Version(w, identity, name)
        ensures before + Flatten(reply.chunks) <= Version(w, identity, name)
      {
        PrefixJoin(before, Flatten(reply.chunks), Version(w, identity, name));
      }
    } else {
      var other := if Validator(file).Some? then Validator(file).value else if name == "a" then "b" else "a";
      var longer := before + [0];
      var w := World((_, _) => 0, (_, n) => if n == name then before else longer);
      var range := ContentRange.RenderRange(|before|, |longer| - 1, |longer|);
      var reply := Answer(PARTIAL_CONTENT, Some(range), None, None, None, [[0]], true);
      assert Flatten(reply.chunks) == [0] == longer[|before|..] by {
        assert Onto([], [[0]], 1) == Onto([], [[0]], 0) + [0];
      }
      assert Serves(w, identity, request, other, reply);
      assert before + Flatten(reply.chunks) == longer;
      assert IsHonest(w, identity, request, reply);
      assert Version(w, identity, name) == before && !(longer <= before);
      assert !ResumesSoundly(identity, name, before, file);
    }
  }

  // A splice within one run.

  const TAG_A: string := "\"a\""
  const TAG_B: string := "\"b\""

  /** Two versions of one resource, of which a run holds the beginning of the first. */
  const WORLD: World := World((_, _) => 0, (_, name) => if name == TAG_A then [1, 2] else [3, 4])

  const ASKED: Identity := Identity("u", None, false)

  function Second(tag: string, last: byte): Reply {
    Answer(PARTIAL_CONTENT, Some(ContentRange.RenderRange(1, 1, 2)), None, Some(tag), None, [[last]], true)
  }

  /** Asked for what follows the first byte: of the version the validator names, or, without one, of the version now
      current, which is the other one. Asked for anything else, no answer. */
  function Serve(attempt: nat, request: Request): Reply {
    if request == Request(1, Some(TAG_A)) then Second(TAG_A, 2)
    else if request == Request(1, None) then Second(TAG_B, 4)
    else NoAnswer(true)
  }

  lemma ServesHonestly()
    ensures HonestServer(WORLD, ASKED, Serve) && SharesOneResource(WORLD, ASKED)
  {
    hide ContentRange.RenderRange;
    assert Flatten([[2]]) == [2] && Flatten([[4]]) == [4] by {
      assert Onto([], [[2]], 1) == Onto([], [[2]], 0) + [2] && Onto([], [[4]], 1) == Onto([], [[4]], 0) + [4];
    }
    forall attempt, request ensures IsHonest(WORLD, ASKED, request, Serve(attempt, request)) {
      if request == Request(1, Some(TAG_A)) {
        assert Version(WORLD, ASKED, TAG_A) == [1, 2] && [1, 2][1..] == [2];
        assert Serves(WORLD, ASKED, request, TAG_A, Second(TAG_A, 2));
      } else if request == Request(1, None) {
        assert Version(WORLD, ASKED, TAG_B) == [3, 4] && [3, 4][1..] == [4];
        assert Serves(WORLD, ASKED, request, TAG_B, Second(TAG_B, 4));
      }
    }
  }

  lemma SecondContinues(tag: string, last: byte)
    ensures Continues(1, Second(tag, last)) && FinishesAtOnce([1], Second(tag, last))
    ensures Flatten(Second(tag, last).chunks) == [last]
  {
    hide ContentRange.RenderRange, ContentRange.Start;
    ContentRange.StartOfRendered(1, 1, 2);
    assert Onto([], [[last]], 1) == Onto([], [[last]], 0) + [last];
  }

  lemma SpliceIsNoVersion()
    ensures !IsVersion(WORLD, ASKED, [1, 4])
  {
  }

  /** The first byte of the first version, and a sidecar that says so. */
  method HalfOfFirst() returns (disk: Disk)
    ensures fresh(disk) && disk.Provenance() && StartsAVersion(WORLD, disk) && !disk.orderly && disk.faults.TornOnce?
    ensures disk.target == None && disk.Bytes() == [1]
    ensures disk.sidecar == Holds(Sidecar("u", Some(TAG_A), None, Some(2), None))
  {
    disk := new Disk(None, Never, false);
    var fault := disk.CreatePart();
    fault := disk.AppendPart([1], Source("u", None));
    fault := disk.WriteSidecar(Sidecar("u", Some(TAG_A), None, Some(2), None));
    disk.faults := TornOnce;
    assert Names(Some(TAG_A), None, TAG_A) && [1] <= [1, 2];
  }

  /** With honest servers and one sidecar write cut short by something another attempt does not meet, a run of two attempts
      finishes with bytes that are no version: the retry resumes without a validator, and the resource has moved on. */
  method SplicesInOneRun() returns (disk: Disk, r: Outcome)
    ensures HonestServer(WORLD, ASKED, Serve) && SharesOneResource(WORLD, ASKED)
    ensures r.Finished? && disk.target == Some([1, 4]) && !IsVersion(WORLD, ASKED, [1, 4])
  {
    disk := HalfOfFirst();
    ServesHonestly();
    SecondContinues(TAG_A, 2);
    SecondContinues(TAG_B, 4);
    SpliceIsNoVersion();
    var transfer := new Transfer(disk, ASKED, Resume, None, Serve, WORLD);
    StartsTorn(transfer);
    hide *;
    var attempts;
    r, attempts := transfer.StreamToFile(1);
    IsSpliced(transfer);
  }

  lemma StartsTorn(t: Transfer)
    requires t.server == Serve && t.identity == ASKED && t.mode == Resume
    requires t.disk.Bytes() == [1] && t.disk.TearsNext()
    requires t.disk.sidecar == Holds(Sidecar("u", Some(TAG_A), None, Some(2), None))
    requires Continues(1, Second(TAG_A, 2)) && FinishesAtOnce([1], Second(TAG_B, 4))
    ensures t.TornThenAnswered() && t.Keeps() && t.AfterTearing() == Second(TAG_B, 4)
  {
    hide ContentRange.RenderRange, ContentRange.Start, FinishesAtOnce, Continues;
  }

  lemma IsSpliced(t: Transfer)
    requires t.TargetIs([1], Second(TAG_B, 4)) && Flatten(Second(TAG_B, 4).chunks) == [4]
    ensures t.disk.target == Some([1, 4])
  {
    assert [1] + [4] == [1, 4];
  }
}
