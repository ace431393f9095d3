/** A download checked against the hash its file was published with (src/ai/install.rs:437-523, src/ai/hf.rs:53-95). */
module VerifiedFetch {
  import opened Wrappers
  import opened Text
  import opened Digest
  import opened Partial
  import opened Server
  import opened Download

  datatype Hash = Sha256(hex: string) | GitBlobSha1(hex: string)

  datatype Failure = Unfetched(error: DownloadError) | OnDisk(fault: IoError) | Damaged(expected: string, actual: string)

  datatype Checked = Ok | Err(failure: Failure)

  class Fetcher {
    const disk: Disk
    const url: string
    const expected: Hash
    const sha256: Algorithm
    const gitBlobSha1: seq<byte> -> string
    const retries: nat
    ghost const world: World

    constructor (disk: Disk, url: string, expected: Hash, sha256: Algorithm, gitBlobSha1: seq<byte> -> string,
                 retries: nat, ghost world: World)
      ensures this.disk == disk && this.url == url && this.expected == expected && this.sha256 == sha256
      ensures this.gitBlobSha1 == gitBlobSha1 && this.retries == retries && this.world == world
    {
      this.disk, this.url, this.expected, this.sha256 := disk, url, expected, sha256;
      this.gitBlobSha1, this.retries, this.world := gitBlobSha1, retries, world;
    }

    /** The hash, of the expected one's kind, of a whole file. */
    function HashOfFile(bytes: seq<byte>): string {
      if expected.Sha256? then HashOf(sha256, bytes) else gitBlobSha1(bytes)
    }

    predicate Matches(hex: string) {
      SameIgnoringCase(expected.hex, Trim(hex))
    }

    /** White space around a digest does not count, nor does the case of its letters. */
    lemma MatchesExactly(front: string, hex: string, back: string)
      requires IsBlank(front) && IsBlank(back) && hex != "" && !IsWhite(hex[0]) && !IsWhite(hex[|hex| - 1])
      ensures Matches(front + hex + back) <==>
                |hex| == |expected.hex| && forall i :: 0 <= i < |hex| ==> SameLetter(expected.hex[i], hex[i])
    {
      hide Trim, SameIgnoringCase, SameLetter;
      TrimBlank(front, hex, back);
      SameLetters(expected.hex, hex);
    }

    /** The hash names the upload, so a partial of another one is never continued, and one of this one is, whatever URL it
        moved to. */
    function Asked(): Identity {
      Identity(url, Some(expected.hex), true)
    }

    /** A partial is continued exactly when it was begun for this very hash, whatever URL it then came from. */
    lemma ContinuesThisUpload(bytes: seq<byte>, s: Sidecar)
      requires bytes != []
      ensures KeptFor(Asked(), Resume, bytes, Holds(s)) ==
              if s.resumeKey == Some(expected.hex) then (bytes, Some(s)) else ([], None)
    {
    }

    /** Nothing of any earlier download is left. */
    predicate Nothing()
      reads disk
    {
      disk.target == None && disk.part == None && disk.sidecar == Missing
    }

    /** An answer to a fresh request that carries the whole of the expected file. */
    predicate CarriesExpected(server: (nat, Request) -> Reply) {
      var reply := server(0, Request(0, None));
      FinishesAtOnce([], reply) && Matches(HashOfFile(Flatten(reply.chunks)))
    }

    method FetchHashed(server: (nat, Request) -> Reply) returns (digest: Option<string>, failure: Option<Failure>)
      requires disk.Provenance()
      modifies disk
      ensures disk.Provenance()
      ensures digest.Some? <==> failure.None?
      ensures digest.Some? ==> disk.target.Some? && digest.value == HashOfFile(disk.target.value)
      ensures failure.Some? ==> !failure.value.Damaged?
      ensures old(disk.target).Some? ==> disk.target == old(disk.target) && (old(disk.faults).Never? ==> digest.Some?)
      ensures old(disk.faults).Never? ==> disk.faults.Never?
      ensures old(disk.faults).Never? && old(Nothing()) && CarriesExpected(server) ==>
                && digest.Some? && Matches(digest.value)
                && disk.target == Some(Flatten(server(0, Request(0, None)).chunks))
    {
      hide HashOf, Onto, RangeStart, IsVersion, StartsAVersion, SharesOneResource, HonestServer, Matches;
      var algorithm := if expected.Sha256? then Some(sha256) else None;
      var transfer := new Transfer(disk, Asked(), Resume, algorithm, server, world);
      var r, attempts := transfer.StreamToFile(retries);
      if r.Failed? {
        return None, Some(Unfetched(r.error));
      }
      assert forall chunks {:trigger Flatten(chunks)} :: [] + Flatten(chunks) == Flatten(chunks);
      if r.digest.Some? {
        return r.digest, None;
      }
      var fault := disk.Fault(false);
      if fault.Some? {
        return None, Some(OnDisk(fault.value));
      }
      return Some(HashOfFile(disk.target.value)), None;
    }

    /** Deletes the file, its partial and its sidecar. */
    method Discard() returns (fault: Option<IoError>)
      requires disk.Provenance()
      modifies disk
      ensures disk.Provenance()
      ensures fault.None? ==> Nothing()
      ensures disk.faults == old(disk.faults)
      ensures fault.Some? ==> old(disk.faults).Arbitrary?
    {
      fault := disk.RemoveTarget();
      if fault.None? {
        fault := disk.Discard();
      }
    }

    /** The second download, which only ever starts from nothing. */
    method FetchFromNothing(server: (nat, Request) -> Reply) returns (digest: Option<string>, failure: Option<Failure>)
      requires disk.Provenance() && Nothing()
      modifies disk
      ensures disk.Provenance()
      ensures digest.Some? <==> failure.None?
      ensures digest.Some? ==> disk.target.Some? && digest.value == HashOfFile(disk.target.value)
      ensures failure.Some? ==> !failure.value.Damaged?
      ensures old(disk.faults).Never? && CarriesExpected(server) ==>
                && digest.Some? && Matches(digest.value)
                && disk.target == Some(Flatten(server(0, Request(0, None)).chunks))
    {
      digest, failure := FetchHashed(server);
    }

    /** What is left staged hashes to the expected digest, or nothing is: a mismatch goes, along with its partial and
        sidecar, and downloaded at most once more, from nothing. */
    method FetchVerified(first: (nat, Request) -> Reply, second: (nat, Request) -> Reply, retry: bool)
      returns (r: Checked, transfers: nat)
      requires disk.Provenance()
      modifies disk
      ensures disk.Provenance()
      ensures r.Ok? ==> disk.target.Some? && Matches(HashOfFile(disk.target.value))
      ensures r.Err? && r.failure.Damaged? ==> Nothing() && r.failure.expected == expected.hex && !Matches(r.failure.actual)
      ensures 1 <= transfers <= 2 && (transfers == 2 ==> retry)
      ensures old(disk.target).Some? && Matches(HashOfFile(old(disk.target).value)) && old(disk.faults).Never? ==>
                r.Ok? && transfers == 1 && disk.target == old(disk.target)
      ensures old(disk.target).Some? && retry && old(disk.faults).Never? && CarriesExpected(second) ==> r.Ok?
    {
      hide HashOf, HashOfFile, Matches, CarriesExpected, SameIdentity, Onto;
      transfers := 1;
      var digest, failure := FetchHashed(first);
      if failure.Some? {
        return Err(failure.value), transfers;
      }
      if Matches(digest.value) {
        return Ok, transfers;
      }
      var fault := Discard();
      if fault.Some? {
        return Err(OnDisk(fault.value)), transfers;
      }
      if retry {
        transfers := 2;
        digest, failure := FetchFromNothing(second);
        if failure.Some? {
          return Err(failure.value), transfers;
        }
        if Matches(digest.value) {
          return Ok, transfers;
        }
        fault := Discard();
        if fault.Some? {
          return Err(OnDisk(fault.value)), transfers;
        }
      }
      return Err(Damaged(expected.hex, digest.value)), transfers;
    }
  }
}
