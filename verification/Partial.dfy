/** The files a transfer keeps and the order it changes them in (src/fetch/partial.rs). */
module Partial {
  import opened Wrappers

  datatype IoError =
    | PermissionDenied | NotFound | ReadOnlyFilesystem | StorageFull | QuotaExceeded | FileTooLarge
    | IsADirectory | NotADirectory | InvalidInput | InvalidData | UnexpectedEof | OtherIo

  /** The disk failures a retry will not cure (src/fetch/download.rs:354-365). */
  predicate IsFinal(e: IoError) {
    !(e.InvalidData? || e.UnexpectedEof? || e.OtherIo?)
  }

  /** No permission, no room, or no such place: nothing another attempt would change. */
  lemma FinalExactly(e: IoError)
    ensures IsFinal(e) <==>
              || e in {PermissionDenied, ReadOnlyFilesystem, InvalidInput}
              || e in {StorageFull, QuotaExceeded, FileTooLarge}
              || e in {NotFound, IsADirectory, NotADirectory}
  {
  }

  /** Which bytes a request asks for. */
  datatype Identity = Identity(url: string, resumeKey: Option<string>, acrossUrls: bool)

  datatype Sidecar = Sidecar(
    url: string, etag: Option<string>, lastModified: Option<string>, total: Option<nat>, resumeKey: Option<string>)
  {
    /** It records the same key, and the same URL unless the key is enough. */
    predicate Matches(identity: Identity) {
      && (url == identity.url || (identity.acrossUrls && identity.resumeKey.Some?))
      && resumeKey == identity.resumeKey
    }
  }

  /** The sidecar on disk: a write cut short leaves one that does not parse. */
  datatype SidecarFile = Missing | Unreadable | Holds(sidecar: Sidecar)

  /** Where a byte of a partial came from: the URL and key of the request that delivered it. */
  datatype Source = Source(url: string, key: Option<string>)

  /** `source` is of the identity `(url, key)`, counting every URL alike under a key some run shared across URLs. */
  ghost predicate SameIdentity(source: Source, url: string, key: Option<string>, shared: set<string>) {
    source.key == key && (source.url == url || (key.Some? && key.value in shared))
  }

  /** How a disk fails: any operation may, in any way; none does; or none does but the next write of a sidecar, which is
      cut short by something another attempt may not meet. */
  datatype Faults = Arbitrary | Never | TornOnce

  /** The three files of one download. Every operation may fail, and one that fails for good ends its run with no
      further change to the disk, so what holds after an operation whether it failed or not holds wherever the process
      stops: between two operations, half-way through a write, at an abort. */
  class Disk {
    var target: Option<seq<byte>>
    var part: Option<seq<byte>>
    var sidecar: SidecarFile

    /** For each byte of the partial, the request that delivered it. */
    ghost var sources: seq<Source>
    /** The keys some run opted to share across URLs. */
    ghost var shared: set<string>

    var faults: Faults
    /** A readable sidecar reads back, and failing to write one, or to rename over the target, ends the run. */
    const orderly: bool

    constructor (target: Option<seq<byte>>, faults: Faults, orderly: bool)
      ensures Valid() && this.target == target && part == None && sidecar == Missing && shared == {}
      ensures this.faults == faults && this.orderly == orderly
    {
      this.target, part, sidecar := target, None, Missing;
      sources, shared := [], {};
      this.faults, this.orderly := faults, orderly;
    }

    function Bytes(): seq<byte>
      reads this
    {
      if part.Some? then part.value else []
    }

    ghost predicate Valid()
      reads this
    {
      |sources| == |Bytes()|
    }

    /** A partial whose sidecar can be read came, byte by byte, from the identity the sidecar records. */
    ghost predicate Provenance()
      reads this
    {
      && Valid()
      && (sidecar.Holds? ==>
            forall i :: 0 <= i < |sources| ==>
              SameIdentity(sources[i], sidecar.sidecar.url, sidecar.sidecar.resumeKey, shared))
    }

    /** The next write of a sidecar is cut short; an orderly disk has no such failure. */
    predicate TearsNext()
      reads this
    {
      faults.TornOnce? && !orderly
    }

    /** Whether an operation fails now, and how; `critical` is one whose failure an orderly disk makes final. */
    method Fault(critical: bool) returns (fault: Option<IoError>)
      ensures fault.Some? ==> faults.Arbitrary?
      ensures critical && orderly && fault.Some? ==> IsFinal(fault.value)
    {
      var kind: IoError := *;
      var fails: bool := *;
      fault := if !faults.Arbitrary? || !fails then None
               else if critical && orderly && !IsFinal(kind) then Some(StorageFull)
               else Some(kind);
    }

    /** Creates the partial empty, or truncates it. */
    method CreatePart() returns (fault: Option<IoError>)
      requires Valid()
      modifies this`part, this`sources
      ensures Valid()
      ensures fault.None? ==> part == Some([])
      ensures fault.Some? ==> faults.Arbitrary? && part == old(part) && sources == old(sources)
    {
      fault := Fault(false);
      if fault.None? {
        part, sources := Some([]), [];
      }
    }

    /** Appends `bytes` to the partial; a failing write leaves a prefix of them. */
    method AppendPart(bytes: seq<byte>, ghost source: Source) returns (fault: Option<IoError>)
      requires Valid() && part.Some?
      modifies this`part, this`sources
      ensures Valid() && part.Some?
      ensures exists n :: 0 <= n <= |bytes| && part.value == old(part.value) + bytes[..n] &&
                          sources == old(sources) + seq(n, _ => source) && (fault.None? ==> n == |bytes|)
      ensures fault.None? ==> part.value == old(part.value) + bytes
      ensures fault.Some? ==> faults.Arbitrary?
    {
      fault := Fault(false);
      var n: nat :| n <= |bytes|;
      if fault.None? {
        n := |bytes|;
      }
      part := Some(part.value + bytes[..n]);
      sources := sources + seq(n, _ => source);
      assert bytes[..|bytes|] == bytes;
    }

    /** Reads the sidecar back; anything that goes wrong reads as none. */
    method ReadSidecar() returns (recorded: Option<Sidecar>)
      ensures recorded.Some? ==> sidecar == Holds(recorded.value)
      ensures (orderly || !faults.Arbitrary?) && sidecar.Holds? ==> recorded == Some(sidecar.sidecar)
    {
      var fails: bool := *;
      recorded := if sidecar.Holds? && (orderly || !faults.Arbitrary? || !fails) then Some(sidecar.sidecar) else None;
    }

    method WriteSidecar(s: Sidecar) returns (fault: Option<IoError>)
      modifies this`sidecar, this`faults
      ensures fault.None? ==> sidecar == Holds(s)
      ensures fault.Some? ==> !old(faults).Never? && (sidecar == old(sidecar) || sidecar == Unreadable)
      ensures fault.Some? && orderly ==> IsFinal(fault.value)
      ensures if old(TearsNext()) then fault == Some(OtherIo) && sidecar == Unreadable && faults.Never?
              else faults == old(faults)
    {
      if TearsNext() {
        sidecar, faults := Unreadable, Never;
        return Some(OtherIo);
      }
      fault := Fault(true);
      var torn: bool := *;
      sidecar := if fault.None? then Holds(s) else if torn then Unreadable else sidecar;
    }

    method RemovePart() returns (fault: Option<IoError>)
      requires Valid()
      modifies this`part, this`sources
      ensures Valid()
      ensures fault.None? ==> part == None
      ensures fault.Some? ==> faults.Arbitrary? && part == old(part) && sources == old(sources)
    {
      fault := Fault(false);
      if fault.None? {
        part, sources := None, [];
      }
    }

    method RemoveTarget() returns (fault: Option<IoError>)
      modifies this`target
      ensures fault.None? ==> target == None
      ensures fault.Some? ==> faults.Arbitrary? && target == old(target)
    {
      fault := Fault(false);
      if fault.None? {
        target := None;
      }
    }

    method RemoveSidecar() returns (fault: Option<IoError>)
      modifies this`sidecar
      ensures fault.None? ==> sidecar == Missing
      ensures fault.Some? ==> faults.Arbitrary? && sidecar == old(sidecar)
    {
      fault := Fault(false);
      if fault.None? {
        sidecar := Missing;
      }
    }

    /** Clears both files; a failure keeps the sidecar, and perhaps the partial too. */
    method Discard() returns (fault: Option<IoError>)
      requires Valid()
      modifies this`part, this`sidecar, this`sources
      ensures Valid()
      ensures fault.None? ==> part == None && sidecar == Missing
      ensures fault.Some? ==> faults.Arbitrary? && sidecar == old(sidecar)
      ensures fault.Some? ==> part == None || (part == old(part) && sources == old(sources))
    {
      fault := RemovePart();
      if fault.None? {
        fault := RemoveSidecar();
      }
    }

    /** A partial survives, as it is, exactly by a sidecar that can be read and matches; without one nothing is left. */
    method Reconcile(identity: Identity) returns (fault: Option<IoError>)
      requires Provenance()
      modifies this`part, this`sidecar, this`sources
      ensures Provenance()
      ensures fault.None? && part != None ==>
                sidecar.Holds? && sidecar.sidecar.Matches(identity) &&
                part == old(part) && sidecar == old(sidecar) && sources == old(sources)
      ensures fault.None? && part == None ==> sidecar == Missing
      ensures fault.None? && part == None && old(part) != None ==>
                (orderly || !faults.Arbitrary? ==> !(old(sidecar).Holds? && old(sidecar).sidecar.Matches(identity)))
      ensures fault.Some? ==> faults.Arbitrary? && sidecar == old(sidecar)
      ensures fault.Some? ==> part == None || (part == old(part) && sources == old(sources))
    {
      fault := Fault(false);
      if fault.Some? {
        return;
      }
      if part.Some? {
        var recorded := ReadSidecar();
        if recorded.Some? && recorded.value.Matches(identity) {
          return;
        }
      }
      fault := Discard();
    }

    /** The partial takes the target's place; a failure on the way costs at most the sidecar. */
    method Promote() returns (fault: Option<IoError>)
      requires Valid() && part.Some?
      modifies this`target, this`part, this`sidecar, this`sources
      ensures Valid()
      ensures fault.None? ==> target == old(part) && part == None && sidecar == Missing
      ensures fault.Some? ==> faults.Arbitrary? && target == old(target) && part == old(part) && sources == old(sources)
      ensures fault.Some? ==> sidecar == Missing || sidecar == old(sidecar)
      ensures fault.Some? && orderly && sidecar != old(sidecar) ==> IsFinal(fault.value)
    {
      fault := RemoveSidecar();
      if fault.None? {
        fault := Fault(true);
        if fault.None? {
          target, part, sources := part, None, [];
        }
      }
    }
  }
}
