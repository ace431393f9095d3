/** Probing a file from its first bytes, and from more of it only when they were not enough
    (src/image/probe_file.rs, src/image/dispatch.rs:107-147). */
module ProbeFile {
  import opened Wrappers
  import opened Endian
  import opened Container
  import opened ColorProfile

  const HEADER_PREFIX: nat := 64 * 1024
  const MAX_PROBE_BYTES: nat := 16 * 1024 * 1024

  /** What a codec reads from a header; the color profile is filled in from the container. */
  datatype Info = Info(width: nat, height: nat, colorType: int, bitDepth: nat, profile: Option<string>)

  datatype Probe = Ok(info: Info) | Failed(error: string) | Unreadable

  type Codec = Bytes -> Probe

  /** A codec that read its header from a prefix reads the same from every extension, and never looks at the profile. */
  ghost predicate IsStable(codec: Codec) {
    forall bytes, more :: codec(bytes).Ok? ==> codec(bytes + more) == codec(bytes)
  }

  /** The whole input at once. */
  function ProbeWithFormat(bytes: Bytes, format: Format, codec: Codec, icc: Bytes -> Option<string>): Probe {
    var probed := codec(bytes);
    if !probed.Ok? then probed else
      match Profile(bytes, format, icc)
      case Decided(Some(profile)) => Ok(probed.info.(profile := Some(profile)))
      case _ => probed
  }

  function AtMost(file: Bytes, most: nat): Bytes {
    if most < |file| then file[..most] else file
  }

  /** The file under the cursor of one probe, whose reads may fail. */
  class Reader {
    const file: Bytes
    /** No read fails. */
    const readable: bool
    var at: nat

    constructor (file: Bytes, readable: bool)
      ensures this.file == file && this.readable == readable && at == 0
    {
      this.file, this.readable := file, readable;
      at := 0;
    }

    /** Appends at most `room` bytes to `bytes`. */
    method ReadToEnd(bytes: Bytes, room: nat) returns (r: Option<Bytes>)
      requires at <= |file| && bytes == file[..at]
      modifies this
      ensures readable ==> r.Some?
      ensures at <= |file| && (r.Some? ==> r.value == file[..at] == AtMost(file, old(at) + room))
    {
      var fails: bool := *;
      if fails && !readable {
        return None;
      }
      var end := if room < |file| - at then at + room else |file|;
      r := Some(bytes + file[at..end]);
      assert file[..at] + file[at..end] == file[..end];
      at := end;
      assert file[..|file|] == file;
    }

    method ReadRestBounded(bytes: Bytes) returns (r: Option<Bytes>)
      requires at <= |file| && bytes == file[..at] && |bytes| <= MAX_PROBE_BYTES
      modifies this
      ensures readable ==> r.Some?
      ensures r.Some? ==> r.value == AtMost(file, 16 * 1024 * 1024)
    {
      r := ReadToEnd(bytes, MAX_PROBE_BYTES - |bytes|);
    }
  }

  /** A short read first. Unless a read failed, the answer is that of probing as much of the file as is ever read, given a
      stable codec and no `meta` box of unstated size in the prefix. */
  method ProbeFile(file: Bytes, readable: bool, format: Format, codec: Codec, icc: Bytes -> Option<string>)
    returns (r: Probe)
    requires forall bytes :: codec(bytes).Ok? ==> codec(bytes).info.profile == None
    ensures |file| < HEADER_PREFIX || (IsStable(codec) && !RestsOnOpenMeta(AtMost(file, HEADER_PREFIX), format)) ==>
              (!readable && r.Unreadable?) || r == ProbeWithFormat(AtMost(file, MAX_PROBE_BYTES), format, codec, icc)
  {
    hide Profile, RestsOnOpenMeta;
    var reader := new Reader(file, readable);
    var read := reader.ReadToEnd([], HEADER_PREFIX);
    if read.None? {
      return Unreadable;
    }
    var prefix := read.value;
    var isWholeFile := |prefix| < HEADER_PREFIX;
    ghost var enough := AtMost(file, MAX_PROBE_BYTES);
    ghost var more := enough[|prefix|..];
    assert enough == prefix + more;
    assert isWholeFile ==> enough == prefix;
    var probed := codec(prefix);
    assert IsStable(codec) && probed.Ok? ==> codec(prefix + more) == probed;
    if probed.Ok? {
      match Profile(prefix, format, icc) {
        case Decided(profile) =>
          if !RestsOnOpenMeta(prefix, format) {
            PrefixIsEnough(prefix, more, format, icc);
          }
          return Ok(probed.info.(profile := profile));
        case RanOut =>
          if isWholeFile {
            return probed;
          }
          read := reader.ReadRestBounded(prefix);
          if read.None? {
            return Unreadable;
          }
          match Profile(read.value, format, icc) {
            case Decided(profile) => return Ok(probed.info.(profile := profile));
            case RanOut => return probed;
          }
      }
    }
    if isWholeFile {
      return probed;
    }
    read := reader.ReadRestBounded(prefix);
    if read.None? {
      return Unreadable;
    }
    return ProbeWithFormat(read.value, format, codec, icc);
  }
}
