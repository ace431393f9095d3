/** The running hash a transfer keeps of its own bytes (src/fetch/digest.rs). */
module Digest {
  import opened Wrappers

  /** Any hash that absorbs bytes one at a time into a state and encodes the state at the end. */
  datatype Algorithm = Algorithm(start: int, absorb: (int, byte) -> int, encode: int -> string)

  const PREFIX_CHUNK: nat := 64 * 1024

  /** The state after absorbing `bytes` from `state`. */
  function Absorb(a: Algorithm, state: int, bytes: seq<byte>): int {
    if bytes == [] then state else a.absorb(Absorb(a, state, bytes[..|bytes| - 1]), bytes[|bytes| - 1])
  }

  /** The one-pass hash of a whole file. */
  function HashOf(a: Algorithm, bytes: seq<byte>): string {
    a.encode(Absorb(a, a.start, bytes))
  }

  /** Absorbing in pieces is absorbing the concatenation, however the pieces are cut. */
  lemma {:induction false} AbsorbConcat(a: Algorithm, state: int, x: seq<byte>, y: seq<byte>)
    ensures Absorb(a, Absorb(a, state, x), y) == Absorb(a, state, x + y)
  {
    if y == [] {
      assert x + y == x;
    } else {
      var front := y[..|y| - 1];
      AbsorbConcat(a, state, x, front);
      assert (x + y)[..|x + y| - 1] == x + front;
    }
  }

  class Hasher {
    const algorithm: Algorithm
    var state: int

    /** Starts an empty hash, or continues one from a copied state. */
    constructor (algorithm: Algorithm, state: int)
      ensures this.algorithm == algorithm && this.state == state
    {
      this.algorithm := algorithm;
      this.state := state;
    }

    /** Feeds `bytes` to the hash. */
    method Update(bytes: seq<byte>)
      modifies this
      ensures state == Absorb(algorithm, old(state), bytes)
    {
      for i := 0 to |bytes|
        invariant state == Absorb(algorithm, old(state), bytes[..i])
      {
        assert bytes[..i + 1][..i] == bytes[..i];
        state := algorithm.absorb(state, bytes[i]);
      }
      assert bytes[..|bytes|] == bytes;
    }

    /** Feeds `file[from..to]` to the hash, in chunks the file may cut short at any length. Anything to read succeeds
        only when the file reaches `to`; `readable` says whether the device gives every read it is asked for. */
    method UpdateRange(file: seq<byte>, from: nat, to: nat, readable: bool) returns (ok: bool)
      requires from <= to
      modifies this
      ensures ok && from < to ==> to <= |file| && state == Absorb(algorithm, old(state), file[from..to])
      ensures from == to ==> ok && state == old(state)
      ensures readable && to <= |file| ==> ok
    {
      hide Absorb;
      var remaining := to - from;
      while remaining > 0
        invariant 0 <= remaining <= to - from
        invariant remaining == to - from ==> state == old(state)
        invariant remaining < to - from ==>
                    to - remaining <= |file| && state == Absorb(algorithm, old(state), file[from..to - remaining])
      {
        var at := to - remaining;
        var want := if remaining < PREFIX_CHUNK then remaining else PREFIX_CHUNK;
        var there := if |file| <= at then 0 else |file| - at;
        var most := if want < there then want else there;
        var failed: bool := *;
        if most == 0 || (failed && !readable) {
          return false;
        }
        var read: nat :| 1 <= read <= most;
        AbsorbConcat(algorithm, old(state), file[from..at], file[at..at + read]);
        assert file[from..at] + file[at..at + read] == file[from..at + read];
        Update(file[at..at + read]);
        remaining := remaining - read;
      }
      return true;
    }
  }
}
