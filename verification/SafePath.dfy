/** Splitting and judging archive names and link targets by their text (src/fs/safe_path.rs). */
module SafePath {
  import opened Wrappers
  import opened Text

  predicate IsSlash(c: char) { c == '/' }
  predicate IsSeparator(c: char) { c == '/' || c == '\\' }

  /** Both separators, on every platform. */
  function Pieces(s: string): seq<string> { Split(s, IsSeparator) }

  /** What the operating system splits a target into on Unix, the only platform links are created on. */
  function OsPieces(s: string): seq<string> { Split(s, IsSlash) }

  predicate IsAsciiAlphabetic(c: char) { 'a' <= c <= 'z' || 'A' <= c <= 'Z' }

  /** Why a path's prefix cannot be trusted, if it cannot. */
  function UnsafePrefix(path: string): Option<string> {
    if '\0' in path then Some("contains an embedded NUL byte")
    else if path != [] && IsSeparator(path[0]) then Some("is an absolute path")
    else if |path| >= 2 && IsAsciiAlphabetic(path[0]) && path[1] == ':' then Some("starts with a Windows drive letter")
    else None
  }

  const RESERVED_STEMS: set<string> := {
    "CON", "PRN", "AUX", "NUL", "CLOCK$",
    "COM1", "COM2", "COM3", "COM4", "COM5", "COM6", "COM7", "COM8", "COM9", "COM\U{B9}", "COM\U{B2}", "COM\U{B3}",
    "LPT1", "LPT2", "LPT3", "LPT4", "LPT5", "LPT6", "LPT7", "LPT8", "LPT9", "LPT\U{B9}", "LPT\U{B2}", "LPT\U{B3}"}

  /** A Windows device name, whatever its extension, case or trailing spaces. */
  predicate IsReservedDeviceName(component: string) {
    Upper(TrimEnd(Before(component, '.'))) in RESERVED_STEMS
  }

  predicate IsNothing(piece: string) { piece == "" || piece == "." }

  /** The pieces that name something. */
  function Named(pieces: seq<string>): seq<string> {
    if pieces == [] then [] else (if IsNothing(pieces[0]) then [] else [pieces[0]]) + Named(pieces[1..])
  }

  lemma NamedEnds(pieces: seq<string>)
    ensures [] + Named(pieces[0..]) == Named(pieces) && Named(pieces[|pieces|..]) == []
  {
    assert pieces[0..] == pieces;
  }

  lemma NamedStep(pieces: seq<string>, i: nat)
    requires i < |pieces|
    ensures Named(pieces[i..]) == (if IsNothing(pieces[i]) then [] else [pieces[i]]) + Named(pieces[i + 1..])
  {
    assert pieces[i..][1..] == pieces[i + 1..];
  }

  datatype Verdict = Components(names: seq<string>) | Illegal(reason: string)

  /** A prefix that cannot be trusted, or a piece that climbs or means a device. */
  predicate IsRefusedName(name: string) {
    UnsafePrefix(name).Some? || exists piece <- Pieces(name) :: piece == ".." || IsReservedDeviceName(piece)
  }

  /** Splits an entry name into components, or refuses it: exactly when its prefix is unsafe, or some piece is `..` or a
      reserved device name. */
  method ValidateEntryName(name: string) returns (r: Verdict)
    ensures r.Illegal? <==> IsRefusedName(name)
    ensures r.Components? ==> r.names == Named(Pieces(name))
  {
    hide UnsafePrefix, Split, IsReservedDeviceName, Named;
    var unsafe := UnsafePrefix(name);
    if unsafe.Some? {
      return Illegal(unsafe.value);
    }
    var pieces := Pieces(name);
    var components: seq<string> := [];
    NothingIsReserved();
    NamedEnds(pieces);
    for i := 0 to |pieces|
      invariant components + Named(pieces[i..]) == Named(pieces)
      invariant forall j :: 0 <= j < i ==> pieces[j] != ".." && !IsReservedDeviceName(pieces[j])
    {
      NamedStep(pieces, i);
      assert pieces[i] in pieces;
      if IsNothing(pieces[i]) {
        continue;
      }
      if pieces[i] == ".." {
        return Illegal("contains a `..` component");
      }
      if IsReservedDeviceName(pieces[i]) {
        return Illegal("contains a reserved Windows device name");
      }
      components := components + [pieces[i]];
    }
    return Components(components);
  }

  lemma NothingIsReserved()
    ensures !IsReservedDeviceName("") && !IsReservedDeviceName(".")
  {
    assert Upper(TrimEnd(Before("", '.'))) == "";
    assert Upper(TrimEnd(Before(".", '.'))) == "";
  }

  /** The pieces of a contained target: ups no deeper than `depth`, and none after a name. */
  predicate Contained(pieces: seq<string>, depth: nat, descended: bool) {
    if pieces == [] then true
    else if IsNothing(pieces[0]) then Contained(pieces[1..], depth, descended)
    else if pieces[0] == ".." then !descended && depth > 0 && Contained(pieces[1..], depth - 1, descended)
    else Contained(pieces[1..], depth, true)
  }

  predicate AcceptsTarget(depth: nat, target: string) {
    target != "" && UnsafePrefix(target).None? && Contained(Pieces(target), depth, false)
  }

  /** Whether a link whose name has these components may point at `target`. */
  method ValidateSymlinkTarget(linkComponents: seq<string>, target: string) returns (ok: bool)
    ensures ok <==> AcceptsTarget(if linkComponents == [] then 0 else |linkComponents| - 1, target)
  {
    if target == "" || UnsafePrefix(target).Some? {
      return false;
    }
    var start := if linkComponents == [] then 0 else |linkComponents| - 1;
    var depth: nat := start;
    var descended := false;
    var pieces := Pieces(target);
    for i := 0 to |pieces|
      invariant Contained(pieces, start, false) <==> Contained(pieces[i..], depth, descended)
    {
      assert pieces[i..][1..] == pieces[i + 1..];
      if IsNothing(pieces[i]) {
        continue;
      }
      if pieces[i] == ".." {
        if descended || depth == 0 {
          return false;
        }
        depth := depth - 1;
      } else {
        descended := true;
      }
    }
    return true;
  }

  function LeadingUps(names: seq<string>): (ups: nat)
    ensures ups <= |names|
  {
    if names != [] && names[0] == ".." then 1 + LeadingUps(names[1..]) else 0
  }

  /** The shape the rule amounts to: `(../)*name(/name)*`, climbing no further than the link is deep. */
  lemma {:induction false} ContainedShape(pieces: seq<string>, depth: nat, descended: bool)
    ensures var names := Named(pieces);
            Contained(pieces, depth, descended) <==>
              && LeadingUps(names) <= (if descended then 0 else depth)
              && ".." !in names[LeadingUps(names)..]
    decreases |pieces|
  {
    if pieces != [] {
      var names, rest := Named(pieces), Named(pieces[1..]);
      if IsNothing(pieces[0]) {
        ContainedShape(pieces[1..], depth, descended);
        assert names == rest;
      } else {
        assert names == [pieces[0]] + rest && names[1..] == rest;
        if pieces[0] == ".." {
          if !descended && depth > 0 {
            ContainedShape(pieces[1..], depth - 1, false);
            assert names[LeadingUps(names)..] == rest[LeadingUps(rest)..];
          }
        } else {
          ContainedShape(pieces[1..], depth, true);
          if ".." !in rest {
            assert LeadingUps(rest) == 0;
          }
        }
      }
    }
  }

  /** A name that cannot be taken as relative: one with a NUL in it, one that starts with a separator, one that starts with
      a drive. */
  lemma UnsafeExactly(path: string)
    ensures UnsafePrefix(path).Some? <==>
              || '\0' in path
              || (path != "" && path[0] in {'/', '\\'})
              || (|path| >= 2 && path[1] == ':' && ('a' <= path[0] <= 'z' || 'A' <= path[0] <= 'Z'))
  {
  }

  /** The devices: five by name, and nine serial and nine parallel ports, of which three may be written with a superscript. */
  predicate IsDevice(stem: string) {
    || SameIgnoringCase(stem, "CON") || SameIgnoringCase(stem, "PRN") || SameIgnoringCase(stem, "AUX")
    || SameIgnoringCase(stem, "NUL") || SameIgnoringCase(stem, "CLOCK$")
    || (|stem| == 4 && (SameIgnoringCase(stem[..3], "COM") || SameIgnoringCase(stem[..3], "LPT"))
        && ('1' <= stem[3] <= '9' || stem[3] in {'\U{B9}', '\U{B2}', '\U{B3}'}))
  }

  lemma UpperApart(s: string, n: nat)
    requires n <= |s|
    ensures |Upper(s)| == |s| && Upper(s)[..n] == Upper(s[..n]) && forall i :: 0 <= i < |s| ==> Upper(s)[i] == AsciiUpper(s[i])
  {
  }

  lemma PortNames(port: string, base: string, digit: char)
    requires port == base + [digit] && base in {"COM", "LPT"}
    ensures port in RESERVED_STEMS <==> '1' <= digit <= '9' || digit in {'\U{B9}', '\U{B2}', '\U{B3}'}
  {
    assert port[3] == digit && port[0] == base[0] && port[1] == base[1] && port[2] == base[2];
    if base == "COM" {
      assert digit == '1' ==> port == "COM1";
      assert digit == '2' ==> port == "COM2";
      assert digit == '3' ==> port == "COM3";
      assert digit == '4' ==> port == "COM4";
      assert digit == '5' ==> port == "COM5";
      assert digit == '6' ==> port == "COM6";
      assert digit == '7' ==> port == "COM7";
      assert digit == '8' ==> port == "COM8";
      assert digit == '9' ==> port == "COM9";
      assert digit == '\U{B9}' ==> port == "COM\U{B9}";
      assert digit == '\U{B2}' ==> port == "COM\U{B2}";
      assert digit == '\U{B3}' ==> port == "COM\U{B3}";
    } else {
      assert base == "LPT";
      assert digit == '1' ==> port == "LPT1";
      assert digit == '2' ==> port == "LPT2";
      assert digit == '3' ==> port == "LPT3";
      assert digit == '4' ==> port == "LPT4";
      assert digit == '5' ==> port == "LPT5";
      assert digit == '6' ==> port == "LPT6";
      assert digit == '7' ==> port == "LPT7";
      assert digit == '8' ==> port == "LPT8";
      assert digit == '9' ==> port == "LPT9";
      assert digit == '\U{B9}' ==> port == "LPT\U{B9}";
      assert digit == '\U{B2}' ==> port == "LPT\U{B2}";
      assert digit == '\U{B3}' ==> port == "LPT\U{B3}";
    }
  }

  lemma ReservedStems(stem: string)
    ensures Upper(stem) in RESERVED_STEMS <==> IsDevice(stem)
  {
    var upper := Upper(stem);
    assert Upper("CON") == "CON" && Upper("PRN") == "PRN" && Upper("AUX") == "AUX" && Upper("NUL") == "NUL";
    assert Upper("CLOCK$") == "CLOCK$" && Upper("COM") == "COM" && Upper("LPT") == "LPT";
    if |stem| == 4 {
      UpperApart(stem, 3);
      assert upper == upper[..3] + [upper[3]];
      if upper[..3] in {"COM", "LPT"} {
        PortNames(upper, upper[..3], upper[3]);
      }
    }
  }

  /** A reserved name is a device's in any case, with any white space and any extension after it. */
  lemma ReservedExactly(stem: string, spaces: string, extension: string)
    requires '.' !in stem && '.' !in spaces && IsBlank(spaces) && (stem == "" || !IsWhite(stem[|stem| - 1]))
    requires extension == "" || extension[0] == '.'
    ensures IsReservedDeviceName(stem + spaces + extension) <==> IsDevice(stem)
  {
    var front := stem + spaces;
    if extension == "" {
      BeforeNone(front, '.');
      assert front + extension == front;
    } else {
      BeforeAt(front, '.', extension[1..]);
      assert front + extension == front + ['.'] + extension[1..];
    }
    TrimEndBlank(stem, spaces);
    ReservedStems(stem);
  }
}
