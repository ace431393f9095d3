/** What an extraction may consume, what it reports, and one entry after the other (src/fs/extract.rs). */
module Extract {
  import opened Wrappers
  import opened Text
  import opened SafePath
  import opened Containment
  import opened ExtractRoot

  const PROGRESS_BYTES: nat := 256 * 1024

  datatype Limit = Entries | FileBytes | TotalBytes

  datatype FsError = LimitExceeded(limit: Limit) | IllegalPath | IllegalSymlink | DeclaredSizeMismatch | Io

  datatype Result = Ok | Err(error: FsError)

  /** No ceiling is none; zero is a ceiling. */
  datatype Options = Options(
    maxEntries: Option<nat>, maxTotalBytes: Option<nat>, maxFileBytes: Option<nat>, symlinks: bool, hooked: bool)

  function SaturatingAdd(x: nat, y: nat): nat {
    if x + y > U64_MAX then U64_MAX else x + y
  }

  function SaturatingSub(x: nat, y: nat): nat {
    if x < y then 0 else x - y
  }

  /** What reserving and settling one entry comes to. */
  function Settled(used: nat, declared: nat, actual: nat): nat {
    SaturatingSub(SaturatingAdd(used, declared), SaturatingSub(declared, actual))
  }

  /** Reserving what an entry declares and handing back what it did not use counts exactly the bytes written if and only
      if the reservation did not saturate. */
  lemma SettlesExactly(used: nat, declared: nat, actual: nat)
    requires used <= U64_MAX && actual <= declared <= U64_MAX
    ensures Settled(used, declared, actual) == used + actual <==> used + declared <= U64_MAX
  {
  }

  class Budget {
    const options: Options
    var usedBytes: nat
    var usedEntries: nat

    constructor (options: Options)
      ensures this.options == options && usedBytes == 0 && usedEntries == 0
    {
      this.options, usedBytes, usedEntries := options, 0, 0;
    }

    /** An entry of that size is over its own ceiling, or would take the total over the other one. */
    predicate BreaksCeiling(declared: nat)
      reads this`usedBytes
    {
      || (options.maxFileBytes.Some? && declared > options.maxFileBytes.value)
      || (options.maxTotalBytes.Some? && SaturatingAdd(usedBytes, declared) > options.maxTotalBytes.value)
    }

    /** Counts one entry, whatever becomes of it. */
    method CountEntry() returns (r: Result)
      modifies this`usedEntries
      ensures usedEntries == old(usedEntries) + 1
      ensures r == if options.maxEntries.Some? && usedEntries > options.maxEntries.value then Err(LimitExceeded(Entries))
                   else Ok
    {
      usedEntries := usedEntries + 1;
      if options.maxEntries.Some? && usedEntries > options.maxEntries.value {
        return Err(LimitExceeded(Entries));
      }
      return Ok;
    }

    /** Charges an entry with its declared size, within both ceilings, or refuses it and charges nothing. */
    method Reserve(declared: nat) returns (r: Result)
      modifies this`usedBytes
      ensures r.Ok? ==>
                && usedBytes == SaturatingAdd(old(usedBytes), declared)
                && (options.maxFileBytes.Some? ==> declared <= options.maxFileBytes.value)
                && (options.maxTotalBytes.Some? ==> usedBytes <= options.maxTotalBytes.value)
      ensures options.maxFileBytes.Some? && declared > options.maxFileBytes.value ==> r == Err(LimitExceeded(FileBytes))
      ensures r.Err? ==> usedBytes == old(usedBytes) && BreaksCeiling(declared)
      ensures r.Err? && r.error != LimitExceeded(FileBytes) ==> r.error == LimitExceeded(TotalBytes)
      ensures old(BreaksCeiling(declared)) ==> r.Err?
    {
      if options.maxFileBytes.Some? && declared > options.maxFileBytes.value {
        return Err(LimitExceeded(FileBytes));
      }
      if options.maxTotalBytes.Some? && SaturatingAdd(usedBytes, declared) > options.maxTotalBytes.value {
        return Err(LimitExceeded(TotalBytes));
      }
      usedBytes := SaturatingAdd(usedBytes, declared);
      return Ok;
    }

    /** Leaves what was written charged, unless reserving it saturated. */
    method Settle(reserved: nat, actual: nat)
      modifies this`usedBytes
      ensures usedBytes == SaturatingSub(old(usedBytes), SaturatingSub(reserved, actual))
    {
      usedBytes := SaturatingSub(usedBytes, SaturatingSub(reserved, actual));
    }
  }

  datatype Update = Update(entries: nat, bytes: nat)

  /** Coalesces updates for the caller's hook; without one nothing is reported. */
  class Reporter {
    const hooked: bool
    var entries: nat
    var bytes: nat
    var reportedBytes: nat
    /** Every snapshot the hook was given. */
    ghost var reports: seq<Update>

    constructor (hooked: bool)
      ensures this.hooked == hooked && entries == 0 && bytes == 0 && reports == [] && Valid()
    {
      this.hooked, entries, bytes, reportedBytes, reports := hooked, 0, 0, 0, [];
    }

    /** What is reported never goes back, and never gets ahead of the count. */
    ghost predicate Valid()
      reads this
    {
      && reportedBytes <= bytes
      && (forall i, j :: 0 <= i <= j < |reports| ==>
            reports[i].entries <= reports[j].entries && reports[i].bytes <= reports[j].bytes)
      && forall u <- reports :: u.entries <= entries && u.bytes <= bytes
    }

    method Flush()
      requires Valid()
      modifies this`reportedBytes, this`reports
      ensures Valid()
      ensures reportedBytes == bytes
      ensures reports == if hooked then old(reports) + [Update(entries, bytes)] else old(reports)
    {
      if hooked {
        reports := reports + [Update(entries, bytes)];
      }
      reportedBytes := bytes;
    }

    method Advance(n: nat)
      requires Valid()
      modifies this`bytes, this`reportedBytes, this`reports
      ensures Valid() && bytes == old(bytes) + n && old(reports) <= reports
      ensures bytes - reportedBytes < 262144
      ensures hooked && old(bytes) + n - old(reportedBytes) >= 262144 ==> reports == old(reports) + [Update(entries, bytes)]
    {
      bytes := bytes + n;
      assert PROGRESS_BYTES == 262144;
      var elapsed: bool := *;
      if bytes - reportedBytes >= PROGRESS_BYTES || elapsed {
        Flush();
      }
    }

    method FinishEntry()
      requires Valid()
      modifies this`entries, this`reportedBytes, this`reports
      ensures Valid() && entries == old(entries) + 1
      ensures reports == if hooked then old(reports) + [Update(entries, bytes)] else old(reports)
    {
      entries := entries + 1;
      Flush();
    }
  }

  datatype Kind = Dir | Regular | Symlink | Other

  /** What the archive's metadata says, none of it trusted. */
  datatype RawEntry = RawEntry(name: string, kind: Kind, size: nat, linkTarget: Option<string>)

  /** An entry's stream: how much each read gives, whether it ends or breaks off, and its text when it holds a target. */
  datatype Data = Data(chunks: seq<nat>, whole: bool, text: string)

  function Total(chunks: seq<nat>): nat {
    if chunks == [] then 0 else Total(chunks[..|chunks| - 1]) + chunks[|chunks| - 1]
  }

  datatype Summary = Summary(files: nat, directories: nat, symlinks: nat, skipped: nat, bytes: nat)

  function CountOf(s: Summary): nat {
    s.files + s.directories + s.symlinks + s.skipped
  }

  const MAX_SYMLINK_TARGET: nat := 4096

  function TrimEndLine(s: string): string {
    if s != "" && s[|s| - 1] in {'\r', '\n', '\0'} then TrimEndLine(s[..|s| - 1]) else s
  }

  /** A link's target is in its header or, for formats that keep it there, in the entry's stream. */
  function TargetOf(entry: RawEntry, data: Data): string {
    if entry.linkTarget.Some? then entry.linkTarget.value else TrimEndLine(data.text)
  }

  /** A target in the header is taken as it is, and one in the stream without the line ends and zeros after it. */
  lemma TargetExactly(entry: RawEntry, text: string, ends: string, data: Data)
    requires forall i :: 0 <= i < |ends| ==> ends[i] in {'\r', '\n', '\0'}
    requires data.text == text + ends && (text == "" || text[|text| - 1] !in {'\r', '\n', '\0'})
    ensures TargetOf(entry, data) == if entry.linkTarget.Some? then entry.linkTarget.value else text
  {
    TrimmedLine(text, ends);
  }

  lemma {:induction false} TrimmedLine(text: string, ends: string)
    requires forall i :: 0 <= i < |ends| ==> ends[i] in {'\r', '\n', '\0'}
    requires text == "" || text[|text| - 1] !in {'\r', '\n', '\0'}
    ensures TrimEndLine(text + ends) == text
  {
    if ends == "" {
      assert text + ends == text;
    } else {
      assert (text + ends)[..|text + ends| - 1] == text + ends[..|ends| - 1];
      TrimmedLine(text, ends[..|ends| - 1]);
    }
  }

  predicate IsOnePiece(piece: string) {
    forall c <- piece :: !IsSeparator(c)
  }

  lemma {:induction false} NamedArePlain(pieces: seq<string>)
    requires forall piece <- pieces :: piece != ".." && IsOnePiece(piece)
    ensures ArePlain(Named(pieces))
  {
    hide IsOnePiece, IsNothing;
    if pieces != [] {
      assert pieces[0] in pieces && IsOnePiece(pieces[0]);
      assert !IsNothing(pieces[0]) ==> IsPlain(pieces[0]) by { PlainPiece(pieces[0]); }
      assert forall piece <- pieces[1..] :: piece in pieces;
      NamedArePlain(pieces[1..]);
    }
  }

  lemma PlainPiece(piece: string)
    requires piece != ".." && IsOnePiece(piece)
    ensures !IsNothing(piece) ==> IsPlain(piece)
  {
  }

  /** An entry name's components are plain names. */
  lemma ComponentsArePlain(name: string)
    requires forall piece <- Pieces(name) :: piece != ".."
    ensures ArePlain(Named(Pieces(name)))
  {
    PiecesHoldNoSeparator(name, IsSeparator);
    NamedArePlain(Pieces(name));
  }

  // Where created links lead.

  /** A link the archive made: its accepted name and its target. */
  datatype LinkMade = LinkMade(path: Path, target: string)

  /** It is there, and its target was accepted for its name. */
  ghost predicate IsRecorded(tree: Tree, link: LinkMade) {
    && link.path != [] && ArePlain(link.path) && AcceptsTarget(|link.path| - 1, link.target)
    && IsLinkAt(tree, link.path, link.target)
  }

  predicate IsKept(tree: Tree, link: LinkMade) {
    IsContained(Resolve(tree, [], link.path, MAX_LINKS))
  }

  /** It climbs no deeper than the directory it really stands in. */
  predicate StaysInside(tree: Tree, link: LinkMade) {
    link.path != [] && PlaceOf(tree, link.path).Some? && StaysAt(|PlaceOf(tree, link.path).value| - 1, link.target)
  }

  /** Resolving it took more links than the system follows. */
  predicate RanOut(tree: Tree, link: LinkMade) {
    Resolve(tree, [], link.path, MAX_LINKS).Loops?
  }

  /** Where the recorded links really stand. */
  function Places(tree: Tree, links: seq<LinkMade>): set<Path> {
    set link | link in links && link.path != [] && PlaceOf(tree, link.path).Some? :: PlaceOf(tree, link.path).value
  }

  /** No plain name at all leads outside, whether the archive created it or not. */
  ghost predicate NoNameEscapes(tree: Tree) {
    forall name: Path, links: nat :: ArePlain(name) ==> Resolve(tree, [], name, links) != Escapes
  }

  /** The walk of a link's name reaches the link and then walks its target, or runs out of links. */
  lemma {:induction false} ReachesLink(tree: Tree, at: Path, front: seq<string>, last: string, links: nat, target: string)
    returns (left: nat)
    requires IsPlain(last) && Resolve(tree, at, front, links).Inside?
    requires var dir := Resolve(tree, at, front, links).path;
             IsDirectory(tree, dir) && dir + [last] in tree && tree[dir + [last]] == Link(target)
    requires target == "" || !IsSlash(target[0])
    ensures var dir := Resolve(tree, at, front, links).path; var end := Resolve(tree, at, front + [last], links);
            end == Loops || end == Resolve(tree, dir, OsPieces(target), left)
    decreases links, |front|
  {
    hide Split;
    left := 0;
    if front == [] {
      if links > 0 {
        left := links - 1;
        StepThrough(tree, at, front + [last], links, target);
        assert OsPieces(target) + (front + [last])[1..] == OsPieces(target);
      }
    } else {
      var rest := front[1..];
      assert (front + [last])[1..] == rest + [last];
      if IsNothing(front[0]) {
        left := ReachesLink(tree, at, rest, last, links, target);
      } else if front[0] == ".." {
        left := ReachesLink(tree, at[..|at| - 1], rest, last, links, target);
      } else {
        var next := at + [front[0]];
        match tree[next]
        case Directory => left := ReachesLink(tree, next, rest, last, links, target);
        case File => {}
        case Link(through) =>
          assert OsPieces(through) + (rest + [last]) == OsPieces(through) + rest + [last];
          left := ReachesLink(tree, at, OsPieces(through) + rest, last, links - 1, target);
      }
    }
  }

  /** A recorded link that is kept, and not because the links ran out, stays inside from where it really stands. */
  lemma KeptStaysInside(tree: Tree, link: LinkMade)
    requires IsRecorded(tree, link) && IsKept(tree, link) && !RanOut(tree, link)
    ensures StaysInside(tree, link)
  {
    hide Split, AcceptsTarget, NeverEscapes, IsPlain, Resolve;
    var path, target := link.path, link.target;
    var front, last := path[..|path| - 1], path[|path| - 1];
    PlainApart(path);
    AcceptedStaysAt(|path| - 1, target);
    var left := ReachesLink(tree, [], front, last, MAX_LINKS, target);
    var dir := RealDirectory(tree, front).value;
    if !NeverEscapes(OsPieces(target), |dir|, false) {
      ClimbsFirst(tree, dir, OsPieces(target), |path| - 1, left);
    }
    assert |PlaceOf(tree, path).value| - 1 == |dir|;
  }

  lemma {:induction false} DirectoryNamesArePlain(tree: Tree, exempt: set<Path>, path: Path)
    requires IsRooted(tree) && LinksContainedBut(tree, exempt) && IsDirectory(tree, path)
    ensures ArePlain(path)
    decreases |path|
  {
    hide IsPlain, StaysAt;
    if path != [] {
      var front, last := path[..|path| - 1], path[|path| - 1];
      DirectoryNamesArePlain(tree, exempt, front);
      assert IsPlain(last) && forall name <- path :: name == last || name in front;
    }
  }

  lemma {:induction false} FrontsAreDirectories(tree: Tree, path: Path, n: nat)
    requires IsRooted(tree) && IsDirectory(tree, path) && n <= |path|
    ensures IsDirectory(tree, path[..n])
    decreases |path|
  {
    if n == |path| {
      assert path[..n] == path;
    } else {
      FrontsAreDirectories(tree, path[..|path| - 1], n);
      assert path[..|path| - 1][..n] == path[..n];
    }
  }

  /** A directory is where its own names lead. */
  lemma {:induction false} WalksToDirectory(tree: Tree, dir: Path, n: nat, rest: seq<string>, links: nat)
    requires n <= |dir| && ArePlain(dir) && forall m :: 0 <= m <= |dir| ==> IsDirectory(tree, dir[..m])
    ensures Resolve(tree, dir[..n], dir[n..] + rest, links) == Resolve(tree, dir, rest, links)
    decreases |dir| - n
  {
    if n == |dir| {
      assert dir[..n] == dir && dir[n..] + rest == rest;
    } else {
      var pending := dir[n..] + rest;
      assert pending[0] == dir[n] && pending[1..] == dir[n + 1..] + rest && dir[n] in dir;
      assert dir[..n] + [dir[n]] == dir[..n + 1];
      assert IsDirectory(tree, dir[..n + 1]) && IsPlain(dir[n]);
      hide Resolve, IsPlain, IsDirectory;
      Descends(tree, dir[..n], pending, links);
      WalksToDirectory(tree, dir, n + 1, rest, links);
    }
  }

  lemma Descends(tree: Tree, at: Path, pending: seq<string>, links: nat)
    requires pending != [] && IsPlain(pending[0]) && IsDirectory(tree, at + [pending[0]])
    ensures Resolve(tree, at, pending, links) == Resolve(tree, at + [pending[0]], pending[1..], links)
  {
  }

  /** By the name it really has, a link is reached without following any other. */
  lemma WalksToLink(tree: Tree, exempt: set<Path>, link: LinkMade)
    requires IsRooted(tree) && LinksContainedBut(tree, exempt) && IsRecorded(tree, link)
    requires link.target == "" || !IsSlash(link.target[0])
    ensures var place := PlaceOf(tree, link.path);
            && place.Some? && place.value != [] && ArePlain(place.value)
            && Resolve(tree, [], place.value, 1)
               == Resolve(tree, place.value[..|place.value| - 1], OsPieces(link.target), 0)
  {
    hide Split, AcceptsTarget, LinksContainedBut, IsRooted;
    PlainApart(link.path);
    var dir, last := RealDirectory(tree, link.path[..|link.path| - 1]).value, link.path[|link.path| - 1];
    var place := dir + [last];
    assert IsDirectory(tree, dir) && place[..|place| - 1] == dir && !IsNothing(last) && last != "..";
    hide Resolve, IsPlain, IsDirectory;
    DirectoryNamesArePlain(tree, exempt, dir);
    forall m | 0 <= m <= |dir| ensures IsDirectory(tree, dir[..m]) {
      FrontsAreDirectories(tree, dir, m);
    }
    WalksToDirectory(tree, dir, 0, [last], 1);
    assert dir[..0] == [] && dir[0..] + [last] == place;
    StepThrough(tree, dir, [last], 1, link.target);
    assert OsPieces(link.target) + [last][1..] == OsPieces(link.target);
  }

  /** A link that climbs deeper than where it really stands leads outside, by the name it really has. */
  lemma ClimberEscapes(tree: Tree, exempt: set<Path>, link: LinkMade)
    requires IsRooted(tree) && LinksContainedBut(tree, exempt) && IsRecorded(tree, link)
    requires !StaysInside(tree, link)
    ensures !NoNameEscapes(tree)
  {
    hide Split, AcceptsTarget, NeverEscapes, PlaceOf, Resolve, ArePlain, IsRooted, LinksContainedBut;
    AcceptedStaysAt(|link.path| - 1, link.target);
    WalksToLink(tree, exempt, link);
    var place := PlaceOf(tree, link.path).value;
    ClimbsFirst(tree, place[..|place| - 1], OsPieces(link.target), |link.path| - 1, 0);
    assert Resolve(tree, [], place, 1) == Escapes;
  }

  lemma KeptAllStay(tree: Tree, links: seq<LinkMade>)
    requires LinksContainedBut(tree, Places(tree, links))
    requires forall link <- links :: IsRecorded(tree, link) && IsKept(tree, link)
    requires forall link <- links :: RanOut(tree, link) ==> StaysInside(tree, link)
    ensures LinksContained(tree)
  {
    hide IsKept, RanOut, StaysInside, LinksContainedBut, LinksContained, IsRecorded, Places, PlaceOf;
    forall link <- links ensures StaysInside(tree, link) {
      if !RanOut(tree, link) {
        KeptStaysInside(tree, link);
      }
    }
    AllStay(tree, links);
  }

  /** When every link is kept, no name leads outside if and only if none of the links on which the system gave up climbs
      deeper than where it really stands. */
  lemma EscapesExactly(tree: Tree, links: seq<LinkMade>)
    requires IsRooted(tree) && LinksContainedBut(tree, Places(tree, links))
    requires forall link <- links :: IsRecorded(tree, link) && IsKept(tree, link)
    ensures NoNameEscapes(tree) <==> forall link <- links :: RanOut(tree, link) ==> StaysInside(tree, link)
  {
    hide *;
    if forall link <- links :: RanOut(tree, link) ==> StaysInside(tree, link) {
      KeptAllStay(tree, links);
      NoneEscape(tree);
    } else {
      var link :| link in links && RanOut(tree, link) && !StaysInside(tree, link);
      ClimberEscapes(tree, Places(tree, links), link);
    }
  }

  lemma AllStay(tree: Tree, links: seq<LinkMade>)
    requires LinksContainedBut(tree, Places(tree, links))
    requires forall link <- links :: IsRecorded(tree, link) && StaysInside(tree, link)
    ensures LinksContained(tree)
  {
    hide Resolve, IsPlain, AcceptsTarget, StaysAt, PlaceOf, ArePlain;
    forall path <- tree | tree[path].Link? ensures path != [] && StaysAt(|path| - 1, tree[path].target) {
      if path in Places(tree, links) {
        var link :| link in links && link.path != [] && PlaceOf(tree, link.path) == Some(path);
        assert IsRecorded(tree, link) && StaysInside(tree, link);
      }
    }
  }

  lemma NoneEscape(tree: Tree)
    requires LinksContained(tree)
    ensures NoNameEscapes(tree)
  {
    hide Resolve, LinksContained;
    forall name: Path, links: nat | ArePlain(name) ensures Resolve(tree, [], name, links) != Escapes {
      NamesNeverEscape(name, 0, false);
      ResolutionStaysInside(tree, [], name, links);
    }
  }

  /** A recorded link stays where it is as the tree grows. */
  lemma StillRecorded(tree: Tree, later: Tree, link: LinkMade)
    requires Grows(tree, later) && IsRecorded(tree, link)
    ensures IsRecorded(later, link) && PlaceOf(later, link.path) == PlaceOf(tree, link.path)
  {
    hide AcceptsTarget, RealDirectory;
    StillADirectory(tree, later, link.path[..|link.path| - 1]);
  }

  lemma SamePlaces(tree: Tree, later: Tree, links: seq<LinkMade>)
    requires Grows(tree, later) && forall link <- links :: IsRecorded(tree, link)
    ensures Places(later, links) == Places(tree, links) && forall link <- links :: IsRecorded(later, link)
  {
    hide PlaceOf, IsRecorded, Grows;
    assert forall link <- links :: link.path != [] by {
      forall link <- links ensures link.path != [] { NotTheRoot(tree, link); }
    }
    forall link <- links
      ensures IsRecorded(later, link) && PlaceOf(later, link.path) == PlaceOf(tree, link.path)
    {
      StillRecorded(tree, later, link);
    }
  }

  lemma NotTheRoot(tree: Tree, link: LinkMade)
    requires IsRecorded(tree, link)
    ensures link.path != [] && PlaceOf(tree, link.path).Some?
  {
  }

  // A link on which the system gave up.

  /** A name whose parent takes every link the system follows to resolve, and is the root. */
  const FAR: Path := Rounds(MAX_LINKS) + ["L"]

  function Joined(path: Path): string {
    if path == [] then "" else if |path| == 1 then path[0] else path[0] + "/" + Joined(path[1..])
  }

  /** Names joined by slashes are what a name is split into again. */
  lemma {:induction false} JoinedIsSplit(path: Path)
    requires ArePlain(path)
    ensures Named(Pieces(Joined(path))) == path
  {
    if path != [] {
      var first, rest := path[0], path[1..];
      assert path == [first] + rest && first in path && forall name <- rest :: name in path;
      hide Split;
      JoinedIsSplit(rest);
      if rest == [] {
        SplitWhole(first, IsSeparator);
        assert [first][1..] == [];
      } else {
        assert Joined(path) == first + ['/'] + Joined(rest);
        SplitFirst(first, '/', Joined(rest), IsSeparator);
        assert ([first] + Pieces(Joined(rest)))[1..] == Pieces(Joined(rest));
      }
    } else {
      NoneIsSplit();
    }
  }

  lemma NoneIsSplit()
    ensures Named(Pieces("")) == []
  {
    assert Pieces("") == [""] && [""][1..] == [];
  }

  const TREE_FAR: Tree := TREE_A[["L"] := Link("..")]

  lemma FarIsPlain()
    ensures FAR != [] && FAR[..|FAR| - 1] == Rounds(MAX_LINKS) && FAR[|FAR| - 1] == "L" && |FAR| - 1 == 2 * MAX_LINKS
    ensures ArePlain(FAR) && ArePlain(["d"]) && ArePlain(["d", "a"]) && ArePlain(["L"])
  {
    RoundsArePlain(MAX_LINKS);
    hide Rounds;
  }

  lemma FarParent()
    ensures RealDirectory(TREE_A, Rounds(MAX_LINKS)) == RealDirectory(TREE_FAR, Rounds(MAX_LINKS)) == Some([])
  {
    hide Rounds, Resolve;
    var rounds := Rounds(MAX_LINKS);
    assert rounds + [] == rounds;
    RoundsReturn(TREE_A, MAX_LINKS, [], MAX_LINKS);
    RoundsReturn(TREE_FAR, MAX_LINKS, [], MAX_LINKS);
    NothingLeft(TREE_A);
    NothingLeft(TREE_FAR);
  }

  lemma NothingLeft(tree: Tree)
    ensures Resolve(tree, [], [], 0) == Inside([])
  {
  }

  lemma FarIsMade()
    ensures FAR != [] && Linked(TREE_A, FAR, "..") == Some(TREE_FAR)
  {
    hide Rounds, Resolve, RealDirectory;
    FarIsPlain();
    FarParent();
    MakeAllNothing(TREE_A, Rounds(MAX_LINKS));
    assert [] + ["L"] == ["L"];
  }

  lemma LeadsUp(tree: Tree, links: nat)
    requires ["L"] in tree && tree[["L"]] == Link("..")
    ensures Resolve(tree, [], ["L"], links) == if links == 0 then Loops else Escapes
  {
    hide Split;
    UpTargetPieces(1);
    assert Repeat("..", 1) == [".."] && UpTarget(1) == ".." && [] + ["L"] == ["L"];
    assert [".."] + ["L"][1..] == [".."];
  }

  /** The name it was created by runs out of links just before it, which the extractor accepts; its own name leaves the
      root. */
  lemma FarEscapes()
    ensures IsKept(TREE_FAR, LinkMade(FAR, "..")) && RanOut(TREE_FAR, LinkMade(FAR, ".."))
    ensures Resolve(TREE_FAR, [], ["L"], MAX_LINKS) == Escapes && !NoNameEscapes(TREE_FAR)
  {
    hide Rounds, Resolve;
    RoundsReturn(TREE_FAR, MAX_LINKS, ["L"], MAX_LINKS);
    LeadsUp(TREE_FAR, 0);
    LeadsUp(TREE_FAR, MAX_LINKS);
    FarIsPlain();
  }

  lemma UpIsAccepted(depth: nat)
    requires depth > 0
    ensures AcceptsTarget(depth, "..")
  {
    UpTargetPieces(1);
    UpTargetAccepted(1);
    assert Repeat("..", 1) == [".."] && UpTarget(1) == "..";
    assert Contained([".."], depth, false) by {
      assert [".."][1..] == [];
    }
    hide *;
  }

  lemma FirstIsMade()
    ensures MakeAll(map[], ["d"]) == Some(map[["d"] := Directory])
  {
    assert ["d"][..0] == [] && [] + ["d"] == ["d"];
    assert RealDirectory(map[], ["d"]) == None;
    assert MakeAll(map[], []) == Some(map[]);
  }

  lemma SecondIsMade(tree: Tree)
    requires tree == map[["d"] := Directory]
    ensures Linked(tree, ["d", "a"], "..") == Some(TREE_A) && IsKept(TREE_A, LinkMade(["d", "a"], ".."))
  {
    hide Split;
    assert ["d", "a"][..1] == ["d"] && [] + ["d"] == ["d"] && ["d"] + ["a"] == ["d", "a"];
    assert RealDirectory(tree, ["d"]) == Some(["d"]);
    ThroughA(TREE_A, [], MAX_LINKS);
    assert ["d", "a"] + [] == ["d", "a"];
  }

  lemma SecondIsKept()
    ensures IsKept(TREE_FAR, LinkMade(["d", "a"], ".."))
  {
    hide Split;
    ThroughA(TREE_FAR, [], MAX_LINKS);
    assert ["d", "a"] + [] == ["d", "a"];
  }

  /** Three entries that are all extracted, and a finish that succeeds, after which a name of the tree leads outside. */
  method LeavesOneOutside() returns (x: Extractor, r: Option<Summary>)
    ensures r.Some? && x.links == [LinkMade(["d", "a"], ".."), LinkMade(FAR, "..")]
    ensures x.root.tree == TREE_FAR && !NoNameEscapes(x.root.tree)
  {
    var nothing := Data([], true, "");
    var up := Some("..");
    hide MakeAll, Linked, IsKept, RanOut, NoNameEscapes, Rounds, AcceptsTarget, ArePlain, IsRecorded, LinksContained,
         LinksContainedBut, StaysInside, Places, IsPlain, Joined, Extractor.Sound, Extractor.KeepsLinks, Extractor.LinksKept,
         Extractor.Conserved, IsRooted, Resolve, RealDirectory;
    FarIsPlain();
    UpIsAccepted(1);
    UpIsAccepted(2 * MAX_LINKS);
    FirstIsMade();
    SecondIsMade(map[["d"] := Directory]);
    FarIsMade();
    FarEscapes();
    SecondIsKept();
    x := new Extractor(Options(None, None, None, true, false), map[]);
    var made := x.VisitDir(["d"]);
    made := x.VisitSymlink(RawEntry(Joined(["d", "a"]), Symlink, 0, up), ["d", "a"], nothing);
    made := x.VisitSymlink(RawEntry(Joined(FAR), Symlink, 0, up), FAR, nothing);
    r := x.Finish();
  }

  /** What creating a directory or a file leaves of the links. */
  ghost predicate Carried(tree: Tree, later: Tree, links: seq<LinkMade>) {
    && Grows(tree, later)
    && (forall link <- links :: IsRecorded(later, link))
    && (LinksContainedBut(tree, Places(tree, links)) ==> LinksContainedBut(later, Places(later, links)))
    && (LinksContained(tree) ==> LinksContained(later))
  }

  lemma FileCarries(tree: Tree, path: Path, links: seq<LinkMade>)
    requires IsRooted(tree) && path != [] && ArePlain(path) && FileMade(tree, path).Some?
    requires forall link <- links :: IsRecorded(tree, link)
    ensures Carried(tree, FileMade(tree, path).value, links)
  {
    hide IsRooted, ArePlain, FileMade, IsRecorded, Places, LinksContained, LinksContainedBut, Grows;
    var later := FileMade(tree, path).value;
    FileIsMade(tree, Places(tree, links), path);
    FileIsMade(tree, {}, path);
    SamePlaces(tree, later, links);
    NoneExempt(tree);
    NoneExempt(later);
  }

  lemma DirectoryCarries(tree: Tree, path: Path, links: seq<LinkMade>)
    requires IsRooted(tree) && ArePlain(path) && MakeAll(tree, path).Some?
    requires forall link <- links :: IsRecorded(tree, link)
    ensures Carried(tree, MakeAll(tree, path).value, links)
  {
    hide IsRooted, ArePlain, MakeAll, IsRecorded, Places, LinksContained, LinksContainedBut, Grows, RealDirectory;
    var later := MakeAll(tree, path).value;
    MakeAllMakes(tree, path);
    if LinksContainedBut(tree, Places(tree, links)) {
      MakeAllKeepsContained(tree, Places(tree, links), path);
    }
    if LinksContainedBut(tree, {}) {
      MakeAllKeepsContained(tree, {}, path);
    }
    SamePlaces(tree, later, links);
    NoneExempt(tree);
    NoneExempt(later);
  }

  lemma MoreExempt(tree: Tree, exempt: set<Path>, more: set<Path>)
    requires LinksContainedBut(tree, exempt) && exempt <= more
    ensures LinksContainedBut(tree, more)
  {
    hide IsPlain, StaysAt;
  }

  lemma LinkCarries(tree: Tree, path: Path, target: string, links: seq<LinkMade>)
    requires IsRooted(tree) && path != [] && ArePlain(path) && Linked(tree, path, target).Some?
    requires AcceptsTarget(|path| - 1, target) && forall link <- links :: IsRecorded(tree, link)
    ensures var later := Linked(tree, path, target).value; var all := links + [LinkMade(path, target)];
            && Grows(tree, later) && (forall link <- all :: IsRecorded(later, link))
            && (LinksContainedBut(tree, Places(tree, links)) ==> LinksContainedBut(later, Places(later, all)))
            && (LinksContained(tree) ==> (LinksContained(later) <==> StaysInside(later, LinkMade(path, target))))
  {
    hide IsRooted, ArePlain, Linked, LinksContained, LinksContainedBut, Grows, AcceptsTarget, StaysAt, PlaceOf;
    var later, link := Linked(tree, path, target).value, LinkMade(path, target);
    var all := links + [link];
    LinkIsMade(tree, {}, path, target);
    SamePlaces(tree, later, links);
    assert IsRecorded(later, link);
    assert PlaceOf(later, path).Some? by { NotTheRoot(later, link); }
    var place := PlaceOf(later, path).value;
    NoneExempt(tree);
    NoneExempt(later);
    if LinksContainedBut(tree, Places(tree, links)) {
      PlacesGrow(later, links, link);
      MoreExempt(tree, Places(tree, links), Places(later, all));
      LinkIsMade(tree, Places(later, all), path, target);
    }
  }

  lemma PlacesGrow(tree: Tree, links: seq<LinkMade>, link: LinkMade)
    requires link.path != [] && PlaceOf(tree, link.path).Some?
    ensures Places(tree, links) <= Places(tree, links + [link])
    ensures PlaceOf(tree, link.path).value in Places(tree, links + [link])
  {
    hide PlaceOf;
    var all := links + [link];
    assert all[|links|] == link && forall l <- links :: l in all;
  }

  class Extractor {
    const options: Options
    const root: ExtractRoot
    const budget: Budget
    const reporter: Reporter
    var summary: Summary
    /** Every link made so far, to be checked again at the end. */
    var links: seq<LinkMade>

    constructor (options: Options, tree: Tree)
      requires IsRooted(tree)
      ensures Valid() && fresh(root) && fresh(budget) && fresh(reporter)
      ensures this.options == options && root.tree == tree && summary == Summary(0, 0, 0, 0, 0) && links == []
      ensures LinksContained(tree) ==> LinksKept()
    {
      this.options := options;
      root := new ExtractRoot(tree);
      budget := new Budget(options);
      reporter := new Reporter(options.hooked);
      summary, links := Summary(0, 0, 0, 0, 0), [];
    }

    /** A total ceiling that no reservation can saturate. */
    predicate IsCapped() {
      options.maxTotalBytes.Some? && options.maxTotalBytes.value < U64_MAX
    }

    /** The counts agree: every entry is one kind of thing and was counted and reported as it; the bytes written are those
        reported and, under a ceiling, those charged; and no ceiling is passed. */
    ghost predicate Conserved(entries: nat)
      reads this, budget, reporter
    {
      && entries == CountOf(summary)
      && budget.usedEntries == entries
      && reporter.bytes == summary.bytes
      && (options.maxEntries.Some? ==> entries <= options.maxEntries.value)
      && (IsCapped() ==> budget.usedBytes == summary.bytes <= options.maxTotalBytes.value)
    }

    ghost predicate Sound()
      reads this, root, budget, reporter
    {
      && budget.options == options && reporter.hooked == options.hooked
      && root.Valid() && reporter.Valid()
      && forall link <- links :: IsRecorded(root.tree, link)
    }

    /** Every link under the root stays inside from where it really stands, or is one of those to be checked again. */
    ghost predicate LinksKept()
      reads this, root
    {
      LinksContainedBut(root.tree, Places(root.tree, links))
    }

    ghost predicate Valid()
      reads this, root, budget, reporter
    {
      Sound() && Conserved(reporter.entries)
    }

    /** Links recorded stay recorded, and a tree whose links are all contained stays one exactly unless a link on which the
        system gave up climbs deeper than where it stands. */
    twostate predicate KeepsLinks()
      reads this, root
    {
      && old(links) <= links && Grows(old(root.tree), root.tree)
      && (old(LinksKept()) ==> LinksKept())
      && (old(LinksContained(root.tree)) ==>
            (LinksContained(root.tree) <==>
               forall link <- links[|old(links)|..] :: RanOut(root.tree, link) ==> StaysInside(root.tree, link)))
    }

    /** What makes an entry with a name that names something fail, whatever the disk does. */
    predicate RefusesKind(entry: RawEntry, path: Path, data: Data)
      requires path != []
      reads root`tree, budget`usedBytes
    {
      match entry.kind
      case Other => false
      case Dir => MakeAll(root.tree, path).None?
      case Symlink =>
        options.symlinks &&
        var target := TargetOf(entry, data); var made := Linked(root.tree, path, target);
        !(&& (entry.linkTarget.Some? || (data.whole && |data.text| <= 4096))
          && AcceptsTarget(|path| - 1, target) && made.Some? && IsKept(made.value, LinkMade(path, target)))
      case Regular =>
        || budget.BreaksCeiling(entry.size) || FileMade(root.tree, path).None?
        || Total(data.chunks) > entry.size || (!data.whole && Total(data.chunks) < SaturatingAdd(entry.size, 1))
    }

    /** What makes an entry fail: one too many, a name that is refused, or what it is. */
    predicate Refuses(entry: RawEntry, data: Data)
      reads this, root, budget
    {
      || (options.maxEntries.Some? && budget.usedEntries + 1 > options.maxEntries.value)
      || IsRefusedName(entry.name)
      || (Named(Pieces(entry.name)) != [] && RefusesKind(entry, Named(Pieces(entry.name)), data))
    }

    /** An entry that is there afterwards as what it said it was, at the path its name gives, and counted as that; or, when
        it names nothing, or is no file, directory or wanted link, one that was passed over and counted as that. */
    twostate predicate IsExtracted(entry: RawEntry, path: Path, data: Data)
      reads this, root
    {
      if path == [] || entry.kind.Other? || (entry.kind.Symlink? && !options.symlinks) then
        && root.tree == old(root.tree) && links == old(links)
        && summary == old(summary).(skipped := old(summary).skipped + 1)
      else match entry.kind
           case Dir =>
             && RealDirectory(root.tree, path).Some? && links == old(links)
             && summary == old(summary).(directories := old(summary).directories + 1)
           case Symlink =>
             && IsLinkAt(root.tree, path, TargetOf(entry, data))
             && links == old(links) + [LinkMade(path, TargetOf(entry, data))]
             && summary == old(summary).(symlinks := old(summary).symlinks + 1)
           case Regular =>
             && IsFileAt(root.tree, path) && links == old(links) && Total(data.chunks) <= entry.size
             && summary == old(summary).(files := old(summary).files + 1,
                                         bytes := old(summary).bytes + Total(data.chunks))
           case Other => false
    }

    /** Copies an entry's stream, reporting as it goes, up to one byte past what the entry declared. */
    method Copy(data: Data, limit: nat) returns (written: nat, broken: bool)
      requires reporter.Valid()
      modifies reporter
      ensures reporter.Valid() && reporter.bytes == old(reporter.bytes) + written && reporter.entries == old(reporter.entries)
      ensures written <= limit && (!broken ==> written == if Total(data.chunks) < limit then Total(data.chunks) else limit)
      ensures broken <==> !data.whole && Total(data.chunks) < limit
    {
      written := 0;
      assert data.chunks[..|data.chunks|] == data.chunks;
      for i := 0 to |data.chunks|
        invariant reporter.Valid() && reporter.bytes == old(reporter.bytes) + written
        invariant reporter.entries == old(reporter.entries)
        invariant written == if Total(data.chunks[..i]) < limit then Total(data.chunks[..i]) else limit
      {
        assert data.chunks[..i + 1][..i] == data.chunks[..i];
        var n := if data.chunks[i] < limit - written then data.chunks[i] else limit - written;
        reporter.Advance(n);
        written := written + n;
      }
      broken := !data.whole && written < limit;
    }

    /** Writes a regular file, its declared size reserved before it is opened; one that outgrows it is an error. */
    method VisitFile(entry: RawEntry, path: Path, data: Data) returns (r: Result)
      requires Sound() && path != [] && ArePlain(path) && entry.size <= U64_MAX && Total(data.chunks) <= U64_MAX
      modifies this`summary, root, budget`usedBytes, reporter
      ensures reporter.entries == old(reporter.entries)
      ensures entry.kind.Regular? && old(RefusesKind(entry, path, data)) ==> r.Err?
      ensures entry.kind.Regular? && r.Err? ==> old(RefusesKind(entry, path, data)) || r.error.Io?
      ensures r.Ok? ==> Some(root.tree) == FileMade(old(root.tree), path) && IsFileAt(root.tree, path) && KeepsLinks()
      ensures r.Err? && r.error.DeclaredSizeMismatch? ==>
                && Total(data.chunks) > entry.size && FileMade(old(root.tree), path).Some?
                && root.tree == Removed(FileMade(old(root.tree), path).value, path)
                && reporter.bytes == old(reporter.bytes) + entry.size + 1
      ensures r.Ok? ==>
                && Sound()
                && Total(data.chunks) <= entry.size
                && (options.maxFileBytes.Some? ==> entry.size <= options.maxFileBytes.value)
                && summary == old(summary).(files := old(summary).files + 1,
                                            bytes := old(summary).bytes + Total(data.chunks))
                && reporter.bytes == old(reporter.bytes) + Total(data.chunks)
                && budget.usedBytes == Settled(old(budget.usedBytes), entry.size, Total(data.chunks))
                && (options.maxTotalBytes.Some? ==>
                      SaturatingAdd(old(budget.usedBytes), entry.size) <= options.maxTotalBytes.value)
    {
      hide ArePlain, Resolve, RealDirectory, IsRooted, HoldsAncestors, Grows, Removed, Total, LinksContained,
           LinksContainedBut, IsRecorded, Places, FileMade, IsFileAt;
      var declared := entry.size;
      r := budget.Reserve(declared);
      if r.Err? {
        return;
      }
      var created := root.CreateFile(path);
      if !created {
        return Err(Io);
      }
      FileCarries(old(root.tree), path, links);
      var written, broken := Copy(data, SaturatingAdd(declared, 1));
      var flushed: bool := *;
      if broken || !flushed || written > declared {
        root.RemoveFile(path);
        return Err(if broken || !flushed then Io else DeclaredSizeMismatch);
      }
      budget.Settle(declared, written);
      summary := summary.(files := summary.files + 1, bytes := summary.bytes + written);
    }

    /** What visiting one entry leaves of everything but the count of its own kind. */
    twostate predicate Counts(r: Result, kind: Summary)
      reads this, root, budget, reporter
    {
      r.Ok? ==>
        && Sound() && summary == kind
        && reporter.bytes == old(reporter.bytes) && budget.usedBytes == old(budget.usedBytes)
    }

    method VisitDir(path: Path) returns (r: Result)
      requires Sound() && path != [] && ArePlain(path)
      modifies this`summary, root
      ensures r.Ok? <==> MakeAll(old(root.tree), path).Some?
      ensures r.Ok? ==> MakeAll(old(root.tree), path) == Some(root.tree) && KeepsLinks()
      ensures Counts(r, old(summary).(directories := old(summary).directories + 1))
    {
      hide ArePlain, LinksContained, LinksContainedBut, IsRecorded, Places, MakeAll, Grows, IsRooted;
      var created := root.CreateDir(path);
      if !created {
        return Err(IllegalPath);
      }
      DirectoryCarries(old(root.tree), path, links);
      summary := summary.(directories := summary.directories + 1);
      return Ok;
    }

    /** Creates a link and keeps it only when it resolves inside, dangles or loops. */
    method MakeLink(path: Path, target: string) returns (r: Result)
      requires root.Valid() && path != [] && ArePlain(path)
      modifies root
      ensures r.Ok? <==>
                var made := Linked(old(root.tree), path, target);
                made.Some? && IsKept(made.value, LinkMade(path, target))
      ensures r.Ok? ==> root.Valid() && Some(root.tree) == Linked(old(root.tree), path, target)
    {
      hide Resolve, ArePlain, IsRooted, HoldsAncestors, Grows, Removed, IsContained, IsLinkAt, Linked;
      var created := root.CreateSymlink(path, target);
      if !created {
        return Err(Io);
      }
      var contained := root.VerifySymlink(path);
      return if contained then Ok else Err(IllegalSymlink);
    }

    /** Creates a link, after checking its target both as text and through the tree. */
    method VisitSymlink(entry: RawEntry, path: Path, data: Data) returns (r: Result)
      requires Sound() && path != [] && ArePlain(path)
      modifies this`summary, this`links, root
      ensures Counts(r, if options.symlinks then old(summary).(symlinks := old(summary).symlinks + 1)
                        else old(summary).(skipped := old(summary).skipped + 1))
      ensures var target := TargetOf(entry, data); var made := Linked(old(root.tree), path, target);
              if options.symlinks then
                && (r.Ok? <==>
                      && (entry.linkTarget.Some? || (data.whole && |data.text| <= 4096))
                      && AcceptsTarget(|path| - 1, target) && made.Some? && IsKept(made.value, LinkMade(path, target)))
                && (r.Ok? ==>
                      && Some(root.tree) == made && links == old(links) + [LinkMade(path, target)]
                      && IsLinkAt(root.tree, path, target))
              else r.Ok? && root.tree == old(root.tree) && links == old(links)
      ensures r.Ok? ==> KeepsLinks()
    {
      hide Resolve, ArePlain, IsRooted, HoldsAncestors, AcceptsTarget, Grows, IsKept, TargetOf, Linked, LinksContained,
           LinksContainedBut, IsRecorded, Places, StaysInside, RanOut, PlaceOf, IsLinkAt;
      if !options.symlinks {
        summary := summary.(skipped := summary.skipped + 1);
        GrowsNot(root.tree);
        return Ok;
      }
      if entry.linkTarget.None? && (!data.whole || |data.text| > MAX_SYMLINK_TARGET) {
        return Err(Io);
      }
      var target := TargetOf(entry, data);
      var accepted := ValidateSymlinkTarget(path, target);
      if !accepted {
        return Err(IllegalSymlink);
      }
      r := MakeLink(path, target);
      if r.Ok? {
        ghost var link := LinkMade(path, target);
        LinkCarries(old(root.tree), path, target, links);
        assert link in links + [link];
        assert IsLinkAt(root.tree, path, target) by {
          LinkIsThere(root.tree, link);
        }
        if !RanOut(root.tree, link) {
          KeptStaysInside(root.tree, link);
        }
        links := links + [LinkMade(path, target)];
        assert links[|old(links)|..] == [link];
        summary := summary.(symlinks := summary.symlinks + 1);
      }
    }

    lemma LinkIsThere(tree: Tree, link: LinkMade)
      requires IsRecorded(tree, link)
      ensures IsLinkAt(tree, link.path, link.target)
    {
    }

    lemma GrowsNot(tree: Tree)
      ensures Grows(tree, tree)
    {
    }

    lemma OthersArePassedOver(entry: RawEntry, path: Path, data: Data)
      ensures path != [] && entry.kind.Other? ==> !RefusesKind(entry, path, data)
    {
    }

    lemma DirectoryIsThere(tree: Tree, path: Path)
      requires IsRooted(tree) && ArePlain(path) && MakeAll(tree, path).Some?
      ensures RealDirectory(MakeAll(tree, path).value, path).Some?
    {
      hide *;
      MakeAllMakes(tree, path);
    }

    /** The body of one visit: the entry is counted before anything is decided about it. */
    method VisitEntry(entry: RawEntry, data: Data) returns (r: Result)
      requires Valid() && entry.size <= U64_MAX && Total(data.chunks) <= U64_MAX
      modifies this, root, budget, reporter
      ensures reporter.entries == old(reporter.entries)
      ensures r.Ok? ==> Sound() && Conserved(reporter.entries + 1)
      ensures r.Ok? ==> KeepsLinks() && IsExtracted(entry, Named(Pieces(entry.name)), data)
      ensures old(Refuses(entry, data)) ==> r.Err?
      ensures r.Err? ==> old(Refuses(entry, data)) || (entry.kind.Regular? && r.error.Io?)
    {
      hide LinksContained, LinksContainedBut, IsRecorded, Places, StaysInside, RanOut, PlaceOf, ArePlain, Grows, Resolve,
           Total, Named, UnsafePrefix, IsReservedDeviceName, Split, Settled, RefusesKind;
      r := budget.CountEntry();
      if r.Err? {
        return;
      }
      var components := ValidateEntryName(entry.name);
      if components.Illegal? {
        return Err(IllegalPath);
      }
      ComponentsArePlain(entry.name);
      if components.names == [] || entry.kind.Other? {
        OthersArePassedOver(entry, components.names, data);
        summary := summary.(skipped := summary.skipped + 1);
        GrowsNot(root.tree);
        return Ok;
      }
      r := VisitKind(entry, components.names, data);
    }

    method VisitKind(entry: RawEntry, path: Path, data: Data) returns (r: Result)
      requires Sound() && path != [] && ArePlain(path) && !entry.kind.Other?
      requires entry.size <= U64_MAX && Total(data.chunks) <= U64_MAX
      requires IsCapped() ==> budget.usedBytes == summary.bytes
      modifies this, root, budget`usedBytes, reporter
      ensures reporter.entries == old(reporter.entries)
      ensures r.Ok? ==>
                && Sound()
                && CountOf(summary) == CountOf(old(summary)) + 1
                && reporter.bytes - summary.bytes == old(reporter.bytes) - old(summary.bytes)
                && (IsCapped() ==>
                      budget.usedBytes == summary.bytes &&
                      (summary.bytes <= options.maxTotalBytes.value || summary.bytes == old(summary.bytes)))
      ensures r.Ok? ==> KeepsLinks() && IsExtracted(entry, path, data)
      ensures old(RefusesKind(entry, path, data)) ==> r.Err?
      ensures r.Err? ==> old(RefusesKind(entry, path, data)) || (entry.kind.Regular? && r.error.Io?)
    {
      hide LinksContained, LinksContainedBut, IsRecorded, Places, StaysInside, RanOut, PlaceOf, RealDirectory, IsFileAt,
           FileMade, Linked, MakeAll, Grows, Removed, IsKept, AcceptsTarget, TargetOf, ArePlain, Resolve, Total, Settled;
      match entry.kind
      case Dir =>
        r := VisitDir(path);
        if r.Ok? {
          DirectoryIsThere(old(root.tree), path);
        }
      case Symlink => r := VisitSymlink(entry, path, data);
      case Regular =>
        r := VisitFile(entry, path, data);
        if r.Ok? && IsCapped() {
          SettlesExactly(old(budget.usedBytes), entry.size, Total(data.chunks));
        }
    }

    /** Extracts one entry. Whatever the entries so far were, as long as all were extracted the counts agree, and the last
        report carries the totals. */
    method Visit(entry: RawEntry, data: Data) returns (r: Result)
      requires Valid() && entry.size <= U64_MAX && Total(data.chunks) <= U64_MAX
      modifies this, root, budget, reporter
      ensures r.Ok? ==>
                && Valid() && reporter.entries == old(reporter.entries) + 1
                && (options.hooked ==>
                      reporter.reports != [] &&
                      reporter.reports[|reporter.reports| - 1] == Update(reporter.entries, summary.bytes))
      ensures r.Ok? ==> KeepsLinks() && IsExtracted(entry, Named(Pieces(entry.name)), data)
      ensures old(Refuses(entry, data)) ==> r.Err?
      ensures r.Err? ==> old(Refuses(entry, data)) || (entry.kind.Regular? && r.error.Io?)
    {
      hide LinksContained, LinksContainedBut, IsRecorded, Places, StaysInside, RanOut, PlaceOf, Grows, Named, Split,
           Refuses, RefusesKind;
      r := VisitEntry(entry, data);
      if r.Ok? {
        reporter.FinishEntry();
      }
    }

    /** Re-checks every link against the finished tree, and succeeds exactly when each resolves inside, dangles or loops.
        Then no name leads outside if and only if none of the links that loop climbs deeper than where it stands. */
    method Finish() returns (r: Option<Summary>)
      requires Sound()
      modifies root`tree
      ensures r.Some? <==> forall link <- links :: IsKept(old(root.tree), link)
      ensures r.Some? ==> r.value == summary && root.tree == old(root.tree)
      ensures r.Some? && LinksKept() ==>
                (NoNameEscapes(root.tree) <==>
                   forall link <- links :: RanOut(root.tree, link) ==> StaysInside(root.tree, link))
      ensures r.None? ==>
                exists link <- links :: !IsKept(old(root.tree), link) && root.tree == Removed(old(root.tree), link.path)
    {
      hide Resolve, ArePlain, IsContained, Removed, LinksContainedBut, Places, NoNameEscapes, RanOut, StaysInside,
           AcceptsTarget, IsLinkAt;
      for i := 0 to |links|
        invariant root.tree == old(root.tree)
        invariant forall j :: 0 <= j < i ==> IsKept(root.tree, links[j])
      {
        assert IsRecorded(root.tree, links[i]);
        var contained := root.VerifySymlink(links[i].path);
        if !contained {
          assert links[i] in links && !IsKept(old(root.tree), links[i]);
          return None;
        }
      }
      if LinksKept() {
        EscapesExactly(root.tree, links);
      }
      return Some(summary);
    }
  }
}
