/** Creating directories under the extraction root, and the cache of those already created
    (src/fs/extract_root.rs:63-144). */
module ExtractRoot {
  import opened Wrappers
  import opened Text
  import opened SafePath
  import opened Containment

  /** The real directory a path leads to, wherever the links along it go. */
  function RealDirectory(tree: Tree, path: Path): Option<Path> {
    match Resolve(tree, [], path, MAX_LINKS)
    case Inside(dir) => if dir == [] || (dir in tree && tree[dir].Directory?) then Some(dir) else None
    case _ => None
  }

  /** The system's recursive `mkdir`: what is there already may be a link to a directory, but not anything else. */
  function MakeAll(tree: Tree, path: Path): Option<Tree>
    decreases |path|
  {
    if RealDirectory(tree, path).Some? then Some(tree)
    else if path == [] then None
    else
      var made := MakeAll(tree, path[..|path| - 1]);
      if made.None? then None else
        var parent := RealDirectory(made.value, path[..|path| - 1]);
        if parent.None? then None else
          var next := parent.value + [path[|path| - 1]];
          if next in made.value then None else Some(made.value[next := Directory])
  }

  /** Extraction only ever adds to the tree. */
  predicate Grows(tree: Tree, later: Tree) {
    forall path <- tree :: path in later && later[path] == tree[path]
  }

  lemma {:induction false} StillResolves(tree: Tree, later: Tree, at: Path, pending: seq<string>, links: nat)
    requires Grows(tree, later) && Resolve(tree, at, pending, links).Inside?
    ensures Resolve(later, at, pending, links) == Resolve(tree, at, pending, links)
    decreases links, |pending|
  {
    hide Split;
    if pending != [] {
      var rest := pending[1..];
      if IsNothing(pending[0]) {
        StillResolves(tree, later, at, rest, links);
      } else if pending[0] == ".." {
        StillResolves(tree, later, at[..|at| - 1], rest, links);
      } else {
        var next := at + [pending[0]];
        match tree[next]
        case Directory => StillResolves(tree, later, next, rest, links);
        case File => {}
        case Link(target) => StillResolves(tree, later, at, OsPieces(target) + rest, links - 1);
      }
    }
  }

  /** A directory once there stays there. */
  lemma StillADirectory(tree: Tree, later: Tree, path: Path)
    requires Grows(tree, later) && RealDirectory(tree, path).Some?
    ensures RealDirectory(later, path) == RealDirectory(tree, path)
  {
    hide Resolve;
    StillResolves(tree, later, [], path, MAX_LINKS);
  }

  predicate IsDirectory(tree: Tree, path: Path) {
    path == [] || (path in tree && tree[path].Directory?)
  }

  /** Everything in the tree is in a directory. */
  predicate IsRooted(tree: Tree) {
    forall path <- tree :: path != [] && IsDirectory(tree, path[..|path| - 1])
  }

  /** Where a path leads, its front leads to a directory, and the last name is looked up in that. */
  lemma {:induction false} FrontResolves(tree: Tree, at: Path, front: seq<string>, name: string, links: nat)
    requires IsRooted(tree) && IsDirectory(tree, at) && IsPlain(name)
    requires Resolve(tree, at, front + [name], links).Inside?
    ensures Resolve(tree, at, front, links).Inside? && IsDirectory(tree, Resolve(tree, at, front, links).path)
    decreases links, |front|
  {
    hide Split;
    if front != [] {
      var rest := front[1..];
      assert (front + [name])[1..] == rest + [name];
      if IsNothing(front[0]) {
        FrontResolves(tree, at, rest, name, links);
      } else if front[0] == ".." {
        FrontResolves(tree, at[..|at| - 1], rest, name, links);
      } else {
        var next := at + [front[0]];
        match tree[next]
        case Directory => FrontResolves(tree, next, rest, name, links);
        case File => {}
        case Link(target) =>
          assert OsPieces(target) + (rest + [name]) == OsPieces(target) + rest + [name];
          FrontResolves(tree, at, OsPieces(target) + rest, name, links - 1);
      }
    }
  }

  /** Below a directory a path leads to, what has the next name and is no link is where one more name leads. */
  lemma {:induction false} OneMore(tree: Tree, at: Path, front: seq<string>, name: string, links: nat)
    requires Resolve(tree, at, front, links).Inside? && IsDirectory(tree, Resolve(tree, at, front, links).path)
    requires IsPlain(name)
    requires var next := Resolve(tree, at, front, links).path + [name]; next in tree && !tree[next].Link?
    ensures Resolve(tree, at, front + [name], links) == Inside(Resolve(tree, at, front, links).path + [name])
    decreases links, |front|
  {
    hide Split;
    if front == [] {
      assert (front + [name])[1..] == [];
    } else {
      var rest := front[1..];
      assert (front + [name])[1..] == rest + [name];
      if IsNothing(front[0]) {
        OneMore(tree, at, rest, name, links);
      } else if front[0] == ".." {
        OneMore(tree, at[..|at| - 1], rest, name, links);
      } else {
        var next := at + [front[0]];
        match tree[next]
        case Directory => OneMore(tree, next, rest, name, links);
        case File => {}
        case Link(target) =>
          assert OsPieces(target) + (rest + [name]) == OsPieces(target) + rest + [name];
          OneMore(tree, at, OsPieces(target) + rest, name, links - 1);
      }
    }
  }

  predicate ArePlain(path: Path) {
    forall name <- path :: IsPlain(name)
  }

  lemma FrontIsADirectory(tree: Tree, path: Path)
    requires IsRooted(tree) && ArePlain(path) && path != [] && RealDirectory(tree, path).Some?
    ensures RealDirectory(tree, path[..|path| - 1]).Some?
  {
    hide Resolve, IsPlain;
    var last := path[|path| - 1];
    assert last in path && path == path[..|path| - 1] + [last];
    FrontResolves(tree, [], path[..|path| - 1], last, MAX_LINKS);
  }

  /** Every ancestor of a directory a path leads to is one too. */
  lemma {:induction false} AncestorsAreDirectories(tree: Tree, path: Path, n: nat)
    requires IsRooted(tree) && ArePlain(path) && n <= |path| && RealDirectory(tree, path).Some?
    ensures RealDirectory(tree, path[..n]).Some?
    decreases |path|
  {
    if n == |path| {
      assert path[..n] == path;
    } else {
      hide RealDirectory;
      FrontIsADirectory(tree, path);
      AncestorsAreDirectories(tree, path[..|path| - 1], n);
      assert path[..|path| - 1][..n] == path[..n];
    }
  }

  /** One more node in a directory a path leads to. */
  lemma AddsOne(tree: Tree, front: Path, last: string, node: Node)
    requires IsRooted(tree) && IsPlain(last) && RealDirectory(tree, front).Some?
    requires RealDirectory(tree, front).value + [last] !in tree
    ensures var next := RealDirectory(tree, front).value + [last]; var added := tree[next := node];
            && Grows(tree, added) && IsRooted(added)
            && (!node.Link? ==> Resolve(added, [], front + [last], MAX_LINKS) == Inside(next))
  {
    hide IsPlain;
    var parent := RealDirectory(tree, front).value;
    var added := tree[parent + [last] := node];
    assert (parent + [last])[..|parent|] == parent;
    assert Resolve(tree, [], front, MAX_LINKS) == Inside(parent);
    hide Resolve;
    StillResolves(tree, added, [], front, MAX_LINKS);
    if !node.Link? {
      OneMore(added, [], front, last, MAX_LINKS);
    }
  }

  lemma GrowsOn(first: Tree, second: Tree, third: Tree)
    requires Grows(first, second) && Grows(second, third)
    ensures Grows(first, third)
  {
  }

  lemma PlainApart(path: Path)
    requires ArePlain(path) && path != []
    ensures ArePlain(path[..|path| - 1]) && IsPlain(path[|path| - 1])
    ensures path == path[..|path| - 1] + [path[|path| - 1]]
  {
    hide IsPlain;
    assert path[|path| - 1] in path;
  }

  lemma MakeAllNothing(tree: Tree, path: Path)
    requires RealDirectory(tree, path).Some?
    ensures MakeAll(tree, path) == Some(tree) && Grows(tree, tree)
  {
    hide RealDirectory;
  }

  lemma MakeAllStep(tree: Tree, path: Path)
    requires RealDirectory(tree, path).None? && MakeAll(tree, path).Some?
    ensures path != [] && MakeAll(tree, path[..|path| - 1]).Some?
    ensures var before := MakeAll(tree, path[..|path| - 1]).value;
            var parent := RealDirectory(before, path[..|path| - 1]);
            && parent.Some? && parent.value + [path[|path| - 1]] !in before
            && MakeAll(tree, path).value == before[parent.value + [path[|path| - 1]] := Directory]
  {
    hide RealDirectory;
  }

  lemma AddsDirectory(tree: Tree, front: Path, last: string)
    requires IsRooted(tree) && IsPlain(last) && RealDirectory(tree, front).Some?
    requires RealDirectory(tree, front).value + [last] !in tree
    ensures var added := tree[RealDirectory(tree, front).value + [last] := Directory];
            Grows(tree, added) && IsRooted(added) && RealDirectory(added, front + [last]).Some?
  {
    hide Resolve, IsPlain, IsRooted;
    AddsOne(tree, front, last, Directory);
  }

  /** The recursive `mkdir` leaves a directory at the path, and everything else as it was. */
  lemma {:induction false} MakeAllMakes(tree: Tree, path: Path)
    requires IsRooted(tree) && ArePlain(path) && MakeAll(tree, path).Some?
    ensures var made := MakeAll(tree, path).value;
            Grows(tree, made) && IsRooted(made) && RealDirectory(made, path).Some?
    decreases |path|
  {
    hide *;
    if RealDirectory(tree, path).Some? {
      MakeAllNothing(tree, path);
    } else {
      MakeAllStep(tree, path);
      PlainApart(path);
      var front := path[..|path| - 1];
      MakeAllMakes(tree, front);
      AddsDirectory(MakeAll(tree, front).value, front, path[|path| - 1]);
      GrowsOn(tree, MakeAll(tree, front).value, MakeAll(tree, path).value);
    }
  }

  /** Every link but those at `exempt` stays inside from where it really stands; no directory and no link has a separator
      in its name. */
  ghost predicate LinksContainedBut(tree: Tree, exempt: set<Path>) {
    forall path <- tree ::
      && path != []
      && (tree[path].File? || IsPlain(path[|path| - 1]))
      && (tree[path].Link? && path !in exempt ==> StaysAt(|path| - 1, tree[path].target))
  }

  lemma NoneExempt(tree: Tree)
    ensures LinksContainedBut(tree, {}) <==> LinksContained(tree)
  {
  }

  /** A node added where its target, if it is a link, is contained leaves every link contained. */
  lemma AddKeepsContained(tree: Tree, exempt: set<Path>, place: Path, node: Node)
    requires LinksContainedBut(tree, exempt) && place != [] && (node.File? || IsPlain(place[|place| - 1]))
    requires node.Link? && place !in exempt ==> StaysAt(|place| - 1, node.target)
    ensures LinksContainedBut(tree[place := node], exempt)
  {
    hide IsPlain, StaysAt;
  }

  lemma {:induction false} MakeAllKeepsContained(tree: Tree, exempt: set<Path>, path: Path)
    requires LinksContainedBut(tree, exempt) && ArePlain(path) && MakeAll(tree, path).Some?
    ensures LinksContainedBut(MakeAll(tree, path).value, exempt)
    decreases |path|
  {
    hide *;
    if RealDirectory(tree, path).Some? {
      MakeAllNothing(tree, path);
    } else {
      MakeAllStep(tree, path);
      PlainApart(path);
      var front := path[..|path| - 1];
      MakeAllKeepsContained(tree, exempt, front);
      var before := MakeAll(tree, front).value;
      AddKeepsContained(before, exempt, RealDirectory(before, front).value + [path[|path| - 1]], Directory);
    }
  }

  // Exactly when directories can be made, and which.

  /** Directories nested in `dir`, one in the other. */
  function WithDirectories(tree: Tree, dir: Path, names: Path): Tree
    decreases |names|
  {
    if names == [] then tree
    else WithDirectories(tree[dir + [names[0]] := Directory], dir + [names[0]], names[1..])
  }

  lemma {:induction false} WithOneMore(tree: Tree, dir: Path, names: Path, last: string)
    ensures WithDirectories(tree, dir, names + [last]) == WithDirectories(tree, dir, names)[dir + names + [last] := Directory]
    decreases |names|
  {
    if names == [] {
      assert (names + [last])[1..] == [] && dir + names + [last] == dir + [last];
    } else {
      assert (names + [last])[1..] == names[1..] + [last] && dir + [names[0]] + names[1..] == dir + names;
      WithOneMore(tree[dir + [names[0]] := Directory], dir + [names[0]], names[1..], last);
    }
  }

  lemma {:induction false} OnlyNested(tree: Tree, dir: Path, names: Path, path: Path)
    requires path in WithDirectories(tree, dir, names)
    ensures path in tree || |dir| < |path| <= |dir| + |names|
    decreases |names|
  {
    if names != [] {
      OnlyNested(tree[dir + [names[0]] := Directory], dir + [names[0]], names[1..], path);
    }
  }

  /** Nothing is in a directory that is not there. */
  lemma {:induction false} NothingBelow(tree: Tree, dir: Path, names: Path)
    requires IsRooted(tree) && dir != [] && dir !in tree
    ensures dir + names !in tree
    decreases |names|
  {
    if names == [] {
      assert dir + names == dir;
    } else {
      var front := names[..|names| - 1];
      NothingBelow(tree, dir, front);
      assert (dir + names)[..|dir + names| - 1] == dir + front;
    }
  }

  /** A walk that comes to a missing name is missing something. */
  lemma {:induction false} RunsInto(tree: Tree, at: Path, front: seq<string>, name: string, rest: seq<string>, links: nat)
    requires Resolve(tree, at, front, links).Inside? && IsDirectory(tree, Resolve(tree, at, front, links).path)
    requires IsPlain(name) && Resolve(tree, at, front, links).path + [name] !in tree
    ensures Resolve(tree, at, front + ([name] + rest), links).Absent?
    decreases links, |front|
  {
    hide Split;
    var tail := [name] + rest;
    if front == [] {
      assert front + tail == tail;
    } else {
      var more := front[1..];
      assert (front + tail)[1..] == more + tail;
      if IsNothing(front[0]) {
        RunsInto(tree, at, more, name, rest, links);
      } else if front[0] == ".." {
        RunsInto(tree, at[..|at| - 1], more, name, rest, links);
      } else {
        var next := at + [front[0]];
        match tree[next]
        case Directory => RunsInto(tree, next, more, name, rest, links);
        case File => {}
        case Link(target) =>
          assert OsPieces(target) + (more + tail) == OsPieces(target) + more + tail;
          RunsInto(tree, at, OsPieces(target) + more, name, rest, links - 1);
      }
    }
  }

  /** The first `n` names lead to a directory, and the next one, if there is one, to nothing. */
  predicate EndsAt(tree: Tree, path: Path, n: nat) {
    && n <= |path| && RealDirectory(tree, path[..n]).Some?
    && (n < |path| ==> RealDirectory(tree, path[..n]).value + [path[n]] !in tree)
  }

  lemma LeadsNowhere(tree: Tree, path: Path, n: nat)
    requires ArePlain(path) && n < |path| && EndsAt(tree, path, n)
    ensures RealDirectory(tree, path).None?
  {
    hide IsPlain, Resolve;
    assert path[n] in path && path == path[..n] + ([path[n]] + path[n + 1..]);
    RunsInto(tree, [], path[..n], path[n], path[n + 1..], MAX_LINKS);
  }

  /** Below what is there, the missing directories are made, and nothing else is. */
  lemma {:induction false} MakeAllIs(tree: Tree, path: Path, n: nat)
    requires IsRooted(tree) && ArePlain(path) && EndsAt(tree, path, n)
    ensures var dir := RealDirectory(tree, path[..n]).value;
            && MakeAll(tree, path) == Some(WithDirectories(tree, dir, path[n..]))
            && RealDirectory(WithDirectories(tree, dir, path[n..]), path) == Some(dir + path[n..])
    decreases |path|
  {
    assert n <= |path| && RealDirectory(tree, path[..n]).Some?;
    assert n < |path| ==> RealDirectory(tree, path[..n]).value + [path[n]] !in tree;
    hide *;
    if n == |path| {
      NothingMissing(tree, path);
    } else {
      LeadsNowhere(tree, path, n);
      PlainApart(path);
      EndsInFront(tree, path, n);
      var front, last := path[..|path| - 1], path[|path| - 1];
      assert front[..n] == path[..n] && path[n..] == front[n..] + [last];
      var dir := RealDirectory(tree, path[..n]).value;
      MakeAllIs(tree, front, n);
      MakeAllMakes(tree, front);
      var made := WithDirectories(tree, dir, front[n..]);
      IsNotMadeYet(tree, dir, path[n], front[n..], last);
      MakesOneMore(tree, path, made, dir + front[n..]);
      WithOneMore(tree, dir, front[n..], last);
      assert dir + front[n..] + [last] == dir + path[n..];
    }
  }

  lemma NothingMissing(tree: Tree, path: Path)
    requires EndsAt(tree, path, |path|)
    ensures var dir := RealDirectory(tree, path[..|path|]).value;
            && MakeAll(tree, path) == Some(WithDirectories(tree, dir, path[|path|..]))
            && RealDirectory(WithDirectories(tree, dir, path[|path|..]), path) == Some(dir + path[|path|..])
  {
    hide RealDirectory;
    assert path[..|path|] == path && path[|path|..] == [];
    var dir := RealDirectory(tree, path).value;
    assert dir + [] == dir;
  }

  lemma EndsInFront(tree: Tree, path: Path, n: nat)
    requires n < |path| && EndsAt(tree, path, n)
    ensures EndsAt(tree, path[..|path| - 1], n)
  {
    hide RealDirectory;
    assert path[..|path| - 1][..n] == path[..n];
  }

  lemma IsNotMadeYet(tree: Tree, dir: Path, first: string, names: Path, last: string)
    requires IsRooted(tree) && dir + [first] !in tree && (names + [last])[0] == first
    ensures dir + names + [last] !in WithDirectories(tree, dir, names)
  {
    var path := dir + names + [last];
    assert dir + [first] + (names + [last])[1..] == path;
    hide IsRooted, WithDirectories;
    NothingBelow(tree, dir + [first], (names + [last])[1..]);
    if path in WithDirectories(tree, dir, names) {
      OnlyNested(tree, dir, names, path);
      assert false;
    }
  }

  lemma MakesOneMore(tree: Tree, path: Path, made: Tree, parent: Path)
    requires path != [] && ArePlain(path) && RealDirectory(tree, path).None?
    requires MakeAll(tree, path[..|path| - 1]) == Some(made) && IsRooted(made)
    requires RealDirectory(made, path[..|path| - 1]) == Some(parent) && parent + [path[|path| - 1]] !in made
    ensures var next := parent + [path[|path| - 1]];
            MakeAll(tree, path) == Some(made[next := Directory]) && RealDirectory(made[next := Directory], path) == Some(next)
  {
    hide IsPlain, Resolve, IsRooted;
    PlainApart(path);
    AddsOne(made, path[..|path| - 1], path[|path| - 1], Directory);
  }

  lemma {:induction false} MadeOnlyIf(tree: Tree, path: Path) returns (n: nat)
    requires MakeAll(tree, path).Some?
    ensures EndsAt(tree, path, n)
    decreases |path|
  {
    hide RealDirectory;
    if RealDirectory(tree, path).Some? {
      n := |path|;
      assert path[..n] == path;
    } else {
      var front := path[..|path| - 1];
      n := MadeOnlyIf(tree, front);
      assert front[..n] == path[..n];
      if n == |front| {
        assert front[..n] == front && MakeAll(tree, front) == Some(tree);
      }
    }
  }

  /** The recursive `mkdir` succeeds exactly when some front of the path leads to a directory and what is next there, if
      anything is, is missing: nothing that is no directory may be in the way. */
  lemma MadeExactly(tree: Tree, path: Path)
    requires IsRooted(tree) && ArePlain(path)
    ensures MakeAll(tree, path).Some? <==> exists n :: EndsAt(tree, path, n)
  {
    hide *;
    if n :| EndsAt(tree, path, n) {
      MakeAllIs(tree, path, n);
    } else if MakeAll(tree, path).Some? {
      var m := MadeOnlyIf(tree, path);
    }
  }

  // Files, which may be opened through links, and links, which may not.

  /** What is missing at the end of a walk is missing from a directory, and a file created there is where the walk leads. */
  lemma {:induction false} MissingPlace(tree: Tree, at: Path, pending: seq<string>, links: nat, place: Path)
    requires IsRooted(tree) && IsDirectory(tree, at) && Resolve(tree, at, pending, links) == Absent(Some(place))
    ensures place != [] && place !in tree && IsDirectory(tree, place[..|place| - 1])
    ensures Resolve(tree[place := File], at, pending, links) == Inside(place)
    decreases links, |pending|
  {
    hide Split;
    var rest := pending[1..];
    if IsNothing(pending[0]) {
      MissingPlace(tree, at, rest, links, place);
    } else if pending[0] == ".." {
      MissingPlace(tree, at[..|at| - 1], rest, links, place);
    } else {
      var next := at + [pending[0]];
      if next in tree {
        match tree[next]
        case Directory => MissingPlace(tree, next, rest, links, place);
        case File => {}
        case Link(target) => MissingPlace(tree, at, OsPieces(target) + rest, links - 1, place);
      } else {
        assert next[..|next| - 1] == at;
      }
    }
  }

  /** What opening a path to write leaves: a file that is there is opened, and one that is missing is created, through
      whatever links lead there; anything else is refused. */
  function Opened(tree: Tree, path: Path): Option<Tree> {
    match Resolve(tree, [], path, MAX_LINKS)
    case Inside(at) => if at in tree && tree[at].File? then Some(tree) else None
    case Absent(Some(place)) => Some(tree[place := File])
    case _ => None
  }

  /** The file's directory, and the file. */
  function FileMade(tree: Tree, path: Path): Option<Tree>
    requires path != []
  {
    var made := MakeAll(tree, path[..|path| - 1]);
    if made.None? then None else Opened(made.value, path)
  }

  lemma OpenedOpens(tree: Tree, exempt: set<Path>, path: Path)
    requires IsRooted(tree) && Opened(tree, path).Some?
    ensures var after := Opened(tree, path).value;
            && Grows(tree, after) && IsRooted(after) && IsFileAt(after, path)
            && (LinksContainedBut(tree, exempt) ==> LinksContainedBut(after, exempt))
  {
    hide Resolve, IsPlain, StaysAt;
    match Resolve(tree, [], path, MAX_LINKS) {
      case Absent(Some(place)) =>
        MissingPlace(tree, [], path, MAX_LINKS, place);
        if LinksContainedBut(tree, exempt) {
          AddKeepsContained(tree, exempt, place, File);
        }
      case _ =>
    }
  }

  lemma FileIsMade(tree: Tree, exempt: set<Path>, path: Path)
    requires IsRooted(tree) && path != [] && ArePlain(path) && FileMade(tree, path).Some?
    ensures var made := FileMade(tree, path).value;
            && Grows(tree, made) && IsRooted(made) && IsFileAt(made, path)
            && (LinksContainedBut(tree, exempt) ==> LinksContainedBut(made, exempt))
  {
    hide *;
    MadeFirst(tree, path);
    PlainApart(path);
    var front := path[..|path| - 1];
    MakeAllMakes(tree, front);
    if LinksContainedBut(tree, exempt) {
      MakeAllKeepsContained(tree, exempt, front);
    }
    OpenedOpens(MakeAll(tree, front).value, exempt, path);
    GrowsOn(tree, MakeAll(tree, front).value, FileMade(tree, path).value);
  }

  /** A file that is there is opened as it is; one whose place is free in its directory is made there; behind a link, it is
      made where the link leads if that is missing; and what leads to a directory, outside, nowhere or in circles fails. */
  lemma FileMadeExactly(tree: Tree, path: Path)
    requires IsRooted(tree) && path != [] && ArePlain(path)
    ensures IsFileAt(tree, path) ==> FileMade(tree, path) == Some(tree)
    ensures RealDirectory(tree, path).Some? ==> FileMade(tree, path) == None
    ensures var made := MakeAll(tree, path[..|path| - 1]);
            && (FileMade(tree, path).Some? ==> made.Some?)
            && (made.Some? ==>
                  var place, at := PlaceOf(made.value, path), Resolve(made.value, [], path, MAX_LINKS);
                  && place.Some?
                  && (place.value !in made.value ==> FileMade(tree, path) == Some(made.value[place.value := File]))
                  && (at.Absent? && at.place.Some? ==> FileMade(tree, path) == Some(made.value[at.place.value := File]))
                  && (at.Escapes? || at.Loops? || at.NotADirectory? || (at.Absent? && at.place.None?) ==>
                        FileMade(tree, path) == None))
  {
    assert IsDirectory(tree, []);
    hide *;
    var front, last := path[..|path| - 1], path[|path| - 1];
    PlainApart(path);
    MadeFirst(tree, path);
    OpensWhatIsThere(tree, path);
    if Resolve(tree, [], path, MAX_LINKS).Inside? {
      FrontResolves(tree, [], front, last, MAX_LINKS);
      FrontLeads(tree, front);
      MakeAllNothing(tree, front);
    }
    if MakeAll(tree, front).Some? {
      MakeAllMakes(tree, front);
      OpensFreePlace(MakeAll(tree, front).value, front, last);
      OpensByWalk(MakeAll(tree, front).value, path);
    }
  }

  lemma FrontLeads(tree: Tree, front: Path)
    requires Resolve(tree, [], front, MAX_LINKS).Inside? && IsDirectory(tree, Resolve(tree, [], front, MAX_LINKS).path)
    ensures RealDirectory(tree, front).Some?
  {
  }

  lemma OpensWhatIsThere(tree: Tree, path: Path)
    requires IsRooted(tree)
    ensures IsFileAt(tree, path) ==> Opened(tree, path) == Some(tree) && Resolve(tree, [], path, MAX_LINKS).Inside?
    ensures RealDirectory(tree, path).Some? ==> Opened(tree, path) == None && Resolve(tree, [], path, MAX_LINKS).Inside?
  {
    hide Resolve;
  }

  lemma OpensByWalk(tree: Tree, path: Path)
    ensures var at := Resolve(tree, [], path, MAX_LINKS);
            && (at.Absent? && at.place.Some? ==> Opened(tree, path) == Some(tree[at.place.value := File]))
            && (at.Escapes? || at.Loops? || at.NotADirectory? || (at.Absent? && at.place.None?) ==>
                  Opened(tree, path) == None)
  {
    hide Resolve;
  }

  lemma OpensFreePlace(tree: Tree, front: Path, last: string)
    requires IsPlain(last) && RealDirectory(tree, front).Some?
    ensures PlaceOf(tree, front + [last]) == Some(RealDirectory(tree, front).value + [last])
    ensures var place := RealDirectory(tree, front).value + [last];
            place !in tree ==> Opened(tree, front + [last]) == Some(tree[place := File])
  {
    var place := RealDirectory(tree, front).value + [last];
    var path := front + [last];
    assert path[..|path| - 1] == front;
    if place !in tree {
      MissesLast(tree, [], front, last, MAX_LINKS);
    }
    hide Resolve;
  }

  lemma {:induction false} MissesLast(tree: Tree, at: Path, front: seq<string>, last: string, links: nat)
    requires Resolve(tree, at, front, links).Inside? && IsDirectory(tree, Resolve(tree, at, front, links).path)
    requires IsPlain(last) && Resolve(tree, at, front, links).path + [last] !in tree
    ensures Resolve(tree, at, front + [last], links) == Absent(Some(Resolve(tree, at, front, links).path + [last]))
    decreases links, |front|
  {
    hide Split;
    if front == [] {
      assert front + [last] == [last];
    } else {
      var more := front[1..];
      assert (front + [last])[1..] == more + [last];
      if IsNothing(front[0]) {
        MissesLast(tree, at, more, last, links);
      } else if front[0] == ".." {
        MissesLast(tree, at[..|at| - 1], more, last, links);
      } else {
        var next := at + [front[0]];
        match tree[next]
        case Directory => MissesLast(tree, next, more, last, links);
        case File => {}
        case Link(target) =>
          assert OsPieces(target) + (more + [last]) == OsPieces(target) + more + [last];
          MissesLast(tree, at, OsPieces(target) + more, last, links - 1);
      }
    }
  }

  lemma MadeFirst(tree: Tree, path: Path)
    requires path != []
    ensures FileMade(tree, path).Some? ==>
              && MakeAll(tree, path[..|path| - 1]).Some?
              && Opened(MakeAll(tree, path[..|path| - 1]).value, path) == FileMade(tree, path)
  {
    hide MakeAll, Opened;
  }

  /** Where in the tree a path's last name is, or would be. */
  function PlaceOf(tree: Tree, path: Path): Option<Path>
    requires path != []
  {
    var parent := RealDirectory(tree, path[..|path| - 1]);
    if parent.None? then None else Some(parent.value + [path[|path| - 1]])
  }

  /** The link's directory, and the link, unless its place is taken. */
  function Linked(tree: Tree, path: Path, target: string): Option<Tree>
    requires path != []
  {
    var made := MakeAll(tree, path[..|path| - 1]);
    if made.None? then None else
      var place := PlaceOf(made.value, path);
      if place.None? || place.value in made.value then None else Some(made.value[place.value := Link(target)])
  }

  lemma LinkIsMade(tree: Tree, exempt: set<Path>, path: Path, target: string)
    requires IsRooted(tree) && path != [] && ArePlain(path) && Linked(tree, path, target).Some?
    ensures var made := Linked(tree, path, target).value; var place := PlaceOf(made, path);
            && Grows(tree, made) && IsRooted(made) && IsLinkAt(made, path, target)
            && (LinksContainedBut(tree, exempt) && (place.value in exempt || StaysAt(|place.value| - 1, target)) ==>
                  LinksContainedBut(made, exempt))
            && (LinksContainedBut(made, exempt) ==> place.value in exempt || StaysAt(|place.value| - 1, target))
  {
    hide MakeAll, StaysAt, IsPlain, Resolve;
    var front, last := path[..|path| - 1], path[|path| - 1];
    PlainApart(path);
    MakeAllMakes(tree, front);
    var before, made := MakeAll(tree, front).value, Linked(tree, path, target).value;
    var place := PlaceOf(before, path).value;
    AddsOne(before, front, last, Link(target));
    GrowsOn(tree, before, made);
    StillADirectory(before, made, front);
    if LinksContainedBut(tree, exempt) {
      MakeAllKeepsContained(tree, exempt, front);
      if place in exempt || StaysAt(|place| - 1, target) {
        AddKeepsContained(before, exempt, place, Link(target));
      }
    }
  }

  predicate HoldsAncestors(paths: set<Path>) {
    forall path <- paths :: path != [] && forall n :: 0 < n < |path| ==> path[..n] in paths
  }

  /** A path and its ancestors that are longer than `n`. */
  function Longer(path: Path, n: nat): (paths: set<Path>)
    requires n <= |path|
    ensures forall p <- paths :: n < |p| <= |path|
  {
    set m | n < m <= |path| :: path[..m]
  }

  /** Stopping at the first known ancestor loses nothing: the shorter ones are known as well. */
  lemma StopsAtTheFirst(known: set<Path>, path: Path, n: nat)
    requires HoldsAncestors(known) && n <= |path| && (n == 0 || path[..n] in known)
    ensures known + Longer(path, n) == known + Longer(path, 0) && HoldsAncestors(known + Longer(path, 0))
  {
    forall m | 0 < m <= n ensures path[..m] in known {
      if m < n {
        assert path[..n][..m] == path[..m];
      }
    }
    forall p, m | p in Longer(path, 0) && 0 < m < |p| ensures p[..m] in Longer(path, 0) {
      assert p[..m] == path[..m];
    }
  }

  /** A path leads to a regular file. */
  predicate IsFileAt(tree: Tree, path: Path) {
    var at := Resolve(tree, [], path, MAX_LINKS);
    at.Inside? && at.path in tree && tree[at.path].File?
  }

  /** In the directory a path's front leads to, its last name is a link to `target`. */
  predicate IsLinkAt(tree: Tree, path: Path, target: string)
    requires path != []
  {
    var place := PlaceOf(tree, path);
    place.Some? && place.value in tree && tree[place.value] == Link(target)
  }

  class ExtractRoot {
    var tree: Tree
    var created: set<Path>

    /** Every path in the cache leads to a directory, and so do its ancestors, which are in it too. */
    ghost predicate Valid()
      reads this
    {
      && IsRooted(tree) && HoldsAncestors(created)
      && forall path <- created :: ArePlain(path) && RealDirectory(tree, path).Some?
    }

    constructor (tree: Tree)
      requires IsRooted(tree)
      ensures Valid() && this.tree == tree
    {
      this.tree, created := tree, {};
    }

    /** The cache is invisible: the tree and the answer are those of the recursive `mkdir` every time. */
    method CreateDir(path: Path) returns (ok: bool)
      requires Valid() && ArePlain(path)
      modifies this
      ensures Valid()
      ensures ok <==> MakeAll(old(tree), path).Some?
      ensures tree == if ok then MakeAll(old(tree), path).value else old(tree)
      ensures ok ==> path == [] || path in created
    {
      hide Resolve, IsPlain, RealDirectory;
      if path in created {
        return true;
      }
      var made := MakeAll(tree, path);
      if made.None? {
        return false;
      }
      MakeAllMakes(tree, path);
      forall p <- created ensures RealDirectory(made.value, p).Some? {
        StillADirectory(tree, made.value, p);
      }
      tree := made.value;
      Insert(path);
      return true;
    }

    /** Adds a path and its ancestors, up to the first that is there already. */
    method Insert(path: Path)
      requires Valid() && ArePlain(path) && RealDirectory(tree, path).Some?
      modifies this`created
      ensures Valid()
      ensures path == [] || path in created
      ensures created == old(created) + Longer(path, 0)
    {
      hide Resolve, IsPlain, RealDirectory, HoldsAncestors;
      forall n | 0 <= n <= |path| ensures RealDirectory(tree, path[..n]).Some? {
        AncestorsAreDirectories(tree, path, n);
      }
      assert path == path[..|path|];
      var n: nat := |path|;
      while n > 0
        invariant n <= |path| && created == old(created) + Longer(path, n)
      {
        if path[..n] in created {
          break;
        }
        created := created + {path[..n]};
        n := n - 1;
      }
      StopsAtTheFirst(old(created), path, n);
    }

    /** The directory a new entry goes into, created if need be. */
    method CreateParent(path: Path) returns (ok: bool)
      requires Valid() && path != [] && ArePlain(path)
      modifies this
      ensures Valid() && Grows(old(tree), tree)
      ensures ok <==> MakeAll(old(tree), path[..|path| - 1]).Some?
      ensures tree == if ok then MakeAll(old(tree), path[..|path| - 1]).value else old(tree)
      ensures ok ==> RealDirectory(tree, path[..|path| - 1]).Some?
    {
      hide Resolve, IsPlain;
      ok := CreateDir(path[..|path| - 1]);
      if ok {
        MakeAllMakes(old(tree), path[..|path| - 1]);
      }
    }

    /** The cache stays true of whatever the tree grows to. */
    method Grow(later: Tree)
      requires Valid() && Grows(tree, later) && IsRooted(later)
      modifies this`tree
      ensures Valid() && tree == later
    {
      hide IsPlain, RealDirectory, IsRooted, Grows, HoldsAncestors;
      forall p <- created ensures RealDirectory(later, p).Some? {
        StillADirectory(tree, later, p);
      }
      tree := later;
    }

    /** Creates or truncates a regular file, through whatever links lead to it; a directory, and a path that leads outside
        or nowhere, is refused. */
    method CreateFile(path: Path) returns (ok: bool)
      requires Valid() && path != [] && ArePlain(path)
      modifies this
      ensures Valid() && Grows(old(tree), tree)
      ensures ok <==> FileMade(old(tree), path).Some?
      ensures ok ==> tree == FileMade(old(tree), path).value && IsFileAt(tree, path)
    {
      hide Resolve, IsPlain, MakeAll, Opened, IsFileAt, IsRooted, Grows, HoldsAncestors, RealDirectory;
      ok := CreateParent(path);
      if ok {
        var after := Opened(tree, path);
        ok := after.Some?;
        if ok {
          OpenedOpens(tree, {}, path);
          GrowsOn(old(tree), tree, after.value);
          Grow(after.value);
        }
      }
    }

    /** Creates a link, unless something is in its place already. */
    method CreateSymlink(path: Path, target: string) returns (ok: bool)
      requires Valid() && path != [] && ArePlain(path)
      modifies this
      ensures Valid() && Grows(old(tree), tree)
      ensures ok <==> Linked(old(tree), path, target).Some?
      ensures ok ==> tree == Linked(old(tree), path, target).value && IsLinkAt(tree, path, target)
    {
      hide Resolve, IsPlain, MakeAll, IsRooted, Grows, HoldsAncestors;
      ok := CreateParent(path);
      if ok {
        var place := PlaceOf(tree, path).value;
        ok := place !in tree;
        if ok {
          var front, last := path[..|path| - 1], path[|path| - 1];
          PlainApart(path);
          AddsOne(tree, front, last, Link(target));
          StillADirectory(tree, tree[place := Link(target)], front);
          GrowsOn(old(tree), tree, tree[place := Link(target)]);
          Grow(tree[place := Link(target)]);
        }
      }
    }

    method RemoveFile(path: Path)
      requires path != []
      modifies this`tree
      ensures tree == Removed(old(tree), path)
    {
      tree := Removed(tree, path);
    }

    /** Whether a link just created still resolves inside, dangles or loops; one that does not is removed. */
    method VerifySymlink(path: Path) returns (ok: bool)
      requires path != []
      modifies this`tree
      ensures ok <==> IsContained(Resolve(old(tree), [], path, MAX_LINKS))
      ensures tree == if ok then old(tree) else Removed(old(tree), path)
    {
      hide Resolve;
      ok := IsContained(Resolve(tree, [], path, MAX_LINKS));
      if !ok {
        RemoveFile(path);
      }
    }
  }
}
