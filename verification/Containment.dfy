/** What the operating system makes of accepted links, whatever order an archive created them in
    (src/fs/safe_path.rs:97-140, src/fs/extract.rs:277-302, src/fs/extract_root.rs:166-193). */
module Containment {
  import opened Wrappers
  import opened Text
  import opened SafePath

  type Path = seq<string>

  datatype Node = Directory | File | Link(target: string)

  /** Everything under the extraction root, by real path; the root itself is the empty path. */
  type Tree = map<Path, Node>

  /** Where a walk ends; what is missing has a place when only the last name is. */
  datatype Where = Inside(path: Path) | Absent(place: Option<Path>) | NotADirectory | Loops | Escapes

  /** The system's own walk from the real directory `at`: it follows every link, and gives up after `links` of them. */
  function Resolve(tree: Tree, at: Path, pending: seq<string>, links: nat): Where
    decreases links, |pending|
  {
    if pending == [] then Inside(at)
    else if IsNothing(pending[0]) then Resolve(tree, at, pending[1..], links)
    else if pending[0] == ".." then
      if at == [] then Escapes else Resolve(tree, at[..|at| - 1], pending[1..], links)
    else
      var next := at + [pending[0]];
      if next !in tree then Absent(if |pending| == 1 then Some(next) else None) else
      match tree[next]
      case Directory => Resolve(tree, next, pending[1..], links)
      case File => if |pending| == 1 then Inside(next) else NotADirectory
      case Link(target) =>
        if links == 0 then Loops
        else if target != "" && IsSlash(target[0]) then Escapes
        else Resolve(tree, at, OsPieces(target) + pending[1..], links - 1)
  }

  /** A name the extractor creates: it never holds a separator, and never means "here" or "up". */
  predicate IsPlain(name: string) {
    !IsNothing(name) && name != ".." && forall c <- name :: !IsSeparator(c)
  }

  /** Every link sits where its accepted name says, and was accepted for that depth. */
  ghost predicate LinksAccepted(tree: Tree) {
    forall path <- tree ::
      && path != []
      && (forall name <- path :: IsPlain(name))
      && (tree[path].Link? ==> AcceptsTarget(|path| - 1, tree[path].target))
  }

  /** What is left to walk never climbs further than it is deep: a pending `..` is only ever ahead of every name. A name
      holding a backslash is one name to the system, two pieces to the rule, and the end of the walk. */
  predicate NeverEscapes(pending: seq<string>, depth: nat, descended: bool) {
    if pending == [] then true
    else if IsNothing(pending[0]) then NeverEscapes(pending[1..], depth, descended)
    else if pending[0] == ".." then !descended && depth > 0 && NeverEscapes(pending[1..], depth - 1, descended)
    else '\\' in pending[0] || NeverEscapes(pending[1..], depth, true)
  }

  lemma {:induction false} DescendedAnywhere(pending: seq<string>, depth: nat, anywhere: nat, descended: bool)
    requires NeverEscapes(pending, depth, true)
    ensures NeverEscapes(pending, anywhere, descended)
    decreases |pending|
  {
    if pending != [] && !(pending[0] != ".." && !IsNothing(pending[0]) && '\\' in pending[0]) {
      DescendedAnywhere(pending[1..], depth, anywhere, if IsNothing(pending[0]) then descended else true);
    }
  }

  /** A link's own pieces, put ahead of names only, climb no further than they did alone. */
  lemma {:induction false} NamesMayFollow(target: seq<string>, rest: seq<string>, depth: nat, descended: bool)
    requires NeverEscapes(target, depth, descended) && NeverEscapes(rest, depth, true)
    ensures NeverEscapes(target + rest, depth, descended)
    decreases |target|
  {
    if target == [] {
      assert target + rest == rest;
      DescendedAnywhere(rest, depth, depth, descended);
    } else {
      assert (target + rest)[1..] == target[1..] + rest;
      if IsNothing(target[0]) {
        NamesMayFollow(target[1..], rest, depth, descended);
      } else if target[0] == ".." {
        DescendedAnywhere(rest, depth, depth - 1, true);
        NamesMayFollow(target[1..], rest, depth - 1, descended);
      } else if '\\' !in target[0] {
        NamesMayFollow(target[1..], rest, depth, true);
      }
    }
  }

  /** The rule reads a target at both separators, the system only at slashes; what the rule accepts is contained as the
      system reads it. */
  lemma {:induction false} RuleCoversTheSystem(target: string, depth: nat, descended: bool)
    requires Contained(Pieces(target), depth, descended)
    ensures NeverEscapes(OsPieces(target), depth, descended)
    decreases |target|
  {
    var front := Before(target, '/');
    if front == target {
      SplitWhole(target, IsSlash);
      if '\\' !in target {
        SplitWhole(target, IsSeparator);
      }
    } else {
      var rest := target[|front| + 1..];
      assert target == front + ['/'] + rest;
      SplitFirst(front, '/', rest, IsSlash);
      if '\\' !in front {
        SplitFirst(front, '/', rest, IsSeparator);
        assert Pieces(target)[1..] == Pieces(rest) && OsPieces(target)[1..] == OsPieces(rest);
        if IsNothing(front) {
          RuleCoversTheSystem(rest, depth, descended);
        } else if front == ".." {
          RuleCoversTheSystem(rest, depth - 1, descended);
        } else {
          RuleCoversTheSystem(rest, depth, true);
        }
      }
    }
  }

  /** As the system reads it, a link to `target` in a directory `depth` levels down climbs no further than the root. */
  predicate StaysAt(depth: nat, target: string) {
    (target == "" || !IsSlash(target[0])) && NeverEscapes(OsPieces(target), depth, false)
  }

  /** Every link stays inside from where it really stands; no directory and no link has a separator in its name. */
  ghost predicate LinksContained(tree: Tree) {
    forall path <- tree ::
      && path != []
      && (tree[path].File? || IsPlain(path[|path| - 1]))
      && (tree[path].Link? ==> StaysAt(|path| - 1, tree[path].target))
  }

  lemma AcceptedIsContained(depth: nat, target: string)
    requires AcceptsTarget(depth, target)
    ensures Contained(Pieces(target), depth, false) && target != "" && !IsSlash(target[0])
  {
  }

  lemma AcceptedStaysAt(depth: nat, target: string)
    requires AcceptsTarget(depth, target)
    ensures StaysAt(depth, target)
  {
    hide Contained, NeverEscapes, Split;
    AcceptedIsContained(depth, target);
    RuleCoversTheSystem(target, depth, false);
  }

  /** What the rule accepts where it stands is contained there. */
  lemma AcceptedAreContained(tree: Tree)
    requires LinksAccepted(tree)
    ensures LinksContained(tree)
  {
    hide AcceptsTarget, StaysAt, IsPlain;
    forall path <- tree
      ensures path != [] && IsPlain(path[|path| - 1]) && (tree[path].Link? ==> StaysAt(|path| - 1, tree[path].target))
    {
      assert path[|path| - 1] in path;
      if tree[path].Link? {
        AcceptedStaysAt(|path| - 1, tree[path].target);
      }
    }
  }

  /** Containment, whatever order the links were created in: with every link contained where it stands, no walk of
      contained pieces ever leaves the root. */
  lemma {:induction false} ResolutionStaysInside(tree: Tree, at: Path, pending: seq<string>, links: nat)
    requires LinksContained(tree) && NeverEscapes(pending, |at|, false)
    ensures Resolve(tree, at, pending, links) != Escapes
    decreases links, |pending|
  {
    hide Split;
    if pending != [] {
      var rest := pending[1..];
      if IsNothing(pending[0]) {
        ResolutionStaysInside(tree, at, rest, links);
      } else if pending[0] == ".." {
        ResolutionStaysInside(tree, at[..|at| - 1], rest, links);
      } else {
        var next := at + [pending[0]];
        if next in tree {
          assert next[|next| - 1] == pending[0];
          match tree[next]
          case Directory =>
            DescendedAnywhere(rest, |at|, |next|, false);
            ResolutionStaysInside(tree, next, rest, links);
          case File =>
          case Link(target) =>
            if links > 0 {
              NamesMayFollow(OsPieces(target), rest, |at|, false);
              ResolutionStaysInside(tree, at, OsPieces(target) + rest, links - 1);
            }
        }
      }
    }
  }

  /** Pieces that climb only before they descend either climb no deeper than they start, or leave the root at once. */
  lemma {:induction false} ClimbsFirst(tree: Tree, at: Path, pending: seq<string>, depth: nat, links: nat)
    requires NeverEscapes(pending, depth, false) && !NeverEscapes(pending, |at|, false)
    ensures Resolve(tree, at, pending, links) == Escapes
    decreases |pending|
  {
    if IsNothing(pending[0]) {
      ClimbsFirst(tree, at, pending[1..], depth, links);
    } else if pending[0] != ".." {
      if '\\' !in pending[0] {
        DescendedAnywhere(pending[1..], depth, |at|, true);
      }
    } else if at != [] {
      ClimbsFirst(tree, at[..|at| - 1], pending[1..], depth - 1, links);
    }
  }

  lemma {:induction false} NamesNeverEscape(names: Path, depth: nat, descended: bool)
    requires forall name <- names :: IsPlain(name)
    ensures NeverEscapes(names, depth, descended)
    decreases |names|
  {
    if names != [] {
      assert names[0] in names;
      NamesNeverEscape(names[1..], depth, true);
    }
  }

  // Creation, entry by entry.

  /** One accepted archive entry; its name is already validated. */
  datatype Creation = MakeDirectory(name: Path) | MakeFile(name: Path) | MakeLink(name: Path, target: string)

  const MAX_LINKS: nat := 40

  predicate IsAccepted(e: Creation) {
    && e.name != []
    && (forall name <- e.name :: IsPlain(name))
    && (e.MakeLink? ==> AcceptsTarget(|e.name| - 1, e.target))
  }

  /** The real directory an entry is created in: its name's parent, wherever the links along it lead. */
  function Parent(tree: Tree, e: Creation): Option<Path>
    requires e.name != []
  {
    match Resolve(tree, [], e.name[..|e.name| - 1], MAX_LINKS)
    case Inside(dir) => if dir == [] || (dir in tree && tree[dir].Directory?) then Some(dir) else None
    case _ => None
  }

  function Create(tree: Tree, e: Creation): Tree
    requires e.name != []
  {
    match Parent(tree, e)
    case None => tree
    case Some(dir) =>
      var path := dir + [e.name[|e.name| - 1]];
      if path in tree then tree else
      tree[path := match e case MakeDirectory(_) => Directory case MakeFile(_) => File case MakeLink(_, t) => Link(t)]
  }

  /** A link lands where its target is accepted, which is not a matter of its name alone: the directory it really lands
      in may be shallower. */
  ghost predicate Fits(tree: Tree, e: Creation)
    requires e.name != []
  {
    e.MakeLink? && Parent(tree, e).Some? ==> AcceptsTarget(|Parent(tree, e).value|, e.target)
  }

  /** A link whose parent is a real directory under the very name it was given always fits. */
  lemma RealParentsFit(tree: Tree, e: Creation)
    requires IsAccepted(e)
    requires Parent(tree, e) == Some(e.name[..|e.name| - 1])
    ensures Fits(tree, e)
  {
  }

  ghost predicate AllFit(tree: Tree, entries: seq<Creation>)
    decreases |entries|
  {
    entries != [] ==>
      IsAccepted(entries[0]) && Fits(tree, entries[0]) && AllFit(Create(tree, entries[0]), entries[1..])
  }

  function CreateAll(tree: Tree, entries: seq<Creation>): Tree
    requires forall e <- entries :: e.name != []
    decreases |entries|
  {
    if entries == [] then tree else CreateAll(Create(tree, entries[0]), entries[1..])
  }

  /** Exactly the links that fit keep the tree one in which every link is accepted. */
  lemma CreateKeepsAcceptedExactly(tree: Tree, e: Creation)
    requires LinksAccepted(tree) && IsAccepted(e)
    ensures Fits(tree, e) ==> LinksAccepted(Create(tree, e))
    ensures Create(tree, e) != tree && LinksAccepted(Create(tree, e)) ==> Fits(tree, e)
  {
    hide AcceptsTarget, IsPlain, Resolve;
    var parent := Parent(tree, e);
    if parent.Some? {
      var last := e.name[|e.name| - 1];
      assert last in e.name;
      if parent.value != [] {
        ParentIsReal(tree, e);
      }
      var path := parent.value + [last];
      assert path !in tree ==> path in Create(tree, e);
    }
  }

  lemma ParentIsReal(tree: Tree, e: Creation)
    requires e.name != [] && Parent(tree, e).Some? && Parent(tree, e).value != []
    ensures Parent(tree, e).value in tree
  {
  }

  /** For every creation order: whatever entries an archive holds, in whatever order, once they are created no accepted
      name leads above the root. */
  lemma {:induction false} EveryOrderIsContained(tree: Tree, entries: seq<Creation>, name: Path, links: nat)
    requires LinksAccepted(tree) && AllFit(tree, entries)
    requires forall e <- entries :: e.name != []
    requires forall n <- name :: IsPlain(n)
    ensures Resolve(CreateAll(tree, entries), [], name, links) != Escapes
    decreases |entries|
  {
    if entries == [] {
      NamesNeverEscape(name, 0, false);
      AcceptedAreContained(tree);
      ResolutionStaysInside(tree, [], name, links);
    } else {
      CreateKeepsAcceptedExactly(tree, entries[0]);
      EveryOrderIsContained(Create(tree, entries[0]), entries[1..], name, links);
    }
  }

  const DIRECTORY_D: Creation := MakeDirectory(["d"])
  const LINK_A: Creation := MakeLink(["d", "a"], "..")
  const LINK_B: Creation := MakeLink(["d", "a", "b"], "../..")

  /** Why the extractor resolves its links again at the end: three entries, each accepted by its text, of which the last
      is created through the second and lands two levels higher than its name, from where its target leaves the root. */
  lemma LinkedParentEscapes()
    ensures IsAccepted(DIRECTORY_D) && IsAccepted(LINK_A) && IsAccepted(LINK_B)
    ensures var tree := Create(Create(Create(map[], DIRECTORY_D), LINK_A), LINK_B);
            Resolve(tree, [], LINK_B.name, MAX_LINKS) == Escapes
  {
    hide AcceptsTarget, Resolve, Split, Create;
    UpTargetAccepted(1);
    UpTargetAccepted(2);
    assert UpTarget(1) == ".." && UpTarget(2) == "../..";
    Placed();
    WalkToB();
  }

  const TREE_A: Tree := map[["d"] := Directory, ["d", "a"] := Link("..")]
  const TREE_B: Tree := TREE_A[["b"] := Link("../..")]

  lemma PlacedD()
    ensures Create(map[], DIRECTORY_D) == map[["d"] := Directory]
  {
    hide Split, AcceptsTarget;
    assert DIRECTORY_D.name[..0] == [] && [] + ["d"] == ["d"];
  }

  lemma PlacedA(tree: Tree)
    requires tree == map[["d"] := Directory]
    ensures Create(tree, LINK_A) == TREE_A
  {
    hide Split, AcceptsTarget;
    assert LINK_A.name[..1] == ["d"] && [] + ["d"] == ["d"] && ["d"] + ["a"] == ["d", "a"];
    assert Resolve(tree, [], ["d"], MAX_LINKS) == Inside(["d"]);
  }

  lemma PlacedB()
    ensures Create(TREE_A, LINK_B) == TREE_B
  {
    hide Split, AcceptsTarget;
    assert LINK_B.name[..2] == ["d", "a"] && [] + ["b"] == ["b"];
    ThroughA(TREE_A, [], MAX_LINKS);
    assert ["d", "a"] + [] == ["d", "a"];
    assert Resolve(TREE_A, [], [], MAX_LINKS - 1) == Inside([]);
  }

  lemma Placed()
    ensures Create(Create(Create(map[], DIRECTORY_D), LINK_A), LINK_B) == TREE_B
  {
    hide Create;
    PlacedD();
    PlacedA(Create(map[], DIRECTORY_D));
    PlacedB();
  }

  /** `d/a` is a link back to the root. */
  lemma ThroughA(tree: Tree, rest: seq<string>, links: nat)
    requires ["d"] in tree && tree[["d"]] == Directory && ["d", "a"] in tree && tree[["d", "a"]] == Link("..")
    requires links > 0
    ensures Resolve(tree, [], ["d", "a"] + rest, links) == Resolve(tree, [], rest, links - 1)
  {
    hide Split, AcceptsTarget;
    UpTargetPieces(1);
    assert Repeat("..", 1) == [".."] && UpTarget(1) == "..";
    assert [] + ["d"] == ["d"] && ["d"] + ["a"] == ["d", "a"];
    var all := ["d", "a"] + rest;
    assert all[1..] == ["a"] + rest && (["a"] + rest)[1..] == rest;
    assert ([".."] + rest)[1..] == rest && ["d"][..0] == [];
    assert Resolve(tree, ["d"], ["a"] + rest, links) == Resolve(tree, ["d"], [".."] + rest, links - 1);
  }

  /** Into `d` and through the link in it back to the root, `n` times. */
  function Rounds(n: nat): Path {
    if n == 0 then [] else ["d", "a"] + Rounds(n - 1)
  }

  lemma {:induction false} RoundsReturn(tree: Tree, n: nat, rest: seq<string>, links: nat)
    requires ["d"] in tree && tree[["d"]] == Directory && ["d", "a"] in tree && tree[["d", "a"]] == Link("..")
    requires n <= links
    ensures Resolve(tree, [], Rounds(n) + rest, links) == Resolve(tree, [], rest, links - n)
  {
    hide Resolve;
    if n == 0 {
      assert Rounds(0) + rest == rest;
    } else {
      ThroughA(tree, Rounds(n - 1) + rest, links);
      assert Rounds(n) + rest == ["d", "a"] + (Rounds(n - 1) + rest);
      RoundsReturn(tree, n - 1, rest, links - 1);
    }
  }

  lemma {:induction false} RoundsArePlain(n: nat)
    ensures |Rounds(n)| == 2 * n && forall name <- Rounds(n) :: IsPlain(name)
  {
    if n > 0 {
      RoundsArePlain(n - 1);
    }
  }

  lemma WalkToB()
    ensures Resolve(TREE_B, [], LINK_B.name, MAX_LINKS) == Escapes
  {
    hide Split, AcceptsTarget;
    UpTargetPieces(2);
    assert Repeat("..", 1) == [".."] && Repeat("..", 2) == ["..", ".."] && UpTarget(2) == "../..";
    assert LINK_B.name == ["d", "a"] + ["b"];
    ThroughA(TREE_B, ["b"], MAX_LINKS);
    assert [] + ["b"] == ["b"] && ["b"][1..] == [] && ["..", ".."] + [] == ["..", ".."];
  }

  /** What resolving a created link may come to: it resolves, dangles or loops; anything else is an escape. */
  predicate IsContained(w: Where) {
    w.Inside? || w.Absent? || w.Loops?
  }

  /** The tree without the link of that name, wherever it really is. */
  function Removed(tree: Tree, link: Path): Tree
    requires link != []
  {
    match Parent(tree, MakeFile(link))
    case None => tree
    case Some(dir) => tree - {dir + [link[|link| - 1]]}
  }

  // The rule is exact.

  function Repeat(name: string, n: nat): Path {
    if n == 0 then [] else Repeat(name, n - 1) + [name]
  }

  /** A target that climbs `n` levels and no more. */
  function UpTarget(n: nat): string {
    if n == 0 then "." else if n == 1 then ".." else "../" + UpTarget(n - 1)
  }

  lemma {:induction false} UpTargetPieces(n: nat)
    ensures UpTarget(n) != "" && UpTarget(n)[0] == '.' && '\\' !in UpTarget(n) && '\0' !in UpTarget(n)
    ensures Pieces(UpTarget(n)) == OsPieces(UpTarget(n)) == if n == 0 then ["."] else Repeat("..", n)
    ensures n > 0 ==> UpTarget(n)[1] == '.'
  {
    if n > 1 {
      UpTargetPieces(n - 1);
      assert UpTarget(n) == ".." + ['/'] + UpTarget(n - 1);
      SplitFirst("..", '/', UpTarget(n - 1), IsSlash);
      SplitFirst("..", '/', UpTarget(n - 1), IsSeparator);
      RepeatFront("..", n - 1);
    } else if n == 1 {
      SplitWhole("..", IsSlash);
      SplitWhole("..", IsSeparator);
      assert Repeat("..", 1) == [".."];
    } else {
      SplitWhole(".", IsSlash);
      SplitWhole(".", IsSeparator);
    }
  }

  lemma {:induction false} RepeatFront(name: string, n: nat)
    ensures Repeat(name, n + 1) == [name] + Repeat(name, n)
  {
    if n > 0 {
      RepeatFront(name, n - 1);
    }
  }

  /** Where the walk of a target from `depth` stands when it meets its first name. */
  function DepthAtName(pieces: seq<string>, depth: nat): nat {
    if pieces == [] then 0
    else if IsNothing(pieces[0]) then DepthAtName(pieces[1..], depth)
    else if pieces[0] == ".." then (if depth == 0 then 0 else DepthAtName(pieces[1..], depth - 1))
    else depth
  }

  /** At `base` levels down, every one of `names` leads back to the root; at the root, each leads nowhere. */
  ghost predicate IsTrap(tree: Tree, dir: string, base: nat, names: seq<string>) {
    forall c <- names :: !IsNothing(c) && c != ".." && '\\' !in c ==>
      && Repeat(dir, base) + [c] in tree && tree[Repeat(dir, base) + [c]] == Link(UpTarget(base))
      && [c] in tree && tree[[c]] == Link(".")
  }

  lemma StepUp(tree: Tree, at: Path, pending: seq<string>, links: nat)
    requires pending != [] && pending[0] == ".." && at != []
    ensures Resolve(tree, at, pending, links) == Resolve(tree, at[..|at| - 1], pending[1..], links)
  {
  }

  lemma StepInto(tree: Tree, at: Path, pending: seq<string>, links: nat)
    requires pending != [] && !IsNothing(pending[0]) && pending[0] != ".."
    requires at + [pending[0]] in tree && tree[at + [pending[0]]] == Directory
    ensures Resolve(tree, at, pending, links) == Resolve(tree, at + [pending[0]], pending[1..], links)
  {
  }

  lemma StepThrough(tree: Tree, at: Path, pending: seq<string>, links: nat, target: string)
    requires pending != [] && !IsNothing(pending[0]) && pending[0] != ".." && links > 0
    requires at + [pending[0]] in tree && tree[at + [pending[0]]] == Link(target)
    requires target == "" || !IsSlash(target[0])
    ensures Resolve(tree, at, pending, links) == Resolve(tree, at, OsPieces(target) + pending[1..], links - 1)
  {
  }

  lemma RepeatLast(name: string, n: nat)
    requires n > 0
    ensures Repeat(name, n) != [] && Repeat(name, n)[..|Repeat(name, n)| - 1] == Repeat(name, n - 1)
  {
  }

  lemma RepeatFirst(name: string, n: nat, rest: seq<string>)
    requires n > 0
    ensures var all := Repeat(name, n) + rest; all != [] && all[0] == name && all[1..] == Repeat(name, n - 1) + rest
  {
    RepeatFront(name, n - 1);
    var fewer := Repeat(name, n - 1);
    hide Repeat;
    assert Repeat(name, n) == [name] + fewer;
  }

  lemma {:induction false} UpsReachRoot(tree: Tree, dir: string, n: nat, rest: seq<string>, links: nat)
    ensures Resolve(tree, Repeat(dir, n), Repeat("..", n) + rest, links) == Resolve(tree, [], rest, links)
  {
    hide Resolve;
    if n == 0 {
      assert Repeat("..", 0) + rest == rest;
    } else {
      var at, pending := Repeat(dir, n), Repeat("..", n) + rest;
      RepeatLast(dir, n);
      RepeatFirst("..", n, rest);
      hide Repeat;
      StepUp(tree, at, pending, links);
      UpsReachRoot(tree, dir, n - 1, rest, links);
    }
  }

  /** At the root, with every name leading nowhere, the first `..` leaves it. */
  lemma {:induction false} AtRootEscapes(tree: Tree, dir: string, base: nat, names: seq<string>, pending: seq<string>, links: nat)
    requires IsTrap(tree, dir, base, names) && (forall c <- pending :: c in names) && links >= |pending|
    requires !NeverEscapes(pending, 0, true)
    ensures Resolve(tree, [], pending, links) == Escapes
    decreases |pending|
  {
    var rest := pending[1..];
    if IsNothing(pending[0]) {
      AtRootEscapes(tree, dir, base, names, rest, links);
    } else if pending[0] != ".." {
      assert pending[0] in names && [] + [pending[0]] == [pending[0]];
      UpTargetPieces(0);
      var next := OsPieces(".") + rest;
      assert next[0] == "." && next[1..] == rest;
      assert Resolve(tree, [], pending, links) == Resolve(tree, [], next, links - 1);
      AtRootEscapes(tree, dir, base, names, rest, links - 1);
    }
  }

  /** From `depth` levels down, a target the rule refuses climbs out: straight away, or through the trap. */
  lemma {:induction false} RefusedEscapes(tree: Tree, dir: string, names: seq<string>, pending: seq<string>, depth: nat,
                                          links: nat)
    requires IsTrap(tree, dir, DepthAtName(pending, depth), names) && (forall c <- pending :: c in names)
    requires links > |pending| && !NeverEscapes(pending, depth, false)
    ensures Resolve(tree, Repeat(dir, depth), pending, links) == Escapes
    decreases |pending|
  {
    var rest := pending[1..];
    var at := Repeat(dir, depth);
    if IsNothing(pending[0]) {
      RefusedEscapes(tree, dir, names, rest, depth, links);
    } else if pending[0] == ".." {
      if depth > 0 {
        assert at[..|at| - 1] == Repeat(dir, depth - 1);
        StepUp(tree, at, pending, links);
        RefusedEscapes(tree, dir, names, rest, depth - 1, links);
      } else {
        assert at == [];
      }
    } else {
      assert pending[0] in names;
      UpTargetPieces(depth);
      var next := OsPieces(UpTarget(depth)) + rest;
      StepThrough(tree, at, pending, links, UpTarget(depth));
      if depth == 0 {
        assert next[1..] == rest && at == [];
      } else {
        UpsReachRoot(tree, dir, depth, rest, links - 1);
      }
      if NeverEscapes(rest, 0, true) {
        DescendedAnywhere(rest, 0, depth, true);
      }
      AtRootEscapes(tree, dir, depth, names, rest, links - 1);
    }
  }

  /** A name longer than any of `names`. */
  function FreshName(names: seq<string>): (name: string)
    ensures IsPlain(name) && |name| >= 3 && (forall c <- name :: c == 'd') && forall n <- names :: |n| < |name|
  {
    if names == [] then "ddd" else
    var shorter := FreshName(names[1..]);
    var own := seq(|names[0]| + 3, _ => 'd');
    if |own| > |shorter| then own else shorter
  }

  ghost predicate IsName(piece: string, pieces: seq<string>) {
    piece in pieces && !IsNothing(piece) && piece != ".." && '\\' !in piece
  }

  /** A link to `target`, `depth` levels down a chain of directories, and the trap for the names in it. */
  ghost function Trap(dir: string, depth: nat, target: string): Tree {
    var pieces := OsPieces(target);
    var base := DepthAtName(pieces, depth);
    map path | path in (set j | 1 <= j <= depth + 1 :: Repeat(dir, j)) +
                       (set c | c in pieces && IsName(c, pieces) :: Repeat(dir, base) + [c]) +
                       (set c | c in pieces && IsName(c, pieces) :: [c]) ::
      if path == Repeat(dir, depth + 1) then Link(target)
      else if path == [] || path[|path| - 1] == dir then Directory
      else if |path| == 1 then Link(".")
      else Link(UpTarget(base))
  }

  function Without(tree: Tree, path: Path): Tree {
    tree - {path}
  }

  lemma {:induction false} RepeatIs(name: string, n: nat)
    ensures |Repeat(name, n)| == n && forall x <- Repeat(name, n) :: x == name
    ensures n > 0 ==> Repeat(name, n)[n - 1] == name
  {
    if n > 0 {
      RepeatIs(name, n - 1);
    }
  }

  lemma {:induction false} UpsAreContained(n: nat, depth: nat)
    requires n <= depth
    ensures Contained(Repeat("..", n), depth, false)
  {
    if n > 0 {
      RepeatFront("..", n - 1);
      assert Repeat("..", n)[1..] == Repeat("..", n - 1);
      UpsAreContained(n - 1, depth - 1);
    }
  }

  lemma UpTargetAccepted(n: nat)
    ensures AcceptsTarget(n, UpTarget(n))
  {
    UpTargetPieces(n);
    UpsAreContained(n, n);
  }

  lemma ChainStep(dir: string, left: nat, j: nat)
    ensures Repeat(dir, left + 1) == [dir] + Repeat(dir, left)
    ensures Repeat(dir, j) + [dir] == Repeat(dir, j + 1) && Repeat(dir, 0) == []
  {
    RepeatFront(dir, left);
  }

  lemma {:induction false} WalkToLink(tree: Tree, dir: string, depth: nat, j: nat, links: nat)
    requires j <= depth && !IsNothing(dir) && dir != ".."
    requires forall i :: 1 <= i <= depth ==> Repeat(dir, i) in tree && tree[Repeat(dir, i)] == Directory
    ensures Resolve(tree, Repeat(dir, j), Repeat(dir, depth + 1 - j), links)
         == Resolve(tree, Repeat(dir, depth), [dir], links)
    decreases depth - j
  {
    var pending := Repeat(dir, depth + 1 - j);
    ChainStep(dir, depth - j, j);
    hide Resolve, Repeat, IsNothing;
    if j < depth {
      StepInto(tree, Repeat(dir, j), pending, links);
      WalkToLink(tree, dir, depth, j + 1, links);
    } else {
      assert pending == [dir];
    }
  }

  lemma TrapDeep(dir: string, depth: nat, target: string, c: string)
    requires IsName(c, OsPieces(target)) && c != dir
    ensures var base := DepthAtName(OsPieces(target), depth); var path := Repeat(dir, base) + [c];
            && path in Trap(dir, depth, target)
            && Trap(dir, depth, target)[path] == Link(if |path| == 1 then "." else UpTarget(base))
  {
    hide UpTarget, Split, DepthAtName, IsName;
    var base := DepthAtName(OsPieces(target), depth);
    RepeatIs(dir, depth + 1);
    hide Repeat;
    var path := Repeat(dir, base) + [c];
    assert path[|path| - 1] == c && path != Repeat(dir, depth + 1);
    assert c in OsPieces(target) by { NameIsAPiece(c, OsPieces(target)); }
  }

  lemma NameIsAPiece(c: string, pieces: seq<string>)
    requires IsName(c, pieces)
    ensures c in pieces
  {
  }

  lemma TrapShallow(dir: string, depth: nat, target: string, c: string)
    requires IsName(c, OsPieces(target)) && c != dir
    ensures [c] in Trap(dir, depth, target) && Trap(dir, depth, target)[[c]] == Link(".")
  {
    hide UpTarget, Split, DepthAtName, IsName;
    RepeatIs(dir, depth + 1);
    hide Repeat;
    var path := [c];
    assert path[|path| - 1] == c && path != Repeat(dir, depth + 1);
    assert c in OsPieces(target) by { NameIsAPiece(c, OsPieces(target)); }
  }

  lemma TrapSprings(dir: string, depth: nat, target: string)
    requires dir == FreshName(OsPieces(target))
    ensures IsTrap(Trap(dir, depth, target), dir, DepthAtName(OsPieces(target), depth), OsPieces(target))
  {
    hide FreshName, UpTarget, Split, DepthAtName, Trap;
    var pieces := OsPieces(target);
    var base := DepthAtName(pieces, depth);
    RepeatIs(dir, base);
    UpTargetZero();
    forall c <- pieces | !IsNothing(c) && c != ".." && '\\' !in c
      ensures Repeat(dir, base) + [c] in Trap(dir, depth, target)
      ensures Trap(dir, depth, target)[Repeat(dir, base) + [c]] == Link(UpTarget(base))
      ensures [c] in Trap(dir, depth, target) && Trap(dir, depth, target)[[c]] == Link(".")
    {
      assert IsName(c, pieces) && c != dir;
      TrapDeep(dir, depth, target, c);
      TrapShallow(dir, depth, target, c);
    }
  }

  lemma TrapChain(dir: string, depth: nat, target: string)
    ensures var tree := Trap(dir, depth, target);
            && Repeat(dir, depth + 1) in tree && tree[Repeat(dir, depth + 1)] == Link(target)
            && forall i :: 1 <= i <= depth ==> Repeat(dir, i) in tree && tree[Repeat(dir, i)] == Directory
  {
    hide UpTarget, Split;
    var tree := Trap(dir, depth, target);
    RepeatIs(dir, depth + 1);
    forall i | 1 <= i <= depth ensures Repeat(dir, i) in tree && tree[Repeat(dir, i)] == Directory {
      RepeatIs(dir, i);
    }
  }

  lemma PiecesArePlain(target: string)
    ensures forall piece <- OsPieces(target) :: IsName(piece, OsPieces(target)) ==> IsPlain(piece)
  {
    PiecesHoldNoSeparator(target, IsSlash);
  }

  lemma TrapLink(dir: string, base: nat, c: string)
    requires IsPlain(dir) && IsPlain(c)
    ensures var deep := Repeat(dir, base) + [c];
            && (forall name <- deep :: IsPlain(name)) && AcceptsTarget(|deep| - 1, UpTarget(base))
            && AcceptsTarget(|[c]| - 1, ".")
  {
    hide AcceptsTarget, UpTarget, IsPlain;
    RepeatIs(dir, base);
    UpTargetAccepted(base);
    UpTargetAccepted(0);
    UpTargetZero();
  }

  ghost predicate OnChain(path: Path, dir: string, depth: nat) {
    exists j :: 1 <= j <= depth + 1 && path == Repeat(dir, j)
  }

  ghost predicate IsSpring(path: Path, c: string, dir: string, base: nat, pieces: seq<string>) {
    IsName(c, pieces) && (path == Repeat(dir, base) + [c] || path == [c])
  }

  lemma TrapHolds(dir: string, depth: nat, target: string, path: Path) returns (c: string)
    requires path in Trap(dir, depth, target)
    ensures OnChain(path, dir, depth) ||
            IsSpring(path, c, dir, DepthAtName(OsPieces(target), depth), OsPieces(target))
  {
    hide UpTarget, Split, DepthAtName, Repeat, IsName;
    c := "";
    if !OnChain(path, dir, depth) {
      var pieces := OsPieces(target);
      var base := DepthAtName(pieces, depth);
      c :| c in pieces && IsName(c, pieces) && (path == Repeat(dir, base) + [c] || path == [c]);
    }
  }

  lemma TrapPath(dir: string, depth: nat, target: string, path: Path)
    requires dir == FreshName(OsPieces(target))
    requires path in Trap(dir, depth, target) && path != Repeat(dir, depth + 1)
    ensures var node := Trap(dir, depth, target)[path];
            && path != [] && (forall name <- path :: IsPlain(name))
            && (node.Link? ==> AcceptsTarget(|path| - 1, node.target))
  {
    hide FreshName, UpTarget, Split, AcceptsTarget, IsPlain, DepthAtName, Trap;
    var pieces := OsPieces(target);
    var base := DepthAtName(pieces, depth);
    var c := TrapHolds(dir, depth, target, path);
    if OnChain(path, dir, depth) {
      var j :| 1 <= j <= depth + 1 && path == Repeat(dir, j);
      RepeatIs(dir, j);
      TrapChain(dir, depth, target);
    } else {
      PiecesArePlain(target);
      TrapLink(dir, base, c);
      TrapTargets(dir, depth, target, c, path);
    }
  }

  /** The trap is one the rule has no quarrel with: all its other links are accepted. */
  lemma TrapIsAccepted(dir: string, depth: nat, target: string)
    requires dir == FreshName(OsPieces(target))
    ensures LinksAccepted(Without(Trap(dir, depth, target), Repeat(dir, depth + 1)))
  {
    hide FreshName, Trap, AcceptsTarget, IsPlain;
    forall path <- Trap(dir, depth, target) | path != Repeat(dir, depth + 1)
      ensures var node := Trap(dir, depth, target)[path];
              && path != [] && (forall name <- path :: IsPlain(name))
              && (node.Link? ==> AcceptsTarget(|path| - 1, node.target))
    {
      TrapPath(dir, depth, target, path);
    }
  }

  lemma TrapTargets(dir: string, depth: nat, target: string, c: string, path: Path)
    requires path in Trap(dir, depth, target) && path != Repeat(dir, depth + 1) && c != dir
    requires path == Repeat(dir, DepthAtName(OsPieces(target), depth)) + [c] || path == [c]
    ensures Trap(dir, depth, target)[path]
         == Link(if |path| == 1 then "." else UpTarget(DepthAtName(OsPieces(target), depth)))
  {
    hide UpTarget, Split, DepthAtName;
    assert path[|path| - 1] == c;
  }

  lemma UpTargetZero()
    ensures UpTarget(0) == "."
  {
  }

  /** A link to `target`, `depth` levels down, in a tree whose other links are all accepted. */
  ghost predicate Stands(tree: Tree, path: Path, target: string, depth: nat) {
    && |path| == depth + 1 && (forall name <- path :: IsPlain(name))
    && path in tree && tree[path] == Link(target)
    && LinksAccepted(Without(tree, path))
  }

  lemma SafeStaysInside(tree: Tree, path: Path, target: string, depth: nat, links: nat)
    requires StaysAt(depth, target) && Stands(tree, path, target, depth)
    ensures Resolve(tree, [], path, links) != Escapes
  {
    hide AcceptsTarget, StaysAt, IsPlain, Resolve, LinksAccepted;
    AcceptedAreContained(Without(tree, path));
    assert forall p <- tree :: p != path ==> p in Without(tree, path) && Without(tree, path)[p] == tree[p];
    assert path[|path| - 1] in path;
    NamesNeverEscape(path, 0, false);
    ResolutionStaysInside(tree, [], path, links);
  }

  lemma TrapStands(dir: string, depth: nat, target: string)
    requires dir == FreshName(OsPieces(target))
    ensures Stands(Trap(dir, depth, target), Repeat(dir, depth + 1), target, depth)
  {
    hide Trap, Repeat, FreshName, AcceptsTarget, LinksAccepted, IsPlain;
    TrapIsAccepted(dir, depth, target);
    TrapChain(dir, depth, target);
    RepeatIs(dir, depth + 1);
  }

  lemma TrapWalk(tree: Tree, target: string, depth: nat, dir: string, links: nat)
    requires tree == Trap(dir, depth, target) && !IsNothing(dir) && dir != ".." && links > 0
    ensures Resolve(tree, [], Repeat(dir, depth + 1), links) == Resolve(tree, Repeat(dir, depth), [dir], links)
    ensures Repeat(dir, depth) + [dir] in tree && tree[Repeat(dir, depth) + [dir]] == Link(target)
  {
    assert Repeat(dir, 0) == [] && Repeat(dir, depth + 1) == Repeat(dir, depth) + [dir];
    hide *;
    TrapChain(dir, depth, target);
    WalkToLink(tree, dir, depth, 0, links);
  }

  lemma RefusedClimbs(tree: Tree, target: string, depth: nat, dir: string)
    requires tree == Trap(dir, depth, target) && dir == FreshName(OsPieces(target))
    requires !NeverEscapes(OsPieces(target), depth, false)
    ensures Resolve(tree, Repeat(dir, depth), OsPieces(target), |OsPieces(target)| + 1) == Escapes
  {
    hide *;
    TrapSprings(dir, depth, target);
    RefusedEscapes(tree, dir, OsPieces(target), OsPieces(target), depth, |OsPieces(target)| + 1);
  }

  /** Whatever does not stay inside by itself leaves the root through its trap. */
  lemma RefusedLeaves(target: string, depth: nat, dir: string, links: nat)
    requires !StaysAt(depth, target)
    requires dir == FreshName(OsPieces(target)) && links == |OsPieces(target)| + 2
    ensures Resolve(Trap(dir, depth, target), [], Repeat(dir, depth + 1), links) == Escapes
  {
    assert !IsNothing(dir) && dir != "..";
    hide FreshName, Trap, Repeat, Split, NeverEscapes;
    var tree := Trap(dir, depth, target);
    TrapWalk(tree, target, depth, dir, links);
    if target == "" || !IsSlash(target[0]) {
      RefusedClimbs(tree, target, depth, dir);
      StepThrough(tree, Repeat(dir, depth), [dir], links, target);
      assert OsPieces(target) + [dir][1..] == OsPieces(target);
    }
  }

  /** A link to `target`, `depth` levels down, leads nowhere outside, beside whatever accepted links were planted and
      whenever they were. */
  ghost predicate IsSafe(depth: nat, target: string) {
    forall tree: Tree, path: Path, links: nat ::
      Stands(tree, path, target, depth) ==> Resolve(tree, [], path, links) != Escapes
  }

  /** Exactly the targets that stay inside by themselves are safe beside every set of accepted links. */
  lemma StaysExactly(depth: nat, target: string)
    ensures IsSafe(depth, target) <==> StaysAt(depth, target)
  {
    hide StaysAt, Stands, Resolve, Trap, FreshName, Split;
    if StaysAt(depth, target) {
      forall tree: Tree, path: Path, links: nat | Stands(tree, path, target, depth)
        ensures Resolve(tree, [], path, links) != Escapes
      {
        SafeStaysInside(tree, path, target, depth, links);
      }
    } else {
      var dir := FreshName(OsPieces(target));
      TrapStands(dir, depth, target);
      RefusedLeaves(target, depth, dir, |OsPieces(target)| + 2);
    }
  }

  /** `target` as a system that separates at both reads it. */
  function Slashed(target: string): string {
    seq(|target|, i requires 0 <= i < |target| => if target[i] == '\\' then '/' else target[i])
  }

  lemma {:induction false} SlashedPieces(target: string)
    ensures OsPieces(Slashed(target)) == Pieces(target)
  {
    if target != [] {
      SlashedPieces(target[1..]);
      assert Slashed(target)[1..] == Slashed(target[1..]);
    }
  }

  lemma {:induction false} WithoutBackslash(pieces: seq<string>, depth: nat, descended: bool)
    requires forall piece <- pieces :: '\\' !in piece
    ensures NeverEscapes(pieces, depth, descended) == Contained(pieces, depth, descended)
    decreases |pieces|
  {
    if pieces != [] {
      assert pieces[0] in pieces;
      if IsNothing(pieces[0]) {
        WithoutBackslash(pieces[1..], depth, descended);
      } else if pieces[0] != ".." {
        WithoutBackslash(pieces[1..], depth, true);
      } else if depth > 0 {
        WithoutBackslash(pieces[1..], depth - 1, descended);
      }
    }
  }

  /** The rule is exact: it accepts a target if and only if it is no empty or absolute one and, read at both separators,
      is safe beside every set of accepted links, however and whenever they were planted. */
  lemma RuleIsExact(target: string, depth: nat)
    ensures AcceptsTarget(depth, target) <==>
              target != "" && UnsafePrefix(target).None? && IsSafe(depth, Slashed(target))
  {
    hide IsSafe, NeverEscapes, Contained, Split;
    if target != "" && UnsafePrefix(target).None? {
      assert Slashed(target)[0] == target[0];
      StaysExactly(depth, Slashed(target));
      SlashedPieces(target);
      PiecesHoldNoSeparator(target, IsSeparator);
      WithoutBackslash(Pieces(target), depth, false);
    }
  }
}
