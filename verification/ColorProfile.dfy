/** The color profile a container declares (src/image/container.rs). */
module ColorProfile {
  import opened Wrappers
  import opened Endian
  import opened Container
  import Associations

  const META: Bytes := [0x6D, 0x65, 0x74, 0x61]
  const PITM: Bytes := [0x70, 0x69, 0x74, 0x6D]
  const IPRP: Bytes := [0x69, 0x70, 0x72, 0x70]
  const IPCO: Bytes := [0x69, 0x70, 0x63, 0x6F]
  const IPMA: Bytes := [0x69, 0x70, 0x6D, 0x61]
  const COLR: Bytes := [0x63, 0x6F, 0x6C, 0x72]
  const PROF: Bytes := [0x70, 0x72, 0x6F, 0x66]
  const RICC: Bytes := [0x72, 0x49, 0x43, 0x43]
  const NCLX: Bytes := [0x6E, 0x63, 0x6C, 0x78]

  /** The name of a profile, none when there is none, or the bytes ran out before that could be decided. */
  datatype Answer = Decided(profile: Option<string>) | RanOut

  // Everything below `meta`.

  /** The first box of a type. */
  function Find(boxes: seq<Child>, kind: Bytes): Option<Bytes> {
    if boxes == [] then None
    else if boxes[0].kind == kind then Some(boxes[0].body)
    else Find(boxes[1..], kind)
  }

  /** The `colr` bodies among the properties with the given 1-based indices. */
  function Pick(properties: seq<Child>, indices: seq<nat>): seq<Bytes> {
    if indices == [] then [] else
      var i := indices[0];
      (if 1 <= i <= |properties| && properties[i - 1].kind == COLR then [properties[i - 1].body] else [])
      + Pick(properties, indices[1..])
  }

  /** The bodies every association table of the item picks, in order; none as soon as one table cannot be read. */
  function Collect(iprp: seq<Child>, properties: seq<Child>, item: nat): Option<seq<Bytes>> {
    if iprp == [] then Some([])
    else if iprp[0].kind != IPMA then Collect(iprp[1..], properties, item)
    else
      var indices := Associations.Of(iprp[0].body, item);
      if indices.None? then None else
        var more := Collect(iprp[1..], properties, item);
        if more.None? then None else Some(Pick(properties, indices.value) + more.value)
  }

  /** The primary item's number. */
  function PrimaryItem(pitm: Bytes): Option<nat> {
    if pitm == [] then None
    else if pitm[0] == 0 then ReadBe(pitm, 4, 2)
    else ReadBe(pitm, 4, 4)
  }

  /** `meta` is a full box: a version and flags before its children. */
  function PrimaryColr(meta: Bytes): Option<seq<Bytes>> {
    var boxes := if |meta| < 4 then None else Children(meta[4..]);
    if boxes.None? then None else
      var pitm := Find(boxes.value, PITM);
      var primary := if pitm.None? then None else PrimaryItem(pitm.value);
      var outer := Find(boxes.value, IPRP);
      var iprp := if outer.None? then None else Children(outer.value);
      if primary.None? || iprp.None? then None else
        var ipco := Find(iprp.value, IPCO);
        var properties := if ipco.None? then None else Children(ipco.value);
        if properties.None? then None else Collect(iprp.value, properties.value, primary.value)
  }

  function FindPrefixed(bodies: seq<Bytes>, prefixes: set<Bytes>): Option<Bytes> {
    if bodies == [] then None
    else if |bodies[0]| >= 4 && bodies[0][..4] in prefixes then Some(bodies[0])
    else FindPrefixed(bodies[1..], prefixes)
  }

  /** The names of coded color descriptions (ITU-T H.273). */
  function NclxName(primaries: nat, transfer: nat): Option<string> {
    if primaries == 1 && transfer == 13 then Some("sRGB")
    else if primaries == 12 && transfer == 13 then Some("Display P3")
    else if primaries == 9 && transfer in {1, 6, 13, 14, 15} then Some("Rec. 2020")
    else if primaries == 9 && transfer == 16 then Some("Rec. 2100 PQ")
    else if primaries == 9 && transfer == 18 then Some("Rec. 2100 HLG")
    else None
  }

  /** The first embedded profile decides, even when it says nothing; coded descriptions count only without one. */
  function ProfileFrom(colrs: seq<Bytes>, icc: Bytes -> Option<string>): Option<string> {
    var embedded := FindPrefixed(colrs, {PROF, RICC});
    var coded := FindPrefixed(colrs, {NCLX});
    if embedded.Some? then (if |embedded.value| < 4 then None else icc(embedded.value[4..]))
    else if coded.None? then None
    else
      var primaries, transfer := ReadBe(coded.value, 4, 2), ReadBe(coded.value, 6, 2);
      if primaries.None? || transfer.None? then None else NclxName(primaries.value, transfer.value)
  }

  function ProfileOfMeta(meta: Bytes, icc: Bytes -> Option<string>): Option<string> {
    var colrs := PrimaryColr(meta);
    if colrs.None? then None else ProfileFrom(colrs.value, icc)
  }

  // The top level.

  /** The body of the first top-level `meta`. */
  function Meta(bytes: Bytes): Option<Bytes>
    decreases |bytes|
  {
    match NextBox(bytes)
    case End => None
    case Truncated => None
    case At(kind, body, rest) => if kind == META then Some(body) else Meta(rest)
  }

  function IsoBmff(bytes: Bytes, icc: Bytes -> Option<string>): Answer {
    var meta := Meta(bytes);
    if meta.None? then RanOut else Decided(ProfileOfMeta(meta.value, icc))
  }

  /** Whether the first top-level `meta` states no size and so runs to the end of whatever is given. */
  predicate MetaIsOpen(bytes: Bytes)
    decreases |bytes|
  {
    match NextBox(bytes)
    case End => false
    case Truncated => false
    case At(kind, _, rest) => if kind == META then BeValue(bytes[..4]) == 0 else MetaIsOpen(rest)
  }

  method WalkIsoBmff(bytes: Bytes, icc: Bytes -> Option<string>) returns (answer: Answer)
    ensures answer == IsoBmff(bytes, icc)
  {
    hide NextBox, ProfileOfMeta;
    var rest := bytes;
    while true
      invariant Meta(rest) == Meta(bytes)
      decreases |rest|
    {
      match NextBox(rest)
      case End => return RanOut;
      case Truncated => return RanOut;
      case At(kind, body, next) =>
        if kind == META {
          return Decided(ProfileOfMeta(body, icc));
        }
        rest := next;
    }
  }

  lemma NextBoxOnMore(bytes: Bytes, more: Bytes)
    requires NextBox(bytes).At?
    ensures var step := NextBox(bytes);
            NextBox(bytes + more)
            == if BeValue(bytes[..4]) == 0 then At(step.kind, step.body + more, [])
               else At(step.kind, step.body, step.rest + more)
  {
    var all := bytes + more;
    assert all[..4] == bytes[..4] && all[4..8] == bytes[4..8];
    if |bytes| >= 16 {
      assert all[8..16] == bytes[8..16];
    }
    hide BeValue;
    var extent := Extent(bytes).value;
    assert all[extent.0..extent.1] == bytes[extent.0..extent.1];
    assert all[extent.1..] == bytes[extent.1..] + more;
    if BeValue(bytes[..4]) == 0 {
      assert all[8..] == bytes[8..] + more;
    }
  }

  /** A `meta` found in a prefix, with its size stated, is the one found in every extension. */
  lemma {:induction false} MetaOnMore(bytes: Bytes, more: Bytes)
    requires Meta(bytes).Some?
    ensures !MetaIsOpen(bytes) ==> Meta(bytes + more) == Meta(bytes)
    ensures MetaIsOpen(bytes) ==> Meta(bytes + more) == Some(Meta(bytes).value + more)
    decreases |bytes|
  {
    hide NextBox, BeValue;
    NextBoxOnMore(bytes, more);
    var step := NextBox(bytes);
    if step.kind != META {
      if BeValue(bytes[..4]) == 0 {
        OpenIsLast(bytes);
      }
      MetaOnMore(step.rest, more);
    }
  }

  lemma OpenIsLast(bytes: Bytes)
    requires NextBox(bytes).At? && BeValue(bytes[..4]) == 0
    ensures NextBox(bytes).rest == []
  {
  }

  // WebP.

  const RIFF: Bytes := [0x52, 0x49, 0x46, 0x46]
  const WEBP: Bytes := [0x57, 0x45, 0x42, 0x50]
  const VP8X: Bytes := [0x56, 0x50, 0x38, 0x58]
  const ICCP: Bytes := [0x49, 0x43, 0x43, 0x50]

  /** Splits the chunk at the front off; an odd one is followed by one byte of padding. */
  function NextChunk(bytes: Bytes): (step: Step)
    ensures !step.End? && (step.At? ==> |step.rest| < |bytes|)
  {
    if |bytes| < 8 then Truncated else
      var size := LeValue(bytes[4..8]);
      if 8 + size > |bytes| then Truncated else
        var padded := 8 + size + size % 2;
        At(bytes[..4], bytes[8..8 + size], bytes[if padded < |bytes| then padded else |bytes|..])
  }

  /** Whether the flags of a `VP8X` chunk say that a profile follows. */
  predicate SaysIcc(data: Bytes) {
    data != [] && data[0] as nat / 0x20 % 2 == 1
  }

  /** Only the first chunk, or the second after a header chunk that announces a profile, can hold one. */
  function Chunks(rest: Bytes, first: bool, icc: Bytes -> Option<string>): Answer
    decreases |rest|
  {
    match NextChunk(rest)
    case End => RanOut
    case Truncated => RanOut
    case At(kind, data, next) =>
      if kind == VP8X && first then (if SaysIcc(data) then Chunks(next, false, icc) else Decided(None))
      else if kind == ICCP then Decided(icc(data))
      else Decided(None)
  }

  function WebP(bytes: Bytes, icc: Bytes -> Option<string>): Answer {
    if |bytes| < 12 then RanOut
    else if bytes[..4] != RIFF || bytes[8..12] != WEBP then Decided(None)
    else Chunks(bytes[12..], true, icc)
  }

  method WalkWebP(bytes: Bytes, icc: Bytes -> Option<string>) returns (answer: Answer)
    ensures answer == WebP(bytes, icc)
  {
    if |bytes| < 12 {
      return RanOut;
    }
    if bytes[..4] != RIFF || bytes[8..12] != WEBP {
      return Decided(None);
    }
    hide NextChunk, SaysIcc;
    var rest, first := bytes[12..], true;
    while true
      invariant Chunks(rest, first, icc) == WebP(bytes, icc)
      decreases |rest|
    {
      match NextChunk(rest)
      case End => return RanOut;
      case Truncated => return RanOut;
      case At(kind, data, next) =>
        if kind == VP8X && first {
          if !SaysIcc(data) {
            return Decided(None);
          }
        } else if kind == ICCP {
          return Decided(icc(data));
        } else {
          return Decided(None);
        }
        first, rest := false, next;
    }
  }

  /** A chunk found in a prefix is found in every extension; what follows may only have its padding restored. */
  lemma NextChunkOnMore(bytes: Bytes, more: Bytes)
    requires NextChunk(bytes).At?
    ensures var step, longer := NextChunk(bytes), NextChunk(bytes + more);
            && longer.At? && longer.kind == step.kind && longer.body == step.body
            && (step.rest != [] ==> longer.rest == step.rest + more)
  {
    var all := bytes + more;
    assert all[4..8] == bytes[4..8] && all[..4] == bytes[..4];
    hide LeValue;
    var size := LeValue(bytes[4..8]);
    assert all[8..8 + size] == bytes[8..8 + size];
    var padded := 8 + size + size % 2;
    if padded <= |bytes| {
      assert all[padded..] == bytes[padded..] + more;
    }
  }

  lemma {:induction false} ChunksOnMore(rest: Bytes, more: Bytes, first: bool, icc: Bytes -> Option<string>)
    requires Chunks(rest, first, icc).Decided?
    ensures Chunks(rest + more, first, icc) == Chunks(rest, first, icc)
    decreases |rest|
  {
    hide NextChunk, SaysIcc;
    NextChunkOnMore(rest, more);
    var step := NextChunk(rest);
    if step.kind == VP8X && first && SaysIcc(step.body) {
      NoChunkInNothing();
      ChunksOnMore(step.rest, more, false, icc);
    }
  }

  lemma NoChunkInNothing()
    ensures NextChunk([]) == Truncated
  {
  }

  // Either kind of container.

  datatype Format = Avif | Heif | Webp

  function Profile(bytes: Bytes, format: Format, icc: Bytes -> Option<string>): Answer {
    if format.Webp? then WebP(bytes, icc) else IsoBmff(bytes, icc)
  }

  /** The answer rests on a `meta` box that states no size. */
  predicate RestsOnOpenMeta(bytes: Bytes, format: Format) {
    !format.Webp? && MetaIsOpen(bytes)
  }

  /** A prefix is enough: once the walk decides, more of the file does not change its mind, unless it rested on a `meta`
      box of no stated size. */
  lemma PrefixIsEnough(bytes: Bytes, more: Bytes, format: Format, icc: Bytes -> Option<string>)
    requires Profile(bytes, format, icc).Decided? && !RestsOnOpenMeta(bytes, format)
    ensures Profile(bytes + more, format, icc) == Profile(bytes, format, icc)
  {
    hide Meta, Chunks, ProfileOfMeta;
    if !format.Webp? {
      MetaOnMore(bytes, more);
    } else {
      var all := bytes + more;
      assert all[..4] == bytes[..4] && all[8..12] == bytes[8..12] && all[12..] == bytes[12..] + more;
      if bytes[..4] == RIFF && bytes[8..12] == WEBP {
        ChunksOnMore(bytes[12..], more, true, icc);
      }
    }
  }

  // Prefixes that end inside a `meta` of no stated size.

  /** The `meta` found in a prefix is the one found in every extension exactly when its size is stated. */
  lemma MetaStandsExactly(bytes: Bytes)
    requires Meta(bytes).Some?
    ensures (forall more :: Meta(bytes + more) == Meta(bytes)) <==> !MetaIsOpen(bytes)
  {
    hide Meta, MetaIsOpen;
    forall more: Bytes
      ensures !MetaIsOpen(bytes) ==> Meta(bytes + more) == Meta(bytes)
      ensures MetaIsOpen(bytes) ==> Meta(bytes + more) == Some(Meta(bytes).value + more)
    {
      MetaOnMore(bytes, more);
    }
    assert |Meta(bytes).value + [0]| == |Meta(bytes).value| + 1;
    assert MetaIsOpen(bytes) ==> Meta(bytes + [0]) != Meta(bytes);
  }

  /** The last of a body's boxes states no size. */
  predicate EndsOpen(body: Bytes)
    decreases |body|
  {
    var step := NextBox(body);
    step.At? && (BeValue(body[..4]) == 0 || EndsOpen(step.rest))
  }

  function Longer(boxes: seq<Child>, more: Bytes): seq<Child>
    requires boxes != []
  {
    var last := boxes[|boxes| - 1];
    boxes[..|boxes| - 1] + [last.(body := last.body + more)]
  }

  /** What more bytes do to a body that could be walked: they lengthen its last box when that states no size, and are
      walked on their own when it does. */
  lemma {:induction false} ChildrenOnMore(body: Bytes, more: Bytes)
    requires Children(body).Some?
    ensures EndsOpen(body) ==>
              Children(body).value != [] && Children(body + more) == Some(Longer(Children(body).value, more))
    ensures !EndsOpen(body) ==> (Children(body + more).Some? <==> Children(more).Some?)
    decreases |body|
  {
    hide NextBox, BeValue;
    if body == [] {
      assert body + more == more;
    } else {
      var step := NextBox(body);
      NextBoxOnMore(body, more);
      if BeValue(body[..4]) == 0 {
        OpenIsLast(body);
        NothingIsWalked();
        assert Children(body).value == [Child(step.kind, step.body)];
        assert Longer(Children(body).value, more) == [Child(step.kind, step.body + more)];
        assert NextBox(body + more) == At(step.kind, step.body + more, []);
        assert [Child(step.kind, step.body + more)] + [] == [Child(step.kind, step.body + more)];
      } else {
        ChildrenOnMore(step.rest, more);
        if EndsOpen(step.rest) {
          var all, some := Children(body).value, Children(step.rest).value;
          assert all[..|all| - 1] == [all[0]] + some[..|some| - 1];
          assert Longer(all, more) == [all[0]] + Longer(some, more);
        }
      }
    }
  }

  lemma NothingIsWalked()
    ensures Children([]) == Some([])
  {
  }

  lemma OneByteIsNoBox()
    ensures Children([0]) == None
  {
  }

  /** The box that is read for properties is the last one, and states no size. */
  predicate IprpIsOpen(meta: Bytes) {
    |meta| >= 4 && Children(meta[4..]).Some? && EndsOpen(meta[4..]) &&
    var boxes := Children(meta[4..]).value;
    boxes != [] && boxes[|boxes| - 1].kind == IPRP && Find(boxes[..|boxes| - 1], IPRP).None?
  }

  /** The first top-level `meta` ends in a box that states no size. */
  predicate MetaEndsOpen(bytes: Bytes) {
    Meta(bytes).Some? && |Meta(bytes).value| >= 4 && EndsOpen(Meta(bytes).value[4..])
  }

  lemma {:induction false} FindInFront(boxes: seq<Child>, last: Child, kind: Bytes)
    ensures Find(boxes + [last], kind)
            == if Find(boxes, kind).Some? then Find(boxes, kind) else if last.kind == kind then Some(last.body) else None
  {
    if boxes == [] {
      assert [last][1..] == [] && boxes + [last] == [last];
    } else {
      assert (boxes + [last])[1..] == boxes[1..] + [last];
      FindInFront(boxes[1..], last, kind);
    }
  }

  lemma FindInLonger(boxes: seq<Child>, more: Bytes, kind: Bytes)
    requires boxes != []
    ensures var last := boxes[|boxes| - 1];
            if last.kind == kind && Find(boxes[..|boxes| - 1], kind).None?
            then Find(boxes, kind) == Some(last.body) && Find(Longer(boxes, more), kind) == Some(last.body + more)
            else Find(Longer(boxes, more), kind) == Find(boxes, kind)
  {
    var front, last := boxes[..|boxes| - 1], boxes[|boxes| - 1];
    assert boxes == front + [last];
    FindInFront(front, last, kind);
    FindInFront(front, last.(body := last.body + more), kind);
  }

  lemma PrimaryItemOnMore(pitm: Bytes, more: Bytes)
    requires PrimaryItem(pitm).Some?
    ensures PrimaryItem(pitm + more) == PrimaryItem(pitm)
  {
    var all := pitm + more;
    if pitm[0] == 0 {
      assert all[4..6] == pitm[4..6];
    } else {
      assert all[4..8] == pitm[4..8];
    }
  }

  lemma ColrsOfBoxes(meta: Bytes)
    requires PrimaryColr(meta).Some?
    ensures |meta| >= 4 && Children(meta[4..]).Some?
    ensures var boxes := Children(meta[4..]).value;
            Find(boxes, PITM).Some? && PrimaryItem(Find(boxes, PITM).value).Some? && Find(boxes, IPRP).Some?
  {
    hide Children, Find, Collect;
  }

  lemma SameColrs(meta: Bytes, longer: Bytes)
    requires PrimaryColr(meta).Some? && |meta| >= 4 && |longer| >= 4
    requires Children(meta[4..]).Some? && Children(longer[4..]).Some?
    requires var boxes, others := Children(meta[4..]).value, Children(longer[4..]).value;
             && Find(others, IPRP) == Find(boxes, IPRP) && Find(boxes, PITM).Some? && Find(others, PITM).Some?
             && PrimaryItem(Find(others, PITM).value) == PrimaryItem(Find(boxes, PITM).value)
    ensures PrimaryColr(longer) == PrimaryColr(meta)
  {
    hide Children, Find, Collect, PrimaryItem;
  }

  lemma ColrsOnMore(meta: Bytes, more: Bytes)
    requires PrimaryColr(meta).Some? && |meta| >= 4 && Children(meta[4..]).Some? && !IprpIsOpen(meta)
    requires EndsOpen(meta[4..])
    ensures PrimaryColr(meta + more) == PrimaryColr(meta)
  {
    hide Children, Find, PrimaryColr, PrimaryItem, EndsOpen, Longer;
    assert (meta + more)[4..] == meta[4..] + more;
    ColrsOfBoxes(meta);
    ChildrenOnMore(meta[4..], more);
    var boxes := Children(meta[4..]).value;
    FindInLonger(boxes, more, PITM);
    FindInLonger(boxes, more, IPRP);
    PrimaryItemOnMore(Find(boxes, PITM).value, more);
    SameColrs(meta, meta + more);
  }

  lemma OneByteHidesColrs(meta: Bytes)
    requires |meta| >= 4 && Children(meta[4..]).Some? && !EndsOpen(meta[4..])
    ensures PrimaryColr(meta + [0]) == None
  {
    hide Find, EndsOpen;
    assert (meta + [0])[4..] == meta[4..] + [0];
    ChildrenOnMore(meta[4..], [0]);
    OneByteIsNoBox();
  }

  lemma NamedHasColrs(bytes: Bytes, icc: Bytes -> Option<string>)
    requires IsoBmff(bytes, icc).Decided? && IsoBmff(bytes, icc).profile.Some?
    ensures Meta(bytes).Some? && PrimaryColr(Meta(bytes).value).Some?
    ensures |Meta(bytes).value| >= 4 && Children(Meta(bytes).value[4..]).Some?
  {
    hide Meta, PrimaryColr, Children;
    ColrsOfBoxes(Meta(bytes).value);
  }

  lemma AnswerOnMore(bytes: Bytes, more: Bytes, icc: Bytes -> Option<string>)
    requires Meta(bytes).Some?
    ensures !MetaIsOpen(bytes) ==> IsoBmff(bytes + more, icc) == IsoBmff(bytes, icc)
    ensures MetaIsOpen(bytes) ==> IsoBmff(bytes + more, icc) == Decided(ProfileOfMeta(Meta(bytes).value + more, icc))
  {
    hide Meta, MetaIsOpen, ProfileOfMeta;
    MetaOnMore(bytes, more);
  }

  /** A prefix that names a profile names the same on every extension exactly when its `meta` states its size or ends in a
      box that states none: otherwise a single byte more hides the profile again. Left open is only a `meta` that ends in
      the very box the properties are read from, with no size stated for either. */
  lemma NameStandsExactly(bytes: Bytes, icc: Bytes -> Option<string>)
    requires IsoBmff(bytes, icc).Decided? && IsoBmff(bytes, icc).profile.Some?
    requires Meta(bytes).Some? ==> !IprpIsOpen(Meta(bytes).value)
    ensures (forall more :: IsoBmff(bytes + more, icc) == IsoBmff(bytes, icc)) <==>
              !MetaIsOpen(bytes) || MetaEndsOpen(bytes)
  {
    NamedHasColrs(bytes, icc);
    var meta := Meta(bytes).value;
    hide Meta, MetaIsOpen, PrimaryColr, ProfileFrom, EndsOpen, IprpIsOpen, Children;
    if !MetaIsOpen(bytes) || EndsOpen(meta[4..]) {
      forall more ensures IsoBmff(bytes + more, icc) == IsoBmff(bytes, icc) {
        AnswerOnMore(bytes, more, icc);
        if MetaIsOpen(bytes) {
          ColrsOnMore(meta, more);
        }
      }
    } else {
      AnswerOnMore(bytes, [0], icc);
      OneByteHidesColrs(meta);
      assert IsoBmff(bytes + [0], icc) == Decided(None);
    }
  }
}
