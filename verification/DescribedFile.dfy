/** Files laid out the way the standards say, read back by the walker from end to end (src/image/container.rs:70-124). */
module DescribedFile {
  import opened Wrappers
  import opened Endian
  import opened Container
  import opened ColorProfile
  import Associations

  /** The primary item's number, the properties of all items, and which item has which. */
  datatype Item = Item(primary: nat, pitmVersion: byte, properties: seq<Laid>, entries: seq<Associations.Entry>,
                       ipmaVersion: byte, wide: bool)

  function Pitm(item: Item): Bytes {
    [item.pitmVersion, 0, 0, 0] + Be(item.primary, if item.pitmVersion == 0 then 2 else 4)
  }

  ghost predicate Fits(item: Item) {
    && item.primary < Limit(if item.pitmVersion == 0 then 2 else 4)
    && CanBeLaid(item.properties)
    && |item.entries| < Limit(4)
    && forall e <- item.entries :: Associations.Fits(e, Associations.NumberWidth(item.ipmaVersion),
                                                     if item.wide then 2 else 1)
  }

  function Ipma(item: Item): Bytes
    requires Fits(item)
  {
    Associations.Render(item.entries, item.ipmaVersion, item.wide)
  }

  function Iprp(item: Item): seq<Laid>
    requires Fits(item)
  {
    [Laid(Child(IPCO, Lay(item.properties)), Narrow), Laid(Child(IPMA, Ipma(item)), Narrow)]
  }

  /** The boxes of `meta`, after `others` such as `hdlr`. */
  function MetaBoxes(others: seq<Laid>, item: Item): seq<Laid>
    requires Fits(item)
  {
    others + [Laid(Child(PITM, Pitm(item)), Narrow), Laid(Child(IPRP, Lay(Iprp(item))), Narrow)]
  }

  predicate HasNone(ls: seq<Laid>, kind: Bytes) {
    forall l <- ls :: l.box.kind != kind
  }

  lemma {:induction false} FindSkips(others: seq<Laid>, rest: seq<Laid>, kind: Bytes)
    requires HasNone(others, kind)
    ensures Find(Boxes(others + rest), kind) == Find(Boxes(rest), kind)
  {
    if others == [] {
      assert others + rest == rest;
    } else {
      assert (others + rest)[1..] == others[1..] + rest;
      FindSkips(others[1..], rest, kind);
    }
  }

  lemma FindInPair(first: Laid, second: Laid)
    ensures Boxes([first, second]) == [first.box, second.box]
    ensures Find([first.box, second.box], first.box.kind) == Some(first.box.body)
    ensures first.box.kind != second.box.kind ==>
              Find([first.box, second.box], second.box.kind) == Some(second.box.body)
  {
    assert [first, second][1..] == [second] && [second][1..] == [];
    assert Boxes([second]) == [second.box] + Boxes([]);
    assert [first.box, second.box][1..] == [second.box];
  }

  lemma PrimaryReadBack(item: Item)
    requires Fits(item)
    ensures PrimaryItem(Pitm(item)) == Some(item.primary)
  {
    var width := if item.pitmVersion == 0 then 2 else 4;
    var front: Bytes := [item.pitmVersion, 0, 0, 0];
    ReadBack(front, item.primary, width, []);
    assert front + Be(item.primary, width) + [] == Pitm(item);
  }

  lemma CollectReadBack(item: Item)
    requires Fits(item)
    ensures Collect(Boxes(Iprp(item)), Boxes(item.properties), item.primary)
            == Some(Pick(Boxes(item.properties), Associations.IndicesFor(item.entries, item.primary)))
  {
    hide Associations.Render, Associations.Of, Lay, Pick;
    Associations.RoundTrip(item.entries, item.ipmaVersion, item.wide, item.primary);
    var iprp := Iprp(item);
    FindInPair(iprp[0], iprp[1]);
    var boxes := Boxes(iprp);
    assert boxes[1..] == [iprp[1].box] && boxes[1..][1..] == [];
    assert Collect([], Boxes(item.properties), item.primary) == Some([]);
    var picked := Pick(Boxes(item.properties), Associations.IndicesFor(item.entries, item.primary));
    assert picked + [] == picked;
    assert Collect(boxes[1..], Boxes(item.properties), item.primary) == Some(picked);
  }

  /** The walker finds the primary item's `colr` properties, in the order they are associated in, and nothing else. */
  lemma PrimaryColrReadBack(flags: Bytes, others: seq<Laid>, item: Item)
    requires |flags| == 4 && Fits(item) && HasNone(others, PITM) && HasNone(others, IPRP)
    requires CanBeLaid(MetaBoxes(others, item)) && CanBeLaid(Iprp(item))
    ensures PrimaryColr(flags + Lay(MetaBoxes(others, item)))
            == Some(Pick(Boxes(item.properties), Associations.IndicesFor(item.entries, item.primary)))
  {
    var boxes := MetaBoxes(others, item);
    var pair := boxes[|others|..];
    assert boxes == others + pair && pair == [pair[0], pair[1]];
    FindSkips(others, pair, PITM);
    FindSkips(others, pair, IPRP);
    FindInPair(pair[0], pair[1]);
    FindInPair(Iprp(item)[0], Iprp(item)[1]);
    hide Find, Collect, Children, Lay, Pick, Pitm;
    ChildrenOfLaid(boxes);
    ChildrenOfLaid(Iprp(item));
    ChildrenOfLaid(item.properties);
    PrimaryReadBack(item);
    CollectReadBack(item);
    assert (flags + Lay(boxes))[4..] == Lay(boxes);
  }

  lemma {:induction false} MetaReadBack(before: seq<Laid>, meta: Laid, after: Bytes)
    requires HasNone(before, META) && (forall l <- before :: Container.Fits(l) && !l.form.Open?)
    requires meta.box.kind == META && Container.Fits(meta) && (meta.form.Open? ==> after == [])
    ensures Meta(Lay(before) + (Header(meta) + (meta.box.body + after))) == Some(meta.box.body)
    decreases |before|
  {
    hide Header, NextBox, Container.Fits;
    var rest := Header(meta) + (meta.box.body + after);
    if before == [] {
      NextLaid(meta, after);
      assert Lay([]) + rest == rest;
    } else {
      var l, more := before[0], Lay(before[1..]) + rest;
      assert Lay(before) + rest == Header(l) + (l.box.body + more);
      NextLaid(l, more);
      MetaReadBack(before[1..], meta, after);
    }
  }

  /** The profile of a whole file that is laid out the way the standards say, whatever comes before `meta` and after it,
      is that of its primary item's color properties. */
  lemma ProfileReadBack(before: seq<Laid>, meta: Laid, after: Bytes, flags: Bytes, others: seq<Laid>, item: Item,
                        icc: Bytes -> Option<string>)
    requires HasNone(before, META) && (forall l <- before :: Container.Fits(l) && !l.form.Open?)
    requires meta.box.kind == META && Container.Fits(meta) && (meta.form.Open? ==> after == [])
    requires |flags| == 4 && Fits(item) && HasNone(others, PITM) && HasNone(others, IPRP)
    requires CanBeLaid(MetaBoxes(others, item)) && CanBeLaid(Iprp(item))
    requires meta.box.body == flags + Lay(MetaBoxes(others, item))
    ensures var indices := Associations.IndicesFor(item.entries, item.primary);
            IsoBmff(Lay(before) + (Header(meta) + (meta.box.body + after)), icc)
            == Decided(ProfileFrom(Pick(Boxes(item.properties), indices), icc))
  {
    hide Meta, PrimaryColr, ProfileFrom, Header, Lay, Container.Fits, CanBeLaid, Fits;
    MetaReadBack(before, meta, after);
    PrimaryColrReadBack(flags, others, item);
  }

  // A `meta` box of no stated size.

  lemma Limits()
    ensures Limit(2) == 0x1_0000 && Limit(4) == 0x1_0000_0000
  {
    assert Limit(1) == 256 && Limit(2) == 256 * Limit(1) && Limit(3) == 256 * Limit(2) && Limit(4) == 256 * Limit(3);
  }

  /** One item with one embedded profile. */
  function Plain(): Item {
    Item(1, 0, [Laid(Child(COLR, PROF), Narrow)],
         [Associations.Entry(1, [Associations.Association(1, false)])], 0, false)
  }

  lemma PlainFits()
    ensures Fits(Plain()) && CanBeLaid(Iprp(Plain())) && CanBeLaid(MetaBoxes([], Plain()))
  {
    Limits();
    var item := Plain();
    assert Associations.Fits(item.entries[0], 2, 1);
    PlainLengths(item);
  }

  lemma PlainLengths(item: Item)
    requires item == Plain() && Fits(item)
    ensures |Lay(item.properties)| == 12 && |Ipma(item)| == 12 && |Pitm(item)| == 6
    ensures |Lay(Iprp(item))| == 40
  {
    assert item.properties[1..] == [] && Lay([]) == [];
    assert |Header(item.properties[0])| == 8;
    assert item.entries[1..] == [] && item.entries[0].properties[1..] == [];
    LayTwo(Iprp(item)[0], Iprp(item)[1]);
  }

  lemma LayTwo(first: Laid, second: Laid)
    requires first.form.Narrow? && second.form.Narrow? && |first.box.kind| == 4 && |second.box.kind| == 4
    ensures |Lay([first, second])| == 16 + |first.box.body| + |second.box.body|
  {
    assert [first, second][1..] == [second] && [second][1..] == [] && Lay([]) == [];
    assert |Lay([second])| == 8 + |second.box.body|;
  }

  function Named(body: Bytes): Option<string> { Some("named") }

  function OpenMeta(body: Bytes): Laid {
    Laid(Child(META, body), Open)
  }

  lemma OpenFits(body: Bytes)
    ensures Container.Fits(OpenMeta(body)) && OpenMeta(body).box.kind == META && OpenMeta(body).form.Open?
  {
  }

  lemma AloneIsHeader(body: Bytes)
    ensures Lay([]) + (Header(OpenMeta(body)) + (body + [])) == Header(OpenMeta([])) + body
  {
    LayNone();
    SameHeader(OpenMeta(body), OpenMeta([]));
    hide Header, Lay;
    assert body + [] == body;
  }

  lemma NothingInEmptyMeta(bytes: Bytes)
    requires bytes == Header(OpenMeta([]))
    ensures IsoBmff(bytes, Named) == Decided(None)
  {
    hide Header, Lay, Meta, PrimaryColr, Container.Fits;
    OpenFits([]);
    MetaReadBack([], OpenMeta([]), []);
    PrimaryColrNone();
    AloneIsHeader([]);
    assert bytes + [] == bytes;
  }

  /** A prefix that ends inside a `meta` box of no stated size is taken to declare nothing. */
  lemma OpenMetaMisleads() returns (bytes: Bytes, more: Bytes)
    ensures IsoBmff(bytes, Named) == Decided(None) && IsoBmff(bytes + more, Named) == Decided(Some("named"))
  {
    bytes := Header(OpenMeta([]));
    NothingInEmptyMeta(bytes);
    var item, flags: Bytes := Plain(), [0, 0, 0, 0];
    PlainFits();
    PlainProfile(item);
    more := flags + Lay(MetaBoxes([], item));
    OpenFits(more);
    AloneIsHeader(more);
    hide Header, Lay, Meta, Fits, CanBeLaid, PrimaryColr, ProfileFrom, Pick, IsoBmff, Container.Fits, MetaBoxes, Plain,
         Boxes, Iprp, Associations.IndicesFor;
    ProfileReadBack([], OpenMeta(more), [], flags, [], item, Named);
  }

  lemma LayNone()
    ensures Lay([]) == []
  {
  }

  lemma SameHeader(first: Laid, second: Laid)
    requires first.form.Open? && second.form.Open? && first.box.kind == second.box.kind
    ensures Header(first) == Header(second)
  {
  }

  lemma PrimaryColrNone()
    ensures PrimaryColr([]) == None
  {
  }

  lemma PlainProfile(item: Item)
    requires item == Plain()
    ensures ProfileFrom(Pick(Boxes(item.properties), Associations.IndicesFor(item.entries, item.primary)), Named)
            == Some("named")
  {
    var properties := Boxes(item.properties);
    assert item.properties[1..] == [] && Boxes([]) == [];
    assert properties == [item.properties[0].box] + Boxes([]) == [Child(COLR, PROF)];
    var indices := Associations.IndicesFor(item.entries, item.primary);
    assert item.entries[0].properties[1..] == [] && indices == [1];
    assert indices[1..] == [];
    assert Pick(properties, []) == [];
    assert Pick(properties, indices) == [PROF];
    assert PROF[..4] == PROF;
  }

  // What the answers mean.

  /** The four characters a type is written as. */
  function Code(s: string): Bytes
    requires forall c <- s :: c < '\U{80}'
  {
    seq(|s|, i requires 0 <= i < |s| => assert s[i] in s; s[i] as byte)
  }

  lemma CodesSpell()
    ensures META == Code("meta") && PITM == Code("pitm") && IPRP == Code("iprp") && IPCO == Code("ipco")
    ensures IPMA == Code("ipma") && COLR == Code("colr")
    ensures PROF == Code("prof") && RICC == Code("rICC") && NCLX == Code("nclx")
    ensures RIFF == Code("RIFF") && WEBP == Code("WEBP") && VP8X == Code("VP8X") && ICCP == Code("ICCP")
  {
  }

  lemma PickStep(properties: seq<Child>, index: nat, rest: seq<nat>)
    ensures Pick(properties, [index] + rest)
            == (if 1 <= index <= |properties| && properties[index - 1].kind == COLR then [properties[index - 1].body] else [])
               + Pick(properties, rest)
  {
    assert ([index] + rest)[1..] == rest;
  }

  lemma PickNone(properties: seq<Child>)
    ensures Pick(properties, []) == []
  {
  }

  lemma {:induction false} PickConcat(properties: seq<Child>, first: seq<nat>, second: seq<nat>)
    ensures Pick(properties, first + second) == Pick(properties, first) + Pick(properties, second)
  {
    hide Pick;
    if first == [] {
      PickNone(properties);
      assert first + second == second;
    } else {
      var index, rest := first[0], first[1..];
      PickStep(properties, index, rest);
      PickStep(properties, index, rest + second);
      PickConcat(properties, rest, second);
      assert first == [index] + rest && first + second == [index] + (rest + second);
    }
  }

  /** Indices count from one; those of other properties, and those of none, pick nothing. */
  lemma PickOne(properties: seq<Child>, index: nat)
    ensures Pick(properties, [index])
            == if index == 0 || index > |properties| || properties[index - 1].kind != COLR then []
               else [properties[index - 1].body]
  {
    hide Pick;
    PickNone(properties);
    PickStep(properties, index, []);
    assert [index] + [] == [index];
  }

  /** The tables are taken in turn, and one that cannot be read spoils them all; other boxes do not matter. */
  lemma {:induction false} CollectConcat(first: seq<Child>, second: seq<Child>, properties: seq<Child>, item: nat)
    ensures var a, b := Collect(first, properties, item), Collect(second, properties, item);
            Collect(first + second, properties, item)
            == if a.None? || b.None? then None else Some(a.value + b.value)
  {
    hide Associations.Of, Pick;
    if first == [] {
      assert first + second == second;
      var b := Collect(second, properties, item);
      assert b.Some? ==> [] + b.value == b.value;
    } else {
      assert (first + second)[1..] == first[1..] + second;
      CollectConcat(first[1..], second, properties, item);
      var more, b := Collect(first[1..], properties, item), Collect(second, properties, item);
      if first[0].kind == IPMA && Associations.Of(first[0].body, item).Some? && more.Some? && b.Some? {
        var picked := Pick(properties, Associations.Of(first[0].body, item).value);
        assert picked + (more.value + b.value) == picked + more.value + b.value;
      }
    }
  }

  lemma CollectOne(box: Child, properties: seq<Child>, item: nat)
    ensures Collect([box], properties, item) ==
            if box.kind != IPMA then Some([])
            else if Associations.Of(box.body, item).None? then None
            else Some(Pick(properties, Associations.Of(box.body, item).value))
  {
    hide Associations.Of, Pick;
    var one := [box];
    assert one[0] == box && one[1..] == [];
    CollectNone(properties, item);
    if box.kind == IPMA && Associations.Of(box.body, item).Some? {
      var picked := Pick(properties, Associations.Of(box.body, item).value);
      assert picked + [] == picked;
    }
  }

  lemma CollectNone(properties: seq<Child>, item: nat)
    ensures Collect([], properties, item) == Some([])
  {
  }

  /** A `colr` body with an embedded profile, or with one of the restricted kind. */
  predicate IsEmbedded(colr: Bytes) {
    |colr| >= 4 && colr[..4] in {Code("prof"), Code("rICC")}
  }

  lemma {:induction false} FindsFirst(bodies: seq<Bytes>, prefixes: set<Bytes>, n: nat)
    requires n <= |bodies|
    requires forall i :: 0 <= i < n ==> !(|bodies[i]| >= 4 && bodies[i][..4] in prefixes)
    requires n < |bodies| ==> |bodies[n]| >= 4 && bodies[n][..4] in prefixes
    ensures FindPrefixed(bodies, prefixes) == if n < |bodies| then Some(bodies[n]) else None
  {
    if n > 0 {
      FindsFirst(bodies[1..], prefixes, n - 1);
    }
  }

  /** The first embedded profile is described, whatever coded descriptions come before it or after it. */
  lemma EmbeddedWins(colrs: seq<Bytes>, n: nat, icc: Bytes -> Option<string>)
    requires n < |colrs| && IsEmbedded(colrs[n]) && forall i :: 0 <= i < n ==> !IsEmbedded(colrs[i])
    ensures ProfileFrom(colrs, icc) == icc(colrs[n][4..])
  {
    CodesSpell();
    hide Code;
    FindsFirst(colrs, {PROF, RICC}, n);
  }

  /** Without one, the first coded description is named: its primaries and then its transfer characteristics, two bytes
      each. */
  lemma CodedIsNamed(colrs: seq<Bytes>, n: nat, primaries: nat, transfer: nat, more: Bytes, icc: Bytes -> Option<string>)
    requires forall colr <- colrs :: !IsEmbedded(colr)
    requires n < |colrs| && colrs[n] == Code("nclx") + (Be(primaries, 2) + (Be(transfer, 2) + more))
    requires primaries < 0x1_0000 && transfer < 0x1_0000
    requires forall i :: 0 <= i < n ==> !(|colrs[i]| >= 4 && colrs[i][..4] == Code("nclx"))
    ensures ProfileFrom(colrs, icc) == NclxName(primaries, transfer)
  {
    CodesSpell();
    Limits();
    hide Code;
    var colr := colrs[n];
    assert |NCLX| == 4;
    assert forall i :: 0 <= i < |colrs| ==> !IsEmbedded(colrs[i]);
    FindsFirst(colrs, {PROF, RICC}, |colrs|);
    assert colr[..4] == NCLX;
    FindsFirst(colrs, {NCLX}, n);
    BeRoundTrip(primaries, 2);
    BeRoundTrip(transfer, 2);
    assert colr[4..6] == Be(primaries, 2) && colr[6..8] == Be(transfer, 2);
    hide Be, BeValue, NclxName;
  }

  /** Without either, or with a coded description too short to read, there is no name. */
  lemma NothingIsNamed(colrs: seq<Bytes>, icc: Bytes -> Option<string>)
    requires forall colr <- colrs :: !IsEmbedded(colr) && !(|colr| >= 8 && colr[..4] == Code("nclx"))
    ensures ProfileFrom(colrs, icc) == None
  {
    CodesSpell();
    hide Code;
    assert forall i :: 0 <= i < |colrs| ==> !IsEmbedded(colrs[i]);
    FindsFirst(colrs, {PROF, RICC}, |colrs|);
    FoundIsThere(colrs, {NCLX});
  }

  lemma {:induction false} FoundIsThere(bodies: seq<Bytes>, prefixes: set<Bytes>)
    ensures var found := FindPrefixed(bodies, prefixes);
            found.Some? ==> found.value in bodies && |found.value| >= 4 && found.value[..4] in prefixes
  {
    if bodies != [] {
      FoundIsThere(bodies[1..], prefixes);
    }
  }

  // Code points of ITU-T H.273.
  const BT709: nat := 1
  const BT2020: nat := 9
  const P3_D65: nat := 12
  const SRGB_CURVE: nat := 13
  const PQ_CURVE: nat := 16
  const HLG_CURVE: nat := 18

  /** The curves of BT.709, BT.601, and BT.2020 at ten and at twelve bits, which are one function, and that of sRGB. */
  predicate IsDisplayCurve(transfer: nat) {
    transfer == 1 || transfer == 6 || transfer == 14 || transfer == 15 || transfer == SRGB_CURVE
  }

  lemma NamesExactly(primaries: nat, transfer: nat)
    ensures NclxName(primaries, transfer) == Some("sRGB") <==> primaries == BT709 && transfer == SRGB_CURVE
    ensures NclxName(primaries, transfer) == Some("Display P3") <==> primaries == P3_D65 && transfer == SRGB_CURVE
    ensures NclxName(primaries, transfer) == Some("Rec. 2020") <==> primaries == BT2020 && IsDisplayCurve(transfer)
    ensures NclxName(primaries, transfer) == Some("Rec. 2100 PQ") <==> primaries == BT2020 && transfer == PQ_CURVE
    ensures NclxName(primaries, transfer) == Some("Rec. 2100 HLG") <==> primaries == BT2020 && transfer == HLG_CURVE
    ensures NclxName(primaries, transfer) in {None, Some("sRGB"), Some("Display P3"), Some("Rec. 2020"),
                                              Some("Rec. 2100 PQ"), Some("Rec. 2100 HLG")}
  {
  }
}
