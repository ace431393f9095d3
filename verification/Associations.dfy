/** The table that says which properties an item has (src/image/container.rs:126-162). */
module Associations {
  import opened Wrappers
  import opened Endian

  function IdWidth(version: nat): nat {
    if version < 1 then 2 else 4
  }

  /** The bit that marks a property essential sits above the index. */
  function Top(width: nat): nat {
    if width == 2 then 0x8000 else 0x80
  }

  /** The length of `n` indices. */
  function Length(n: nat, width: nat): nat {
    if width == 2 then n + n else n
  }

  /** An entry's index, without its essential mark. */
  function Mask(entry: Bytes, width: nat): nat {
    BeValue(entry) % Top(width)
  }

  /** The indices in a run of entries `width` bytes each. */
  function Masked(entries: Bytes, width: nat): seq<nat>
    requires 1 <= width <= 2
  {
    if |entries| < width then [] else [Mask(entries[..width], width)] + Masked(entries[width..], width)
  }

  /** The indices of the first of `count` entries from `at` that is for `item`; none when the table ends early. */
  function Look(ipma: Bytes, idWidth: nat, width: nat, at: nat, count: nat, item: nat): Option<seq<nat>>
    requires 1 <= width <= 2
    decreases count
  {
    if count == 0 then Some([]) else
      var id := ReadBe(ipma, at, idWidth);
      if id.None? || at + idWidth >= |ipma| then None else
        var start := at + idWidth + 1;
        var length := Length(ipma[at + idWidth] as nat, width);
        if id.value == item then
          var entries := Slice(ipma, start, length);
          if entries.None? then None else Some(Masked(entries.value, width))
        else Look(ipma, idWidth, width, start + length, count - 1, item)
  }

  function Of(ipma: Bytes, item: nat): Option<seq<nat>> {
    var count := ReadBe(ipma, 4, 4);
    if |ipma| < 4 || count.None? then None
    else Look(ipma, IdWidth(ipma[0] as nat), if ipma[3] as nat % 2 == 1 then 2 else 1, 8, count.value, item)
  }

  /** The lookup as the code runs it. However many entries the table claims, it looks at no more of them than its length
      has room for. */
  method Associations(ipma: Bytes, item: nat) returns (indices: Option<seq<nat>>, looked: nat)
    ensures indices == Of(ipma, item)
    ensures looked <= |ipma| / 3 + 1
  {
    hide BeValue, Slice, Masked, Length;
    looked := 0;
    var count := ReadBe(ipma, 4, 4);
    if |ipma| < 4 || count.None? {
      return None, looked;
    }
    var idWidth, width := IdWidth(ipma[0] as nat), if ipma[3] as nat % 2 == 1 then 2 else 1;
    var at := 8;
    var left := count.value;
    while left > 0
      invariant 8 + 3 * looked <= at && 3 * looked <= |ipma|
      invariant Of(ipma, item) == Look(ipma, idWidth, width, at, left, item)
    {
      looked := looked + 1;
      var id := ReadBe(ipma, at, idWidth);
      if id.None? || at + idWidth >= |ipma| {
        return None, looked;
      }
      var n := ipma[at + idWidth] as nat;
      at := at + idWidth + 1;
      if id.value == item {
        var entries := Slice(ipma, at, Length(n, width));
        return if entries.None? then None else Some(Masked(entries.value, width)), looked;
      }
      at, left := at + Length(n, width), left - 1;
    }
    return Some([]), looked;
  }

  // The table as a writer lays it out (section 8.11.14 of ISO/IEC 14496-12).

  datatype Association = Association(index: nat, essential: bool)

  datatype Entry = Entry(id: nat, properties: seq<Association>)

  /** Item numbers are written in two bytes, and from version 1 on in four. */
  function NumberWidth(version: byte): nat {
    if version == 0 then 2 else 4
  }

  /** Indices stay below the bit that marks a property essential, the highest there is. */
  function EssentialBit(width: nat): nat {
    if width == 1 then 128 else 32768
  }

  lemma SameWidths(version: byte)
    ensures IdWidth(version as nat) == NumberWidth(version)
    ensures Top(1) == EssentialBit(1) && Top(2) == EssentialBit(2)
  {
  }

  function RenderProperty(p: Association, width: nat): (b: Bytes)
    ensures |b| == width
  {
    Be((if p.essential then EssentialBit(width) else 0) + p.index, width)
  }

  function RenderProperties(ps: seq<Association>, width: nat): (b: Bytes)
    requires 1 <= width <= 2
    ensures |b| == Length(|ps|, width)
  {
    if ps == [] then [] else
      RenderProperty(ps[0], width) + RenderProperties(ps[1..], width)
  }

  function RenderEntry(e: Entry, idWidth: nat, width: nat): Bytes
    requires |e.properties| < 256 && 1 <= width <= 2
  {
    Be(e.id, idWidth) + [|e.properties| as byte] + RenderProperties(e.properties, width)
  }

  predicate Fits(e: Entry, idWidth: nat, width: nat) {
    && e.id < Limit(idWidth) && |e.properties| < 256
    && forall p <- e.properties :: p.index < EssentialBit(width)
  }

  function RenderEntries(es: seq<Entry>, idWidth: nat, width: nat): Bytes
    requires 1 <= width <= 2 && forall e <- es :: Fits(e, idWidth, width)
  {
    if es == [] then [] else
      assert Fits(es[0], idWidth, width);
      RenderEntry(es[0], idWidth, width) + RenderEntries(es[1..], idWidth, width)
  }

  function Indices(ps: seq<Association>): seq<nat> {
    if ps == [] then [] else [ps[0].index] + Indices(ps[1..])
  }

  /** The indices of the first entry for `item`. */
  function IndicesFor(es: seq<Entry>, item: nat): seq<nat> {
    if es == [] then []
    else if es[0].id == item then Indices(es[0].properties)
    else IndicesFor(es[1..], item)
  }

  lemma OneMasked(p: Association, width: nat)
    requires 1 <= width <= 2 && p.index < EssentialBit(width)
    ensures var n := (if p.essential then EssentialBit(width) else 0) + p.index;
            n < Limit(width) && n % EssentialBit(width) == p.index
  {
    assert Limit(1) == 256 * Limit(0) && Limit(2) == 256 * Limit(1);
  }

  lemma MaskOne(p: Association, width: nat)
    requires 1 <= width <= 2 && p.index < EssentialBit(width)
    ensures Mask(RenderProperty(p, width), width) == p.index
  {
    OneMasked(p, width);
    SameWidths(0);
    hide Top, EssentialBit, Limit, Be, BeValue;
    BeRoundTrip((if p.essential then EssentialBit(width) else 0) + p.index, width);
  }

  /** Masking gives back the indices, essential or not. */
  lemma {:induction false} MaskedRoundTrip(ps: seq<Association>, width: nat)
    requires 1 <= width <= 2 && forall p <- ps :: p.index < EssentialBit(width)
    ensures Masked(RenderProperties(ps, width), width) == Indices(ps)
  {
    hide Mask, RenderProperty, EssentialBit;
    if ps != [] {
      MaskedRoundTrip(ps[1..], width);
      MaskOne(ps[0], width);
      var first, rest := RenderProperty(ps[0], width), RenderProperties(ps[1..], width);
      assert (first + rest)[..width] == first && (first + rest)[width..] == rest;
    }
  }

  /** An entry is found where it was put. */
  lemma EntryReadBack(front: Bytes, e: Entry, idWidth: nat, width: nat, back: Bytes)
    requires 1 <= width <= 2 && Fits(e, idWidth, width)
    ensures var b := front + RenderEntry(e, idWidth, width) + back; var at := |front| + idWidth;
            var end := at + 1 + Length(|e.properties|, width);
            && ReadBe(b, |front|, idWidth) == Some(e.id)
            && at < end <= |b| && b[at] as nat == |e.properties|
            && |front + RenderEntry(e, idWidth, width)| == end
            && b[at + 1..end] == RenderProperties(e.properties, width)
  {
    var id, count, properties := Be(e.id, idWidth), [|e.properties| as byte], RenderProperties(e.properties, width);
    var b := front + RenderEntry(e, idWidth, width) + back;
    var head := front + id + count;
    assert b == front + id + (count + (properties + back)) by {
      Regroup(front + id, count, properties + back);
    }
    ReadBack(front, e.id, idWidth, count + (properties + back));
    Middle(front + id, count, properties + back);
    assert b == head + (properties + back);
    Middle(head, properties, back);
    hide RenderProperties, Be, BeValue;
    assert b[|front + id|] == b[|front + id|..|front + id| + 1][0];
  }

  lemma LookAtOne(front: Bytes, e: Entry, idWidth: nat, width: nat, back: Bytes, count: nat, item: nat)
    requires 1 <= width <= 2 && Fits(e, idWidth, width) && count > 0
    ensures var next := front + RenderEntry(e, idWidth, width);
            Look(next + back, idWidth, width, |front|, count, item)
            == if e.id == item then Some(Indices(e.properties))
               else Look(next + back, idWidth, width, |next|, count - 1, item)
  {
    EntryReadBack(front, e, idWidth, width, back);
    hide ReadBe, Fits, RenderEntry, RenderProperties, Masked;
    if e.id == item {
      assert Fits(e, idWidth, width);
      MaskedEntry(e, idWidth, width);
    }
  }

  lemma MaskedEntry(e: Entry, idWidth: nat, width: nat)
    requires 1 <= width <= 2 && Fits(e, idWidth, width)
    ensures Masked(RenderProperties(e.properties, width), width) == Indices(e.properties)
  {
    MaskedRoundTrip(e.properties, width);
  }

  lemma Regroup(x: Bytes, y: Bytes, z: Bytes)
    ensures x + (y + z) == x + y + z
  {
  }

  lemma RenderedApart(front: Bytes, es: seq<Entry>, idWidth: nat, width: nat)
    requires 1 <= width <= 2 && es != [] && forall e <- es :: Fits(e, idWidth, width)
    ensures Fits(es[0], idWidth, width) && forall e <- es[1..] :: Fits(e, idWidth, width)
    ensures front + RenderEntries(es, idWidth, width)
            == front + RenderEntry(es[0], idWidth, width) + RenderEntries(es[1..], idWidth, width)
  {
    assert Fits(es[0], idWidth, width);
    Regroup(front, RenderEntry(es[0], idWidth, width), RenderEntries(es[1..], idWidth, width));
  }

  lemma {:induction false} LookAtRendered(front: Bytes, es: seq<Entry>, idWidth: nat, width: nat, item: nat)
    requires 1 <= width <= 2 && forall e <- es :: Fits(e, idWidth, width)
    ensures Look(front + RenderEntries(es, idWidth, width), idWidth, width, |front|, |es|, item)
            == Some(IndicesFor(es, item))
    decreases |es|
  {
    hide RenderEntry, RenderEntries, Look;
    if es == [] {
      LookAtNone(front + RenderEntries(es, idWidth, width), idWidth, width, |front|, item);
    } else {
      RenderedApart(front, es, idWidth, width);
      LookAtOne(front, es[0], idWidth, width, RenderEntries(es[1..], idWidth, width), |es|, item);
      if es[0].id != item {
        LookAtRendered(front + RenderEntry(es[0], idWidth, width), es[1..], idWidth, width, item);
      }
    }
  }

  lemma LookAtNone(ipma: Bytes, idWidth: nat, width: nat, at: nat, item: nat)
    requires 1 <= width <= 2
    ensures Look(ipma, idWidth, width, at, 0, item) == Some([])
  {
  }

  /** The whole box: a version, three bytes of flags of which the lowest bit says how wide an index is, and the table. */
  function Render(es: seq<Entry>, version: byte, wide: bool): Bytes
    requires forall e <- es :: Fits(e, NumberWidth(version), if wide then 2 else 1)
  {
    [version, 0, 0, if wide then 1 else 0] + Be(|es|, 4)
    + RenderEntries(es, NumberWidth(version), if wide then 2 else 1)
  }

  lemma PrefixReadBack(version: byte, flag: byte, count: nat, entries: Bytes)
    requires count < Limit(4)
    ensures var b := [version, 0, 0, flag] + Be(count, 4) + entries;
            |b| >= 8 && b[0] == version && b[3] == flag && ReadBe(b, 4, 4) == Some(count)
  {
    hide Be, Limit, BeValue, ReadBe;
    ReadBack([version, 0, 0, flag], count, 4, entries);
  }

  /** Looking an item up in a rendered table gives its indices, the essential marks masked off. */
  lemma RoundTrip(es: seq<Entry>, version: byte, wide: bool, item: nat)
    requires forall e <- es :: Fits(e, NumberWidth(version), if wide then 2 else 1)
    requires |es| < Limit(4)
    ensures Of(Render(es, version, wide), item) == Some(IndicesFor(es, item))
  {
    var width, flag: byte := if wide then 2 else 1, if wide then 1 else 0;
    SameWidths(version);
    hide Fits, RenderEntries, Look, Be, BeValue, Limit, ReadBe, IdWidth, NumberWidth;
    PrefixReadBack(version, flag, |es|, RenderEntries(es, NumberWidth(version), width));
    LookAtRendered([version, 0, 0, flag] + Be(|es|, 4), es, NumberWidth(version), width, item);
  }
}
