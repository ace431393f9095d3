/** Numbers as bytes, the most significant first, and the least significant first. */
module Endian {
  import opened Wrappers

  type Bytes = seq<byte>

  function BeValue(b: Bytes): nat {
    if b == [] then 0 else 256 * BeValue(b[..|b| - 1]) + b[|b| - 1] as nat
  }

  function LeValue(b: Bytes): nat {
    if b == [] then 0 else b[0] as nat + 256 * LeValue(b[1..])
  }

  /** How many numbers fit in `width` bytes. */
  function Limit(width: nat): nat {
    if width == 0 then 1 else 256 * Limit(width - 1)
  }

  function Be(n: nat, width: nat): (b: Bytes)
    ensures |b| == width
  {
    if width == 0 then [] else Be(n / 256, width - 1) + [(n % 256) as byte]
  }

  lemma {:induction false} BeRoundTrip(n: nat, width: nat)
    requires n < Limit(width)
    ensures BeValue(Be(n, width)) == n
  {
    if width > 0 {
      BeRoundTrip(n / 256, width - 1);
      assert Be(n, width)[..width - 1] == Be(n / 256, width - 1);
    }
  }

  /** `width` bytes from `at`, if they are there. */
  function Slice(b: Bytes, at: nat, width: nat): Option<Bytes> {
    if at + width <= |b| then Some(b[at..at + width]) else None
  }

  function ReadBe(b: Bytes, at: nat, width: nat): Option<nat> {
    if at + width <= |b| then Some(BeValue(b[at..at + width])) else None
  }

  lemma Middle(front: Bytes, middle: Bytes, back: Bytes)
    ensures var b := front + (middle + back);
            b[|front|..|front| + |middle|] == middle && b[|front| + |middle|..] == back
  {
    var b := front + (middle + back);
    assert b[|front|..] == middle + back;
    assert b[|front|..|front| + |middle|] == b[|front|..][..|middle|];
    assert b[|front| + |middle|..] == b[|front|..][|middle|..];
  }

  lemma ReadBack(front: Bytes, n: nat, width: nat, back: Bytes)
    requires n < Limit(width)
    ensures ReadBe(front + Be(n, width) + back, |front|, width) == Some(n)
  {
    BeRoundTrip(n, width);
    var b := front + Be(n, width) + back;
    assert b[|front|..|front| + width] == Be(n, width);
  }
}

/** The boxes of ISO-BMFF files and the chunks of RIFF files (src/image/container.rs). */
module Container {
  import opened Wrappers
  import opened Endian

  /** Where a walk is: past everything, at a box, or out of bytes. */
  datatype Step = End | At(kind: Bytes, body: Bytes, rest: Bytes) | Truncated

  /** The size a box's header states, and how long that header is; a stated size of 0 runs to the end. */
  function Extent(bytes: Bytes): Option<(nat, nat)>
    requires |bytes| >= 8
  {
    var size := BeValue(bytes[..4]);
    if size == 0 then Some((8, |bytes|))
    else if size == 1 then (if |bytes| < 16 then None else Some((16, BeValue(bytes[8..16]))))
    else Some((8, size))
  }

  /** Splits the box at the front off; an accepted one consumes at least its header. */
  function NextBox(bytes: Bytes): (step: Step)
    ensures step.At? ==> |step.rest| + |step.body| + 8 <= |bytes| && |step.kind| == 4
    ensures step.End? <==> bytes == []
  {
    if bytes == [] then End
    else if |bytes| < 8 then Truncated
    else match Extent(bytes)
         case None => Truncated
         case Some((header, size)) =>
           if size < header || size > |bytes| then Truncated
           else At(bytes[4..8], bytes[header..size], bytes[size..])
  }

  datatype Child = Child(kind: Bytes, body: Bytes)

  /** The boxes that make up a body, end to end; none when some of its bytes are no box. */
  function Children(body: Bytes): Option<seq<Child>>
    decreases |body|
  {
    match NextBox(body)
    case End => Some([])
    case Truncated => None
    case At(kind, child, rest) =>
      var more := Children(rest);
      if more.None? then None else Some([Child(kind, child)] + more.value)
  }

  /** What was walked so far, followed by what the rest comes to. */
  function Joined(walked: seq<Child>, rest: Bytes): Option<seq<Child>> {
    var more := Children(rest);
    if more.None? then None else Some(walked + more.value)
  }

  lemma JoinedNext(walked: seq<Child>, rest: Bytes)
    requires NextBox(rest).At?
    ensures var step := NextBox(rest);
            Joined(walked, rest) == Joined(walked + [Child(step.kind, step.body)], step.rest)
  {
    var step := NextBox(rest);
    var more := Children(step.rest);
    if more.Some? {
      assert walked + ([Child(step.kind, step.body)] + more.value) == walked + [Child(step.kind, step.body)] + more.value;
    }
  }

  method WalkChildren(body: Bytes) returns (boxes: Option<seq<Child>>)
    ensures boxes == Children(body)
  {
    hide NextBox;
    var rest, walked := body, [];
    assert Children(body).Some? ==> [] + Children(body).value == Children(body).value;
    while true
      invariant Children(body) == Joined(walked, rest)
      decreases |rest|
    {
      match NextBox(rest)
      case End =>
        assert walked + [] == walked;
        return Some(walked);
      case Truncated => return None;
      case At(kind, child, next) =>
        JoinedNext(walked, rest);
        walked := walked + [Child(kind, child)];
        rest := next;
    }
  }

  // Boxes as a writer lays them out (section 4.2 of ISO/IEC 14496-12).

  datatype Form = Narrow | Wide | Open

  datatype Laid = Laid(box: Child, form: Form)

  function Header(l: Laid): Bytes {
    match l.form
    case Narrow => Be(8 + |l.box.body|, 4) + l.box.kind
    case Wide => Be(1, 4) + l.box.kind + Be(16 + |l.box.body|, 8)
    case Open => Be(0, 4) + l.box.kind
  }

  function Lay(ls: seq<Laid>): Bytes {
    if ls == [] then [] else Header(ls[0]) + ls[0].box.body + Lay(ls[1..])
  }

  /** A four-byte type, and a size that fits where it is stated. */
  predicate Fits(l: Laid) {
    && |l.box.kind| == 4
    && match l.form
       case Narrow => 8 + |l.box.body| < Limit(4)
       case Wide => 16 + |l.box.body| < Limit(8)
       case Open => true
  }

  /** Only the last box may run to the end. */
  predicate CanBeLaid(ls: seq<Laid>) {
    forall i :: 0 <= i < |ls| ==> Fits(ls[i]) && (ls[i].form.Open? ==> i == |ls| - 1)
  }

  function Boxes(ls: seq<Laid>): seq<Child> {
    if ls == [] then [] else [ls[0].box] + Boxes(ls[1..])
  }

  lemma SizeReadBack(n: nat, width: nat, back: Bytes)
    requires n < Limit(width)
    ensures var b := Be(n, width) + back; |b| >= width && BeValue(b[..width]) == n && b[width..] == back
  {
    BeRoundTrip(n, width);
    assert (Be(n, width) + back)[..width] == Be(n, width);
  }

  lemma ShortHeader(size: nat, kind: Bytes, tail: Bytes)
    requires |kind| == 4 && size < Limit(4)
    ensures var b := Be(size, 4) + kind + tail;
            |b| == 8 + |tail| && b[4..8] == kind && BeValue(b[..4]) == size && b[8..] == tail
  {
    var b := Be(size, 4) + kind + tail;
    assert b == Be(size, 4) + (kind + tail);
    SizeReadBack(size, 4, kind + tail);
    assert (kind + tail)[..4] == kind;
  }

  lemma LongHeader(size: nat, kind: Bytes, tail: Bytes)
    requires |kind| == 4 && size < Limit(8)
    ensures var b := Be(1, 4) + kind + Be(size, 8) + tail;
            && |b| == 16 + |tail| && b[4..8] == kind && BeValue(b[..4]) == 1 && BeValue(b[8..16]) == size
            && b[16..] == tail
  {
    var b := Be(1, 4) + kind + Be(size, 8) + tail;
    assert b == Be(1, 4) + kind + (Be(size, 8) + tail);
    ShortHeader(1, kind, Be(size, 8) + tail);
    SizeReadBack(size, 8, tail);
    assert b[8..16] == b[8..][..8] && b[16..] == b[8..][8..];
  }

  /** A header states its own extent, and the box's type and contents are where it says. */
  lemma HeaderReadBack(l: Laid, rest: Bytes)
    requires Fits(l) && (l.form.Open? ==> rest == [])
    ensures var b := Header(l) + (l.box.body + rest);
            && |b| >= 8 && b[4..8] == l.box.kind && |Header(l)| == (if l.form.Wide? then 16 else 8)
            && Extent(b) == Some((|Header(l)|, |Header(l)| + |l.box.body|))
  {
    hide Be, BeValue;
    var tail := l.box.body + rest;
    match l.form
    case Narrow => ShortHeader(8 + |l.box.body|, l.box.kind, tail);
    case Open => ShortHeader(0, l.box.kind, tail);
    case Wide => LongHeader(16 + |l.box.body|, l.box.kind, tail);
  }

  lemma NextLaid(l: Laid, rest: Bytes)
    requires Fits(l) && (l.form.Open? ==> rest == [])
    ensures NextBox(Header(l) + (l.box.body + rest)) == At(l.box.kind, l.box.body, rest)
  {
    HeaderReadBack(l, rest);
    hide Extent, Header, Fits;
    Middle(Header(l), l.box.body, rest);
  }

  lemma LaidApart(ls: seq<Laid>)
    requires CanBeLaid(ls) && ls != []
    ensures Fits(ls[0]) && (ls[0].form.Open? ==> ls[1..] == []) && CanBeLaid(ls[1..])
    ensures Lay(ls) == Header(ls[0]) + (ls[0].box.body + Lay(ls[1..]))
  {
    hide Fits, Header;
    assert forall i :: 0 <= i < |ls[1..]| ==> ls[1..][i] == ls[i + 1];
    assert Header(ls[0]) + ls[0].box.body + Lay(ls[1..]) == Header(ls[0]) + (ls[0].box.body + Lay(ls[1..]));
  }

  /** Walking what a writer lays out gives back exactly its boxes, whatever the form of their headers. */
  lemma {:induction false} ChildrenOfLaid(ls: seq<Laid>)
    requires CanBeLaid(ls)
    ensures Children(Lay(ls)) == Some(Boxes(ls))
  {
    hide Header, NextBox, Fits, CanBeLaid;
    if ls != [] {
      LaidApart(ls);
      ChildrenOfLaid(ls[1..]);
      NextLaid(ls[0], Lay(ls[1..]));
      assert Lay([]) == [];
      hide Lay;
      assert Children(Lay(ls)) == Some([ls[0].box] + Boxes(ls[1..]));
    }
  }
}
