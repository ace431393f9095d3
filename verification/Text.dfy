/** The few string operations of Rust's standard library the headers and paths are read with. */
module Text {
  import opened Wrappers

  const U64_MAX: nat := 0xFFFF_FFFF_FFFF_FFFF

  /** Unicode's `White_Space` property, which `trim` and its relatives go by. */
  predicate IsWhite(c: char) {
    || '\U{0009}' <= c <= '\U{000D}' || c == ' ' || c == '\U{0085}' || c == '\U{00A0}' || c == '\U{1680}'
    || '\U{2000}' <= c <= '\U{200A}' || c == '\U{2028}' || c == '\U{2029}' || c == '\U{202F}' || c == '\U{205F}'
    || c == '\U{3000}'
  }

  /** The code points that have the property. */
  lemma WhiteSpaceExactly(c: char)
    ensures IsWhite(c) <==>
              var n := c as int;
              || n in {9, 10, 11, 12, 13, 32, 133, 160, 5760, 8232, 8233, 8239, 8287, 12288}
              || 8192 <= n <= 8202
  {
  }

  function TrimStart(s: string): (r: string)
    ensures |r| <= |s| && r == s[|s| - |r|..]
    ensures r == [] || !IsWhite(r[0])
  {
    if s != [] && IsWhite(s[0]) then TrimStart(s[1..]) else s
  }

  function TrimEnd(s: string): (r: string)
    ensures |r| <= |s| && r == s[..|r|]
    ensures r == [] || !IsWhite(r[|r| - 1])
  {
    if s != [] && IsWhite(s[|s| - 1]) then TrimEnd(s[..|s| - 1]) else s
  }

  function Trim(s: string): (r: string)
    ensures |s| > 0 && !IsWhite(s[0]) && !IsWhite(s[|s| - 1]) ==> r == s
  {
    TrimEnd(TrimStart(s))
  }

  function AsciiUpper(c: char): char {
    if 'a' <= c <= 'z' then (c as int - 32) as char else c
  }

  function Upper(s: string): string {
    seq(|s|, i requires 0 <= i < |s| => AsciiUpper(s[i]))
  }

  /** Rust's `eq_ignore_ascii_case`. */
  predicate SameIgnoringCase(s: string, t: string) {
    Upper(s) == Upper(t)
  }

  /** The same character, or one letter of the alphabet in either case. */
  predicate SameLetter(c: char, d: char) {
    || c == d
    || ('a' <= c <= 'z' && d as int + 32 == c as int)
    || ('a' <= d <= 'z' && c as int + 32 == d as int)
  }

  lemma SameLetters(s: string, t: string)
    ensures SameIgnoringCase(s, t) <==> |s| == |t| && forall i :: 0 <= i < |s| ==> SameLetter(s[i], t[i])
  {
    if |s| == |t| && forall i :: 0 <= i < |s| ==> SameLetter(s[i], t[i]) {
      assert forall i :: 0 <= i < |s| ==> Upper(s)[i] == Upper(t)[i];
    } else if Upper(s) == Upper(t) {
      assert |Upper(s)| == |s| && |Upper(t)| == |t|;
      forall i | 0 <= i < |s| ensures SameLetter(s[i], t[i]) {
        assert Upper(s)[i] == Upper(t)[i];
      }
    }
  }

  predicate IsBlank(s: string) {
    forall c <- s :: IsWhite(c)
  }

  lemma {:induction false} TrimStartBlank(front: string, s: string)
    requires IsBlank(front) && (s == "" || !IsWhite(s[0]))
    ensures TrimStart(front + s) == s
  {
    if front == "" {
      assert front + s == s;
    } else {
      assert (front + s)[1..] == front[1..] + s;
      TrimStartBlank(front[1..], s);
    }
  }

  lemma {:induction false} TrimEndBlank(s: string, back: string)
    requires IsBlank(back) && (s == "" || !IsWhite(s[|s| - 1]))
    ensures TrimEnd(s + back) == s
  {
    if back == "" {
      assert s + back == s;
    } else {
      assert (s + back)[..|s + back| - 1] == s + back[..|back| - 1];
      TrimEndBlank(s, back[..|back| - 1]);
    }
  }

  /** Trimming takes off exactly the white space around a text. */
  lemma TrimBlank(front: string, s: string, back: string)
    requires IsBlank(front) && IsBlank(back) && s != "" && !IsWhite(s[0]) && !IsWhite(s[|s| - 1])
    ensures Trim(front + s + back) == s
  {
    hide TrimStart, TrimEnd;
    assert front + s + back == front + (s + back);
    TrimStartBlank(front, s + back);
    TrimEndBlank(s, back);
  }

  function StripPrefix(s: string, prefix: string): Option<string> {
    if prefix <= s then Some(s[|prefix|..]) else None
  }

  /** What comes before the first `stop`, or everything when there is none. */
  function Before(s: string, stop: char): (r: string)
    ensures r <= s && stop !in r
    ensures |r| < |s| ==> s[|r|] == stop
  {
    if s == [] || s[0] == stop then [] else [s[0]] + Before(s[1..], stop)
  }

  lemma BeforeStep(c: char, s: string, stop: char)
    ensures Before([c] + s, stop) == if c == stop then [] else [c] + Before(s, stop)
  {
    assert ([c] + s)[1..] == s;
  }

  /** `Before` is the text in front of the separator it is followed by. */
  lemma {:induction false} BeforeAt(front: string, stop: char, rest: string)
    requires stop !in front
    ensures Before(front + [stop] + rest, stop) == front
  {
    hide Before;
    if front == [] {
      BeforeStep(stop, rest, stop);
      assert front + [stop] + rest == [stop] + rest;
    } else {
      var c, later := front[0], front[1..];
      BeforeAt(later, stop, rest);
      BeforeStep(c, later + [stop] + rest, stop);
      assert front == [c] + later && front + [stop] + rest == [c] + (later + [stop] + rest);
    }
  }

  lemma {:induction false} BeforeNone(s: string, stop: char)
    requires stop !in s
    ensures Before(s, stop) == s
  {
    if s != [] {
      BeforeNone(s[1..], stop);
    }
  }

  /** Rust's `str::split`: always at least one piece. */
  function Split(s: string, isSeparator: char -> bool): (r: seq<string>)
    ensures r != []
  {
    if s == [] then [""]
    else var rest := Split(s[1..], isSeparator);
         if isSeparator(s[0]) then [""] + rest else [[s[0]] + rest[0]] + rest[1..]
  }

  lemma {:induction false} SplitFirst(front: string, separator: char, rest: string, isSeparator: char -> bool)
    requires isSeparator(separator) && forall c <- front :: !isSeparator(c)
    ensures Split(front + [separator] + rest, isSeparator) == [front] + Split(rest, isSeparator)
  {
    var s := front + [separator] + rest;
    if front == [] {
      assert s[1..] == rest;
    } else {
      SplitFirst(front[1..], separator, rest, isSeparator);
      assert s[1..] == front[1..] + [separator] + rest;
      assert [front[0]] + front[1..] == front;
    }
  }

  lemma {:induction false} SplitWhole(s: string, isSeparator: char -> bool)
    requires forall c <- s :: !isSeparator(c)
    ensures Split(s, isSeparator) == [s]
  {
    if s != [] {
      SplitWhole(s[1..], isSeparator);
      assert [s[0]] + s[1..] == s;
    }
  }

  lemma SplitStep(c: char, s: string, isSeparator: char -> bool)
    ensures var rest := Split(s, isSeparator);
            Split([c] + s, isSeparator) == if isSeparator(c) then [""] + rest else [[c] + rest[0]] + rest[1..]
  {
    assert ([c] + s)[1..] == s;
  }

  lemma SplitNone(isSeparator: char -> bool)
    ensures Split([], isSeparator) == [[]]
  {
  }

  /** Splitting at one of its separators splits a text in two. */
  lemma {:induction false} SplitApart(front: string, separator: char, rest: string, isSeparator: char -> bool)
    requires isSeparator(separator)
    ensures Split(front + [separator] + rest, isSeparator) == Split(front, isSeparator) + Split(rest, isSeparator)
  {
    hide Split;
    if front == [] {
      SplitStep(separator, rest, isSeparator);
      SplitNone(isSeparator);
      assert front + [separator] + rest == [separator] + rest;
    } else {
      var c, later := front[0], front[1..];
      SplitApart(later, separator, rest, isSeparator);
      SplitStep(c, later, isSeparator);
      SplitStep(c, later + [separator] + rest, isSeparator);
      assert front == [c] + later && front + [separator] + rest == [c] + (later + [separator] + rest);
    }
  }

  /** Text in front goes with the first piece. */
  lemma {:induction false} SplitFront(front: string, s: string, isSeparator: char -> bool)
    requires forall c <- front :: !isSeparator(c)
    ensures Split(front + s, isSeparator) == [front + Split(s, isSeparator)[0]] + Split(s, isSeparator)[1..]
  {
    hide Split;
    var pieces := Split(s, isSeparator);
    if front == [] {
      assert front + s == s && front + pieces[0] == pieces[0];
    } else {
      var c, later := front[0], front[1..];
      SplitFront(later, s, isSeparator);
      SplitStep(c, later + s, isSeparator);
      assert front + s == [c] + (later + s) && front + pieces[0] == [c] + (later + pieces[0]);
    }
  }

  function Lengthened(pieces: seq<string>, tail: string): seq<string>
    requires pieces != []
  {
    pieces[..|pieces| - 1] + [pieces[|pieces| - 1] + tail]
  }

  lemma LengthenedStep(c: char, rest: seq<string>, tail: string)
    requires rest != []
    ensures Lengthened([""] + rest, tail) == [""] + Lengthened(rest, tail)
    ensures Lengthened([[c] + rest[0]] + rest[1..], tail)
            == [[c] + Lengthened(rest, tail)[0]] + Lengthened(rest, tail)[1..]
  {
    if |rest| == 1 {
      assert [c] + (rest[0] + tail) == [c] + rest[0] + tail;
    }
  }

  /** Text at the end goes with the last piece. */
  lemma {:induction false} SplitLast(s: string, tail: string, isSeparator: char -> bool)
    requires forall c <- tail :: !isSeparator(c)
    ensures Split(s + tail, isSeparator) == Lengthened(Split(s, isSeparator), tail)
  {
    hide Split;
    if s == [] {
      assert s + tail == tail && [] + tail == tail;
      SplitWhole(tail, isSeparator);
      SplitNone(isSeparator);
    } else {
      var c, later := s[0], s[1..];
      SplitLast(later, tail, isSeparator);
      assert s == [c] + later && s + tail == [c] + (later + tail);
      hide Lengthened;
      SplitStep(c, later, isSeparator);
      SplitStep(c, later + tail, isSeparator);
      LengthenedStep(c, Split(later, isSeparator), tail);
    }
  }

  /** A last character that is no separator is the last piece's. */
  lemma LastOfSplit(s: string, isSeparator: char -> bool)
    requires s != [] && !isSeparator(s[|s| - 1])
    ensures var pieces := Split(s, isSeparator); var last := pieces[|pieces| - 1];
            last != [] && last[|last| - 1] == s[|s| - 1]
  {
    var front, tail := s[..|s| - 1], [s[|s| - 1]];
    assert s == front + tail;
    SplitLast(front, tail, isSeparator);
  }

  lemma {:induction false} PiecesHoldNoSeparator(s: string, p: char -> bool)
    ensures forall piece <- Split(s, p), c <- piece :: c in s && !p(c)
  {
    if s != [] {
      PiecesHoldNoSeparator(s[1..], p);
    }
  }

  /** What is no separator is in some piece. */
  lemma {:induction false} SplitKeeps(s: string, isSeparator: char -> bool, c: char) returns (piece: string)
    requires c in s && !isSeparator(c)
    ensures piece in Split(s, isSeparator) && c in piece
  {
    var rest := Split(s[1..], isSeparator);
    if s[0] == c {
      piece := [s[0]] + rest[0];
    } else {
      piece := SplitKeeps(s[1..], isSeparator, c);
      if !isSeparator(s[0]) && piece == rest[0] {
        piece := [s[0]] + rest[0];
      }
    }
  }

  predicate IsDigit(c: char) { '0' <= c <= '9' }

  function DigitsValue(s: string): nat
    requires forall c <- s :: IsDigit(c)
  {
    if s == [] then 0 else
      var last := s[|s| - 1];
      assert IsDigit(last);
      10 * DigitsValue(s[..|s| - 1]) + (last as int - '0' as int)
  }

  /** Rust's `str::parse::<u64>`: an optional plus sign, then digits only, within range. */
  function ParseU64(s: string): Option<nat> {
    var digits := if s != [] && s[0] == '+' then s[1..] else s;
    if digits != [] && (forall c <- digits :: IsDigit(c)) && DigitsValue(digits) <= U64_MAX
    then Some(DigitsValue(digits))
    else None
  }

  function Decimal(n: nat): (s: string)
    ensures s != [] && forall c <- s :: IsDigit(c)
  {
    var last := [('0' as int + n % 10) as char];
    if n < 10 then last else Decimal(n / 10) + last
  }

  lemma {:induction false} DecimalValue(n: nat)
    ensures DigitsValue(Decimal(n)) == n
  {
    if n >= 10 {
      DecimalValue(n / 10);
      assert Decimal(n)[..|Decimal(n)| - 1] == Decimal(n / 10);
    }
  }

  lemma ParseDigits(s: string)
    requires s != [] && (forall c <- s :: IsDigit(c)) && DigitsValue(s) <= U64_MAX
    ensures ParseU64(Trim(s)) == Some(DigitsValue(s))
  {
    assert IsDigit(s[0]) && IsDigit(s[|s| - 1]);
    assert !IsWhite(s[0]) && !IsWhite(s[|s| - 1]);
  }

  /** A number is digits, after at most one plus sign, of a value that fits. */
  lemma ParseExactly(s: string)
    ensures ParseU64(s).Some? <==>
              var digits := if s != "" && s[0] == '+' then s[1..] else s;
              digits != "" && (forall c <- digits :: '0' <= c <= '9') && DigitsValue(digits) <= U64_MAX
  {
    var digits := if s != "" && s[0] == '+' then s[1..] else s;
    assert (forall c <- digits :: IsDigit(c)) <==> (forall c <- digits :: '0' <= c <= '9');
  }

  lemma ParseDecimal(n: nat)
    requires n <= U64_MAX
    ensures ParseU64(Trim(Decimal(n))) == Some(n)
  {
    DecimalValue(n);
    ParseDigits(Decimal(n));
  }
}

/** The `Content-Range` forms a transfer reads (src/fetch/download.rs, section 14.4 of RFC 9110). */
module ContentRange {
  import opened Wrappers
  import opened Text

  /** The first position of a `206` answer's range. */
  function Start(value: string): Option<nat> {
    match StripPrefix(value, "bytes ")
    case None => None
    case Some(range) => ParseU64(Trim(Before(range, '-')))
  }

  /** The complete length in a `416` answer. */
  function UnsatisfiedTotal(value: string): Option<nat> {
    match StripPrefix(value, "bytes */")
    case None => None
    case Some(total) => ParseU64(Trim(total))
  }

  function RenderRange(first: nat, last: nat, total: nat): string {
    "bytes " + Decimal(first) + "-" + Decimal(last) + "/" + Decimal(total)
  }

  function RenderUnsatisfied(total: nat): string {
    "bytes */" + Decimal(total)
  }

  /** What a conforming server writes, the transfer reads back exactly. */
  lemma StartOfRendered(first: nat, last: nat, total: nat)
    requires first <= U64_MAX
    ensures Start(RenderRange(first, last, total)) == Some(first)
  {
    var rest := Decimal(last) + "/" + Decimal(total);
    var value := RenderRange(first, last, total);
    assert value == "bytes " + (Decimal(first) + "-" + rest);
    assert value[|"bytes "|..] == Decimal(first) + ['-'] + rest;
    assert '-' !in Decimal(first);
    BeforeAt(Decimal(first), '-', rest);
    ParseDecimal(first);
  }

  lemma TotalOfRendered(total: nat)
    requires total <= U64_MAX
    ensures UnsatisfiedTotal(RenderUnsatisfied(total)) == Some(total)
  {
    assert RenderUnsatisfied(total)[|"bytes */"|..] == Decimal(total);
    ParseDecimal(total);
  }
}
