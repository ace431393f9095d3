/** The `Link` header scanner (src/fetch/response.rs:50-113, section 3 of RFC 8288). */
module Links {
  import opened Wrappers
  import opened Text

  /** A scanned link: the text between its angle brackets, trimmed, and what follows up to the next one. */
  datatype Link = Link(target: string, parameters: string)

  /** A value cut at its first link. */
  datatype Cut = Cut(inside: string, parameters: string, rest: string)

  function FirstCut(value: string): (cut: Option<Cut>)
    ensures cut.Some? ==> |cut.value.rest| < |value|
  {
    var open := |Before(value, '<')|;
    if open == |value| then None else
      var after := value[open + 1..];
      var inside := Before(after, '>');
      if |inside| == |after| then None else
        var tail := after[|inside| + 1..];
        var parameters := Before(tail, '<');
        Some(Cut(inside, parameters, tail[|parameters|..]))
  }

  /** Every link of a header value, in order; one with an empty target is passed over. */
  function Scan(value: string): seq<Link>
    decreases |value|
  {
    match FirstCut(value)
    case None => []
    case Some(cut) =>
      (if Trim(cut.inside) == "" then [] else [Link(Trim(cut.inside), cut.parameters)]) + Scan(cut.rest)
  }

  lemma BeforeIs(s: string, c: char, at: nat)
    requires at <= |s| && c !in s[..at] && (at == |s| || s[at] == c)
    ensures Before(s, c) == s[..at]
  {
    hide Before;
    if at == |s| {
      assert s[..at] == s;
      BeforeNone(s, c);
    } else {
      assert s == s[..at] + [c] + s[at + 1..];
      BeforeAt(s[..at], c, s[at + 1..]);
    }
  }

  /** Everything up to and after the first `c`, or everything when there is none. */
  method SplitOnce(s: string, c: char) returns (front: string, back: Option<string>)
    ensures front == Before(s, c) && back == if |front| == |s| then None else Some(s[|front| + 1..])
  {
    hide Before;
    for i := 0 to |s|
      invariant c !in s[..i]
    {
      if s[i] == c {
        BeforeIs(s, c, i);
        return s[..i], Some(s[i + 1..]);
      }
    }
    BeforeIs(s, c, |s|);
    return s, None;
  }

  /** The iterator over one header value. */
  class Scanner {
    var rest: string

    constructor (value: string)
      ensures rest == value
    {
      rest := value;
    }

    method Next() returns (link: Option<Link>)
      modifies this
      ensures link.None? ==> Scan(old(rest)) == [] == Scan(rest)
      ensures link.Some? ==> Scan(old(rest)) == [link.value] + Scan(rest) && |rest| < |old(rest)|
    {
      hide FirstCut, Trim;
      while true
        invariant Scan(rest) == Scan(old(rest)) && |rest| <= |old(rest)|
        decreases |rest|
      {
        var cut := NextCut();
        if cut.None? {
          return None;
        }
        var target := Trim(cut.value.inside);
        if target != "" {
          return Some(Link(target, cut.value.parameters));
        }
      }
    }

    /** Moves past the next pair of brackets and what follows it; a `<` with no `>` after it ends the value. */
    method NextCut() returns (cut: Option<Cut>)
      modifies this
      ensures cut == FirstCut(old(rest))
      ensures if cut.None? then Scan(rest) == Scan(old(rest)) == [] else rest == cut.value.rest
    {
      hide Before, Trim;
      var _, after := SplitOnce(rest, '<');
      if after.None? {
        return None;
      }
      var inside, tail := SplitOnce(after.value, '>');
      if tail.None? {
        rest := "";
        assert FirstCut("") == None by {
          BeforeNone("", '<');
        }
        return None;
      }
      var parameters, _ := SplitOnce(tail.value, '<');
      rest := tail.value[|parameters|..];
      return Some(Cut(inside, parameters, rest));
    }
  }

  // Relation types.

  predicate IsSemicolon(c: char) { c == ';' }
  predicate IsAsciiWhite(c: char) { c == ' ' || c == '\t' || c == '\n' || c == '\r' || c == '\U{000C}' }

  function TrimEndCommas(s: string): string {
    if s != [] && s[|s| - 1] == ',' then TrimEndCommas(s[..|s| - 1]) else s
  }

  function TrimStartQuotes(s: string): string {
    if s != [] && s[0] == '"' then TrimStartQuotes(s[1..]) else s
  }

  function TrimEndQuotes(s: string): string {
    if s != [] && s[|s| - 1] == '"' then TrimEndQuotes(s[..|s| - 1]) else s
  }

  function TrimQuotes(s: string): string {
    TrimEndQuotes(TrimStartQuotes(s))
  }

  /** Whether a list of relation types separated by white space has one. */
  predicate Declares(types: string, rel: string) {
    exists declared <- Split(types, IsAsciiWhite) :: declared != "" && SameIgnoringCase(declared, rel)
  }

  /** What a parameter's value is once the separator, the quotes and the spaces around them are off. */
  function Unquoted(value: string): string {
    TrimQuotes(Trim(TrimEndCommas(Trim(value))))
  }

  /** Whether one `name=value` declares a relation type; one without `=` declares none. */
  predicate PieceHasRel(piece: string, rel: string) {
    var name := Before(piece, '=');
    |name| < |piece| && SameIgnoringCase(Trim(name), "rel") && Declares(Unquoted(piece[|name| + 1..]), rel)
  }

  predicate HasRel(parameters: string, rel: string) {
    exists piece <- Split(parameters, IsSemicolon) :: PieceHasRel(piece, rel)
  }

  /** All links of a response's `Link` headers, in order. */
  function AllLinks(values: seq<string>): seq<Link> {
    if values == [] then [] else Scan(values[0]) + AllLinks(values[1..])
  }

  /** The target of the first link that declares `rel`. */
  function FirstWith(links: seq<Link>, rel: string): Option<string> {
    if links == [] then None
    else if HasRel(links[0].parameters, rel) then Some(links[0].target)
    else FirstWith(links[1..], rel)
  }

  lemma {:induction false} FirstOfConcat(x: seq<Link>, y: seq<Link>, rel: string)
    ensures FirstWith(x + y, rel) == Or(FirstWith(x, rel), FirstWith(y, rel))
  {
    if x == [] {
      assert x + y == y;
    } else {
      assert (x + y)[1..] == x[1..] + y;
      FirstOfConcat(x[1..], y, rel);
    }
  }

  /** The target a response's `Link` headers give for `rel`. */
  method FindLink(values: seq<string>, rel: string) returns (target: Option<string>)
    ensures target == FirstWith(AllLinks(values), rel)
  {
    hide HasRel, Scan;
    assert values[0..] == values;
    for i := 0 to |values|
      invariant FirstWith(AllLinks(values), rel) == FirstWith(AllLinks(values[i..]), rel)
    {
      assert values[i..][1..] == values[i + 1..];
      FirstOfConcat(Scan(values[i]), AllLinks(values[i + 1..]), rel);
      var scanner := new Scanner(values[i]);
      var link := scanner.Next();
      while link.Some?
        invariant FirstWith(Scan(values[i]), rel)
                  == FirstWith((if link.Some? then [link.value] else []) + Scan(scanner.rest), rel)
        invariant link.None? ==> Scan(scanner.rest) == []
        decreases link.Some?, |scanner.rest|
      {
        if HasRel(link.value.parameters, rel) {
          return Some(link.value.target);
        }
        assert ([link.value] + Scan(scanner.rest))[1..] == Scan(scanner.rest);
        link := scanner.Next();
      }
    }
    return None;
  }

  // What the scan finds.

  /** A trimmed, non-empty text strictly between a `<` of the value and the next `>`. */
  ghost predicate Bracketed(value: string, target: string) {
    exists open, close :: 0 <= open < close < |value| && IsBracket(value, open, close) &&
                          target == Trim(value[open + 1..close]) && target != ""
  }

  predicate IsBracket(value: string, open: nat, close: nat)
    requires open < close < |value|
  {
    value[open] == '<' && value[close] == '>' && '>' !in value[open + 1..close]
  }

  lemma BracketedLater(front: string, rest: string, target: string)
    requires Bracketed(rest, target)
    ensures Bracketed(front + rest, target)
  {
    hide Trim;
    var open, close :| 0 <= open < close < |rest| && IsBracket(rest, open, close) &&
                       target == Trim(rest[open + 1..close]) && target != "";
    var o, c, value := |front| + open, |front| + close, front + rest;
    assert value[o + 1..c] == rest[open + 1..close];
    assert IsBracket(value, o, c);
  }

  lemma TailOfTail(s: string, n: nat, m: nat)
    requires n + m <= |s|
    ensures s[n..][m..] == s[n + m..]
  {
  }

  lemma RestIsATail(value: string)
    requires FirstCut(value).Some?
    ensures var rest := FirstCut(value).value.rest; rest == value[|value| - |rest|..]
  {
    var open := |Before(value, '<')| + 1;
    var after := value[open..];
    var close := |Before(after, '>')| + 1;
    var tail := after[close..];
    hide Before;
    TailOfTail(value, open, close);
    TailOfTail(value, open + close, |Before(tail, '<')|);
  }

  lemma CutIsBracketed(value: string)
    requires FirstCut(value).Some? && Trim(FirstCut(value).value.inside) != ""
    ensures Bracketed(value, Trim(FirstCut(value).value.inside))
  {
    hide Trim;
    var inside := FirstCut(value).value.inside;
    var open := |Before(value, '<')|;
    var close := open + 1 + |inside|;
    var after := value[open + 1..];
    assert inside == Before(after, '>');
    assert after[|inside|] == '>';
    hide Before, FirstCut;
    assert value[open + 1..close] == after[..|inside|] == inside;
    assert IsBracket(value, open, close);
  }

  /** Every target the scan yields lies between a `<` and the next `>`. */
  lemma {:induction false} EveryTargetIsBracketed(value: string, i: nat)
    requires i < |Scan(value)|
    ensures Bracketed(value, Scan(value)[i].target)
    decreases |value|
  {
    hide Trim, FirstCut, Bracketed;
    var cut := FirstCut(value).value;
    var empty := Trim(cut.inside) == "";
    if !empty && i == 0 {
      CutIsBracketed(value);
    } else {
      EveryTargetIsBracketed(cut.rest, if empty then i else i - 1);
      RestIsATail(value);
      var n := |value| - |cut.rest|;
      assert value == value[..n] + value[n..];
      BracketedLater(value[..n], cut.rest, Scan(value)[i].target);
    }
  }

  // Round trip.

  datatype Parameter = Parameter(name: string, value: string)

  datatype Declared = Declared(target: string, parameters: seq<Parameter>)

  function RenderParameter(p: Parameter): string {
    " " + p.name + "=" + ("\"" + p.value + "\"")
  }

  function RenderParameters(ps: seq<Parameter>): string {
    if ps == [] then "" else ";" + RenderParameter(ps[0]) + RenderParameters(ps[1..])
  }

  function RenderLink(target: string, parameters: string, rest: string): string {
    "<" + target + ">" + parameters + rest
  }

  function Separator(more: seq<Declared>): string {
    if more == [] then "" else ", "
  }

  function Render(ds: seq<Declared>): string {
    if ds == [] then "" else
      RenderLink(ds[0].target, RenderParameters(ds[0].parameters) + Separator(ds[1..]), Render(ds[1..]))
  }

  /** A target that is trimmed, not empty and holds no `>`; parameters that hold no `<`. */
  predicate CanBeScanned(d: Declared) {
    && d.target != "" && Trim(d.target) == d.target && '>' !in d.target
    && forall p <- d.parameters :: '<' !in p.name && '<' !in p.value
  }

  /** What scanning a rendered header gives: each link's separator ends up with its parameters. */
  function Expected(ds: seq<Declared>): seq<Link> {
    if ds == [] then [] else
      [Link(ds[0].target, RenderParameters(ds[0].parameters) + Separator(ds[1..]))] + Expected(ds[1..])
  }

  lemma {:induction false} RenderedWithout(ps: seq<Parameter>, c: char)
    requires c !in "; =\"" && forall p <- ps :: c !in p.name && c !in p.value
    ensures c !in RenderParameters(ps)
  {
    if ps != [] {
      RenderedWithout(ps[1..], c);
    }
  }

  lemma CutOne(inside: string, parameters: string, rest: string)
    requires '>' !in inside && '<' !in parameters && (rest == "" || rest[0] == '<')
    ensures FirstCut(RenderLink(inside, parameters, rest)) == Some(Cut(inside, parameters, rest))
  {
    LinkFronts(inside, parameters, rest);
    LinkPieces(inside, parameters, rest);
    hide Before, RenderLink;
    assert Before(RenderLink(inside, parameters, rest), '<') == [];
  }

  lemma LinkFronts(inside: string, parameters: string, rest: string)
    requires '>' !in inside && '<' !in parameters && (rest == "" || rest[0] == '<')
    ensures Before(RenderLink(inside, parameters, rest), '<') == []
    ensures Before(inside + ['>'] + (parameters + rest), '>') == inside
    ensures Before(parameters + rest, '<') == parameters
  {
    LinkPieces(inside, parameters, rest);
    hide Before, RenderLink;
    BeforeIs(RenderLink(inside, parameters, rest), '<', 0);
    BeforeIs(inside + ['>'] + (parameters + rest), '>', |inside|);
    TailIsCut(parameters, rest);
  }

  lemma LinkPieces(inside: string, parameters: string, rest: string)
    ensures var value, tail := RenderLink(inside, parameters, rest), parameters + rest;
            var after := inside + ['>'] + tail;
            && value != "" && value[0] == '<' && value[1..] == after && after[|inside|] == '>'
            && after[..|inside|] == inside && after[|inside| + 1..] == tail && tail[|parameters|..] == rest
  {
  }

  lemma TailIsCut(parameters: string, rest: string)
    requires '<' !in parameters && (rest == "" || rest[0] == '<')
    ensures Before(parameters + rest, '<') == parameters
  {
    hide Before;
    if rest == "" {
      assert parameters + rest == parameters;
      BeforeNone(parameters, '<');
    } else {
      assert parameters + rest == parameters + ['<'] + rest[1..];
      BeforeAt(parameters, '<', rest[1..]);
    }
  }

  lemma RenderEmptyOrOpen(ds: seq<Declared>)
    ensures Render(ds) == "" || Render(ds)[0] == '<'
  {
  }

  lemma ScanOne(target: string, parameters: string, rest: string)
    requires Trim(target) == target != "" && '>' !in target
    requires '<' !in parameters && (rest == "" || rest[0] == '<')
    ensures Scan(RenderLink(target, parameters, rest)) == [Link(target, parameters)] + Scan(rest)
  {
    hide FirstCut, Trim, RenderLink;
    CutOne(target, parameters, rest);
  }

  /** Scanning what a server renders gives back its targets in order, commas in them included. */
  lemma {:induction false} RoundTrip(ds: seq<Declared>)
    requires forall d <- ds :: CanBeScanned(d)
    ensures Scan(Render(ds)) == Expected(ds)
  {
    hide Scan, Trim, RenderLink, RenderParameters;
    if ds == [] {
      ScanNone();
    } else {
      RoundTrip(ds[1..]);
      assert CanBeScanned(ds[0]);
      RenderedWithout(ds[0].parameters, '<');
      RenderEmptyOrOpen(ds[1..]);
      ScanOne(ds[0].target, RenderParameters(ds[0].parameters) + Separator(ds[1..]), Render(ds[1..]));
    }
  }

  lemma ScanNone()
    ensures Scan("") == []
  {
  }

  // Which link is found.

  predicate IsRel(name: string) {
    SameIgnoringCase(Trim(name), "rel")
  }

  predicate ParameterHasRel(p: Parameter, rel: string) {
    IsRel(p.name) && Declares(p.value, rel)
  }

  predicate DeclaresRel(d: Declared, rel: string) {
    exists p <- d.parameters :: ParameterHasRel(p, rel)
  }

  /** A name that holds no `=` or `;`, and a value that holds no quote. */
  predicate CanBeQuoted(p: Parameter) {
    '=' !in p.name && ';' !in p.name && '"' !in p.value
  }

  lemma TrimSpace(s: string)
    ensures Trim(" " + s) == Trim(s)
  {
    assert (" " + s)[1..] == s;
  }

  lemma {:induction false} NoQuotesToTrim(s: string)
    requires '"' !in s
    ensures TrimQuotes("\"" + s + "\"") == s
  {
    var quoted := "\"" + s + "\"";
    var open := s + "\"";
    assert quoted[0] == '"' && quoted[1..] == open;
    if s == "" {
      assert open[1..] == "" && TrimStartQuotes(open) == TrimStartQuotes(open[1..]);
    } else {
      assert open[0] == s[0] && TrimStartQuotes(open) == open;
      assert open[|open| - 1] == '"' && open[..|open| - 1] == s && s[|s| - 1] != '"';
      assert TrimEndQuotes(s) == s;
    }
  }

  lemma TrimOneSpace(s: string)
    requires s != "" && !IsWhite(s[0]) && !IsWhite(s[|s| - 1])
    ensures Trim(s + " ") == s
  {
    var spaced := s + " ";
    assert spaced[0] == s[0] && spaced[..|spaced| - 1] == s;
    assert TrimStart(spaced) == spaced;
    assert TrimEnd(spaced) == TrimEnd(s) == s;
    hide TrimStart, TrimEnd;
  }

  lemma TrimOneComma(s: string)
    requires s != "" && s[|s| - 1] != ','
    ensures TrimEndCommas(s + ",") == s == TrimEndCommas(s)
  {
    assert (s + ",")[..|s|] == s;
  }

  lemma TrimSeparator(s: string)
    requires s != "" && !IsWhite(s[0]) && s[|s| - 1] == '"'
    ensures Trim(TrimEndCommas(Trim(s))) == s
    ensures Trim(TrimEndCommas(Trim(s + ", "))) == s
  {
    assert !IsWhite('"') && !IsWhite(',');
    hide *;
    TrimOneComma(s);
    var comma := s + ",";
    assert comma[0] == s[0] && comma[|comma| - 1] == ',';
    TrimOneSpace(comma);
    assert comma + " " == s + ", ";
  }

  lemma {:induction false} TrimStartOfMore(s: string, more: string)
    requires s != "" && !IsWhite(s[|s| - 1])
    ensures TrimStart(s) != "" && TrimStart(s)[|TrimStart(s)| - 1] == s[|s| - 1]
    ensures TrimStart(s + more) == TrimStart(s) + more
  {
    if IsWhite(s[0]) {
      assert (s + more)[1..] == s[1..] + more;
      TrimStartOfMore(s[1..], more);
    }
  }

  /** The separator a link carries into its last parameter comes off before the quotes do. */
  lemma UnquotedSeparator(quoted: string, separator: string)
    requires quoted != "" && quoted[|quoted| - 1] == '"' && separator in {"", ", "}
    ensures Unquoted(quoted + separator) == Unquoted(quoted)
  {
    if separator == "" {
      assert quoted + separator == quoted;
    } else {
      var s := TrimStart(quoted);
      TrimStartOfMore(quoted, separator);
      assert TrimStart(s) == s && TrimStart(s + separator) == s + separator;
      hide TrimStart, TrimEnd, TrimEndCommas, TrimQuotes;
      TrimSeparator(s);
      assert Trim(quoted) == Trim(s) && Trim(quoted + separator) == Trim(s + separator);
    }
  }

  lemma UnquotedValue(value: string)
    requires '"' !in value
    ensures Unquoted("\"" + value + "\"") == value
  {
    var quoted := "\"" + value + "\"";
    assert quoted[0] == '"' && quoted[|quoted| - 1] == '"';
    hide Trim, TrimEndCommas, TrimQuotes;
    TrimSeparator(quoted);
    NoQuotesToTrim(value);
  }

  lemma NamedPiece(name: string, value: string, rel: string)
    requires '=' !in name
    ensures PieceHasRel(name + ['='] + value, rel) <==> IsRel(name) && Declares(Unquoted(value), rel)
  {
    hide Trim, Unquoted, Declares, SameIgnoringCase, Before;
    var piece := name + ['='] + value;
    BeforeAt(name, '=', value);
    assert piece[|name| + 1..] == value;
  }

  lemma UnnamedPiece(piece: string, rel: string)
    requires '=' !in piece
    ensures !PieceHasRel(piece, rel)
  {
    hide Before;
    BeforeNone(piece, '=');
  }

  lemma PieceSeparator(piece: string, separator: string, rel: string)
    requires piece != "" && piece[|piece| - 1] == '"' && separator in {"", ", "}
    ensures PieceHasRel(piece + separator, rel) <==> PieceHasRel(piece, rel)
  {
    hide PieceHasRel, Unquoted, Declares, IsRel, Before;
    if '=' in piece {
      var name := Before(piece, '=');
      BeforeStops(piece, '=');
      var value := piece[|name| + 1..];
      assert piece == name + ['='] + value && piece + separator == name + ['='] + (value + separator);
      assert value[|value| - 1] == piece[|piece| - 1];
      NamedPiece(name, value, rel);
      NamedPiece(name, value + separator, rel);
      UnquotedSeparator(value, separator);
    } else {
      UnnamedPiece(piece, rel);
      UnnamedPiece(piece + separator, rel);
    }
  }

  lemma {:induction false} BeforeStops(s: string, c: char)
    requires c in s
    ensures |Before(s, c)| < |s|
  {
    if s[0] != c {
      BeforeStops(s[1..], c);
    }
  }

  lemma HasRelSeparator(s: string, separator: string, rel: string)
    requires s != "" && s[|s| - 1] == '"' && separator in {"", ", "}
    ensures HasRel(s + separator, rel) <==> HasRel(s, rel)
  {
    hide PieceHasRel, Split;
    assert forall c <- separator :: !IsSemicolon(c);
    SplitLast(s, separator, IsSemicolon);
    LastOfSplit(s, IsSemicolon);
    var pieces := Split(s, IsSemicolon);
    var front, last := pieces[..|pieces| - 1], pieces[|pieces| - 1];
    PieceSeparator(last, separator, rel);
    assert pieces == front + [last];
  }

  lemma HasRelApart(front: string, rest: string, rel: string)
    ensures HasRel(front + [';'] + rest, rel) <==> HasRel(front, rel) || HasRel(rest, rel)
  {
    hide PieceHasRel;
    SplitApart(front, ';', rest, IsSemicolon);
  }

  lemma NoRel(separator: string, rel: string)
    requires separator in {"", ", "}
    ensures !HasRel("" + separator, rel) && !HasRel("", rel)
  {
    hide PieceHasRel;
    SplitWhole("", IsSemicolon);
    SplitWhole("" + separator, IsSemicolon);
    UnnamedPiece("", rel);
    UnnamedPiece("" + separator, rel);
  }

  lemma ParametersNone(lead: string, separator: string)
    ensures lead + RenderParameters([]) + separator == lead + separator
  {
    assert lead + "" == lead;
  }

  lemma ParametersApart(lead: string, ps: seq<Parameter>, separator: string)
    requires ps != []
    ensures lead + RenderParameters(ps) + separator
            == lead + [';'] + (RenderParameter(ps[0]) + RenderParameters(ps[1..]) + separator)
    ensures RenderParameter(ps[0]) != "" && RenderParameter(ps[0])[|RenderParameter(ps[0])| - 1] == '"'
  {
    var p, rest := RenderParameter(ps[0]), RenderParameters(ps[1..]);
    hide RenderParameters;
    assert lead + (";" + p + rest) + separator == lead + [';'] + (p + rest + separator);
  }

  /** Whether some parameter, rendered by itself, is read to declare a relation type. */
  ghost predicate SomeRendered(ps: seq<Parameter>, rel: string) {
    exists p <- ps :: HasRel(RenderParameter(p), rel)
  }

  lemma SomeOfFirst(ps: seq<Parameter>, rel: string)
    requires ps != []
    ensures SomeRendered(ps, rel) <==> HasRel(RenderParameter(ps[0]), rel) || SomeRendered(ps[1..], rel)
  {
    hide HasRel, RenderParameter;
    assert ps == [ps[0]] + ps[1..];
  }

  lemma {:induction false} EachByItself(lead: string, ps: seq<Parameter>, separator: string, rel: string)
    requires (lead == "" || lead[|lead| - 1] == '"') && separator in {"", ", "}
    ensures HasRel(lead + RenderParameters(ps) + separator, rel) <==> HasRel(lead, rel) || SomeRendered(ps, rel)
    decreases |ps|
  {
    if ps == [] {
      hide HasRel, RenderParameters;
      ParametersNone(lead, separator);
      NoRel(separator, rel);
      if lead != "" {
        HasRelSeparator(lead, separator, rel);
      }
    } else {
      hide *;
      var next := RenderParameter(ps[0]);
      ParametersApart(lead, ps, separator);
      HasRelApart(lead, next + RenderParameters(ps[1..]) + separator, rel);
      EachByItself(next, ps[1..], separator, rel);
      SomeOfFirst(ps, rel);
    }
  }

  /** The pieces the scanner takes a quoted value for: the first belongs to the parameter, and each later one is read as a
      parameter of its own. */
  function QuotedPieces(p: Parameter): (pieces: seq<string>)
    ensures pieces != []
  {
    Split("\"" + p.value + "\"", IsSemicolon)
  }

  /** What a rendered parameter is read to declare: its value up to the first `;`, and whatever a later piece declares. */
  lemma RenderedHasRel(p: Parameter, rel: string)
    requires CanBeQuoted(p)
    ensures HasRel(RenderParameter(p), rel) <==>
              || (IsRel(p.name) && Declares(Unquoted(QuotedPieces(p)[0]), rel))
              || exists piece <- QuotedPieces(p)[1..] :: PieceHasRel(piece, rel)
  {
    hide PieceHasRel, Unquoted, Declares, IsRel, Split;
    var name, pieces := " " + p.name, QuotedPieces(p);
    var front := name + ['='];
    assert RenderParameter(p) == front + ("\"" + p.value + "\"");
    SplitFront(front, "\"" + p.value + "\"", IsSemicolon);
    NamedPiece(name, pieces[0], rel);
    RelWithSpace(p.name);
    assert Split(RenderParameter(p), IsSemicolon) == [front + pieces[0]] + pieces[1..];
  }

  lemma RelWithSpace(name: string)
    ensures IsRel(" " + name) <==> IsRel(name)
  {
    hide Trim, SameIgnoringCase;
    TrimSpace(name);
  }

  lemma WholeValue(p: Parameter, rel: string)
    requires CanBeQuoted(p) && ';' !in p.value
    ensures HasRel(RenderParameter(p), rel) <==> ParameterHasRel(p, rel)
  {
    hide PieceHasRel, Unquoted, Declares, IsRel, Split, HasRel, RenderParameter;
    SplitWhole("\"" + p.value + "\"", IsSemicolon);
    RenderedHasRel(p, rel);
    UnquotedValue(p.value);
  }

  /** A link's rendered parameters declare exactly what each of them, by itself, is read to declare. */
  lemma HasRelExactly(ps: seq<Parameter>, separator: string, rel: string)
    requires separator in {"", ", "} && forall p <- ps :: CanBeQuoted(p)
    ensures HasRel(RenderParameters(ps) + separator, rel) <==>
              exists p <- ps ::
                || (IsRel(p.name) && Declares(Unquoted(QuotedPieces(p)[0]), rel))
                || exists piece <- QuotedPieces(p)[1..] :: PieceHasRel(piece, rel)
  {
    hide HasRel, PieceHasRel, CanBeQuoted, IsRel, Declares, Unquoted, QuotedPieces, RenderParameter;
    EachByItself("", ps, separator, rel);
    NoRel(separator, rel);
    assert "" + RenderParameters(ps) + separator == RenderParameters(ps) + separator;
    forall p <- ps
      ensures HasRel(RenderParameter(p), rel) <==>
                || (IsRel(p.name) && Declares(Unquoted(QuotedPieces(p)[0]), rel))
                || exists piece <- QuotedPieces(p)[1..] :: PieceHasRel(piece, rel)
    {
      RenderedHasRel(p, rel);
    }
  }

  predicate SomeDeclares(ps: seq<Parameter>, rel: string) {
    exists p <- ps :: ParameterHasRel(p, rel)
  }

  /** No relation type holds a `;`, and what follows a `;` in another value declares nothing the relation types do not. */
  ghost predicate ReadsAsMeant(ps: seq<Parameter>) {
    && (forall p <- ps :: IsRel(p.name) ==> ';' !in p.value)
    && (forall p <- ps, piece <- QuotedPieces(p)[1..], rel :: PieceHasRel(piece, rel) ==> SomeDeclares(ps, rel))
  }

  lemma ReadAsMeant(ps: seq<Parameter>, separator: string, rel: string)
    requires separator in {"", ", "} && (forall p <- ps :: CanBeQuoted(p)) && ReadsAsMeant(ps)
    ensures HasRel(RenderParameters(ps) + separator, rel) <==> SomeDeclares(ps, rel)
  {
    hide HasRel, PieceHasRel, CanBeQuoted, IsRel, Declares, Unquoted, QuotedPieces, RenderParameter, RenderParameters;
    EachByItself("", ps, separator, rel);
    NoRel(separator, rel);
    assert "" + RenderParameters(ps) + separator == RenderParameters(ps) + separator;
    forall p <- ps
      ensures HasRel(RenderParameter(p), rel) ==> SomeDeclares(ps, rel)
      ensures ParameterHasRel(p, rel) ==> HasRel(RenderParameter(p), rel)
    {
      if IsRel(p.name) {
        WholeValue(p, rel);
      } else {
        RenderedHasRel(p, rel);
      }
    }
  }

  lemma {:induction false} TrimmedHolds(s: string)
    ensures forall c <- TrimEndCommas(s) :: c in s
    ensures forall c <- TrimStartQuotes(s) :: c in s
    ensures forall c <- TrimEndQuotes(s) :: c in s
  {
    if s != [] {
      TrimmedHolds(s[1..]);
      TrimmedHolds(s[..|s| - 1]);
    }
  }

  lemma UnquotedHolds(s: string)
    ensures forall c <- Unquoted(s) :: c in s
  {
    hide TrimEndCommas, TrimStartQuotes, TrimEndQuotes;
    TrimHolds(s);
    TrimmedHolds(Trim(s));
    TrimHolds(TrimEndCommas(Trim(s)));
    TrimmedHolds(Trim(TrimEndCommas(Trim(s))));
    TrimmedHolds(TrimStartQuotes(Trim(TrimEndCommas(Trim(s)))));
  }

  lemma TrimHolds(s: string)
    ensures forall c <- Trim(s) :: c in s
  {
    hide TrimStart, TrimEnd;
  }

  lemma SameSemicolons(s: string, t: string)
    requires SameIgnoringCase(s, t) && ';' in t
    ensures ';' in s
  {
    var i :| 0 <= i < |t| && t[i] == ';';
    assert |Upper(s)| == |s| && Upper(s)[i] == Upper(t)[i] == ';';
    assert s[i] == ';';
  }

  lemma PieceDeclaresNone(piece: string, rel: string)
    requires ';' !in piece && ';' in rel
    ensures !PieceHasRel(piece, rel)
  {
    hide Unquoted, Split, Before, SameIgnoringCase;
    var name := Before(piece, '=');
    if |name| < |piece| {
      var types := Unquoted(piece[|name| + 1..]);
      UnquotedHolds(piece[|name| + 1..]);
      PiecesHoldNoSeparator(types, IsAsciiWhite);
      forall declared <- Split(types, IsAsciiWhite) ensures !SameIgnoringCase(declared, rel) {
        if SameIgnoringCase(declared, rel) {
          SameSemicolons(declared, rel);
          assert false;
        }
      }
    }
  }

  /** A relation type that holds a `;`, as a URI may, is never found, whatever declares it. */
  lemma SemicolonMisses(parameters: string, rel: string)
    requires ';' in rel
    ensures !HasRel(parameters, rel)
  {
    hide PieceHasRel, Split;
    PiecesHoldNoSeparator(parameters, IsSemicolon);
    forall piece <- Split(parameters, IsSemicolon) ensures !PieceHasRel(piece, rel) {
      PieceDeclaresNone(piece, rel);
    }
  }

  lemma SemicolonIsInAType(types: string) returns (rel: string)
    requires ';' in types
    ensures ';' in rel && Declares(types, rel)
  {
    hide Split, Upper;
    rel := SplitKeeps(types, IsAsciiWhite, ';');
  }

  lemma MeantAsRead(ps: seq<Parameter>, separator: string)
    requires separator in {"", ", "} && (forall p <- ps :: CanBeQuoted(p)) && !ReadsAsMeant(ps)
    ensures exists rel :: HasRel(RenderParameters(ps) + separator, rel) != SomeDeclares(ps, rel)
  {
    hide HasRel, PieceHasRel, CanBeQuoted, IsRel, Declares, Unquoted, QuotedPieces, RenderParameters;
    if p :| p in ps && IsRel(p.name) && ';' in p.value {
      var rel := SemicolonIsInAType(p.value);
      assert ParameterHasRel(p, rel);
      SemicolonMisses(RenderParameters(ps) + separator, rel);
    } else {
      var p, piece, rel :| p in ps && piece in QuotedPieces(p)[1..] && PieceHasRel(piece, rel) && !SomeDeclares(ps, rel);
      HasRelExactly(ps, separator, rel);
    }
  }

  /** A link with these parameters is found under exactly the relation types it declares if and only if none of those holds
      a `;` and no other value goes on after a `;` with a relation type it does not declare. */
  lemma ReadsAsMeantExactly(ps: seq<Parameter>, separator: string)
    requires separator in {"", ", "} && forall p <- ps :: CanBeQuoted(p)
    ensures (forall rel :: HasRel(RenderParameters(ps) + separator, rel) <==> SomeDeclares(ps, rel)) <==> ReadsAsMeant(ps)
  {
    hide *;
    if ReadsAsMeant(ps) {
      forall rel ensures HasRel(RenderParameters(ps) + separator, rel) <==> SomeDeclares(ps, rel) {
        ReadAsMeant(ps, separator, rel);
      }
    } else {
      MeantAsRead(ps, separator);
    }
  }

  /** So it is when no value holds a `;`. */
  lemma WithoutSemicolons(ps: seq<Parameter>)
    requires forall p <- ps :: CanBeQuoted(p) && ';' !in p.value
    ensures ReadsAsMeant(ps)
  {
    hide PieceHasRel, IsRel, Split, SomeDeclares;
    forall p <- ps ensures QuotedPieces(p)[1..] == [] {
      SplitWhole("\"" + p.value + "\"", IsSemicolon);
    }
  }

  function FirstDeclaring(ds: seq<Declared>, rel: string): Option<string> {
    if ds == [] then None
    else if DeclaresRel(ds[0], rel) then Some(ds[0].target)
    else FirstDeclaring(ds[1..], rel)
  }

  lemma {:induction false} FirstExpected(ds: seq<Declared>, rel: string)
    requires forall d <- ds :: ReadsAsMeant(d.parameters) && forall p <- d.parameters :: CanBeQuoted(p)
    ensures FirstWith(Expected(ds), rel) == FirstDeclaring(ds, rel)
  {
    if ds != [] {
      hide HasRel, ParameterHasRel, CanBeQuoted, ReadsAsMeant;
      ReadAsMeant(ds[0].parameters, Separator(ds[1..]), rel);
      FirstExpected(ds[1..], rel);
    }
  }

  /** Asking a rendered header for a relation type finds the first link that declares it. */
  lemma FindsFirstDeclaring(ds: seq<Declared>, rel: string)
    requires forall d <- ds ::
               CanBeScanned(d) && ReadsAsMeant(d.parameters) && forall p <- d.parameters :: CanBeQuoted(p)
    ensures FirstWith(AllLinks([Render(ds)]), rel) == FirstDeclaring(ds, rel)
  {
    hide CanBeScanned, CanBeQuoted, ReadsAsMeant;
    RoundTrip(ds);
    FirstExpected(ds, rel);
    assert AllLinks([Render(ds)]) == Scan(Render(ds)) + AllLinks([]) == Scan(Render(ds));
  }

  /** One relation type, in a form that needs no quotes. */
  predicate IsToken(s: string) {
    s != "" && forall c <- s :: !IsWhite(c) && !IsAsciiWhite(c) && c != '"' && c != ',' && c != ';'
  }

  lemma UnquotedToken(token: string)
    requires IsToken(token)
    ensures Unquoted(token + "\"") == token
  {
    var quoted := token + "\"";
    assert quoted[0] == token[0] && quoted[|quoted| - 1] == '"' && quoted[..|quoted| - 1] == token;
    assert token[0] in token && token[|token| - 1] in token;
    assert Trim(quoted) == quoted == TrimEndCommas(quoted) == TrimStartQuotes(quoted);
    assert TrimEndQuotes(quoted) == TrimEndQuotes(token) == token;
  }

  lemma TokenDeclares(token: string)
    requires IsToken(token)
    ensures Declares(token, token)
  {
    SplitWhole(token, IsAsciiWhite);
    hide Upper;
    assert token in Split(token, IsAsciiWhite);
  }

  lemma RelName(name: string)
    requires name == "rel"
    ensures SameIgnoringCase(Trim(" " + name), name)
  {
    hide Upper;
    TrimSpace(name);
  }

  lemma StrayPiece(token: string)
    requires IsToken(token)
    ensures PieceHasRel(" rel=" + (token + "\""), token)
  {
    hide Unquoted, Declares, Trim, Before, Upper, IsToken, SameIgnoringCase;
    var name, quoted := " rel", token + "\"";
    var piece := " rel=" + quoted;
    assert piece == name + ['='] + quoted;
    BeforeAt(name, '=', quoted);
    assert piece[|name| + 1..] == quoted;
    RelName("rel");
    assert " " + "rel" == name;
    UnquotedToken(token);
    TokenDeclares(token);
  }

  /** Quotes are not respected: a quoted value that goes on with `; rel=` after a semicolon declares a relation type its
      link does not. */
  lemma SemicolonMisleads(p: Parameter, front: string, token: string)
    requires p.value == front + ";" + (" rel=" + token)
    requires IsToken(token) && ';' !in p.name && ';' !in front && !IsRel(p.name)
    ensures HasRel(RenderParameters([p]), token) && !DeclaresRel(Declared("", [p]), token)
  {
    hide PieceHasRel, IsRel;
    assert [p][1..] == [];
    var value := RenderParameters([p]);
    var first, second := " " + p.name + "=\"" + front, " rel=" + (token + "\"");
    var rest := first + [';'] + second;
    assert second == " rel=" + token + "\"";
    assert RenderParameter(p) == rest;
    assert value == ";" + RenderParameter(p) + RenderParameters([]);
    assert value == "" + [';'] + rest;
    SplitFirst("", ';', rest, IsSemicolon);
    SplitFirst(first, ';', second, IsSemicolon);
    StrayPiece(token);
    assert ';' !in second;
    SplitWhole(second, IsSemicolon);
    assert second in Split(value, IsSemicolon);
  }

  // Values as they are written.

  /** A list of relation types with one space between any two. */
  function Spaced(types: seq<string>): string {
    if types == [] then "" else if |types| == 1 then types[0] else types[0] + [' '] + Spaced(types[1..])
  }

  /** It declares exactly the types on it, in either case. */
  lemma {:induction false} DeclaresExactly(types: seq<string>, rel: string)
    requires forall t <- types :: t != "" && forall c <- t :: !IsAsciiWhite(c)
    ensures Declares(Spaced(types), rel) <==>
              exists t <- types :: |t| == |rel| && forall i :: 0 <= i < |t| ==> SameLetter(t[i], rel[i])
  {
    hide SameIgnoringCase, SameLetter, Split;
    if types == [] {
      SplitNone(IsAsciiWhite);
    } else {
      var first, rest := types[0], types[1..];
      assert types == [first] + rest && first in types && forall t <- rest :: t in types;
      SameLetters(first, rel);
      if rest == [] {
        SplitWhole(first, IsAsciiWhite);
      } else {
        SplitFirst(first, ' ', Spaced(rest), IsAsciiWhite);
        DeclaresExactly(rest, rel);
      }
    }
  }

  lemma BareToken(token: string, separator: string)
    requires IsToken(token) && separator in {"", ", "}
    ensures Unquoted(token + separator) == token
  {
    assert token[0] in token && token[|token| - 1] in token;
    assert !IsWhite(',');
    if separator == "" {
      assert token + separator == token;
      assert Trim(token) == token == TrimEndCommas(token) == TrimStartQuotes(token) == TrimEndQuotes(token);
    } else {
      var comma := token + ",";
      assert comma[0] == token[0] && comma[|comma| - 1] == ',';
      TrimOneSpace(comma);
      assert comma + " " == token + separator;
      TrimOneComma(token);
      assert Trim(token) == token == TrimStartQuotes(token) == TrimEndQuotes(token);
      hide Trim, TrimEndCommas, TrimStartQuotes, TrimEndQuotes;
    }
  }

  lemma BarePiece(name: string, value: string, rel: string)
    requires '=' !in name && ';' !in name && ';' !in value
    ensures HasRel([';'] + ([' '] + name + ['='] + value), rel) <==> IsRel(name) && Declares(Unquoted(value), rel)
  {
    var piece := [' '] + name + ['='] + value;
    assert [] + [';'] + piece == [';'] + piece && [' '] + name == " " + name && ';' !in piece;
    hide *;
    HasRelApart([], piece, rel);
    HasRelWhole([], rel);
    HasRelWhole(piece, rel);
    UnnamedPiece([], rel);
    NamedPiece([' '] + name, value, rel);
    RelWithSpace(name);
  }

  lemma HasRelWhole(piece: string, rel: string)
    requires ';' !in piece
    ensures HasRel(piece, rel) <==> PieceHasRel(piece, rel)
  {
    hide PieceHasRel;
    SplitWhole(piece, IsSemicolon);
  }

  lemma NamedRel(name: string)
    requires name != "" && !IsWhite(name[0]) && !IsWhite(name[|name| - 1])
    ensures IsRel(name) <==>
              |name| == 3 && SameLetter(name[0], 'r') && SameLetter(name[1], 'e') && SameLetter(name[2], 'l')
  {
    hide Trim, SameIgnoringCase, SameLetter;
    TrimBlank("", name, "");
    assert "" + name + "" == name;
    SameLetters(name, "rel");
  }

  /** A relation type may be written bare, in either case, and another link may follow it. */
  lemma BareValueIsRead(name: string, token: string, separator: string, rel: string)
    requires IsToken(token) && separator in {"", ", "}
    requires name != "" && '=' !in name && ';' !in name && !IsWhite(name[0]) && !IsWhite(name[|name| - 1])
    ensures HasRel([';'] + ([' '] + name + ['='] + (token + separator)), rel) <==>
              && |name| == 3 && SameLetter(name[0], 'r') && SameLetter(name[1], 'e') && SameLetter(name[2], 'l')
              && |token| == |rel| && forall i :: 0 <= i < |rel| ==> SameLetter(token[i], rel[i])
  {
    assert ';' !in token + separator && forall c <- token :: !IsAsciiWhite(c);
    hide *;
    BarePiece(name, token + separator, rel);
    NamedRel(name);
    BareToken(token, separator);
    DeclaresOne(token, rel);
  }

  lemma DeclaresOne(token: string, rel: string)
    requires IsToken(token)
    ensures Declares(token, rel) <==> |token| == |rel| && forall i :: 0 <= i < |rel| ==> SameLetter(token[i], rel[i])
  {
    hide SameLetter, SameIgnoringCase, Split;
    SplitWhole(token, IsAsciiWhite);
    SameLetters(token, rel);
  }
}
