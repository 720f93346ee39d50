/**
  The Telegram rendering of backend/notifications.py (_send_telegram): HTML escaping, then
  two passes that split the text at a marker, wrap every odd part in tags and join again.
*/
module TelegramMarkup {
  import opened Text

  const BOLD_MARK := "**"
  const CODE_MARK := "`"

  /** html.escape with quotes. */
  function EscapeChar(c: char): string {
    if c == '&' then "&amp;"
    else if c == '<' then "&lt;"
    else if c == '>' then "&gt;"
    else if c == '\"' then "&quot;"
    else if c == '\'' then "&#x27;"
    else [c]
  }

  function EscapeHtml(s: string): string {
    if s == "" then "" else EscapeChar(s[0]) + EscapeHtml(s[1..])
  }

  /** Every odd part wrapped, as the loops do; `odd` is the parity of the first part. */
  function WrapOdd(parts: seq<string>, open: string, close: string, odd: bool): seq<string> {
    if parts == [] then []
    else [if odd then open + parts[0] + close else parts[0]] + WrapOdd(parts[1..], open, close, !odd)
  }

  function Toggle(s: string, mark: string, open: string, close: string): string
    requires mark != ""
  {
    Join(WrapOdd(Split(s, mark), open, close, false))
  }

  function Rendering(message: string): string {
    Toggle(Toggle(EscapeHtml(message), BOLD_MARK, "<b>", "</b>"), CODE_MARK, "<code>", "</code>")
  }

  /** The loop that assigns parts[i] for odd i. */
  method WrapParts(s: string, mark: string, open: string, close: string) returns (html: string)
    requires mark != ""
    ensures html == Toggle(s, mark, open, close)
  {
    var split := Split(s, mark);
    var parts := split;
    var i := 1;
    while i < |parts|
      invariant 1 <= i <= |parts| + 1 && i % 2 == 1
      invariant |parts| == |split|
      invariant forall k | 0 <= k < |parts| ::
                  parts[k] == if k < i && k % 2 == 1 then open + split[k] + close else split[k]
    {
      parts := parts[i := open + parts[i] + close];
      i := i + 2;
    }
    WrapOddAt(split, open, close, false);
    assert parts == WrapOdd(split, open, close, false);
    html := Join(parts);
  }

  lemma {:induction false} WrapOddAt(parts: seq<string>, open: string, close: string, odd: bool)
    ensures |WrapOdd(parts, open, close, odd)| == |parts|
    ensures forall k | 0 <= k < |parts| ::
              WrapOdd(parts, open, close, odd)[k] ==
              if (k % 2 == 1) != odd then open + parts[k] + close else parts[k]
  {
    if parts != [] {
      WrapOddAt(parts[1..], open, close, !odd);
      var rest := WrapOdd(parts[1..], open, close, !odd);
      forall k | 0 < k < |parts|
        ensures WrapOdd(parts, open, close, odd)[k] == rest[k - 1] && parts[k] == parts[1..][k - 1]
      {
      }
    }
  }

  method RenderTelegram(message: string) returns (html: string)
    ensures html == Rendering(message)
  {
    html := EscapeHtml(message);
    html := WrapParts(html, BOLD_MARK, "<b>", "</b>");
    html := WrapParts(html, CODE_MARK, "<code>", "</code>");
  }

  // ---------------------------------------------------------------- characters and tags

  datatype Kind = Bold | Code

  datatype Piece = Char(c: char) | Tag(kind: Kind, open: bool)

  function TagText(kind: Kind, open: bool): string {
    match kind
    case Bold => if open then "<b>" else "</b>"
    case Code => if open then "<code>" else "</code>"
  }

  function Show(p: Piece): string {
    match p
    case Char(c) => [c]
    case Tag(kind, open) => TagText(kind, open)
  }

  function Flat(ps: seq<Piece>): string {
    if ps == [] then "" else Show(ps[0]) + Flat(ps[1..])
  }

  function EndTag(kind: Kind, on: bool): seq<Piece> {
    if on then [Tag(kind, false)] else []
  }

  /** The first pass, read from left to right: each marker opens or closes. */
  function BoldPieces(s: string, on: bool): seq<Piece> {
    if s == "" then EndTag(Bold, on)
    else if StartsWith(s, BOLD_MARK) then [Tag(Bold, !on)] + BoldPieces(s[2..], !on)
    else [Char(s[0])] + BoldPieces(s[1..], on)
  }

  /** The second pass. */
  function CodePieces(ps: seq<Piece>, on: bool): seq<Piece> {
    if ps == [] then EndTag(Code, on)
    else if ps[0] == Char('`') then [Tag(Code, !on)] + CodePieces(ps[1..], !on)
    else [ps[0]] + CodePieces(ps[1..], on)
  }

  function Pieces(message: string): seq<Piece> {
    CodePieces(BoldPieces(EscapeHtml(message), false), false)
  }

  /** The wrapped parts joined, given whether the first one is inside the tags. */
  function Marked(parts: seq<string>, open: string, close: string, on: bool): string
    requires parts != []
  {
    if |parts| == 1 then parts[0] + (if on then close else "")
    else parts[0] + (if on then close else open) + Marked(parts[1..], open, close, !on)
  }

  lemma {:induction false} JoinIsMarked(parts: seq<string>, open: string, close: string, on: bool)
    requires parts != []
    ensures Join(WrapOdd(parts, open, close, on)) == (if on then open else "") + Marked(parts, open, close, on)
  {
    if |parts| == 1 {
      assert WrapOdd(parts[1..], open, close, !on) == [];
    } else {
      JoinIsMarked(parts[1..], open, close, !on);
    }
  }

  lemma MarkedHead(c: char, rest: seq<string>, open: string, close: string, on: bool)
    requires rest != []
    ensures Marked([[c] + rest[0]] + rest[1..], open, close, on) == [c] + Marked(rest, open, close, on)
  {
    var parts := [[c] + rest[0]] + rest[1..];
    assert parts[1..] == rest[1..];
  }

  lemma SplitAtMark(mark: string, rest: string, open: string, close: string, on: bool)
    requires mark != ""
    ensures Marked(Split(mark + rest, mark), open, close, on) ==
            (if on then close else open) + Marked(Split(rest, mark), open, close, !on)
  {
    var s := mark + rest;
    assert s[..|mark|] == mark && s[|mark|..] == rest;
    var parts := Split(rest, mark);
    assert ([""] + parts)[1..] == parts;
    assert "" + (if on then close else open) == if on then close else open;
  }

  lemma FlatCons(p: Piece, ps: seq<Piece>)
    ensures Flat([p] + ps) == Show(p) + Flat(ps)
  {
    assert ([p] + ps)[1..] == ps;
  }

  lemma FlatEnd(kind: Kind, on: bool)
    ensures Flat(EndTag(kind, on)) == if on then TagText(kind, false) else ""
  {
    if on {
      FlatCons(Tag(kind, false), []);
      assert [Tag(kind, false)] + [] == [Tag(kind, false)];
      assert TagText(kind, false) + "" == TagText(kind, false);
    }
  }

  lemma {:induction false} BoldPass(s: string, on: bool)
    ensures Marked(Split(s, BOLD_MARK), "<b>", "</b>", on) == Flat(BoldPieces(s, on))
  {
    if s == "" {
      FlatEnd(Bold, on);
    } else if StartsWith(s, BOLD_MARK) {
      BoldPass(s[2..], !on);
      assert s == BOLD_MARK + s[2..];
      SplitAtMark(BOLD_MARK, s[2..], "<b>", "</b>", on);
      FlatCons(Tag(Bold, !on), BoldPieces(s[2..], !on));
    } else {
      BoldPass(s[1..], on);
      MarkedHead(s[0], Split(s[1..], BOLD_MARK), "<b>", "</b>", on);
      FlatCons(Char(s[0]), BoldPieces(s[1..], on));
    }
  }

  /** Text without the marker goes through the splitting unchanged. */
  lemma {:induction false} MarkedSkips(t: string, s: string, on: bool)
    requires '`' !in t
    ensures Marked(Split(t + s, CODE_MARK), "<code>", "</code>", on) ==
            t + Marked(Split(s, CODE_MARK), "<code>", "</code>", on)
  {
    if t == "" {
      assert t + s == s;
    } else {
      assert (t + s)[0] == t[0] && (t + s)[1..] == t[1..] + s;
      MarkedSkips(t[1..], s, on);
      MarkedHead(t[0], Split(t[1..] + s, CODE_MARK), "<code>", "</code>", on);
    }
  }

  lemma {:induction false} CodePass(ps: seq<Piece>, on: bool)
    ensures Marked(Split(Flat(ps), CODE_MARK), "<code>", "</code>", on) == Flat(CodePieces(ps, on))
  {
    if ps == [] {
      FlatEnd(Code, on);
    } else if ps[0] == Char('`') {
      CodePass(ps[1..], !on);
      SplitAtMark(CODE_MARK, Flat(ps[1..]), "<code>", "</code>", on);
      FlatCons(Tag(Code, !on), CodePieces(ps[1..], !on));
    } else {
      CodePass(ps[1..], on);
      MarkedSkips(Show(ps[0]), Flat(ps[1..]), on);
      FlatCons(ps[0], CodePieces(ps[1..], on));
    }
  }

  lemma ToggleIsMarked(s: string, mark: string, open: string, close: string)
    requires mark != ""
    ensures Toggle(s, mark, open, close) == Marked(Split(s, mark), open, close, false)
  {
    JoinIsMarked(Split(s, mark), open, close, false);
  }

  /** The rendering, as characters and tags. */
  lemma RenderingIsPieces(message: string)
    ensures Rendering(message) == Flat(Pieces(message))
  {
    var s := EscapeHtml(message);
    ToggleIsMarked(s, BOLD_MARK, "<b>", "</b>");
    BoldPass(s, false);
    ToggleIsMarked(Flat(BoldPieces(s, false)), CODE_MARK, "<code>", "</code>");
    CodePass(BoldPieces(s, false), false);
  }

  // ---------------------------------------------------------------- reading the rendering back

  /** The tag that a text starts with, if it does. */
  predicate TagAt(s: string, kind: Kind, open: bool) {
    StartsWith(s, TagText(kind, open))
  }

  predicate SomeTagAt(s: string) {
    TagAt(s, Bold, true) || TagAt(s, Bold, false) || TagAt(s, Code, true) || TagAt(s, Code, false)
  }

  /** The text with every tag deleted, found by scanning the string. */
  function StripTags(s: string): string {
    if s == "" then ""
    else if TagAt(s, Bold, true) then StripTags(s[3..])
    else if TagAt(s, Bold, false) then StripTags(s[4..])
    else if TagAt(s, Code, true) then StripTags(s[6..])
    else if TagAt(s, Code, false) then StripTags(s[7..])
    else [s[0]] + StripTags(s[1..])
  }

  /** The tags of a text in order, found by scanning the string. */
  function TagsOf(s: string): seq<Piece> {
    if s == "" then []
    else if TagAt(s, Bold, true) then [Tag(Bold, true)] + TagsOf(s[1..])
    else if TagAt(s, Bold, false) then [Tag(Bold, false)] + TagsOf(s[1..])
    else if TagAt(s, Code, true) then [Tag(Code, true)] + TagsOf(s[1..])
    else if TagAt(s, Code, false) then [Tag(Code, false)] + TagsOf(s[1..])
    else TagsOf(s[1..])
  }

  ghost predicate EveryLtStartsTag(s: string) {
    forall i | 0 <= i < |s| :: s[i] == '<' ==> SomeTagAt(s[i..])
  }

  predicate NoLt(ps: seq<Piece>) {
    forall k | 0 <= k < |ps| :: ps[k] != Char('<')
  }

  function CharsOf(ps: seq<Piece>): string {
    if ps == [] then ""
    else if ps[0].Char? then [ps[0].c] + CharsOf(ps[1..])
    else CharsOf(ps[1..])
  }

  function OnlyTags(ps: seq<Piece>): seq<Piece> {
    if ps == [] then []
    else if ps[0].Tag? then [ps[0]] + OnlyTags(ps[1..])
    else OnlyTags(ps[1..])
  }

  /** A tag is recognised as itself and as no other. */
  lemma TagRecognised(kind: Kind, open: bool, rest: string)
    ensures var s := TagText(kind, open) + rest;
            && (forall k, o :: TagAt(s, k, o) <==> k == kind && o == open)
            && s[|TagText(kind, open)|..] == rest
  {
    var s := TagText(kind, open) + rest;
    assert s[..|TagText(kind, open)|] == TagText(kind, open);
    forall k, o ensures TagAt(s, k, o) <==> k == kind && o == open {
      if TagAt(s, k, o) {
        assert s[1] == s[..|TagText(k, o)|][1] == TagText(k, o)[1];
        assert s[2] == s[..|TagText(k, o)|][2] == TagText(k, o)[2];
      }
    }
  }

  lemma CharIsNoTag(c: char, rest: string)
    requires c != '<'
    ensures !SomeTagAt([c] + rest)
  {
    forall k, o ensures !TagAt([c] + rest, k, o) {
      if TagAt([c] + rest, k, o) {
        StartsWithHead([c] + rest, TagText(k, o));
        assert false;
      }
    }
  }

  lemma {:induction false} StripFlat(ps: seq<Piece>)
    requires NoLt(ps)
    ensures StripTags(Flat(ps)) == CharsOf(ps)
  {
    if ps != [] {
      StripFlat(ps[1..]);
      match ps[0]
      case Char(c) =>
        CharIsNoTag(c, Flat(ps[1..]));
        assert Flat(ps)[1..] == Flat(ps[1..]);
      case Tag(kind, open) =>
        TagRecognised(kind, open, Flat(ps[1..]));
    }
  }

  /** Scanning past the inside of a tag finds no further tag. */
  lemma {:induction false} TagsSkip(t: string, rest: string)
    requires '<' !in t
    ensures TagsOf(t + rest) == TagsOf(rest)
  {
    if t == "" {
      assert t + rest == rest;
    } else {
      assert t + rest == [t[0]] + (t[1..] + rest);
      CharIsNoTag(t[0], t[1..] + rest);
      TagsSkip(t[1..], rest);
    }
  }

  lemma TagsOfTag(kind: Kind, open: bool, rest: string)
    ensures TagsOf(TagText(kind, open) + rest) == [Tag(kind, open)] + TagsOf(rest)
  {
    TagRecognised(kind, open, rest);
    var t := TagText(kind, open);
    assert (t + rest)[1..] == t[1..] + rest;
    TagsSkip(t[1..], rest);
  }

  lemma {:induction false} TagsFlat(ps: seq<Piece>)
    requires NoLt(ps)
    ensures TagsOf(Flat(ps)) == OnlyTags(ps)
  {
    if ps != [] {
      TagsFlat(ps[1..]);
      var rest := Flat(ps[1..]);
      match ps[0]
      case Char(c) =>
        TagsSkip([c], rest);
      case Tag(kind, open) =>
        TagsOfTag(kind, open, rest);
    }
  }

  lemma {:induction false} LtFlat(ps: seq<Piece>)
    requires NoLt(ps)
    ensures EveryLtStartsTag(Flat(ps))
  {
    if ps != [] {
      LtFlat(ps[1..]);
      var t, rest := Show(ps[0]), Flat(ps[1..]);
      var s := Flat(ps);
      forall i | 0 <= i < |s| && s[i] == '<' ensures SomeTagAt(s[i..]) {
        if i >= |t| {
          assert rest[i - |t|] == '<';
          assert s[i..] == rest[i - |t|..];
        } else {
          assert t[i] == '<';
          assert ps[0].Tag? && i == 0;
          TagRecognised(ps[0].kind, ps[0].open, rest);
          assert s[0..] == s;
        }
      }
    }
  }

  // ---------------------------------------------------------------- what the passes keep

  lemma {:induction false} EscapeHtmlSafe(s: string)
    ensures '<' !in EscapeHtml(s) && '>' !in EscapeHtml(s)
  {
    if s != "" {
      EscapeHtmlSafe(s[1..]);
      assert '<' !in EscapeChar(s[0]) && '>' !in EscapeChar(s[0]);
    }
  }

  lemma {:induction false} BoldNoLt(s: string, on: bool)
    requires '<' !in s
    ensures NoLt(BoldPieces(s, on))
  {
    if s == "" {
    } else if StartsWith(s, BOLD_MARK) {
      assert '<' !in s[2..];
      BoldNoLt(s[2..], !on);
    } else {
      assert '<' !in s[1..];
      BoldNoLt(s[1..], on);
    }
  }

  lemma {:induction false} CodeNoLt(ps: seq<Piece>, on: bool)
    requires NoLt(ps)
    ensures NoLt(CodePieces(ps, on))
  {
    if ps != [] {
      CodeNoLt(ps[1..], if ps[0] == Char('`') then !on else on);
    }
  }

  lemma PiecesNoLt(message: string)
    ensures NoLt(Pieces(message))
  {
    EscapeHtmlSafe(message);
    BoldNoLt(EscapeHtml(message), false);
    CodeNoLt(BoldPieces(EscapeHtml(message), false), false);
  }

  lemma {:induction false} BoldChars(s: string, on: bool)
    ensures CharsOf(BoldPieces(s, on)) == Replace(s, BOLD_MARK, "")
  {
    if s == "" {
      assert CharsOf([Tag(Bold, false)]) == "" by { assert [Tag(Bold, false)][1..] == []; }
    } else if StartsWith(s, BOLD_MARK) {
      BoldChars(s[2..], !on);
      assert BoldPieces(s, on)[1..] == BoldPieces(s[2..], !on);
    } else {
      BoldChars(s[1..], on);
      assert BoldPieces(s, on)[1..] == BoldPieces(s[1..], on);
    }
  }

  lemma {:induction false} CodeChars(ps: seq<Piece>, on: bool)
    ensures CharsOf(CodePieces(ps, on)) == Replace(CharsOf(ps), CODE_MARK, "")
  {
    if ps == [] {
      assert CharsOf([Tag(Code, false)]) == "" by { assert [Tag(Code, false)][1..] == []; }
    } else if ps[0] == Char('`') {
      CodeChars(ps[1..], !on);
      assert CodePieces(ps, on)[1..] == CodePieces(ps[1..], !on);
      ReplaceHits(CharsOf(ps[1..]), CODE_MARK, "");
    } else {
      CodeChars(ps[1..], on);
      assert CodePieces(ps, on)[1..] == CodePieces(ps[1..], on);
      if ps[0].Char? {
        ReplaceSkips([ps[0].c], CharsOf(ps[1..]), CODE_MARK, "");
      }
    }
  }

  // ---------------------------------------------------------------- alternation

  /** The open/close flags of the tags of one kind. */
  function Flags(tags: seq<Piece>, kind: Kind): seq<bool> {
    if tags == [] then []
    else if tags[0].Tag? && tags[0].kind == kind then [tags[0].open] + Flags(tags[1..], kind)
    else Flags(tags[1..], kind)
  }

  /** Open, close, open, close, ..., ending closed; `on`: already open. */
  predicate Alternates(flags: seq<bool>, on: bool) {
    if flags == [] then !on else flags[0] == !on && Alternates(flags[1..], !on)
  }

  lemma {:induction false} FlagsOnlyTags(ps: seq<Piece>, kind: Kind)
    ensures Flags(OnlyTags(ps), kind) == Flags(ps, kind)
  {
    if ps != [] {
      FlagsOnlyTags(ps[1..], kind);
      if ps[0].Tag? {
        assert OnlyTags(ps)[1..] == OnlyTags(ps[1..]);
      }
    }
  }

  lemma {:induction false} BoldAlternates(s: string, on: bool)
    ensures Alternates(Flags(BoldPieces(s, on), Bold), on)
    ensures Flags(BoldPieces(s, on), Code) == []
  {
    if s == "" {
      if on {
        assert [Tag(Bold, false)][1..] == [];
        assert Flags([Tag(Bold, false)], Bold) == [false];
        assert [false][1..] == [];
      }
    } else if StartsWith(s, BOLD_MARK) {
      BoldAlternates(s[2..], !on);
      assert BoldPieces(s, on)[1..] == BoldPieces(s[2..], !on);
      assert Flags(BoldPieces(s, on), Bold)[1..] == Flags(BoldPieces(s[2..], !on), Bold);
    } else {
      BoldAlternates(s[1..], on);
      assert BoldPieces(s, on)[1..] == BoldPieces(s[1..], on);
    }
  }

  lemma {:induction false} CodeAlternates(ps: seq<Piece>, on: bool)
    requires Flags(ps, Code) == []
    ensures Alternates(Flags(CodePieces(ps, on), Code), on)
    ensures Flags(CodePieces(ps, on), Bold) == Flags(ps, Bold)
  {
    if ps == [] {
      if on {
        assert [Tag(Code, false)][1..] == [];
        assert Flags([Tag(Code, false)], Code) == [false];
        assert [false][1..] == [];
      }
    } else {
      var on' := if ps[0] == Char('`') then !on else on;
      CodeAlternates(ps[1..], on');
      assert CodePieces(ps, on)[1..] == CodePieces(ps[1..], on');
      if on' != on {
        assert Flags(CodePieces(ps, on), Code)[1..] == Flags(CodePieces(ps[1..], on'), Code);
      }
    }
  }

  /** For every message: without its tags the rendering is the escaped message without its
      markers; every '<' starts a tag; bold and code tags each alternate and end closed. */
  lemma RenderingReadsBack(message: string)
    ensures StripTags(Rendering(message)) ==
            Replace(Replace(EscapeHtml(message), BOLD_MARK, ""), CODE_MARK, "")
    ensures EveryLtStartsTag(Rendering(message))
    ensures Alternates(Flags(TagsOf(Rendering(message)), Bold), false)
    ensures Alternates(Flags(TagsOf(Rendering(message)), Code), false)
  {
    var s, ps := EscapeHtml(message), Pieces(message);
    var bs := BoldPieces(s, false);
    RenderingIsPieces(message);
    PiecesNoLt(message);
    StripFlat(ps);
    BoldChars(s, false);
    CodeChars(bs, false);
    LtFlat(ps);
    TagsFlat(ps);
    BoldAlternates(s, false);
    CodeAlternates(bs, false);
    FlagsOnlyTags(ps, Bold);
    FlagsOnlyTags(ps, Code);
  }

  // ---------------------------------------------------------------- nesting

  /** The tags close in the reverse order of opening, given the tags still open. */
  predicate Nested(tags: seq<Piece>, open: seq<Kind>) {
    if tags == [] then open == []
    else
      match tags[0]
      case Char(_) => Nested(tags[1..], open)
      case Tag(kind, true) => Nested(tags[1..], open + [kind])
      case Tag(kind, false) =>
        open != [] && open[|open| - 1] == kind && Nested(tags[1..], open[..|open| - 1])
  }

  function Backticks(s: string): nat {
    if s == "" then 0 else (if s[0] == '`' then 1 else 0) + Backticks(s[1..])
  }

  /** What each bold part may contain: an even number of backticks, or none at all when a
      code span is open around it. `bold`: the first part is bold; `code`: a span is open. */
  predicate PartsNest(parts: seq<string>, bold: bool, code: bool) {
    parts == [] ||
    (var n := Backticks(parts[0]);
     && (bold ==> if code then n == 0 else n % 2 == 0)
     && PartsNest(parts[1..], !bold, code != (n % 2 == 1)))
  }

  /** PartsNest when t backticks of the first part have been read already. */
  predicate NestFrom(parts: seq<string>, bold: bool, code: bool, t: nat)
    requires parts != []
  {
    var n := t + Backticks(parts[0]);
    && (bold ==> if code then n == 0 else n % 2 == 0)
    && PartsNest(parts[1..], !bold, code != (n % 2 == 1))
  }

  /** The tags open while a part is being read: `code` tells whether a span was open when the
      bold part began (or is open now, outside bold). */
  function OpenTags(bold: bool, code: bool, t: nat): seq<Kind> {
    if !bold then if code then [Code] else []
    else if code then [Code, Bold]
    else if t % 2 == 0 then [Bold] else [Bold, Code]
  }

  lemma NestCodeEnd(on: bool)
    ensures Nested(EndTag(Code, on), if on then [Code] else [])
  {
    if on {
      assert EndTag(Code, on)[1..] == [] && [Code][..0] == [];
    }
  }

  lemma NestEnd(bold: bool, code: bool, t: nat)
    requires if bold then code ==> t == 0 else t == 0
    ensures Nested(CodePieces(EndTag(Bold, bold), code != (t % 2 == 1)), OpenTags(bold, code, t))
            <==> NestFrom([""], bold, code, t)
  {
    var c := code != (t % 2 == 1);
    if bold {
      assert EndTag(Bold, bold)[1..] == [];
      assert CodePieces([], c) == EndTag(Code, c);
      var ps := CodePieces(EndTag(Bold, bold), c);
      assert ps == [Tag(Bold, false)] + EndTag(Code, c);
      assert ps[1..] == EndTag(Code, c);
    }
    NestCodeEnd(c);
    var open := OpenTags(bold, code, t);
    if bold {
      if open[|open| - 1] == Bold {
        assert open[..|open| - 1] == if c then [Code] else [];
      }
    } else {
      assert CodePieces(EndTag(Bold, bold), c) == EndTag(Code, c);
    }
    assert [""][1..] == [] && Backticks("") == 0;
  }

  /** What reading one character that starts no marker does to the pieces. */
  lemma CharPieces(s: string, bold: bool, c: bool)
    requires s != "" && !StartsWith(s, BOLD_MARK)
    ensures CodePieces(BoldPieces(s, bold), c) ==
            (if s[0] == '`' then [Tag(Code, !c)] + CodePieces(BoldPieces(s[1..], bold), !c)
             else [Char(s[0])] + CodePieces(BoldPieces(s[1..], bold), c))
  {
    assert BoldPieces(s, bold)[1..] == BoldPieces(s[1..], bold);
  }

  lemma SplitChar(s: string)
    requires s != "" && !StartsWith(s, BOLD_MARK)
    ensures var rest := Split(s[1..], BOLD_MARK); Split(s, BOLD_MARK) == [[s[0]] + rest[0]] + rest[1..]
  {
  }

  lemma NestHead(x: char, parts: seq<string>, bold: bool, code: bool, t: nat)
    requires parts != []
    ensures NestFrom([[x] + parts[0]] + parts[1..], bold, code, t) <==>
            NestFrom(parts, bold, code, t + if x == '`' then 1 else 0)
  {
    var longer := [[x] + parts[0]] + parts[1..];
    assert longer[0][1..] == parts[0] && longer[1..] == parts[1..];
    assert Backticks(longer[0]) == (if x == '`' then 1 else 0) + Backticks(parts[0]);
  }

  /** What it does to the parts. */
  lemma CharParts(s: string, bold: bool, code: bool, t: nat)
    requires s != "" && !StartsWith(s, BOLD_MARK)
    ensures NestFrom(Split(s, BOLD_MARK), bold, code, t) <==>
            NestFrom(Split(s[1..], BOLD_MARK), bold, code, t + if s[0] == '`' then 1 else 0)
  {
    var parts := Split(s[1..], BOLD_MARK);
    SplitChar(s);
    NestHead(s[0], parts, bold, code, t);
  }

  lemma NestedTag(kind: Kind, opens: bool, tags: seq<Piece>, open: seq<Kind>)
    ensures Nested([Tag(kind, opens)] + tags, open) <==>
            if opens then Nested(tags, open + [kind])
            else open != [] && open[|open| - 1] == kind && Nested(tags, open[..|open| - 1])
  {
    assert ([Tag(kind, opens)] + tags)[1..] == tags;
  }

  /** The tags read from here on nest. */
  predicate StreamNests(s: string, bold: bool, code: bool, t: nat) {
    Nested(CodePieces(BoldPieces(s, bold), code != (t % 2 == 1)), OpenTags(bold, code, t))
  }

  lemma {:induction false} NestStream(s: string, bold: bool, code: bool, t: nat)
    requires if bold then code ==> t == 0 else t == 0
    ensures StreamNests(s, bold, code, t) <==> NestFrom(Split(s, BOLD_MARK), bold, code, t)
    decreases |s|
  {
    if s == "" {
      NestEnd(bold, code, t);
    } else if StartsWith(s, BOLD_MARK) {
      NestStream(s[2..], !bold, code != (t % 2 == 1), 0);
      NestMark(s, bold, code, t);
    } else {
      CharParts(s, bold, code, t);
      if s[0] != '`' {
        PlainNests(s, bold, code, t);
        NestStream(s[1..], bold, code, t);
      } else {
        TickNests(s, bold, code, t);
        TickCounts(Split(s[1..], BOLD_MARK), code, t);
        if bold && !code {
          NestStream(s[1..], bold, code, t + 1);
        } else if !bold {
          NestStream(s[1..], bold, !code, 0);
        }
      }
    }
  }

  lemma PlainNests(s: string, bold: bool, code: bool, t: nat)
    requires s != "" && !StartsWith(s, BOLD_MARK) && s[0] != '`'
    ensures StreamNests(s, bold, code, t) <==> StreamNests(s[1..], bold, code, t)
  {
    var c := code != (t % 2 == 1);
    CharPieces(s, bold, c);
    var ps := CodePieces(BoldPieces(s[1..], bold), c);
    assert ([Char(s[0])] + ps)[1..] == ps;
  }

  /** A backtick cannot close a span that was opened before the bold part. */
  lemma TickNests(s: string, bold: bool, code: bool, t: nat)
    requires if bold then code ==> t == 0 else t == 0
    requires s != "" && !StartsWith(s, BOLD_MARK) && s[0] == '`'
    ensures StreamNests(s, bold, code, t) <==>
            if bold then !code && StreamNests(s[1..], bold, code, t + 1) else StreamNests(s[1..], bold, !code, 0)
  {
    var c := code != (t % 2 == 1);
    CharPieces(s, bold, c);
    NestedTag(Code, !c, CodePieces(BoldPieces(s[1..], bold), !c), OpenTags(bold, code, t));
    TickInBold(t);
    assert [Code][..0] == [] && [] + [Code] == [Code];
  }

  lemma TickCounts(parts: seq<string>, code: bool, t: nat)
    requires parts != []
    ensures NestFrom(parts, false, code, 1) <==> NestFrom(parts, false, !code, 0)
    ensures !NestFrom(parts, true, true, t + 1)
  {
  }

  lemma TickInBold(t: nat)
    ensures var open := OpenTags(true, false, t);
            OpenTags(true, false, t + 1) == if t % 2 == 1 then open[..|open| - 1] else open + [Code]
  {
  }

  /** The step of NestStream at a bold marker. */
  lemma NestMark(s: string, bold: bool, code: bool, t: nat)
    requires if bold then code ==> t == 0 else t == 0
    requires s != "" && StartsWith(s, BOLD_MARK)
    requires var c := code != (t % 2 == 1);
             StreamNests(s[2..], !bold, c, 0) <==> NestFrom(Split(s[2..], BOLD_MARK), !bold, c, 0)
    ensures StreamNests(s, bold, code, t) <==> NestFrom(Split(s, BOLD_MARK), bold, code, t)
  {
    MarkNests(s, bold, code, t);
    MarkCounts(s, bold, code, t);
  }

  lemma MarkNests(s: string, bold: bool, code: bool, t: nat)
    requires if bold then code ==> t == 0 else t == 0
    requires s != "" && StartsWith(s, BOLD_MARK)
    ensures StreamNests(s, bold, code, t) <==>
            (bold ==> if code then t == 0 else t % 2 == 0) && StreamNests(s[2..], !bold, code != (t % 2 == 1), 0)
  {
    var c := code != (t % 2 == 1);
    var open := OpenTags(bold, code, t);
    var ps := CodePieces(BoldPieces(s[2..], !bold), c);
    MarkPieces(s, bold, c);
    NestedTag(Bold, !bold, ps, open);
    if !bold {
      assert open + [Bold] == OpenTags(true, c, 0);
    } else if open[|open| - 1] == Bold {
      assert open[..|open| - 1] == OpenTags(false, c, 0);
    }
  }

  lemma MarkPieces(s: string, bold: bool, c: bool)
    requires s != "" && StartsWith(s, BOLD_MARK)
    ensures CodePieces(BoldPieces(s, bold), c) == [Tag(Bold, !bold)] + CodePieces(BoldPieces(s[2..], !bold), c)
  {
    assert BoldPieces(s, bold)[1..] == BoldPieces(s[2..], !bold);
  }

  lemma MarkCounts(s: string, bold: bool, code: bool, t: nat)
    requires s != "" && StartsWith(s, BOLD_MARK)
    ensures NestFrom(Split(s, BOLD_MARK), bold, code, t) <==>
            (bold ==> if code then t == 0 else t % 2 == 0) &&
            NestFrom(Split(s[2..], BOLD_MARK), !bold, code != (t % 2 == 1), 0)
  {
    var rest := Split(s[2..], BOLD_MARK);
    assert s == BOLD_MARK + s[2..];
    SplitMark(s[2..]);
    assert ([""] + rest)[1..] == rest;
  }

  lemma {:induction false} NestedOnlyTags(ps: seq<Piece>, open: seq<Kind>)
    ensures Nested(OnlyTags(ps), open) <==> Nested(ps, open)
  {
    if ps != [] {
      match ps[0]
      case Char(_) => NestedOnlyTags(ps[1..], open);
      case Tag(kind, true) =>
        assert OnlyTags(ps)[1..] == OnlyTags(ps[1..]);
        NestedOnlyTags(ps[1..], open + [kind]);
      case Tag(kind, false) =>
        assert OnlyTags(ps)[1..] == OnlyTags(ps[1..]);
        if open != [] {
          NestedOnlyTags(ps[1..], open[..|open| - 1]);
        }
    }
  }

  // Escaping keeps the markers where they are.

  function EscapeAll(parts: seq<string>): seq<string> {
    if parts == [] then [] else [EscapeHtml(parts[0])] + EscapeAll(parts[1..])
  }

  lemma {:induction false} SplitSkips(t: string, s: string)
    requires '*' !in t
    ensures var rest := Split(s, BOLD_MARK); Split(t + s, BOLD_MARK) == [t + rest[0]] + rest[1..]
  {
    var rest := Split(s, BOLD_MARK);
    if t == "" {
      assert t + s == s;
      assert t + rest[0] == rest[0];
      assert [rest[0]] + rest[1..] == rest;
    } else {
      var u := t + s;
      assert u[0] == t[0] && u[1..] == t[1..] + s;
      SplitSkips(t[1..], s);
      if StartsWith(u, BOLD_MARK) {
        StartsWithHead(u, BOLD_MARK);
        assert false;
      }
      assert [t[0]] + (t[1..] + rest[0]) == t + rest[0];
    }
  }

  /** At a marker, the split part before it is empty. */
  lemma SplitMark(s: string)
    ensures Split(BOLD_MARK + s, BOLD_MARK) == [""] + Split(s, BOLD_MARK)
  {
    assert (BOLD_MARK + s)[..2] == BOLD_MARK && (BOLD_MARK + s)[2..] == s;
  }

  lemma EscapeAllCons(part: string, parts: seq<string>)
    ensures EscapeAll([part] + parts) == [EscapeHtml(part)] + EscapeAll(parts)
  {
    assert ([part] + parts)[1..] == parts;
  }

  lemma EscapeMark(m: string)
    ensures EscapeHtml(BOLD_MARK + m) == BOLD_MARK + EscapeHtml(m)
  {
    var s := BOLD_MARK + m;
    assert s[0] == '*' && s[1..][0] == '*' && s[1..][1..] == m;
  }

  lemma EscapeCons(c: char, rest: string)
    ensures EscapeHtml([c] + rest) == EscapeChar(c) + EscapeHtml(rest)
  {
    assert ([c] + rest)[1..] == rest;
  }

  lemma {:induction false} SplitEscape(m: string)
    ensures Split(EscapeHtml(m), BOLD_MARK) == EscapeAll(Split(m, BOLD_MARK))
    decreases |m|
  {
    if m == "" {
    } else if StartsWith(m, BOLD_MARK) {
      var rest := m[2..];
      SplitEscape(rest);
      assert m == BOLD_MARK + rest;
      EscapeMark(rest);
      SplitMark(rest);
      SplitMark(EscapeHtml(rest));
      EscapeAllCons("", Split(rest, BOLD_MARK));
    } else {
      SplitEscape(m[1..]);
      assert m == [m[0]] + m[1..];
      SplitEscapeChar(m[0], m[1..]);
    }
  }

  /** The step of SplitEscape at a character that starts no marker. */
  lemma SplitEscapeChar(c: char, rest: string)
    requires !StartsWith([c] + rest, BOLD_MARK)
    requires Split(EscapeHtml(rest), BOLD_MARK) == EscapeAll(Split(rest, BOLD_MARK))
    ensures Split(EscapeHtml([c] + rest), BOLD_MARK) == EscapeAll(Split([c] + rest, BOLD_MARK))
  {
    SplitCons(c, rest);
    EscapeAllHead(c, Split(rest, BOLD_MARK));
    EscapeCons(c, rest);
    NoNewMark(c, rest);
    SplitEscapedHead(c, EscapeHtml(rest));
  }

  lemma EscapeAllHead(c: char, parts: seq<string>)
    requires parts != []
    ensures EscapeAll([[c] + parts[0]] + parts[1..]) ==
            [EscapeChar(c) + EscapeAll(parts)[0]] + EscapeAll(parts)[1..]
  {
    EscapeAllCons([c] + parts[0], parts[1..]);
    EscapeCons(c, parts[0]);
    EscapeAllCons(parts[0], parts[1..]);
    assert [parts[0]] + parts[1..] == parts;
  }

  lemma SplitCons(c: char, rest: string)
    requires !StartsWith([c] + rest, BOLD_MARK)
    ensures var parts := Split(rest, BOLD_MARK);
            Split([c] + rest, BOLD_MARK) == [[c] + parts[0]] + parts[1..]
  {
    assert ([c] + rest)[1..] == rest;
    SplitChar([c] + rest);
  }

  lemma SplitEscapedHead(c: char, e: string)
    requires c != '*' || !StartsWith([c] + e, BOLD_MARK)
    ensures var parts := Split(e, BOLD_MARK);
            Split(EscapeChar(c) + e, BOLD_MARK) == [EscapeChar(c) + parts[0]] + parts[1..]
  {
    if c != '*' {
      NoStar(c);
      SplitSkips(EscapeChar(c), e);
    } else {
      SplitCons(c, e);
    }
  }

  lemma NoStar(c: char)
    requires c != '*'
    ensures '*' !in EscapeChar(c)
  {
  }

  lemma EscapedStar(m: string)
    ensures EscapeHtml(m) != "" && EscapeHtml(m)[0] == '*' ==> m != "" && m[0] == '*'
  {
  }

  /** Escaping makes no marker where there was none. */
  lemma NoNewMark(c: char, rest: string)
    requires !StartsWith([c] + rest, BOLD_MARK)
    ensures c != '*' || !StartsWith([c] + EscapeHtml(rest), BOLD_MARK)
  {
    var e := EscapeHtml(rest);
    if c == '*' && StartsWith([c] + e, BOLD_MARK) {
      assert ([c] + e)[..2][1] == e[0];
      EscapedStar(rest);
      assert false;
    }
  }

  lemma {:induction false} BackticksConcat(s: string, t: string)
    ensures Backticks(s + t) == Backticks(s) + Backticks(t)
  {
    if s == "" {
      assert s + t == t;
    } else {
      assert (s + t)[1..] == s[1..] + t;
      BackticksConcat(s[1..], t);
    }
  }

  lemma {:induction false} BackticksEscape(s: string)
    ensures Backticks(EscapeHtml(s)) == Backticks(s)
  {
    if s != "" {
      BackticksEscape(s[1..]);
      BackticksConcat(EscapeChar(s[0]), EscapeHtml(s[1..]));
      BackticksInEscape(s[0]);
      assert [s[0]] + s[1..] == s;
      BackticksConcat([s[0]], s[1..]);
    }
  }

  lemma {:induction false} NoBackticks(s: string)
    requires '`' !in s
    ensures Backticks(s) == 0
  {
    if s != "" {
      NoBackticks(s[1..]);
    }
  }

  lemma BackticksInEscape(c: char)
    ensures Backticks(EscapeChar(c)) == Backticks([c])
  {
    if c != '`' {
      NoBackticks([c]);
      NoBackticks(EscapeChar(c));
    }
  }

  lemma {:induction false} PartsNestEscape(parts: seq<string>, bold: bool, code: bool)
    ensures PartsNest(EscapeAll(parts), bold, code) <==> PartsNest(parts, bold, code)
  {
    if parts != [] {
      BackticksEscape(parts[0]);
      assert EscapeAll(parts)[1..] == EscapeAll(parts[1..]);
      PartsNestEscape(parts[1..], !bold, code != (Backticks(parts[0]) % 2 == 1));
    }
  }

  /** Exactly when the tags of a rendering nest: every bold part of the message has an even
      number of backticks, or none if a code span is open around it. */
  lemma NestingIff(message: string)
    ensures Nested(TagsOf(Rendering(message)), []) <==> PartsNest(Split(message, BOLD_MARK), false, false)
  {
    var s, ps := EscapeHtml(message), Pieces(message);
    RenderingIsPieces(message);
    PiecesNoLt(message);
    TagsFlat(ps);
    NestedOnlyTags(ps, []);
    NestStream(s, false, false, 0);
    SplitEscape(message);
    PartsNestEscape(Split(message, BOLD_MARK), false, false);
  }

  /** In particular, an even number of backticks in every part is enough. */
  lemma {:induction false} EvenPartsNest(parts: seq<string>, bold: bool)
    requires forall k | 0 <= k < |parts| :: Backticks(parts[k]) % 2 == 0
    ensures PartsNest(parts, bold, false)
  {
    if parts != [] {
      EvenPartsNest(parts[1..], !bold);
    }
  }

  /** A code span that straddles the end of a bold part: the tags do not nest. */
  lemma StraddlingSpan()
    ensures !Nested(TagsOf(Rendering("**`**`")), [])
  {
    SplitMarkTick();
    SplitHead('`', "**`", ["", "`"]);
    assert ['`'] + "**`" == "`**`" && "`" + "" == "`";
    assert Split("`**`", BOLD_MARK) == ["`", "`"];
    SplitMark("`**`");
    assert BOLD_MARK + "`**`" == "**`**`";
    assert Split("**`**`", BOLD_MARK) == ["", "`", "`"];
    TickParts();
    NestingIff("**`**`");
  }

  /** A span around a whole bold part nests although its parts have odd numbers of backticks. */
  lemma SpanAroundBold()
    ensures Nested(TagsOf(Rendering("`**b**`")), [])
    ensures Backticks(Split("`**b**`", BOLD_MARK)[0]) % 2 == 1
  {
    SplitMarkTick();
    SplitHead('b', "**`", ["", "`"]);
    assert ['b'] + "**`" == "b**`" && "b" + "" == "b";
    assert Split("b**`", BOLD_MARK) == ["b", "`"];
    SplitMark("b**`");
    assert BOLD_MARK + "b**`" == "**b**`";
    assert Split("**b**`", BOLD_MARK) == ["", "b", "`"];
    SplitHead('`', "**b**`", ["", "b", "`"]);
    assert ['`'] + "**b**`" == "`**b**`" && "`" + "" == "`";
    assert Split("`**b**`", BOLD_MARK) == ["`", "b", "`"];
    TickParts();
    NestingIff("`**b**`");
  }

  lemma SplitHead(c: char, rest: string, parts: seq<string>)
    requires c != '*' && parts != [] && Split(rest, BOLD_MARK) == parts
    ensures Split([c] + rest, BOLD_MARK) == [[c] + parts[0]] + parts[1..]
  {
    if StartsWith([c] + rest, BOLD_MARK) {
      StartsWithHead([c] + rest, BOLD_MARK);
      assert false;
    }
    SplitCons(c, rest);
  }

  lemma SplitMarkTick()
    ensures Split("**`", BOLD_MARK) == ["", "`"]
  {
    SplitTick();
    SplitMark("`");
    assert BOLD_MARK + "`" == "**`";
  }

  lemma SplitTick()
    ensures Split("`", BOLD_MARK) == ["`"]
  {
    assert ['`'] + "" == "`" && !StartsWith("`", BOLD_MARK);
    assert Split("", BOLD_MARK) == [""];
    SplitCons('`', "");
  }

  lemma TickParts()
    ensures Backticks("`") == 1 && Backticks("b") == 0
    ensures !PartsNest(["", "`", "`"], false, false)
    ensures PartsNest(["`", "b", "`"], false, false)
  {
    assert "`"[1..] == "" && "b"[1..] == "";
    assert ["", "`", "`"][1..] == ["`", "`"];
    assert ["`"][1..] == [];
    assert PartsNest(["`"], false, true);
    assert ["b", "`"][1..] == ["`"];
    assert PartsNest(["b", "`"], true, true);
    assert ["`", "b", "`"][1..] == ["b", "`"];
  }

  // ---------------------------------------------------------------- escaping undone

  /** html.unescape, for the entities that html.escape makes. */
  function Unescape(s: string): string {
    if s == "" then ""
    else if StartsWith(s, "&amp;") then "&" + Unescape(s[5..])
    else if StartsWith(s, "&lt;") then "<" + Unescape(s[4..])
    else if StartsWith(s, "&gt;") then ">" + Unescape(s[4..])
    else if StartsWith(s, "&quot;") then "\"" + Unescape(s[6..])
    else if StartsWith(s, "&#x27;") then "'" + Unescape(s[6..])
    else [s[0]] + Unescape(s[1..])
  }

  lemma EntityAt(e: string, rest: string, other: string)
    requires |e| >= 3 && |other| >= 3 && (e[1] != other[1] || e[2] != other[2] || e == other)
    ensures StartsWith(e + rest, other) <==> e == other
    ensures (e + rest)[|e|..] == rest
  {
    var s := e + rest;
    if StartsWith(s, other) {
      assert s[..|other|][1] == s[1] == e[1] && s[..|other|][2] == s[2] == e[2];
    }
    assert s[..|e|] == e;
  }

  lemma UnescapeEntity(c: char, rest: string)
    requires c == '&' || c == '<' || c == '>' || c == '\"' || c == '\''
    ensures Unescape(EscapeChar(c) + rest) == [c] + Unescape(rest)
  {
    var e := EscapeChar(c);
    EntityAt(e, rest, "&amp;");
    EntityAt(e, rest, "&lt;");
    EntityAt(e, rest, "&gt;");
    EntityAt(e, rest, "&quot;");
    EntityAt(e, rest, "&#x27;");
  }

  lemma UnescapePlain(c: char, rest: string)
    requires c != '&'
    ensures Unescape([c] + rest) == [c] + Unescape(rest)
  {
    var s := [c] + rest;
    assert s[1..] == rest;
    if StartsWith(s, "&amp;") {
      StartsWithHead(s, "&amp;");
    }
    if StartsWith(s, "&lt;") {
      StartsWithHead(s, "&lt;");
    }
    if StartsWith(s, "&gt;") {
      StartsWithHead(s, "&gt;");
    }
    if StartsWith(s, "&quot;") {
      StartsWithHead(s, "&quot;");
    }
    if StartsWith(s, "&#x27;") {
      StartsWithHead(s, "&#x27;");
    }
  }

  /** Escaping loses nothing: unescaping gives the message back. */
  lemma {:induction false} EscapingRoundTrip(s: string)
    ensures Unescape(EscapeHtml(s)) == s
  {
    if s != "" {
      var c, rest := s[0], s[1..];
      EscapingRoundTrip(rest);
      assert [c] + rest == s;
      if c == '&' || c == '<' || c == '>' || c == '\"' || c == '\'' {
        UnescapeEntity(c, EscapeHtml(rest));
      } else {
        UnescapePlain(c, EscapeHtml(rest));
      }
    }
  }

  lemma EraseHit(rest: string, mark: string)
    requires mark != ""
    ensures Replace(mark + rest, mark, "") == Replace(rest, mark, "")
  {
    ReplaceHits(rest, mark, "");
    assert "" + Replace(rest, mark, "") == Replace(rest, mark, "");
  }

  /** Erasing the bold markers and escaping may come in either order. */
  lemma {:induction false} EraseBold(m: string)
    ensures Replace(EscapeHtml(m), BOLD_MARK, "") == EscapeHtml(Replace(m, BOLD_MARK, ""))
    decreases |m|
  {
    if m == "" {
    } else if StartsWith(m, BOLD_MARK) {
      EraseBold(m[2..]);
      assert m == BOLD_MARK + m[2..];
      EscapeMark(m[2..]);
      EraseHit(EscapeHtml(m[2..]), BOLD_MARK);
      EraseHit(m[2..], BOLD_MARK);
    } else {
      var c, rest := m[0], m[1..];
      EraseBold(rest);
      assert m == [c] + rest;
      EraseBoldChar(c, rest);
    }
  }

  lemma EraseBoldChar(c: char, rest: string)
    requires !StartsWith([c] + rest, BOLD_MARK)
    requires Replace(EscapeHtml(rest), BOLD_MARK, "") == EscapeHtml(Replace(rest, BOLD_MARK, ""))
    ensures Replace(EscapeHtml([c] + rest), BOLD_MARK, "") == EscapeHtml(Replace([c] + rest, BOLD_MARK, ""))
  {
    var e := EscapeHtml(rest);
    EscapeCons(c, rest);
    EscapeCons(c, Replace(rest, BOLD_MARK, ""));
    ReplaceCons(c, rest);
    if c != '*' {
      NoStar(c);
      ReplaceSkips(EscapeChar(c), e, BOLD_MARK, "");
    } else {
      NoNewMark(c, rest);
      ReplaceCons(c, e);
    }
  }

  lemma ReplaceCons(c: char, rest: string)
    requires !StartsWith([c] + rest, BOLD_MARK)
    ensures Replace([c] + rest, BOLD_MARK, "") == [c] + Replace(rest, BOLD_MARK, "")
  {
    assert ([c] + rest)[1..] == rest;
  }

  lemma {:induction false} EraseCode(m: string)
    ensures Replace(EscapeHtml(m), CODE_MARK, "") == EscapeHtml(Replace(m, CODE_MARK, ""))
  {
    if m != "" {
      EraseCode(m[1..]);
      EraseCodeChar(m[0], m[1..]);
      assert m == [m[0]] + m[1..];
    }
  }

  lemma EraseCodeChar(c: char, rest: string)
    requires Replace(EscapeHtml(rest), CODE_MARK, "") == EscapeHtml(Replace(rest, CODE_MARK, ""))
    ensures Replace(EscapeHtml([c] + rest), CODE_MARK, "") == EscapeHtml(Replace([c] + rest, CODE_MARK, ""))
  {
    EscapeCons(c, rest);
    if c == '`' {
      EraseHit(rest, CODE_MARK);
      EraseHit(EscapeHtml(rest), CODE_MARK);
    } else {
      ReplaceSkips([c], rest, CODE_MARK, "");
      EscapeCons(c, Replace(rest, CODE_MARK, ""));
      NoTick(c);
      ReplaceSkips(EscapeChar(c), EscapeHtml(rest), CODE_MARK, "");
    }
  }

  lemma NoTick(c: char)
    requires c != '`'
    ensures '`' !in EscapeChar(c)
  {
  }

  /** What Telegram shows of any message, the tags taken out and the entities resolved, is the
      message without its markers. */
  lemma ShownText(message: string)
    ensures Unescape(StripTags(Rendering(message))) == Replace(Replace(message, BOLD_MARK, ""), CODE_MARK, "")
  {
    RenderingReadsBack(message);
    EraseBold(message);
    EraseCode(Replace(message, BOLD_MARK, ""));
    EscapingRoundTrip(Replace(Replace(message, BOLD_MARK, ""), CODE_MARK, ""));
  }
}
