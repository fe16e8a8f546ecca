/**
 The completion menu: columns filled from top to bottom on one page. Every
 candidate of the page is drawn once, the selected one is on it, and no row
 reaches the last column of the terminal, whatever the widths and the budget.
 */
module MenuLayout {

  /** Characters as far as drawing tells them apart, controls by their code; `Plain` takes up to two columns. */
  datatype Character = Tab | Newline | Return | Delete | LowControl(code: nat) | HighControl | Plain(code: nat, width: nat)

  type Line = seq<Character>

  predicate Displayable(text: Line) {
    forall i :: 0 <= i < |text| ==> text[i].Plain? ==> text[i].width <= 2
  }

  datatype Sign = Space | Ellipsis | Replacement | Caret | Sign(code: nat)

  /** What is written: a line break, one glyph with its width, colours, or the start of a candidate. */
  datatype Piece = Break | Glyph(sign: Sign, width: nat) | Colour | Item(index: nat, selected: bool)

  const SPACE: Piece := Glyph(Space, 1)
  const ELLIPSIS: Piece := Glyph(Ellipsis, 1)

  // ---------------------------------------------------------------------
  // What the output shows
  // ---------------------------------------------------------------------

  /** The column of the cursor after the output. */
  function Column(out: seq<Piece>): nat {
    if out == [] then 0
    else
      match out[|out| - 1]
      case Break => 0
      case Glyph(_, w) => Column(out[..|out| - 1]) + w
      case _ => Column(out[..|out| - 1])
  }

  function Breaks(out: seq<Piece>): nat {
    if out == [] then 0 else Breaks(out[..|out| - 1]) + if out[|out| - 1].Break? then 1 else 0
  }

  /** How often a candidate is drawn, as selected or not. */
  function Drawn(out: seq<Piece>, index: nat, selected: bool): nat {
    if out == [] then 0
    else Drawn(out[..|out| - 1], index, selected) + if out[|out| - 1] == Item(index, selected) then 1 else 0
  }

  /** No row is ever wider than `limit`. */
  predicate Fits(out: seq<Piece>, limit: nat) {
    if out == [] then true else Fits(out[..|out| - 1], limit) && Column(out) <= limit
  }

  /** Text within a row: its width, and whether the row stays within the limit. */
  function Width(text: seq<Piece>): nat {
    if text == [] then 0 else Width(text[..|text| - 1]) + if text[|text| - 1].Glyph? then text[|text| - 1].width else 0
  }

  predicate IsText(text: seq<Piece>) {
    forall i :: 0 <= i < |text| ==> text[i].Glyph? || text[i].Colour?
  }

  lemma AppendOne(out: seq<Piece>, p: Piece, limit: nat)
    requires p.Glyph? || p.Colour?
    requires Fits(out, limit) && Column(out) + Width([p]) <= limit
    ensures Column(out + [p]) == Column(out) + Width([p]) && Fits(out + [p], limit) && Breaks(out + [p]) == Breaks(out)
    ensures forall i, s :: Drawn(out + [p], i, s) == Drawn(out, i, s)
  {
    assert (out + [p])[..|out|] == out && [p][..0] == [];
  }

  lemma WidthStep(text: seq<Piece>)
    requires IsText(text)
    ensures text == [] ==> Width(text) == 0
    ensures text != [] ==>
      var n := |text| - 1;
      Width(text) == Width(text[..n]) + Width([text[n]]) && IsText(text[..n]) && (text[n].Glyph? || text[n].Colour?)
  {
    if text != [] {
      assert [text[|text| - 1]][..0] == [];
    }
  }

  lemma {:induction false} AppendText(out: seq<Piece>, text: seq<Piece>, limit: nat)
    requires IsText(text) && Column(out) + Width(text) <= limit && Fits(out, limit)
    ensures Column(out + text) == Column(out) + Width(text) && Fits(out + text, limit)
    ensures Breaks(out + text) == Breaks(out)
    ensures forall i, s :: Drawn(out + text, i, s) == Drawn(out, i, s)
  {
    hide *;
    WidthStep(text);
    if text == [] {
      assert out + text == out;
    } else {
      var n := |text| - 1;
      AppendText(out, text[..n], limit);
      AppendOne(out + text[..n], text[n], limit);
      assert out + text == out + text[..n] + [text[n]];
    }
  }

  lemma AppendPiece(out: seq<Piece>, p: Piece, limit: nat)
    requires Fits(out, limit) && !p.Glyph?
    ensures Fits(out + [p], limit)
    ensures Column(out + [p]) == if p.Break? then 0 else Column(out)
    ensures Breaks(out + [p]) == Breaks(out) + if p.Break? then 1 else 0
    ensures forall i, s :: Drawn(out + [p], i, s) == Drawn(out, i, s) + if p == Item(i, s) then 1 else 0
  {
    assert (out + [p])[..|out|] == out;
  }

  lemma {:induction false} WidthConcat(a: seq<Piece>, b: seq<Piece>)
    ensures Width(a + b) == Width(a) + Width(b)
  {
    if b == [] {
      assert a + b == a;
    } else {
      WidthConcat(a, b[..|b| - 1]);
      assert (a + b)[..|a + b| - 1] == a + b[..|b| - 1];
    }
  }

  lemma WidthOfOne(p: Piece)
    ensures Width([p]) == if p.Glyph? then p.width else 0
  {
    assert [p][..0] == [];
  }

  lemma WidthOfTwo(p: Piece, q: Piece)
    ensures Width([p, q]) == Width([p]) + Width([q])
  {
    assert [p] + [q] == [p, q];
    WidthConcat([p], [q]);
  }

  function Spaces(n: nat): (s: seq<Piece>)
    ensures IsText(s) && Width(s) == n
  {
    if n == 0 then [] else assert (Spaces(n - 1) + [SPACE])[..|Spaces(n - 1)|] == Spaces(n - 1); Spaces(n - 1) + [SPACE]
  }

  // ---------------------------------------------------------------------
  // Text
  // ---------------------------------------------------------------------

  function CharacterWidth(c: Character): nat {
    match c
    case Tab | Newline | Return | Delete | LowControl(_) => 2
    case HighControl => 1
    case Plain(_, w) => w
  }

  function TextWidth(text: Line): nat {
    if text == [] then 0 else TextWidth(text[..|text| - 1]) + CharacterWidth(text[|text| - 1])
  }

  /** What one character is drawn as: a caret and a letter, a replacement character, or itself. */
  function Drawing(c: Character): (s: seq<Piece>)
    ensures IsText(s)
  {
    match c
    case Tab => [Glyph(Caret, 1), Glyph(Sign('I' as nat), 1)]
    case Newline => [Glyph(Caret, 1), Glyph(Sign('J' as nat), 1)]
    case Return => [Glyph(Caret, 1), Glyph(Sign('M' as nat), 1)]
    case Delete => [Glyph(Caret, 1), Glyph(Sign('?' as nat), 1)]
    case LowControl(code) => [Glyph(Caret, 1), Glyph(Sign(code + '@' as nat), 1)]
    case HighControl => [Glyph(Replacement, 1)]
    case Plain(code, w) => [Glyph(Sign(code), w)]
  }

  lemma DrawingWidth(c: Character)
    ensures Width(Drawing(c)) == CharacterWidth(c)
  {
    var s := Drawing(c);
    WidthOfOne(s[0]);
    if |s| == 2 {
      WidthOfOne(s[1]);
      WidthOfTwo(s[0], s[1]);
      assert s == [s[0], s[1]];
    } else {
      assert s == [s[0]];
    }
  }

  function Drawings(text: Line): seq<Piece> {
    if text == [] then [] else Drawings(text[..|text| - 1]) + Drawing(text[|text| - 1])
  }

  /** The first `n` characters, which are all that fit, and an ellipsis for the others if there is a column for it. */
  predicate ShowsFirst(out: seq<Piece>, text: Line, limit: nat, n: nat) {
    && n <= |text| && TextWidth(text[..n]) <= limit && (n < |text| ==> TextWidth(text[..n + 1]) > limit)
    && out == Drawings(text[..n]) + if n < |text| && TextWidth(text[..n]) < limit then [ELLIPSIS] else []
  }

  ghost predicate Shows(out: seq<Piece>, text: Line, limit: nat) {
    exists n: nat :: ShowsFirst(out, text, limit, n)
  }

  lemma FirstAreShown(out: seq<Piece>, text: Line, limit: nat, n: nat)
    requires ShowsFirst(out, text, limit, n)
    ensures Shows(out, text, limit)
  {
  }

  /** Text that fits is drawn whole. */
  lemma ShowsWhole(out: seq<Piece>, text: Line, limit: nat)
    requires Shows(out, text, limit) && TextWidth(text) <= limit
    ensures out == Drawings(text)
  {
    var n: nat :| ShowsFirst(out, text, limit, n);
    if n < |text| {
      TextWidthPrefix(text, n + 1);
    }
    assert text[..|text|] == text;
  }

  /** The code point of a control character. */
  function Code(c: Character): nat
    requires !c.HighControl? && !c.Plain?
  {
    match c
    case Tab => 9
    case Newline => 10
    case Return => 13
    case Delete => 127
    case LowControl(code) => code
  }

  /** Controls are drawn in caret notation: a caret, and the character that differs in the seventh bit. */
  lemma CaretNotation(c: Character)
    requires !c.HighControl? && !c.Plain? && (c.LowControl? ==> c.code < 32)
    ensures Drawing(c) == [Glyph(Caret, 1), Glyph(Sign((Code(c) + 64) % 128), 1)]
  {
  }

  /** Draws text within a limit; what does not fit is cut, with an ellipsis if there is room for one. */
  method RenderMenuText(text: Line, limit: nat) returns (out: seq<Piece>, used: nat)
    ensures IsText(out) && used == Width(out) <= limit
    ensures TextWidth(text) <= limit ==> used == TextWidth(text)
    ensures Displayable(text) && TextWidth(text) > limit ==> used == limit
    ensures Shows(out, text, limit)
  {
    out, used := [], 0;
    NothingDrawn(text);
    hide *;
    for i := 0 to |text|
      invariant IsText(out) && used == Width(out) == TextWidth(text[..i]) <= limit
      invariant out == Drawings(text[..i])
    {
      NextDrawing(text, i);
      var width := CharacterWidth(text[i]);
      if used + width > limit {
        CutHere(out, text, limit, i);
        if used < limit {
          out := out + [ELLIPSIS];
          used := used + 1;
        }
        return;
      }
      out := out + Drawing(text[i]);
      used := used + width;
    }
    assert text[..|text|] == text;
    AllDrawn(text, limit);
  }

  lemma NothingDrawn(text: Line)
    ensures Drawings(text[..0]) == [] && TextWidth(text[..0]) == 0 && Width([]) == 0 && IsText([])
  {
  }

  lemma NextDrawing(text: Line, i: nat)
    requires i < |text|
    ensures var before, after := Drawings(text[..i]), Drawings(text[..i + 1]);
      && after == before + Drawing(text[i]) && (IsText(before) ==> IsText(after))
      && Width(after) == Width(before) + CharacterWidth(text[i])
    ensures TextWidth(text[..i + 1]) == TextWidth(text[..i]) + CharacterWidth(text[i])
  {
    assert text[..i + 1][..i] == text[..i];
    DrawingWidth(text[i]);
    WidthConcat(Drawings(text[..i]), Drawing(text[i]));
    hide Width, Drawing, CharacterWidth;
  }

  lemma AllDrawn(text: Line, limit: nat)
    ensures TextWidth(text) <= limit ==> Shows(Drawings(text), text, limit)
  {
    assert text[..|text|] == text;
    if TextWidth(text) <= limit {
      FirstAreShown(Drawings(text), text, limit, |text|);
    }
  }

  /** The character at `i` does not fit any more. */
  lemma CutHere(out: seq<Piece>, text: Line, limit: nat, i: nat)
    requires i < |text| && out == Drawings(text[..i]) && IsText(out) && Width(out) == TextWidth(text[..i]) <= limit
    requires TextWidth(text[..i]) + CharacterWidth(text[i]) > limit
    ensures var r := if Width(out) < limit then out + [ELLIPSIS] else out;
      && IsText(r) && Width(r) == (if Width(out) < limit then Width(out) + 1 else limit) && Shows(r, text, limit)
      && (Displayable(text) ==> Width(r) == limit)
    ensures TextWidth(text) > limit
  {
    hide *;
    NextDrawing(text, i);
    TextWidthPrefix(text, i + 1);
    EllipsisAdded(out);
    WidthAt(text, i);
    CutShows(out, text, limit, i);
  }

  lemma EllipsisAdded(out: seq<Piece>)
    requires IsText(out)
    ensures IsText(out + [ELLIPSIS]) && Width(out + [ELLIPSIS]) == Width(out) + 1
  {
    assert (out + [ELLIPSIS])[..|out|] == out;
  }

  lemma WidthAt(text: Line, i: nat)
    requires i < |text|
    ensures Displayable(text) ==> CharacterWidth(text[i]) <= 2
  {
  }

  lemma CutShows(out: seq<Piece>, text: Line, limit: nat, i: nat)
    requires i < |text| && out == Drawings(text[..i]) && TextWidth(text[..i]) <= limit < TextWidth(text[..i + 1])
    ensures Shows(if TextWidth(text[..i]) < limit then out + [ELLIPSIS] else out, text, limit)
  {
    hide TextWidth, Drawings;
    assert out + [] == out;
    FirstAreShown(if TextWidth(text[..i]) < limit then out + [ELLIPSIS] else out, text, limit, i);
  }

  lemma {:induction false} TextWidthPrefix(text: Line, n: nat)
    requires n <= |text|
    ensures TextWidth(text[..n]) <= TextWidth(text)
  {
    if n < |text| {
      TextWidthPrefix(text[..|text| - 1], n);
      assert text[..|text| - 1][..n] == text[..n];
    } else {
      assert text[..n] == text;
    }
  }

  datatype Descriptions = Off | Selected | Inline

  /** An empty description counts as none. */
  datatype Candidate = Candidate(display: Line, description: Line)

  function CandidateWidth(c: Candidate, mode: Descriptions): nat {
    if mode != Inline || c.description == [] then TextWidth(c.display)
    else TextWidth(c.display) + 2 + TextWidth(c.description)
  }

  /** A candidate within a limit: its display, and its description if that is wanted and two more columns are left. */
  ghost predicate ShowsCandidate(out: seq<Piece>, c: Candidate, inline: bool, limit: nat) {
    exists d, more :: ShowsParts(out, c, inline, limit, d, more)
  }

  ghost predicate ShowsParts(out: seq<Piece>, c: Candidate, inline: bool, limit: nat, d: seq<Piece>, more: seq<Piece>) {
    && Shows(d, c.display, limit) && Width(d) <= limit
    && if inline && c.description != [] && Width(d) + 2 < limit
       then Shows(more, c.description, limit - Width(d) - 2) && out == [Colour] + d + [SPACE, SPACE, Colour] + more
       else out == [Colour] + d
  }

  /** A display that fits is drawn whole. */
  lemma DisplayShownWhole(out: seq<Piece>, c: Candidate, inline: bool, limit: nat)
    requires ShowsCandidate(out, c, inline, limit) && TextWidth(c.display) <= limit
    ensures [Colour] + Drawings(c.display) <= out
  {
    var d, more :| ShowsParts(out, c, inline, limit, d, more);
    ShowsWhole(d, c.display, limit);
    hide Drawings, Shows;
  }

  /** `CandidateWidth` is what a candidate takes that is shown whole, and it is if so many columns are left. */
  lemma CandidateShownWhole(out: seq<Piece>, c: Candidate, mode: Descriptions, limit: nat)
    requires ShowsCandidate(out, c, mode == Inline, limit) && CandidateWidth(c, mode) <= limit
    requires mode == Inline && c.description != [] ==> TextWidth(c.description) > 0
    ensures mode == Inline && c.description != [] ==>
      out == [Colour] + Drawings(c.display) + [SPACE, SPACE, Colour] + Drawings(c.description)
    ensures !(mode == Inline && c.description != []) ==> out == [Colour] + Drawings(c.display)
    ensures Width(out) == CandidateWidth(c, mode)
  {
    hide Shows, Width, Drawings, TextWidth, ShowsParts;
    var d, more :| ShowsParts(out, c, mode == Inline, limit, d, more);
    if mode == Inline && c.description != [] {
      DescribedShownWhole(out, c, limit, d, more);
    } else {
      PlainShownWhole(out, c, mode == Inline, limit, d, more);
    }
  }

  lemma PlainShownWhole(out: seq<Piece>, c: Candidate, inline: bool, limit: nat, d: seq<Piece>, more: seq<Piece>)
    requires ShowsParts(out, c, inline, limit, d, more) && !(inline && c.description != []) && TextWidth(c.display) <= limit
    ensures out == [Colour] + Drawings(c.display) && Width(out) == TextWidth(c.display)
  {
    hide Shows, Width, Drawings, TextWidth;
    ShowsWhole(d, c.display, limit);
    DrawingsWidth(c.display);
    WidthOfParts(d, more);
  }

  lemma DescribedShownWhole(out: seq<Piece>, c: Candidate, limit: nat, d: seq<Piece>, more: seq<Piece>)
    requires ShowsParts(out, c, true, limit, d, more) && c.description != [] && TextWidth(c.description) > 0
    requires TextWidth(c.display) + 2 + TextWidth(c.description) <= limit
    ensures out == [Colour] + Drawings(c.display) + [SPACE, SPACE, Colour] + Drawings(c.description)
    ensures Width(out) == TextWidth(c.display) + 2 + TextWidth(c.description)
  {
    hide Shows, Width, Drawings, TextWidth;
    ShowsWhole(d, c.display, limit);
    DrawingsWidth(c.display);
    WidthOfParts(d, more);
    ShowsWhole(more, c.description, limit - Width(d) - 2);
    DrawingsWidth(c.description);
  }

  lemma WidthOfParts(d: seq<Piece>, more: seq<Piece>)
    ensures Width([Colour] + d) == Width(d)
    ensures Width([Colour] + d + [SPACE, SPACE, Colour] + more) == Width(d) + 2 + Width(more)
  {
    WidthOfOne(Colour);
    WidthOfOne(SPACE);
    WidthOfTwo(SPACE, SPACE);
    hide Width;
    assert [SPACE, SPACE] + [Colour] == [SPACE, SPACE, Colour];
    WidthConcat([SPACE, SPACE], [Colour]);
    WidthConcat([Colour], d);
    WidthConcat([Colour] + d, [SPACE, SPACE, Colour]);
    WidthConcat([Colour] + d + [SPACE, SPACE, Colour], more);
  }

  lemma {:induction false} DrawingsWidth(text: Line)
    ensures Width(Drawings(text)) == TextWidth(text)
  {
    if text != [] {
      var n := |text| - 1;
      DrawingsWidth(text[..n]);
      DrawingWidth(text[n]);
      WidthConcat(Drawings(text[..n]), Drawing(text[n]));
    }
  }

  method RenderMenuCandidate(c: Candidate, inline: bool, limit: nat) returns (out: seq<Piece>, used: nat)
    ensures IsText(out) && used == Width(out) <= limit
    ensures ShowsCandidate(out, c, inline, limit)
  {
    hide Shows, Width;
    out := [Colour];
    WidthOfOne(Colour);
    var text;
    text, used := RenderMenuText(c.display, limit);
    ghost var d := text;
    WidthConcat(out, text);
    out := out + text;
    if inline && c.description != [] && used + 2 < limit {
      WidthOfOne(SPACE);
      WidthOfTwo(SPACE, SPACE);
      WidthConcat([SPACE, SPACE], [Colour]);
      WidthConcat(out, [SPACE, SPACE] + [Colour]);
      assert [SPACE, SPACE] + [Colour] == [SPACE, SPACE, Colour];
      out := out + [SPACE, SPACE, Colour];
      used := used + 2;
      var more;
      text, more := RenderMenuText(c.description, limit - used);
      WidthConcat(out, text);
      out := out + text;
      used := used + more;
    }
    assert ShowsParts(out, c, inline, limit, d, text);
  }

  // ---------------------------------------------------------------------
  // Layout
  // ---------------------------------------------------------------------

  function Max(a: nat, b: nat): nat { if a < b then b else a }

  function Min(a: nat, b: nat): nat { if a < b then a else b }

  function Minus(a: nat, b: nat): nat { if a < b then 0 else a - b }

  datatype Layout = Layout(
    width: nat, cell: nat, columns: nat, perPage: nat, start: nat, end: nat, rows: nat)

  function DivCeil(a: nat, b: nat): nat
    requires b > 0
  {
    (a + b - 1) / b
  }

  /** One terminal column stays unused. */
  function LayoutWidth(terminal: nat): nat {
    Max(Minus(terminal, 1), 1)
  }

  function Plan(width: nat, longest: nat, maximumRows: nat, descriptionRows: nat, count: nat, selected: nat): Layout
    requires width > 0
  {
    var cell := Max(Min(longest + 2, width), 1);
    var columns := Max(width / cell, 1);
    var perPage := Max(Minus(maximumRows, descriptionRows), 1);
    var capacity := Max(perPage * columns, 1);
    var start := selected / capacity * capacity;
    var end := Min(start + capacity, count);
    Layout(width, cell, columns, perPage, start, end, Max(Min(DivCeil(Minus(end, start), columns), perPage), 1))
  }

  lemma CeilCovers(a: nat, b: nat)
    requires b > 0
    ensures DivCeil(a, b) * b >= a
  {
  }

  lemma CeilWithin(a: nat, b: nat, n: nat)
    requires b > 0 && a <= n * b
    ensures DivCeil(a, b) <= n
  {
    MulMonotone(n + 1, DivCeil(a, b), b);
  }

  /** What the drawing relies on: the cells fit the width, and the rows take the whole page. */
  lemma PlanIsSound(width: nat, longest: nat, maximumRows: nat, descriptionRows: nat, count: nat, selected: nat)
    requires width > 0 && maximumRows >= 1 && (descriptionRows == 0 || (descriptionRows == 1 && maximumRows >= 2))
    ensures var l := Plan(width, longest, maximumRows, descriptionRows, count, selected);
      && 1 <= l.cell <= width && 1 <= l.columns && l.columns * l.cell <= width
      && 1 <= l.rows && l.rows + descriptionRows <= maximumRows
      && l.end <= count && Minus(l.end, l.start) <= l.rows * l.columns
      && (selected < count ==> l.start <= selected < l.end)
  {
    var l := Plan(width, longest, maximumRows, descriptionRows, count, selected);
    CellsFit(width, l.cell);
    var capacity := l.perPage * l.columns;
    assert capacity >= 1;
    var length := Minus(l.end, l.start);
    CeilCovers(length, l.columns);
    CeilWithin(length, l.columns, l.perPage);
    assert l.rows >= DivCeil(length, l.columns);
    MulMonotone(DivCeil(length, l.columns), l.rows, l.columns);
  }

  lemma CellsFit(width: nat, cell: nat)
    requires 1 <= cell <= width
    ensures width / cell >= 1
  {
    MulMonotone(width / cell, 0, cell);
  }

  lemma MulMonotone(a: nat, b: nat, c: nat)
    ensures a <= b ==> a * c <= b * c
  {
  }

  // ---------------------------------------------------------------------
  // Drawing
  // ---------------------------------------------------------------------

  /** How often a candidate of the page has been drawn after `row` rows and `done` cells of the next one. */
  function Expected(l: Layout, row: nat, done: nat, i: nat): nat
    requires l.rows > 0
  {
    if l.start <= i < l.end && ((i - l.start) % l.rows < row || ((i - l.start) % l.rows == row && (i - l.start) / l.rows < done))
    then 1 else 0
  }

  ghost predicate DrawnSoFar(out: seq<Piece>, l: Layout, selected: nat, row: nat, done: nat)
    requires l.rows > 0
  {
    forall i: nat :: CellSoFar(out, l, selected, row, done, i)
  }

  predicate CellSoFar(out: seq<Piece>, l: Layout, selected: nat, row: nat, done: nat, i: nat)
    requires l.rows > 0
  {
    DrawnAs(out, i, selected, Expected(l, row, done, i))
  }

  /** The candidates of the page are drawn once, all others never. */
  ghost predicate PageShown(out: seq<Piece>, l: Layout, selected: nat) {
    forall i: nat :: OnPage(out, l, selected, i)
  }

  predicate OnPage(out: seq<Piece>, l: Layout, selected: nat, i: nat) {
    DrawnAs(out, i, selected, if l.start <= i < l.end then 1 else 0)
  }

  /** Drawn `n` times, and as selected exactly if it is. */
  predicate DrawnAs(out: seq<Piece>, i: nat, selected: nat, n: nat) {
    Drawn(out, i, i == selected) == n && Drawn(out, i, i != selected) == 0
  }

  lemma CellIndex(l: Layout, row: nat, done: nat, i: nat)
    requires 0 <= row < l.rows
    ensures (l.start <= i && (i - l.start) % l.rows == row && (i - l.start) / l.rows == done) <==> i == l.start + row + done * l.rows
  {
    if l.start <= i {
      var d := i - l.start;
      assert d == d / l.rows * l.rows + d % l.rows;
    }
    var e := row + done * l.rows;
    DivModUnique(e, l.rows, done, row);
  }

  lemma DivModUnique(e: nat, b: nat, q: nat, r: nat)
    requires b > 0 && r < b && e == r + q * b
    ensures e / b == q && e % b == r
  {
    assert e / b * b + e % b == e;
    MulMonotone(e / b + 1, q, b);
    MulMonotone(q + 1, e / b, b);
  }

  /** Drawing the next cell of a row. */
  lemma CellDrawn(l: Layout, selected: nat, out: seq<Piece>, next: seq<Piece>, row: nat, done: nat)
    requires row < l.rows && DrawnSoFar(out, l, selected, row, done)
    requires var i := l.start + row + done * l.rows;
      && i < l.end
      && forall k: nat, s :: Drawn(next, k, s) == Drawn(out, k, s) + if Item(i, i == selected) == Item(k, s) then 1 else 0
    ensures DrawnSoFar(next, l, selected, row, done + 1)
  {
    var i := l.start + row + done * l.rows;
    var more := done + 1;
    forall k: nat ensures CellSoFar(next, l, selected, row, more, k) {
      CellIndex(l, row, done, k);
      assert CellSoFar(out, l, selected, row, done, k);
    }
  }

  /** A row ends when the page does, or after the last column; either way no candidate of the row is left. */
  lemma RowDrawn(l: Layout, selected: nat, out: seq<Piece>, row: nat, done: nat)
    requires row < l.rows && DrawnSoFar(out, l, selected, row, done)
    requires l.start + row + done * l.rows >= l.end || (done == l.columns && Minus(l.end, l.start) <= l.rows * l.columns)
    ensures DrawnSoFar(out, l, selected, row + 1, 0)
  {
    var below := row + 1;
    forall i: nat ensures CellSoFar(out, l, selected, below, 0, i) {
      assert CellSoFar(out, l, selected, row, done, i);
      NoneLeft(l, row, done, i);
    }
  }

  lemma NoneLeft(l: Layout, row: nat, done: nat, i: nat)
    requires row < l.rows
    requires l.start + row + done * l.rows >= l.end || (done == l.columns && Minus(l.end, l.start) <= l.rows * l.columns)
    ensures Expected(l, row + 1, 0, i) == Expected(l, row, done, i)
  {
    if l.start <= i < l.end {
      var d := i - l.start;
      assert d == d / l.rows * l.rows + d % l.rows;
      MulMonotone(done, d / l.rows, l.rows);
    }
  }

  lemma PageDrawn(l: Layout, selected: nat, out: seq<Piece>)
    requires l.rows > 0 && DrawnSoFar(out, l, selected, l.rows, 0)
    ensures PageShown(out, l, selected)
  {
    forall i: nat ensures OnPage(out, l, selected, i) {
      assert CellSoFar(out, l, selected, l.rows, 0, i);
    }
  }

  /** The column at which a cell starts leaves room for at least one more cell. */
  lemma CellRoom(l: Layout, done: nat)
    requires done < l.columns && l.columns * l.cell <= l.width
    ensures done * l.cell + l.cell <= l.width
  {
    MulMonotone(done + 1, l.columns, l.cell);
  }

  // ---------------------------------------------------------------------
  // What stands behind a candidate's start
  // ---------------------------------------------------------------------

  /** The columns that the layout leaves for a candidate: all but two of its cell, or the rest of its row. */
  function CellLimit(l: Layout, i: nat): nat
    requires l.rows > 0
  {
    if i + l.rows < l.end then Max(Minus(l.cell, 2), 1) else Max(Minus(l.width, Minus(i, l.start) / l.rows * l.cell), 1)
  }

  /** What follows the start of a candidate shows that candidate within its columns, and resets the colours. */
  ghost predicate ItemShows(out: seq<Piece>, k: nat, candidates: seq<Candidate>, inline: bool, l: Layout)
    requires k < |out| && l.rows > 0
  {
    out[k].Item? ==>
      out[k].index < |candidates| &&
      exists n: nat :: CellAt(out, k, n, candidates[out[k].index], inline, CellLimit(l, out[k].index))
  }

  /** The `n` pieces behind position `k` show the candidate. */
  ghost predicate CellAt(out: seq<Piece>, k: nat, n: nat, c: Candidate, inline: bool, limit: nat) {
    k + 1 + n < |out| && ShowsCandidate(out[k + 1..k + 1 + n], c, inline, limit) && out[k + 1 + n].Colour?
  }

  ghost predicate ItemsShow(out: seq<Piece>, candidates: seq<Candidate>, inline: bool, l: Layout)
    requires l.rows > 0
  {
    forall k :: 0 <= k < |out| ==> ItemShows(out, k, candidates, inline, l)
  }

  lemma ItemsStay(out: seq<Piece>, more: seq<Piece>, candidates: seq<Candidate>, inline: bool, l: Layout)
    requires l.rows > 0 && ItemsShow(out, candidates, inline, l) && forall k :: 0 <= k < |more| ==> !more[k].Item?
    ensures ItemsShow(out + more, candidates, inline, l)
  {
    hide ShowsCandidate, CellLimit;
    forall k | 0 <= k < |out + more| ensures ItemShows(out + more, k, candidates, inline, l) {
      if k < |out| && out[k].Item? {
        assert ItemShows(out, k, candidates, inline, l);
        var c, limit := candidates[out[k].index], CellLimit(l, out[k].index);
        var n: nat :| CellAt(out, k, n, c, inline, limit);
        assert (out + more)[k + 1..k + 1 + n] == out[k + 1..k + 1 + n];
        assert CellAt(out + more, k, n, c, inline, limit);
      }
    }
  }

  lemma ItemAdded(
    out: seq<Piece>, i: nat, isSelected: bool, text: seq<Piece>, candidates: seq<Candidate>, inline: bool, l: Layout)
    requires l.rows > 0 && ItemsShow(out, candidates, inline, l) && i < |candidates| && IsText(text)
    requires ShowsCandidate(text, candidates[i], inline, CellLimit(l, i))
    ensures ItemsShow(out + [Item(i, isSelected)] + text + [Colour], candidates, inline, l)
  {
    hide ShowsCandidate, CellLimit;
    var more := [Item(i, isSelected)] + text + [Colour];
    var all := out + [Item(i, isSelected)] + text + [Colour];
    assert all == out + more;
    forall k | 0 <= k < |all| ensures ItemShows(all, k, candidates, inline, l) {
      if k < |out| && out[k].Item? {
        assert ItemShows(out, k, candidates, inline, l);
        var c, limit := candidates[out[k].index], CellLimit(l, out[k].index);
        var n: nat :| CellAt(out, k, n, c, inline, limit);
        assert all[k + 1..k + 1 + n] == out[k + 1..k + 1 + n];
        assert CellAt(all, k, n, c, inline, limit);
      } else if k == |out| {
        assert all[k + 1..k + 1 + |text|] == text;
        assert CellAt(all, k, |text|, candidates[i], inline, CellLimit(l, i));
      }
    }
  }

  /** The columns that every cell of the layout has for its candidate. */
  function CellRoomFor(l: Layout): nat {
    Max(Minus(l.cell, 2), 1)
  }

  lemma CellsHaveRoom(l: Layout, i: nat)
    requires 1 <= l.cell && l.columns * l.cell <= l.width && l.rows > 0
    requires l.start <= i < l.end && l.end - l.start <= l.rows * l.columns
    ensures CellLimit(l, i) >= CellRoomFor(l)
  {
    var d := (i - l.start) / l.rows;
    assert i - l.start == d * l.rows + (i - l.start) % l.rows;
    MulMonotone(l.columns, d, l.rows);
    assert d < l.columns;
    MulMonotone(d + 1, l.columns, l.cell);
  }

  lemma LimitOfCell(l: Layout, row: nat, done: nat)
    requires row < l.rows
    ensures var i := l.start + row + done * l.rows;
      CellLimit(l, i) == if i + l.rows < l.end then Max(Minus(l.cell, 2), 1) else Max(Minus(l.width, done * l.cell), 1)
  {
    DivModUnique(row + done * l.rows, l.rows, done, row);
  }

  /** One row of the page. */
  method RenderRow(candidates: seq<Candidate>, selected: nat, mode: Descriptions, l: Layout, row: nat, before: seq<Piece>)
    returns (out: seq<Piece>, column: nat)
    requires 1 <= l.cell <= l.width && 1 <= l.columns && l.columns * l.cell <= l.width && row < l.rows
    requires l.end <= |candidates| && Minus(l.end, l.start) <= l.rows * l.columns
    requires Fits(before, l.width) && DrawnSoFar(before, l, selected, row, 0)
    requires ItemsShow(before, candidates, mode == Inline, l)
    ensures Fits(out, l.width) && DrawnSoFar(out, l, selected, row + 1, 0)
    ensures Breaks(out) == Breaks(before) + 1 && Column(out) == column
    ensures ItemsShow(out, candidates, mode == Inline, l)
  {
    hide Fits, Column, Breaks, Drawn, Expected, DrawnSoFar, ItemsShow;
    out, column := before + [Break], 0;
    AppendPiece(before, Break, l.width);
    ItemsStay(before, [Break], candidates, mode == Inline, l);
    BreakDrawsNothing(l, selected, before, out, row);
    var done := 0;
    while done < l.columns
      invariant done <= l.columns
      invariant Fits(out, l.width) && Column(out) == column == done * l.cell && Breaks(out) == Breaks(before) + 1
      invariant DrawnSoFar(out, l, selected, row, done)
      invariant ItemsShow(out, candidates, mode == Inline, l)
      decreases l.columns - done
    {
      var index := l.start + row + done * l.rows;
      if index >= l.end {
        break;
      }
      var hasNext := index + l.rows < l.end;
      CellRoom(l, done);
      ghost var was := out;
      LimitOfCell(l, row, done);
      out, column := RenderCell(candidates, index, index == selected, mode, l, hasNext, out, column);
      CellDrawn(l, selected, was, out, row, done);
      if !hasNext {
        LastCell(l, selected, out, row, done);
        return;
      }
      done := done + 1;
    }
    RowDrawn(l, selected, out, row, done);
  }

  lemma BreakDrawsNothing(l: Layout, selected: nat, before: seq<Piece>, out: seq<Piece>, row: nat)
    requires l.rows > 0 && DrawnSoFar(before, l, selected, row, 0)
    requires forall i, s :: Drawn(out, i, s) == Drawn(before, i, s)
    ensures DrawnSoFar(out, l, selected, row, 0)
  {
    forall i: nat ensures CellSoFar(out, l, selected, row, 0, i) {
      assert CellSoFar(before, l, selected, row, 0, i);
    }
  }

  lemma LastCell(l: Layout, selected: nat, out: seq<Piece>, row: nat, done: nat)
    requires row < l.rows && DrawnSoFar(out, l, selected, row, done + 1)
    requires l.start + row + done * l.rows + l.rows >= l.end
    ensures DrawnSoFar(out, l, selected, row + 1, 0)
  {
    RowDrawn(l, selected, out, row, done + 1);
  }

  /** One cell: padded to the cell width if another follows, else as wide as the row allows. */
  method RenderCell(
    candidates: seq<Candidate>, index: nat, isSelected: bool, mode: Descriptions, l: Layout, hasNext: bool, before: seq<Piece>,
    start: nat)
    returns (out: seq<Piece>, column: nat)
    requires Fits(before, l.width) && Column(before) == start && 1 <= l.cell && start + l.cell <= l.width && index < |candidates|
    requires l.rows > 0 && ItemsShow(before, candidates, mode == Inline, l)
    requires CellLimit(l, index) == if hasNext then Max(Minus(l.cell, 2), 1) else Max(Minus(l.width, start), 1)
    ensures Fits(out, l.width) && Column(out) == column && Breaks(out) == Breaks(before)
    ensures hasNext ==> column == start + l.cell
    ensures forall k: nat, s ::
      Drawn(out, k, s) == Drawn(before, k, s) + if Item(index, isSelected) == Item(k, s) then 1 else 0
    ensures ItemsShow(out, candidates, mode == Inline, l)
  {
    hide Fits, Column, Breaks, Drawn, ItemsShow, ShowsCandidate, CellLimit;
    var limit := if hasNext then Max(Minus(l.cell, 2), 1) else Max(Minus(l.width, start), 1);
    AppendPiece(before, Item(index, isSelected), l.width);
    out := before + [Item(index, isSelected)];
    var text, used := RenderMenuCandidate(candidates[index], mode == Inline, limit);
    AppendText(out, text, l.width);
    out := out + text;
    AppendPiece(out, Colour, l.width);
    ItemAdded(before, index, isSelected, text, candidates, mode == Inline, l);
    out := out + [Colour];
    column := start + used;
    if hasNext {
      var padding := Minus(l.cell, used);
      AppendText(out, Spaces(padding), l.width);
      ItemsStay(out, Spaces(padding), candidates, mode == Inline, l);
      out := out + Spaces(padding);
      column := column + padding;
    }
  }

  method Longest(candidates: seq<Candidate>, mode: Descriptions) returns (longest: nat)
    ensures forall i :: 0 <= i < |candidates| ==> CandidateWidth(candidates[i], mode) <= longest
    ensures candidates == [] ==> longest == 1
    ensures candidates != [] ==> exists i :: 0 <= i < |candidates| && CandidateWidth(candidates[i], mode) == longest
  {
    if candidates == [] {
      return 1;
    }
    longest := CandidateWidth(candidates[0], mode);
    for n := 1 to |candidates|
      invariant forall i :: 0 <= i < n ==> CandidateWidth(candidates[i], mode) <= longest
      invariant exists i :: 0 <= i < n && CandidateWidth(candidates[i], mode) == longest
    {
      longest := Max(longest, CandidateWidth(candidates[n], mode));
    }
  }

  /** Whether the description of the selected candidate gets a row of its own. */
  predicate ShowsDescription(candidates: seq<Candidate>, selected: nat, mode: Descriptions, maximumRows: nat) {
    mode == Selected && selected < |candidates| && candidates[selected].description != [] && maximumRows >= 2
  }

  /**
   Draws the menu below the line. Every candidate of the page is drawn exactly once and no other is; the selected
   one is on the page and drawn as selected; the rows stay within the budget, and no row is wider than the layout,
   which is one column less than the terminal but never less than one.
   */
  method RenderMenu(candidates: seq<Candidate>, selected: nat, mode: Descriptions, terminal: nat, maximumRows: nat)
    returns (out: seq<Piece>, rows: nat, finalColumn: nat, ghost page: Layout)
    requires maximumRows >= 1
    ensures candidates == [] ==> out == [] && rows == 0 && finalColumn == 0
    ensures candidates != [] ==>
      && 1 <= rows <= maximumRows && Breaks(out) == rows && Column(out) == finalColumn
      && Fits(out, LayoutWidth(terminal))
      && page.end <= |candidates|
      && (selected < |candidates| ==> page.start <= selected < page.end)
      && PageShown(out, page, selected)
      && page.rows > 0 && ItemsShow(out, candidates, mode == Inline, page)
      && rows == (if ShowsDescription(candidates, selected, mode, maximumRows) then page.rows + 1 else page.rows)
      && (ShowsDescription(candidates, selected, mode, maximumRows) ==>
            exists front, text :: Shows(text, candidates[selected].description, LayoutWidth(terminal))
              && out == front + [Break, Colour] + text + [Colour])
      && (forall i :: page.start <= i < page.end ==> CellLimit(page, i) >= CellRoomFor(page))
      && ((forall i :: 0 <= i < |candidates| ==> CandidateWidth(candidates[i], mode) + 2 <= LayoutWidth(terminal)) ==>
            forall i :: 0 <= i < |candidates| ==> CandidateWidth(candidates[i], mode) <= CellRoomFor(page))
  {
    out, rows, finalColumn := [], 0, 0;
    page := Layout(0, 0, 0, 0, 0, 0, 0);
    if candidates == [] {
      return;
    }
    var width := LayoutWidth(terminal);
    var longest := Longest(candidates, mode);
    var shows := mode == Selected && selected < |candidates| && candidates[selected].description != [] && maximumRows >= 2;
    var descriptionRows := if shows then 1 else 0;
    var l := Plan(width, Min(longest, width), maximumRows, descriptionRows, |candidates|, selected);
    PlanIsSound(width, Min(longest, width), maximumRows, descriptionRows, |candidates|, selected);
    page := l;
    PlanHasRoom(width, longest, maximumRows, descriptionRows, |candidates|, selected);
    forall i | l.start <= i < l.end ensures CellLimit(l, i) >= CellRoomFor(l) {
      CellsHaveRoom(l, i);
    }
    hide Plan, Fits, Column, Breaks, PageShown, Drawn, ItemsShow, CellRoomFor, CellLimit, Shows;
    out, finalColumn := RenderPage(candidates, selected, mode, l);
    rows := l.rows;
    if shows {
      ghost var before := out;
      out, finalColumn := RenderDescription(candidates, selected, mode == Inline, l, width, out);
      DescriptionDrawsNothing(l, selected, before, out);
      rows := rows + 1;
    }
  }

  /** Unless the terminal is too narrow, every cell has room for the longest candidate. */
  lemma PlanHasRoom(width: nat, longest: nat, maximumRows: nat, descriptionRows: nat, count: nat, selected: nat)
    requires width > 0
    ensures longest + 2 <= width ==>
      longest <= CellRoomFor(Plan(width, Min(longest, width), maximumRows, descriptionRows, count, selected))
  {
  }

  lemma DescriptionDrawsNothing(l: Layout, selected: nat, before: seq<Piece>, out: seq<Piece>)
    requires PageShown(before, l, selected)
    requires forall i: nat, s :: Drawn(out, i, s) == Drawn(before, i, s)
    ensures PageShown(out, l, selected)
  {
    forall i: nat ensures OnPage(out, l, selected, i) {
      assert OnPage(before, l, selected, i);
    }
  }

  /** All rows of the page. */
  method RenderPage(candidates: seq<Candidate>, selected: nat, mode: Descriptions, l: Layout)
    returns (out: seq<Piece>, finalColumn: nat)
    requires 1 <= l.cell <= l.width && 1 <= l.columns && l.columns * l.cell <= l.width && 1 <= l.rows
    requires l.end <= |candidates| && Minus(l.end, l.start) <= l.rows * l.columns
    ensures Fits(out, l.width) && Breaks(out) == l.rows && Column(out) == finalColumn
    ensures PageShown(out, l, selected)
    ensures ItemsShow(out, candidates, mode == Inline, l)
  {
    out, finalColumn := [], 0;
    assert ItemsShow(out, candidates, mode == Inline, l);
    hide Fits, Column, Breaks, DrawnSoFar, PageShown, ItemsShow;
    for row := 0 to l.rows
      invariant Fits(out, l.width) && Breaks(out) == row && Column(out) == finalColumn
      invariant DrawnSoFar(out, l, selected, row, 0)
      invariant ItemsShow(out, candidates, mode == Inline, l)
    {
      out, finalColumn := RenderRow(candidates, selected, mode, l, row, out);
    }
    PageDrawn(l, selected, out);
  }

  /** The selected candidate's description, in a row of its own below the page. */
  method RenderDescription(
    candidates: seq<Candidate>, selected: nat, ghost inline: bool, ghost l: Layout, width: nat, before: seq<Piece>)
    returns (out: seq<Piece>, column: nat)
    requires Fits(before, width) && selected < |candidates| && l.rows > 0 && ItemsShow(before, candidates, inline, l)
    ensures Fits(out, width) && Breaks(out) == Breaks(before) + 1 && Column(out) == column
    ensures forall i: nat, s :: Drawn(out, i, s) == Drawn(before, i, s)
    ensures exists text :: Shows(text, candidates[selected].description, width) && out == before + [Break, Colour] + text + [Colour]
    ensures ItemsShow(out, candidates, inline, l)
  {
    hide Fits, Column, Breaks, Drawn, ItemsShow, Shows;
    AppendPiece(before, Break, width);
    out := before + [Break];
    AppendPiece(out, Colour, width);
    out := out + [Colour];
    var text;
    text, column := RenderMenuText(candidates[selected].description, width);
    AppendText(out, text, width);
    out := out + text;
    AppendPiece(out, Colour, width);
    out := out + [Colour];
    assert out == before + [Break, Colour] + text + [Colour];
    assert out == before + ([Break, Colour] + text + [Colour]);
    ItemsStay(before, [Break, Colour] + text + [Colour], candidates, inline, l);
  }
}
