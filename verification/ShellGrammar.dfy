/**
 What the scanners of `ShellWords` are for, said by a grammar of words: the
 analysis of a line that is made of complete words finds the last one, where it
 starts, what it stands for and how it is quoted.
 */
module ShellGrammar {
  import opened ShellWords

  predicate Operator(c: char) {
    c in {';', '&', '|', '(', ')', '<', '>'}
  }

  predicate Blank(c: char) {
    c in {' ', '\t', '\r', '\n'}
  }

  predicate QuoteChar(c: char) {
    c in {'\\', '\'', '"'}
  }

  /** A character between double or dollar quotes, written as it is or behind a backslash. */
  datatype Unit = Bare(c: char) | Slashed(c: char)

  datatype Piece =
    | Plain(c: char)
    | Escape(c: char)
    | InSingle(text: string)
    | InDouble(units: seq<Unit>)
    | InAnsi(units: seq<Unit>)

  function UnitText(u: Unit): string {
    match u
    case Bare(c) => [c]
    case Slashed(c) => ['\\', c]
  }

  function UnitsText(units: seq<Unit>): string {
    if units == [] then "" else UnitText(units[0]) + UnitsText(units[1..])
  }

  function PieceText(p: Piece): string {
    match p
    case Plain(c) => [c]
    case Escape(c) => ['\\', c]
    case InSingle(text) => "'" + (text + "'")
    case InDouble(units) => "\"" + (UnitsText(units) + "\"")
    case InAnsi(units) => "$'" + (UnitsText(units) + "'")
  }

  function WordText(word: seq<Piece>): string {
    if word == [] then "" else PieceText(word[0]) + WordText(word[1..])
  }

  function UnitsMean(units: seq<Unit>): string {
    if units == [] then "" else [units[0].c] + UnitsMean(units[1..])
  }

  function PieceMeans(p: Piece): string {
    match p
    case Plain(c) => [c]
    case Escape(c) => [c]
    case InSingle(text) => text
    case InDouble(units) => UnitsMean(units)
    case InAnsi(units) => UnitsMean(units)
  }

  /** What the word stands for. */
  function WordMeans(word: seq<Piece>): string {
    if word == [] then "" else PieceMeans(word[0]) + WordMeans(word[1..])
  }

  predicate UnitsWithin(units: seq<Unit>, close: char) {
    forall i :: 0 <= i < |units| && units[i].Bare? ==> units[i].c != close && units[i].c != '\\'
  }

  predicate GoodPiece(p: Piece) {
    match p
    case Plain(c) => !Operator(c) && !Blank(c) && !QuoteChar(c)
    case Escape(_) => true
    case InSingle(text) => '\'' !in text
    case InDouble(units) => UnitsWithin(units, '"')
    case InAnsi(units) => UnitsWithin(units, '\'')
  }

  /** A dollar sign before a single quote would open a dollar quote. */
  predicate EndsInDollar(p: Piece) {
    p == Plain('$') || p == Escape('$')
  }

  predicate GoodPieces(word: seq<Piece>) {
    && (forall i :: 0 <= i < |word| ==> GoodPiece(word[i]))
    && (forall i :: 0 <= i < |word| - 1 && EndsInDollar(word[i]) ==> !word[i + 1].InSingle?)
  }

  predicate GoodWord(word: seq<Piece>, comments: bool) {
    GoodPieces(word) && (comments && word != [] ==> word[0] != Plain('#'))
  }

  // ---------------------------------------------------------------------
  // Scanning
  // ---------------------------------------------------------------------

  /** Characters that change nothing within the quotes. */
  lemma {:induction false} ScanSingleText(line: string, i: nat, n: nat, comments: bool, s: Scan)
    requires i <= n <= |line| && InWord(s, s.start, Single) && !s.atWordStart
    requires forall k :: i <= k < n ==> line[k] != '\''
    ensures ScanFrom(line, i, n, comments, s) == s
    decreases n - i
  {
    if i < n {
      ScanSingleText(line, i + 1, n, comments, s);
    }
  }

  lemma ScanUnit(line: string, i: nat, mode: QuoteMode, u: Unit, comments: bool, s: Scan)
    requires mode in {Double, AnsiC} && At(line, i, UnitText(u)) && InWord(s, s.start, mode) && !s.atWordStart
    requires u.Bare? ==> u.c != '\\' && [u.c] != Closing(mode)
    ensures ScanFrom(line, i, i + |UnitText(u)|, comments, s) == s
  {
    AtChar(line, i, UnitText(u), 0);
    if u.Slashed? {
      AtChar(line, i, UnitText(u), 1);
      ScanTwo(line, i, comments, s);
    } else {
      assert Step(line, i, comments, s) == s;
      assert ScanFrom(line, i + 1, i + 1, comments, s) == s;
    }
  }

  lemma {:induction false} ScanUnits(line: string, i: nat, mode: QuoteMode, units: seq<Unit>, comments: bool, s: Scan)
    requires mode in {Double, AnsiC} && At(line, i, UnitsText(units)) && InWord(s, s.start, mode) && !s.atWordStart
    requires UnitsWithin(units, Closing(mode)[0])
    ensures ScanFrom(line, i, i + |UnitsText(units)|, comments, s) == s
    decreases |units|
  {
    hide *;
    if units == [] {
      NoUnits(line, i, units, comments, s);
    } else {
      var u, rest := UnitText(units[0]), UnitsText(units[1..]);
      FirstUnit(units, mode);
      AtSplits(line, i, u, rest);
      ScanUnit(line, i, mode, units[0], comments, s);
      ScanUnits(line, i + |u|, mode, units[1..], comments, s);
      WithinLine(line, i + |u|, rest);
      ScanSplits(line, i, i + |u|, i + |u| + |rest|, comments, s);
    }
  }

  lemma NoUnits(line: string, i: nat, units: seq<Unit>, comments: bool, s: Scan)
    requires units == [] && At(line, i, UnitsText(units))
    ensures i + |UnitsText(units)| == i <= |line| && ScanFrom(line, i, i, comments, s) == s
  {
  }

  lemma FirstUnit(units: seq<Unit>, mode: QuoteMode)
    requires units != [] && mode != Unquoted && UnitsWithin(units, Closing(mode)[0])
    ensures UnitsText(units) == UnitText(units[0]) + UnitsText(units[1..])
    ensures (units[0].Bare? ==> units[0].c != '\\' && [units[0].c] != Closing(mode)) && UnitsWithin(units[1..], Closing(mode)[0])
  {
    hide UnitText;
  }

  /** Where a quote opens: after it the scan is inside. */
  lemma ScanOpened(line: string, i: nat, mode: QuoteMode, comments: bool, s: Scan)
    requires mode != Unquoted && At(line, i, Opening(mode)) && InWord(s, s.start, Unquoted) && s.start <= i
    requires mode == Single ==> i == s.start || line[i - 1] != '$'
    ensures ScanFrom(line, i, i + |Opening(mode)|, comments, s) == s.(quote := mode, atWordStart := false)
  {
    AtChar(line, i, Opening(mode), 0);
    if mode == AnsiC {
      AtChar(line, i, Opening(mode), 1);
      ScanTwo(line, i, comments, s);
    } else {
      var t := Step(line, i, comments, s);
      assert ScanFrom(line, i + 1, i + 1, comments, t) == t;
    }
  }

  lemma ScanClosed(line: string, i: nat, mode: QuoteMode, comments: bool, s: Scan)
    requires mode != Unquoted && At(line, i, Closing(mode)) && InWord(s, s.start, mode) && !s.atWordStart
    ensures ScanFrom(line, i, i + 1, comments, s) == s.(quote := Unquoted)
  {
    AtChar(line, i, Closing(mode), 0);
    var t := Step(line, i, comments, s);
    assert ScanFrom(line, i + 1, i + 1, comments, t) == t;
  }

  /** Opening, contents and closing, one after the other. */
  lemma ScanThrough(line: string, i: nat, mode: QuoteMode, text: string, comments: bool, s: Scan)
    requires mode != Unquoted && At(line, i, Opening(mode) + (text + Closing(mode)))
    requires InWord(s, s.start, Unquoted) && s.start <= i && (mode == Single ==> i == s.start || line[i - 1] != '$')
    requires var j := i + |Opening(mode)|; var t := s.(quote := mode, atWordStart := false);
      j + |text| <= |line| && ScanFrom(line, j, j + |text|, comments, t) == t
    ensures ScanFrom(line, i, i + |Opening(mode) + (text + Closing(mode))|, comments, s) == s.(atWordStart := false)
  {
    hide *;
    var j := i + |Opening(mode)|;
    var t := s.(quote := mode, atWordStart := false);
    ClosingIsOne(mode);
    NowInside(s, s.start, mode);
    AtSplits(line, i, Opening(mode), text + Closing(mode));
    AtSplits(line, j, text, Closing(mode));
    WithinLine(line, j + |text|, Closing(mode));
    ScanOpened(line, i, mode, comments, s);
    ScanClosed(line, j + |text|, mode, comments, t);
    ScanThree(line, i, j, j + |text|, j + |text| + 1, comments, s);
  }

  lemma NowInside(s: Scan, start: nat, mode: QuoteMode)
    requires InWord(s, start, Unquoted)
    ensures InWord(s.(quote := mode, atWordStart := false), start, mode) && s.quote == Unquoted
  {
  }

  lemma ClosingIsOne(mode: QuoteMode)
    requires mode != Unquoted
    ensures |Closing(mode)| == 1
  {
  }

  lemma ScanThree(line: string, i: nat, j: nat, k: nat, n: nat, comments: bool, s: Scan)
    requires i <= j <= k <= n <= |line|
    ensures ScanFrom(line, i, n, comments, s) ==
      ScanFrom(line, k, n, comments, ScanFrom(line, j, k, comments, ScanFrom(line, i, j, comments, s)))
  {
    hide ScanFrom;
    ScanSplits(line, i, j, k, comments, s);
    ScanSplits(line, i, k, n, comments, s);
  }

  /** Whether a word may go on with this piece at position `i`. */
  predicate MayStart(line: string, i: nat, p: Piece, comments: bool, s: Scan)
    requires i <= |line|
  {
    && InWord(s, s.start, Unquoted) && s.start <= i
    && (p.InSingle? ==> i == s.start || line[i - 1] != '$')
    && (comments && s.atWordStart ==> p != Plain('#'))
  }

  lemma ScanUnquoted(line: string, i: nat, p: Piece, comments: bool, s: Scan)
    requires (p.Plain? || p.Escape?) && At(line, i, PieceText(p)) && GoodPiece(p)
    requires i <= |line| && MayStart(line, i, p, comments, s)
    ensures var t := ScanFrom(line, i, i + |PieceText(p)|, comments, s);
      InWord(t, s.start, Unquoted) && !t.atWordStart
  {
    AtChar(line, i, PieceText(p), 0);
    if p.Escape? {
      ScanTwo(line, i, comments, s);
    }
  }

  /** How a quoted piece is made up, and that its contents leave the scan inside the quotes. */
  lemma QuotedPiece(line: string, i: nat, p: Piece, comments: bool, s: Scan) returns (mode: QuoteMode, text: string)
    requires !p.Plain? && !p.Escape? && At(line, i, PieceText(p)) && GoodPiece(p)
    requires i <= |line| && MayStart(line, i, p, comments, s)
    ensures mode != Unquoted && PieceText(p) == Opening(mode) + (text + Closing(mode))
    ensures InWord(s, s.start, Unquoted) && s.start <= i && (mode == Single ==> i == s.start || line[i - 1] != '$')
    ensures var j := i + |Opening(mode)|; var t := s.(quote := mode, atWordStart := false);
      j + |text| <= |line| && ScanFrom(line, j, j + |text|, comments, t) == t
  {
    hide ScanFrom, Step, At, UnitsText;
    match p {
      case InSingle(t) =>
        mode, text := Single, t;
        SingleTextStays(line, i, text, comments, s);
      case InDouble(units) =>
        mode, text := Double, UnitsText(units);
        UnitsStay(line, i, Double, units, comments, s);
      case InAnsi(units) =>
        mode, text := AnsiC, UnitsText(units);
        UnitsStay(line, i, AnsiC, units, comments, s);
    }
  }

  lemma NowOutside(s: Scan)
    requires InWord(s, s.start, Unquoted)
    ensures InWord(s.(atWordStart := false), s.start, Unquoted)
  {
  }

  lemma ScanPiece(line: string, i: nat, p: Piece, comments: bool, s: Scan)
    requires At(line, i, PieceText(p)) && GoodPiece(p)
    requires i <= |line| && MayStart(line, i, p, comments, s)
    ensures var t := ScanFrom(line, i, i + |PieceText(p)|, comments, s);
      InWord(t, s.start, Unquoted) && !t.atWordStart
  {
    hide *;
    if p.Plain? || p.Escape? {
      ScanUnquoted(line, i, p, comments, s);
    } else {
      var mode, text := QuotedPiece(line, i, p, comments, s);
      ScanThrough(line, i, mode, text, comments, s);
      NowOutside(s);
    }
  }

  lemma SingleTextStays(line: string, i: nat, text: string, comments: bool, s: Scan)
    requires At(line, i, "'" + (text + "'")) && '\'' !in text && InWord(s, s.start, Unquoted)
    ensures var t := s.(quote := Single, atWordStart := false);
      i + 1 + |text| <= |line| && ScanFrom(line, i + 1, i + 1 + |text|, comments, t) == t
  {
    AtSplits(line, i, "'", text + "'");
    AtSplits(line, i + 1, text, "'");
    forall k | i + 1 <= k < i + 1 + |text| ensures line[k] != '\'' {
      AtChar(line, i + 1, text, k - i - 1);
    }
    ScanSingleText(line, i + 1, i + 1 + |text|, comments, s.(quote := Single, atWordStart := false));
  }

  lemma UnitsStay(line: string, i: nat, mode: QuoteMode, units: seq<Unit>, comments: bool, s: Scan)
    requires mode in {Double, AnsiC} && At(line, i, Opening(mode) + (UnitsText(units) + Closing(mode)))
    requires UnitsWithin(units, Closing(mode)[0]) && InWord(s, s.start, Unquoted)
    ensures var t := s.(quote := mode, atWordStart := false); var j := i + |Opening(mode)|; var n := |UnitsText(units)|;
      j + n <= |line| && ScanFrom(line, j, j + n, comments, t) == t
  {
    var j := i + |Opening(mode)|;
    AtSplits(line, i, Opening(mode), UnitsText(units) + Closing(mode));
    AtSplits(line, j, UnitsText(units), Closing(mode));
    ScanUnits(line, j, mode, units, comments, s.(quote := mode, atWordStart := false));
    WithinLine(line, j, UnitsText(units));
  }

  lemma LastChar(line: string, i: nat, p: Piece)
    requires At(line, i, PieceText(p))
    ensures |PieceText(p)| > 0 && i + |PieceText(p)| <= |line|
    ensures line[i + |PieceText(p)| - 1] == '$' ==> EndsInDollar(p)
  {
    AtChar(line, i, PieceText(p), |PieceText(p)| - 1);
  }

  lemma WordStep(word: seq<Piece>)
    requires word != []
    ensures WordText(word) == PieceText(word[0]) + WordText(word[1..])
  {
  }

  lemma GoodTail(word: seq<Piece>)
    requires word != [] && GoodPieces(word)
    ensures GoodPiece(word[0]) && GoodPieces(word[1..])
    ensures EndsInDollar(word[0]) && |word| > 1 ==> !word[1..][0].InSingle?
  {
    hide GoodPiece, EndsInDollar;
  }

  /** Whether the word may go on with these pieces at position `i`. */
  predicate MayFollow(line: string, i: nat, word: seq<Piece>, comments: bool, s: Scan)
    requires i <= |line|
  {
    && InWord(s, s.start, Unquoted) && s.start <= i
    && (word != [] && word[0].InSingle? ==> i == s.start || line[i - 1] != '$')
    && (comments && s.atWordStart && word != [] ==> word[0] != Plain('#'))
  }

  lemma MayGoOn(line: string, i: nat, word: seq<Piece>, comments: bool, s: Scan, j: nat, t: Scan)
    requires word != [] && i < j <= |line| && GoodPieces(word)
    requires s.start <= i && InWord(t, s.start, Unquoted) && !t.atWordStart
    requires line[j - 1] == '$' ==> EndsInDollar(word[0])
    ensures t.start == s.start && MayFollow(line, j, word[1..], comments, t)
  {
    GoodTail(word);
    hide GoodPieces, EndsInDollar;
  }

  lemma MayBegin(line: string, i: nat, word: seq<Piece>, comments: bool, s: Scan)
    requires word != [] && i <= |line| && MayFollow(line, i, word, comments, s)
    ensures MayStart(line, i, word[0], comments, s) && s.start <= i
  {
  }

  lemma ScanFirstPiece(line: string, i: nat, word: seq<Piece>, comments: bool, s: Scan) returns (j: nat, t: Scan)
    requires word != [] && At(line, i, WordText(word)) && GoodPieces(word)
    requires i <= |line| && MayFollow(line, i, word, comments, s)
    ensures i < j <= |line| && t == ScanFrom(line, i, j, comments, s) && t.start == s.start
    ensures At(line, j, WordText(word[1..])) && i + |WordText(word)| == j + |WordText(word[1..])|
    ensures GoodPieces(word[1..]) && MayFollow(line, j, word[1..], comments, t)
  {
    hide *;
    var first := PieceText(word[0]);
    WordStep(word);
    GoodTail(word);
    MayBegin(line, i, word, comments, s);
    AtSplits(line, i, first, WordText(word[1..]));
    LastChar(line, i, word[0]);
    j := i + |first|;
    t := ScanFrom(line, i, j, comments, s);
    ScanPiece(line, i, word[0], comments, s);
    MayGoOn(line, i, word, comments, s, j, t);
  }

  /** A word is scanned as one word, whatever its pieces. */
  lemma {:induction false} ScanWord(line: string, i: nat, word: seq<Piece>, comments: bool, s: Scan)
    requires At(line, i, WordText(word)) && GoodPieces(word)
    requires i <= |line| && MayFollow(line, i, word, comments, s)
    ensures i + |WordText(word)| <= |line|
    ensures InWord(ScanFrom(line, i, i + |WordText(word)|, comments, s), s.start, Unquoted)
    decreases |word|
  {
    hide *;
    if word == [] {
      ScanNothing(line, i, comments, s);
      MayFollowInWord(line, i, word, comments, s);
    } else {
      var j, t := ScanFirstPiece(line, i, word, comments, s);
      ScanWord(line, j, word[1..], comments, t);
      ScanSplits(line, i, j, j + |WordText(word[1..])|, comments, s);
    }
  }

  lemma ScanNothing(line: string, i: nat, comments: bool, s: Scan)
    requires i <= |line|
    ensures ScanFrom(line, i, i, comments, s) == s && WordText([]) == "" && LineText([]) == ""
  {
  }

  lemma MayFollowInWord(line: string, i: nat, word: seq<Piece>, comments: bool, s: Scan)
    requires i <= |line| && MayFollow(line, i, word, comments, s)
    ensures InWord(s, s.start, Unquoted)
  {
  }

  /** An operator or a blank ends the word. */
  lemma ScanSeparator(line: string, n: nat, comments: bool, s: Scan)
    requires n < |line| && (Operator(line[n]) || Blank(line[n])) && InWord(s, s.start, Unquoted)
    ensures Fresh(ScanFrom(line, n, n + 1, comments, s), n + 1)
  {
    var t := Step(line, n, comments, s);
    assert ScanFrom(line, n + 1, n + 1, comments, t) == t;
  }

  /** A comment reaches to the end of its line, where a new word starts. */
  lemma ScanWholeComment(line: string, i: nat, n: nat, s: Scan)
    requires i < n < |line| && line[i] == '#' && line[n] == '\n' && (forall k :: i <= k < n ==> line[k] != '\n')
    requires Fresh(s, i)
    ensures Fresh(ScanFrom(line, i, n + 1, true, s), n + 1)
  {
    var t := Step(line, i, true, s);
    assert t.comment;
    CommentWithoutNewline(line, i + 1, n, true, t);
    ScanSplits(line, i + 1, n, n + 1, true, t);
    var u := Step(line, n, true, t);
    assert ScanFrom(line, n + 1, n + 1, true, u) == u;
    assert ScanFrom(line, i, n + 1, true, s) == ScanFrom(line, i + 1, n + 1, true, t);
  }

  // ---------------------------------------------------------------------
  // Lines
  // ---------------------------------------------------------------------

  /** A word and the separator behind it. */
  datatype Ended = Ended(word: seq<Piece>, separator: char)

  function EndedText(e: Ended): string {
    WordText(e.word) + [e.separator]
  }

  function LineText(ended: seq<Ended>): string {
    if ended == [] then "" else EndedText(ended[0]) + LineText(ended[1..])
  }

  predicate GoodLine(ended: seq<Ended>, comments: bool) {
    forall i :: 0 <= i < |ended| ==>
      GoodWord(ended[i].word, comments) && (Operator(ended[i].separator) || Blank(ended[i].separator))
  }

  lemma ScanEnded(line: string, i: nat, e: Ended, comments: bool, s: Scan)
    requires At(line, i, EndedText(e)) && Fresh(s, i) && GoodWord(e.word, comments)
    requires Operator(e.separator) || Blank(e.separator)
    ensures var n := i + |EndedText(e)|; n <= |line| && Fresh(ScanFrom(line, i, n, comments, s), n)
  {
    hide *;
    var n := i + |WordText(e.word)|;
    EndedParts(e, comments);
    AtSplits(line, i, WordText(e.word), [e.separator]);
    WithinLine(line, n, [e.separator]);
    AtChar(line, n, [e.separator], 0);
    FreshMayFollow(line, i, e.word, comments, s);
    FreshStarts(s, i);
    ScanWord(line, i, e.word, comments, s);
    var t := ScanFrom(line, i, n, comments, s);
    InItsWord(t, i);
    ScanSeparator(line, n, comments, t);
    ScanSplits(line, i, n, n + 1, comments, s);
  }

  lemma EndedParts(e: Ended, comments: bool)
    requires GoodWord(e.word, comments)
    ensures EndedText(e) == WordText(e.word) + [e.separator] && GoodPieces(e.word)
  {
    hide GoodPieces, WordText;
  }

  lemma FreshMayFollow(line: string, i: nat, word: seq<Piece>, comments: bool, s: Scan)
    requires i <= |line| && Fresh(s, i) && GoodWord(word, comments)
    ensures MayFollow(line, i, word, comments, s)
  {
  }

  lemma InItsWord(s: Scan, start: nat)
    requires InWord(s, start, Unquoted)
    ensures InWord(s, s.start, Unquoted) && s.start == start && s.quote == Unquoted
  {
  }

  lemma LineStep(ended: seq<Ended>, comments: bool)
    requires ended != [] && GoodLine(ended, comments)
    ensures LineText(ended) == EndedText(ended[0]) + LineText(ended[1..])
    ensures GoodWord(ended[0].word, comments) && (Operator(ended[0].separator) || Blank(ended[0].separator))
    ensures GoodLine(ended[1..], comments)
  {
    hide GoodWord, EndedText;
  }

  lemma ScanFirstEnded(line: string, i: nat, ended: seq<Ended>, comments: bool, s: Scan) returns (j: nat, t: Scan)
    requires ended != [] && At(line, i, LineText(ended)) && Fresh(s, i) && GoodLine(ended, comments)
    ensures i <= j <= |line| && t == ScanFrom(line, i, j, comments, s) && Fresh(t, j) && GoodLine(ended[1..], comments)
    ensures At(line, j, LineText(ended[1..])) && i + |LineText(ended)| == j + |LineText(ended[1..])|
  {
    hide *;
    LineStep(ended, comments);
    AtSplits(line, i, EndedText(ended[0]), LineText(ended[1..]));
    ScanEnded(line, i, ended[0], comments, s);
    j := i + |EndedText(ended[0])|;
    t := ScanFrom(line, i, j, comments, s);
  }

  lemma {:induction false} ScanLine(line: string, i: nat, ended: seq<Ended>, comments: bool, s: Scan)
    requires At(line, i, LineText(ended)) && Fresh(s, i) && GoodLine(ended, comments)
    ensures i + |LineText(ended)| <= |line|
    ensures Fresh(ScanFrom(line, i, i + |LineText(ended)|, comments, s), i + |LineText(ended)|)
    decreases |ended|
  {
    hide *;
    if ended == [] {
      WithinLine(line, i, LineText(ended));
      ScanNothing(line, i, comments, s);
    } else {
      var j, t := ScanFirstEnded(line, i, ended, comments, s);
      ScanLine(line, j, ended[1..], comments, t);
      ScanSplits(line, i, j, j + |LineText(ended[1..])|, comments, s);
    }
  }

  lemma PartsStand(a: string, b: string, c: string)
    ensures var line := a + b + c;
      && At(line, 0, a) && At(line, |a|, b) && At(line, |a| + |b|, c)
      && |line| == |a| + |b| + |c| && line[|a|..|a| + |b|] == b
  {
  }

  /** The current word starts behind the last separator. */
  lemma LastWordIsFound(ended: seq<Ended>, word: seq<Piece>, after: string, comments: bool)
    requires GoodLine(ended, comments) && GoodWord(word, comments)
    ensures var line := LineText(ended) + WordText(word) + after; var point := |LineText(ended)| + |WordText(word)|;
      InWord(Scanned(line, point, comments), |LineText(ended)|, Unquoted)
  {
    hide *;
    var n, m := |LineText(ended)|, |LineText(ended)| + |WordText(word)|;
    var line := LineText(ended) + WordText(word) + after;
    PartsStand(LineText(ended), WordText(word), after);
    BeginsFresh(word, comments);
    ScanLine(line, 0, ended, comments, BEGIN);
    var s := ScanFrom(line, 0, n, comments, BEGIN);
    FreshMayFollow(line, n, word, comments, s);
    FreshStarts(s, n);
    ScanWord(line, n, word, comments, s);
    ScanSplits(line, 0, n, m, comments, BEGIN);
    ScannedIs(line, m, comments);
  }

  lemma BeginsFresh(word: seq<Piece>, comments: bool)
    requires GoodWord(word, comments)
    ensures Fresh(BEGIN, 0) && GoodPieces(word)
  {
    hide GoodPieces;
  }

  lemma FreshStarts(s: Scan, i: nat)
    requires Fresh(s, i)
    ensures s.start == i
  {
  }

  lemma ScannedIs(line: string, n: nat, comments: bool)
    requires n <= |line|
    ensures Scanned(line, n, comments) == ScanFrom(line, 0, n, comments, BEGIN)
  {
  }

  // ---------------------------------------------------------------------
  // Meaning
  // ---------------------------------------------------------------------

  lemma {:induction false} UnitsDequote(units: seq<Unit>, mode: QuoteMode, tail: string)
    requires mode in {Double, AnsiC} && UnitsWithin(units, Closing(mode)[0])
    ensures Dequoted(UnitsText(units) + (Closing(mode) + tail), mode) == UnitsMean(units) + Dequoted(tail, Unquoted)
    decreases |units|
  {
    if units == [] {
      assert (Closing(mode) + tail)[1..] == tail;
      assert UnitsText(units) + (Closing(mode) + tail) == Closing(mode) + tail;
      assert "" + Dequoted(tail, Unquoted) == Dequoted(tail, Unquoted);
    } else {
      var rest := UnitsText(units[1..]) + (Closing(mode) + tail);
      UnitsDequote(units[1..], mode, tail);
      UnitDequotes(units[0], mode, rest);
      hide Dequoted, Closing;
      Associates(UnitText(units[0]), UnitsText(units[1..]), Closing(mode) + tail);
      Associates([units[0].c], UnitsMean(units[1..]), Dequoted(tail, Unquoted));
    }
  }

  lemma UnitDequotes(u: Unit, mode: QuoteMode, rest: string)
    requires mode in {Double, AnsiC} && (u.Bare? ==> u.c != '\\' && [u.c] != Closing(mode))
    ensures Dequoted(UnitText(u) + rest, mode) == [u.c] + Dequoted(rest, mode)
  {
    match u {
      case Bare(c) => assert ([c] + rest)[1..] == rest;
      case Slashed(c) =>
        assert (['\\', c] + rest)[1..] == [c] + rest;
        assert First([c] + rest) == [c] && Rest([c] + rest) == rest;
    }
  }

  lemma {:induction false} SingleDequotes(text: string, tail: string)
    requires '\'' !in text
    ensures Dequoted(text + ("'" + tail), Single) == text + Dequoted(tail, Unquoted)
  {
    if text == "" {
      assert ("'" + tail)[1..] == tail && "" + ("'" + tail) == "'" + tail;
      assert "" + Dequoted(tail, Unquoted) == Dequoted(tail, Unquoted);
    } else {
      SingleDequotes(text[1..], tail);
      assert (text + ("'" + tail))[1..] == text[1..] + ("'" + tail);
      assert text == [text[0]] + text[1..];
      Associates([text[0]], text[1..], Dequoted(tail, Unquoted));
    }
  }

  lemma SingleWhole(text: string, tail: string)
    requires '\'' !in text
    ensures Dequoted("'" + (text + "'") + tail, Unquoted) == text + Dequoted(tail, Unquoted)
  {
    var inner := text + ("'" + tail);
    SingleDequotes(text, tail);
    assert "'" + (text + "'") + tail == "'" + inner;
    assert ("'" + inner)[1..] == inner;
    hide *;
    OpensSingle("'" + inner);
  }

  lemma OpensSingle(raw: string)
    requires raw != "" && raw[0] == '\''
    ensures Dequoted(raw, Unquoted) == Dequoted(raw[1..], Single)
  {
  }

  lemma OpensDouble(raw: string)
    requires raw != "" && raw[0] == '"'
    ensures Dequoted(raw, Unquoted) == Dequoted(raw[1..], Double)
  {
  }

  lemma OpensAnsi(raw: string)
    requires |raw| > 1 && raw[0] == '$' && raw[1] == '\''
    ensures Dequoted(raw, Unquoted) == Dequoted(raw[2..], AnsiC)
  {
    assert raw[1..][1..] == raw[2..];
  }

  lemma DoubleWhole(units: seq<Unit>, tail: string)
    requires UnitsWithin(units, '"')
    ensures Dequoted("\"" + (UnitsText(units) + "\"") + tail, Unquoted) == UnitsMean(units) + Dequoted(tail, Unquoted)
  {
    var inner := UnitsText(units) + ("\"" + tail);
    UnitsDequote(units, Double, tail);
    assert "\"" + (UnitsText(units) + "\"") + tail == "\"" + inner;
    assert ("\"" + inner)[1..] == inner && Closing(Double) == "\"";
    hide *;
    OpensDouble("\"" + inner);
  }

  lemma AnsiWhole(units: seq<Unit>, tail: string)
    requires UnitsWithin(units, '\'')
    ensures Dequoted("$'" + (UnitsText(units) + "'") + tail, Unquoted) == UnitsMean(units) + Dequoted(tail, Unquoted)
  {
    var inner := UnitsText(units) + ("'" + tail);
    UnitsDequote(units, AnsiC, tail);
    assert "$'" + (UnitsText(units) + "'") + tail == "$'" + inner;
    assert ("$'" + inner)[2..] == inner && Closing(AnsiC) == "'";
    hide *;
    OpensAnsi("$'" + inner);
  }

  lemma PieceDequotes(p: Piece, tail: string)
    requires GoodPiece(p) && (p == Plain('$') ==> tail == "" || tail[0] != '\'')
    ensures Dequoted(PieceText(p) + tail, Unquoted) == PieceMeans(p) + Dequoted(tail, Unquoted)
  {
    match p {
      case Plain(c) => assert ([c] + tail)[1..] == tail;
      case Escape(c) =>
        assert (['\\', c] + tail)[1..] == [c] + tail;
        assert First([c] + tail) == [c] && Rest([c] + tail) == tail;
      case InSingle(text) =>
        hide Dequoted;
        SingleWhole(text, tail);
      case InDouble(units) =>
        hide Dequoted;
        DoubleWhole(units, tail);
      case InAnsi(units) =>
        hide Dequoted;
        AnsiWhole(units, tail);
    }
  }

  lemma StartsWithQuote(word: seq<Piece>)
    requires word != [] && GoodPiece(word[0]) && !word[0].InSingle?
    ensures WordText(word) != "" && WordText(word)[0] != '\''
  {
    assert WordText(word)[0] == PieceText(word[0])[0];
  }

  /** Dequoting gives what the word stands for. */
  lemma {:induction false} WordDequotes(word: seq<Piece>)
    requires GoodPieces(word)
    ensures Dequoted(WordText(word), Unquoted) == WordMeans(word)
    decreases |word|
  {
    if word != [] {
      var rest := word[1..];
      assert GoodPieces(rest);
      if word[0] == Plain('$') && rest != [] {
        assert EndsInDollar(word[0]) && rest[0] == word[1] && !word[1].InSingle?;
        StartsWithQuote(rest);
      }
      WordDequotes(rest);
      PieceDequotes(word[0], WordText(rest));
    }
  }

  // ---------------------------------------------------------------------
  // Analysis
  // ---------------------------------------------------------------------

  /** A quote that opens the word decides how a completion is quoted; without one the quote that is open does. */
  lemma OpeningDecides(line: string, start: nat, quote: QuoteMode, mode: QuoteMode)
    requires start <= |line|
    ensures mode != Unquoted && At(line, start, Opening(mode)) ==> Preferred(line, start, quote) == mode
    ensures (forall m: QuoteMode :: m != Unquoted ==> !At(line, start, Opening(m))) ==> Preferred(line, start, quote) == quote
  {
    OpeningStands(line, start, "'");
    OpeningStands(line, start, "\"");
    OpeningStands(line, start, "$'");
    assert Opening(Single) == "'" && Opening(Double) == "\"" && Opening(AnsiC) == "$'";
    hide At, Opening;
  }

  lemma OpeningStands(line: string, start: nat, text: string)
    requires 1 <= |text| <= 2
    ensures At(line, start, text) <==>
      start + |text| <= |line| && line[start] == text[0] && (|text| == 2 ==> line[start + 1] == text[1])
  {
  }

  /** The whole analysis of a line of complete words, with the cursor behind the last one. */
  lemma AnalysisFindsWord(ended: seq<Ended>, word: seq<Piece>, after: string, comments: bool)
    requires GoodLine(ended, comments) && GoodWord(word, comments)
    requires Utf8Size(LineText(ended) + WordText(word) + after) <= MAX_COMPLETION_CONTEXT_BYTES
    ensures var line := LineText(ended) + WordText(word) + after; var start := |LineText(ended)|;
      var c := Analyzed(line, start + |WordText(word)|, comments);
      && c.replaceStart == start && c.query == WordMeans(word)
      && c.quote == Preferred(line, start, Unquoted)
  {
    hide *;
    BeginsFresh(word, comments);
    var line := LineText(ended) + WordText(word) + after;
    var start, point := |LineText(ended)|, |LineText(ended)| + |WordText(word)|;
    PartsStand(LineText(ended), WordText(word), after);
    LastWordIsFound(ended, word, after, comments);
    InItsWord(Scanned(line, point, comments), start);
    WordDequotes(word);
    AnalyzedWithinCap(line, point, comments);
    PointStands(line, point);
    AnalyzedQuote(line, point, comments);
  }

  lemma PointStands(line: string, point: nat)
    requires point <= |line|
    ensures Clamp(line, point) == point
  {
  }

  lemma AnalyzedQuote(line: string, point: nat, comments: bool)
    requires Utf8Size(line) <= MAX_COMPLETION_CONTEXT_BYTES && point <= |line|
    ensures var s := Scanned(line, point, comments);
      Analyzed(line, point, comments).quote == Preferred(line, s.start, s.quote)
  {
  }

  /** A quote that is still open behind complete pieces is the one the scan reports. */
  lemma OpenQuoteIsSeen(ended: seq<Ended>, word: seq<Piece>, mode: QuoteMode, comments: bool)
    requires GoodLine(ended, comments) && GoodWord(word, comments) && mode != Unquoted
    requires mode == Single && word != [] ==> !EndsInDollar(word[|word| - 1])
    ensures var line := LineText(ended) + WordText(word) + Opening(mode);
      InWord(Scanned(line, |line|, comments), |LineText(ended)|, mode)
  {
    hide *;
    var line := LineText(ended) + WordText(word) + Opening(mode);
    var n, m := |LineText(ended)|, |LineText(ended)| + |WordText(word)|;
    var s := Scanned(line, m, comments);
    PartsStand(LineText(ended), WordText(word), Opening(mode));
    LastWordIsFound(ended, word, Opening(mode), comments);
    InItsWord(s, n);
    NoDollarBefore(ended, word, mode, comments);
    ScanOpened(line, m, mode, comments, s);
    ScanSplits(line, 0, m, |line|, comments, BEGIN);
    ScannedIs(line, m, comments);
    ScannedIs(line, |line|, comments);
    NowInside(s, n, mode);
  }

  lemma NoDollarBefore(ended: seq<Ended>, word: seq<Piece>, mode: QuoteMode, comments: bool)
    requires GoodWord(word, comments) && mode == Single && word != [] ==> !EndsInDollar(word[|word| - 1])
    ensures var line := LineText(ended) + WordText(word) + Opening(mode); var m := |LineText(ended)| + |WordText(word)|;
      GoodWord(word, comments) && mode == Single ==> m == |LineText(ended)| || line[m - 1] != '$'
  {
    if GoodWord(word, comments) && mode == Single && word != [] {
      LastOfWord(word);
      hide *;
      LastOfTwo(LineText(ended), WordText(word), Opening(mode));
    }
  }

  lemma LastOfTwo(a: string, b: string, c: string)
    requires b != ""
    ensures (a + b + c)[|a| + |b| - 1] == b[|b| - 1]
  {
  }

  lemma {:induction false} LastOfWord(word: seq<Piece>)
    requires word != [] && GoodPieces(word) && !EndsInDollar(word[|word| - 1])
    ensures WordText(word) != "" && WordText(word)[|WordText(word)| - 1] != '$'
    decreases |word|
  {
    var first := PieceText(word[0]);
    if |word| == 1 {
      assert WordText(word[1..]) == "";
      assert first + "" == first && WordText(word) == first;
      assert At(first, 0, first);
      LastChar(first, 0, word[0]);
    } else {
      assert GoodPieces(word[1..]);
      LastOfWord(word[1..]);
    }
  }

  // ---------------------------------------------------------------------
  // Quoted values
  // ---------------------------------------------------------------------

  /** The characters that a shell interprets where they stand unescaped. */
  predicate Live(mode: QuoteMode, c: char) {
    match mode
    case Unquoted =>
      || Operator(c) || Blank(c) || IsWhitespace(c) || QuoteChar(c)
      || c in {'$', '`', '!'} || c in {'*', '?', '[', ']'} || c in {'{', '}'}
    case Double => c in {'$', '`'} || c in {'"', '\\'}
    case AnsiC => c in {'\'', '\\'}
    case Single => c == '\''
  }

  function Lived(mode: QuoteMode, value: string): seq<Unit> {
    seq(|value|, k requires 0 <= k < |value| => if Live(mode, value[k]) then Slashed(value[k]) else Bare(value[k]))
  }

  /** Every live character of a quoted value is escaped, and no other one is. */
  lemma {:induction false} LiveIsEscaped(mode: QuoteMode, value: string)
    requires mode != Single
    ensures Escaped(mode, value) == UnitsText(Lived(mode, value))
    decreases |value|
  {
    if value != "" {
      LiveIsEscaped(mode, value[1..]);
      assert Lived(mode, value)[1..] == Lived(mode, value[1..]);
      assert EscapedChar(mode, value[0]) == UnitText(Lived(mode, value)[0]);
    }
  }

  /** Between single quotes nothing is live but the quote, which is put between two quoted parts. */
  function Parted(value: string): (r: seq<Piece>)
    ensures r != [] && r[0].InSingle?
  {
    if value == "" then [InSingle("")]
    else
      var rest := Parted(value[1..]);
      if value[0] == '\'' then [InSingle(""), Escape('\'')] + rest
      else [InSingle([value[0]] + rest[0].text)] + rest[1..]
  }

  lemma {:induction false} PartedIsGood(value: string)
    ensures GoodPieces(Parted(value))
    ensures forall i :: 0 <= i < |Parted(value)| ==> Parted(value)[i].InSingle? || Parted(value)[i] == Escape('\'')
  {
    if value != "" {
      PartedIsGood(value[1..]);
    }
  }

  lemma {:induction false} PartedIsQuoted(value: string)
    ensures WordText(Parted(value)) == "'" + (Escaped(Single, value) + "'")
  {
    if value == "" {
      assert WordText(Parted(value)) == PieceText(InSingle("")) + WordText([]);
    } else {
      var rest := Parted(value[1..]);
      PartedIsQuoted(value[1..]);
      PartedStep(value, rest);
    }
  }

  lemma PartedStep(value: string, rest: seq<Piece>)
    requires value != "" && rest == Parted(value[1..]) && WordText(rest) == "'" + (Escaped(Single, value[1..]) + "'")
    ensures WordText(Parted(value)) == "'" + (Escaped(Single, value) + "'")
  {
    var tail := Escaped(Single, value[1..]);
    EscapedStep(Single, value);
    if value[0] == '\'' {
      assert Parted(value) == [InSingle(""), Escape('\'')] + rest && EscapedChar(Single, '\'') == "'\\''";
      hide *;
      TwoMore(rest, tail + "'");
      Associates("'\\''", tail, "'");
      Associates("'", "'\\''", tail + "'");
      Associates("''\\'", "'", tail + "'");
      assert "'" + "'\\''" == "''\\'" + "'";
    } else {
      assert Parted(value) == [InSingle([value[0]] + rest[0].text)] + rest[1..] && EscapedChar(Single, value[0]) == [value[0]];
      hide *;
      OneLonger(rest, value[0], tail + "'");
      assert "'" + ([value[0]] + tail + "'") == "'" + ([value[0]] + (tail + "'"));
    }
  }

  lemma EmptyAndQuote()
    ensures PieceText(InSingle("")) == "''" && PieceText(Escape('\'')) == "\\'"
  {
  }

  lemma TwoMore(rest: seq<Piece>, text: string)
    requires WordText(rest) == "'" + text
    ensures WordText([InSingle(""), Escape('\'')] + rest) == "''\\'" + ("'" + text)
  {
    hide *;
    var word := [InSingle(""), Escape('\'')] + rest;
    var tail := [Escape('\'')] + rest;
    assert word[1..] == tail && tail[1..] == rest;
    WordStep(word);
    WordStep(tail);
    EmptyAndQuote();
    Associates("''", "\\'", WordText(rest));
    assert "''" + "\\'" == "''\\'";
  }

  lemma OneLonger(rest: seq<Piece>, c: char, text: string)
    requires rest != [] && rest[0].InSingle? && WordText(rest) == "'" + text
    ensures WordText([InSingle([c] + rest[0].text)] + rest[1..]) == "'" + ([c] + text)
  {
    var word := [InSingle([c] + rest[0].text)] + rest[1..];
    var first, after := rest[0].text, WordText(rest[1..]);
    assert word[1..] == rest[1..];
    WordStep(word);
    WordStep(rest);
    assert PieceText(word[0]) == "'" + ([c] + first + "'") && PieceText(rest[0]) == "'" + (first + "'");
    hide *;
    Regroup("'", c, first, after, text);
  }

  lemma Regroup(q: string, c: char, first: string, after: string, text: string)
    requires q + (first + q) + after == q + text
    ensures q + ([c] + first + q) + after == q + ([c] + text)
  {
    Associates(q, first + q, after);
    assert (q + ((first + q) + after))[|q|..] == (first + q) + after;
    assert (q + text)[|q|..] == text;
    Associates([c], first, q);
    Associates(q, [c] + (first + q), after);
    Associates([c], first + q, after);
  }

  /** The pieces of an unquoted value. */
  function Singly(value: string): seq<Piece> {
    seq(|value|, k requires 0 <= k < |value| => if Live(Unquoted, value[k]) then Escape(value[k]) else Plain(value[k]))
  }

  lemma {:induction false} SinglyIsQuoted(value: string)
    ensures WordText(Singly(value)) == Escaped(Unquoted, value)
    decreases |value|
  {
    if value != "" {
      SinglyIsQuoted(value[1..]);
      assert Singly(value)[1..] == Singly(value[1..]);
      assert EscapedChar(Unquoted, value[0]) == PieceText(Singly(value)[0]);
    }
  }

  function QuotedWord(value: string, mode: QuoteMode): seq<Piece> {
    match mode
    case Unquoted => Singly(value)
    case Single => Parted(value)
    case Double => [InDouble(Lived(Double, value))]
    case AnsiC => [InAnsi(Lived(AnsiC, value))]
  }

  /** A quoted value is a word in which exactly the live characters are escaped, and nothing else is read by the shell. */
  lemma QuotedIsWord(value: string, mode: QuoteMode)
    ensures Quoted(value, mode) == WordText(QuotedWord(value, mode)) && GoodPieces(QuotedWord(value, mode))
  {
    match mode {
      case Unquoted =>
        SinglyIsQuoted(value);
        assert "" + Escaped(Unquoted, value) + "" == Escaped(Unquoted, value);
      case Single =>
        PartedIsGood(value);
        PartedIsQuoted(value);
        Associates("'", Escaped(Single, value), "'");
      case Double =>
        LiveIsEscaped(Double, value);
        OnePiece(InDouble(Lived(Double, value)));
        Associates("\"", Escaped(Double, value), "\"");
      case AnsiC =>
        LiveIsEscaped(AnsiC, value);
        OnePiece(InAnsi(Lived(AnsiC, value)));
        Associates("$'", Escaped(AnsiC, value), "'");
    }
  }

  lemma OnePiece(p: Piece)
    ensures WordText([p]) == PieceText(p)
  {
    assert WordText([p][1..]) == "" && PieceText(p) + "" == PieceText(p);
  }
}
