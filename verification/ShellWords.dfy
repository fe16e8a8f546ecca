/**
 The scanners that find the shell word at the cursor, and the quoting that
 inserts a completed word. Positions count characters. The main result says
 exactly when analysing a line after an insertion finds the inserted value again.
 */
module ShellWords {
  import opened Wrappers

  const MAX_COMPLETION_CONTEXT_BYTES: nat := 256 * 1024

  datatype QuoteMode = Unquoted | Single | Double | AnsiC

  function Utf8Length(c: char): nat {
    if c < 0x80 as char then 1 else if c < 0x800 as char then 2 else if c as int < 0x1_0000 then 3 else 4
  }

  function Utf8Size(s: string): nat {
    if s == "" then 0 else Utf8Size(s[..|s| - 1]) + Utf8Length(s[|s| - 1])
  }

  predicate Delimiter(c: char) {
    c in {' ', '\t', '\r', '\n', ';', '&', '|', '(', ')', '<', '>'}
  }

  // ---------------------------------------------------------------------
  // The word-boundary scanner, one character at a time
  // ---------------------------------------------------------------------

  /** `fresh` holds where a comment may start; `comment` inside one. */
  datatype Scan = Scan(start: nat, quote: QuoteMode, escaped: bool, atWordStart: bool, depth: nat, comment: bool)

  const BEGIN: Scan := Scan(0, Unquoted, false, true, 0, false)

  function Step(line: string, i: nat, comments: bool, s: Scan): Scan
    requires i < |line|
  {
    var c := line[i];
    if s.comment then
      if c == '\n' then s.(start := i + 1, comment := false, atWordStart := true) else s
    else if s.escaped then s.(escaped := false, atWordStart := false)
    else
      match s.quote
      case Single => s.(quote := if c == '\'' then Unquoted else Single, atWordStart := false)
      case Double => s.(quote := if c == '"' then Unquoted else Double, escaped := c == '\\', atWordStart := false)
      case AnsiC => s.(quote := if c == '\'' then Unquoted else AnsiC, escaped := c == '\\', atWordStart := false)
      case Unquoted =>
        if c == '{' && i > 0 && line[i - 1] == '$' then s.(depth := s.depth + 1, atWordStart := false)
        else if c == '}' && s.depth > 0 then s.(depth := s.depth - 1, atWordStart := false)
        else if c == '#' && comments && s.atWordStart then s.(comment := true)
        else if c == '\\' then s.(escaped := true, atWordStart := false)
        else if c == '\'' then
          s.(quote := if i > s.start && line[i - 1] == '$' then AnsiC else Single, atWordStart := false)
        else if c == '"' then s.(quote := Double, atWordStart := false)
        else if Delimiter(c) then s.(start := i + 1, atWordStart := true)
        else s.(atWordStart := false)
  }

  function ScanFrom(line: string, i: nat, n: nat, comments: bool, s: Scan): Scan
    requires i <= n <= |line|
    decreases n - i
  {
    if i == n then s else ScanFrom(line, i + 1, n, comments, Step(line, i, comments, s))
  }

  lemma {:induction false} ScanSplits(line: string, i: nat, m: nat, n: nat, comments: bool, s: Scan)
    requires i <= m <= n <= |line|
    ensures ScanFrom(line, i, n, comments, s) == ScanFrom(line, m, n, comments, ScanFrom(line, i, m, comments, s))
    decreases m - i
  {
    if i < m {
      ScanSplits(line, i + 1, m, n, comments, Step(line, i, comments, s));
    }
  }

  /** The scanner looks at nothing beyond the point. */
  lemma {:induction false} ScanIsLocal(a: string, b: string, i: nat, n: nat, comments: bool, s: Scan)
    requires i <= n <= |a| && n <= |b| && a[..n] == b[..n]
    ensures ScanFrom(a, i, n, comments, s) == ScanFrom(b, i, n, comments, s)
    decreases n - i
  {
    if i < n {
      assert a[i] == a[..n][i] == b[..n][i] == b[i];
      assert i > 0 ==> a[i - 1] == a[..n][i - 1] == b[..n][i - 1] == b[i - 1];
      ScanIsLocal(a, b, i + 1, n, comments, Step(a, i, comments, s));
    }
  }

  function Scanned(line: string, n: nat, comments: bool): Scan
    requires n <= |line|
  {
    ScanFrom(line, 0, n, comments, BEGIN)
  }

  lemma ScannedStep(line: string, n: nat, comments: bool)
    requires n < |line|
    ensures Scanned(line, n + 1, comments) == Step(line, n, comments, Scanned(line, n, comments))
  {
    ScanSplits(line, 0, n, n + 1, comments, BEGIN);
  }

  /** A scan that has just begun a word. */
  predicate Fresh(s: Scan, start: nat) {
    s.start == start && s.quote == Unquoted && !s.escaped && s.atWordStart && !s.comment
  }

  /** Every word starts outside quotes, comments and escapes. */
  lemma {:induction false} WordsStartFresh(line: string, n: nat, comments: bool)
    requires n <= |line|
    ensures var s := Scanned(line, n, comments); s.start <= n && Fresh(Scanned(line, s.start, comments), s.start)
    ensures var s := Scanned(line, n, comments); s.comment ==> s.quote == Unquoted && !s.escaped
    ensures var s := Scanned(line, n, comments); s.escaped ==> s.quote != Single
  {
    if n > 0 {
      WordsStartFresh(line, n - 1, comments);
      ScannedStep(line, n - 1, comments);
    }
  }

  // ---------------------------------------------------------------------
  // The scanners as loops
  // ---------------------------------------------------------------------

  /** The opening quote of the word decides, else the state of the scan. */
  function Preferred(line: string, start: nat, quote: QuoteMode): QuoteMode {
    if start < |line| && line[start] == '\'' then Single
    else if start < |line| && line[start] == '"' then Double
    else if start + 1 < |line| && line[start] == '$' && line[start + 1] == '\'' then AnsiC
    else quote
  }

  method CurrentWordStartAndQuote(line: string, point: nat, comments: bool) returns (start: nat, quote: QuoteMode)
    requires point <= |line|
    ensures start == Scanned(line, point, comments).start
    ensures var s := Scanned(line, point, comments); quote == Preferred(line, s.start, s.quote)
  {
    var index := 0;
    start, quote := 0, Unquoted;
    var escaped, atWordStart, depth := false, true, 0;
    ghost var comment := false;
    while index < point
      invariant 0 <= index <= point
      invariant comment ==> index == point
      invariant Scanned(line, index, comments) == Scan(start, quote, escaped, atWordStart, depth, comment)
    {
      var c := line[index];
      ScannedStep(line, index, comments);
      if escaped {
        escaped := false;
        atWordStart := false;
        index := index + 1;
        continue;
      }
      match quote {
        case Single =>
          if c == '\'' {
            quote := Unquoted;
          }
          atWordStart := false;
        case Double =>
          if c == '"' {
            quote := Unquoted;
          } else if c == '\\' {
            escaped := true;
          }
          atWordStart := false;
        case AnsiC =>
          if c == '\'' {
            quote := Unquoted;
          } else if c == '\\' {
            escaped := true;
          }
          atWordStart := false;
        case Unquoted =>
          if c == '{' && index > 0 && line[index - 1] == '$' {
            depth := depth + 1;
            atWordStart := false;
          } else if c == '}' && depth > 0 {
            depth := depth - 1;
            atWordStart := false;
          } else if c == '#' && comments && atWordStart {
            ghost var inside := Scan(start, Unquoted, false, true, depth, true);
            index := index + 1;
            while index < point && line[index] != '\n'
              invariant index <= point && Scanned(line, index, comments) == inside
            {
              ScannedStep(line, index, comments);
              index := index + 1;
            }
            comment := true;
            if index < point {
              ScannedStep(line, index, comments);
              start := index + 1;
              atWordStart := true;
              quote := Unquoted;
              comment := false;
              index := index + 1;
            }
            continue;
          } else if c == '\\' {
            escaped := true;
            atWordStart := false;
          } else if c == '\'' {
            quote := if index > start && line[index - 1] == '$' then AnsiC else Single;
            atWordStart := false;
          } else if c == '"' {
            quote := Double;
            atWordStart := false;
          } else if Delimiter(c) {
            start := index + 1;
            atWordStart := true;
          } else {
            atWordStart := false;
          }
      }
      index := index + 1;
    }
    quote := Preferred(line, start, quote);
  }

  /** Where the word around the point ends; `$'` does not open a quote here. */
  function WordEnd(line: string, i: nat, quote: QuoteMode, escaped: bool): (end: nat)
    requires i <= |line|
    ensures i <= end <= |line|
    ensures quote == Unquoted && !escaped && i < |line| && Delimiter(line[i]) ==> end == i
    decreases |line| - i
  {
    if i == |line| then i
    else if escaped then WordEnd(line, i + 1, quote, false)
    else
      var c := line[i];
      match quote
      case Single => WordEnd(line, i + 1, if c == '\'' then Unquoted else Single, false)
      case Double => WordEnd(line, i + 1, if c == '"' then Unquoted else Double, c == '\\')
      case AnsiC => WordEnd(line, i + 1, if c == '\'' then Unquoted else AnsiC, c == '\\')
      case Unquoted =>
        if Delimiter(c) then i
        else if c == '\\' then WordEnd(line, i + 1, Unquoted, true)
        else if c == '\'' then WordEnd(line, i + 1, Single, false)
        else if c == '"' then WordEnd(line, i + 1, Double, false)
        else WordEnd(line, i + 1, Unquoted, false)
  }

  /** Whether a character is quoted, and whether a backslash stands before it. */
  datatype Quoting = Quoting(quote: QuoteMode, escaped: bool)

  function Past(c: char, q: Quoting): Quoting {
    if q.escaped then Quoting(q.quote, false)
    else if c == '\\' && q.quote != Single then Quoting(q.quote, true)
    else if c == '\'' && q.quote != Double then Quoting(if q.quote == Unquoted then Single else Unquoted, false)
    else if c == '"' && q.quote in {Unquoted, Double} then Quoting(if q.quote == Unquoted then Double else Unquoted, false)
    else q
  }

  /** How the character at `n` is quoted if the one at `i` is quoted like `q`. */
  function QuotingAt(line: string, i: nat, n: nat, q: Quoting): Quoting
    requires i <= n <= |line|
    decreases n - i
  {
    if i == n then q else QuotingAt(line, i + 1, n, Past(line[i], q))
  }

  /** An unquoted, unescaped delimiter at `n`. */
  predicate Delimits(line: string, i: nat, n: nat, q: Quoting)
    requires i <= n < |line|
  {
    QuotingAt(line, i, n, q) == Quoting(Unquoted, false) && Delimiter(line[n])
  }

  lemma WordEndStep(line: string, i: nat, q: Quoting)
    requires i <= |line|
    ensures var end := WordEnd(line, i, q.quote, q.escaped);
      if i == |line| || Delimits(line, i, i, q) then end == i
      else var next := Past(line[i], q); end == WordEnd(line, i + 1, next.quote, next.escaped)
  {
  }

  /** The word ends at the first unquoted, unescaped delimiter, or else with the line. */
  lemma {:induction false} WordEndIsFirstDelimiter(line: string, i: nat, quote: QuoteMode, escaped: bool)
    requires i <= |line|
    ensures var q, end := Quoting(quote, escaped), WordEnd(line, i, quote, escaped);
      && (end < |line| ==> Delimits(line, i, end, q))
      && forall n :: i <= n < end ==> !Delimits(line, i, n, q)
    decreases |line| - i
  {
    WordEndStep(line, i, Quoting(quote, escaped));
    hide WordEnd, Past, Delimiter;
    var q, end := Quoting(quote, escaped), WordEnd(line, i, quote, escaped);
    if i < |line| && !Delimits(line, i, i, q) {
      var next := Past(line[i], q);
      WordEndIsFirstDelimiter(line, i + 1, next.quote, next.escaped);
      forall n | i <= n < end ensures !Delimits(line, i, n, q) {
        if n > i {
          assert Delimits(line, i + 1, n, next) == Delimits(line, i, n, q);
        }
      }
      assert end < |line| ==> Delimits(line, i + 1, end, next) == Delimits(line, i, end, q);
    }
  }

  method CurrentWordEnd(line: string, point: nat, initial: QuoteMode) returns (end: nat)
    requires point <= |line|
    ensures end == WordEnd(line, point, initial, false)
    ensures point <= end <= |line| && (end < |line| ==> Delimits(line, point, end, Quoting(initial, false)))
    ensures forall n :: point <= n < end ==> !Delimits(line, point, n, Quoting(initial, false))
  {
    WordEndIsFirstDelimiter(line, point, initial, false);
    end := point;
    var quote, escaped := initial, false;
    while end < |line|
      invariant point <= end <= |line|
      invariant WordEnd(line, end, quote, escaped) == WordEnd(line, point, initial, false)
    {
      var c := line[end];
      if escaped {
        escaped := false;
        end := end + 1;
        continue;
      }
      match quote {
        case Single =>
          if c == '\'' {
            quote := Unquoted;
          }
        case Double =>
          if c == '"' {
            quote := Unquoted;
          } else if c == '\\' {
            escaped := true;
          }
        case AnsiC =>
          if c == '\'' {
            quote := Unquoted;
          } else if c == '\\' {
            escaped := true;
          }
        case Unquoted =>
          if Delimiter(c) {
            break;
          }
          if c == '\\' {
            escaped := true;
          } else if c == '\'' {
            quote := Single;
          } else if c == '"' {
            quote := Double;
          }
      }
      end := end + 1;
    }
  }

  // ---------------------------------------------------------------------
  // Dequoting
  // ---------------------------------------------------------------------

  function First(s: string): string {
    if s == "" then "" else s[..1]
  }

  function Rest(s: string): string {
    if s == "" then "" else s[1..]
  }

  /** What a raw word stands for. A backslash is dropped before any character, also inside double quotes. */
  function Dequoted(raw: string, quote: QuoteMode): string
    decreases |raw|
  {
    if raw == "" then ""
    else
      var c, rest := raw[0], raw[1..];
      match quote
      case Unquoted =>
        if c == '\\' then First(rest) + Dequoted(Rest(rest), Unquoted)
        else if c == '\'' then Dequoted(rest, Single)
        else if c == '"' then Dequoted(rest, Double)
        else if c == '$' && rest != "" && rest[0] == '\'' then Dequoted(rest[1..], AnsiC)
        else [c] + Dequoted(rest, Unquoted)
      case Single =>
        if c == '\'' then Dequoted(rest, Unquoted) else [c] + Dequoted(rest, Single)
      case Double =>
        if c == '"' then Dequoted(rest, Unquoted)
        else if c == '\\' then First(rest) + Dequoted(Rest(rest), Double)
        else [c] + Dequoted(rest, Double)
      case AnsiC =>
        if c == '\'' then Dequoted(rest, Unquoted)
        else if c == '\\' then First(rest) + Dequoted(Rest(rest), AnsiC)
        else [c] + Dequoted(rest, AnsiC)
  }

  method DequotePrefix(raw: string) returns (output: string)
    ensures output == Dequoted(raw, Unquoted)
  {
    output := "";
    var rest, quote := raw, Unquoted;
    while rest != ""
      invariant output + Dequoted(rest, quote) == Dequoted(raw, Unquoted)
      decreases |rest|
    {
      var c := rest[0];
      ghost var left := Dequoted(rest, quote);
      var piece := "";
      rest := rest[1..];
      match quote {
        case Unquoted =>
          if c == '\\' {
            piece, rest := First(rest), Rest(rest);
          } else if c == '\'' {
            quote := Single;
          } else if c == '"' {
            quote := Double;
          } else if c == '$' && rest != "" && rest[0] == '\'' {
            rest := rest[1..];
            quote := AnsiC;
          } else {
            piece := [c];
          }
        case Single =>
          if c == '\'' {
            quote := Unquoted;
          } else {
            piece := [c];
          }
        case Double =>
          if c == '"' {
            quote := Unquoted;
          } else if c == '\\' {
            piece, rest := First(rest), Rest(rest);
          } else {
            piece := [c];
          }
        case AnsiC =>
          if c == '\'' {
            quote := Unquoted;
          } else if c == '\\' {
            piece, rest := First(rest), Rest(rest);
          } else {
            piece := [c];
          }
      }
      assert left == piece + Dequoted(rest, quote);
      Associates(output, piece, Dequoted(rest, quote));
      output := output + piece;
    }
  }

  lemma Associates(a: string, b: string, c: string)
    ensures a + (b + c) == a + b + c
  {
  }

  // ---------------------------------------------------------------------
  // Quoting
  // ---------------------------------------------------------------------

  /** The Unicode property White_Space. */
  predicate IsWhitespace(c: char) {
    var n := c as int;
    || 0x09 <= n <= 0x0D || n == 0x20 || n == 0x85 || n == 0xA0 || n == 0x1680
    || 0x2000 <= n <= 0x200A || n == 0x2028 || n == 0x2029 || n == 0x202F || n == 0x205F || n == 0x3000
  }

  /** The characters that a backslash precedes; single quotes know no escapes. */
  predicate Escapes(mode: QuoteMode, c: char) {
    match mode
    case Unquoted =>
      || IsWhitespace(c)
      || c in {'\\', '\'', '"', '$', '`', ';', '&', '|', '(', ')', '<', '>', '*', '?', '[', ']', '{', '}', '!'}
    case Double => c in {'\\', '$', '`', '"'}
    case AnsiC => c in {'\\', '\''}
    case Single => false
  }

  function EscapedChar(mode: QuoteMode, c: char): string {
    if mode == Single && c == '\'' then "'\\''"
    else if Escapes(mode, c) then ['\\', c]
    else [c]
  }

  function Escaped(mode: QuoteMode, value: string): string {
    if value == "" then "" else EscapedChar(mode, value[0]) + Escaped(mode, value[1..])
  }

  function Opening(mode: QuoteMode): string {
    match mode
    case Unquoted => ""
    case Single => "'"
    case Double => "\""
    case AnsiC => "$'"
  }

  function Closing(mode: QuoteMode): string {
    match mode
    case Unquoted => ""
    case Single | AnsiC => "'"
    case Double => "\""
  }

  function Quoted(value: string, mode: QuoteMode): string {
    Opening(mode) + Escaped(mode, value) + Closing(mode)
  }

  /** Replaces every occurrence of one character. */
  function Replaced(s: string, c: char, text: string): string {
    if s == "" then "" else (if s[0] == c then text else [s[0]]) + Replaced(s[1..], c, text)
  }

  lemma {:induction false} ReplacedConcat(a: string, b: string, c: char, text: string)
    ensures Replaced(a + b, c, text) == Replaced(a, c, text) + Replaced(b, c, text)
  {
    if a == "" {
      assert a + b == b;
    } else {
      ReplacedFirst(a, c, text);
      ReplacedFirst(a + b, c, text);
      assert (a + b)[1..] == a[1..] + b && (a + b)[0] == a[0];
      hide Replaced;
      ReplacedConcat(a[1..], b, c, text);
      Associates(if a[0] == c then text else [a[0]], Replaced(a[1..], c, text), Replaced(b, c, text));
    }
  }

  lemma ReplacedFirst(s: string, c: char, text: string)
    requires s != ""
    ensures Replaced(s, c, text) == (if s[0] == c then text else [s[0]]) + Replaced(s[1..], c, text)
  {
  }

  lemma ReplacedOne(x: char, c: char, text: string)
    ensures Replaced([x], c, text) == if x == c then text else [x]
  {
    assert Replaced([x][1..], c, text) == "";
  }

  lemma ReplacedTwo(x: char, y: char, c: char, text: string)
    ensures Replaced([x, y], c, text) == (if x == c then text else [x]) + (if y == c then text else [y])
  {
    assert [x, y][1..] == [y];
    ReplacedOne(y, c, text);
  }

  function DoubleChain(value: string): string {
    Replaced(Replaced(Replaced(Replaced(value, '\\', "\\\\"), '$', "\\$"), '`', "\\`"), '"', "\\\"")
  }

  function AnsiChain(value: string): string {
    Replaced(Replaced(value, '\\', "\\\\"), '\'', "\\'")
  }

  lemma DoubleChainOne(x: char)
    ensures DoubleChain([x]) == EscapedChar(Double, x)
  {
    ReplacedOne(x, '\\', "\\\\");
    ReplacedOne(x, '$', "\\$");
    ReplacedOne(x, '`', "\\`");
    ReplacedOne(x, '"', "\\\"");
    ReplacedTwo('\\', '\\', '$', "\\$");
    ReplacedTwo('\\', '\\', '`', "\\`");
    ReplacedTwo('\\', '\\', '"', "\\\"");
    ReplacedTwo('\\', '$', '`', "\\`");
    ReplacedTwo('\\', '$', '"', "\\\"");
    ReplacedTwo('\\', '`', '"', "\\\"");
  }

  /** The chain of replacements escapes each character once: no replacement touches what another put there. */
  lemma {:induction false} DoubleChainEscapes(value: string)
    ensures DoubleChain(value) == Escaped(Double, value)
  {
    if value != "" {
      var x, rest := [value[0]], value[1..];
      assert value == x + rest;
      ReplacedConcat(x, rest, '\\', "\\\\");
      var x1, r1 := Replaced(x, '\\', "\\\\"), Replaced(rest, '\\', "\\\\");
      ReplacedConcat(x1, r1, '$', "\\$");
      var x2, r2 := Replaced(x1, '$', "\\$"), Replaced(r1, '$', "\\$");
      ReplacedConcat(x2, r2, '`', "\\`");
      ReplacedConcat(Replaced(x2, '`', "\\`"), Replaced(r2, '`', "\\`"), '"', "\\\"");
      hide Replaced;
      DoubleChainOne(value[0]);
      DoubleChainEscapes(rest);
    }
  }

  lemma {:induction false} AnsiChainEscapes(value: string)
    ensures AnsiChain(value) == Escaped(AnsiC, value)
  {
    if value != "" {
      var x, rest := [value[0]], value[1..];
      assert value == x + rest;
      ReplacedConcat(x, rest, '\\', "\\\\");
      ReplacedConcat(Replaced(x, '\\', "\\\\"), Replaced(rest, '\\', "\\\\"), '\'', "\\'");
      ReplacedOne(value[0], '\\', "\\\\");
      ReplacedOne(value[0], '\'', "\\'");
      ReplacedTwo('\\', '\\', '\'', "\\'");
      AnsiChainEscapes(rest);
    }
  }

  lemma {:induction false} SingleReplacementEscapes(value: string)
    ensures Replaced(value, '\'', "'\\''") == Escaped(Single, value)
  {
    if value != "" {
      SingleReplacementEscapes(value[1..]);
    }
  }

  method QuoteShellWord(value: string, mode: QuoteMode) returns (output: string)
    ensures output == Quoted(value, mode)
  {
    match mode {
      case Single =>
        SingleReplacementEscapes(value);
        output := "'" + Replaced(value, '\'', "'\\''") + "'";
      case Double =>
        DoubleChainEscapes(value);
        output := "\"" + DoubleChain(value) + "\"";
      case AnsiC =>
        AnsiChainEscapes(value);
        output := "$'" + AnsiChain(value) + "'";
      case Unquoted =>
        output := EscapeUnquoted(value);
        assert output + "" == output && "" + output == output;
    }
  }

  method EscapeUnquoted(value: string) returns (output: string)
    ensures output == Escaped(Unquoted, value)
  {
    assert value[0..] == value && "" + Escaped(Unquoted, value) == Escaped(Unquoted, value);
    assert Escaped(Unquoted, "") == "";
    hide Escapes, EscapedChar, Escaped;
    output := "";
    var i := 0;
    while i < |value|
      invariant 0 <= i <= |value|
      invariant output + Escaped(Unquoted, value[i..]) == Escaped(Unquoted, value)
    {
      EscapedFrom(value, i);
      Associates(output, EscapedChar(Unquoted, value[i]), Escaped(Unquoted, value[i + 1..]));
      output := AppendEscaped(output, value[i]);
      i := i + 1;
    }
    assert value[|value|..] == "" && output + "" == output;
  }

  method AppendEscaped(before: string, c: char) returns (output: string)
    ensures output == before + EscapedChar(Unquoted, c)
  {
    hide Escapes;
    output := before;
    if Escapes(Unquoted, c) {
      output := output + ['\\'];
    }
    output := output + [c];
  }

  lemma EscapedFrom(value: string, i: nat)
    requires i < |value|
    ensures Escaped(Unquoted, value[i..]) == EscapedChar(Unquoted, value[i]) + Escaped(Unquoted, value[i + 1..])
  {
    assert value[i..][1..] == value[i + 1..];
  }

  // ---------------------------------------------------------------------
  // Dequoting undoes quoting
  // ---------------------------------------------------------------------

  /** Leaving single quotes for an escaped quote and returning to them. */
  lemma ReopenedQuote(tail: string)
    ensures Dequoted("'\\''" + tail, Single) == "'" + Dequoted(tail, Single)
  {
    var last := "'" + tail;
    var escaped := "''" + tail;
    var outside := "\\''" + tail;
    assert last[1..] == tail && Dequoted(last, Unquoted) == Dequoted(tail, Single);
    assert First(escaped) == "'" && Rest(escaped) == last;
    assert outside[1..] == escaped && Dequoted(outside, Unquoted) == "'" + Dequoted(last, Unquoted);
    assert ("'\\''" + tail)[1..] == outside;
  }

  lemma DequotedChar(mode: QuoteMode, c: char, tail: string)
    ensures Dequoted(EscapedChar(mode, c) + tail, mode) == [c] + Dequoted(tail, mode)
  {
    if mode == Single && c == '\'' {
      ReopenedQuote(tail);
    } else if Escapes(mode, c) {
      var s := ['\\', c] + tail;
      assert s[1..] == [c] + tail;
      assert Rest([c] + tail) == tail && First([c] + tail) == [c];
    } else {
      assert ([c] + tail)[1..] == tail;
    }
  }

  lemma {:induction false} DequotedEscaped(mode: QuoteMode, value: string, tail: string)
    ensures Dequoted(Escaped(mode, value) + tail, mode) == value + Dequoted(tail, mode)
  {
    if value == "" {
      assert "" + tail == tail;
    } else {
      var rest := Escaped(mode, value[1..]);
      hide Dequoted, EscapedChar;
      Associates(EscapedChar(mode, value[0]), rest, tail);
      DequotedChar(mode, value[0], rest + tail);
      DequotedEscaped(mode, value[1..], tail);
      Associates([value[0]], value[1..], Dequoted(tail, mode));
      assert value == [value[0]] + value[1..];
    }
  }

  /** Dequoting a quoted value gives the value back, in every mode and for every value. */
  lemma DequotedQuoted(value: string, mode: QuoteMode)
    ensures Dequoted(Quoted(value, mode), Unquoted) == value
  {
    var body := Escaped(mode, value) + Closing(mode);
    Associates(Opening(mode), Escaped(mode, value), Closing(mode));
    DequotedEscaped(mode, value, Closing(mode));
    match mode {
      case Unquoted => assert "" + body == body;
      case Single => assert ("'" + body)[1..] == body;
      case Double => assert ("\"" + body)[1..] == body;
      case AnsiC => assert ("$'" + body)[1..] == "'" + body; assert ("'" + body)[1..] == body;
    }
    assert Dequoted(Closing(mode), mode) == "";
  }

  // ---------------------------------------------------------------------
  // Scanning an inserted word
  // ---------------------------------------------------------------------

  /** `text` stands at position `i`. */
  predicate At(line: string, i: nat, text: string) {
    i + |text| <= |line| && line[i..i + |text|] == text
  }

  lemma AtSplits(line: string, i: nat, a: string, b: string)
    requires At(line, i, a + b)
    ensures At(line, i, a) && At(line, i + |a|, b)
  {
    assert line[i..i + |a|] == (a + b)[..|a|];
    assert line[i + |a|..i + |a| + |b|] == (a + b)[|a|..];
  }

  lemma AtChar(line: string, i: nat, text: string, k: nat)
    requires At(line, i, text) && k < |text|
    ensures line[i + k] == text[k]
  {
    assert line[i..i + |text|][k] == text[k];
  }

  /** Inside a word, in the given mode. */
  predicate InWord(s: Scan, start: nat, mode: QuoteMode) {
    s.start == start && s.quote == mode && !s.escaped && !s.comment
  }

  /** Two characters are scanned one after the other. */
  lemma ScanTwo(line: string, i: nat, comments: bool, s: Scan)
    requires i + 2 <= |line|
    ensures ScanFrom(line, i, i + 2, comments, s) == Step(line, i + 1, comments, Step(line, i, comments, s))
  {
    var t := Step(line, i, comments, s);
    assert ScanFrom(line, i + 1, i + 2, comments, t) == Step(line, i + 1, comments, t);
  }

  lemma ScanReopened(line: string, i: nat, comments: bool, s: Scan)
    requires At(line, i, "'\\''") && InWord(s, s.start, Single) && s.start < i
    ensures var t := ScanFrom(line, i, i + 4, comments, s); InWord(t, s.start, Single) && !t.atWordStart
  {
    AtChar(line, i, "'\\''", 0);
    AtChar(line, i, "'\\''", 1);
    AtChar(line, i, "'\\''", 2);
    AtChar(line, i, "'\\''", 3);
    ScanSplits(line, i, i + 2, i + 4, comments, s);
    ScanTwo(line, i, comments, s);
    ScanTwo(line, i + 2, comments, ScanFrom(line, i, i + 2, comments, s));
  }

  /** One character of the word, as it was written. */
  lemma ScanChar(line: string, i: nat, mode: QuoteMode, c: char, comments: bool, s: Scan)
    requires At(line, i, EscapedChar(mode, c)) && InWord(s, s.start, mode)
    requires mode == Single ==> s.start < i
    requires mode == Unquoted && s.atWordStart && comments ==> c != '#'
    ensures var t := ScanFrom(line, i, i + |EscapedChar(mode, c)|, comments, s);
      InWord(t, s.start, mode) && t.start == s.start && !t.atWordStart
  {
    if mode == Single && c == '\'' {
      ScanReopened(line, i, comments, s);
    } else if Escapes(mode, c) {
      AtChar(line, i, ['\\', c], 0);
      ScanTwo(line, i, comments, s);
    } else {
      AtChar(line, i, [c], 0);
      assert mode == Unquoted ==> !Delimiter(c);
    }
  }

  lemma EscapedSplits(line: string, i: nat, mode: QuoteMode, value: string)
    requires At(line, i, Escaped(mode, value)) && value != ""
    ensures var first, rest := EscapedChar(mode, value[0]), Escaped(mode, value[1..]);
      At(line, i, first) && At(line, i + |first|, rest) && |Escaped(mode, value)| == |first| + |rest|
  {
    hide *;
    EscapedStep(mode, value);
    AtSplits(line, i, EscapedChar(mode, value[0]), Escaped(mode, value[1..]));
  }

  lemma EscapedStep(mode: QuoteMode, value: string)
    requires value != ""
    ensures Escaped(mode, value) == EscapedChar(mode, value[0]) + Escaped(mode, value[1..])
  {
    hide EscapedChar;
  }

  /** The first escaped character is scanned, then the rest. */
  lemma ScanFirst(line: string, i: nat, mode: QuoteMode, value: string, comments: bool, s: Scan) returns (j: nat, t: Scan)
    requires value != "" && At(line, i, Escaped(mode, value)) && InWord(s, s.start, mode)
    requires mode == Single ==> s.start < i
    requires mode == Unquoted && s.atWordStart && comments ==> value[0] != '#'
    ensures i < j <= |line| && t == ScanFrom(line, i, j, comments, s)
    ensures InWord(t, t.start, mode) && t.start == s.start && !t.atWordStart
    ensures At(line, j, Escaped(mode, value[1..])) && i + |Escaped(mode, value)| == j + |Escaped(mode, value[1..])|
  {
    EscapedSplits(line, i, mode, value);
    var first := EscapedChar(mode, value[0]);
    hide *;
    CharIsShort(line, i, mode, value[0]);
    ScanChar(line, i, mode, value[0], comments, s);
    j := i + |first|;
    t := ScanFrom(line, i, j, comments, s);
  }

  lemma CharIsShort(line: string, i: nat, mode: QuoteMode, c: char)
    requires At(line, i, EscapedChar(mode, c))
    ensures i < i + |EscapedChar(mode, c)| <= |line|
  {
  }

  lemma {:induction false} ScanEscaped(line: string, i: nat, mode: QuoteMode, value: string, comments: bool, s: Scan)
    requires At(line, i, Escaped(mode, value)) && InWord(s, s.start, mode)
    requires mode == Single ==> s.start < i
    requires mode == Unquoted && s.atWordStart && comments && value != "" ==> value[0] != '#'
    ensures InWord(ScanFrom(line, i, i + |Escaped(mode, value)|, comments, s), s.start, mode)
    decreases |value|
  {
    if value != "" {
      hide *;
      var j, t := ScanFirst(line, i, mode, value, comments, s);
      ScanEscaped(line, j, mode, value[1..], comments, t);
      WithinLine(line, j, Escaped(mode, value[1..]));
      ScanSplits(line, i, j, j + |Escaped(mode, value[1..])|, comments, s);
    }
  }

  lemma WithinLine(line: string, i: nat, text: string)
    requires At(line, i, text)
    ensures i + |text| <= |line|
  {
  }

  lemma ScanOpening(line: string, i: nat, mode: QuoteMode, comments: bool, s: Scan)
    requires At(line, i, Opening(mode)) && Fresh(s, i)
    ensures InWord(ScanFrom(line, i, i + |Opening(mode)|, comments, s), i, mode)
    ensures mode == Unquoted ==> ScanFrom(line, i, i + |Opening(mode)|, comments, s) == s
  {
    match mode {
      case Unquoted =>
      case Single => AtChar(line, i, "'", 0);
      case Double => AtChar(line, i, "\"", 0);
      case AnsiC =>
        AtChar(line, i, "$'", 0);
        AtChar(line, i, "$'", 1);
        ScanTwo(line, i, comments, s);
    }
  }

  lemma ScanClosing(line: string, i: nat, mode: QuoteMode, comments: bool, s: Scan)
    requires At(line, i, Closing(mode)) && InWord(s, s.start, mode)
    ensures InWord(ScanFrom(line, i, i + |Closing(mode)|, comments, s), s.start, Unquoted)
  {
    if mode != Unquoted {
      AtChar(line, i, Closing(mode), 0);
    }
  }

  /** The one value that is mistaken for a comment. */
  predicate LooksLikeComment(value: string, mode: QuoteMode, comments: bool) {
    mode == Unquoted && comments && value != "" && value[0] == '#'
  }

  lemma WordBegun(mode: QuoteMode, i: nat, s: Scan, t: Scan)
    requires InWord(t, i, mode)
    ensures t.start == i && InWord(t, t.start, mode) && (mode == Single ==> |Opening(mode)| == 1)
  {
  }

  lemma ScanQuotedParts(line: string, i: nat, j: nat, k: nat, n: nat, value: string, mode: QuoteMode, comments: bool, s: Scan)
    requires At(line, i, Opening(mode)) && At(line, j, Escaped(mode, value)) && At(line, k, Closing(mode))
    requires j == i + |Opening(mode)| && k == j + |Escaped(mode, value)| && n == k + |Closing(mode)| <= |line|
    requires Fresh(s, i) && !LooksLikeComment(value, mode, comments)
    ensures InWord(ScanFrom(line, i, n, comments, s), i, Unquoted)
  {
    ScanOpening(line, i, mode, comments, s);
    var t := ScanFrom(line, i, j, comments, s);
    WordBegun(mode, i, s, t);
    hide Escaped, Opening, Closing, ScanFrom, At, InWord;
    ScanEscaped(line, j, mode, value, comments, t);
    var u := ScanFrom(line, j, k, comments, t);
    WordBegun(mode, i, s, u);
    ScanClosing(line, k, mode, comments, u);
    ScanSplits(line, i, j, k, comments, s);
    ScanSplits(line, i, k, n, comments, s);
  }

  /** A quoted word is one word to the scanner. */
  lemma ScanQuoted(line: string, i: nat, value: string, mode: QuoteMode, comments: bool, s: Scan)
    requires At(line, i, Quoted(value, mode)) && Fresh(s, i) && !LooksLikeComment(value, mode, comments)
    ensures InWord(ScanFrom(line, i, i + |Quoted(value, mode)|, comments, s), i, Unquoted)
  {
    var open, body, close := Opening(mode), Escaped(mode, value), Closing(mode);
    AtParts(line, i, open, body, close);
    assert |Quoted(value, mode)| == |open| + |body| + |close|;
    hide *;
    ScanQuotedParts(line, i, i + |open|, i + |open| + |body|, i + |Quoted(value, mode)|, value, mode, comments, s);
  }

  lemma AtParts(line: string, i: nat, a: string, b: string, c: string)
    requires At(line, i, a + b + c)
    ensures At(line, i, a) && At(line, i + |a|, b) && At(line, i + |a| + |b|, c)
    ensures i + |a| + |b| + |c| <= |line|
  {
    AtSplits(line, i, a + b, c);
    AtSplits(line, i, a, b);
  }

  // ---------------------------------------------------------------------
  // A value that begins a comment
  // ---------------------------------------------------------------------

  lemma {:induction false} CommentWithoutNewline(line: string, i: nat, n: nat, comments: bool, s: Scan)
    requires i <= n <= |line| && s.comment && (forall k :: i <= k < n ==> line[k] != '\n')
    ensures ScanFrom(line, i, n, comments, s) == s
    decreases n - i
  {
    if i < n {
      CommentWithoutNewline(line, i + 1, n, comments, s);
    }
  }

  /** The start of the current word only ever moves forward. */
  lemma {:induction false} StartOnlyGrows(line: string, i: nat, n: nat, comments: bool, s: Scan)
    requires i <= n <= |line| && s.start <= i
    ensures s.start <= ScanFrom(line, i, n, comments, s).start <= n
    decreases n - i
  {
    if i < n {
      StartOnlyGrows(line, i + 1, n, comments, Step(line, i, comments, s));
    }
  }

  lemma CommentWithNewline(line: string, i: nat, k: nat, n: nat, comments: bool, s: Scan)
    requires i <= k < n <= |line| && s.comment && s.start <= i && line[k] == '\n'
    requires forall j :: i <= j < k ==> line[j] != '\n'
    ensures ScanFrom(line, i, n, comments, s).start > k
  {
    ScanSplits(line, i, k, n, comments, s);
    CommentWithoutNewline(line, i, k, comments, s);
    StartOnlyGrows(line, k + 1, n, comments, Step(line, k, comments, s));
  }

  /** Unquoted escaping keeps a newline, behind a backslash. */
  lemma {:induction false} NewlinesSurvive(value: string)
    ensures '\n' in Escaped(Unquoted, value) <==> '\n' in value
  {
    if value != "" {
      NewlinesSurvive(value[1..]);
      assert value == [value[0]] + value[1..];
      assert '\n' in EscapedChar(Unquoted, value[0]) <==> value[0] == '\n';
    }
  }

  lemma {:induction false} FirstNewline(text: string) returns (k: nat)
    requires '\n' in text
    ensures k < |text| && text[k] == '\n' && forall j :: 0 <= j < k ==> text[j] != '\n'
  {
    k := 0;
    if text[0] != '\n' {
      assert text == [text[0]] + text[1..];
      var rest := FirstNewline(text[1..]);
      k := rest + 1;
    }
  }

  /** The comment swallows the rest of the word, up to a newline in it. */
  lemma ScanComment(line: string, i: nat, value: string, s: Scan)
    requires At(line, i, Quoted(value, Unquoted)) && Fresh(s, i) && LooksLikeComment(value, Unquoted, true)
    ensures var t := ScanFrom(line, i, i + |Quoted(value, Unquoted)|, true, s);
      && i <= t.start <= i + |Quoted(value, Unquoted)|
      && (t.start == i <==> '\n' !in value)
      && ('\n' !in value ==> t.quote == Unquoted)
  {
    var text := Quoted(value, Unquoted);
    CommentText(value);
    AtChar(line, i, text, 0);
    var n := i + |text|;
    var t := Step(line, i, true, s);
    assert ScanFrom(line, i, n, true, s) == ScanFrom(line, i + 1, n, true, t);
    assert t.comment && t.start == i && t.quote == Unquoted;
    hide Step, ScanFrom, Quoted, Escaped;
    StartOnlyGrows(line, i + 1, n, true, t);
    forall k | i <= k < n ensures line[k] == text[k - i] {
      AtChar(line, i, text, k - i);
    }
    if '\n' in value {
      var k := FirstNewline(text);
      CommentWithNewline(line, i + 1, i + k, n, true, t);
    } else {
      CommentWithoutNewline(line, i + 1, n, true, t);
    }
  }

  lemma CommentText(value: string)
    requires LooksLikeComment(value, Unquoted, true)
    ensures var text := Quoted(value, Unquoted); text != "" && text[0] == '#' && ('\n' in text <==> '\n' in value)
  {
    assert Quoted(value, Unquoted) == Escaped(Unquoted, value);
    assert EscapedChar(Unquoted, '#') == "#";
    NewlinesSurvive(value);
  }

  // ---------------------------------------------------------------------
  // Analysis and insertion
  // ---------------------------------------------------------------------

  datatype Context = Context(line: string, point: nat, replaceStart: nat, replaceEnd: nat, query: string, quote: QuoteMode)

  function Clamp(line: string, point: nat): nat {
    if point < |line| then point else |line|
  }

  /** A line that is too long is not analysed at all. */
  ghost function Analyzed(line: string, point: nat, comments: bool): Context {
    var p := Clamp(line, point);
    if Utf8Size(line) > MAX_COMPLETION_CONTEXT_BYTES then Context(line, p, p, p, "", Unquoted)
    else
      WordsStartFresh(line, p, comments);
      var s := Scanned(line, p, comments);
      var quote := Preferred(line, s.start, s.quote);
      Context(line, p, s.start, WordEnd(line, p, quote, false), Dequoted(line[s.start..p], Unquoted), quote)
  }

  method Analyze(line: string, point: nat, comments: bool) returns (c: Context)
    ensures c == Analyzed(line, point, comments)
  {
    var p := Clamp(line, point);
    if Utf8Size(line) > MAX_COMPLETION_CONTEXT_BYTES {
      return Context(line, p, p, p, "", Unquoted);
    }
    WordsStartFresh(line, p, comments);
    var start, quote := CurrentWordStartAndQuote(line, p, comments);
    var end := CurrentWordEnd(line, p, quote);
    var query := DequotePrefix(line[start..p]);
    c := Context(line, p, start, end, query, quote);
  }

  predicate WellFormed(c: Context) {
    c.replaceStart <= c.point <= c.replaceEnd <= |c.line|
  }

  lemma AnalyzedIsWellFormed(line: string, point: nat, comments: bool)
    ensures WellFormed(Analyzed(line, point, comments))
  {
    if Utf8Size(line) <= MAX_COMPLETION_CONTEXT_BYTES {
      WordsStartFresh(line, Clamp(line, point), comments);
    }
  }

  /** The new line, and the point behind what was inserted. */
  function Applied(c: Context, replacement: string): (string, nat)
    requires WellFormed(c)
  {
    (c.line[..c.replaceStart] + replacement + c.line[c.replaceEnd..], c.replaceStart + |replacement|)
  }

  lemma {:induction false} Utf8SizeConcat(a: string, b: string)
    ensures Utf8Size(a + b) == Utf8Size(a) + Utf8Size(b)
  {
    if b == "" {
      assert a + b == a;
    } else {
      Utf8SizeConcat(a, b[..|b| - 1]);
      assert (a + b)[..|a + b| - 1] == a + b[..|b| - 1];
    }
  }

  lemma InsertionGrows(line: string, p: nat, text: string)
    requires p <= |line|
    ensures Utf8Size(line[..p] + text + line[p..]) >= Utf8Size(line)
  {
    Utf8SizeConcat(line[..p], line[p..]);
    Utf8SizeConcat(line[..p] + text, line[p..]);
    Utf8SizeConcat(line[..p], text);
    assert line == line[..p] + line[p..];
  }

  lemma QuotedIsEmpty(value: string, mode: QuoteMode)
    ensures Quoted(value, mode) == "" <==> mode == Unquoted && value == ""
  {
  }

  /** The scan of the new line arrives at the inserted word as it did before, and then scans the word. */
  lemma ScanAfterInsertion(c: Context, comments: bool, value: string, mode: QuoteMode)
    requires WellFormed(c) && Fresh(Scanned(c.line, c.replaceStart, comments), c.replaceStart)
    ensures var (line, point) := Applied(c, Quoted(value, mode));
      && At(line, c.replaceStart, Quoted(value, mode)) && point <= |line|
      && Scanned(line, point, comments) ==
           ScanFrom(line, c.replaceStart, point, comments, Scanned(c.line, c.replaceStart, comments))
  {
    var (line, point) := Applied(c, Quoted(value, mode));
    var start := c.replaceStart;
    assert line[..start] == c.line[..start];
    ScanIsLocal(c.line, line, 0, start, comments, BEGIN);
    ScanSplits(line, 0, start, point, comments, BEGIN);
    assert line[start..point] == Quoted(value, mode);
  }

  /** Whether analysis finds the inserted value where it was put. */
  ghost predicate FindsAgain(line: string, point: nat, comments: bool, value: string, mode: QuoteMode) {
    AnalyzedIsWellFormed(line, point, comments);
    var c := Analyzed(line, point, comments);
    var (newLine, newPoint) := Applied(c, Quoted(value, mode));
    var again := Analyzed(newLine, newPoint, comments);
    again.replaceStart == c.replaceStart && again.query == value
  }

  ghost function NewLine(line: string, point: nat, comments: bool, value: string, mode: QuoteMode): string {
    AnalyzedIsWellFormed(line, point, comments);
    Applied(Analyzed(line, point, comments), Quoted(value, mode)).0
  }

  lemma WithinBefore(line: string, point: nat, comments: bool, value: string, mode: QuoteMode)
    requires Utf8Size(NewLine(line, point, comments, value, mode)) <= MAX_COMPLETION_CONTEXT_BYTES
    ensures Utf8Size(line) <= MAX_COMPLETION_CONTEXT_BYTES
  {
    if Utf8Size(line) > MAX_COMPLETION_CONTEXT_BYTES {
      InsertionGrows(line, Clamp(line, point), Quoted(value, mode));
    }
  }

  lemma FindsAgainWithinCap(line: string, point: nat, comments: bool, value: string, mode: QuoteMode)
    requires Utf8Size(NewLine(line, point, comments, value, mode)) <= MAX_COMPLETION_CONTEXT_BYTES
    ensures FindsAgain(line, point, comments, value, mode) <==>
      !(LooksLikeComment(value, mode, comments) && '\n' in value)
  {
    WithinBefore(line, point, comments, value, mode);
    AnalyzedIsWellFormed(line, point, comments);
    var c := Analyzed(line, point, comments);
    AnalyzedWithinCap(line, point, comments);
    var (newLine, newPoint) := Applied(c, Quoted(value, mode));
    InsertedStart(c, comments, value, mode);
    AnalyzedWithinCap(newLine, newPoint, comments);
    DequotedQuoted(value, mode);
    assert newLine[c.replaceStart..newPoint] == Quoted(value, mode);
    hide Utf8Size, Scanned, Quoted, Dequoted, Analyzed, LooksLikeComment, Fresh;
  }

  lemma AnalyzedWithinCap(line: string, point: nat, comments: bool)
    requires Utf8Size(line) <= MAX_COMPLETION_CONTEXT_BYTES
    ensures var c, p := Analyzed(line, point, comments), Clamp(line, point);
      && c.line == line && c.point == p && c.replaceStart == Scanned(line, p, comments).start <= p
      && c.query == Dequoted(line[c.replaceStart..p], Unquoted)
      && Fresh(Scanned(line, c.replaceStart, comments), c.replaceStart)
  {
    WordsStartFresh(line, Clamp(line, point), comments);
  }

  lemma InsertedStart(c: Context, comments: bool, value: string, mode: QuoteMode)
    requires WellFormed(c) && Fresh(Scanned(c.line, c.replaceStart, comments), c.replaceStart)
    ensures var (line, point) := Applied(c, Quoted(value, mode));
      && point <= |line|
      && (Scanned(line, point, comments).start == c.replaceStart <==>
            !(LooksLikeComment(value, mode, comments) && '\n' in value))
  {
    var (line, point) := Applied(c, Quoted(value, mode));
    var s := Scanned(c.line, c.replaceStart, comments);
    ScanAfterInsertion(c, comments, value, mode);
    hide Scanned, ScanFrom, Quoted, Fresh;
    if LooksLikeComment(value, mode, comments) {
      ScanComment(line, c.replaceStart, value, s);
    } else {
      ScanQuoted(line, c.replaceStart, value, mode, comments, s);
    }
  }

  /**
   Analysing the new line at the new point finds the same word start and the inserted value, for every line,
   point, value and quote mode, unless an unquoted value reads as a comment that a newline ends; a line beyond
   the size cap is not analysed, so there nothing but the empty insertion is found.
   */
  lemma ReanalysisFindsValue(line: string, point: nat, comments: bool, value: string, mode: QuoteMode)
    ensures FindsAgain(line, point, comments, value, mode) <==>
      if Utf8Size(NewLine(line, point, comments, value, mode)) <= MAX_COMPLETION_CONTEXT_BYTES then
        !(mode == Unquoted && comments && value != "" && value[0] == '#' && '\n' in value)
      else
        mode == Unquoted && value == ""
  {
    if Utf8Size(NewLine(line, point, comments, value, mode)) <= MAX_COMPLETION_CONTEXT_BYTES {
      FindsAgainWithinCap(line, point, comments, value, mode);
    } else {
      QuotedIsEmpty(value, mode);
      AnalyzedIsWellFormed(line, point, comments);
      hide Utf8Size, Quoted, WordEnd, Scanned, Dequoted;
    }
  }

  lemma {:induction false} Utf8SizeIsSmall(s: string)
    ensures Utf8Size(s) <= 4 * |s|
  {
    if s != "" {
      Utf8SizeIsSmall(s[..|s| - 1]);
    }
  }

  lemma InsertedAlone(value: string)
    ensures NewLine("", 0, true, value, Unquoted) == Escaped(Unquoted, value)
  {
    AnalyzedIsWellFormed("", 0, true);
    hide Analyzed, Escaped;
    var c := Analyzed("", 0, true);
    assert c.line[..c.replaceStart] == "" && c.line[c.replaceEnd..] == "";
    assert Quoted(value, Unquoted) == Escaped(Unquoted, value);
    assert "" + Quoted(value, Unquoted) + "" == Quoted(value, Unquoted);
  }

  lemma {:induction false} EscapedIsShort(value: string)
    ensures |Escaped(Unquoted, value)| <= 2 * |value|
  {
    if value != "" {
      EscapedIsShort(value[1..]);
    }
  }

  lemma ShortIsWithinCap(value: string)
    requires |value| <= 2
    ensures Utf8Size(NewLine("", 0, true, value, Unquoted)) <= MAX_COMPLETION_CONTEXT_BYTES
  {
    hide Utf8Size, NewLine, Escaped;
    InsertedAlone(value);
    EscapedIsShort(value);
    Utf8SizeIsSmall(Escaped(Unquoted, value));
  }

  /** On the empty line, a comment with a newline is not found again; the same comment without it is. */
  lemma CommentIsNotFoundAgain()
    ensures !FindsAgain("", 0, true, "#\n", Unquoted)
    ensures FindsAgain("", 0, true, "#", Unquoted)
  {
    hide *;
    ShortIsWithinCap("#\n");
    ShortIsWithinCap("#");
    ReanalysisFindsValue("", 0, true, "#\n", Unquoted);
    ReanalysisFindsValue("", 0, true, "#", Unquoted);
    assert "#\n"[1] == '\n';
  }
}
