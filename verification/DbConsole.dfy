/**
 The database console: the lexer that blanks literals and comments before the SQL safety policy looks at a
 statement, and the trimming of result rows to a byte limit.
 */
module DbConsole {
  import opened Wrappers
  import opened WhiteSpace
  import opened Words

  // ---- The lexer as an automaton, one character at a time ----

  /** `Doubtful` has seen the closing quote, which a second one would undo. */
  datatype Mode = Code | Dash | Slash | Line | Block | BlockStar | Quoted(close: char) | Doubtful(close: char)

  predicate OpensQuote(c: char) {
    c == '\'' || c == '"' || c == '`' || c == '['
  }

  function CloseOf(open: char): char {
    if open == '[' then ']' else open
  }

  function CodeMode(c: char): Mode {
    if c == '-' then Dash else if c == '/' then Slash else if OpensQuote(c) then Quoted(CloseOf(c)) else Code
  }

  function CodeOutput(c: char, out: string): string {
    if c == '-' || c == '/' then out else if OpensQuote(c) then out + " " else out + [c]
  }

  function NextMode(mode: Mode, c: char): Mode {
    match mode
    case Code => CodeMode(c)
    case Dash => if c == '-' then Line else CodeMode(c)
    case Slash => if c == '*' then Block else CodeMode(c)
    case Line => if c == '\n' then Code else Line
    case Block => if c == '*' then BlockStar else Block
    case BlockStar => if c == '/' then Code else if c == '*' then BlockStar else Block
    case Quoted(close) => if c != close then mode else if close == ']' then Code else Doubtful(close)
    case Doubtful(close) => if c == close then Quoted(close) else CodeMode(c)
  }

  /** What has been shown after one more character. */
  function Output(mode: Mode, c: char, out: string): string {
    match mode
    case Code => CodeOutput(c, out)
    case Dash => if c == '-' then out + " " else CodeOutput(c, out + "-")
    case Slash => if c == '*' then out + " " else CodeOutput(c, out + "/")
    case Quoted(close) => if c == close != ']' then out else out + " "
    case Doubtful(close) => if c == close then out + " " else CodeOutput(c, out + " ")
    case _ => out
  }

  function Finish(mode: Mode, out: string): string {
    match mode
    case Dash => out + "-"
    case Slash => out + "/"
    case Doubtful(_) => out + " "
    case _ => out
  }

  function Scan(mode: Mode, text: string, out: string): string
    decreases |text|
  {
    if text == "" then Finish(mode, out) else Scan(NextMode(mode, text[0]), text[1..], Output(mode, text[0], out))
  }

  function Lexed(text: string): string {
    Scan(Code, text, "")
  }

  // ---- What the automaton keeps and what it hides ----

  /**
   A statement cut into pieces. In a literal's body a closing quote stands for the doubled one.
   Only the last piece may be unclosed.
   */
  datatype Piece =
    | Char(c: char)
    | Literal(open: char, body: string, closed: bool)
    | LineComment(body: string, closed: bool)
    | BlockComment(body: string, closed: bool)

  function DoubledChar(c: char, close: char): string {
    if c == close then [close, close] else [c]
  }

  function Doubled(body: string, close: char): string {
    if body == "" then "" else DoubledChar(body[0], close) + Doubled(body[1..], close)
  }

  function Text(p: Piece): string {
    match p
    case Char(c) => [c]
    case Literal(open, body, closed) => [open] + (Doubled(body, CloseOf(open)) + if closed then [CloseOf(open)] else "")
    case LineComment(body, closed) => "--" + (body + if closed then "\n" else "")
    case BlockComment(body, closed) => "/*" + (body + if closed then "*/" else "")
  }

  function Blanks(n: nat): (blanks: string)
    ensures |blanks| == n
  {
    if n == 0 then "" else " " + Blanks(n - 1)
  }

  function Visible(p: Piece): string {
    match p
    case Char(c) => [c]
    case Literal(_, body, closed) => Blanks(1 + |body| + if closed then 1 else 0)
    case LineComment(_, _) => " "
    case BlockComment(_, _) => " "
  }

  function TextOf(ps: seq<Piece>): string {
    if ps == [] then "" else Text(ps[0]) + TextOf(ps[1..])
  }

  function VisibleOf(ps: seq<Piece>): string {
    if ps == [] then "" else Visible(ps[0]) + VisibleOf(ps[1..])
  }

  predicate StartsWith(text: string, c: char) {
    text != "" && text[0] == c
  }

  predicate NoBlockEnd(body: string) {
    |body| < 2 || (!(body[0] == '*' && body[1] == '/') && NoBlockEnd(body[1..]))
  }

  /** The piece is what it claims to be when the given text follows it. */
  predicate Fits(p: Piece, rest: string) {
    match p
    case Char(c) => !OpensQuote(c) && !(c == '-' && StartsWith(rest, '-')) && !(c == '/' && StartsWith(rest, '*'))
    case Literal(open, body, closed) =>
      OpensQuote(open) && (open == '[' ==> ']' !in body) && if closed then open == '[' || !StartsWith(rest, open) else rest == ""
    case LineComment(body, closed) => '\n' !in body && (closed || rest == "")
    case BlockComment(body, closed) => NoBlockEnd(if closed then body + "*" else body) && (closed || rest == "")
  }

  predicate Pieces(ps: seq<Piece>) {
    ps == [] || (Fits(ps[0], TextOf(ps[1..])) && Pieces(ps[1..]))
  }

  lemma ScanChar(mode: Mode, c: char, rest: string, out: string)
    ensures Scan(mode, [c] + rest, out) == Scan(NextMode(mode, c), rest, Output(mode, c, out))
  {
    assert ([c] + rest)[1..] == rest;
  }

  /** A mode that holds a character back lets it go when the next one decides against a comment or a doubled quote. */
  lemma ScanReleased(mode: Mode, rest: string, out: string)
    requires mode.Dash? ==> !StartsWith(rest, '-')
    requires mode.Slash? ==> !StartsWith(rest, '*')
    requires mode.Doubtful? ==> !StartsWith(rest, mode.close)
    requires mode.Dash? || mode.Slash? || mode.Doubtful?
    ensures Scan(mode, rest, out) == Scan(Code, rest, out + if mode.Dash? then "-" else if mode.Slash? then "/" else " ")
  {
  }

  lemma ScanDoubledChar(close: char, c: char, more: string, out: string)
    requires close == ']' ==> c != close
    ensures Scan(Quoted(close), DoubledChar(c, close) + more, out) == Scan(Quoted(close), more, out + " ")
  {
    if c == close {
      assert [close, close] + more == [close] + ([close] + more);
      ScanChar(Quoted(close), close, [close] + more, out);
      ScanChar(Doubtful(close), close, more, out);
    } else {
      ScanChar(Quoted(close), c, more, out);
    }
  }

  lemma DoubledLonger(c: char, body: string, close: char, tail: string)
    ensures Doubled([c] + body, close) + tail == DoubledChar(c, close) + (Doubled(body, close) + tail)
  {
    assert ([c] + body)[1..] == body;
    Regroup(DoubledChar(c, close), Doubled(body, close), tail);
  }

  lemma Regroup(a: string, b: string, c: string)
    ensures (a + b) + c == a + (b + c)
  {
  }

  lemma RegroupComment(a: char, b: char, body: string, end: string, rest: string)
    ensures ([a, b] + (body + end)) + rest == [a] + ([b] + (body + (end + rest)))
  {
  }

  function Ending(close: char, closed: bool, rest: string): string {
    if closed then [close] + rest else rest
  }

  lemma ScanEnding(close: char, closed: bool, rest: string, out: string)
    requires if closed then close == ']' || !StartsWith(rest, close) else rest == ""
    ensures Scan(Quoted(close), Ending(close, closed, rest), out) == Scan(Code, rest, out + Blanks(if closed then 1 else 0))
  {
    if closed {
      ScanChar(Quoted(close), close, rest, out);
      if close != ']' {
        ScanReleased(Doubtful(close), rest, out);
      }
      assert Blanks(1) == " ";
    } else {
      assert out + "" == out;
    }
  }

  lemma OneBlankMore(n: nat, out: string)
    ensures (out + " ") + Blanks(n) == out + Blanks(n + 1)
  {
    var blanks := Blanks(n);
    assert (out + " ") + blanks == out + (" " + blanks);
  }

  lemma {:induction false} ScanLiteral(close: char, body: string, closed: bool, rest: string, out: string)
    requires close == ']' ==> ']' !in body
    requires if closed then close == ']' || !StartsWith(rest, close) else rest == ""
    ensures Scan(Quoted(close), Doubled(body, close) + Ending(close, closed, rest), out)
         == Scan(Code, rest, out + Blanks(|body| + if closed then 1 else 0))
    decreases |body|
  {
    var tail := Ending(close, closed, rest);
    if body == "" {
      assert "" + tail == tail;
      ScanEnding(close, closed, rest, out);
    } else {
      var more := Doubled(body[1..], close) + tail;
      assert body == [body[0]] + body[1..];
      DoubledLonger(body[0], body[1..], close, tail);
      ScanDoubledChar(close, body[0], more, out);
      ScanLiteral(close, body[1..], closed, rest, out + " ");
      OneBlankMore(|body| - 1 + if closed then 1 else 0, out);
    }
  }

  lemma {:induction false} ScanLineComment(body: string, closed: bool, rest: string, out: string)
    requires '\n' !in body && (closed || rest == "")
    ensures Scan(Line, body + ((if closed then "\n" else "") + rest), out) == Scan(Code, rest, out)
    decreases |body|
  {
    var tail := (if closed then "\n" else "") + rest;
    if body == "" {
      assert "" + tail == tail && (closed ==> tail[1..] == rest);
    } else {
      assert (body + tail)[1..] == body[1..] + tail;
      ScanLineComment(body[1..], closed, rest, out);
    }
  }

  lemma ScanStar(rest: string, out: string)
    requires !StartsWith(rest, '/')
    ensures Scan(Block, ['*'] + rest, out) == Scan(Block, rest, out)
  {
    ScanChar(Block, '*', rest, out);
  }

  lemma {:induction false} ScanBlockComment(body: string, closed: bool, rest: string, out: string)
    requires NoBlockEnd(if closed then body + "*" else body) && (closed || rest == "")
    ensures Scan(Block, body + ((if closed then "*/" else "") + rest), out) == Scan(Code, rest, out)
    decreases |body|
  {
    var tail := (if closed then "*/" else "") + rest;
    if body == "" {
      assert "" + tail == tail;
      if closed {
        assert tail == ['*'] + (['/'] + rest);
        ScanChar(Block, '*', ['/'] + rest, out);
        ScanChar(BlockStar, '/', rest, out);
      }
    } else {
      var more := body[1..] + tail;
      assert body + tail == [body[0]] + more;
      var all := if closed then body + "*" else body;
      assert all[1..] == if closed then body[1..] + "*" else body[1..];
      ScanBlockComment(body[1..], closed, rest, out);
      if body[0] == '*' {
        assert all[0] == '*' && (|body| > 1 ==> more[0] == body[1] == all[1]) && (|body| == 1 ==> more == tail);
        ScanStar(more, out);
      } else {
        ScanChar(Block, body[0], more, out);
      }
    }
  }

  lemma ScanQuoted(open: char, body: string, closed: bool, rest: string, out: string)
    requires Fits(Literal(open, body, closed), rest)
    ensures var p := Literal(open, body, closed);
            Scan(Code, Text(p) + rest, out) == Scan(Code, rest, out + Visible(p))
  {
    var close, width := CloseOf(open), |body| + if closed then 1 else 0;
    var tail := Doubled(body, close) + Ending(close, closed, rest);
    assert Text(Literal(open, body, closed)) + rest == [open] + tail;
    ScanChar(Code, open, tail, out);
    ScanLiteral(close, body, closed, rest, out + " ");
    OneBlankMore(width, out);
  }

  lemma ScanLine(body: string, closed: bool, rest: string, out: string)
    requires Fits(LineComment(body, closed), rest)
    ensures Scan(Code, Text(LineComment(body, closed)) + rest, out) == Scan(Code, rest, out + " ")
  {
    var tail := body + ((if closed then "\n" else "") + rest);
    RegroupComment('-', '-', body, if closed then "\n" else "", rest);
    ScanChar(Code, '-', ['-'] + tail, out);
    ScanChar(Dash, '-', tail, out);
    ScanLineComment(body, closed, rest, out + " ");
  }

  lemma ScanBlock(body: string, closed: bool, rest: string, out: string)
    requires Fits(BlockComment(body, closed), rest)
    ensures Scan(Code, Text(BlockComment(body, closed)) + rest, out) == Scan(Code, rest, out + " ")
  {
    var tail := body + ((if closed then "*/" else "") + rest);
    RegroupComment('/', '*', body, if closed then "*/" else "", rest);
    ScanChar(Code, '/', ['*'] + tail, out);
    ScanChar(Slash, '*', tail, out);
    ScanBlockComment(body, closed, rest, out + " ");
  }

  lemma ScanPiece(p: Piece, rest: string, out: string)
    requires Fits(p, rest)
    ensures Scan(Code, Text(p) + rest, out) == Scan(Code, rest, out + Visible(p))
  {
    match p
    case Char(c) =>
      ScanChar(Code, c, rest, out);
      if c == '-' || c == '/' {
        ScanReleased(if c == '-' then Dash else Slash, rest, out);
      }
    case Literal(open, body, closed) =>
      ScanQuoted(open, body, closed, rest, out);
    case LineComment(body, closed) =>
      ScanLine(body, closed, rest, out);
    case BlockComment(body, closed) =>
      ScanBlock(body, closed, rest, out);
  }

  lemma {:induction false} ScanPieces(ps: seq<Piece>, out: string)
    requires Pieces(ps)
    ensures Scan(Code, TextOf(ps), out) == out + VisibleOf(ps)
    decreases |ps|
  {
    if ps == [] {
      assert out + "" == out;
    } else {
      var rest, seen, more := TextOf(ps[1..]), Visible(ps[0]), VisibleOf(ps[1..]);
      ScanPiece(ps[0], rest, out);
      ScanPieces(ps[1..], out + seen);
      Regroup(out, seen, more);
    }
  }

  /**
   Of a statement cut into pieces the lexer shows exactly the code characters, in order, and blanks: the contents of
   literals and comments have no influence, a literal's length apart.
   */
  lemma OnlyCodeIsVisible(ps: seq<Piece>)
    requires Pieces(ps)
    ensures Lexed(TextOf(ps)) == VisibleOf(ps)
  {
    ScanPieces(ps, "");
    assert "" + VisibleOf(ps) == VisibleOf(ps);
  }

  // ---- Every statement can be cut into pieces ----

  lemma {:induction false} CutLiteral(close: char, text: string) returns (body: string, closed: bool, rest: string)
    ensures text == Doubled(body, close) + Ending(close, closed, rest)
    ensures close == ']' ==> ']' !in body
    ensures if closed then close == ']' || !StartsWith(rest, close) else rest == ""
    decreases |text|
  {
    if text == "" {
      body, closed, rest := "", false, "";
    } else if text[0] != close {
      body, closed, rest := CutLiteral(close, text[1..]);
      DoubledLonger(text[0], body, close, Ending(close, closed, rest));
      assert text == [text[0]] + text[1..];
      body := [text[0]] + body;
    } else if close != ']' && StartsWith(text[1..], close) {
      body, closed, rest := CutLiteral(close, text[2..]);
      DoubledLonger(close, body, close, Ending(close, closed, rest));
      assert text == [close, close] + text[2..];
      body := [close] + body;
    } else {
      body, closed, rest := "", true, text[1..];
    }
  }

  lemma {:induction false} CutLine(text: string) returns (body: string, closed: bool, rest: string)
    ensures text == body + ((if closed then "\n" else "") + rest)
    ensures '\n' !in body && (closed || rest == "")
    decreases |text|
  {
    if text == "" {
      body, closed, rest := "", false, "";
    } else if text[0] == '\n' {
      body, closed, rest := "", true, text[1..];
    } else {
      body, closed, rest := CutLine(text[1..]);
      body := [text[0]] + body;
    }
  }

  lemma {:induction false} CutBlock(text: string) returns (body: string, closed: bool, rest: string)
    ensures text == body + ((if closed then "*/" else "") + rest)
    ensures NoBlockEnd(if closed then body + "*" else body) && (closed || rest == "")
    decreases |text|
  {
    if text == "" {
      body, closed, rest := "", false, "";
    } else if text[0] == '*' && StartsWith(text[1..], '/') {
      body, closed, rest := "", true, text[2..];
      assert text == "*/" + text[2..];
    } else {
      var b;
      b, closed, rest := CutBlock(text[1..]);
      body := [text[0]] + b;
      LongerBody(text[0], b, closed);
      assert b != "" ==> b[0] == text[1];
      assert text == [text[0]] + text[1..];
    }
  }

  lemma LongerBody(c: char, b: string, closed: bool)
    requires NoBlockEnd(if closed then b + "*" else b) && (b != "" ==> !(c == '*' && b[0] == '/'))
    ensures NoBlockEnd(if closed then [c] + b + "*" else [c] + b)
  {
    var shorter, longer := if closed then b + "*" else b, if closed then [c] + b + "*" else [c] + b;
    assert longer == [c] + shorter && longer[1..] == shorter;
  }

  lemma FirstLiteral(text: string) returns (p: Piece, rest: string)
    requires text != "" && OpensQuote(text[0])
    ensures text == Text(p) + rest && Fits(p, rest)
  {
    var close := CloseOf(text[0]);
    var body, closed, r := CutLiteral(close, text[1..]);
    p, rest := Literal(text[0], body, closed), r;
    assert text == [text[0]] + text[1..];
  }

  lemma FirstLineComment(text: string) returns (p: Piece, rest: string)
    requires |text| > 1 && text[0] == '-' == text[1]
    ensures text == Text(p) + rest && Fits(p, rest)
  {
    var body, closed, r := CutLine(text[2..]);
    p, rest := LineComment(body, closed), r;
    assert text == "--" + text[2..];
  }

  lemma FirstBlockComment(text: string) returns (p: Piece, rest: string)
    requires |text| > 1 && text[0] == '/' && text[1] == '*'
    ensures text == Text(p) + rest && Fits(p, rest)
  {
    var body, closed, r := CutBlock(text[2..]);
    p, rest := BlockComment(body, closed), r;
    assert text == "/*" + text[2..];
  }

  lemma FirstPiece(text: string) returns (p: Piece, rest: string)
    requires text != ""
    ensures text == Text(p) + rest && Fits(p, rest) && |rest| < |text|
  {
    var c := text[0];
    if OpensQuote(c) {
      p, rest := FirstLiteral(text);
    } else if c == '-' && StartsWith(text[1..], '-') {
      p, rest := FirstLineComment(text);
    } else if c == '/' && StartsWith(text[1..], '*') {
      p, rest := FirstBlockComment(text);
    } else {
      p, rest := Char(c), text[1..];
    }
    assert |Text(p)| > 0;
  }

  /** Every statement is the text of some pieces, so what the lexer shows is known for every statement. */
  lemma {:induction false} EveryTextIsPieces(text: string) returns (ps: seq<Piece>)
    ensures Pieces(ps) && TextOf(ps) == text
    ensures Lexed(text) == VisibleOf(ps)
    ensures |Lexed(text)| <= |text|
    decreases |text|
  {
    if text == "" {
      ps := [];
    } else {
      var p, rest := FirstPiece(text);
      var more := EveryTextIsPieces(rest);
      ps := [p] + more;
      assert ps[1..] == more;
      OnlyCodeIsVisible(ps);
      VisibleIsShorter(p);
    }
  }

  lemma VisibleIsShorter(p: Piece)
    ensures |Visible(p)| <= |Text(p)|
  {
    if p.Literal? {
      DoubledIsLonger(p.body, CloseOf(p.open));
    }
  }

  lemma {:induction false} DoubledIsLonger(body: string, close: char)
    ensures |body| <= |Doubled(body, close)|
  {
    if body != "" {
      DoubledIsLonger(body[1..], close);
    }
  }

  // ---- The index-jumping loop ----

  /** The automaton started at a position of a longer text. */
  function ScanAt(mode: Mode, text: string, index: nat, out: string): string
    decreases |text| - index
  {
    if index >= |text| then Finish(mode, out)
    else ScanAt(NextMode(mode, text[index]), text, index + 1, Output(mode, text[index], out))
  }

  lemma {:induction false} ScanFromHere(mode: Mode, text: string, index: nat, out: string)
    requires index <= |text|
    ensures ScanAt(mode, text, index, out) == Scan(mode, text[index..], out)
    decreases |text| - index
  {
    if index < |text| {
      assert text[index..][1..] == text[index + 1..];
      ScanFromHere(NextMode(mode, text[index]), text, index + 1, Output(mode, text[index], out));
    } else {
      assert text[index..] == "";
    }
  }

  /** Skips a line comment from its first dash to the newline or the end. */
  method SkipLine(text: string, start: nat, ghost out: string) returns (index: nat)
    requires start + 1 < |text| && text[start] == '-' && text[start + 1] == '-'
    ensures start < index <= |text| && ScanAt(Code, text, start, out) == ScanAt(Code, text, index + 1, out + " ")
  {
    ghost var shown := out + " ";
    assert ScanAt(Code, text, start, out) == ScanAt(Dash, text, start + 1, out);
    assert ScanAt(Dash, text, start + 1, out) == ScanAt(Line, text, start + 2, shown);
    index := start;
    while index < |text| && text[index] != '\n'
      invariant start <= index <= |text|
      invariant index >= start + 2 ==> ScanAt(Code, text, start, out) == ScanAt(Line, text, index, shown)
    {
      index := index + 1;
    }
  }

  /** Skips a block comment from its slash to the slash that closes it, or past the end. */
  method SkipBlock(text: string, start: nat, ghost out: string) returns (index: nat)
    requires start + 1 < |text| && text[start] == '/' && text[start + 1] == '*'
    ensures start < index <= |text| && ScanAt(Code, text, start, out) == ScanAt(Code, text, index + 1, out + " ")
  {
    assert ScanAt(Code, text, start, out) == ScanAt(Slash, text, start + 1, out) == ScanAt(Block, text, start + 2, out + " ");
    ghost var shown := out + " ";
    index := start + 2;
    while index < |text| && !(text[index] == '*' && index + 1 < |text| && text[index + 1] == '/')
      invariant start + 2 <= index <= |text|
      invariant ScanAt(Code, text, start, out) == ScanAt(Block, text, index, shown)
    {
      if text[index] == '*' {
        assert ScanAt(Block, text, index, shown) == ScanAt(BlockStar, text, index + 1, shown) == ScanAt(Block, text, index + 1, shown);
      }
      index := index + 1;
    }
    if index < |text| {
      assert ScanAt(Block, text, index, shown) == ScanAt(BlockStar, text, index + 1, shown) == ScanAt(Code, text, index + 2, shown);
      index := index + 1;
    }
  }

  function ModeOf(quote: Option<char>): Mode {
    if quote.Some? then Quoted(quote.value) else Code
  }

  /** One round inside a literal: a doubled closing quote is skipped as a whole, except for a bracket. */
  method InsideQuote(text: string, start: nat, quote: char, ghost out: string) returns (index: nat, after: Option<char>)
    requires start < |text|
    ensures start <= index <= |text|
    ensures ScanAt(Quoted(quote), text, start, out) == ScanAt(ModeOf(after), text, index + 1, out + " ")
  {
    index, after := start, Some(quote);
    if text[index] == quote && index + 1 < |text| && text[index + 1] == quote && quote != ']' {
      assert ScanAt(Quoted(quote), text, start, out) == ScanAt(Doubtful(quote), text, start + 1, out);
      index := index + 1;
    } else if text[index] == quote {
      if quote != ']' {
        assert ScanAt(Quoted(quote), text, start, out) == ScanAt(Doubtful(quote), text, start + 1, out);
      }
      after := None;
    }
  }

  /** One round outside literals: what it writes, and where index and quote then stand. */
  method OutsideQuote(text: string, start: nat, ghost out: string) returns (emitted: string, index: nat, after: Option<char>)
    requires start < |text|
    ensures start <= index <= |text|
    ensures ScanAt(Code, text, start, out) == ScanAt(ModeOf(after), text, index + 1, out + emitted)
  {
    var current := text[start];
    index, after, emitted := start, None, " ";
    if current == '-' && start + 1 < |text| && text[start + 1] == '-' {
      index := SkipLine(text, index, out);
    } else if current == '/' && start + 1 < |text| && text[start + 1] == '*' {
      index := SkipBlock(text, index, out);
    } else if current == '\'' || current == '"' || current == '`' {
      after := Some(current);
    } else if current == '[' {
      after := Some(']');
    } else {
      emitted := [current];
      if current == '-' {
        assert ScanAt(Code, text, start, out) == ScanAt(Dash, text, start + 1, out);
      } else if current == '/' {
        assert ScanAt(Code, text, start, out) == ScanAt(Slash, text, start + 1, out);
      }
    }
  }

  /** The whole loop: quotes are tracked in a variable, comments are skipped by moving the index. */
  method NormalizeRaw(text: string) returns (output: string)
    ensures output == Lexed(text)
  {
    ScanFromHere(Code, text, 0, "");
    assert text[0..] == text;
    output := "";
    var quote: Option<char> := None;
    var index := 0;
    while index < |text|
      invariant index <= |text| + 1
      invariant ScanAt(ModeOf(quote), text, index, output) == Lexed(text)
      decreases |text| + 1 - index
    {
      var emitted := " ";
      if quote.Some? {
        index, quote := InsideQuote(text, index, quote.value, output);
      } else {
        emitted, index, quote := OutsideQuote(text, index, output);
      }
      output := output + emitted;
      index := index + 1;
    }
  }

  // ---- The two normal forms ----

  /** Upper-casing may lengthen a character, but white space stays as it is and no other character becomes or contains any. */
  ghost predicate KeepsSpace(upper: char -> string) {
    forall c :: if IsSpace(c) then upper(c) == [c] else upper(c) != "" && forall i :: 0 <= i < |upper(c)| ==> !IsSpace(upper(c)[i])
  }

  function Upper(s: string, upper: char -> string): string {
    if s == "" then "" else upper(s[0]) + Upper(s[1..], upper)
  }

  /** Replaces every run of white space by one blank; `inRun` tells that the run has already been replaced. */
  function Collapse(s: string, inRun: bool): string {
    if s == "" then ""
    else if IsSpace(s[0]) then (if inRun then "" else " ") + Collapse(s[1..], true)
    else [s[0]] + Collapse(s[1..], false)
  }

  function Squeeze(s: string): string {
    if s == "" then "" else (if IsSpace(s[0]) then "" else [s[0]]) + Squeeze(s[1..])
  }

  predicate Inked(c: char) {
    !IsSpace(c)
  }

  /** The words of a text, which white space separates. */
  function SqlWords(text: string): seq<string> {
    WordsOf(text, Inked)
  }

  function UpperWords(words: seq<string>, upper: char -> string): seq<string> {
    seq(|words|, i requires 0 <= i < |words| => Upper(words[i], upper))
  }

  /** Every white space is one blank between two other characters. */
  predicate SingleBlanks(s: string) {
    forall i :: 0 <= i < |s| && IsSpace(s[i]) ==> s[i] == ' ' && 0 < i < |s| - 1 && !IsSpace(s[i - 1]) && !IsSpace(s[i + 1])
  }

  /**
   The case mapping is a parameter. The spaced form holds the upper-cased words of the lexer's output, in order and
   separated by single blanks; the compact form holds them one behind the other.
   */
  method NormalizeSqlForPolicy(query: string, upper: char -> string) returns (spaced: string, compact: string)
    ensures spaced == Upper(Joined(SqlWords(Lexed(query)), " "), upper)
    ensures compact == Upper(Joined(SqlWords(Lexed(query)), ""), upper)
    ensures KeepsSpace(upper) ==>
      && spaced == Joined(UpperWords(SqlWords(Lexed(query)), upper), " ")
      && SingleBlanks(spaced) && SqlWords(spaced) == UpperWords(SqlWords(Lexed(query)), upper)
      && compact == Squeeze(spaced)
  {
    var output := NormalizeRaw(query);
    spaced := Upper(Trim(Collapse(output, false)), upper);
    compact := Upper(Trim(Squeeze(output)), upper);
    CollapsedIsWords(output);
    SqueezedIsWords(output);
    if KeepsSpace(upper) {
      SpacedIsUpperWords(SqlWords(output), upper);
      UpperedAreWords(output, upper);
      SpacedSqueezesToCompact(output, upper);
    }
  }

  lemma {:induction false} CollapseStarts(s: string)
    ensures Collapse(s, true) != "" ==> !IsSpace(Collapse(s, true)[0])
  {
    if s != "" && IsSpace(s[0]) {
      CollapseStarts(s[1..]);
    }
  }

  lemma TrimRightBehind(c: char, s: string)
    ensures TrimRight([c] + s) == if TrimRight(s) == "" && IsSpace(c) then "" else [c] + TrimRight(s)
    decreases |s|
  {
    var all := [c] + s;
    if s == "" {
      assert all[..0] == "";
    } else if IsSpace(s[|s| - 1]) {
      assert all[..|all| - 1] == [c] + s[..|s| - 1];
      TrimRightBehind(c, s[..|s| - 1]);
    }
  }

  function Behind(s: string): string {
    var words := SqlWords(s);
    if s != "" && IsSpace(s[0]) && words != [] then " " + Joined(words, " ") else Joined(words, " ")
  }

  lemma JoinedHead(c: char, s: string)
    requires s != "" ==> SqlWords(s) != [] || IsSpace(s[0])
    ensures !IsSpace(c) ==> Joined(SqlWords([c] + s), " ") == [c] + Behind(s)
    ensures IsSpace(c) ==> SqlWords([c] + s) == SqlWords(s)
  {
    var words := SqlWords(s);
    assert ([c] + s)[1..] == s;
    if !IsSpace(c) {
      if s != "" && !IsSpace(s[0]) {
        assert ([[c] + words[0]] + words[1..])[1..] == words[1..];
        if |words| > 1 {
          assert ([c] + words[0]) + (" " + Joined(words[1..], " ")) == [c] + (words[0] + (" " + Joined(words[1..], " ")));
        }
      } else if words == [] {
        assert [[c]] + words == [[c]] && [c] + "" == [c];
      } else {
        assert ([[c]] + words)[1..] == words;
      }
    }
  }

  lemma {:induction false} CollapseIsWords(s: string)
    ensures TrimRight(Collapse(s, true)) == Joined(SqlWords(s), " ")
    ensures TrimRight(Collapse(s, false)) == Behind(s)
  {
    if s != "" {
      var c, rest := s[0], s[1..];
      assert s == [c] + rest;
      CollapseIsWords(rest);
      WordsAreWords(rest, Inked);
      WordsOfRest(rest);
      JoinedHead(c, rest);
      JoinedWordsBlank(rest);
      if IsSpace(c) {
        var more := Collapse(rest, true);
        TrimRightBehind(' ', more);
        assert "" + more == more && " " + more == [' '] + more;
        assert SqlWords(s) == SqlWords(rest);
        assert IsSpace(' ');
      } else {
        TrimRightBehind(c, Collapse(rest, false));
      }
    }
  }

  lemma WordsOfRest(s: string)
    ensures s != "" ==> SqlWords(s) != [] || IsSpace(s[0])
  {
    WordsAreWords(s, Inked);
  }

  lemma JoinedWordsBlank(s: string)
    ensures Joined(SqlWords(s), " ") == "" <==> SqlWords(s) == []
  {
    WordsAreWords(s, Inked);
    JoinedShape(SqlWords(s), ' ', Inked);
  }

  lemma CollapsedIsWords(output: string)
    ensures Trim(Collapse(output, false)) == Joined(SqlWords(output), " ")
  {
    CollapseIsWords(output);
    if output != "" && IsSpace(output[0]) {
      var rest := Collapse(output[1..], true);
      CollapseStarts(output[1..]);
      CollapseIsWords(output[1..]);
      assert Collapse(output, false) == " " + rest && (" " + rest)[1..] == rest;
      assert TrimLeft(rest) == rest;
    } else {
      assert TrimLeft(Collapse(output, false)) == Collapse(output, false);
    }
  }

  lemma {:induction false} SqueezeIsWords(s: string)
    ensures Squeeze(s) == Joined(SqlWords(s), "")
  {
    if s != "" {
      var c, rest, words := s[0], s[1..], SqlWords(s[1..]);
      SqueezeIsWords(rest);
      WordsOfRest(rest);
      if !IsSpace(c) {
        if rest != "" && !IsSpace(rest[0]) {
          assert ([[c] + words[0]] + words[1..])[1..] == words[1..];
          if |words| > 1 {
            assert ([c] + words[0]) + ("" + Joined(words[1..], "")) == [c] + (words[0] + ("" + Joined(words[1..], "")));
          }
        } else if words == [] {
          assert [[c]] + words == [[c]] && [c] + "" == [c];
        } else {
          assert ([[c]] + words)[1..] == words;
          assert [c] + ("" + Joined(words, "")) == [c] + Joined(words, "");
        }
      }
    }
  }

  lemma SqueezedIsWords(output: string)
    ensures Trim(Squeeze(output)) == Joined(SqlWords(output), "")
  {
    SqueezeIsWords(output);
    SqueezedHasNoSpace(output);
    assert Trim(Squeeze(output)) == Squeeze(output);
  }

  lemma {:induction false} UpperAppend(a: string, b: string, upper: char -> string)
    ensures Upper(a + b, upper) == Upper(a, upper) + Upper(b, upper)
  {
    if a == "" {
      assert a + b == b;
    } else {
      assert (a + b)[1..] == a[1..] + b;
      UpperAppend(a[1..], b, upper);
    }
  }

  /** Where no character changes its length, upper-casing goes character by character. */
  lemma {:induction false} UpperAt(s: string, upper: char -> string, i: nat)
    requires i < |s| && forall c :: c in s ==> |upper(c)| == 1
    ensures |Upper(s, upper)| == |s| && Upper(s, upper)[i] == upper(s[i])[0]
  {
    var rest := s[1..];
    assert s == [s[0]] + rest && s[0] in s && forall c :: c in rest ==> c in s;
    if rest != "" {
      UpperAt(rest, upper, if i > 0 then i - 1 else 0);
    }
  }

  lemma {:induction false} SpacedIsUpperWords(words: seq<string>, upper: char -> string)
    requires KeepsSpace(upper)
    ensures Upper(Joined(words, " "), upper) == Joined(UpperWords(words, upper), " ")
  {
    if |words| > 1 {
      var rest := Joined(words[1..], " ");
      SpacedIsUpperWords(words[1..], upper);
      assert UpperWords(words, upper)[1..] == UpperWords(words[1..], upper);
      UpperAppend(words[0], " " + rest, upper);
      UpperAppend(" ", rest, upper);
      assert upper(' ') == " " && Upper(" ", upper) == " " by {
        assert " "[1..] == "" && " " + "" == " ";
      }
    }
  }

  lemma {:induction false} UpperKeepsWord(word: string, upper: char -> string)
    requires KeepsSpace(upper) && forall i :: 0 <= i < |word| ==> !IsSpace(word[i])
    ensures forall i :: 0 <= i < |Upper(word, upper)| ==> !IsSpace(Upper(word, upper)[i])
    ensures word != "" ==> Upper(word, upper) != ""
  {
    if word != "" {
      UpperKeepsWord(word[1..], upper);
    }
  }

  lemma UpperedAreWords(output: string, upper: char -> string)
    requires KeepsSpace(upper)
    ensures var words := UpperWords(SqlWords(output), upper);
            SingleBlanks(Joined(words, " ")) && SqlWords(Joined(words, " ")) == words
  {
    var words := UpperWords(SqlWords(output), upper);
    WordsAreWords(output, Inked);
    forall i | 0 <= i < |words|
      ensures words[i] != "" && AllKept(words[i], Inked)
    {
      assert AllKept(SqlWords(output)[i], Inked);
      UpperKeepsWord(SqlWords(output)[i], upper);
    }
    WordsOfJoined(words, ' ', Inked);
    JoinedShape(words, ' ', Inked);
  }

  lemma {:induction false} SqueezeCollapse(s: string, inRun: bool)
    ensures Squeeze(Collapse(s, inRun)) == Squeeze(s)
    decreases |s|
  {
    if s != "" {
      var first := if !IsSpace(s[0]) then [s[0]] else if inRun then "" else " ";
      var rest := Collapse(s[1..], IsSpace(s[0]));
      SqueezeCollapse(s[1..], IsSpace(s[0]));
      assert Collapse(s, inRun) == first + rest;
      if first == "" {
        assert first + rest == rest;
      } else {
        assert (first + rest)[1..] == rest;
      }
    }
  }

  lemma {:induction false} SqueezeTrimLeft(s: string)
    ensures Squeeze(TrimLeft(s)) == Squeeze(s)
  {
    if s != "" && IsSpace(s[0]) {
      SqueezeTrimLeft(s[1..]);
    }
  }

  lemma {:induction false} SqueezeAppend(s: string, t: string)
    ensures Squeeze(s + t) == Squeeze(s) + Squeeze(t)
  {
    if s == "" {
      assert s + t == t;
    } else {
      assert (s + t)[1..] == s[1..] + t;
      SqueezeAppend(s[1..], t);
    }
  }

  lemma {:induction false} SqueezeTrimRight(s: string)
    ensures Squeeze(TrimRight(s)) == Squeeze(s)
  {
    if s != "" && IsSpace(s[|s| - 1]) {
      var front, last := s[..|s| - 1], s[|s| - 1..];
      assert s == front + last;
      SqueezeAppend(front, last);
      assert Squeeze(last) == "";
      SqueezeTrimRight(front);
    }
  }

  lemma {:induction false} SqueezeNoSpace(s: string)
    requires forall i :: 0 <= i < |s| ==> !IsSpace(s[i])
    ensures Squeeze(s) == s
  {
    if s != "" {
      SqueezeNoSpace(s[1..]);
    }
  }

  lemma {:induction false} SqueezeUpper(s: string, upper: char -> string)
    requires KeepsSpace(upper)
    ensures Squeeze(Upper(s, upper)) == Upper(Squeeze(s), upper)
  {
    if s != "" {
      SqueezeUpper(s[1..], upper);
      SqueezeAppend(upper(s[0]), Upper(s[1..], upper));
      if IsSpace(s[0]) {
        var first := upper(s[0]);
        assert first == [s[0]] && first[1..] == "";
        assert Squeeze(first) == "";
        assert "" + Squeeze(Upper(s[1..], upper)) == Squeeze(Upper(s[1..], upper));
        assert "" + Squeeze(s[1..]) == Squeeze(s[1..]);
      } else {
        SqueezeNoSpace(upper(s[0]));
        var squeezed := [s[0]] + Squeeze(s[1..]);
        assert squeezed[1..] == Squeeze(s[1..]);
      }
    }
  }

  lemma {:induction false} SqueezedHasNoSpace(s: string)
    ensures forall i :: 0 <= i < |Squeeze(s)| ==> !IsSpace(Squeeze(s)[i])
  {
    if s != "" {
      SqueezedHasNoSpace(s[1..]);
    }
  }

  /** Removing the white space of the spaced form gives the compact form, whatever the lexer's output. */
  lemma SpacedSqueezesToCompact(output: string, upper: char -> string)
    requires KeepsSpace(upper)
    ensures Squeeze(Upper(Trim(Collapse(output, false)), upper)) == Upper(Trim(Squeeze(output)), upper)
  {
    var collapsed := Collapse(output, false);
    SqueezeUpper(Trim(collapsed), upper);
    SqueezeTrimRight(TrimLeft(collapsed));
    SqueezeTrimLeft(collapsed);
    SqueezeCollapse(output, false);
    SqueezedHasNoSpace(output);
    assert Trim(Squeeze(output)) == Squeeze(output);
  }

  // ---- Trimming result rows ----

  function Sum(sizes: seq<nat>): nat {
    if sizes == [] then 0 else Sum(sizes[..|sizes| - 1]) + sizes[|sizes| - 1]
  }

  /** The length of a JSON array of rows of these sizes: brackets, rows and separating commas. */
  function ArrayBytes(sizes: seq<nat>): nat {
    2 + Sum(sizes) + if sizes == [] then 0 else |sizes| - 1
  }

  lemma {:induction false} SumBehind(first: nat, rest: seq<nat>)
    ensures Sum([first] + rest) == first + Sum(rest)
  {
    var all := [first] + rest;
    if rest == [] {
      assert all[..0] == [];
    } else {
      assert all[..|all| - 1] == [first] + rest[..|rest| - 1];
      SumBehind(first, rest[..|rest| - 1]);
    }
  }

  function Lengths(texts: seq<string>): seq<nat> {
    seq(|texts|, i requires 0 <= i < |texts| => |texts[i]|)
  }

  lemma {:induction false} JoinedLength(texts: seq<string>)
    ensures |Joined(texts, ",")| == Sum(Lengths(texts)) + if texts == [] then 0 else |texts| - 1
  {
    if texts != [] {
      var first, rest := texts[0], texts[1..];
      assert Lengths(texts) == [|first|] + Lengths(rest);
      SumBehind(|first|, Lengths(rest));
      JoinedLength(rest);
    }
  }

  /** The counted size is that of the array written out, the rows in brackets and joined by commas. */
  lemma ArrayBytesIsLength(texts: seq<string>)
    ensures |"[" + Joined(texts, ",") + "]"| == ArrayBytes(Lengths(texts))
  {
    JoinedLength(texts);
  }

  /** A limit that is not a finite number counts as the default. */
  function ByteLimit(maxBytes: Option<real>): (limit: real)
    ensures 1024.0 <= limit <= 2_000_000.0
    ensures maxBytes.Some? && 1024.0 <= maxBytes.value <= 2_000_000.0 ==> limit == maxBytes.value
    ensures maxBytes.Some? ==> (maxBytes.value <= 1024.0 ==> limit == 1024.0) && (maxBytes.value >= 2_000_000.0 ==> limit == 2_000_000.0)
    ensures maxBytes.None? ==> limit == 512_000.0
  {
    match maxBytes
    case None => 512_000.0
    case Some(n) => if n < 1024.0 then 1024.0 else if n > 2_000_000.0 then 2_000_000.0 else n
  }

  lemma {:induction false} LongerIsLarger(sizes: seq<nat>, m: nat, n: nat)
    requires m <= n <= |sizes|
    ensures ArrayBytes(sizes[..m]) <= ArrayBytes(sizes[..n])
    decreases n
  {
    if m < n {
      LongerIsLarger(sizes, m, n - 1);
      assert sizes[..n][..n - 1] == sizes[..n - 1];
    }
  }

  function SizesOf<T>(rows: seq<T>, size: T -> nat): seq<nat> {
    seq(|rows|, i requires 0 <= i < |rows| => size(rows[i]))
  }

  /** Keeps the longest prefix whose encoding fits the limit: a prefix fits if and only if it is no longer. */
  method TrimResultRows<T>(rows: seq<T>, size: T -> nat, maxBytes: Option<real>) returns (kept: seq<T>)
    ensures kept <= rows
    ensures forall n: nat :: n <= |rows| ==>
      (ArrayBytes(SizesOf(rows, size)[..n]) as real <= ByteLimit(maxBytes) <==> n <= |kept|)
  {
    var byteLimit := ByteLimit(maxBytes);
    ghost var sizes := SizesOf(rows, size);
    kept := [];
    var used := 2;
    while |kept| < |rows|
      invariant |kept| <= |rows| && kept == rows[..|kept|]
      invariant used == 2 + Sum(sizes[..|kept|]) + |kept|
      invariant ArrayBytes(sizes[..|kept|]) as real <= byteLimit
    {
      var k := |kept|;
      var bytes := size(rows[k]);
      assert sizes[..k + 1][..k] == sizes[..k];
      if (used + bytes) as real > byteLimit {
        break;
      }
      kept := kept + [rows[k]];
      used := used + bytes + 1;
    }
    forall n: nat | n <= |rows|
      ensures ArrayBytes(sizes[..n]) as real <= byteLimit <==> n <= |kept|
    {
      if n <= |kept| {
        LongerIsLarger(sizes, n, |kept|);
      } else {
        assert sizes[..|kept| + 1][..|kept|] == sizes[..|kept|];
        LongerIsLarger(sizes, |kept| + 1, n);
      }
    }
  }
}
