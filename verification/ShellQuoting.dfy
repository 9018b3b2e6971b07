/**
 Printing a command line that tokenizes to the same words. The reader follows the quoting rules of
 section 2.2 of the POSIX Shell Command Language (XCU chapter 2): backslash, single-quotes and double-quotes.
 An unquoted character that would start an operator, an expansion or a pattern makes the reader give up.
 */
module ShellQuoting {
  import opened Wrappers

  // ---- The printers ----

  predicate SafeChar(c: char) {
    'a' <= c <= 'z' || 'A' <= c <= 'Z' || '0' <= c <= '9' || c in {'_', '@', '%', '+', '=', ':', ',', '.', '/', '-'}
  }

  predicate AllSafe(text: string) {
    forall i :: 0 <= i < |text| ==> SafeChar(text[i])
  }

  /** Every single-quote is closed over, double-quoted and reopened. */
  function EscapedChar(c: char): string {
    if c == '\'' then "'\"'\"'" else [c]
  }

  function Escaped(text: string): string {
    if text == "" then "" else EscapedChar(text[0]) + Escaped(text[1..])
  }

  /** The TypeScript form: the pattern for plain words needs at least one character. */
  function TsQuote(text: string): string {
    if text != "" && AllSafe(text) then text else "'" + Escaped(text) + "'"
  }

  /** The Go form: the empty word is a case of its own. */
  function GoQuote(value: string): string {
    if value == "" then "''"
    else if AllSafe(value) then value
    else "'" + Escaped(value) + "'"
  }

  function Join(words: seq<string>): string {
    if words == [] then ""
    else if |words| == 1 then words[0]
    else Join(words[..|words| - 1]) + " " + words[|words| - 1]
  }

  function Quoted(words: seq<string>): seq<string> {
    seq(|words|, i requires 0 <= i < |words| => TsQuote(words[i]))
  }

  function CommandToString(redacted: string, argv: seq<string>): string {
    if redacted != "" then redacted else Join(Quoted(argv))
  }

  /** The Go printers mask each argument before quoting it; the mask is a parameter. */
  function Masked(mask: string -> string, argv: seq<string>): seq<string> {
    seq(|argv|, i requires 0 <= i < |argv| => mask(argv[i]))
  }

  method GoCommandString(redacted: string, mask: string -> string, argv: seq<string>) returns (printed: string)
    ensures printed == CommandToString(redacted, Masked(mask, argv))
    ensures if redacted != "" then printed == redacted else Read(printed) == Some(Masked(mask, argv))
  {
    if redacted != "" {
      return redacted;
    }
    RoundTrip(Masked(mask, argv));
    var quoted: seq<string> := [];
    for i := 0 to |argv|
      invariant quoted == Quoted(Masked(mask, argv))[..i]
    {
      QuotersAgree(mask(argv[i]));
      quoted := quoted + [GoQuote(mask(argv[i]))];
    }
    assert Quoted(Masked(mask, argv))[..|argv|] == Quoted(Masked(mask, argv));
    printed := Join(quoted);
  }

  lemma QuotersAgree(text: string)
    ensures GoQuote(text) == TsQuote(text)
  {
    assert text == "" ==> Escaped(text) == "";
  }

  lemma {:induction false} EscapedGrows(text: string)
    ensures |Escaped(text)| >= |text|
  {
    if text != "" {
      EscapedGrows(text[1..]);
    }
  }

  /** A word is printed as it is exactly if it is not empty and has only letters, digits and the ten plain signs. */
  lemma BareExactly(text: string)
    ensures TsQuote(text) == text <==>
            && text != ""
            && forall i :: 0 <= i < |text| ==>
                 'a' <= text[i] <= 'z' || 'A' <= text[i] <= 'Z' || '0' <= text[i] <= '9' || text[i] in "_@%+=:,./-"
  {
    EscapedGrows(text);
    if text != "" && AllSafe(text) {
      forall i | 0 <= i < |text|
        ensures 'a' <= text[i] <= 'z' || 'A' <= text[i] <= 'Z' || '0' <= text[i] <= '9' || text[i] in "_@%+=:,./-"
      {
        assert SafeChar(text[i]);
        PlainSigns(text[i]);
      }
    } else if text != "" {
      var i :| 0 <= i < |text| && !SafeChar(text[i]);
      PlainSigns(text[i]);
    }
  }

  lemma PlainSigns(c: char)
    ensures c in "_@%+=:,./-" <==> c in {'_', '@', '%', '+', '=', ':', ',', '.', '/', '-'}
  {
    assert "_@%+=:,./-" == ['_', '@', '%', '+', '=', ':', ',', '.', '/', '-'];
  }

  // ---- The reader ----

  datatype Mode = Plain | Single | Double

  /** The words read so far, the word being read if one has begun, and the quoting mode. */
  datatype Reader = Reader(words: seq<string>, word: Option<string>, mode: Mode)

  predicate Blank(c: char) {
    c == ' ' || c == '\t' || c == '\n'
  }

  predicate Special(c: char) {
    c in {'|', '&', ';', '<', '>', '(', ')', '$', '`', '*', '?', '[', '#', '~', '!', '{', '}'}
  }

  function Begun(r: Reader): string {
    if r.word.Some? then r.word.value else ""
  }

  function Closed(r: Reader): Reader {
    if r.word.Some? then r.(words := r.words + [r.word.value], word := None) else r
  }

  function ReadFrom(r: Reader, text: string): Option<seq<string>>
    decreases |text|
  {
    if text == "" then
      if r.mode == Plain then Some(Closed(r).words) else None
    else
      var c, rest := text[0], text[1..];
      match r.mode
      case Single => ReadFrom(if c == '\'' then r.(mode := Plain) else r.(word := Some(Begun(r) + [c])), rest)
      case Double =>
        if c == '"' then ReadFrom(r.(mode := Plain), rest)
        else if c == '$' || c == '`' then None
        else if c == '\\' && rest != "" && rest[0] in {'$', '`', '"', '\\', '\n'} then
          ReadFrom(if rest[0] == '\n' then r else r.(word := Some(Begun(r) + [rest[0]])), rest[1..])
        else ReadFrom(r.(word := Some(Begun(r) + [c])), rest)
      case Plain =>
        if c == '\'' then ReadFrom(r.(word := Some(Begun(r)), mode := Single), rest)
        else if c == '"' then ReadFrom(r.(word := Some(Begun(r)), mode := Double), rest)
        else if c == '\\' then
          if rest == "" then None
          else ReadFrom(if rest[0] == '\n' then r else r.(word := Some(Begun(r) + [rest[0]])), rest[1..])
        else if Blank(c) then ReadFrom(Closed(r), rest)
        else if Special(c) then None
        else ReadFrom(r.(word := Some(Begun(r) + [c])), rest)
  }

  function Read(line: string): Option<seq<string>> {
    ReadFrom(Reader([], None, Plain), line)
  }

  // ---- Round trip ----

  lemma ReadSafeChar(r: Reader, c: char, rest: string)
    requires r.mode == Plain && SafeChar(c)
    ensures ReadFrom(r, [c] + rest) == ReadFrom(r.(word := Some(Begun(r) + [c])), rest)
  {
    assert c != '\'' && c != '"' && c != '\\' && !Blank(c) && !Special(c);
    assert ([c] + rest)[1..] == rest;
  }

  lemma {:induction false} ReadSafe(r: Reader, text: string, rest: string)
    requires r.mode == Plain && text != "" && AllSafe(text)
    ensures ReadFrom(r, text + rest) == ReadFrom(r.(word := Some(Begun(r) + text)), rest)
    decreases |text|
  {
    var c, next := text[0], r.(word := Some(Begun(r) + [text[0]]));
    assert text + rest == [c] + (text[1..] + rest);
    ReadSafeChar(r, c, text[1..] + rest);
    if |text| == 1 {
      assert text == [c] && text[1..] + rest == rest;
    } else {
      ReadSafe(next, text[1..], rest);
      assert Begun(r) + [c] + text[1..] == Begun(r) + text;
    }
  }

  lemma ReadChar(r: Reader, c: char, more: string)
    ensures r.mode == Single && c == '\'' ==> ReadFrom(r, [c] + more) == ReadFrom(r.(mode := Plain), more)
    ensures r.mode == Double && c == '\'' ==> ReadFrom(r, [c] + more) == ReadFrom(r.(word := Some(Begun(r) + [c])), more)
    ensures r.mode == Double && c == '"' ==> ReadFrom(r, [c] + more) == ReadFrom(r.(mode := Plain), more)
    ensures r.mode == Plain && c == '\'' ==> ReadFrom(r, [c] + more) == ReadFrom(r.(word := Some(Begun(r)), mode := Single), more)
    ensures r.mode == Plain && c == '"' ==> ReadFrom(r, [c] + more) == ReadFrom(r.(word := Some(Begun(r)), mode := Double), more)
  {
    assert ([c] + more)[1..] == more;
  }

  /** The printed form of an embedded single-quote, read character by character. */
  lemma ReadQuotedQuote(r: Reader, more: string)
    requires r.mode == Single && r.word.Some?
    ensures ReadFrom(r, "'\"'\"'" + more) == ReadFrom(r.(word := Some(r.word.value + "'")), more)
  {
    hide ReadFrom;
    var t4 := ['\''] + more;
    var t3 := ['"'] + t4;
    var t2 := ['\''] + t3;
    var t1 := ['"'] + t2;
    assert "'\"'\"'" + more == ['\''] + t1;
    var quoted := r.(word := Some(r.word.value + "'"));
    ReadChar(r, '\'', t1);
    ReadChar(r.(mode := Plain), '"', t2);
    ReadChar(r.(mode := Double), '\'', t3);
    ReadChar(quoted.(mode := Double), '"', t4);
    ReadChar(quoted.(mode := Plain), '\'', more);
  }

  lemma ReadEscapedChar(r: Reader, c: char, more: string)
    requires r.mode == Single && r.word.Some?
    ensures ReadFrom(r, EscapedChar(c) + more) == ReadFrom(r.(word := Some(r.word.value + [c])), more)
  {
    if c == '\'' {
      ReadQuotedQuote(r, more);
    } else {
      assert ([c] + more)[1..] == more;
    }
  }

  lemma {:induction false} ReadEscaped(r: Reader, text: string, rest: string)
    requires r.mode == Single && r.word.Some?
    ensures ReadFrom(r, Escaped(text) + ("'" + rest)) == ReadFrom(r.(word := Some(r.word.value + text), mode := Plain), rest)
    decreases |text|
  {
    var tail := "'" + rest;
    if text == "" {
      assert "" + tail == tail && tail[1..] == rest;
      assert r.word.value + "" == r.word.value;
    } else {
      var c, more := text[0], Escaped(text[1..]) + tail;
      assert Escaped(text) + tail == EscapedChar(c) + more;
      ReadEscapedChar(r, c, more);
      ReadEscaped(r.(word := Some(r.word.value + [c])), text[1..], rest);
      assert r.word.value + [c] + text[1..] == r.word.value + text;
    }
  }

  lemma ReadQuoted(words: seq<string>, text: string, rest: string)
    ensures ReadFrom(Reader(words, None, Plain), ("'" + Escaped(text) + "'") + rest) == ReadFrom(Reader(words, Some(text), Plain), rest)
  {
    var line, tail := ("'" + Escaped(text) + "'") + rest, Escaped(text) + ("'" + rest);
    assert line == ['\''] + tail && line[1..] == tail;
    assert ReadFrom(Reader(words, None, Plain), line) == ReadFrom(Reader(words, Some(""), Single), tail);
    ReadEscaped(Reader(words, Some(""), Single), text, rest);
    assert "" + text == text;
  }

  /** A printed argument, wherever a word may begin, reads back as that argument. */
  lemma ReadWord(words: seq<string>, text: string, rest: string)
    ensures ReadFrom(Reader(words, None, Plain), TsQuote(text) + rest) == ReadFrom(Reader(words, Some(text), Plain), rest)
  {
    if text != "" && AllSafe(text) {
      ReadSafe(Reader(words, None, Plain), text, rest);
      assert "" + text == text;
    } else {
      ReadQuoted(words, text, rest);
    }
  }

  lemma {:induction false} ReadJoined(argv: seq<string>, rest: string)
    requires argv != []
    ensures ReadFrom(Reader([], None, Plain), Join(Quoted(argv)) + rest)
         == ReadFrom(Reader(argv[..|argv| - 1], Some(argv[|argv| - 1]), Plain), rest)
    decreases |argv|
  {
    var front, last := argv[..|argv| - 1], argv[|argv| - 1];
    if front == [] {
      assert Quoted(argv) == [TsQuote(last)];
      ReadWord([], last, rest);
    } else {
      assert Quoted(argv)[..|argv| - 1] == Quoted(front);
      var tail := " " + (TsQuote(last) + rest);
      assert Join(Quoted(argv)) + rest == Join(Quoted(front)) + tail;
      ReadJoined(front, tail);
      assert tail[1..] == TsQuote(last) + rest;
      var r := Reader(front[..|front| - 1], Some(front[|front| - 1]), Plain);
      assert front[..|front| - 1] + [front[|front| - 1]] == front;
      assert ReadFrom(r, tail) == ReadFrom(Reader(front, None, Plain), TsQuote(last) + rest);
      ReadWord(front, last, rest);
    }
  }

  /** Every argument list survives printing and reading, empty arguments and embedded quotes included. */
  lemma RoundTrip(argv: seq<string>)
    ensures Read(CommandToString("", argv)) == Some(argv)
  {
    if argv != [] {
      ReadJoined(argv, "");
      assert Join(Quoted(argv)) + "" == Join(Quoted(argv));
      assert argv[..|argv| - 1] + [argv[|argv| - 1]] == argv;
    }
  }

  /** The Go printers round-trip exactly the argument lists that masking leaves unchanged. */
  lemma MaskedRoundTripExactly(mask: string -> string, argv: seq<string>)
    ensures Read(CommandToString("", Masked(mask, argv))) == Some(argv)
        <==> forall i :: 0 <= i < |argv| ==> mask(argv[i]) == argv[i]
  {
    RoundTrip(Masked(mask, argv));
    if forall i :: 0 <= i < |argv| ==> mask(argv[i]) == argv[i] {
      assert Masked(mask, argv) == argv;
    } else {
      var i :| 0 <= i < |argv| && mask(argv[i]) != argv[i];
      assert Masked(mask, argv)[i] != argv[i];
    }
  }
}
