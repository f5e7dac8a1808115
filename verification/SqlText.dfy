/**
 The text layer between the controllers and PostgreSQL: how names and string constants are quoted when
 a statement is written, and how PostgreSQL's lexer reads them back.

 Quoting follows sections 4.1.1 (quoted identifiers) and 4.1.2.1 (string constants) of the PostgreSQL
 documentation. `Sanitize` and `EscapeString` stand for pgx.Identifier.Sanitize and pgconn's EscapeString,
 which are library code: what they do here is an assumption about that library.
 */
module SqlText {
  import opened Wrappers

  const NUL: char := 0 as char

  /** strings.ReplaceAll(s, "\x00", ""). */
  function Strip(s: string): string {
    if s == "" then "" else (if s[0] == NUL then "" else [s[0]]) + Strip(s[1..])
  }

  /** strings.ReplaceAll(s, q, qq). */
  function Doubled(q: char, s: string): string {
    if s == "" then "" else (if s[0] == q then [q, q] else [s[0]]) + Doubled(q, s[1..])
  }

  /** One part of an identifier, quoted. */
  function Quoted(name: string): string {
    "\"" + Doubled('"', Strip(name)) + "\""
  }

  function EscapeString(s: string): string {
    Doubled('\'', s)
  }

  /** strings.Join(parts, sep). */
  function Join(parts: seq<string>, sep: string): string {
    if |parts| == 0 then "" else if |parts| == 1 then parts[0] else parts[0] + sep + Join(parts[1..], sep)
  }

  function QuotedParts(ident: seq<string>): seq<string> {
    seq(|ident|, i requires 0 <= i < |ident| => Quoted(ident[i]))
  }

  /** pgx.Identifier.Sanitize. */
  function Sanitize(ident: seq<string>): string {
    Join(QuotedParts(ident), ".")
  }

  predicate NulFree(s: string) {
    forall i :: 0 <= i < |s| ==> s[i] != NUL
  }

  lemma StripNulFree(s: string)
    requires NulFree(s)
    ensures Strip(s) == s
  {
    if s != "" {
      StripNulFree(s[1..]);
    }
  }

  // ---------------------------------------------------------------------------------------------------
  // The lexer
  // ---------------------------------------------------------------------------------------------------

  /** Unquoted words, quoted identifiers, string constants and single-character symbols. */
  datatype Token =
    | Word(word: string)
    | Name(name: string)
    | Text(text: string)
    | Symbol(symbol: char)

  predicate IsSpace(c: char) {
    c == ' ' || c == '\n' || c == '\t'
  }

  predicate IsWordChar(c: char) {
    'a' <= c <= 'z' || 'A' <= c <= 'Z' || c == '_'
  }

  predicate IsSymbol(c: char) {
    c == '(' || c == ')' || c == ',' || c == '.' || c == '='
  }

  /** Reads up to the closing quote q, where a doubled q stands for itself; also returns what follows it. */
  function ReadBody(q: char, s: string): (r: Option<(string, string)>)
    ensures r.Some? ==> |r.value.1| < |s|
  {
    if s == "" then None
    else if s[0] != q then
      match ReadBody(q, s[1..])
      case None => None
      case Some((body, rest)) => Some(([s[0]] + body, rest))
    else if |s| > 1 && s[1] == q then
      match ReadBody(q, s[2..])
      case None => None
      case Some((body, rest)) => Some(([q] + body, rest))
    else Some(("", s[1..]))
  }

  /** The number of word characters that s starts with. */
  function WordLength(s: string): (n: nat)
    ensures n <= |s|
    ensures forall i :: 0 <= i < n ==> IsWordChar(s[i])
    ensures n < |s| ==> !IsWordChar(s[n])
  {
    if s == "" || !IsWordChar(s[0]) then 0 else 1 + WordLength(s[1..])
  }

  function Prepend(tokens: seq<Token>, rest: Option<seq<Token>>): Option<seq<Token>> {
    match rest
    case None => None
    case Some(more) => Some(tokens + more)
  }

  function Lex(s: string): Option<seq<Token>>
    decreases |s|
  {
    if s == "" then Some([])
    else if IsSpace(s[0]) then Lex(s[1..])
    else if s[0] == '"' then
      match ReadBody('"', s[1..])
      case None => None
      case Some((body, rest)) => Prepend([Name(body)], Lex(rest))
    else if s[0] == '\'' then
      match ReadBody('\'', s[1..])
      case None => None
      case Some((body, rest)) => Prepend([Text(body)], Lex(rest))
    else if IsWordChar(s[0]) then
      Prepend([Word(s[..WordLength(s)])], Lex(s[WordLength(s)..]))
    else if IsSymbol(s[0]) then Prepend([Symbol(s[0])], Lex(s[1..]))
    else None
  }

  // ---------------------------------------------------------------------------------------------------
  // Reading back what was written, piece by piece
  // ---------------------------------------------------------------------------------------------------

  /** Text that cannot be mistaken for the continuation of the token before it. */
  predicate Separates(s: string) {
    s == "" || IsSpace(s[0]) || IsSymbol(s[0])
  }

  /**
   The lexer reads `text` as `tokens`, whatever comes after it; a piece that is not `closed` must be
   followed by text that separates.
   */
  ghost predicate Reads(text: string, tokens: seq<Token>, closed: bool) {
    forall rest: string {:trigger Before(text, rest)} ::
      Before(text, rest) && (closed || Separates(rest)) ==> Lex(text + rest) == Prepend(tokens, Lex(rest))
  }

  /** Always so; to name it is to say which text comes next. */
  predicate Before(text: string, rest: string) {
    |text + rest| == |text| + |rest|
  }

  lemma ReadsAll(text: string, tokens: seq<Token>, closed: bool)
    requires Reads(text, tokens, closed)
    ensures Lex(text) == Some(tokens)
  {
    assert text + "" == text;
    assert Before(text, "");
    assert Lex(text + "") == Prepend(tokens, Lex(""));
    assert tokens + [] == tokens;
  }

  /** Pieces compose. */
  lemma ReadsThen(a: string, ta: seq<Token>, closedA: bool, b: string, tb: seq<Token>, closedB: bool)
    requires Reads(a, ta, closedA) && Reads(b, tb, closedB)
    requires closedA || (b != "" && Separates(b))
    ensures Reads(a + b, ta + tb, closedB)
  {
    forall rest: string | closedB || Separates(rest)
      ensures Lex(a + b + rest) == Prepend(ta + tb, Lex(rest))
    {
      assert a + b + rest == a + (b + rest);
      assert Separates(b) && b != "" ==> Separates(b + rest);
      assert Before(b, rest) && Before(a, b + rest);
      assert Lex(a + (b + rest)) == Prepend(ta, Lex(b + rest));
      if Lex(rest).Some? {
        assert ta + (tb + Lex(rest).value) == ta + tb + Lex(rest).value;
      }
    }
  }

  lemma ReadsSpace()
    ensures Reads(" ", [], true)
  {
    forall rest: string
      ensures Lex(" " + rest) == Prepend([], Lex(rest))
    {
      assert (" " + rest)[1..] == rest;
      if Lex(rest).Some? {
        assert [] + Lex(rest).value == Lex(rest).value;
      }
    }
  }

  lemma ReadsSymbol(c: char)
    requires IsSymbol(c)
    ensures Reads([c], [Symbol(c)], true)
  {
    forall rest: string
      ensures Lex([c] + rest) == Prepend([Symbol(c)], Lex(rest))
    {
      assert ([c] + rest)[1..] == rest;
    }
  }

  predicate IsWord(w: string) {
    w != "" && forall i :: 0 <= i < |w| ==> IsWordChar(w[i])
  }

  lemma ReadsWord(w: string)
    requires IsWord(w)
    ensures Reads(w, [Word(w)], false)
  {
    forall rest: string | Separates(rest)
      ensures Lex(w + rest) == Prepend([Word(w)], Lex(rest))
    {
      var s := w + rest;
      var n := WordLength(s);
      assert forall i :: 0 <= i < |w| ==> s[i] == w[i];
      assert rest != "" ==> s[|w|] == rest[0];
      assert s[..n] == w && s[n..] == rest;
    }
  }

  /** A quoted body ends where it was meant to end, whatever quotes it contains. */
  lemma {:induction false} BodyReads(q: char, body: string, rest: string)
    requires rest == "" || rest[0] != q
    ensures ReadBody(q, Doubled(q, body) + [q] + rest) == Some((body, rest))
  {
    var s := Doubled(q, body) + [q] + rest;
    if body == "" {
      assert s == [q] + rest;
      assert s[1..] == rest;
    } else {
      var tail := Doubled(q, body[1..]) + [q] + rest;
      BodyReads(q, body[1..], rest);
      assert [body[0]] + body[1..] == body;
      if body[0] == q {
        assert s == [q, q] + tail;
        assert s[2..] == tail;
      } else {
        assert s == [body[0]] + tail;
        assert s[1..] == tail;
      }
    }
  }

  lemma ReadsQuoted(name: string)
    ensures Reads(Quoted(name), [Name(Strip(name))], false)
  {
    forall rest: string | Separates(rest)
      ensures Lex(Quoted(name) + rest) == Prepend([Name(Strip(name))], Lex(rest))
    {
      BodyReads('"', Strip(name), rest);
      assert (Quoted(name) + rest)[1..] == Doubled('"', Strip(name)) + ['"'] + rest;
    }
  }

  lemma ReadsLiteral(text: string)
    ensures Reads("'" + EscapeString(text) + "'", [Text(text)], false)
  {
    forall rest: string | Separates(rest)
      ensures Lex("'" + EscapeString(text) + "'" + rest) == Prepend([Text(text)], Lex(rest))
    {
      BodyReads('\'', text, rest);
      assert ("'" + EscapeString(text) + "'" + rest)[1..] == Doubled('\'', text) + ['\''] + rest;
    }
  }

  /** Words written with a space after each of them. */
  function Spaced(words: seq<string>): string {
    if words == [] then "" else words[0] + " " + Spaced(words[1..])
  }

  function Words(words: seq<string>): seq<Token> {
    seq(|words|, i requires 0 <= i < |words| => Word(words[i]))
  }

  lemma {:induction false} ReadsSpaced(words: seq<string>)
    requires forall i :: 0 <= i < |words| ==> IsWord(words[i])
    ensures Reads(Spaced(words), Words(words), true)
  {
    if words == [] {
      forall rest: string
        ensures Lex(Spaced(words) + rest) == Prepend(Words(words), Lex(rest))
      {
        assert Spaced(words) + rest == rest;
        if Lex(rest).Some? {
          assert Words(words) + Lex(rest).value == Lex(rest).value;
        }
      }
    } else {
      ReadsWord(words[0]);
      ReadsSpace();
      ReadsThen(words[0], [Word(words[0])], false, " ", [], true);
      ReadsSpaced(words[1..]);
      ReadsThen(words[0] + " ", [Word(words[0])] + [], true, Spaced(words[1..]), Words(words[1..]), true);
      assert Words(words) == [Word(words[0])] + [] + Words(words[1..]);
    }
  }

  /** What a separated list of pieces reads as. */
  function Separated(parts: seq<seq<Token>>, separator: char): seq<Token> {
    if |parts| == 0 then []
    else if |parts| == 1 then parts[0]
    else parts[0] + [Symbol(separator)] + Separated(parts[1..], separator)
  }

  lemma {:induction false} ReadsJoined(texts: seq<string>, parts: seq<seq<Token>>, sep: string, separator: char)
    requires 0 < |texts| == |parts|
    requires forall i :: 0 <= i < |texts| ==> Reads(texts[i], parts[i], false)
    requires sep != "" && Separates(sep) && Reads(sep, [Symbol(separator)], true)
    ensures Reads(Join(texts, sep), Separated(parts, separator), false)
  {
    if |texts| > 1 {
      ReadsJoined(texts[1..], parts[1..], sep, separator);
      ReadsThen(texts[0], parts[0], false, sep, [Symbol(separator)], true);
      ReadsThen(texts[0] + sep, parts[0] + [Symbol(separator)], true,
                Join(texts[1..], sep), Separated(parts[1..], separator), false);
    }
  }

  /** The comma separators the printers use. */
  lemma ReadsComma()
    ensures Reads(", ", [Symbol(',')], true)
  {
    ReadsSymbol(',');
    ReadsSpace();
    ReadsThen(",", [Symbol(',')], true, " ", [], true);
    assert "," + " " == ", " && [Symbol(',')] + [] == [Symbol(',')];
  }

  lemma ReadsCommaLine()
    ensures Reads(",\n", [Symbol(',')], true)
  {
    forall rest: string
      ensures Lex(",\n" + rest) == Prepend([Symbol(',')], Lex(rest))
    {
      assert (",\n" + rest)[1..] == "\n" + rest;
      assert ("\n" + rest)[1..] == rest;
    }
  }

  /** The tokens of a dotted identifier. */
  function NameTokens(ident: seq<string>): seq<seq<Token>> {
    seq(|ident|, i requires 0 <= i < |ident| => [Name(Strip(ident[i]))])
  }

  lemma ReadsSanitized(ident: seq<string>)
    requires ident != []
    ensures Reads(Sanitize(ident), Separated(NameTokens(ident), '.'), false)
  {
    forall i | 0 <= i < |ident|
      ensures Reads(QuotedParts(ident)[i], NameTokens(ident)[i], false)
    {
      ReadsQuoted(ident[i]);
    }
    ReadsSymbol('.');
    ReadsJoined(QuotedParts(ident), NameTokens(ident), ".", '.');
  }
}
