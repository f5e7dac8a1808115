/**
 The statements the controllers emit and a parser for them. The parser knows nothing about the printers:
 it reads tokens, so it accepts any layout.
 */
module SqlGrammar {
  import opened Wrappers
  import opened SqlText
  import opened Specs

  datatype Scope = AllTables | OnlyTables(tables: seq<TableName>)

  datatype TableItem =
    | ColumnItem(name: string, dataType: string, notNull: bool)
    | KeyItem(columns: seq<string>)

  datatype Statement =
    | CreatePublication(name: string, scope: Scope, publish: Option<string>)
    | SetTables(name: string, tables: seq<TableName>)
    | SetPublish(name: string, value: string)
    | DropPublication(name: string)
    | CreateSchema(schema: string)
    | CreateTable(table: TableName, items: seq<TableItem>)
    | AddColumn(table: TableName, item: TableItem)
    | Grant(privileges: seq<string>, on: seq<string>, role: string)

  /** Every name in some PRIMARY KEY clause. */
  function ItemKeys(items: seq<TableItem>): set<string> {
    set item, name | item in items && item.KeyItem? && name in item.columns :: name
  }

  // ---------------------------------------------------------------------------------------------------
  // The parser
  // ---------------------------------------------------------------------------------------------------

  /** The i-th token is this unquoted word. */
  predicate At(ts: seq<Token>, i: nat, word: string) {
    i < |ts| && ts[i] == Word(word)
  }

  predicate StartsWith(ts: seq<Token>, symbol: char) {
    ts != [] && ts[0] == Symbol(symbol)
  }

  /** name, or name.name, and so on. */
  function ParseIdent(ts: seq<Token>): (r: Option<(seq<string>, seq<Token>)>)
    decreases |ts|
    ensures r.Some? ==> r.value.0 != [] && |r.value.1| < |ts|
  {
    if ts == [] || !ts[0].Name? then None
    else if StartsWith(ts[1..], '.') then
      match ParseIdent(ts[2..])
      case None => None
      case Some((more, rest)) => Some(([ts[0].name] + more, rest))
    else Some(([ts[0].name], ts[1..]))
  }

  /** A table name has exactly two parts. */
  function ParseTable(ts: seq<Token>): (r: Option<(TableName, seq<Token>)>)
    ensures r.Some? ==> |r.value.1| < |ts|
  {
    match ParseIdent(ts)
    case None => None
    case Some((ident, rest)) => if |ident| == 2 then Some((TableName(ident[0], ident[1]), rest)) else None
  }

  /** One or more tables, separated by commas. */
  function ParseTables(ts: seq<Token>): (r: Option<(seq<TableName>, seq<Token>)>)
    decreases |ts|
    ensures r.Some? ==> r.value.0 != [] && |r.value.1| < |ts|
  {
    match ParseTable(ts)
    case None => None
    case Some((table, rest)) =>
      if StartsWith(rest, ',') then
        match ParseTables(rest[1..])
        case None => None
        case Some((more, after)) => Some(([table] + more, after))
      else Some(([table], rest))
  }

  /** One or more plain names, separated by commas. */
  function ParseNames(ts: seq<Token>): (r: Option<(seq<string>, seq<Token>)>)
    decreases |ts|
    ensures r.Some? ==> |r.value.1| < |ts|
  {
    if ts == [] || !ts[0].Name? then None
    else if StartsWith(ts[1..], ',') then
      match ParseNames(ts[2..])
      case None => None
      case Some((more, rest)) => Some(([ts[0].name] + more, rest))
    else Some(([ts[0].name], ts[1..]))
  }

  /** One or more unquoted words, separated by commas. */
  function ParseWords(ts: seq<Token>): (r: Option<(seq<string>, seq<Token>)>)
    decreases |ts|
    ensures r.Some? ==> |r.value.1| < |ts|
  {
    if ts == [] || !ts[0].Word? then None
    else if StartsWith(ts[1..], ',') then
      match ParseWords(ts[2..])
      case None => None
      case Some((more, rest)) => Some(([ts[0].word] + more, rest))
    else Some(([ts[0].word], ts[1..]))
  }

  function ParseItem(ts: seq<Token>): (r: Option<(TableItem, seq<Token>)>)
    ensures r.Some? ==> |r.value.1| < |ts|
  {
    if At(ts, 0, "PRIMARY") && At(ts, 1, "KEY") && StartsWith(ts[2..], '(') then
      match ParseNames(ts[3..])
      case None => None
      case Some((names, rest)) => if StartsWith(rest, ')') then Some((KeyItem(names), rest[1..])) else None
    else if |ts| >= 2 && ts[0].Name? && ts[1].Name? then
      if At(ts, 2, "NOT") && At(ts, 3, "NULL") then Some((ColumnItem(ts[0].name, ts[1].name, true), ts[4..]))
      else Some((ColumnItem(ts[0].name, ts[1].name, false), ts[2..]))
    else None
  }

  function ParseItems(ts: seq<Token>): (r: Option<(seq<TableItem>, seq<Token>)>)
    decreases |ts|
    ensures r.Some? ==> |r.value.1| < |ts|
  {
    match ParseItem(ts)
    case None => None
    case Some((item, rest)) =>
      if StartsWith(rest, ',') then
        match ParseItems(rest[1..])
        case None => None
        case Some((more, after)) => Some(([item] + more, after))
      else Some(([item], rest))
  }

  /** (publish = '...') and nothing after it. */
  function ParsePublish(ts: seq<Token>): Option<string> {
    if |ts| == 5 && ts[0] == Symbol('(') && ts[1] == Word("publish") && ts[2] == Symbol('=') &&
       ts[3].Text? && ts[4] == Symbol(')')
    then Some(ts[3].text)
    else None
  }

  function ParseWith(name: string, scope: Scope, ts: seq<Token>): Option<Statement> {
    if ts == [] then Some(CreatePublication(name, scope, None))
    else if At(ts, 0, "WITH") then
      match ParsePublish(ts[1..])
      case None => None
      case Some(text) => Some(CreatePublication(name, scope, Some(text)))
    else None
  }

  function ParseCreatePublication(ts: seq<Token>): Option<Statement> {
    if ts == [] || !ts[0].Name? then None
    else if At(ts, 1, "FOR") && At(ts, 2, "ALL") && At(ts, 3, "TABLES") then ParseWith(ts[0].name, AllTables, ts[4..])
    else if At(ts, 1, "FOR") && At(ts, 2, "TABLE") then
      match ParseTables(ts[3..])
      case None => None
      case Some((tables, rest)) => ParseWith(ts[0].name, OnlyTables(tables), rest)
    else None
  }

  function ParseAlterPublication(ts: seq<Token>): Option<Statement> {
    if ts == [] || !ts[0].Name? then None
    else if At(ts, 1, "SET") && At(ts, 2, "TABLE") then
      match ParseTables(ts[3..])
      case None => None
      case Some((tables, rest)) => if rest == [] then Some(SetTables(ts[0].name, tables)) else None
    else if At(ts, 1, "SET") then
      match ParsePublish(ts[2..])
      case None => None
      case Some(text) => Some(SetPublish(ts[0].name, text))
    else None
  }

  function ParseCreateTable(ts: seq<Token>): Option<Statement> {
    match ParseTable(ts)
    case None => None
    case Some((table, rest)) =>
      if rest == [Symbol('('), Symbol(')')] then Some(CreateTable(table, []))
      else if StartsWith(rest, '(') then
        match ParseItems(rest[1..])
        case None => None
        case Some((items, after)) => if after == [Symbol(')')] then Some(CreateTable(table, items)) else None
      else None
  }

  function ParseAddColumn(ts: seq<Token>): Option<Statement> {
    match ParseTable(ts)
    case None => None
    case Some((table, rest)) =>
      if At(rest, 0, "ADD") && At(rest, 1, "COLUMN") then
        match ParseItem(rest[2..])
        case None => None
        case Some((item, after)) => if after == [] && item.ColumnItem? then Some(AddColumn(table, item)) else None
      else None
  }

  function ParseGrant(ts: seq<Token>): Option<Statement> {
    match ParseWords(ts)
    case None => None
    case Some((privileges, rest)) =>
      if At(rest, 0, "ON") then
        match ParseIdent(rest[1..])
        case None => None
        case Some((on, after)) =>
          if At(after, 0, "TO") && |after| == 2 && after[1].Name? then Some(Grant(privileges, on, after[1].name))
          else None
      else None
  }

  function Parse(ts: seq<Token>): Option<Statement> {
    if At(ts, 0, "CREATE") && At(ts, 1, "PUBLICATION") then ParseCreatePublication(ts[2..])
    else if At(ts, 0, "CREATE") && At(ts, 1, "TABLE") then ParseCreateTable(ts[2..])
    else if At(ts, 0, "CREATE") && At(ts, 1, "SCHEMA") && At(ts, 2, "IF") && At(ts, 3, "NOT")
      && At(ts, 4, "EXISTS") then
      if |ts| == 6 && ts[5].Name? then Some(CreateSchema(ts[5].name)) else None
    else if At(ts, 0, "ALTER") && At(ts, 1, "PUBLICATION") then ParseAlterPublication(ts[2..])
    else if At(ts, 0, "ALTER") && At(ts, 1, "TABLE") then ParseAddColumn(ts[2..])
    else if At(ts, 0, "DROP") && At(ts, 1, "PUBLICATION") then
      if |ts| == 3 && ts[2].Name? then Some(DropPublication(ts[2].name)) else None
    else if At(ts, 0, "GRANT") then ParseGrant(ts[1..])
    else None
  }

  /** What PostgreSQL makes of a piece of text; None is a syntax error. */
  function Read(sql: string): Option<Statement> {
    match Lex(sql)
    case None => None
    case Some(tokens) => Parse(tokens)
  }

  // ---------------------------------------------------------------------------------------------------
  // Lists of tables
  // ---------------------------------------------------------------------------------------------------

  function TableTexts(tables: seq<TableName>): seq<string> {
    seq(|tables|, i requires 0 <= i < |tables| => Sanitize(tables[i].Ident()))
  }

  // ---------------------------------------------------------------------------------------------------
  // The parser undoes the printers: identifiers and lists
  // ---------------------------------------------------------------------------------------------------

  function CleanNames(names: seq<string>): seq<string> {
    seq(|names|, i requires 0 <= i < |names| => Strip(names[i]))
  }

  function IdentTokens(ident: seq<string>): seq<Token> {
    Separated(NameTokens(ident), '.')
  }

  lemma {:induction false} ParseIdentUndoes(ident: seq<string>, rest: seq<Token>)
    requires ident != [] && !StartsWith(rest, '.')
    ensures ParseIdent(IdentTokens(ident) + rest) == Some((CleanNames(ident), rest))
  {
    var ts := IdentTokens(ident) + rest;
    if |ident| == 1 {
      assert ts == [Name(Strip(ident[0]))] + rest && CleanNames(ident) == [Strip(ident[0])];
      assert ts[1..] == rest;
    } else {
      ParseIdentUndoes(ident[1..], rest);
      assert NameTokens(ident)[1..] == NameTokens(ident[1..]);
      assert ts == [Name(Strip(ident[0])), Symbol('.')] + (IdentTokens(ident[1..]) + rest);
      assert ts[2..] == IdentTokens(ident[1..]) + rest;
      assert CleanNames(ident) == [Strip(ident[0])] + CleanNames(ident[1..]);
    }
  }

  function TableTokens(tables: seq<TableName>): seq<seq<Token>> {
    seq(|tables|, i requires 0 <= i < |tables| => IdentTokens(tables[i].Ident()))
  }

  lemma ParseTableUndoes(table: TableName, rest: seq<Token>)
    requires !StartsWith(rest, '.')
    ensures ParseTable(IdentTokens(table.Ident()) + rest) == Some((table.Clean(), rest))
  {
    ParseIdentUndoes(table.Ident(), rest);
  }

  lemma {:induction false} ParseTablesUndoes(tables: seq<TableName>, rest: seq<Token>)
    requires tables != [] && !StartsWith(rest, '.') && !StartsWith(rest, ',')
    ensures ParseTables(Separated(TableTokens(tables), ',') + rest) == Some((CleanTables(tables), rest))
  {
    var ts := Separated(TableTokens(tables), ',') + rest;
    if |tables| == 1 {
      ParseTableUndoes(tables[0], rest);
      assert CleanTables(tables) == [tables[0].Clean()];
    } else {
      var tail := Separated(TableTokens(tables[1..]), ',') + rest;
      ParseTablesUndoes(tables[1..], rest);
      assert TableTokens(tables)[1..] == TableTokens(tables[1..]);
      assert ts == IdentTokens(tables[0].Ident()) + ([Symbol(',')] + tail);
      ParseTableUndoes(tables[0], [Symbol(',')] + tail);
      assert ([Symbol(',')] + tail)[1..] == tail;
      assert CleanTables(tables) == [tables[0].Clean()] + CleanTables(tables[1..]);
    }
  }

  function WordTokens(words: seq<string>): seq<seq<Token>> {
    seq(|words|, i requires 0 <= i < |words| => [Word(words[i])])
  }

  lemma {:induction false} ParseWordsUndoes(words: seq<string>, rest: seq<Token>)
    requires words != [] && !StartsWith(rest, ',')
    ensures ParseWords(Separated(WordTokens(words), ',') + rest) == Some((words, rest))
  {
    var ts := Separated(WordTokens(words), ',') + rest;
    if |words| == 1 {
      assert ts == [Word(words[0])] + rest && words == [words[0]];
      assert ts[1..] == rest;
    } else {
      ParseWordsUndoes(words[1..], rest);
      assert WordTokens(words)[1..] == WordTokens(words[1..]);
      assert ts == [Word(words[0]), Symbol(',')] + (Separated(WordTokens(words[1..]), ',') + rest);
      assert ts[2..] == Separated(WordTokens(words[1..]), ',') + rest;
      assert words == [words[0]] + words[1..];
    }
  }

  lemma ReadsTables(tables: seq<TableName>)
    requires tables != []
    ensures Reads(Join(TableTexts(tables), ", "), Separated(TableTokens(tables), ','), false)
  {
    forall i | 0 <= i < |tables|
      ensures Reads(TableTexts(tables)[i], TableTokens(tables)[i], false)
    {
      ReadsSanitized(tables[i].Ident());
    }
    ReadsComma();
    ReadsJoined(TableTexts(tables), TableTokens(tables), ", ", ',');
  }

  // ---------------------------------------------------------------------------------------------------
  // Whole statements
  // ---------------------------------------------------------------------------------------------------

  /** A keyword phrase followed by an identifier, with or without a space after it. */
  lemma ReadsPhrase(words: seq<string>, ident: seq<string>)
    requires forall i :: 0 <= i < |words| ==> IsWord(words[i])
    requires ident != []
    ensures Reads(Spaced(words) + Sanitize(ident), Words(words) + IdentTokens(ident), false)
    ensures Reads(Spaced(words) + Sanitize(ident) + " ", Words(words) + IdentTokens(ident), true)
  {
    ReadsSpaced(words);
    ReadsSanitized(ident);
    ReadsThen(Spaced(words), Words(words), true, Sanitize(ident), IdentTokens(ident), false);
    ReadsSpace();
    ReadsThen(Spaced(words) + Sanitize(ident), Words(words) + IdentTokens(ident), false, " ", [], true);
    assert Words(words) + IdentTokens(ident) + [] == Words(words) + IdentTokens(ident);
  }

  lemma OneName(name: string)
    ensures IdentTokens([name]) == [Name(Strip(name))]
  {
    assert NameTokens([name]) == [[Name(Strip(name))]];
  }

  /** Reading a text whose tokens are known. */
  lemma ReadIs(text: string, tokens: seq<Token>, closed: bool)
    requires Reads(text, tokens, closed)
    ensures Read(text) == Parse(tokens)
  {
    ReadsAll(text, tokens, closed);
  }

  lemma ReadGrouped(text: string, a: seq<Token>, b: seq<Token>, c: seq<Token>, closed: bool)
    requires Reads(text, a + b + c, closed)
    ensures Read(text) == Parse(a + (b + c))
  {
    assert a + b + c == a + (b + c);
    ReadIs(text, a + b + c, closed);
  }

  lemma ReadsPhraseAnd(words: seq<string>, ident: seq<string>, text: string, tokens: seq<Token>, closed: bool)
    requires forall i :: 0 <= i < |words| ==> IsWord(words[i])
    requires ident != [] && Reads(text, tokens, closed)
    ensures Reads(Spaced(words) + Sanitize(ident) + " " + text, Words(words) + IdentTokens(ident) + tokens, closed)
  {
    ReadsPhrase(words, ident);
    ReadsThen(Spaced(words) + Sanitize(ident) + " ", Words(words) + IdentTokens(ident), true, text, tokens, closed);
  }

  /** A keyword phrase, an identifier, and more text after it. */
  lemma ReadsStatement(words: seq<string>, ident: seq<string>, text: string, tokens: seq<Token>, closed: bool)
    requires forall i :: 0 <= i < |words| ==> IsWord(words[i])
    requires ident != [] && Reads(text, tokens, closed)
    ensures Read(Spaced(words) + Sanitize(ident) + " " + text) == Parse(Words(words) + (IdentTokens(ident) + tokens))
  {
    ReadsPhraseAnd(words, ident, text, tokens, closed);
    ReadGrouped(Spaced(words) + Sanitize(ident) + " " + text, Words(words), IdentTokens(ident), tokens, closed);
  }
}
