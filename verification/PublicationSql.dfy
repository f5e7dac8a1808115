/**
 The text of CREATE, ALTER and DROP PUBLICATION, and the proof that reading the text gives the statement
 back, for every name whatever characters it contains.
 */
module PublicationSql {
  import opened Wrappers
  import opened SqlText
  import opened Specs
  import opened SqlGrammar

  function ForTableText(tables: seq<TableName>): string {
    if tables == [] then "FOR ALL TABLES" else "FOR TABLE " + Join(TableTexts(tables), ", ")
  }

  function PublishText(publish: string): string {
    "(publish = '" + EscapeString(publish) + "')"
  }

  function WithText(operations: seq<string>): string {
    if operations == [] then "" else "WITH " + PublishText(Join(operations, ", "))
  }

  function CreatePublicationText(p: Publication): string {
    Join(["CREATE PUBLICATION", Sanitize([p.name]), ForTableText(p.tables), WithText(p.operations)], " ")
  }

  function SetTablesText(name: string, tables: seq<TableName>): string {
    "ALTER PUBLICATION " + Sanitize([name]) + " SET TABLE " + Join(TableTexts(tables), ", ")
  }

  function SetPublishText(name: string, publish: string): string {
    "ALTER PUBLICATION " + Sanitize([name]) + " SET " + PublishText(publish)
  }

  function DropPublicationText(name: string): string {
    "DROP PUBLICATION " + Sanitize([name])
  }

  function PublishTokens(publish: string): seq<Token> {
    [Symbol('('), Word("publish"), Symbol('='), Text(publish), Symbol(')')]
  }

  lemma ReadsPublish(publish: string)
    ensures Reads(PublishText(publish), PublishTokens(publish), true)
  {
    var literal := "'" + EscapeString(publish) + "'";
    ReadsSymbol('(');
    ReadsSpaced(["publish"]);
    ReadsThen("(", [Symbol('(')], true, Spaced(["publish"]), Words(["publish"]), true);
    ReadsSymbol('=');
    ReadsSpace();
    ReadsThen("=", [Symbol('=')], true, " ", [], true);
    ReadsLiteral(publish);
    ReadsThen("=" + " ", [Symbol('=')] + [], true, literal, [Text(publish)], false);
    ReadsSymbol(')');
    ReadsThen("=" + " " + literal, [Symbol('=')] + [] + [Text(publish)], false, ")", [Symbol(')')], true);
    ReadsThen("(" + Spaced(["publish"]), [Symbol('(')] + Words(["publish"]), true,
              "=" + " " + literal + ")", [Symbol('=')] + [] + [Text(publish)] + [Symbol(')')], true);
    assert "(" + Spaced(["publish"]) + ("=" + " " + literal + ")") == PublishText(publish);
    assert [Symbol('(')] + Words(["publish"]) + ([Symbol('=')] + [] + [Text(publish)] + [Symbol(')')])
        == PublishTokens(publish);
  }

  function ForTableTokens(tables: seq<TableName>): seq<Token> {
    if tables == [] then Words(["FOR", "ALL", "TABLES"])
    else Words(["FOR", "TABLE"]) + Separated(TableTokens(tables), ',')
  }

  // Keyword phrases, as their words are spelled.

  lemma ForAllTablesPhrase()
    ensures Spaced(["FOR", "ALL", "TABLES"]) == "FOR ALL TABLES" + " "
  {
  }

  lemma ForTablePhrase()
    ensures Spaced(["FOR", "TABLE"]) == "FOR TABLE "
  {
  }

  lemma WithPhrase()
    ensures Spaced(["WITH"]) == "WITH "
  {
  }

  lemma CreatePhrase()
    ensures Spaced(["CREATE", "PUBLICATION"]) == "CREATE PUBLICATION" + " "
  {
  }

  lemma AlterPhrase()
    ensures Spaced(["ALTER", "PUBLICATION"]) == "ALTER PUBLICATION "
  {
  }

  lemma DropPhrase()
    ensures Spaced(["DROP", "PUBLICATION"]) == "DROP PUBLICATION "
  {
  }

  lemma SetTablePhrase()
    ensures " " + Spaced(["SET", "TABLE"]) == " SET TABLE "
  {
  }

  lemma SetPhrase()
    ensures " " + Spaced(["SET"]) == " SET "
    ensures " SET " + "(publish = '" == " SET (publish = '"
  {
  }

  lemma ReadsTableList(tables: seq<TableName>)
    requires tables != []
    ensures Reads(Spaced(["FOR", "TABLE"]) + Join(TableTexts(tables), ", "),
                  Words(["FOR", "TABLE"]) + Separated(TableTokens(tables), ','), false)
  {
    ReadsSpaced(["FOR", "TABLE"]);
    ReadsTables(tables);
    ReadsThen(Spaced(["FOR", "TABLE"]), Words(["FOR", "TABLE"]), true,
              Join(TableTexts(tables), ", "), Separated(TableTokens(tables), ','), false);
  }

  lemma ReadsForTable(tables: seq<TableName>)
    ensures Reads(ForTableText(tables) + " ", ForTableTokens(tables), true)
  {
    if tables == [] {
      ReadsSpaced(["FOR", "ALL", "TABLES"]);
      ForAllTablesPhrase();
    } else {
      ReadsTableList(tables);
      ForTablePhrase();
      ReadsSpace();
      ReadsThen(ForTableText(tables), ForTableTokens(tables), false, " ", [], true);
      assert ForTableTokens(tables) + [] == ForTableTokens(tables);
    }
  }

  function WithTokens(operations: seq<string>): seq<Token> {
    if operations == [] then [] else Words(["WITH"]) + PublishTokens(Join(operations, ", "))
  }

  lemma ReadsWith(operations: seq<string>)
    ensures Reads(WithText(operations), WithTokens(operations), true)
  {
    if operations == [] {
      ReadsSpaced([]);
      assert Words([]) == [];
    } else {
      ReadsSpaced(["WITH"]);
      ReadsPublish(Join(operations, ", "));
      ReadsThen(Spaced(["WITH"]), Words(["WITH"]), true,
                PublishText(Join(operations, ", ")), PublishTokens(Join(operations, ", ")), true);
      WithPhrase();
    }
  }

  /** What CREATE PUBLICATION asks of the database for a publication. */
  function CreateOf(p: Publication): Statement {
    CreatePublication(Strip(p.name),
                      if p.tables == [] then AllTables else OnlyTables(CleanTables(p.tables)),
                      if p.operations == [] then None else Some(Join(p.operations, ", ")))
  }

  lemma ParseWithUndoes(name: string, scope: Scope, operations: seq<string>)
    ensures ParseWith(name, scope, WithTokens(operations))
         == Some(CreatePublication(name, scope, if operations == [] then None else Some(Join(operations, ", "))))
  {
    if operations != [] {
      var ts := WithTokens(operations);
      assert ts[0] == Word("WITH") && ts[1..] == PublishTokens(Join(operations, ", "));
    }
  }

  lemma ParsesCreatePublication(ts: seq<Token>)
    ensures Parse(Words(["CREATE", "PUBLICATION"]) + ts) == ParseCreatePublication(ts)
  {
    assert (Words(["CREATE", "PUBLICATION"]) + ts)[2..] == ts;
  }

  lemma ParsesAlterPublication(ts: seq<Token>)
    ensures Parse(Words(["ALTER", "PUBLICATION"]) + ts) == ParseAlterPublication(ts)
  {
    assert (Words(["ALTER", "PUBLICATION"]) + ts)[2..] == ts;
  }

  lemma JoinFour(a: string, b: string, c: string, d: string, sep: string)
    ensures Join([a, b, c, d], sep) == a + sep + (b + sep + (c + sep + d))
  {
    assert [a, b, c, d][1..] == [b, c, d] && [b, c, d][1..] == [c, d] && [c, d][1..] == [d];
    assert Join([c, d], sep) == c + sep + Join([d], sep);
    assert Join([b, c, d], sep) == b + sep + Join([c, d], sep);
  }

  lemma ReadsTarget(p: Publication)
    ensures Reads(ForTableText(p.tables) + " " + WithText(p.operations),
                  ForTableTokens(p.tables) + WithTokens(p.operations), true)
  {
    ReadsForTable(p.tables);
    ReadsWith(p.operations);
    ReadsThen(ForTableText(p.tables) + " ", ForTableTokens(p.tables), true, WithText(p.operations),
              WithTokens(p.operations), true);
  }

  lemma Regrouped(a: string, b: string, c: string, d: string, e: string)
    ensures a + " " + (b + " " + (c + " " + d)) == (a + " ") + b + " " + (c + " " + d)
    ensures a + b + (c + d) + e == a + b + c + (d + e)
  {
  }

  lemma CreateShape(p: Publication)
    ensures CreatePublicationText(p)
         == Spaced(["CREATE", "PUBLICATION"]) + Sanitize([p.name]) + " "
           + (ForTableText(p.tables) + " " + WithText(p.operations))
  {
    JoinFour("CREATE PUBLICATION", Sanitize([p.name]), ForTableText(p.tables), WithText(p.operations), " ");
    CreatePhrase();
    Regrouped("CREATE PUBLICATION", Sanitize([p.name]), ForTableText(p.tables), WithText(p.operations), "");
  }

  /** CREATE PUBLICATION as written reads as CREATE PUBLICATION of the same publication. */
  lemma ReadCreatePublication(p: Publication)
    ensures Read(CreatePublicationText(p)) == Some(CreateOf(p))
  {
    var words, target := ["CREATE", "PUBLICATION"], ForTableText(p.tables) + " " + WithText(p.operations);
    var tokens := ForTableTokens(p.tables) + WithTokens(p.operations);
    ReadsTarget(p);
    OneName(p.name);
    ReadsStatement(words, [p.name], target, tokens, true);
    CreateShape(p);
    ParsesCreatePublication([Name(Strip(p.name))] + tokens);
    ParseCreateUndoes(p);
  }

  lemma ParseCreateUndoes(p: Publication)
    ensures ParseCreatePublication([Name(Strip(p.name))] + (ForTableTokens(p.tables) + WithTokens(p.operations)))
            == Some(CreateOf(p))
  {
    var tables, with := ForTableTokens(p.tables), WithTokens(p.operations);
    var ts := [Name(Strip(p.name))] + (tables + with);
    if p.tables == [] {
      assert ts[4..] == with;
      ParseWithUndoes(Strip(p.name), AllTables, p.operations);
    } else {
      assert ts[3..] == Separated(TableTokens(p.tables), ',') + with;
      ParseTablesUndoes(p.tables, with);
      ParseWithUndoes(Strip(p.name), OnlyTables(CleanTables(p.tables)), p.operations);
    }
  }

  /** ALTER PUBLICATION name SET ..., up to what is set. */
  lemma ReadsAlter(name: string, set_: seq<string>, text: string, tokens: seq<Token>, closed: bool)
    requires forall i :: 0 <= i < |set_| ==> IsWord(set_[i])
    requires Reads(text, tokens, closed)
    ensures Read("ALTER PUBLICATION " + Sanitize([name]) + " " + (Spaced(set_) + text))
         == ParseAlterPublication([Name(Strip(name))] + (Words(set_) + tokens))
  {
    var words := ["ALTER", "PUBLICATION"];
    ReadsSpaced(set_);
    ReadsThen(Spaced(set_), Words(set_), true, text, tokens, closed);
    OneName(name);
    ReadsStatement(words, [name], Spaced(set_) + text, Words(set_) + tokens, closed);
    AlterPhrase();
    ParsesAlterPublication([Name(Strip(name))] + (Words(set_) + tokens));
  }

  lemma ParseSetTablesUndoes(name: string, tables: seq<TableName>)
    requires tables != []
    ensures ParseAlterPublication([Name(name)] + (Words(["SET", "TABLE"]) + Separated(TableTokens(tables), ',')))
         == Some(SetTables(name, CleanTables(tables)))
  {
    var ts := [Name(name)] + (Words(["SET", "TABLE"]) + Separated(TableTokens(tables), ','));
    assert ts[3..] == Separated(TableTokens(tables), ',') + [];
    ParseTablesUndoes(tables, []);
  }

  lemma SetTablesShape(name: string, tables: seq<TableName>)
    ensures SetTablesText(name, tables)
         == "ALTER PUBLICATION " + Sanitize([name]) + " " + (Spaced(["SET", "TABLE"]) + Join(TableTexts(tables), ", "))
  {
    SetTablePhrase();
    Regrouped("ALTER PUBLICATION ", Sanitize([name]), " ", Spaced(["SET", "TABLE"]), Join(TableTexts(tables), ", "));
  }

  lemma ReadSetTables(name: string, tables: seq<TableName>)
    requires tables != []
    ensures Read(SetTablesText(name, tables)) == Some(SetTables(Strip(name), CleanTables(tables)))
  {
    var set_ := ["SET", "TABLE"];
    ReadsTables(tables);
    ReadsAlter(name, set_, Join(TableTexts(tables), ", "), Separated(TableTokens(tables), ','), false);
    SetTablesShape(name, tables);
    ParseSetTablesUndoes(Strip(name), tables);
  }

  /** An empty table list is not something ALTER PUBLICATION can say. */
  lemma ReadSetNoTables(name: string)
    ensures Read(SetTablesText(name, [])) == None
  {
    ReadsSpaced([]);
    ReadsAlter(name, ["SET", "TABLE"], Spaced([]), Words([]), true);
    SetTablesShape(name, []);
    ParseSetNoTables(Strip(name));
  }

  lemma ParseSetNoTables(name: string)
    ensures ParseAlterPublication([Name(name)] + (Words(["SET", "TABLE"]) + Words([]))) == None
  {
    var ts := [Name(name)] + (Words(["SET", "TABLE"]) + Words([]));
    assert ts[3..] == [];
  }

  lemma SetPublishShape(name: string, publish: string)
    ensures SetPublishText(name, publish)
            == "ALTER PUBLICATION " + Sanitize([name]) + " " + (Spaced(["SET"]) + PublishText(publish))
  {
    SetPhrase();
    Regrouped("ALTER PUBLICATION ", Sanitize([name]), " ", Spaced(["SET"]), PublishText(publish));
  }

  lemma ParseSetPublishUndoes(name: string, publish: string)
    ensures ParseAlterPublication([Name(name)] + (Words(["SET"]) + PublishTokens(publish)))
            == Some(SetPublish(name, publish))
  {
    var ts := [Name(name)] + (Words(["SET"]) + PublishTokens(publish));
    assert ts[2..] == PublishTokens(publish);
  }

  lemma ReadSetPublish(name: string, publish: string)
    ensures Read(SetPublishText(name, publish)) == Some(SetPublish(Strip(name), publish))
  {
    ReadsPublish(publish);
    ReadsAlter(name, ["SET"], PublishText(publish), PublishTokens(publish), true);
    SetPublishShape(name, publish);
    ParseSetPublishUndoes(Strip(name), publish);
  }

  lemma ParsesDropPublication(name: string)
    ensures Parse(Words(["DROP", "PUBLICATION"]) + [Name(name)]) == Some(DropPublication(name))
  {
  }

  lemma ReadDropPublication(name: string)
    ensures Read(DropPublicationText(name)) == Some(DropPublication(Strip(name)))
  {
    var words := ["DROP", "PUBLICATION"];
    OneName(name);
    ReadsPhrase(words, [name]);
    DropPhrase();
    ReadIs(DropPublicationText(name), Words(words) + [Name(Strip(name))], false);
    ParsesDropPublication(Strip(name));
  }

  // ---------------------------------------------------------------------------------------------------
  // The publish parameter
  // ---------------------------------------------------------------------------------------------------

  const OPERATIONS: set<string> := {"insert", "update", "delete", "truncate"}

  /** defaultPublishOperations. */
  const DEFAULT_OPERATIONS: string := "insert, update, delete, truncate"

  function Trim(s: string): string
    decreases |s|
  {
    if s == "" then ""
    else if IsSpace(s[0]) then Trim(s[1..])
    else if IsSpace(s[|s| - 1]) then Trim(s[..|s| - 1])
    else s
  }

  /** Where the first comma is, or the length. */
  function Comma(s: string): (k: nat)
    ensures k <= |s|
    ensures forall i :: 0 <= i < k ==> s[i] != ','
    ensures k < |s| ==> s[k] == ','
  {
    if s == "" || s[0] == ',' then 0 else 1 + Comma(s[1..])
  }

  function Fields(s: string): seq<string>
    decreases |s|
  {
    var k := Comma(s);
    if k == |s| then [Trim(s)] else [Trim(s[..k])] + Fields(s[k + 1..])
  }

  /** How the server takes the value of publish apart; None when it names something it does not know. */
  function ReadPublish(value: string): Option<seq<string>> {
    if Trim(value) == "" then Some([])
    else if forall f :: f in Fields(value) ==> f in OPERATIONS then Some(Fields(value))
    else None
  }

  predicate ValidOperations(operations: seq<string>) {
    forall i :: 0 <= i < |operations| ==> operations[i] in OPERATIONS
  }

  /** A non-empty run of lower-case letters. */
  predicate IsPlain(s: string) {
    s != "" && forall i :: 0 <= i < |s| ==> 'a' <= s[i] <= 'z'
  }

  lemma TrimPlain(s: string)
    requires IsPlain(s)
    ensures Trim(s) == s
  {
  }

  lemma CommaAfter(s: string, rest: string)
    requires IsPlain(s)
    ensures Comma(s + "," + rest) == |s| && Comma(s) == |s|
  {
    var t := s + "," + rest;
    assert t[|s|] == ',';
    assert forall i :: 0 <= i < |s| ==> t[i] == s[i];
  }

  lemma CommaSkipsSpace(s: string)
    ensures Comma(" " + s) == 1 + Comma(s)
  {
    assert (" " + s)[1..] == s;
  }

  lemma TrimSkipsSpace(s: string)
    ensures Trim(" " + s) == Trim(s)
  {
    assert (" " + s)[1..] == s;
  }

  lemma FieldsSkipSpace(s: string)
    ensures Fields(" " + s) == Fields(s)
  {
    var t, k := " " + s, Comma(s);
    CommaSkipsSpace(s);
    if k == |s| {
      TrimSkipsSpace(s);
    } else {
      assert t[..k + 1] == " " + s[..k];
      TrimSkipsSpace(s[..k]);
      assert t[k + 2..] == s[k + 1..];
    }
  }

  /** The server recovers the list that strings.Join flattened. */
  lemma {:induction false} FieldsUndoJoin(operations: seq<string>)
    requires operations != []
    requires forall i :: 0 <= i < |operations| ==> IsPlain(operations[i])
    ensures Fields(Join(operations, ", ")) == operations
  {
    var head := operations[0];
    TrimPlain(head);
    CommaAfter(head, "");
    if |operations| > 1 {
      var tail := Join(operations[1..], ", ");
      FieldsUndoJoin(operations[1..]);
      FieldsSkipSpace(tail);
      CommaAfter(head, " " + tail);
      var t := Join(operations, ", ");
      assert t == head + "," + (" " + tail);
      assert t[..|head|] == head && t[|head| + 1..] == " " + tail;
      assert operations == [head] + operations[1..];
    } else {
      assert operations == [head];
    }
  }

  lemma {:induction false} TrimNonEmpty(s: string, c: char)
    requires s != "" && s[0] == c && !IsSpace(c)
    ensures Trim(s) != ""
    decreases |s|
  {
    if IsSpace(s[|s| - 1]) {
      TrimNonEmpty(s[..|s| - 1], c);
    }
  }

  lemma ReadPublishUndoesJoin(operations: seq<string>)
    requires operations != [] && ValidOperations(operations)
    ensures ReadPublish(Join(operations, ", ")) == Some(operations)
  {
    FieldsUndoJoin(operations);
    TrimNonEmpty(Join(operations, ", "), operations[0][0]);
  }

  const ALL_OPERATIONS: seq<string> := ["insert", "update", "delete", "truncate"]

  lemma DefaultIsJoined()
    ensures Join(ALL_OPERATIONS, ", ") == DEFAULT_OPERATIONS
  {
    JoinFour("insert", "update", "delete", "truncate", ", ");
  }

  /** The default names all four operations, so omitting the list and writing the default agree. */
  lemma DefaultIsEverything()
    ensures ReadPublish(DEFAULT_OPERATIONS).Some?
    ensures (set op | op in ReadPublish(DEFAULT_OPERATIONS).value) == OPERATIONS
  {
    DefaultIsJoined();
    ReadPublishUndoesJoin(ALL_OPERATIONS);
  }

  // ---------------------------------------------------------------------------------------------------
  // From the statement back to the resource
  // ---------------------------------------------------------------------------------------------------

  /** The publication a CREATE PUBLICATION statement describes. */
  function Described(s: Statement): Option<Publication> {
    match s
    case CreatePublication(name, scope, publish) =>
      var tables := if scope.AllTables? then [] else scope.tables;
      (match publish
       case None => Some(Publication(name, tables, []))
       case Some(value) =>
         if ReadPublish(value).None? then None else Some(Publication(name, tables, ReadPublish(value).value)))
    case _ => None
  }

  predicate PlainTables(tables: seq<TableName>) {
    forall i :: 0 <= i < |tables| ==> NulFree(tables[i].schema) && NulFree(tables[i].name)
  }

  predicate PlainPublication(p: Publication) {
    NulFree(p.name) && PlainTables(p.tables)
  }

  lemma CleanPlainTables(tables: seq<TableName>)
    requires PlainTables(tables)
    ensures CleanTables(tables) == tables
  {
    forall i | 0 <= i < |tables|
      ensures tables[i].Clean() == tables[i]
    {
      StripNulFree(tables[i].schema);
      StripNulFree(tables[i].name);
    }
  }

  /**
   Reading CREATE PUBLICATION back gives the name, the ordered tables (none meaning all tables) and the
   ordered operations.
   */
  lemma CreatePublicationRoundTrip(p: Publication)
    requires PlainPublication(p) && ValidOperations(p.operations)
    ensures Read(CreatePublicationText(p)).Some?
    ensures Described(Read(CreatePublicationText(p)).value) == Some(p)
  {
    ReadCreatePublication(p);
    StripNulFree(p.name);
    CleanPlainTables(p.tables);
    if p.operations != [] {
      ReadPublishUndoesJoin(p.operations);
    }
  }

  /** Hence different publications are never printed the same way. */
  lemma CreatePublicationInjective(a: Publication, b: Publication)
    requires PlainPublication(a) && ValidOperations(a.operations)
    requires PlainPublication(b) && ValidOperations(b.operations)
    requires CreatePublicationText(a) == CreatePublicationText(b)
    ensures a == b
  {
    CreatePublicationRoundTrip(a);
    CreatePublicationRoundTrip(b);
  }

  /** What ALTER writes: the operations, or the default where there are none. */
  function JoinedOperations(p: Publication): string {
    if p.operations == [] then DEFAULT_OPERATIONS else Join(p.operations, ", ")
  }

  lemma SetTablesRoundTrip(p: Publication)
    requires PlainPublication(p)
    ensures Read(SetTablesText(p.name, p.tables)) == if p.tables == [] then None else Some(SetTables(p.name, p.tables))
  {
    StripNulFree(p.name);
    CleanPlainTables(p.tables);
    if p.tables == [] {
      ReadSetNoTables(p.name);
    } else {
      ReadSetTables(p.name, p.tables);
    }
  }

  lemma SetPublishRoundTrip(p: Publication)
    requires NulFree(p.name)
    ensures Read(SetPublishText(p.name, JoinedOperations(p))) == Some(SetPublish(p.name, JoinedOperations(p)))
  {
    StripNulFree(p.name);
    ReadSetPublish(p.name, JoinedOperations(p));
  }

  lemma JoinedOperationsRoundTrip(p: Publication)
    requires ValidOperations(p.operations)
    ensures ReadPublish(JoinedOperations(p)) == Some(if p.operations == [] then ALL_OPERATIONS else p.operations)
  {
    if p.operations == [] {
      DefaultIsJoined();
      ReadPublishUndoesJoin(ALL_OPERATIONS);
    } else {
      ReadPublishUndoesJoin(p.operations);
    }
  }

  /**
   The two ALTER statements together say what the one CREATE says. No tables cannot be said; no operations
   are written as all of them.
   */
  lemma AlterRoundTrip(p: Publication)
    requires PlainPublication(p) && ValidOperations(p.operations)
    ensures Read(SetTablesText(p.name, p.tables)) == if p.tables == [] then None else Some(SetTables(p.name, p.tables))
    ensures Read(SetPublishText(p.name, JoinedOperations(p))) == Some(SetPublish(p.name, JoinedOperations(p)))
    ensures ReadPublish(JoinedOperations(p)) == Some(if p.operations == [] then ALL_OPERATIONS else p.operations)
  {
    SetTablesRoundTrip(p);
    SetPublishRoundTrip(p);
    JoinedOperationsRoundTrip(p);
  }
}
