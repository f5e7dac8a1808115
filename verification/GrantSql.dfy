/** The text of GRANT, whose privileges are not quoted, and when reading the text gives the statement back. */
module GrantSql {
  import opened Wrappers
  import opened SqlText
  import opened SqlGrammar

  function GrantText(privileges: seq<string>, on: seq<string>, role: string): string {
    "GRANT " + Join(privileges, ", ") + " ON " + Sanitize(on) + " TO " + Sanitize([role])
  }

  /** A keyword with a space on either side. */
  lemma ReadsBetween(word: string)
    requires IsWord(word)
    ensures Reads(" " + (word + " "), [Word(word)], true)
  {
    ReadsWord(word);
    ReadsSpace();
    ReadsThen(word, [Word(word)], false, " ", [], true);
    ReadsThen(" ", [], true, word + " ", [Word(word)] + [], true);
    assert [] + ([Word(word)] + []) == [Word(word)];
  }

  function OnTokens(on: seq<string>, role: string): seq<Token> {
    [Word("ON")] + (IdentTokens(on) + ([Word("TO")] + [Name(Strip(role))]))
  }

  lemma ReadsOn(on: seq<string>, role: string)
    requires on != []
    ensures Reads(" " + ("ON" + " ") + (Sanitize(on) + (" " + ("TO" + " ") + Sanitize([role]))), OnTokens(on, role),
                  false)
  {
    ReadsBetween("ON");
    ReadsBetween("TO");
    ReadsSanitized(on);
    ReadsSanitized([role]);
    OneName(role);
    ReadsThen(" " + ("TO" + " "), [Word("TO")], true, Sanitize([role]), [Name(Strip(role))], false);
    ReadsThen(Sanitize(on), IdentTokens(on), false,
              " " + ("TO" + " ") + Sanitize([role]), [Word("TO")] + [Name(Strip(role))], false);
    ReadsThen(" " + ("ON" + " "), [Word("ON")], true,
              Sanitize(on) + (" " + ("TO" + " ") + Sanitize([role])),
              IdentTokens(on) + ([Word("TO")] + [Name(Strip(role))]), false);
  }

  function PrivilegeTokens(privileges: seq<string>): seq<Token> {
    Separated(WordTokens(privileges), ',')
  }

  lemma ReadsWordList(words: seq<string>)
    requires words != [] && forall i :: 0 <= i < |words| ==> IsWord(words[i])
    ensures Reads(Join(words, ", "), PrivilegeTokens(words), false)
  {
    forall i | 0 <= i < |words|
      ensures Reads(words[i], WordTokens(words)[i], false)
    {
      ReadsWord(words[i]);
    }
    ReadsComma();
    ReadsJoined(words, WordTokens(words), ", ", ',');
  }

  lemma ReadsPrivileges(privileges: seq<string>)
    requires privileges != [] && forall i :: 0 <= i < |privileges| ==> IsWord(privileges[i])
    ensures Reads("GRANT " + Join(privileges, ", "), [Word("GRANT")] + PrivilegeTokens(privileges), false)
  {
    ReadsWordList(privileges);
    ReadsGrantWord();
    ReadsThen("GRANT ", [Word("GRANT")], true, Join(privileges, ", "), PrivilegeTokens(privileges), false);
  }

  lemma ReadsGrantWord()
    ensures Reads("GRANT ", [Word("GRANT")], true)
  {
    ReadsWord("GRANT");
    ReadsSpace();
    ReadsThen("GRANT", [Word("GRANT")], false, " ", [], true);
    assert "GRANT" + " " == "GRANT " && [Word("GRANT")] + [] == [Word("GRANT")];
  }

  lemma GrantShape(privileges: seq<string>, on: seq<string>, role: string)
    ensures GrantText(privileges, on, role)
         == "GRANT " + Join(privileges, ", ")
           + (" " + ("ON" + " ") + (Sanitize(on) + (" " + ("TO" + " ") + Sanitize([role]))))
  {
    var head := "GRANT " + Join(privileges, ", ");
    assert " " + ("ON" + " ") == " ON " && " " + ("TO" + " ") == " TO ";
    assert head + " ON " + Sanitize(on) + " TO " + Sanitize([role])
        == head + (" ON " + (Sanitize(on) + (" TO " + Sanitize([role]))));
  }

  lemma ParseGrantUndoes(privileges: seq<string>, on: seq<string>, role: string)
    requires privileges != [] && on != []
    ensures ParseGrant(PrivilegeTokens(privileges) + OnTokens(on, role))
            == Some(Grant(privileges, CleanNames(on), Strip(role)))
  {
    ParseWordsUndoes(privileges, OnTokens(on, role));
    var after := [Word("TO")] + [Name(Strip(role))];
    assert OnTokens(on, role)[1..] == IdentTokens(on) + after;
    ParseIdentUndoes(on, after);
  }

  /** GRANT reads back when every privilege is a single word, whatever the other names contain. */
  lemma ReadGrant(privileges: seq<string>, on: seq<string>, role: string)
    requires privileges != [] && on != []
    requires forall i :: 0 <= i < |privileges| ==> IsWord(privileges[i])
    ensures Read(GrantText(privileges, on, role)) == Some(Grant(privileges, CleanNames(on), Strip(role)))
  {
    var tokens := PrivilegeTokens(privileges) + OnTokens(on, role);
    ReadsPrivileges(privileges);
    ReadsOn(on, role);
    ReadsThen("GRANT " + Join(privileges, ", "), [Word("GRANT")] + PrivilegeTokens(privileges), false,
              " " + ("ON" + " ") + (Sanitize(on) + (" " + ("TO" + " ") + Sanitize([role]))), OnTokens(on, role), false);
    GrantShape(privileges, on, role);
    ReadIs(GrantText(privileges, on, role), [Word("GRANT")] + PrivilegeTokens(privileges) + OnTokens(on, role), false);
    assert [Word("GRANT")] + PrivilegeTokens(privileges) + OnTokens(on, role) == [Word("GRANT")] + tokens;
    ParsesGrant(tokens);
    ParseGrantUndoes(privileges, on, role);
  }

  lemma ParsesGrant(ts: seq<Token>)
    ensures Parse([Word("GRANT")] + ts) == ParseGrant(ts)
  {
    var all := [Word("GRANT")] + ts;
    assert all[1..] == ts;
    assert "GRANT"[0] == 'G' && "ALTER"[0] == 'A';
  }
}
