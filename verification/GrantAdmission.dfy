/**
 api/v1alpha1/postgresgrant_webhook.go and postgresgrant_types.go: which privilege lists are admitted, and
 which fields of a grant belong to an object type.
 */
module GrantAdmission {
  import opened Wrappers
  import opened SqlText
  import opened Specs

  datatype ObjectType = TableType | SequenceType | DatabaseType | SchemaType | FunctionType | OtherType(name: string)

  datatype GrantSpec = GrantSpec(
    role: string,
    tables: seq<TableName>, tablePrivileges: seq<string>,
    sequences: seq<TableName>, sequencePrivileges: seq<string>,
    databases: seq<string>, databasePrivileges: seq<string>,
    schemas: seq<string>, schemaPrivileges: seq<string>,
    functions: seq<TableName>, functionPrivileges: seq<string>)

  function ValidPrivileges(o: ObjectType): set<string> {
    match o
    case TableType => {"SELECT", "INSERT", "UPDATE", "DELETE", "TRUNCATE", "REFERENCES", "TRIGGER", "ALL"}
    case SequenceType => {"USAGE", "SELECT", "UPDATE", "ALL"}
    case DatabaseType => {"CREATE", "CONNECT", "TEMPORARY", "TEMP", "ALL"}
    case SchemaType => {"CREATE", "USAGE", "ALL"}
    case FunctionType => {"EXECUTE", "ALL"}
    case OtherType(_) => {}
  }

  function PrivilegesForType(g: GrantSpec, o: ObjectType): seq<string> {
    match o
    case TableType => g.tablePrivileges
    case SequenceType => g.sequencePrivileges
    case FunctionType => g.functionPrivileges
    case SchemaType => g.schemaPrivileges
    case DatabaseType => g.databasePrivileges
    case OtherType(_) => []
  }

  function Pairs(names: seq<TableName>): seq<seq<string>> {
    seq(|names|, i requires 0 <= i < |names| => names[i].Ident())
  }

  function Singles(names: seq<string>): seq<seq<string>> {
    seq(|names|, i requires 0 <= i < |names| => [names[i]])
  }

  function Identifiers(g: GrantSpec, o: ObjectType): seq<seq<string>> {
    match o
    case TableType => Pairs(g.tables)
    case SequenceType => Pairs(g.sequences)
    case FunctionType => Pairs(g.functions)
    case SchemaType => Singles(g.schemas)
    case DatabaseType => Singles(g.databases)
    case OtherType(_) => []
  }

  /** The two-part identifiers of these objects, one for each, in the same order. */
  predicate TwoPart(objects: seq<TableName>, identifiers: seq<seq<string>>) {
    && |identifiers| == |objects|
    && forall i :: 0 <= i < |objects| ==> identifiers[i] == [objects[i].schema, objects[i].name]
  }

  predicate OnePart(names: seq<string>, identifiers: seq<seq<string>>) {
    |identifiers| == |names| && forall i :: 0 <= i < |names| ==> identifiers[i] == [names[i]]
  }

  method IdentifiersForType(g: GrantSpec, o: ObjectType) returns (identifiers: seq<seq<string>>)
    ensures identifiers == Identifiers(g, o)
    ensures o == TableType ==> TwoPart(g.tables, identifiers)
    ensures o == SequenceType ==> TwoPart(g.sequences, identifiers)
    ensures o == FunctionType ==> TwoPart(g.functions, identifiers)
    ensures o == SchemaType ==> OnePart(g.schemas, identifiers)
    ensures o == DatabaseType ==> OnePart(g.databases, identifiers)
    ensures o.OtherType? ==> identifiers == []
  {
    identifiers := [];
    match o
    case TableType =>
      for i := 0 to |g.tables|
        invariant identifiers == Pairs(g.tables[..i])
      {
        identifiers := identifiers + [[g.tables[i].schema, g.tables[i].name]];
      }
      assert g.tables[..|g.tables|] == g.tables;
    case SequenceType =>
      for i := 0 to |g.sequences|
        invariant identifiers == Pairs(g.sequences[..i])
      {
        identifiers := identifiers + [[g.sequences[i].schema, g.sequences[i].name]];
      }
      assert g.sequences[..|g.sequences|] == g.sequences;
    case FunctionType =>
      for i := 0 to |g.functions|
        invariant identifiers == Pairs(g.functions[..i])
      {
        identifiers := identifiers + [[g.functions[i].schema, g.functions[i].name]];
      }
      assert g.functions[..|g.functions|] == g.functions;
    case SchemaType =>
      for i := 0 to |g.schemas|
        invariant identifiers == Singles(g.schemas[..i])
      {
        identifiers := identifiers + [[g.schemas[i]]];
      }
      assert g.schemas[..|g.schemas|] == g.schemas;
    case DatabaseType =>
      for i := 0 to |g.databases|
        invariant identifiers == Singles(g.databases[..i])
      {
        identifiers := identifiers + [[g.databases[i]]];
      }
      assert g.databases[..|g.databases|] == g.databases;
    case OtherType(_) =>
  }

  // ---------------------------------------------------------------------------------------------------
  // Validation
  // ---------------------------------------------------------------------------------------------------

  datatype Rejection = InvalidPrivilege(privilege: string) | DuplicatePrivilege(privilege: string) | AllNotAlone

  /** Every entry valid, no entry twice, and ALL only on its own. */
  predicate Admissible(privileges: seq<string>, o: ObjectType) {
    && (forall p :: p in privileges ==> p in ValidPrivileges(o))
    && Distinct(privileges)
    && ("ALL" in privileges ==> |privileges| == 1)
  }

  method ValidatePrivilegesForType(privileges: seq<string>, o: ObjectType) returns (err: Option<Rejection>)
    ensures err.None? <==> Admissible(privileges, o)
    ensures err == Some(AllNotAlone) ==> "ALL" in privileges && |privileges| > 1
    ensures forall p :: err == Some(InvalidPrivilege(p)) ==> p in privileges && p !in ValidPrivileges(o)
    ensures forall p :: err == Some(DuplicatePrivilege(p)) ==> multiset(privileges)[p] > 1
  {
    var validPrivileges := ValidPrivileges(o);
    var hasAll := false;
    var wantedPrivileges: set<string> := {};
    for i := 0 to |privileges|
      invariant forall j :: 0 <= j < i ==> privileges[j] in validPrivileges
      invariant Distinct(privileges[..i])
      invariant wantedPrivileges == set p | p in privileges[..i]
      invariant hasAll <==> "ALL" in privileges[..i]
    {
      var privilege := privileges[i];
      assert privileges[..i + 1] == privileges[..i] + [privilege];
      assert privileges == privileges[..i] + [privilege] + privileges[i + 1..];
      if privilege !in validPrivileges {
        return Some(InvalidPrivilege(privilege));
      }
      if privilege in wantedPrivileges {
        assert privilege in multiset(privileges[..i]);
        assert multiset(privileges)[privilege] >= multiset(privileges[..i])[privilege] + 1;
        return Some(DuplicatePrivilege(privilege));
      }
      wantedPrivileges := wantedPrivileges + {privilege};
      if privilege == "ALL" {
        hasAll := true;
      }
    }
    assert privileges[..|privileges|] == privileges;
    if hasAll && |privileges| > 1 {
      return Some(AllNotAlone);
    }
    return None;
  }

  const GRANTABLE: set<ObjectType> := {TableType, SequenceType, DatabaseType, SchemaType, FunctionType}

  predicate Admitted(g: GrantSpec) {
    forall o :: o in GRANTABLE ==> Admissible(PrivilegesForType(g, o), o)
  }

  /** The map that validation goes through; it names the same fields as PrivilegesForType, separately. */
  function ValidationInputs(g: GrantSpec): map<ObjectType, seq<string>> {
    map[TableType := g.tablePrivileges,
        SequenceType := g.sequencePrivileges,
        DatabaseType := g.databasePrivileges,
        SchemaType := g.schemaPrivileges,
        FunctionType := g.functionPrivileges]
  }

  /** Accepts exactly the admitted grants, in whatever order the map yields its keys. */
  method ValidatePrivileges(g: GrantSpec) returns (err: Option<Rejection>)
    ensures err.None? <==> Admitted(g)
    ensures err.None? <==>
              && Admissible(g.tablePrivileges, TableType)
              && Admissible(g.sequencePrivileges, SequenceType)
              && Admissible(g.databasePrivileges, DatabaseType)
              && Admissible(g.schemaPrivileges, SchemaType)
              && Admissible(g.functionPrivileges, FunctionType)
  {
    var inputs := ValidationInputs(g);
    var rest := inputs.Keys;
    assert rest == GRANTABLE;
    while rest != {}
      invariant rest <= GRANTABLE
      invariant forall o :: o in GRANTABLE - rest ==> Admissible(PrivilegesForType(g, o), o)
      decreases |rest|
    {
      var o :| o in rest;
      rest := rest - {o};
      assert inputs[o] == PrivilegesForType(g, o);
      var problem := ValidatePrivilegesForType(inputs[o], o);
      if problem.Some? {
        return problem;
      }
    }
    return None;
  }

  // ---------------------------------------------------------------------------------------------------
  // What admission means
  // ---------------------------------------------------------------------------------------------------

  lemma {:induction false} DistinctIsCount(s: seq<string>)
    ensures Distinct(s) <==> forall p :: multiset(s)[p] <= 1
  {
    if s != [] {
      var shorter, last := s[..|s| - 1], s[|s| - 1];
      DistinctIsCount(shorter);
      assert s == shorter + [last];
      DistinctSnoc(shorter, last);
      assert last in shorter <==> multiset(shorter)[last] > 0;
      assert multiset(s)[last] == multiset(shorter)[last] + 1;
      assert forall p :: p != last ==> multiset(s)[p] == multiset(shorter)[p];
    }
  }

  lemma DistinctSnoc(s: seq<string>, last: string)
    ensures Distinct(s + [last]) <==> Distinct(s) && last !in s
  {
    var t := s + [last];
    if last in s {
      var i :| 0 <= i < |s| && s[i] == last;
      assert t[i] == t[|s|];
    }
    if i, j :| 0 <= i < j < |s| && s[i] == s[j] {
      assert t[i] == t[j];
    }
  }

  /** Admission does not depend on the order of the list. */
  lemma AdmissionIgnoresOrder(a: seq<string>, b: seq<string>, o: ObjectType)
    requires multiset(a) == multiset(b)
    ensures Admissible(a, o) <==> Admissible(b, o)
  {
    DistinctIsCount(a);
    DistinctIsCount(b);
    assert |a| == |multiset(a)| == |multiset(b)| == |b|;
    assert forall p :: p in a <==> p in multiset(a);
    assert forall p :: p in b <==> p in multiset(b);
  }

  lemma {:induction false} DistinctFits(s: seq<string>, universe: set<string>)
    requires Distinct(s) && forall p :: p in s ==> p in universe
    ensures |s| <= |universe|
  {
    if s != [] {
      var shorter, last := s[..|s| - 1], s[|s| - 1];
      forall p | p in shorter
        ensures p in universe - {last}
      {
        var i :| 0 <= i < |shorter| && shorter[i] == p;
        assert s[i] != s[|s| - 1];
      }
      DistinctFits(shorter, universe - {last});
    }
  }

  /** An admitted list is no longer than the privileges other than ALL, or is ALL alone. */
  lemma AdmittedListsAreShort(privileges: seq<string>, o: ObjectType)
    requires Admissible(privileges, o)
    ensures |privileges| <= 1 || |privileges| <= |ValidPrivileges(o)| - 1
  {
    if |privileges| > 1 && "ALL" in ValidPrivileges(o) {
      DistinctFits(privileges, ValidPrivileges(o) - {"ALL"});
    }
    if |privileges| > 0 {
      assert privileges[0] in privileges;
    }
  }

  /**
   Table 5.2 (Summary of Access Privileges) of the PostgreSQL documentation, read the other way round: the
   kinds of object, of those dealt with here, that a privilege applies to.
   */
  function AppliesTo(privilege: string): set<ObjectType> {
    if privilege == "SELECT" || privilege == "UPDATE" then {TableType, SequenceType}
    else if privilege in {"INSERT", "DELETE", "TRUNCATE", "REFERENCES", "TRIGGER"} then {TableType}
    else if privilege == "USAGE" then {SequenceType, SchemaType}
    else if privilege == "CREATE" then {DatabaseType, SchemaType}
    else if privilege in {"CONNECT", "TEMPORARY", "TEMP"} then {DatabaseType}
    else if privilege == "EXECUTE" then {FunctionType}
    else if privilege == "ALL" then {TableType, SequenceType, DatabaseType, SchemaType, FunctionType}
    else {}
  }

  /** Valid for a type are exactly the privileges that apply to it. */
  lemma ValidPrivilegesApply(o: ObjectType, privilege: string)
    ensures privilege in ValidPrivileges(o) <==> o in AppliesTo(privilege)
  {
  }

  /** The guard that matters for the text: every valid privilege is a single unquoted word. */
  lemma ValidPrivilegesAreWords(o: ObjectType)
    ensures forall p :: p in ValidPrivileges(o) ==> IsWord(p)
  {
  }
}
