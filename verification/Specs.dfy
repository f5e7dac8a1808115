/** The values that the custom resources carry. */
module Specs {
  import opened SqlText

  /** PostgresIdentifier: a table, sequence or function within a schema. */
  datatype TableName = TableName(schema: string, name: string) {
    function Ident(): seq<string> {
      [schema, name]
    }

    /** The identifier PostgreSQL sees once Sanitize has removed NUL characters. */
    function Clean(): TableName {
      TableName(Strip(schema), Strip(name))
    }
  }

  /** PostgresColumn. */
  datatype Column = Column(name: string, dataType: string, nullable: bool, primaryKey: bool)

  /** PostgresRef, with the secret reference kept as one string. */
  datatype PostgresRef = PostgresRef(host: string, port: nat, database: string, secret: string, variant: string)

  /** What PostgresPublicationSpec and Publication say about a publication, apart from where it lives. */
  datatype Publication = Publication(name: string, tables: seq<TableName>, operations: seq<string>)

  datatype TableSpec = TableSpec(table: TableName, columns: seq<Column>)

  predicate Distinct<T(==)>(s: seq<T>) {
    forall i, j :: 0 <= i < j < |s| ==> s[i] != s[j]
  }

  function CleanTables(tables: seq<TableName>): seq<TableName> {
    seq(|tables|, i requires 0 <= i < |tables| => tables[i].Clean())
  }

  function TableSet(tables: seq<TableName>): set<TableName> {
    set t | t in tables
  }
}
