/** A relational schema as Alembic operations see it: tables with their columns in order and their
    indexes. Each raw operation changes the schema or fails without changing it. */
module Schema {
  import opened Collections

  datatype Column = Column(name: string, spec: string)

  datatype Table = Table(columns: seq<Column>, indexes: map<string, seq<string>>)

  type Schema = map<string, Table>

  datatype DdlError =
    | DuplicateTable | UndefinedTable | DuplicateColumn | UndefinedColumn | DuplicateIndex | UndefinedIndex

  datatype Outcome = Outcome(schema: Schema, error: Option<DdlError>)

  function Names(columns: seq<Column>): set<string> {
    set c <- columns :: c.name
  }

  predicate IndexTaken(s: Schema, name: string) {
    exists t <- s :: name in s[t].indexes
  }

  function CreateTable(s: Schema, t: string, def: Table, references: set<string>): Outcome {
    if t in s then Outcome(s, Some(DuplicateTable))
    else if !(references <= s.Keys) then Outcome(s, Some(UndefinedTable))
    else Outcome(s[t := def], None)
  }

  function AddColumn(s: Schema, t: string, c: Column): Outcome {
    if t !in s then Outcome(s, Some(UndefinedTable))
    else if c.name in Names(s[t].columns) then Outcome(s, Some(DuplicateColumn))
    else Outcome(s[t := s[t].(columns := s[t].columns + [c])], None)
  }

  /** Index names are unique in the whole schema. */
  function CreateIndex(s: Schema, name: string, t: string, columns: seq<string>): Outcome {
    if t !in s then Outcome(s, Some(UndefinedTable))
    else if exists c <- columns :: c !in Names(s[t].columns) then Outcome(s, Some(UndefinedColumn))
    else if IndexTaken(s, name) then Outcome(s, Some(DuplicateIndex))
    else Outcome(s[t := s[t].(indexes := s[t].indexes[name := columns])], None)
  }

  function DropIndex(s: Schema, name: string, t: string): Outcome {
    if t !in s || name !in s[t].indexes then Outcome(s, Some(UndefinedIndex))
    else Outcome(s[t := s[t].(indexes := s[t].indexes - {name})], None)
  }

  /** The database behind `op`. A method that meets an error reports it and leaves the schema alone. */
  class Database {
    var schema: Schema

    constructor (schema: Schema)
      ensures this.schema == schema
    {
      this.schema := schema;
    }

    method OpCreateTable(t: string, def: Table, references: set<string>) returns (error: Option<DdlError>)
      modifies this
      ensures Outcome(schema, error) == CreateTable(old(schema), t, def, references)
    {
      var o := CreateTable(schema, t, def, references);
      schema, error := o.schema, o.error;
    }

    method OpAddColumn(t: string, c: Column) returns (error: Option<DdlError>)
      modifies this
      ensures Outcome(schema, error) == AddColumn(old(schema), t, c)
    {
      var o := AddColumn(schema, t, c);
      schema, error := o.schema, o.error;
    }

    method OpCreateIndex(name: string, t: string, columns: seq<string>) returns (error: Option<DdlError>)
      modifies this
      ensures Outcome(schema, error) == CreateIndex(old(schema), name, t, columns)
    {
      var o := CreateIndex(schema, name, t, columns);
      schema, error := o.schema, o.error;
    }

    method OpDropIndex(name: string, t: string) returns (error: Option<DdlError>)
      modifies this
      ensures Outcome(schema, error) == DropIndex(old(schema), name, t)
    {
      var o := DropIndex(schema, name, t);
      schema, error := o.schema, o.error;
    }
  }
}
