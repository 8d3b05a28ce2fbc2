/**
 * NewRecord: compile a BigQuery table schema into a Record parser tree.
 *
 * Column i is registered at position i under its declared name and the
 * lower-case form of that name, or only under the alias given by a
 * `json:"alias"` tag in the column's description. Registering a key again
 * overwrites the earlier entry, so the last column that claims a key wins.
 * A column of a type the compiler does not know is skipped.
 */
module Compiler {
  import opened Wrappers
  import opened Parser

  /** bigquery.FieldType; every type other than the six listed is unknown to the compiler. */
  datatype FieldType =
    | StringField
    | IntegerField
    | TimestampField
    | BooleanField
    | BytesField
    | RecordField
    | OtherField(name: string)

  /**
   * A bigquery.FieldSchema: `alias` is the name of the `json` tag found in the
   * column's description, if the description parses as struct tags and has one.
   */
  datatype Column = Column(name: string, kind: FieldType, repeated: bool, alias: Option<string>, schema: seq<Column>)

  /** The keys a column is matched by: its alias alone, or its name and lower-cased name. */
  function Names(col: Column, lower: string -> string): (names: seq<string>)
    ensures col.alias.Some? ==> names == [col.alias.value]
    ensures col.alias.None? ==> col.name in names && lower(col.name) in names && |names| == 2
  {
    if col.alias.Some? then [col.alias.value] else [col.name, lower(col.name)]
  }

  predicate Known(kind: FieldType)
  {
    !kind.OtherField?
  }

  /** Column col registers key. */
  predicate Claims(col: Column, lower: string -> string, key: string)
  {
    Known(col.kind) && key in Names(col, lower)
  }

  /** The last column among s[..n] that registers key, or -1 if none does. */
  function LastClaim(s: seq<Column>, lower: string -> string, key: string, n: nat): (j: int)
    requires n <= |s|
    ensures -1 <= j < n
    ensures 0 <= j ==> Claims(s[j], lower, key)
    ensures forall i | j < i < n :: !Claims(s[i], lower, key)
  {
    if n == 0 then -1
    else if Claims(s[n - 1], lower, key) then n - 1
    else LastClaim(s, lower, key, n - 1)
  }

  /** r is what NewRecord builds for schema s. */
  ghost predicate Compiled(s: seq<Column>, lower: string -> string, r: Record)
    decreases s, 1
  {
    r.count == |s| && TableMatches(s, lower, |s|, r.fields)
  }

  /** The table holds, for every key claimed among s[..n], a field for the last claiming column, and nothing else. */
  ghost predicate TableMatches(s: seq<Column>, lower: string -> string, n: nat, fields: map<string, Field>)
    requires n <= |s|
    decreases s, 0
  {
    && (forall key :: key in fields <==> 0 <= LastClaim(s, lower, key, n))
    && forall key | key in fields ::
         && fields[key].position == LastClaim(s, lower, key, n)
         && BuildsParser(s[fields[key].position], lower, fields[key].parser)
  }

  /** p is the parser NewRecord registers for col: the kind's parser, wrapped in Repeated if the column is repeated. */
  ghost predicate BuildsParser(col: Column, lower: string -> string, p: Parser)
    decreases col, 1
  {
    if col.repeated then p.Repeated? && BaseParser(col, lower, p.inner)
    else BaseParser(col, lower, p)
  }

  /** p is the parser for col's type: a value kind, or a Record compiled from the nested schema. */
  ghost predicate BaseParser(col: Column, lower: string -> string, p: Parser)
    decreases col, 0
  {
    match col.kind
    case StringField => p == Primitive(String)
    case IntegerField => p == Primitive(Integer)
    case TimestampField => p == Primitive(Timestamp)
    case BooleanField => p == Primitive(Boolean)
    case BytesField => p == Primitive(Bytes)
    case RecordField => p.Nested? && Compiled(col.schema, lower, p.rec)
    case OtherField(_) => false
  }

  /** newRecord: a record of count slots with an empty table. */
  function NewEmptyRecord(count: nat): (r: Record)
    ensures r.count == count && r.fields == map[]
    ensures WellFormed(Nested(r))
  {
    Record(count, map[])
  }

  /**
   * Record.addField: register the field (index, parser) under every name,
   * overwriting any earlier entry for the same key.
   */
  method AddField(fields: map<string, Field>, parser: Parser, index: nat, names: seq<string>)
    returns (fields': map<string, Field>)
    ensures forall n :: n in fields' <==> n in fields || n in names
    ensures forall n | n in names :: fields'[n] == Field(index, parser)
    ensures forall n | n in fields && n !in names :: fields'[n] == fields[n]
  {
    fields' := fields;
    for i := 0 to |names|
      invariant forall n :: n in fields' <==> n in fields || n in names[..i]
      invariant forall n | n in names[..i] :: fields'[n] == Field(index, parser)
      invariant forall n | n in fields && n !in names[..i] :: fields'[n] == fields[n]
    {
      assert names[..i + 1] == names[..i] + [names[i]];
      fields' := fields'[names[i] := Field(index, parser)];
    }
    assert names[..|names|] == names;
  }

  /**
   * NewRecord: one slot per column; each column of a known type registered
   * at its own position. The error result of the Go NewRecord is always nil
   * (it can only come from a recursive call, and unknown types are skipped), so the
   * model returns the record alone.
   */
  method NewRecord(s: seq<Column>, lower: string -> string) returns (r: Record)
    ensures r.count == |s|
    ensures Compiled(s, lower, r)
    decreases s
  {
    var root := NewEmptyRecord(|s|);
    var fields := root.fields;
    for i := 0 to |s|
      invariant TableMatches(s, lower, i, fields)
    {
      var col := s[i];
      var names := Names(col, lower);
      var p: Parser;
      ghost var before := fields;
      match col.kind {
        case StringField =>
          p := Primitive(String);
        case IntegerField =>
          p := Primitive(Integer);
        case TimestampField =>
          p := Primitive(Timestamp);
          fields := AddField(fields, Primitive(Timestamp), i, names);
        case BooleanField =>
          p := Primitive(Boolean);
        case BytesField =>
          p := Primitive(Bytes);
        case RecordField =>
          var sub := NewRecord(col.schema, lower);
          p := Nested(sub);
        case OtherField(_) =>
          // logged as an unknown BQ schema type; the column is never registered
          TableSkip(s, lower, i, fields);
          continue;
      }
      if col.repeated {
        p := Repeated(p);
      }
      fields := AddField(fields, p, i, names);
      TableStep(s, lower, i, before, fields, p);
    }
    r := Record(root.count, fields);
  }

  /** Registering column i's parser under its names extends the table of s[..i] to the table of s[..i + 1]. */
  lemma TableStep(s: seq<Column>, lower: string -> string, i: nat, before: map<string, Field>, after: map<string, Field>, p: Parser)
    requires i < |s| && Known(s[i].kind)
    requires TableMatches(s, lower, i, before)
    requires BuildsParser(s[i], lower, p)
    requires forall n :: n in after <==> n in before || n in Names(s[i], lower)
    requires forall n | n in Names(s[i], lower) :: after[n] == Field(i, p)
    requires forall n | n in before && n !in Names(s[i], lower) :: after[n] == before[n]
    ensures TableMatches(s, lower, i + 1, after)
  {
    forall key
      ensures key in after <==> 0 <= LastClaim(s, lower, key, i + 1)
    {
    }
    forall key | key in after
      ensures after[key].position == LastClaim(s, lower, key, i + 1)
      ensures BuildsParser(s[after[key].position], lower, after[key].parser)
    {
    }
  }

  /** A column of unknown type leaves the table of s[..i] as the table of s[..i + 1]. */
  lemma TableSkip(s: seq<Column>, lower: string -> string, i: nat, fields: map<string, Field>)
    requires i < |s| && !Known(s[i].kind)
    requires TableMatches(s, lower, i, fields)
    ensures TableMatches(s, lower, i + 1, fields)
  {
    assert forall key :: LastClaim(s, lower, key, i + 1) == LastClaim(s, lower, key, i);
  }
}
