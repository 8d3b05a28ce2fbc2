/**
 * Properties of the compiled table: it fits the row, it is determined by the
 * schema, every registered key comes from the last column claiming it, and a
 * skipped column's slot is never written.
 */
module CompilerFacts {
  import opened Wrappers
  import opened Json
  import opened Parser
  import opened Compiler
  import ParserFacts

  /** A compiled record tree is well formed: every position lies inside its row, at every depth. */
  lemma {:induction false} CompiledWellFormed(s: seq<Column>, lower: string -> string, r: Record)
    requires Compiled(s, lower, r)
    ensures WellFormed(Nested(r))
    decreases s, 1
  {
    forall key | key in r.fields
      ensures r.fields[key].position < r.count && WellFormed(r.fields[key].parser)
    {
      BuiltWellFormed(s[r.fields[key].position], lower, r.fields[key].parser);
    }
  }

  lemma {:induction false} BuiltWellFormed(col: Column, lower: string -> string, p: Parser)
    requires BuildsParser(col, lower, p)
    ensures WellFormed(p)
    decreases col, 0
  {
    var base := if col.repeated then p.inner else p;
    if col.kind.RecordField? {
      CompiledWellFormed(col.schema, lower, base.rec);
    }
  }

  /** The schema determines the compiled record: two records compiled from one schema are equal. */
  lemma {:induction false} CompiledUnique(s: seq<Column>, lower: string -> string, r1: Record, r2: Record)
    requires Compiled(s, lower, r1) && Compiled(s, lower, r2)
    ensures r1 == r2
    decreases s, 1
  {
    forall key | key in r1.fields
      ensures key in r2.fields && r1.fields[key] == r2.fields[key]
    {
      BuiltUnique(s[r1.fields[key].position], lower, r1.fields[key].parser, r2.fields[key].parser);
    }
    assert r1.fields.Keys == r2.fields.Keys;
    assert r1.fields == r2.fields;
  }

  lemma {:induction false} BuiltUnique(col: Column, lower: string -> string, p1: Parser, p2: Parser)
    requires BuildsParser(col, lower, p1) && BuildsParser(col, lower, p2)
    ensures p1 == p2
    decreases col, 0
  {
    var b1 := if col.repeated then p1.inner else p1;
    var b2 := if col.repeated then p2.inner else p2;
    if col.kind.RecordField? {
      CompiledUnique(col.schema, lower, b1.rec, b2.rec);
    }
  }

  /**
   * Every registered key comes from the last column of a known type that
   * claims it: by its alias if the column has one, otherwise by its name or
   * lower-cased name; the field's parser is that column's parser.
   */
  lemma FieldOrigin(s: seq<Column>, lower: string -> string, r: Record, key: string)
    requires Compiled(s, lower, r)
    requires key in r.fields
    ensures var j := r.fields[key].position;
      && j < |s|
      && Known(s[j].kind)
      && (s[j].alias.Some? ==> key == s[j].alias.value)
      && (s[j].alias.None? ==> key == s[j].name || key == lower(s[j].name))
      && (forall i | j < i < |s| :: !Claims(s[i], lower, key))
      && BuildsParser(s[j], lower, r.fields[key].parser)
  {
  }

  /** Every name of every column of a known type is registered, at that column's position or a later one's. */
  lemma ColumnRegistered(s: seq<Column>, lower: string -> string, r: Record, i: nat, key: string)
    requires Compiled(s, lower, r)
    requires i < |s| && Known(s[i].kind) && key in Names(s[i], lower)
    ensures key in r.fields && i <= r.fields[key].position
    ensures (forall j | i < j < |s| :: !Claims(s[j], lower, key)) ==> r.fields[key].position == i
  {
    assert Claims(s[i], lower, key);
  }

  /** A column of unknown type is never written: its slot stays nil in every row. */
  lemma SkippedColumnStaysNil(ext: Foreign, s: seq<Column>, lower: string -> string, r: Record,
                              i: nat, m: map<string, Json>, c: Cell)
    requires Compiled(s, lower, r)
    requires i < |s| && !Known(s[i].kind)
    requires RecordYields(ext, r, JObj(m), c)
    ensures c.items[i] == NilVal
  {
    forall k | k in m && k in r.fields
      ensures r.fields[k].position != i
    {
      FieldOrigin(s, lower, r, k);
    }
    ParserFacts.AbsentColumnIsNil(ext, r, m, c, i);
  }
  /**
   * End to end: in a row parsed with a compiled record, the slot of a present
   * key whose competing keys all parse cleanly belongs to the column that
   * registered the key, and holds a value of that column's type (a row of the
   * nested schema's width for a RECORD column, a slice for a REPEATED one).
   */
  lemma CompiledSlotKind(ext: Foreign, s: seq<Column>, lower: string -> string, r: Record,
                         m: map<string, Json>, c: Cell, k: string)
    requires Compiled(s, lower, r)
    requires RecordYields(ext, r, JObj(m), c)
    requires k in m && k in r.fields
    requires forall k2 | k2 in m && k2 in r.fields && r.fields[k2].position == r.fields[k].position ::
               ErrorOf(ext, r.fields[k2].parser, m[k2]).None?
    ensures r.fields[k].position < |s| && r.fields[k].position < |c.items|
    ensures BuildsParser(s[r.fields[k].position], lower, r.fields[k].parser)
    ensures ParserFacts.Conforms(r.fields[k].parser, c.items[r.fields[k].position])
  {
    var pos := r.fields[k].position;
    FieldOrigin(s, lower, r, k);
    assert SlotYields(ext, r, JObj(m), m.Keys, pos, c.items[pos]);
    assert k in Writers(r, m, m.Keys, pos);
    var k2 :| k2 in m.Keys && k2 in m && k2 in r.fields && r.fields[k2].position == pos
      && Yields(ext, r.fields[k2].parser, m[k2], c.items[pos]);
    FieldOrigin(s, lower, r, k2);
    BuiltUnique(s[pos], lower, r.fields[k].parser, r.fields[k2].parser);
    ParserFacts.SuccessConforms(ext, r.fields[k2].parser, m[k2], c.items[pos]);
  }

  /**
   * Matching is not case-insensitive: a column Foo is registered as Foo and
   * foo only, so an input key FOO is never routed to it and its slot stays nil.
   */
  lemma UpperCaseKeyNotMatched(ext: Foreign, lower: string -> string, kind: FieldType, r: Record, v: Json, c: Cell)
    requires lower("Foo") == "foo" && Known(kind)
    requires Compiled([Column("Foo", kind, false, None, [])], lower, r)
    requires RecordYields(ext, r, JObj(map["FOO" := v]), c)
    ensures |c.items| == 1 && c.items[0] == NilVal
  {
    var s := [Column("Foo", kind, false, None, [])];
    assert "FOO" !in r.fields by {
      if "FOO" in r.fields {
        FieldOrigin(s, lower, r, "FOO");
        assert false;
      }
    }
    ParserFacts.AbsentColumnIsNil(ext, r, map["FOO" := v], c, 0);
  }
}
