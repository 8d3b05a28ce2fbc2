/**
 * The schema-driven JSON-to-row parser: five value-kind parsers, the Record
 * parser that turns a JSON object into a fixed-width row, and the Repeated
 * wrapper that parses every element of a JSON array.
 *
 * A parser returns a (value, error) pair, both of which may be set, as the Go
 * methods do. Go iterates the input object's keys in an unspecified order, so
 * when two input keys feed the same column the row is not determined by the
 * input; `Yields` is therefore a relation ("c is one of the values p can
 * produce for v"), while the error part, which never depends on that order,
 * is the function `ErrorOf`.
 */
module Parser {
  import opened Wrappers
  import opened Json

  /** A point in time, as Go's time.Time, in nanoseconds since the Unix epoch. */
  datatype Instant = Instant(unixNanos: int)

  /** time.Time{}: January 1, year 1, 00:00:00 UTC, what time.Parse returns on failure. */
  const ZeroTime := Instant(-62135596800 * 1000000000)

  /** A BigQuery value (bigquery.Value) as the parsers build it. */
  datatype Cell =
    | NilVal
    | StrVal(s: string)
    | FloatVal(f: Float64)
    | BoolVal(b: bool)
    | TimeVal(t: Instant)
    | BytesVal(data: seq<bv8>)
    | ListVal(items: seq<Cell>)

  /** What base64.StdEncoding.DecodeString returns: the bytes decoded so far and whether the input was well formed. */
  datatype Decoded = Decoded(data: seq<bv8>, ok: bool)

  /**
   * The library functions the parsers call and the model does not define:
   * time.Parse with the RFC3339Nano layout (RFC 3339 section 5.6), base64
   * decoding (RFC 4648 section 4), and fmt.Sprint of a number, array or object.
   */
  datatype Foreign = Foreign(
    parseTime: string -> Option<Instant>,
    decodeBase64: string -> Decoded,
    format: Json -> string)

  /** The five value-kind parsers. */
  datatype ValueKind = Timestamp | String | Integer | Boolean | Bytes

  datatype ParseError =
    | InvalidType(kind: ValueKind)   // "invalid type for <KIND>"
    | BadTime                        // the error of time.Parse
    | CorruptBase64                  // the error of base64 decoding
    | NotAnObject                    // "not an object"
    | NotAnArray                     // "not an array"

  /** The (bigquery.Value, error) pair a parser returns. */
  datatype Parsed = Parsed(cell: Cell, err: Option<ParseError>)

  /** fmt.Sprint of a decoded JSON value. */
  function Sprint(ext: Foreign, v: Json): (r: string)
    ensures v.JStr? ==> r == v.s
  {
    match v
    case JStr(s) => s
    case JNull => "<nil>"
    case JBool(b) => if b then "true" else "false"
    case _ => ext.format(v)
  }

  /** Timestamp.Parse: a string in RFC3339Nano layout, or a number taken as Unix seconds and passed through. */
  function ParseTimestamp(ext: Foreign, v: Json): (r: Parsed)
    ensures r.err.None? <==> v.JNum? || (v.JStr? && ext.parseTime(v.s).Some?)
    ensures r.err == Some(InvalidType(Timestamp)) <==> !v.JStr? && !v.JNum?
    ensures v.JNum? ==> r == Parsed(FloatVal(v.n), None)
    ensures v.JStr? && ext.parseTime(v.s).Some? ==> r.cell == TimeVal(ext.parseTime(v.s).value)
    ensures v.JStr? && ext.parseTime(v.s).None? ==> r == Parsed(TimeVal(ZeroTime), Some(BadTime))
    ensures !v.JStr? && !v.JNum? ==> r.cell == NilVal
  {
    match v
    case JStr(s) =>
      (match ext.parseTime(s)
       case Some(t) => Parsed(TimeVal(t), None)
       case None => Parsed(TimeVal(ZeroTime), Some(BadTime)))
    case JNum(n) => Parsed(FloatVal(n), None)
    case _ => Parsed(NilVal, Some(InvalidType(Timestamp)))
  }

  /** String.Parse: never fails; a JSON string passes through unchanged. */
  function ParseString(ext: Foreign, v: Json): (r: Parsed)
    ensures r.err.None? && r.cell.StrVal?
    ensures v.JStr? ==> r.cell == StrVal(v.s)
  {
    Parsed(StrVal(Sprint(ext, v)), None)
  }

  /** Integer.Parse: only a JSON number, passed through as a float64. */
  function ParseInteger(v: Json): (r: Parsed)
    ensures r.err.None? <==> v.JNum?
    ensures r.err.None? ==> r.cell == FloatVal(v.n)
    ensures r.err.Some? ==> r.cell == NilVal && r.err == Some(InvalidType(Integer))
  {
    match v
    case JNum(n) => Parsed(FloatVal(n), None)
    case _ => Parsed(NilVal, Some(InvalidType(Integer)))
  }

  /** Boolean.Parse: only a JSON bool. */
  function ParseBoolean(v: Json): (r: Parsed)
    ensures r.err.None? <==> v.JBool?
    ensures r.err.None? ==> r.cell == BoolVal(v.b)
    ensures r.err.Some? ==> r.cell == NilVal && r.err == Some(InvalidType(Boolean))
  {
    match v
    case JBool(b) => Parsed(BoolVal(b), None)
    case _ => Parsed(NilVal, Some(InvalidType(Boolean)))
  }

  /** Bytes.Parse: only a JSON string, base64-decoded; a corrupt string still yields the bytes decoded before the fault. */
  function ParseBytes(ext: Foreign, v: Json): (r: Parsed)
    ensures r.err.None? <==> v.JStr? && ext.decodeBase64(v.s).ok
    ensures r.err == Some(InvalidType(Bytes)) <==> !v.JStr?
    ensures v.JStr? ==> r.cell == BytesVal(ext.decodeBase64(v.s).data)
    ensures v.JStr? && !ext.decodeBase64(v.s).ok ==> r.err == Some(CorruptBase64)
    ensures !v.JStr? ==> r.cell == NilVal
  {
    match v
    case JStr(s) =>
      var d := ext.decodeBase64(s);
      Parsed(BytesVal(d.data), if d.ok then None else Some(CorruptBase64))
    case _ => Parsed(NilVal, Some(InvalidType(Bytes)))
  }

  /** Dispatch on the value kind. */
  function ParsePrimitive(ext: Foreign, kind: ValueKind, v: Json): (r: Parsed)
  {
    match kind
    case Timestamp => ParseTimestamp(ext, v)
    case String => ParseString(ext, v)
    case Integer => ParseInteger(v)
    case Boolean => ParseBoolean(v)
    case Bytes => ParseBytes(ext, v)
  }

  /** The JSON shapes each value kind accepts, before any decoding of the value. */
  predicate ShapeAccepted(kind: ValueKind, v: Json)
  {
    match kind
    case Timestamp => v.JStr? || v.JNum?
    case String => true
    case Integer => v.JNum?
    case Boolean => v.JBool?
    case Bytes => v.JStr?
  }

  /** The cell a successful parse of this kind produces has the kind's BigQuery type. */
  predicate HasKind(kind: ValueKind, c: Cell)
  {
    match kind
    case Timestamp => c.TimeVal? || c.FloatVal?
    case String => c.StrVal?
    case Integer => c.FloatVal?
    case Boolean => c.BoolVal?
    case Bytes => c.BytesVal?
  }

  /** A parser tree: a value kind, a nested Record, or a Repeated wrapper. */
  datatype Parser =
    | Primitive(kind: ValueKind)
    | Nested(rec: Record)
    | Repeated(inner: Parser)

  /** A column's slot in the row and the parser that fills it. */
  datatype Field = Field(position: nat, parser: Parser)

  /** A fixed column count and the key -> Field lookup table. */
  datatype Record = Record(count: nat, fields: map<string, Field>)

  /** Every field of every record in the tree points inside its row (Go would panic otherwise). */
  ghost predicate WellFormed(p: Parser)
  {
    match p
    case Primitive(_) => true
    case Nested(r) =>
      forall k | k in r.fields :: r.fields[k].position < r.count && WellFormed(r.fields[k].parser)
    case Repeated(q) => WellFormed(q)
  }

  /** The error a parser reports for a value; it never depends on key iteration order. */
  function ErrorOf(ext: Foreign, p: Parser, v: Json): (err: Option<ParseError>)
    decreases v, 1
  {
    match p
    case Primitive(kind) => ParsePrimitive(ext, kind, v).err
    case Nested(_) => if v.JObj? then None else Some(NotAnObject)
    case Repeated(q) => if v.JArr? then FirstError(ext, q, v, 0) else Some(NotAnArray)
  }

  /** The error of the first element from index i on whose parse fails, if any. */
  function FirstError(ext: Foreign, q: Parser, v: Json, i: nat): (r: Option<ParseError>)
    requires v.JArr? && i <= |v.items|
    ensures r.None? <==> forall j | i <= j < |v.items| :: ErrorOf(ext, q, v.items[j]).None?
    decreases v, 0, |v.items| - i
  {
    if i == |v.items| then None
    else
      match ErrorOf(ext, q, v.items[i])
      case Some(e) => Some(e)
      case None => FirstError(ext, q, v, i + 1)
  }

  /** The input keys among `keys` that the record routes to slot i. */
  function Writers(r: Record, m: map<string, Json>, keys: set<string>, i: nat): (ks: set<string>)
  {
    set k | k in keys && k in m && k in r.fields && r.fields[k].position == i
  }

  /** c is one of the values p.Parse(v) can return. */
  ghost predicate Yields(ext: Foreign, p: Parser, v: Json, c: Cell)
    decreases v, 2
  {
    match p
    case Primitive(kind) => c == ParsePrimitive(ext, kind, v).cell
    case Nested(r) => RecordYields(ext, r, v, c)
    case Repeated(q) => RepeatedYields(ext, q, v, c)
  }

  /**
   * c is one of the values Record.Parse(v) can return: for a non-object the
   * empty slice; for an object a row of exactly count slots where a slot that
   * no input key is routed to stays nil, and any other slot holds what its
   * field's parser returned for one of the keys routed to it (the key visited
   * last), whether or not that parse failed.
   */
  ghost predicate RecordYields(ext: Foreign, r: Record, v: Json, c: Cell)
    decreases v, 1
  {
    match v
    case JObj(m) =>
      && c.ListVal?
      && |c.items| == r.count
      && forall i | 0 <= i < r.count :: SlotYields(ext, r, v, m.Keys, i, c.items[i])
    case _ => c == ListVal([])
  }

  /** Slot i holds nil if no key of `keys` is routed to it, else one routed key's parse. */
  ghost predicate SlotYields(ext: Foreign, r: Record, v: Json, keys: set<string>, i: nat, c: Cell)
    requires v.JObj?
    decreases v, 0
  {
    if Writers(r, v.members, keys, i) == {} then c == NilVal
    else exists k | k in keys && k in v.members && k in r.fields && r.fields[k].position == i ::
           Yields(ext, r.fields[k].parser, v.members[k], c)
  }

  /**
   * c is one of the values Repeated.Parse(v) can return: for a non-array an
   * empty slice; if some element fails, nil; otherwise one value per element,
   * in order.
   */
  ghost predicate RepeatedYields(ext: Foreign, q: Parser, v: Json, c: Cell)
    decreases v, 1
  {
    match v
    case JArr(s) =>
      if FirstError(ext, q, v, 0).Some? then c == NilVal
      else c.ListVal? && |c.items| == |s| && forall j | 0 <= j < |s| :: Yields(ext, q, s[j], c.items[j])
    case _ => c == ListVal([])
  }

  /** Parser.Parse, dispatched on the parser's kind (Go's interface call). */
  method Parse(ext: Foreign, p: Parser, v: Json) returns (c: Cell, err: Option<ParseError>)
    requires WellFormed(p)
    ensures err == ErrorOf(ext, p, v)
    ensures Yields(ext, p, v, c)
    decreases v, 1
  {
    match p
    case Primitive(kind) =>
      var r := ParsePrimitive(ext, kind, v);
      c, err := r.cell, r.err;
    case Nested(r) =>
      var output;
      output, err := ParseAsRecord(ext, r, v);
      c := ListVal(output);
    case Repeated(q) =>
      c, err := ParseRepeated(ext, q, v);
  }

  /**
   * Record.ParseAsRecord: allocate count nil slots and, for every input key in
   * some order, write its field parser's result at the field's position. A
   * field's parse error is only logged; keys with no field are skipped.
   */
  method ParseAsRecord(ext: Foreign, r: Record, v: Json) returns (output: seq<Cell>, err: Option<ParseError>)
    requires WellFormed(Nested(r))
    ensures !v.JObj? ==> output == [] && err == Some(NotAnObject)
    ensures v.JObj? ==> err == None && |output| == r.count
    ensures RecordYields(ext, r, v, ListVal(output))
    decreases v, 0
  {
    if !v.JObj? {
      return [], Some(NotAnObject);
    }
    var m := v.members;
    var out := new Cell[r.count](_ => NilVal);
    var todo := m.Keys;
    while todo != {}
      invariant todo <= m.Keys
      invariant forall i | 0 <= i < r.count :: SlotYields(ext, r, v, m.Keys - todo, i, out[i])
      decreases todo
    {
      var k :| k in todo;
      ghost var done := m.Keys - todo;
      if k in r.fields {
        var f := r.fields[k];
        var c, _ := Parse(ext, f.parser, m[k]);
        out[f.position] := c;
        forall i | 0 <= i < r.count
          ensures SlotYields(ext, r, v, done + {k}, i, out[i])
        {
          WritersStep(r, m, done, k, i);
          if i != f.position {
            assert Writers(r, m, done + {k}, i) == Writers(r, m, done, i);
          }
        }
      } else {
        forall i | 0 <= i < r.count
          ensures SlotYields(ext, r, v, done + {k}, i, out[i])
        {
          assert Writers(r, m, done + {k}, i) == Writers(r, m, done, i);
        }
      }
      assert m.Keys - (todo - {k}) == done + {k};
      todo := todo - {k};
    }
    output, err := out[..], None;
  }

  /** Visiting one more key adds it to the writers of its own slot and of no other. */
  lemma WritersStep(r: Record, m: map<string, Json>, done: set<string>, k: string, i: nat)
    requires k in m && k in r.fields
    ensures r.fields[k].position == i ==> Writers(r, m, done + {k}, i) == Writers(r, m, done, i) + {k}
    ensures r.fields[k].position != i ==> Writers(r, m, done + {k}, i) == Writers(r, m, done, i)
  {
  }

  /**
   * Repeated.Parse: parse the elements in order into a slice of the same
   * length, returning nil and the element's error at the first failure.
   */
  method ParseRepeated(ext: Foreign, q: Parser, v: Json) returns (c: Cell, err: Option<ParseError>)
    requires WellFormed(q)
    ensures err == ErrorOf(ext, Repeated(q), v)
    ensures RepeatedYields(ext, q, v, c)
    decreases v, 0
  {
    if !v.JArr? {
      return ListVal([]), Some(NotAnArray);
    }
    var s := v.items;
    var out := new Cell[|s|](_ => NilVal);
    for i := 0 to |s|
      invariant FirstError(ext, q, v, 0) == FirstError(ext, q, v, i)
      invariant forall j | 0 <= j < i :: Yields(ext, q, s[j], out[j])
    {
      var e;
      out[i], e := Parse(ext, q, s[i]);
      if e.Some? {
        assert FirstError(ext, q, v, i) == e;
        return NilVal, e;
      }
      assert FirstError(ext, q, v, i) == FirstError(ext, q, v, i + 1);
    }
    assert FirstError(ext, q, v, 0) == None;
    c, err := ListVal(out[..]), None;
  }
}
