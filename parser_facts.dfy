/**
 * Properties of the parser model: the acceptance table of the value kinds,
 * the all-or-nothing behaviour of Repeated, what a row looks like, that
 * unknown keys do not matter, and that the row is determined by the input
 * whenever no two present keys compete for one slot.
 */
module ParserFacts {
  import opened Wrappers
  import opened Json
  import opened Parser

  /** Each value kind reports "invalid type" exactly for the JSON shapes it does not accept, and succeeds with a cell of its own type. */
  lemma PrimitiveAcceptance(ext: Foreign, kind: ValueKind, v: Json)
    ensures ParsePrimitive(ext, kind, v).err == Some(InvalidType(kind)) <==> !ShapeAccepted(kind, v)
    ensures ParsePrimitive(ext, kind, v).err.None? <==>
              && ShapeAccepted(kind, v)
              && (kind == Timestamp && v.JStr? ==> ext.parseTime(v.s).Some?)
              && (kind == Bytes ==> v.JStr? && ext.decodeBase64(v.s).ok)
    ensures ParsePrimitive(ext, kind, v).err.None? ==> HasKind(kind, ParsePrimitive(ext, kind, v).cell)
    ensures kind == String ==> ParsePrimitive(ext, kind, v).err.None?
  {
  }

  /** If every element parses, Repeated yields one value per element, element i being a parse of input element i. */
  lemma {:induction false} RepeatedAllParse(ext: Foreign, q: Parser, s: seq<Json>, c: Cell)
    requires forall j | 0 <= j < |s| :: ErrorOf(ext, q, s[j]).None?
    requires Yields(ext, Repeated(q), JArr(s), c)
    ensures ErrorOf(ext, Repeated(q), JArr(s)) == None
    ensures c.ListVal? && |c.items| == |s|
    ensures forall j | 0 <= j < |s| :: Yields(ext, q, s[j], c.items[j])
  {
    assert FirstError(ext, q, JArr(s), 0).None?;
  }

  /** FirstError from index i equals FirstError from any later index up to which every element parses. */
  lemma {:induction false} FirstErrorSkips(ext: Foreign, q: Parser, v: Json, i: nat, j: nat)
    requires v.JArr? && i <= j <= |v.items|
    requires forall j' | i <= j' < j :: ErrorOf(ext, q, v.items[j']).None?
    ensures FirstError(ext, q, v, i) == FirstError(ext, q, v, j)
    decreases j - i
  {
    if i < j {
      FirstErrorSkips(ext, q, v, i + 1, j);
    }
  }

  /** The first failing element decides: Repeated returns nil together with that element's error. */
  lemma RepeatedFirstFailure(ext: Foreign, q: Parser, s: seq<Json>, j: nat, c: Cell)
    requires j < |s| && ErrorOf(ext, q, s[j]).Some?
    requires forall j' | 0 <= j' < j :: ErrorOf(ext, q, s[j']).None?
    ensures ErrorOf(ext, Repeated(q), JArr(s)) == ErrorOf(ext, q, s[j])
    ensures Yields(ext, Repeated(q), JArr(s), c) <==> c == NilVal
  {
    FirstErrorSkips(ext, q, JArr(s), 0, j);
  }

  /** Repeated on anything but an array yields an empty slice and "not an array". */
  lemma RepeatedNotArray(ext: Foreign, q: Parser, v: Json, c: Cell)
    requires !v.JArr?
    ensures ErrorOf(ext, Repeated(q), v) == Some(NotAnArray)
    ensures Yields(ext, Repeated(q), v, c) <==> c == ListVal([])
  {
  }

  /**
   * The shape a parser's value has when the parser reports no error: a value
   * kind's own type, a row of exactly `count` slots for a Record, and a slice
   * of such values for Repeated.
   */
  ghost predicate Conforms(p: Parser, c: Cell)
  {
    match p
    case Primitive(kind) => HasKind(kind, c)
    case Nested(r) => c.ListVal? && |c.items| == r.count
    case Repeated(q) => c.ListVal? && forall j | 0 <= j < |c.items| :: Conforms(q, c.items[j])
  }

  /** Whatever a parser yields without an error has the shape its parser declares, at any depth. */
  lemma {:induction false} SuccessConforms(ext: Foreign, p: Parser, v: Json, c: Cell)
    requires ErrorOf(ext, p, v).None?
    requires Yields(ext, p, v, c)
    ensures Conforms(p, c)
    decreases v
  {
    match p
    case Primitive(kind) =>
      PrimitiveAcceptance(ext, kind, v);
    case Nested(r) =>
    case Repeated(q) =>
      var s := v.items;
      RepeatedAllParse(ext, q, s, c);
      forall j | 0 <= j < |c.items|
        ensures Conforms(q, c.items[j])
      {
        SuccessConforms(ext, q, s[j], c.items[j]);
      }
  }

  /** Record.Parse on anything but an object yields an empty slice and "not an object". */
  lemma RecordNotObject(ext: Foreign, r: Record, v: Json, c: Cell)
    requires !v.JObj?
    ensures ErrorOf(ext, Nested(r), v) == Some(NotAnObject)
    ensures Yields(ext, Nested(r), v, c) <==> c == ListVal([])
  {
  }

  /** A slot that no input key is routed to stays nil. */
  lemma AbsentColumnIsNil(ext: Foreign, r: Record, m: map<string, Json>, c: Cell, i: nat)
    requires RecordYields(ext, r, JObj(m), c)
    requires i < r.count
    requires forall k | k in m && k in r.fields :: r.fields[k].position != i
    ensures c.items[i] == NilVal
  {
    assert SlotYields(ext, r, JObj(m), m.Keys, i, c.items[i]);
    assert Writers(r, m, m.Keys, i) == {};
  }

  /** A slot that exactly one field of the record is routed to, and whose key is present, holds that key's parse. */
  lemma SoleWriter(ext: Foreign, r: Record, m: map<string, Json>, k: string, c: Cell)
    requires k in m && k in r.fields
    requires forall k2 | k2 in r.fields && r.fields[k2].position == r.fields[k].position :: k2 == k
    ensures SlotYields(ext, r, JObj(m), m.Keys, r.fields[k].position, c) <==> Yields(ext, r.fields[k].parser, m[k], c)
  {
    assert k in Writers(r, m, m.Keys, r.fields[k].position);
  }

  /** The input restricted to the keys the record has a field for. */
  function KnownKeys(r: Record, m: map<string, Json>): (m': map<string, Json>)
    ensures m'.Keys == m.Keys * r.fields.Keys
    ensures forall k | k in m' :: m'[k] == m[k]
  {
    map k | k in m && k in r.fields :: m[k]
  }

  /** Keys without a field never matter: parsing the input and parsing only its known keys yield the same rows. */
  lemma UnknownKeysIgnored(ext: Foreign, r: Record, m: map<string, Json>, c: Cell)
    ensures RecordYields(ext, r, JObj(m), c) <==> RecordYields(ext, r, JObj(KnownKeys(r, m)), c)
  {
    var m' := KnownKeys(r, m);
    if c.ListVal? && |c.items| == r.count {
      forall i | 0 <= i < r.count
        ensures SlotYields(ext, r, JObj(m), m.Keys, i, c.items[i]) <==> SlotYields(ext, r, JObj(m'), m'.Keys, i, c.items[i])
      {
        assert Writers(r, m, m.Keys, i) == Writers(r, m', m'.Keys, i);
      }
    }
  }

  /** No two present keys compete for one slot, at any depth. */
  ghost predicate Unambiguous(p: Parser, v: Json)
    decreases v
  {
    match p
    case Primitive(_) => true
    case Nested(r) =>
      (match v
       case JObj(m) =>
         && (forall k1, k2 | k1 in m && k2 in m && k1 in r.fields && k2 in r.fields
               && r.fields[k1].position == r.fields[k2].position :: k1 == k2)
         && (forall k | k in m && k in r.fields :: Unambiguous(r.fields[k].parser, m[k]))
       case _ => true)
    case Repeated(q) =>
      (match v
       case JArr(s) => forall j | 0 <= j < |s| :: Unambiguous(q, s[j])
       case _ => true)
  }

  /** When no two present keys compete for a slot, the key iteration order does not matter: the value is unique. */
  lemma {:induction false} YieldsUnique(ext: Foreign, p: Parser, v: Json, c1: Cell, c2: Cell)
    requires Unambiguous(p, v)
    requires Yields(ext, p, v, c1) && Yields(ext, p, v, c2)
    ensures c1 == c2
    decreases v
  {
    match p
    case Primitive(_) =>
    case Nested(r) =>
      if v.JObj? {
        var m := v.members;
        forall i | 0 <= i < r.count
          ensures c1.items[i] == c2.items[i]
        {
          assert SlotYields(ext, r, v, m.Keys, i, c1.items[i]);
          assert SlotYields(ext, r, v, m.Keys, i, c2.items[i]);
          if Writers(r, m, m.Keys, i) != {} {
            var k1 :| k1 in m.Keys && k1 in m && k1 in r.fields && r.fields[k1].position == i
              && Yields(ext, r.fields[k1].parser, m[k1], c1.items[i]);
            var k2 :| k2 in m.Keys && k2 in m && k2 in r.fields && r.fields[k2].position == i
              && Yields(ext, r.fields[k2].parser, m[k2], c2.items[i]);
            assert k1 == k2;
            YieldsUnique(ext, r.fields[k1].parser, m[k1], c1.items[i], c2.items[i]);
          }
        }
        assert c1.items == c2.items;
      }
    case Repeated(q) =>
      if v.JArr? && FirstError(ext, q, v, 0).None? {
        var s := v.items;
        forall j | 0 <= j < |s|
          ensures c1.items[j] == c2.items[j]
        {
          YieldsUnique(ext, q, s[j], c1.items[j], c2.items[j]);
        }
        assert c1.items == c2.items;
      }
  }
}
