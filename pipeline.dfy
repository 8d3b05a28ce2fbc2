/**
 * Buffer.Add, the MQTT message handler: decode the payload into a
 * map[string]interface{}, parse it with the table's record parser, and hand
 * the row to the batching loop over an unbuffered channel. A payload that
 * fails to decode is logged and dropped.
 *
 * JSON decoding itself is not modelled: `decoded` is what the decoder read
 * from the payload, None for a payload that is not JSON.
 */
module Pipeline {
  import opened Wrappers
  import opened Json
  import opened Parser
  import ParserFacts
  import Batching

  /**
   * What decoding into a map[string]interface{} leaves in the map: an
   * object's members; for `null`, a nil map (which reads as empty); for any
   * other JSON value, an error.
   */
  function DecodeIntoMap(decoded: Option<Json>): (m: Option<map<string, Json>>)
  {
    match decoded
    case Some(JObj(m)) => Some(m)
    case Some(JNull) => Some(map[])
    case _ => None
  }

  /** A row of count nil slots. */
  function NilRow(count: nat): (row: seq<Cell>)
    ensures |row| == count && forall i | 0 <= i < count :: row[i] == NilVal
  {
    seq(count, _ => NilVal)
  }

  /**
   * Buffer.Add: forward a row exactly when the payload decodes into a map.
   * ParseAsRecord always succeeds on a map, so the error check in Buffer.Add
   * never drops a message.
   */
  method Add(ext: Foreign, parser: Record, decoded: Option<Json>) returns (forwarded: Option<seq<Cell>>)
    requires WellFormed(Nested(parser))
    ensures forwarded.Some? <==> decoded == Some(JNull) || (decoded.Some? && decoded.value.JObj?)
    ensures decoded.Some? && decoded.value.JObj? ==>
              forwarded.Some? && RecordYields(ext, parser, decoded.value, ListVal(forwarded.value))
    ensures forwarded.Some? ==> |forwarded.value| == parser.count
    ensures decoded == Some(JNull) ==> forwarded == Some(NilRow(parser.count))
  {
    var js := DecodeIntoMap(decoded);
    if js.None? {
      return None;
    }
    var msg, _ := ParseAsRecord(ext, parser, JObj(js.value));
    if decoded == Some(JNull) {
      forall i | 0 <= i < parser.count
        ensures msg[i] == NilVal
      {
        ParserFacts.AbsentColumnIsNil(ext, parser, map[], ListVal(msg), i);
      }
      assert msg == NilRow(parser.count);
    }
    forwarded := Some(msg);
  }

  /** A message arrives: Add, then the row (if any) goes straight to the batching loop, which blocks Add until it takes it. */
  method Deliver(stream: Batching.Stream, ext: Foreign, parser: Record, decoded: Option<Json>, sinkFails: bool)
    returns (forwarded: Option<seq<Cell>>)
    requires stream.Valid() && WellFormed(Nested(parser))
    modifies stream, stream.batchArray
    ensures stream.Valid()
    ensures forwarded.Some? <==> DecodeIntoMap(decoded).Some?
    ensures forwarded.None? ==> unchanged(stream) && unchanged(stream.batchArray)
    ensures forwarded.Some? ==>
              && RecordYields(ext, parser, JObj(DecodeIntoMap(decoded).value), ListVal(forwarded.value))
              && stream.received == old(stream.received) + [Batching.SavedRow(stream.schema, forwarded.value)]
  {
    forwarded := Add(ext, parser, decoded);
    if forwarded.Some? {
      stream.OnRow(forwarded.value, sinkFails);
    }
  }
}
