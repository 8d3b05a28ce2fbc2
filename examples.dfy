/**
 * The two parser tests of the repository, stated as lemmas: a flat record
 * whose input carries keys the record does not know, and a record nested
 * inside another.
 */
module ParserExamples {
  import opened Wrappers
  import opened Json
  import opened Parser
  import ParserFacts

  const ReceivedAt := "2020-01-06T04:34:47.057492873Z"
  const Client := "192.168.8.68:54439"

  /** Three columns registered by hand: ReceivedTimestamp, client and facility. */
  function SimpleRecord(): Record
  {
    Record(3, map[
      "ReceivedTimestamp" := Field(0, Primitive(Timestamp)),
      "client" := Field(1, Primitive(String)),
      "facility" := Field(2, Primitive(Integer))])
  }

  /**
   * Any input holding the syslog test's ReceivedTimestamp, client and facility
   * values, whatever other keys it carries (the test's message has seven more:
   * content, hostname, priority, severity, tag, timestamp, tls_peer).
   */
  predicate SyslogMessage(m: map<string, Json>, facility: Float64)
  {
    && "ReceivedTimestamp" in m && m["ReceivedTimestamp"] == JStr(ReceivedAt)
    && "client" in m && m["client"] == JStr(Client)
    && "facility" in m && m["facility"] == JNum(facility)
  }

  /** The extra keys are skipped and the row is exactly [timestamp, client, facility], with no error. */
  lemma SimpleRow(ext: Foreign, t: Instant, m: map<string, Json>, facility: Float64, c: Cell)
    requires ext.parseTime(ReceivedAt) == Some(t)
    requires SyslogMessage(m, facility)
    requires Yields(ext, Nested(SimpleRecord()), JObj(m), c)
    ensures ErrorOf(ext, Nested(SimpleRecord()), JObj(m)) == None
    ensures c == ListVal([TimeVal(t), StrVal(Client), FloatVal(facility)])
  {
    var r := SimpleRecord();
    if c.ListVal? && |c.items| == 3 {
      ParserFacts.SoleWriter(ext, r, m, "ReceivedTimestamp", c.items[0]);
      ParserFacts.SoleWriter(ext, r, m, "client", c.items[1]);
      ParserFacts.SoleWriter(ext, r, m, "facility", c.items[2]);
    }
  }


  /** Message is a one-column record (Id) registered at slot 2 of the outer record. */
  function NestedRecord(): Record
  {
    Record(3, map[
      "SocketFamily" := Field(0, Primitive(Integer)),
      "SocketProtocol" := Field(1, Primitive(Integer)),
      "Message" := Field(2, Nested(Record(1, map["Id" := Field(0, Primitive(Integer))])))])
  }

  /**
   * Any input holding the dnstap test's SocketFamily, SocketProtocol and
   * Message.Id values, whatever other keys it and its Message carry (the
   * test's Message also has Response, Opcode, RecursionDesired, Rcode,
   * Question and Answer; the message itself a Timestamp).
   */
  predicate DnstapMessage(m: map<string, Json>, one: Float64, id: Float64)
  {
    && "SocketFamily" in m && m["SocketFamily"] == JNum(one)
    && "SocketProtocol" in m && m["SocketProtocol"] == JNum(one)
    && "Message" in m && m["Message"].JObj?
    && "Id" in m["Message"].members && m["Message"].members["Id"] == JNum(id)
  }

  /** The nested record produces its own one-slot row at slot 2: Message.Id lands at [2][0]. */
  lemma NestedRow(ext: Foreign, m: map<string, Json>, one: Float64, id: Float64, c: Cell)
    requires DnstapMessage(m, one, id)
    requires Yields(ext, Nested(NestedRecord()), JObj(m), c)
    ensures c == ListVal([FloatVal(one), FloatVal(one), ListVal([FloatVal(id)])])
  {
    var r := NestedRecord();
    ParserFacts.SoleWriter(ext, r, m, "SocketFamily", c.items[0]);
    ParserFacts.SoleWriter(ext, r, m, "SocketProtocol", c.items[1]);
    ParserFacts.SoleWriter(ext, r, m, "Message", c.items[2]);
    var inner := r.fields["Message"].parser.rec;
    var msg := m["Message"].members;
    assert RecordYields(ext, inner, JObj(msg), c.items[2]);
    ParserFacts.SoleWriter(ext, inner, msg, "Id", c.items[2].items[0]);
    assert c.items[2].items[0] == FloatVal(id);
    assert c.items[2] == ListVal([FloatVal(id)]);
    assert c.items[0] == FloatVal(one) && c.items[1] == FloatVal(one);
  }

}
