/**
 * The batching loop of Buffer.Stream, as a single-threaded state machine.
 *
 * Rows are appended to a batch whose storage (batchArray, capacity maxBatch)
 * is reused by every cycle. The first row of a cycle arms a ticker of period
 * maxDelay; the batch is handed to the inserter as soon as it is full or when
 * the ticker fires, whichever comes first. The ticker is stopped before the
 * insert, the insert's error is only logged, and the next cycle starts empty.
 *
 * The select over the row channel and the ticker channel becomes two events,
 * OnRow and OnTick. Stopping a ticker does not clear its channel, which the
 * loop keeps listening to, so a tick buffered before the stop can still be
 * received in the next cycle before any row: it flushes an empty batch. The
 * model allows that stale tick, at most once per stopped ticker.
 */
module Batching {
  import opened Parser
  import Compiler

  /** bigquery.ValuesSaver: one parsed row paired with the table schema. */
  datatype SavedRow = SavedRow(schema: seq<Compiler.Column>, row: seq<Cell>)

  /** What the loop does to the outside world: start a ticker, stop it, hand a batch to the inserter (which may fail). */
  datatype Effect = Arm | Stop | Put(rows: seq<SavedRow>, failed: bool)

  /**
   * The ticker behind the channel the loop listens to: none yet (a nil
   * channel, which never delivers), running, or stopped, where a stopped
   * ticker may still hold one tick sent before it was stopped.
   */
  datatype Ticker = Unarmed | Running | Stopped(mayHoldTick: bool)

  /**
   * cap(batch): maxBatch, except that a zero capacity makes append allocate
   * a one-slot array, so that every row then fills the batch alone.
   */
  function Capacity(maxBatch: nat): (c: nat)
    ensures 1 <= c
    ensures 0 < maxBatch ==> c == maxBatch
    ensures maxBatch == 0 ==> c == 1
  {
    if maxBatch == 0 then 1 else maxBatch
  }

  /** The batches handed to the inserter, in order. */
  function Batches(effects: seq<Effect>): (bs: seq<seq<SavedRow>>)
  {
    if effects == [] then []
    else
      var last := effects[|effects| - 1];
      Batches(effects[..|effects| - 1]) + (if last.Put? then [last.rows] else [])
  }

  /** All rows of a sequence of batches, in order. */
  function Flatten(bs: seq<seq<SavedRow>>): (rows: seq<SavedRow>)
  {
    if bs == [] then [] else Flatten(bs[..|bs| - 1]) + bs[|bs| - 1]
  }

  lemma {:induction false} BatchesAppend(a: seq<Effect>, b: seq<Effect>)
    ensures Batches(a + b) == Batches(a) + Batches(b)
    decreases |b|
  {
    if b != [] {
      var n := |b| - 1;
      assert (a + b)[..|a + b| - 1] == a + b[..n];
      BatchesAppend(a, b[..n]);
    } else {
      assert a + b == a;
    }
  }

  lemma {:induction false} FlattenAppend(a: seq<seq<SavedRow>>, b: seq<seq<SavedRow>>)
    ensures Flatten(a + b) == Flatten(a) + Flatten(b)
    decreases |b|
  {
    if b != [] {
      var n := |b| - 1;
      assert (a + b)[..|a + b| - 1] == a + b[..n];
      FlattenAppend(a, b[..n]);
    } else {
      assert a + b == a;
    }
  }

  /** Arming a ticker hands no batch over. */
  lemma ArmAccounts(effects: seq<Effect>)
    ensures Batches(effects + [Arm]) == Batches(effects)
  {
    assert (effects + [Arm])[..|effects|] == effects;
  }

  /** Stopping the ticker and handing a batch over adds exactly that batch to the handed-over ones. */
  lemma PutAppends(effects: seq<Effect>, batch: seq<SavedRow>, failed: bool)
    ensures Batches(effects + [Stop, Put(batch, failed)]) == Batches(effects) + [batch]
  {
    var e := effects + [Stop, Put(batch, failed)];
    assert e[..|e| - 1] == effects + [Stop];
    assert (effects + [Stop])[..|effects|] == effects;
  }

  /** Handing the pending batch over moves its rows from the pending batch to the handed-over ones. */
  lemma PutAccounts(effects: seq<Effect>, batch: seq<SavedRow>, failed: bool, received: seq<SavedRow>, capacity: nat)
    requires Flatten(Batches(effects)) + batch == received
    requires forall b | b in Batches(effects) :: |b| <= capacity
    requires |batch| <= capacity
    ensures Batches(effects + [Stop, Put(batch, failed)]) == Batches(effects) + [batch]
    ensures Flatten(Batches(effects + [Stop, Put(batch, failed)])) == received
    ensures forall b | b in Batches(effects + [Stop, Put(batch, failed)]) :: |b| <= capacity
  {
    PutAppends(effects, batch, failed);
    FlattenAppend(Batches(effects), [batch]);
    assert Flatten([batch]) == batch by {
      assert [batch][..0] == [];
    }
  }

  class Stream {
    const schema: seq<Compiler.Column>
    const maxBatch: nat
    /** The backing array every cycle's batch is re-sliced from. */
    const batchArray: array<SavedRow>
    /** len(batch) */
    var len: nat
    /** No row has arrived yet in this cycle. */
    var first: bool
    var ticker: Ticker
    /** Everything the loop has done to the outside world, in order. */
    ghost var effects: seq<Effect>
    /** Every row received, in order. */
    ghost var received: seq<SavedRow>

    /**
     * No row is lost, duplicated or reordered: the batches handed to the
     * inserter followed by the pending batch are exactly the rows received;
     * and no batch handed over exceeds the capacity.
     */
    ghost predicate Accounted()
      reads this, batchArray
    {
      && batchArray.Length == Capacity(maxBatch)
      && len <= batchArray.Length
      && Flatten(Batches(effects)) + batchArray[..len] == received
      && forall b | b in Batches(effects) :: |b| <= batchArray.Length
    }

    /** Between events the batch is never full, and a ticker runs exactly while the cycle has rows. */
    ghost predicate Valid()
      reads this, batchArray
    {
      && Accounted()
      && len < batchArray.Length
      && (first <==> len == 0)
      && (ticker == Running <==> !first)
    }

    /** The rows of the current cycle. */
    ghost function Batch(): seq<SavedRow>
      reads this, batchArray
      requires len <= batchArray.Length
    {
      batchArray[..len]
    }

    /** The channel the loop listens to can deliver a tick. */
    predicate CanTick()
      reads this
    {
      ticker == Running || ticker == Stopped(true)
    }

    constructor (schema: seq<Compiler.Column>, maxBatch: nat)
      ensures Valid() && fresh(batchArray)
      ensures this.schema == schema && this.maxBatch == maxBatch
      ensures Batch() == [] && first && ticker == Unarmed
      ensures effects == [] && received == []
    {
      this.schema := schema;
      this.maxBatch := maxBatch;
      batchArray := new SavedRow[Capacity(maxBatch)](_ => SavedRow([], []));
      len := 0;
      first := true;
      ticker := Unarmed;
      effects := [];
      received := [];
    }

    /** Stop the ticker, hand the batch to the inserter, log its error if any, and start a new cycle. */
    method Flush(sinkFails: bool)
      requires Accounted() && ticker != Unarmed
      modifies this
      ensures Accounted()
      ensures effects == old(effects) + [Stop, Put(old(Batch()), sinkFails)]
      ensures len == 0 && first && received == old(received)
      ensures ticker == Stopped(old(ticker) == Running)
    {
      var batch := batchArray[..len];
      ticker := Stopped(ticker == Running);
      PutAccounts(effects, batch, sinkFails, received, batchArray.Length);
      effects := effects + [Stop, Put(batch, sinkFails)];
      len := 0;
      first := true;
    }

    /** The first row of a cycle starts a ticker. */
    method StartTicker()
      requires Valid() && first
      modifies this`ticker, this`effects, this`first
      ensures Accounted() && len == 0 && len < batchArray.Length
      ensures effects == old(effects) + [Arm]
      ensures ticker == Running && !first
    {
      ticker := Running;
      ArmAccounts(effects);
      effects := effects + [Arm];
      first := false;
    }

    /** batch = append(batch, saved), into the reused backing array. */
    method Append(saved: SavedRow)
      requires Accounted() && len < batchArray.Length
      modifies this`len, this`received, batchArray
      ensures Accounted()
      ensures Batch() == old(Batch()) + [saved]
      ensures received == old(received) + [saved]
    {
      ghost var pending := batchArray[..len];
      ghost var done := Flatten(Batches(effects));
      batchArray[len] := saved;
      assert batchArray[..len + 1] == pending + [saved];
      len := len + 1;
      received := received + [saved];
      assert done + (pending + [saved]) == received;
    }

    /** A row arrives on the channel. */
    method OnRow(row: seq<Cell>, sinkFails: bool)
      requires Valid()
      modifies this, batchArray
      ensures Valid()
      ensures received == old(received) + [SavedRow(schema, row)]
      ensures var added := old(Batch()) + [SavedRow(schema, row)];
              var armed := if old(first) then [Arm] else [];
              if |added| == batchArray.Length then
                && effects == old(effects) + armed + [Stop, Put(added, sinkFails)]
                && Batch() == [] && first && ticker == Stopped(true)
              else
                && effects == old(effects) + armed
                && Batch() == added && !first && ticker == Running
    {
      if first {
        StartTicker();
      }
      Append(SavedRow(schema, row));
      if len < batchArray.Length {
        return;
      }
      Flush(sinkFails);
    }

    /** The ticker's channel delivers a tick, if it can; otherwise the loop keeps waiting and nothing happens. */
    method OnTick(sinkFails: bool)
      requires Valid()
      modifies this
      ensures Valid()
      ensures received == old(received)
      ensures old(ticker) == Running ==> 0 < |old(Batch())| < batchArray.Length
      ensures old(ticker) == Stopped(true) ==> old(Batch()) == []
      ensures old(CanTick()) ==>
                && effects == old(effects) + [Stop, Put(old(Batch()), sinkFails)]
                && Batch() == [] && first && ticker == Stopped(old(ticker) == Running)
      ensures !old(CanTick()) ==> unchanged(this)
    {
      if !CanTick() {
        return;
      }
      Flush(sinkFails);
    }
  }

  /** Capacity 3: two rows and then the deadline give one insert of exactly those two rows. */
  method DeadlineScenario(schema: seq<Compiler.Column>, r1: seq<Cell>, r2: seq<Cell>)
  {
    var s := new Stream(schema, 3);
    s.OnRow(r1, false);
    assert s.effects == [Arm] && s.Batch() == [SavedRow(schema, r1)];
    s.OnRow(r2, false);
    assert s.effects == [Arm] && s.Batch() == [SavedRow(schema, r1), SavedRow(schema, r2)];
    s.OnTick(true);
    assert s.effects == [Arm, Stop, Put([SavedRow(schema, r1), SavedRow(schema, r2)], true)];
    s.OnTick(false);
    assert s.Batch() == [] && s.first;
  }

  /** Capacity 3: a third row fills the batch and hands it over at once, stopping the ticker first. */
  method FullBatchScenario(schema: seq<Compiler.Column>, r1: seq<Cell>, r2: seq<Cell>, r3: seq<Cell>, r4: seq<Cell>)
  {
    var s := new Stream(schema, 3);
    s.OnRow(r1, false);
    assert s.effects == [Arm] && s.Batch() == [SavedRow(schema, r1)];
    s.OnRow(r2, false);
    assert s.effects == [Arm] && s.Batch() == [SavedRow(schema, r1), SavedRow(schema, r2)];
    assert s.batchArray.Length == 3 && !s.first;
    assert [SavedRow(schema, r1), SavedRow(schema, r2)] + [SavedRow(schema, r3)]
        == [SavedRow(schema, r1), SavedRow(schema, r2), SavedRow(schema, r3)];
    s.OnRow(r3, false);
    assert s.effects == [Arm, Stop, Put([SavedRow(schema, r1), SavedRow(schema, r2), SavedRow(schema, r3)], false)];
    s.OnRow(r4, false);
    assert s.effects[3] == Arm && s.Batch() == [SavedRow(schema, r4)];
  }
}
