/** One client session of the price-tracking service: read a frame, insert
    on `I`, answer a mean on `Q`, abort on any other tag, and end when a
    frame can no longer be read. The connection's input is the sequence of
    bytes the client sends; its output is the bytes the session writes back.
    Every session starts from an empty storage of its own. */
module Session {
  import opened Int32
  import opened FrameCodec
  import opened PriceQuery

  /** How a session ends: `Closed` when reading a frame fails (the loop
      breaks, whether the client stopped cleanly between frames or in the
      middle of one); `Panicked` when a frame carries a tag other than `I` or
      `Q` (the session task panics). */
  datatype SessionEnd = Closed | Panicked(tag: Latin1)

  /** What a session leaves behind: its storage when it ended, every byte it
      wrote, and how it ended. */
  datatype Transcript = Transcript(storage: seq<PricePoint>, output: seq<Byte>, end: SessionEnd)

  function InsertedPoint(m: Message): PricePoint {
    PricePoint(m.field1, m.field2)
  }

  function QueriedRange(m: Message): QueryRange {
    QueryRange(m.field1, m.field2)
  }

  /** No query the session will answer, from this storage on, overflows the
      i32 accumulator of its fold. */
  predicate QueriesFit(input: seq<Byte>, storage: seq<PricePoint>)
    decreases |input|
  {
    match ReadMessage(input)
    case Failure(_) => true
    case Success((m, rest)) =>
      if m.kind == 'I' then QueriesFit(rest, storage + [InsertedPoint(m)])
      else if m.kind == 'Q' then
        (m.field1 <= m.field2 ==> AccumulatorFits(storage, QueriedRange(m))) && QueriesFit(rest, storage)
      else true
  }

  /** The session's behaviour on the bytes still to be read, from a given
      storage and with `written` already sent to the client: the reference
      the dispatch loop is proved against. */
  function Run(input: seq<Byte>, storage: seq<PricePoint>, written: seq<Byte>): Transcript
    requires QueriesFit(input, storage)
    decreases |input|
  {
    match ReadMessage(input)
    case Failure(_) => Transcript(storage, written, Closed)
    case Success((m, rest)) =>
      if m.kind == 'I' then Run(rest, storage + [InsertedPoint(m)], written)
      else if m.kind == 'Q' then Run(rest, storage, written + ToBigEndian(AvgQuery(storage, QueriedRange(m))))
      else Transcript(storage, written, Panicked(m.kind))
  }

  /** `handle_session`: a fresh storage, then a loop that decodes one frame
      at a time and dispatches on its tag. */
  method HandleSession(input: seq<Byte>) returns (output: seq<Byte>, end: SessionEnd)
    requires QueriesFit(input, [])
    ensures output == Run(input, [], []).output
    ensures end == Run(input, [], []).end
  {
    var storage := new PriceStorage();
    var remaining := input;
    output := [];
    while true
      invariant QueriesFit(remaining, storage.points)
      invariant Run(remaining, storage.points, output) == Run(input, [], [])
      decreases |remaining|
    {
      var messageResult := ReadMessage(remaining);
      match messageResult
      case Failure(_) =>
        end := Closed;
        return;
      case Success((m, rest)) =>
        if m.kind == 'I' {
          storage.Insert(PricePoint(m.field1, m.field2));
        } else if m.kind == 'Q' {
          var ret := AvgQuery(storage.points, QueryRange(m.field1, m.field2));
          output := output + ToBigEndian(ret);
        } else {
          end := Panicked(m.kind);
          return;
        }
        remaining := rest;
    }
  }

  // ---- Properties of a session

  // ---- Run, one frame at a time

  lemma RunOnInsert(input: seq<Byte>, storage: seq<PricePoint>, written: seq<Byte>, m: Message, rest: seq<Byte>)
    requires ReadMessage(input) == Success((m, rest)) && m.kind == 'I'
    requires QueriesFit(rest, storage + [InsertedPoint(m)])
    ensures QueriesFit(input, storage)
    ensures Run(input, storage, written) == Run(rest, storage + [InsertedPoint(m)], written)
  {
  }

  lemma RunOnQuery(input: seq<Byte>, storage: seq<PricePoint>, written: seq<Byte>, m: Message, rest: seq<Byte>)
    requires ReadMessage(input) == Success((m, rest)) && m.kind == 'Q'
    requires m.field1 <= m.field2 ==> AccumulatorFits(storage, QueriedRange(m))
    requires QueriesFit(rest, storage)
    ensures QueriesFit(input, storage)
    ensures Run(input, storage, written) == Run(rest, storage, written + ToBigEndian(AvgQuery(storage, QueriedRange(m))))
  {
  }

  /** An `I` frame appends its (timestamp, price) point to the storage and
      writes nothing; the session goes on with the next frame. */
  lemma InsertFrame(m: Message, rest: seq<Byte>, storage: seq<PricePoint>, written: seq<Byte>)
    requires m.kind == 'I'
    requires QueriesFit(rest, storage + [PricePoint(m.field1, m.field2)])
    ensures QueriesFit(EncodeFrame(m) + rest, storage)
    ensures Run(EncodeFrame(m) + rest, storage, written)
         == Run(rest, storage + [PricePoint(m.field1, m.field2)], written)
  {
    DecodeEncodeFrame(m, rest);
  }

  /** A `Q` frame leaves the storage as it is and writes exactly four bytes,
      which read back as the mean over the storage as it stands at that
      frame; the session goes on with the next frame. */
  lemma QueryFrame(m: Message, rest: seq<Byte>, storage: seq<PricePoint>, written: seq<Byte>)
    requires m.kind == 'Q'
    requires m.field1 <= m.field2 ==> AccumulatorFits(storage, QueryRange(m.field1, m.field2))
    requires QueriesFit(rest, storage)
    ensures QueriesFit(EncodeFrame(m) + rest, storage)
    ensures Run(EncodeFrame(m) + rest, storage, written)
         == Run(rest, storage, written + ToBigEndian(AvgQuery(storage, QueryRange(m.field1, m.field2))))
    ensures FromBigEndian(ToBigEndian(AvgQuery(storage, QueryRange(m.field1, m.field2))))
         == AvgQuery(storage, QueryRange(m.field1, m.field2))
  {
    DecodeEncodeFrame(m, rest);
    FromToBigEndian(AvgQuery(storage, QueryRange(m.field1, m.field2)));
  }

  /** A frame whose tag is neither `I` nor `Q` ends the session on the spot:
      no response for it, and nothing after it is read. */
  lemma UnknownTagFrame(m: Message, rest: seq<Byte>, storage: seq<PricePoint>, written: seq<Byte>)
    requires m.kind != 'I' && m.kind != 'Q'
    ensures QueriesFit(EncodeFrame(m) + rest, storage)
    ensures Run(EncodeFrame(m) + rest, storage, written) == Transcript(storage, written, Panicked(m.kind))
  {
    DecodeEncodeFrame(m, rest);
  }

  /** Fewer than nine bytes left, none included, ends the session normally:
      a clean end of stream and a frame cut short are handled alike. */
  lemma ShortInputCloses(input: seq<Byte>, storage: seq<PricePoint>, written: seq<Byte>)
    requires |input| < FRAME_SIZE
    ensures QueriesFit(input, storage)
    ensures Run(input, storage, written) == Transcript(storage, written, Closed)
  {
  }

  /** Over a whole session the storage only grows, at its end: no point is
      ever changed or removed. */
  lemma {:induction false} StorageOnlyGrows(input: seq<Byte>, storage: seq<PricePoint>, written: seq<Byte>)
    requires QueriesFit(input, storage)
    ensures |storage| <= |Run(input, storage, written).storage|
    ensures Run(input, storage, written).storage[..|storage|] == storage
    decreases |input|
  {
    var r := ReadMessage(input);
    if r.Success? {
      var m, rest := r.value.0, r.value.1;
      if m.kind == 'I' {
        var storage' := storage + [InsertedPoint(m)];
        RunOnInsert(input, storage, written, m, rest);
        StorageOnlyGrows(rest, storage', written);
        var final := Run(rest, storage', written).storage;
        assert final[..|storage|] == final[..|storage'|][..|storage|];
      } else if m.kind == 'Q' {
        RunOnQuery(input, storage, written, m, rest);
        StorageOnlyGrows(rest, storage, written + ToBigEndian(AvgQuery(storage, QueriedRange(m))));
      }
    }
  }

  /** Over a whole session the output only grows, at its end: a response once
      written is never taken back or reordered. */
  lemma {:induction false} OutputOnlyGrows(input: seq<Byte>, storage: seq<PricePoint>, written: seq<Byte>)
    requires QueriesFit(input, storage)
    ensures |written| <= |Run(input, storage, written).output|
    ensures Run(input, storage, written).output[..|written|] == written
    decreases |input|
  {
    var r := ReadMessage(input);
    if r.Success? {
      var m, rest := r.value.0, r.value.1;
      if m.kind == 'I' {
        RunOnInsert(input, storage, written, m, rest);
        OutputOnlyGrows(rest, storage + [InsertedPoint(m)], written);
      } else if m.kind == 'Q' {
        var written' := written + ToBigEndian(AvgQuery(storage, QueriedRange(m)));
        RunOnQuery(input, storage, written, m, rest);
        OutputOnlyGrows(rest, storage, written');
        var final := Run(rest, storage, written').output;
        assert final[..|written|] == final[..|written'|][..|written|];
      }
    }
  }

  /** Two inserts and then a query, as frames on the wire: the one response
      is the mean over both points, and the session then closes. */
  lemma InsertInsertQuery(p1: PricePoint, p2: PricePoint, range: QueryRange)
    requires range.start <= range.end ==> AccumulatorFits([p1, p2], range)
    ensures var input := EncodeFrame(Message('I', p1.timestamp, p1.price))
                         + EncodeFrame(Message('I', p2.timestamp, p2.price))
                         + EncodeFrame(Message('Q', range.start, range.end));
            && QueriesFit(input, [])
            && Run(input, [], []) == Transcript([p1, p2], ToBigEndian(AvgQuery([p1, p2], range)), Closed)
  {
    var i1 := Message('I', p1.timestamp, p1.price);
    var i2 := Message('I', p2.timestamp, p2.price);
    var q := Message('Q', range.start, range.end);
    var f1, f2, f3 := EncodeFrame(i1), EncodeFrame(i2), EncodeFrame(q);
    var answer := ToBigEndian(AvgQuery([p1, p2], range));
    assert f1 + f2 + f3 == f1 + (f2 + f3);
    assert f3 == f3 + [];
    assert [] + [p1] == [p1] && [p1] + [p2] == [p1, p2];
    ShortInputCloses([], [p1, p2], answer);
    QueryFrame(q, [], [p1, p2], []);
    InsertFrame(i2, f3, [p1], []);
    InsertFrame(i1, f2 + f3, [], []);
  }

  /** Two inserts and a query over the wire: points (0, 100) and (1, 0),
      then the mean over [0, 10], answered as the four bytes of 50. */
  lemma ExampleInsertInsertQuery()
    ensures var input := EncodeFrame(Message('I', 0, 100)) + EncodeFrame(Message('I', 1, 0))
                         + EncodeFrame(Message('Q', 0, 10));
            && QueriesFit(input, [])
            && Run(input, [], []).output == [0, 0, 0, 50]
            && Run(input, [], []).end == Closed
  {
    MeanOfExample();
    InsertInsertQuery(PricePoint(0, 100), PricePoint(1, 0), QueryRange(0, 10));
  }

  lemma MeanOfExample()
    ensures var both := [PricePoint(0, 100), PricePoint(1, 0)];
            AccumulatorFits(both, QueryRange(0, 10)) && AvgQuery(both, QueryRange(0, 10)) == 50
            && ToBigEndian(50) == [0, 0, 0, 50]
  {
  }

  /** A frame tagged `X` (0x58) as the first frame: the session aborts
      without writing anything. */
  lemma ExampleUnknownTag(field1: I32, field2: I32, rest: seq<Byte>)
    ensures var input := EncodeFrame(Message('X', field1, field2)) + rest;
            QueriesFit(input, []) && Run(input, [], []) == Transcript([], [], Panicked('X'))
  {
    UnknownTagFrame(Message('X', field1, field2), rest, [], []);
  }
}
