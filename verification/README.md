# Price-tracking session engine, modelled in Dafny

This project models the core of the binary price-tracking service in
`p2/rust/src/main.rs`. A client opens a TCP connection and sends fixed 9-byte
frames. Each frame is a tag byte followed by two signed big-endian 32-bit
integers. An `I` frame records a price at a timestamp in the session's own
storage. A `Q` frame asks for the mean price over an inclusive timestamp
range; the session answers with one big-endian `i32`. Any other tag aborts
the session. A frame that can no longer be read in full ends it.

The model has four modules, one per component of the engine:

- `Int32` (`int32.dfy`): `i32` and byte as subset types of `int`. It holds
  Rust's truncating `/` as `DivTrunc`. It also holds the big-endian two's
  complement layout that `read_i32` decodes (`FromBigEndian`) and `write_i32`
  encodes (`ToBigEndian`), with round-trip lemmas in both directions.
- `FrameCodec` (`frame_codec.dfy`): `read_u8`, `read_i32` and `read_message`
  as functions over the bytes still to be read. Each returns what it decoded
  and the remaining bytes, or `UnexpectedEof`. A frame encoder
  (`EncodeFrame`) is the decoder's partner: decoding an encoded frame gives
  the frame back, and a successful decode consumed exactly the encoding of
  what it returned.
- `PriceQuery` (`price_query.dfy`): `PricePoint`, `QueryRange` and the session
  storage as a class `PriceStorage`, whose `Insert` is `handle_insert`.
  `AvgQuery` is `handle_avg_query`, written as the same filter-then-fold
  chain. It is proved against reference definitions of the matching count
  and sum (`MatchCount`, `MatchSum`). Lemmas give the mean's properties:
  inclusive bounds, zero on no match, bounds on the result, and independence
  from insertion order.
- `Session` (`session.dfy`): `HandleSession` is the dispatch loop of
  `handle_session`. It allocates a fresh `PriceStorage`, then reads one frame
  per iteration and appends each query's response to its output. It is proved
  equal to `Run`. `Run` is a recursive reference function that gives the
  final storage, the bytes written and how the session ended. Lemmas about
  `Run` state what one `I`, `Q` or unknown frame does to a session and what a
  short input does. Further lemmas show that storage and output only grow at
  their ends.

Four places where the code's behaviour is easy to mistake, and which the
model follows as written:

- The fold accumulator in `handle_avg_query` is a pair of `i32`, not a
  widened 64-bit sum (lines 46-47). The model keeps every intermediate
  count and sum inside `i32` as a precondition (`AccumulatorFits`).
- An unknown tag makes the session task `panic!` (line 133). It is not a
  graceful close. The model ends the session as `Panicked(tag)`, with no
  response and nothing further read.
- A clean end of stream and a frame cut off in the middle are not told
  apart (lines 65-68 and 137-140). Both make `read_message` fail, and the
  loop breaks. The model ends the session as `Closed` in both cases.
- The tag is checked only after all nine bytes are read. So a bad tag
  followed by fewer than eight bytes ends the session as `Closed`, not
  `Panicked`.

## Model

| member | source | states |
|---|---|---|
| `Int32.DivTrunc` | p2/rust/src/main.rs:53 | Rust's `i32` division by a positive count: the quotient has the sign of the dividend and is never farther from zero than it |
| `Int32.DivTruncRemainder` | p2/rust/src/main.rs:53 | the remainder left by the quotient has the dividend's sign and is smaller than the divisor: truncation toward zero, not Euclidean division |
| `Int32.DivTruncUnique` | p2/rust/src/main.rs:53 | any quotient leaving such a remainder is the truncated one, so the remainder conditions define the division |
| `Int32.DivTruncBetween` | p2/rust/src/main.rs:46-54 | a truncated quotient of a sum of `d` values in `[lo, hi]` by `d` lies in `[lo, hi]` |
| `Int32.ToBigEndian` | p2/rust/src/main.rs:123-126 | `write_i32` writes four bytes, and the top bit of the first is set exactly for negative values |
| `Int32.FromBigEndian` | p2/rust/src/main.rs:62-63 | `read_i32` reads four bytes as two's complement: negative exactly when the first byte's top bit is set |
| `Int32.FromToBigEndian` | p2/rust/src/main.rs:62-63 | reading what `write_i32` wrote gives back every `i32`, extremes included |
| `Int32.ToFromBigEndian` | p2/rust/src/main.rs:62-63 | every four bytes are the encoding of the `i32` read from them |
| `FrameCodec.ReadU8` | p2/rust/src/main.rs:61 | fails exactly on an empty stream; otherwise returns the first byte and the rest |
| `FrameCodec.ReadI32` | p2/rust/src/main.rs:62-63 | fails exactly when fewer than four bytes remain; otherwise the value read, re-encoded, is the four bytes consumed |
| `FrameCodec.ReadMessage` | p2/rust/src/main.rs:57-70 | fails exactly when fewer than nine bytes remain, zero included; on success it consumes exactly nine |
| `FrameCodec.ReadMessageConsumesEncoding` | p2/rust/src/main.rs:57-70 | the frame decoded from at least nine bytes, re-encoded, is exactly those first nine bytes (tag, field 1, field 2) |
| `FrameCodec.EncodeFrame` | p2/rust/src/main.rs:61-63 | a frame is nine bytes, and the first is the tag |
| `FrameCodec.DecodeEncodeFrame` | p2/rust/src/main.rs:57-70 | decoding an encoded frame followed by any bytes returns that frame and exactly those bytes |
| `FrameCodec.EncodeFrameInjective` | p2/rust/src/main.rs:61-69 | distinct frames have distinct encodings |
| `FrameCodec.ParseQueryFrame` | p2/rust/src/main.rs:198-209 | the bytes `51 00 00 00 01 00 00 00 02` decode as `('Q', 1, 2)` with nothing left |
| `PriceQuery.PriceStorage.constructor` | p2/rust/src/main.rs:99 | a session's storage starts empty |
| `PriceQuery.PriceStorage.Insert` | p2/rust/src/main.rs:29-31 | appends exactly the given point at the end: length grows by one and every earlier point is unchanged |
| `PriceQuery.Filter` | p2/rust/src/main.rs:43-45 | every point kept has `start <= timestamp <= end`; the number kept and their price total are the reference count and sum |
| `PriceQuery.FilterKeepsMatching` | p2/rust/src/main.rs:43-45 | the points kept are exactly the stored points in range, each as many times as it is stored, and no other point |
| `PriceQuery.FilterAppend` | p2/rust/src/main.rs:43-45 | filtering keeps storage order: filtering two runs of inserts is filtering each and concatenating |
| `PriceQuery.FilterSingle` | p2/rust/src/main.rs:45 | a single point is kept exactly when its timestamp is in range; with `FilterAppend` this fixes the filtered sequence for every storage |
| `PriceQuery.Fold` | p2/rust/src/main.rs:46-48 | the fold adds the number of points to the count and their prices to the sum, and stays in `i32` when every step does |
| `PriceQuery.AvgQuery` | p2/rust/src/main.rs:38-55 | 0 for `start > end` whatever is stored; 0 when nothing matches; otherwise the matching prices' sum divided by their count, truncated toward zero |
| `PriceQuery.MatchAppend` | p2/rust/src/main.rs:43-48 | count and sum over two runs of inserts are the totals of each run |
| `PriceQuery.MatchContribution` | p2/rust/src/main.rs:45 | a stored point adds one to the count and its price to the sum exactly when its timestamp is in range |
| `PriceQuery.BoundsInclusive` | p2/rust/src/main.rs:45 | a point stamped exactly `start` or exactly `end` is counted and its price summed |
| `PriceQuery.NoMatch` | p2/rust/src/main.rs:45-51 | the count is zero exactly when no stored timestamp lies in the range |
| `PriceQuery.AvgQueryNoMatch` | p2/rust/src/main.rs:49-51 | with no stored timestamp in range, an empty storage included, the mean is 0 |
| `PriceQuery.MatchSumBetween` | p2/rust/src/main.rs:46-48 | with every matching price in `[lo, hi]`, the sum lies between count times `lo` and count times `hi` |
| `PriceQuery.MeanWithinPriceRange` | p2/rust/src/main.rs:46-54 | a non-empty mean lies between the smallest and largest matching price |
| `PriceQuery.MatchIgnoresOrder` | p2/rust/src/main.rs:43-48 | count and sum depend only on the multiset of stored points |
| `PriceQuery.MeanIgnoresInsertionOrder` | p2/rust/src/main.rs:38-55 | two storages holding the same points in any order answer every query alike |
| `PriceQuery.ExampleInclusiveOnEdges` | p2/rust/src/main.rs:230-237 | points (1, 100) and (0, 0), range [0, 1]: mean 50 |
| `PriceQuery.ExampleIgnoreOutsideRange` | p2/rust/src/main.rs:239-246 | points (1, 100) and (2, 0), range [0, 1]: mean 100 |
| `PriceQuery.ExampleHappyPath` | p2/rust/src/main.rs:248-257 | prices 1 to 4 at times 1 to 4, range [0, 4]: mean 2 |
| `PriceQuery.ExampleFractional` | p2/rust/src/main.rs:259-267 | prices 1, 2, 2, range [0, 2]: mean 1 |
| `PriceQuery.ExampleFractionalNegative` | p2/rust/src/main.rs:269-277 | prices -1, -2, -2, range [0, 2]: mean -1, truncated toward zero |
| `PriceQuery.ExampleNoInserts` | p2/rust/src/main.rs:279-284 | empty storage: mean 0 |
| `PriceQuery.ExampleNoElementsInRange` | p2/rust/src/main.rs:286-299 | no timestamp in [100, 2000]: mean 0 |
| `PriceQuery.ExampleInvertedRange` | p2/rust/src/main.rs:301-308 | range [200, 1]: mean 0 |
| `Session.Run` | p2/rust/src/main.rs:101-142 | the reference session, frame by frame: the final storage, every byte written and how the session ended (no contract of its own; the lemmas below state its properties) |
| `Session.HandleSession` | p2/rust/src/main.rs:98-143 | the loop over a fresh storage writes exactly the output `Run` gives for the whole input and ends the same way |
| `Session.InsertFrame` | p2/rust/src/main.rs:106-111 | an `I` frame appends `(field1, field2)` to the storage and writes nothing |
| `Session.QueryFrame` | p2/rust/src/main.rs:112-127 | a `Q` frame leaves the storage unchanged and writes exactly four bytes, which read back as the mean over the storage as it stands at that frame |
| `Session.UnknownTagFrame` | p2/rust/src/main.rs:128-134 | any other tag ends the session as `Panicked` with no response and nothing after it read |
| `Session.ShortInputCloses` | p2/rust/src/main.rs:137-140 | fewer than nine bytes, none included, ends the session as `Closed` with storage and output as they were |
| `Session.StorageOnlyGrows` | p2/rust/src/main.rs:99-111 | over a whole session the storage only grows at its end: no point is changed or removed |
| `Session.OutputOnlyGrows` | p2/rust/src/main.rs:112-127 | over a whole session the output only grows at its end: responses are never reordered or taken back |
| `Session.InsertInsertQuery` | p2/rust/src/main.rs:101-143 | two `I` frames then a `Q` frame: the one response is the mean over both points, then the session closes |
| `Session.ExampleInsertInsertQuery` | p2/rust/src/main.rs:101-143 | frames `I(0, 100)`, `I(1, 0)`, `Q(0, 10)`: the session writes `00 00 00 32` (50) and closes |
| `Session.ExampleUnknownTag` | p2/rust/src/main.rs:128-134 | a first frame tagged `X` (0x58): nothing is written and the session aborts |

## Left out

- The listener `serve` (p2/rust/src/main.rs:75-96) is not modelled: the TCP bind, the accept loop, `tokio::spawn` and the readiness signal. This is network I/O and task concurrency. What the model keeps is that every session starts from a fresh, unshared storage: `HandleSession` allocates its own `PriceStorage`.
- `setup_tracing`, `main` and all `info!`/`error!` logging are not modelled. They are library configuration with no behaviour to verify.
- Async reads and writes are modelled as a finite byte sequence. `HandleSession` sees the whole input the client sends before it closes. Waiting for more bytes is not modelled. A failed `write_i32` (whose `expect` panics, line 126) is not modelled.
- AvgQuery: requires that every intermediate count and sum of its fold fits in `i32` (`AccumulatorFits`). Rust's behaviour past that point is not modelled: a panic in debug builds, wrap-around in release builds.
- HandleSession: requires `QueriesFit`, the same no-overflow condition for every query in the input, evaluated against the storage as it stands at that query.
- The echo service (p0/rust/src/main.rs) and the JSON prime-check service (p1/rust/src/main.rs) are not part of this model. They are socket I/O, and p1 depends on JSON and prime-testing libraries whose code is not available.
