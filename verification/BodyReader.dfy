/**
 The two readers of a response body: the buffered loop, and the stream that reports progress.
 Both cap what they keep at `limit` bytes; what they compute is stated about the bytes received.
 */
module BodyReader {
  import opened Base

  type Bytes = seq<byte>

  /**
   One item of the upstream body stream. An error has a text with the URL in it and one without;
   the streaming reader reports the former, the buffered one the latter.
   */
  datatype Item = Chunk(bytes: Bytes) | Failed(message: string, withoutUrl: string)

  datatype Body = Body(bytes: Bytes, truncated: bool)

  function Min(a: nat, b: nat): nat {
    if a < b then a else b
  }

  function Concat(chunks: seq<Bytes>): Bytes {
    if chunks == [] then [] else Concat(chunks[..|chunks| - 1]) + chunks[|chunks| - 1]
  }

  /** The chunks before the first failure. */
  function Good(items: seq<Item>): seq<Bytes> {
    if items == [] || items[0].Failed? then [] else [items[0].bytes] + Good(items[1..])
  }

  predicate Fails(items: seq<Item>) {
    exists i :: 0 <= i < |items| && items[i].Failed?
  }

  const READ_FAILED := "HTTP body read failed: "

  /** The first failure comes right after the good chunks. */
  lemma {:induction false} FirstFailure(items: seq<Item>)
    ensures Fails(items) ==> |Good(items)| < |items| && items[|Good(items)|].Failed?
    ensures !Fails(items) ==> |Good(items)| == |items|
  {
    if items != [] && items[0].Chunk? {
      FailsTail(items);
      FirstFailure(items[1..]);
    }
  }

  /** The first `limit` bytes of what was received. */
  function Capped(limit: nat, chunks: seq<Bytes>): Bytes {
    Concat(chunks)[..Min(limit, |Concat(chunks)|)]
  }

  /**
   The flag: the body over-ran the cap, or the last chunk came when the buffer was already full
   (which an empty chunk can do without over-running).
   */
  predicate Flagged(limit: nat, chunks: seq<Bytes>) {
    chunks != [] &&
    (|Concat(chunks)| > limit || |Concat(chunks[..|chunks| - 1])| >= limit)
  }

  /** What a reader holds after these chunks. */
  function Reading(limit: nat, chunks: seq<Bytes>): (r: Body)
    ensures |r.bytes| <= limit
  {
    Body(Capped(limit, chunks), Flagged(limit, chunks))
  }

  /** What one more chunk does to the buffer and the flag, in both readers. */
  function Absorb(limit: nat, b: Body, chunk: Bytes): Body
    requires |b.bytes| <= limit
  {
    if |b.bytes| >= limit then b.(truncated := true)
    else if |chunk| > limit - |b.bytes| then Body(b.bytes + chunk[..limit - |b.bytes|], true)
    else b.(bytes := b.bytes + chunk)
  }

  lemma AbsorbReads(limit: nat, chunks: seq<Bytes>, chunk: Bytes)
    ensures Absorb(limit, Reading(limit, chunks), chunk) == Reading(limit, chunks + [chunk])
  {
    var all := chunks + [chunk];
    assert all[..|all| - 1] == chunks;
    if chunks != [] {
      assert Concat(chunks) == Concat(chunks[..|chunks| - 1]) + chunks[|chunks| - 1];
    }
    var c := Concat(chunks);
    if |c| < limit {
      assert Capped(limit, chunks) == c;
      if |chunk| > limit - |c| {
        assert (c + chunk)[..limit] == c + chunk[..limit - |c|];
      } else {
        assert (c + chunk)[..|c + chunk|] == c + chunk;
      }
    } else {
      assert (c + chunk)[..limit] == c[..limit];
    }
  }

  lemma GoodSnoc(items: seq<Item>, n: nat)
    requires n < |items| && !Fails(items[..n])
    ensures items[n].Chunk? ==> Good(items[..n + 1]) == Good(items[..n]) + [items[n].bytes]
    ensures items[n].Failed? ==> Good(items) == Good(items[..n])
  {
    if n == 0 {
      assert items[..1][1..] == [];
    } else {
      assert items[..n][0] == items[0];
      assert items[..n + 1][1..] == items[1..][..n] && items[..n][1..] == items[1..][..n - 1];
      var front := items[1..][..n - 1];
      forall i | 0 <= i < |front| ensures !front[i].Failed? {
        assert front[i] == items[..n][i + 1];
      }
      GoodSnoc(items[1..], n - 1);
    }
  }

  /** One pass of the buffered loop over a good chunk. */
  lemma NextChunk(limit: nat, items: seq<Item>, n: nat)
    requires n < |items| && !Fails(items[..n]) && items[n].Chunk?
    ensures !Fails(items[..n + 1])
    ensures Absorb(limit, Reading(limit, Good(items[..n])), items[n].bytes)
         == Reading(limit, Good(items[..n + 1]))
  {
    GoodSnoc(items, n);
    AbsorbReads(limit, Good(items[..n]), items[n].bytes);
    assert items[..n + 1] == items[..n] + [items[n]];
  }

  /** `read_response_with_limit`. */
  method ReadResponseWithLimit(items: seq<Item>, limit: nat) returns (r: Result<Body, string>)
    ensures r.Err? <==> Fails(items)
    ensures r.Err? ==> |Good(items)| < |items| && items[|Good(items)|].Failed?
                       && r.error == "HTTP body read failed: " + items[|Good(items)|].withoutUrl
    ensures r.Ok? ==> r.value == Reading(limit, Good(items))
  {
    var buf: Bytes := [];
    var truncated := false;
    for i := 0 to |items|
      invariant !Fails(items[..i])
      invariant Body(buf, truncated) == Reading(limit, Good(items[..i]))
    {
      if items[i].Failed? {
        FirstFailure(items[..i]);
        GoodSnoc(items, i);
        return Err(READ_FAILED + items[i].withoutUrl);
      }
      var chunk := items[i].bytes;
      NextChunk(limit, items, i);
      if |buf| >= limit {
        truncated := true;
        continue;
      }
      var remaining := limit - |buf|;
      if |chunk| > remaining {
        buf := buf + chunk[..remaining];
        truncated := true;
      } else {
        buf := buf + chunk;
      }
    }
    assert items[..|items|] == items;
    r := Ok(Body(buf, truncated));
  }

  // ----- the streaming reader -----

  datatype Step = Progress(cumulative: nat) | Done(body: Body)

  /** The state the stream is unfolded from. */
  datatype StreamState =
    | Receiving(inner: seq<Item>, body: Body, doneEmitted: bool)
    | Finished

  ghost predicate StateOk(limit: nat, s: StreamState) {
    s.Receiving? ==> |s.body.bytes| <= limit
  }

  /** One poll: the item yielded, if any, and the next state. */
  function Poll(limit: nat, s: StreamState): (Option<Result<Step, string>>, StreamState)
    requires StateOk(limit, s)
  {
    if s.Finished? || s.doneEmitted then (None, s)
    else if s.inner == [] then (Some(Ok(Done(s.body))), Receiving([], Body([], s.body.truncated), true))
    else match s.inner[0]
      case Failed(message, _) => (Some(Err(READ_FAILED + message)), Finished)
      case Chunk(bytes) =>
        var b := Absorb(limit, s.body, bytes);
        (Some(Ok(Progress(|b.bytes|))), Receiving(s.inner[1..], b, false))
  }

  /** `async_stream_body`, polled item by item. */
  class BodyStream {
    var inner: seq<Item>
    var buf: Bytes
    var truncated: bool
    const limit: nat
    var doneEmitted: bool
    var finished: bool

    ghost function View(): StreamState
      reads this
    {
      if finished then Finished else Receiving(inner, Body(buf, truncated), doneEmitted)
    }

    constructor (items: seq<Item>, limit: nat)
      ensures View() == Receiving(items, Body([], false), false) && this.limit == limit
    {
      inner, buf, truncated := items, [], false;
      this.limit := limit;
      doneEmitted, finished := false, false;
    }

    method Next() returns (r: Option<Result<Step, string>>)
      requires StateOk(limit, View())
      modifies this
      ensures StateOk(limit, View())
      ensures (r, View()) == Poll(limit, old(View()))
    {
      if finished || doneEmitted {
        return None;
      }
      if inner == [] {
        r := Some(Ok(Done(Body(buf, truncated))));
        buf := [];
        doneEmitted := true;
        return;
      }
      match inner[0] {
        case Failed(message, _) =>
          finished := true;
          r := Some(Err(READ_FAILED + message));
        case Chunk(chunk) =>
          if |buf| < limit {
            var remaining := limit - |buf|;
            if |chunk| > remaining {
              buf := buf + chunk[..remaining];
              truncated := true;
            } else {
              buf := buf + chunk;
            }
          } else {
            truncated := true;
          }
          inner := inner[1..];
          r := Some(Ok(Progress(|buf|)));
      }
    }
  }

  /** Everything the stream yields until it yields nothing. */
  function Drain(limit: nat, s: StreamState): seq<Result<Step, string>>
    requires StateOk(limit, s)
    decreases if s.Finished? then 0 else |s.inner| + if s.doneEmitted then 0 else 1
  {
    match Poll(limit, s)
    case (None, _) => []
    case (Some(item), s') => [item] + Drain(limit, s')
  }

  /** The bytes kept after the first `i + 1` of `good`, on top of those before. */
  function Kept(limit: nat, before: seq<Bytes>, good: seq<Bytes>, i: nat): nat
    requires i < |good|
  {
    Min(limit, |Concat(before + good[..i + 1])|)
  }

  lemma FailsTail(items: seq<Item>)
    requires items != [] && items[0].Chunk?
    ensures Fails(items) <==> Fails(items[1..])
  {
    var rest := items[1..];
    if Fails(items) {
      var i :| 0 <= i < |items| && items[i].Failed?;
      assert rest[i - 1].Failed?;
    }
    if Fails(rest) {
      var i :| 0 <= i < |rest| && rest[i].Failed?;
      assert items[i + 1].Failed?;
    }
  }

  lemma KeptShift(limit: nat, before: seq<Bytes>, chunk: Bytes, good: seq<Bytes>)
    ensures Kept(limit, before, [chunk] + good, 0) == |Reading(limit, before + [chunk]).bytes|
    ensures forall i :: 0 <= i < |good| ==>
              Kept(limit, before, [chunk] + good, i + 1) == Kept(limit, before + [chunk], good, i)
  {
    assert ([chunk] + good)[..1] == [chunk];
    forall i | 0 <= i < |good|
      ensures Kept(limit, before, [chunk] + good, i + 1) == Kept(limit, before + [chunk], good, i)
    {
      assert ([chunk] + good)[..i + 2] == [chunk] + good[..i + 1];
      assert before + ([chunk] + good[..i + 1]) == before + [chunk] + good[..i + 1];
    }
  }

  lemma DrainCons(limit: nat, before: seq<Bytes>, items: seq<Item>)
    requires items != [] && items[0].Chunk?
    ensures var b := Reading(limit, before + [items[0].bytes]);
      Drain(limit, Receiving(items, Reading(limit, before), false))
        == [Ok(Progress(|b.bytes|))] + Drain(limit, Receiving(items[1..], b, false))
  {
    AbsorbReads(limit, before, items[0].bytes);
  }

  /** What a reader that has absorbed `before` should yield for `items`. */
  ghost predicate Yields(limit: nat, before: seq<Bytes>, items: seq<Item>, out: seq<Result<Step, string>>) {
    var good := Good(items);
    && |out| == |good| + 1
    && (forall i :: 0 <= i < |good| ==> out[i] == Ok(Progress(Kept(limit, before, good, i))))
    && (if Fails(items) then |good| < |items| && items[|good|].Failed?
                             && out[|good|] == Err(READ_FAILED + items[|good|].message)
        else out[|good|] == Ok(Done(Reading(limit, before + good))))
  }

  lemma YieldsCons(limit: nat, before: seq<Bytes>, items: seq<Item>, tail: seq<Result<Step, string>>)
    requires items != [] && items[0].Chunk?
    requires Yields(limit, before + [items[0].bytes], items[1..], tail)
    ensures Yields(limit, before, items, [Ok(Progress(|Reading(limit, before + [items[0].bytes]).bytes|))] + tail)
  {
    var chunk, good := items[0].bytes, Good(items[1..]);
    FailsTail(items);
    KeptShift(limit, before, chunk, good);
    assert before + ([chunk] + good) == before + [chunk] + good;
  }

  /** The items a reader that has absorbed `before` still yields for the rest of the stream. */
  lemma {:induction false} DrainFrom(limit: nat, before: seq<Bytes>, items: seq<Item>)
    ensures Yields(limit, before, items, Drain(limit, Receiving(items, Reading(limit, before), false)))
    decreases |items|
  {
    if items == [] {
      assert before + [] == before;
    } else if items[0].Chunk? {
      var b := Reading(limit, before + [items[0].bytes]);
      DrainCons(limit, before, items);
      DrainFrom(limit, before + [items[0].bytes], items[1..]);
      YieldsCons(limit, before, items, Drain(limit, Receiving(items[1..], b, false)));
    }
  }

  /**
   Streaming equals buffered. The stream yields one Progress for each good chunk, counting the
   bytes kept so far, then exactly one more item: the first error when the buffered read errs, and
   otherwise the body and flag of the buffered read. Then nothing.
   */
  lemma StreamingEqualsBuffered(limit: nat, items: seq<Item>)
    ensures var out := Drain(limit, Receiving(items, Body([], false), false));
      var good := Good(items);
      && |out| == |good| + 1
      && (forall i :: 0 <= i < |good| ==> out[i] == Ok(Progress(Min(limit, |Concat(good[..i + 1])|))))
      && (if Fails(items) then |good| < |items| && items[|good|].Failed?
                               && out[|good|] == Err("HTTP body read failed: " + items[|good|].message)
          else out[|good|] == Ok(Done(Reading(limit, good))))
  {
    DrainFrom(limit, [], items);
    var good := Good(items);
    assert [] + good == good;
    forall i | 0 <= i < |good| ensures Kept(limit, [], good, i) == Min(limit, |Concat(good[..i + 1])|) {
      assert [] + good[..i + 1] == good[..i + 1];
    }
  }

  /** What the poll number `n` (from 0) yields. */
  function Yield(limit: nat, s: StreamState, n: nat): Option<Result<Step, string>>
    requires StateOk(limit, s)
    decreases n
  {
    if n == 0 then Poll(limit, s).0 else Yield(limit, Poll(limit, s).1, n - 1)
  }

  /** Polling yields the drained items one by one, and nothing ever after. */
  lemma {:induction false} PollsAreDrain(limit: nat, s: StreamState, n: nat)
    requires StateOk(limit, s)
    ensures Yield(limit, s, n) == if n < |Drain(limit, s)| then Some(Drain(limit, s)[n]) else None
    decreases n
  {
    if n > 0 {
      PollsAreDrain(limit, Poll(limit, s).1, n - 1);
    }
  }

  // ----- what the flag means -----

  lemma {:induction false} ConcatMonotone(chunks: seq<Bytes>, i: nat, j: nat)
    requires i <= j <= |chunks|
    ensures |Concat(chunks[..i])| <= |Concat(chunks[..j])|
  {
    if i < j {
      ConcatMonotone(chunks, i, j - 1);
      assert chunks[..j][..j - 1] == chunks[..j - 1];
    }
  }

  /** Progress counts never decrease and never pass the limit. */
  lemma ProgressMonotone(limit: nat, chunks: seq<Bytes>, i: nat, j: nat)
    requires i <= j <= |chunks|
    ensures Min(limit, |Concat(chunks[..i])|) <= Min(limit, |Concat(chunks[..j])|) <= limit
  {
    ConcatMonotone(chunks, i, j);
  }

  /**
   The flag says that the body over-ran the cap in every case but one: a body of exactly `limit`
   bytes whose last chunk is empty is flagged although nothing was cut.
   */
  lemma FlagMeansOverrun(limit: nat, chunks: seq<Bytes>)
    ensures (Flagged(limit, chunks) <==> |Concat(chunks)| > limit)
       <==> !(chunks != [] && chunks[|chunks| - 1] == [] && |Concat(chunks)| == limit)
  {
    if chunks != [] {
      var front, last := chunks[..|chunks| - 1], chunks[|chunks| - 1];
      assert Concat(chunks) == Concat(front) + last;
    }
  }

  /** How a body is cut into nonempty chunks does not matter. */
  lemma ChunkingIndependent(limit: nat, a: seq<Bytes>, b: seq<Bytes>)
    requires Concat(a) == Concat(b)
    requires (forall c :: c in a ==> c != []) && (forall c :: c in b ==> c != [])
    ensures Reading(limit, a) == Reading(limit, b)
  {
    FlagMeansOverrun(limit, a);
    FlagMeansOverrun(limit, b);
    assert a != [] ==> a[|a| - 1] in a;
    assert b != [] ==> b[|b| - 1] in b;
  }

  /** Nothing was cut, and the flag is set. */
  lemma EmptyChunkFlags()
    ensures Reading(3, [[1, 2, 3], []]) == Body([1, 2, 3], true)
    ensures |Concat([[1, 2, 3], []])| == 3
  {
    var first: Bytes := [1, 2, 3];
    assert [first, []][..1] == [first];
    assert [first][..0] == [];
    assert Concat([first]) == first;
    assert Concat([first, []]) == first;
  }
}
