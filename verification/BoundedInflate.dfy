/** The body loop of `_get` and `_inflate`: a compressed response is inflated a
    bounded piece at a time. zlib is a contract: what a stream of bytes inflates
    to only grows with more bytes, and one call either fills its limit or gives
    out everything there is. */
module BoundedInflate {
  import opened Wrappers

  type Bytes = seq<bv8>

  const MAX_BYTES := 5 * 1024 * 1024

  datatype Codec = Codec(inflate: Bytes -> Bytes, corrupt: Bytes -> bool)

  ghost predicate Streaming(codec: Codec) {
    && codec.inflate([]) == [] && !codec.corrupt([])
    && (forall a, b :: codec.inflate(a) <= codec.inflate(a + b))
    && (forall a, b | codec.corrupt(a) :: codec.corrupt(a + b))
  }

  predicate IsSuffix(tail: Bytes, data: Bytes) {
    |tail| <= |data| && data[|data| - |tail|..] == tail
  }

  /** One zlib.decompressobj. */
  class Inflater {
    const codec: Codec
    var fed: Bytes
    var given: nat
    var unconsumedTail: Bytes
    ghost var limits: seq<int>

    ghost predicate Valid()
      reads this
    {
      Streaming(codec) && !codec.corrupt(fed) && given <= |codec.inflate(fed)|
    }

    constructor (codec: Codec)
      requires Streaming(codec)
      ensures Valid() && this.codec == codec && fed == [] && given == 0 && limits == []
    {
      this.codec := codec;
      fed, given, unconsumedTail, limits := [], 0, [], [];
    }

    /** zlib's promise. It may take any non-empty part of the data, and it reads
        a limit of zero as no limit. */
    method Decompress(data: Bytes, limit: int) returns (r: Result<Bytes, ()>)
      requires Valid() && limit >= 0
      modifies this
      ensures limits == old(limits) + [limit]
      ensures r.Raised? ==> codec.corrupt(old(fed) + data)
      ensures r.Ok? ==>
        && Valid() && IsSuffix(unconsumedTail, data)
        && fed + unconsumedTail == old(fed) + data
        && old(fed) <= fed && codec.inflate(old(fed)) <= codec.inflate(fed)
        && given >= old(given) && r.value == codec.inflate(fed)[old(given)..given]
        && (limit > 0 ==> |r.value| <= limit)
        && (limit == 0 || |r.value| < limit ==>
              given == |codec.inflate(fed)| && (data != [] ==> |unconsumedTail| < |data|))
    {
      limits := limits + [limit];
      var taken: nat :| taken <= |data| && (data != [] ==> taken > 0);
      assert data == data[..taken] + data[taken..];
      assert old(fed) + data == old(fed) + data[..taken] + data[taken..];
      if codec.corrupt(fed + data[..taken]) {
        return Raised(());
      }
      fed := fed + data[..taken];
      unconsumedTail := data[taken..];
      var all := codec.inflate(fed);
      var upTo := if limit == 0 || |all| - given <= limit then |all| else given + limit;
      r := Ok(all[given..upTo]);
      given := upTo;
    }
  }

  /** `out` is what the codec makes of the input so far, from byte `start` on. */
  ghost predicate Delivered(codec: Codec, before: Bytes, start: nat, fed: Bytes, given: nat, out: Bytes) {
    && codec.inflate(before) <= codec.inflate(fed)
    && given == start + |out| <= |codec.inflate(fed)|
    && out == codec.inflate(fed)[start..given]
  }

  lemma DeliveredNext(codec: Codec, before: Bytes, start: nat, fed: Bytes, given: nat, out: Bytes, more: Bytes, upTo: nat)
    requires Delivered(codec, before, start, fed, given, out)
    requires codec.inflate(fed) <= codec.inflate(more) && given <= upTo <= |codec.inflate(more)|
    ensures Delivered(codec, before, start, more, upTo, out + codec.inflate(more)[given..upTo])
  {
    var all := codec.inflate(more);
    assert all[start..upTo] == all[start..given] + all[given..upTo];
    assert codec.inflate(fed) == all[..|codec.inflate(fed)|];
  }

  /** No limit passed since was one that zlib reads as no limit. */
  ghost predicate LimitsKept(before: seq<int>, limits: seq<int>) {
    before <= limits && forall i | |before| <= i < |limits| :: limits[i] >= 1
  }

  /** What `chunk` inflates to, or one byte more than `room` of it. */
  method Inflate(inflater: Inflater, chunk: Bytes, room: nat) returns (r: Result<Bytes, ()>)
    requires inflater.Valid()
    modifies inflater
    ensures |inflater.limits| > |old(inflater.limits)| && LimitsKept(old(inflater.limits), inflater.limits)
    ensures r.Raised? ==> inflater.codec.corrupt(old(inflater.fed) + chunk)
    ensures r.Ok? ==>
      && inflater.Valid() && |r.value| <= room + 1
      && Delivered(inflater.codec, old(inflater.fed), old(inflater.given), inflater.fed, inflater.given, r.value)
      && inflater.fed <= old(inflater.fed) + chunk
      && (|r.value| <= room ==>
            inflater.fed == old(inflater.fed) + chunk && inflater.given == |inflater.codec.inflate(inflater.fed)|)
  {
    var out: Bytes, data := [], chunk;
    ghost var before, start := inflater.fed, inflater.given;
    while true
      invariant inflater.Valid() && |out| <= room
      invariant LimitsKept(old(inflater.limits), inflater.limits)
      invariant inflater.fed + data == before + chunk
      invariant Delivered(inflater.codec, before, start, inflater.fed, inflater.given, out)
      decreases |data|
    {
      ghost var fed, given := inflater.fed, inflater.given;
      var piece := inflater.Decompress(data, room - |out| + 1);
      if piece.Raised? {
        return Raised(());
      }
      DeliveredNext(inflater.codec, before, start, fed, given, out, inflater.fed, inflater.given);
      out := out + piece.value;
      data := inflater.unconsumedTail;
      if data == [] || |out| > room {
        assert inflater.fed + [] == inflater.fed;
        return Ok(out);
      }
    }
  }

  datatype Error = BadStatus | UnsupportedEncoding | TooLarge | BadCompressed

  datatype Response = Response(status: int, encoding: string, chunks: seq<Bytes>)

  const INFLATE: set<string> := {"gzip", "x-gzip", "deflate"}
  const UNBOUNDED: set<string> := {"br", "zstd", "compress", "x-compress"}

  function Flatten(chunks: seq<Bytes>): Bytes {
    if chunks == [] then [] else Flatten(chunks[..|chunks| - 1]) + chunks[|chunks| - 1]
  }

  lemma {:induction false} FlattenPrefix(chunks: seq<Bytes>, n: nat)
    requires n <= |chunks|
    ensures Flatten(chunks[..n]) <= Flatten(chunks)
    ensures n < |chunks| ==> Flatten(chunks[..n + 1]) == Flatten(chunks[..n]) + chunks[n]
    decreases |chunks|
  {
    if n < |chunks| {
      assert chunks[..n + 1][..n] == chunks[..n];
      FlattenPrefix(chunks[..|chunks| - 1], n);
      assert chunks[..|chunks| - 1][..n] == chunks[..n];
    } else {
      assert chunks[..n] == chunks;
    }
  }

  predicate Refused(encoding: string) {
    encoding in UNBOUNDED || ',' in encoding
  }

  /** The body a response stands for, whatever the chunk boundaries: None when
      it is corrupt. */
  function Decoded(codec: Codec, response: Response): Option<Bytes> {
    var raw := Flatten(response.chunks);
    if response.encoding !in INFLATE then Some(raw)
    else if codec.corrupt(raw) then None
    else Some(codec.inflate(raw))
  }

  method ReadPlain(chunks: seq<Bytes>) returns (r: Result<Bytes, Error>)
    ensures r == if |Flatten(chunks)| <= 5_242_880 then Ok(Flatten(chunks)) else Raised(TooLarge)
  {
    var body: Bytes := [];
    for n := 0 to |chunks|
      invariant body == Flatten(chunks[..n]) && |body| <= MAX_BYTES
    {
      FlattenPrefix(chunks, n);
      FlattenPrefix(chunks, n + 1);
      body := body + chunks[n];
      if |body| > MAX_BYTES {
        return Raised(TooLarge);
      }
    }
    assert chunks[..|chunks|] == chunks;
    return Ok(body);
  }

  /** `held` is the most the body ever held: one byte past the cap at most,
      however much the chunks inflate to. */
  method ReadInflated(codec: Codec, chunks: seq<Bytes>) returns (r: Result<Bytes, Error>, ghost held: nat)
    requires Streaming(codec)
    ensures held <= 5_242_881
    ensures r.Ok? <==> !codec.corrupt(Flatten(chunks)) && |codec.inflate(Flatten(chunks))| <= 5_242_880
    ensures r.Ok? ==> r.value == codec.inflate(Flatten(chunks))
    ensures r == Raised(BadCompressed) ==> codec.corrupt(Flatten(chunks))
    ensures r == Raised(TooLarge) ==> |codec.inflate(Flatten(chunks))| > 5_242_880
    ensures r.Raised? ==> r.error in {TooLarge, BadCompressed}
  {
    var inflater := new Inflater(codec);
    var body: Bytes := [];
    held := 0;
    for n := 0 to |chunks|
      invariant held <= MAX_BYTES
      invariant inflater.Valid() && inflater.codec == codec && fresh(inflater)
      invariant inflater.fed == Flatten(chunks[..n])
      invariant body == codec.inflate(inflater.fed) && inflater.given == |body| <= MAX_BYTES
    {
      FlattenPrefix(chunks, n);
      FlattenPrefix(chunks, n + 1);
      ghost var upTo := Flatten(chunks[..n + 1]);
      MoreBytes(codec, upTo, Flatten(chunks));
      var piece := Inflate(inflater, chunks[n], MAX_BYTES - |body|);
      if piece.Raised? {
        return Raised(BadCompressed), held;
      }
      body := body + piece.value;
      held := if held < |body| then |body| else held;
      assert body == codec.inflate(inflater.fed)[..inflater.given];
      if |body| > MAX_BYTES {
        MoreBytes(codec, inflater.fed, upTo);
        return Raised(TooLarge), held;
      }
    }
    assert chunks[..|chunks|] == chunks;
    return Ok(body), held;
  }

  lemma MoreBytes(codec: Codec, a: Bytes, b: Bytes)
    requires Streaming(codec) && a <= b
    ensures codec.inflate(a) <= codec.inflate(b)
    ensures codec.corrupt(a) ==> codec.corrupt(b)
  {
    assert b == a + b[|a|..];
  }

  /** Exactly the decoded body when it is sound and fits, and an error otherwise. */
  method Get(codec: Codec, response: Response) returns (r: Result<Bytes, Error>)
    requires Streaming(codec)
    ensures r == Raised(BadStatus) <==> response.status >= 400
    ensures r == Raised(UnsupportedEncoding) <==> response.status < 400 && Refused(response.encoding)
    ensures Refused(response.encoding) <==>
      ',' in response.encoding || response.encoding in {"br", "zstd", "compress", "x-compress"}
    ensures response.status < 400 && response.encoding in {"gzip", "x-gzip", "deflate"} ==>
      (r.Ok? <==> !codec.corrupt(Flatten(response.chunks)) && |codec.inflate(Flatten(response.chunks))| <= 5_242_880)
      && (r.Ok? ==> r.value == codec.inflate(Flatten(response.chunks)))
    ensures response.status < 400 && !Refused(response.encoding) && response.encoding !in {"gzip", "x-gzip", "deflate"} ==>
      r == if |Flatten(response.chunks)| <= 5_242_880 then Ok(Flatten(response.chunks)) else Raised(TooLarge)
    ensures var body := Decoded(codec, response);
      response.status < 400 && !Refused(response.encoding) ==>
        && (r.Ok? <==> body.Some? && |body.value| <= 5_242_880)
        && (r.Ok? ==> r.value == body.value)
  {
    if response.status >= 400 {
      return Raised(BadStatus);
    }
    if response.encoding in UNBOUNDED || ',' in response.encoding {
      return Raised(UnsupportedEncoding);
    }
    if response.encoding in INFLATE {
      ghost var held;
      r, held := ReadInflated(codec, response.chunks);
    } else {
      r := ReadPlain(response.chunks);
    }
  }
}
