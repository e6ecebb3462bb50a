/** End-to-end correctness of the chunked vendor download. */
module Download {
  import opened Wrappers
  import opened Bytes
  import opened Transport
  import opened Ptp
  import opened Protocol
  import opened Records
  import opened Sigma

  // ----- a camera that serves a file -----

  /** A reply to a request for `max` bytes of `file` from `start`: it acknowledges at most that many
      and its data, possibly truncated, are the bytes of the file from there. */
  predicate Answers(file: Bytes, start: nat, max: nat, part: Part) {
    part.acquired <= max && |part.data| <= part.acquired && start <= |file| && part.data <= file[start..]
  }

  /** The reply carries all that was asked for. */
  predicate Fills(max: nat, part: Part) {
    part.acquired == |part.data| == max
  }

  /**
   In every state `ready` the camera answers a request for a part, after any stray
   events and cut into reads anyhow, and is ready again. With `full`, it never truncates.
   */
  ghost predicate Serves<S(!new)>(link: Link<S>, ready: S -> bool, address: uint32, file: Bytes, full: bool) {
    forall s, tid: uint32, start: uint32, max: uint32 {:trigger Asked(s, tid, start, max)} |
      Asked(s, tid, start, max) && ready(s) && start + max <= |file| ::
      exists inb: Inbound, s' ::
        && Delivers(link, Send(link, s, Command(tid, OP_GET_BIG_PARTIAL_PICT_FILE, [address, start, max])), inb, s')
        && ready(s')
        && PartOf(inb.Payload()).Ok? && Answers(file, start, max, PartOf(inb.Payload()).value)
        && (full ==> Fills(max, PartOf(inb.Payload()).value))
  }

  /** The same, of the replies as the driver sees them. */
  ghost predicate Supplies<S(!new)>(fetch: Fetch<S>, ready: S -> bool, file: Bytes, full: bool) {
    forall s, tid: uint32, start: uint32, max: uint32 {:trigger Asked(s, tid, start, max)} |
      Asked(s, tid, start, max) && ready(s) && start + max <= |file| ::
      var (s', r) := fetch(s, tid, start, max);
      && ready(s') && r.Ok? && Answers(file, start, max, r.value)
      && (full ==> Fills(max, r.value))
  }

  lemma {:induction false} ServerSupplies<S(!new)>(link: Link<S>, ready: S -> bool, address: uint32, file: Bytes,
                                                   full: bool)
    requires Sound(link) && Serves(link, ready, address, file, full)
    ensures Supplies(Parts(link, address), ready, file, full)
  {
    forall s, tid: uint32, start: uint32, max: uint32 | Asked(s, tid, start, max) && ready(s) && start + max <= |file|
      ensures var (s', r) := PartReply(link, s, tid, address, start, max);
              && ready(s') && r.Ok? && Answers(file, start, max, r.value)
              && (full ==> Fills(max, r.value))
    {
      var inb: Inbound, s' :|
        && Delivers(link, Send(link, s, Command(tid, OP_GET_BIG_PARTIAL_PICT_FILE, [address, start, max])), inb, s')
        && ready(s')
        && PartOf(inb.Payload()).Ok? && Answers(file, start, max, PartOf(inb.Payload()).value)
        && (full ==> Fills(max, PartOf(inb.Payload()).value));
      PartReplyIs(link, s, tid, address, start, max, inb, s');
    }
  }

  lemma {:induction false} PartReplyIs<S(!new)>(link: Link<S>, s: S, tid: uint32, address: uint32, start: uint32,
                                                max: uint32, inb: Inbound, s': S)
    requires Sound(link)
    requires Delivers(link, Send(link, s, Command(tid, OP_GET_BIG_PARTIAL_PICT_FILE, [address, start, max])), inb, s')
    ensures PartReply(link, s, tid, address, start, max) == (s', PartOf(inb.Payload()))
  {
    DeliveredTransaction(link, s, Command(tid, OP_GET_BIG_PARTIAL_PICT_FILE, [address, start, max]), inb, s');
  }

  // ----- when a download ends -----

  /**
   The camera never acknowledges more than it was asked for, in any state `ready` it can
   be in during a download of `size` bytes.
   */
  ghost predicate NeverOverAcknowledges<S(!new)>(fetch: Fetch<S>, ready: S -> bool, size: uint32) {
    forall s, tid: uint32, start: uint32, max: uint32 {:trigger Asked(s, tid, start, max)} |
      Asked(s, tid, start, max) && ready(s) && start + max <= size ::
      var (s', r) := fetch(s, tid, start, max);
      r.Ok? ==> r.value.acquired <= max && ready(s')
  }

  /** Then a download ends, in no more requests than there are bytes left, or in one. */
  lemma {:induction false} BoundedDownloadEnds<S(!new)>(fetch: Fetch<S>, ready: S -> bool, s: S, tid: uint32,
                                                        chunk: uint32, start: uint32, left: uint32, out: Bytes, n: nat)
    requires start + left < TWO_32 && NeverOverAcknowledges(fetch, ready, start + left) && ready(s) && left <= n
    ensures Download(fetch, s, tid, chunk, start, left, out, n).Some?
    decreases n
  {
    if left > 0 {
      var max: uint32 := Min(chunk, left);
      assert Asked(s, tid, start, max);
      var (s', r) := fetch(s, tid, start, max);
      if r.Ok? && r.value.acquired > 0 && r.value.data != [] && |r.value.data| >= max {
        BoundedDownloadEnds(fetch, ready, s', NextTid(tid), chunk, start + r.value.acquired, left - r.value.acquired,
                            out + r.value.data, n - 1);
      }
    }
  }

  /**
   A camera whose state is the driver's count of bytes left. It acknowledges, and sends, what
   it is asked for or one byte if that is none, but a byte more when just so many are left.
   */
  function Relentless(): Fetch<uint32> {
    (s: uint32, tid: uint32, start: uint32, max: uint32) =>
      var n: uint32 := Excess(s, max);
      (Sub32(s, n), Ok(Part(n, Zeros(n))))
  }

  function Excess(left: uint32, max: uint32): (n: uint32)
    ensures 0 < n && max <= n && (left < 0xFFFF_FFFF || max < left ==> n != left)
  {
    var n := if max == 0 then 1 else max;
    if n == left && n < 0xFFFF_FFFF then n + 1 else n
  }

  /**
   With any chunk size but the greatest, a download of at least one byte from such a camera
   never ends: the count of bytes left passes 0 and wraps around.
   */
  lemma {:induction false} OverAcknowledgingNeverEnds(tid: uint32, chunk: uint32, start: uint32, left: uint32, out: Bytes,
                                                      n: nat)
    requires 0 < left && chunk < 0xFFFF_FFFF
    ensures Download(Relentless(), left, tid, chunk, start, left, out, n) == None
    decreases n
  {
    if n > 0 {
      var max: uint32 := Min(chunk, left);
      var acquired := Excess(left, max);
      OverAcknowledgingNeverEnds(NextTid(tid), chunk, Add32(start, acquired), Sub32(left, acquired),
                                 out + Zeros(acquired), n - 1);
    }
  }

  /** No part has more data than it acknowledges, as the driver cuts it. */
  ghost predicate CoversData<S(!new)>(fetch: Fetch<S>) {
    forall s, tid: uint32, start: uint32, max: uint32 {:trigger Asked(s, tid, start, max)} | Asked(s, tid, start, max) ::
      var (_, r) := fetch(s, tid, start, max);
      r.Ok? ==> |r.value.data| <= r.value.acquired
  }

  /**
   With the greatest chunk size every download ends, on any device: what is acknowledged
   covers the data, and to acknowledge more than is left makes the count rise, as long as it can.
   */
  lemma {:induction false} GreatestChunkEnds<S(!new)>(fetch: Fetch<S>, s: S, tid: uint32, start: uint32, left: uint32,
                                                      out: Bytes, n: nat)
    requires CoversData(fetch) && (left == 0 || TWO_32 - left <= n)
    ensures Download(fetch, s, tid, 0xFFFF_FFFF, start, left, out, n).Some?
    decreases n
  {
    if left > 0 {
      assert Asked(s, tid, start, left);
      var (s', r) := fetch(s, tid, start, left);
      if r.Ok? && r.value.acquired > 0 && r.value.data != [] && |r.value.data| >= left {
        GreatestChunkEnds(fetch, s', NextTid(tid), Add32(start, r.value.acquired), Sub32(left, r.value.acquired),
                          out + r.value.data, n - 1);
      }
    }
  }

  /** So with it the driver returns from every download. */
  lemma {:induction false} GreatestChunkReturns<S(!new)>(link: Link<S>, s: S, tid: uint32, handle: uint32)
    requires Sound(link)
    ensures VendorObject(link, s, tid, handle, 0xFFFF_FFFF, TWO_32).Some?
  {
    var (s', info) := InfoReply(link, s, tid, handle);
    if info.Ok? {
      PartsCoverData(link, info.value.fileAddress);
      GreatestChunkEnds(Parts(link, info.value.fileAddress), s', NextTid(tid), 0, info.value.fileSize, [], TWO_32);
    }
  }

  lemma {:induction false} PartsCoverData<S(!new)>(link: Link<S>, address: uint32)
    requires Sound(link)
    ensures CoversData(Parts(link, address))
  {
  }

  /** More requests than a download makes change nothing. */
  lemma {:induction false} MoreRequestsAllowed<S(!new)>(fetch: Fetch<S>, s: S, tid: uint32, chunk: uint32, start: uint32,
                                                        left: uint32, out: Bytes, n: nat, m: nat)
    requires n <= m && Download(fetch, s, tid, chunk, start, left, out, n).Some?
    ensures Download(fetch, s, tid, chunk, start, left, out, m) == Download(fetch, s, tid, chunk, start, left, out, n)
    decreases n
  {
    if left > 0 {
      var max: uint32 := Min(chunk, left);
      var (s', r) := fetch(s, tid, start, max);
      if r.Ok? && r.value.acquired > 0 && r.value.data != [] && |r.value.data| >= max {
        MoreRequestsAllowed(fetch, s', NextTid(tid), chunk, Add32(start, r.value.acquired),
                            Sub32(left, r.value.acquired), out + r.value.data, n - 1, m - 1);
      }
    }
  }

  // ----- the download loop -----

  /** Non-empty stretches of the file from `start` on, each beginning where the one before ends. */
  predicate Chained(ranges: seq<(uint32, uint32)>, chunk: uint32, start: nat, size: nat) {
    ranges == [] ||
    (start < size && ranges[0] == (start, Min(chunk, size - start))
     && Chained(ranges[1..], chunk, start + ranges[0].1, size))
  }

  /** Where the last one ends. */
  function EndOf(ranges: seq<(uint32, uint32)>, start: nat): nat {
    if ranges == [] then start else EndOf(ranges[1..], start + ranges[0].1)
  }

  /**
   The outcome of a download from `start`, where everything before is already there: a
   contiguous prefix of the file, fetched in requests that follow one another without a
   gap; and, if no reply is truncated, the whole file.
   */
  predicate Complete(file: Bytes, chunk: uint32, start: nat, full: bool, result: Result<Bytes>,
                     ranges: seq<(uint32, uint32)>)
  {
    && result.Ok? && result.value <= file && start <= |result.value|
    && Chained(ranges, chunk, start, |file|)
    && (full && 0 < chunk ==> result.value == file && EndOf(ranges, start) == |file|)
  }

  lemma {:induction false} FetchedPart(file: Bytes, start: nat, part: Part, max: nat)
    requires start + max <= |file| && Answers(file, start, max, part)
    ensures file[..start] + part.data == file[..start + |part.data|]
  {
    assert part.data == file[start..][..|part.data|];
  }

  /** The last request of a download that breaks off. */
  lemma {:induction false} CompleteLast(file: Bytes, chunk: uint32, start: uint32, full: bool, end: nat)
    requires start < |file| < TWO_32 && start <= end <= |file| && !(full && 0 < chunk)
    ensures Complete(file, chunk, start, full, Ok(file[..end]), [(start, Min(chunk, |file| - start))])
  {
  }

  /** A filled request before the rest of a download. */
  lemma {:induction false} CompleteStep(file: Bytes, chunk: uint32, start: uint32, full: bool, max: uint32,
                                        result: Result<Bytes>, rest: seq<(uint32, uint32)>)
    requires start < |file| < TWO_32 && max == Min(chunk, |file| - start)
    requires Complete(file, chunk, start + max, full, result, rest)
    ensures Complete(file, chunk, start, full, result, [(start, max)] + rest)
  {
    assert ([(start, max)] + rest)[1..] == rest;
  }

  /** Request `i` is for the `i`-th chunk. */
  predicate Tiles(ranges: seq<(uint32, uint32)>, chunk: nat, start: nat, size: nat) {
    forall i | 0 <= i < |ranges| ::
      && ranges[i].0 == start + i * chunk && ranges[i].0 < size
      && ranges[i].1 == Min(chunk, size - ranges[i].0)
  }

  /** `n` is `size` divided by `chunk`, rounded up. */
  predicate Ceiling(n: nat, size: nat, chunk: nat) {
    size <= n * chunk && (0 < n ==> (n - 1) * chunk < size)
  }

  lemma {:induction false} OneMoreChunk(n: nat, chunk: nat)
    ensures (n + 1) * chunk == n * chunk + chunk
  {
  }

  /** So the number of requests for a whole file is its size over the chunk size, rounded up. */
  lemma {:induction false} ChainsTile(ranges: seq<(uint32, uint32)>, chunk: uint32, start: nat, size: nat)
    requires Chained(ranges, chunk, start, size) && start <= size && 0 < chunk
    ensures Tiles(ranges, chunk, start, size)
    ensures EndOf(ranges, start) == size ==> Ceiling(|ranges|, size - start, chunk)
  {
    if ranges != [] {
      var rest, next := ranges[1..], start + ranges[0].1;
      ChainsTile(rest, chunk, next, size);
      OneMoreChunk(|rest|, chunk);
      forall i | 0 < i < |ranges| ensures ranges[i] == rest[i - 1] && ranges[i].0 == start + i * chunk {
        OneMoreChunk(i - 1, chunk);
      }
      assert ranges[|rest|].0 == start + |rest| * chunk;
    }
  }

  /** A filled request: the download goes on with one request less. */
  lemma {:induction false} FilledRequest<S(!new)>(fetch: Fetch<S>, s: S, tid: uint32, chunk: uint32, start: uint32,
                                                  left: uint32, out: Bytes, n: nat, s': S, data: Bytes)
    requires 0 < left && start + left < TWO_32 && 0 < n
    requires var max := Min(chunk, left);
             0 < max == |data| && fetch(s, tid, start, max) == (s', Ok(Part(max, data)))
    ensures var max := Min(chunk, left);
            Download(fetch, s, tid, chunk, start, left, out, n) ==
            Resumed([(start, max)], Download(fetch, s', NextTid(tid), chunk, start + max, left - max, out + data, n - 1))
  {
    var max: uint32 := Min(chunk, left);
    assert Add32(start, max) == start + max && Sub32(left, max) == left - max;
  }

  /** Any other reply ends it. */
  lemma {:induction false} LastRequest<S(!new)>(fetch: Fetch<S>, s: S, tid: uint32, chunk: uint32, start: uint32,
                                                left: uint32, out: Bytes, n: nat, s': S, part: Part)
    requires 0 < left && 0 < n && fetch(s, tid, start, Min(chunk, left)) == (s', Ok(part))
    requires part.acquired == 0 || part.data == [] || |part.data| < Min(chunk, left)
    ensures Download(fetch, s, tid, chunk, start, left, out, n) ==
            Some(Fetched(s', NextTid(tid), Ok(if part.acquired == 0 then out else out + part.data),
                         [(start, Min(chunk, left))]))
  {
    assert part.data == [] ==> out + part.data == out;
  }

  /** A download from `start` has ended well. */
  ghost predicate Delivered<S(!new)>(f: Option<Fetched<S>>, ready: S -> bool, file: Bytes, chunk: uint32, start: uint32,
                                     full: bool)
  {
    f.Some? && Complete(file, chunk, start, full, f.value.result, f.value.requests) && ready(f.value.s)
  }

  lemma {:induction false} DeliveredAll<S(!new)>(fetch: Fetch<S>, ready: S -> bool, s: S, tid: uint32, chunk: uint32,
                                                 file: Bytes, full: bool, n: nat)
    requires |file| < TWO_32 && ready(s)
    ensures Delivered(Download(fetch, s, tid, chunk, |file|, 0, file, n), ready, file, chunk, |file|, full)
  {
  }

  lemma {:induction false} DeliveredStep<S(!new)>(rest: Option<Fetched<S>>, ready: S -> bool, file: Bytes, chunk: uint32,
                                                  start: uint32, full: bool, max: uint32)
    requires start < |file| < TWO_32 && max == Min(chunk, |file| - start)
    requires Delivered(rest, ready, file, chunk, start + max, full)
    ensures Delivered(Resumed([(start, max)], rest), ready, file, chunk, start, full)
  {
    CompleteStep(file, chunk, start, full, max, rest.value.result, rest.value.requests);
  }

  lemma {:induction false} DeliveredLast<S(!new)>(fetch: Fetch<S>, ready: S -> bool, s: S, tid: uint32, chunk: uint32,
                                                  file: Bytes, full: bool, start: uint32, n: nat, s': S, part: Part)
    requires start < |file| < TWO_32 && 0 < n && ready(s')
    requires var max := Min(chunk, |file| - start);
             && fetch(s, tid, start, max) == (s', Ok(part)) && Answers(file, start, max, part)
             && (full ==> Fills(max, part)) && (part.acquired == 0 || part.data == [] || |part.data| < max)
    ensures Delivered(Download(fetch, s, tid, chunk, start, |file| - start, file[..start], n), ready, file, chunk, start,
                      full)
  {
    LastRequest(fetch, s, tid, chunk, start, |file| - start, file[..start], n, s', part);
    FetchedPart(file, start, part, Min(chunk, |file| - start));
    CompleteLast(file, chunk, start, full, if part.acquired == 0 then start else start + |part.data|);
  }

  lemma {:induction false} DeliveredMore<S(!new)>(fetch: Fetch<S>, ready: S -> bool, s: S, tid: uint32, chunk: uint32,
                                                  file: Bytes, full: bool, start: uint32, n: nat, s': S, part: Part)
    requires start < |file| < TWO_32 && 0 < n
    requires var max := Min(chunk, |file| - start);
             && fetch(s, tid, start, max) == (s', Ok(part)) && Answers(file, start, max, part)
             && 0 < part.acquired == |part.data| == max
             && Delivered(Download(fetch, s', NextTid(tid), chunk, start + max, |file| - (start + max),
                                   file[..start + max], n - 1), ready, file, chunk, start + max, full)
    ensures Delivered(Download(fetch, s, tid, chunk, start, |file| - start, file[..start], n), ready, file, chunk, start,
                      full)
  {
    var max: uint32 := Min(chunk, |file| - start);
    FetchedPart(file, start, part, max);
    FilledRequest(fetch, s, tid, chunk, start, |file| - start, file[..start], n, s', part.data);
    var rest := Download(fetch, s', NextTid(tid), chunk, start + max, |file| - (start + max), file[..start + max], n - 1);
    DeliveredStep(rest, ready, file, chunk, start, full, max);
  }

  lemma {:induction false} DownloadFrom<S(!new)>(fetch: Fetch<S>, ready: S -> bool, s: S, tid: uint32, chunk: uint32,
                                                 file: Bytes, full: bool, start: uint32, n: nat)
    requires Supplies(fetch, ready, file, full) && start <= |file| < TWO_32 && ready(s) && |file| - start <= n
    ensures Delivered(Download(fetch, s, tid, chunk, start, |file| - start, file[..start], n), ready, file, chunk, start,
                      full)
    decreases n
  {
    var left := |file| - start;
    if left == 0 {
      assert file[..start] == file;
      DeliveredAll(fetch, ready, s, tid, chunk, file, full, n);
    } else {
      var max: uint32 := Min(chunk, left);
      assert Asked(s, tid, start, max);
      var (s', r) := fetch(s, tid, start, max);
      var part := r.value;
      if part.acquired != 0 && part.data != [] && |part.data| >= max {
        DownloadFrom(fetch, ready, s', NextTid(tid), chunk, file, full, start + max, n - 1);
        DeliveredMore(fetch, ready, s, tid, chunk, file, full, start, n, s', part);
      } else {
        DeliveredLast(fetch, ready, s, tid, chunk, file, full, start, n, s', part);
      }
    }
  }

  /**
   The outcome of a whole download: a prefix of the file, one request a chunk; and, if no
   reply is truncated, the whole file in ceil(|file| / chunk) requests.
   */
  predicate Finished<S>(f: Fetched<S>, file: Bytes, chunk: uint32, full: bool) {
    && f.result.Ok? && f.result.value <= file
    && (0 < chunk ==> Tiles(f.requests, chunk, 0, |file|))
    && (full && 0 < chunk ==> f.result.value == file && Ceiling(|f.requests|, |file|, chunk))
  }

  lemma {:induction false} DownloadWhole<S(!new)>(fetch: Fetch<S>, ready: S -> bool, s: S, tid: uint32, chunk: uint32,
                                                  file: Bytes, full: bool, n: nat)
    requires Supplies(fetch, ready, file, full) && ready(s) && |file| < TWO_32 && |file| <= n
    ensures var f := Download(fetch, s, tid, chunk, 0, |file|, [], n);
            f.Some? && Finished(f.value, file, chunk, full) && ready(f.value.s)
  {
    assert file[..0] == [];
    DownloadFrom(fetch, ready, s, tid, chunk, file, full, 0, n);
    if 0 < chunk {
      ChainsTile(Download(fetch, s, tid, chunk, 0, |file|, [], n).value.requests, chunk, 0, |file|);
    }
  }

  /**
   End to end: over a camera that announces and serves `file`, through any chunking of any
   container and any stray events, the download ends, without error, in a prefix of the file;
   with whole replies and a positive chunk size it is the file, fetched in exactly
   ceil(|file| / chunk) requests; truncated replies never cost more than that.
   */
  lemma {:induction false} EndToEnd<S(!new)>(link: Link<S>, ready: S -> bool, s: S, tid: uint32, handle: uint32,
                                             chunk: uint32, info: PictFileInfo, file: Bytes, full: bool,
                                             inb: Inbound, s': S, n: nat)
    requires Sound(link) && |file| == info.fileSize <= n && Serves(link, ready, info.fileAddress, file, full)
    requires Delivers(link, Send(link, s, Command(tid, OP_GET_PICT_FILE_INFO2, [handle])), inb, s')
    requires Info(inb.Payload()) == Ok(info) && ready(s')
    ensures InfoReply(link, s, tid, handle) == (s', Ok(info))
    ensures var f := VendorObject(link, s, tid, handle, chunk, n);
            f.Some? && Finished(f.value, file, chunk, full) && ready(f.value.s)
  {
    DeliveredTransaction(link, s, Command(tid, OP_GET_PICT_FILE_INFO2, [handle]), inb, s');
    var fetch := Parts(link, info.fileAddress);
    ServerSupplies(link, ready, info.fileAddress, file, full);
    DownloadWhole(fetch, ready, s', NextTid(tid), chunk, file, full, n);
  }

  /** With a chunk size of 0 nothing is fetched beyond one empty request. */
  lemma {:induction false} ZeroChunk<S(!new)>(fetch: Fetch<S>, ready: S -> bool, s: S, tid: uint32, file: Bytes,
                                              full: bool, n: nat)
    requires Supplies(fetch, ready, file, full) && 0 < |file| < TWO_32 && ready(s) && 0 < n
    ensures var f := Download(fetch, s, tid, 0, 0, |file|, [], n);
            f.Some? && f.value.result == Ok([]) && f.value.requests == [(0, 0)]
  {
    assert Asked(s, tid, 0, 0);
  }

  // ----- every download, on any device -----

  /** The replies to a download's requests, one after another. */
  ghost function Received<S(!new)>(fetch: Fetch<S>, s: S, tid: uint32, requests: seq<(uint32, uint32)>):
    (rs: seq<Result<Part>>)
    ensures |rs| == |requests|
    decreases |requests|
  {
    if requests == [] then []
    else
      var (s', r) := fetch(s, tid, requests[0].0, requests[0].1);
      [r] + Received(fetch, s', NextTid(tid), requests[1..])
  }

  /** What the first `k` replies acknowledge together. */
  function Acknowledged(rs: seq<Result<Part>>, k: nat): nat
    requires k <= |rs|
  {
    if k == 0 then 0 else (if rs[0].Ok? then rs[0].value.acquired else 0) + Acknowledged(rs[1..], k - 1)
  }

  /** The data of all replies. */
  function Joined(rs: seq<Result<Part>>): Bytes {
    if rs == [] then [] else (if rs[0].Ok? then rs[0].value.data else []) + Joined(rs[1..])
  }

  /** Request `k` goes on where the first `k` replies have led, for a chunk or for what is left. */
  predicate Follows(rs: seq<Result<Part>>, requests: seq<(uint32, uint32)>, chunk: uint32, start: uint32, left: uint32,
                    k: nat)
    requires k < |rs| == |requests|
  {
    var rest := (left - Acknowledged(rs, k)) % 0x1_0000_0000;
    rest > 0 && requests[k] == ((start + Acknowledged(rs, k)) % 0x1_0000_0000, if chunk < rest then chunk else rest)
  }

  /** The reply has some data and at least as much as was asked for. */
  predicate Suffices(r: Result<Part>, request: (uint32, uint32)) {
    r.Ok? && r.value.data != [] && |r.value.data| >= request.1
  }

  /**
   A download with these replies: each request follows from the replies before it, and only
   the last reply is an error, empty or short, or leaves nothing. An error is the result;
   otherwise the result is all data received.
   */
  predicate Told(rs: seq<Result<Part>>, requests: seq<(uint32, uint32)>, result: Result<Bytes>, chunk: uint32,
                 start: uint32, left: uint32, out: Bytes)
  {
    var n := |rs|;
    && |requests| == n
    && (forall k: nat | k < n :: Follows(rs, requests, chunk, start, left, k))
    && (forall k: nat | k + 1 < n :: Suffices(rs[k], requests[k]))
    && (0 < n && rs[n - 1].Err? ==> result == Err(rs[n - 1].error))
    && (0 == n || rs[n - 1].Ok? ==>
          && result == Ok(out + Joined(rs))
          && ((left - Acknowledged(rs, n)) % 0x1_0000_0000 == 0 || (0 < n && !Suffices(rs[n - 1], requests[n - 1]))))
  }

  lemma {:induction false} OneReply(r: Result<Part>, request: (uint32, uint32), result: Result<Bytes>, chunk: uint32,
                                    start: uint32, left: uint32, out: Bytes)
    requires 0 < left && request == (start, Min(chunk, left))
    requires if r.Err? then result == Err(r.error) else !Suffices(r, request) && result == Ok(out + r.value.data)
    ensures Told([r], [request], result, chunk, start, left, out)
  {
    assert [r][1..] == [];
    assert Joined([r]) == if r.Ok? then r.value.data else [];
  }

  lemma {:induction false} SumsWrap(start: uint32, left: uint32, a: uint32, b: nat)
    ensures (Add32(start, a) + b) % 0x1_0000_0000 == (start + (a + b)) % 0x1_0000_0000
    ensures (Sub32(left, a) - b) % 0x1_0000_0000 == (left - (a + b)) % 0x1_0000_0000
  {
  }

  /** Where the replies after the first one lead. */
  lemma {:induction false} FollowsAfter(part: Part, request: (uint32, uint32), rs: seq<Result<Part>>,
                                        requests: seq<(uint32, uint32)>, chunk: uint32, start: uint32, left: uint32,
                                        k: nat)
    requires k <= |rs| == |requests|
    ensures Acknowledged([Ok(part)] + rs, k + 1) == part.acquired + Acknowledged(rs, k)
    ensures k < |rs| ==>
              Follows([Ok(part)] + rs, [request] + requests, chunk, start, left, k + 1) ==
              Follows(rs, requests, chunk, Add32(start, part.acquired), Sub32(left, part.acquired), k)
    ensures (left - Acknowledged([Ok(part)] + rs, k + 1)) % 0x1_0000_0000 ==
            (Sub32(left, part.acquired) - Acknowledged(rs, k)) % 0x1_0000_0000
  {
    assert ([Ok(part)] + rs)[1..] == rs;
    SumsWrap(start, left, part.acquired, Acknowledged(rs, k));
  }

  lemma {:induction false} MoreReplies(part: Part, request: (uint32, uint32), rs: seq<Result<Part>>,
                                       requests: seq<(uint32, uint32)>, result: Result<Bytes>, chunk: uint32,
                                       start: uint32, left: uint32, out: Bytes)
    requires 0 < left && request == (start, Min(chunk, left)) && Suffices(Ok(part), request)
    requires Told(rs, requests, result, chunk, Add32(start, part.acquired), Sub32(left, part.acquired), out + part.data)
    ensures Told([Ok(part)] + rs, [request] + requests, result, chunk, start, left, out)
  {
    var all, asked := [Ok(part)] + rs, [request] + requests;
    assert all[1..] == rs;
    assert out + Joined(all) == out + part.data + Joined(rs);
    forall k: nat | k < |all| ensures Follows(all, asked, chunk, start, left, k) {
      if k > 0 {
        FollowsAfter(part, request, rs, requests, chunk, start, left, k - 1);
      }
    }
    forall k: nat | k + 1 < |all| ensures Suffices(all[k], asked[k]) {
      assert k > 0 ==> Suffices(rs[k - 1], requests[k - 1]);
    }
    FollowsAfter(part, request, rs, requests, chunk, start, left, |rs|);
  }

  /** Whatever the device replies, a download that ends is told by the replies to its requests. */
  lemma {:induction false} DownloadTold<S(!new)>(fetch: Fetch<S>, s: S, tid: uint32, chunk: uint32, start: uint32,
                                                 left: uint32, out: Bytes, n: nat)
    requires CoversData(fetch) && Download(fetch, s, tid, chunk, start, left, out, n).Some?
    ensures var f := Download(fetch, s, tid, chunk, start, left, out, n).value;
            Told(Received(fetch, s, tid, f.requests), f.requests, f.result, chunk, start, left, out)
    decreases n
  {
    if left == 0 {
      assert out + [] == out;
    } else {
      var max: uint32 := Min(chunk, left);
      assert Asked(s, tid, start, max);
      var (s', r) := fetch(s, tid, start, max);
      if Suffices(r, (start, max)) {
        var part := r.value;
        DownloadTold(fetch, s', NextTid(tid), chunk, Add32(start, part.acquired), Sub32(left, part.acquired),
                     out + part.data, n - 1);
        var rest := Download(fetch, s', NextTid(tid), chunk, Add32(start, part.acquired), Sub32(left, part.acquired),
                             out + part.data, n - 1).value;
        assert ([(start, max)] + rest.requests)[1..] == rest.requests;
        MoreReplies(part, (start, max), Received(fetch, s', NextTid(tid), rest.requests), rest.requests, rest.result,
                    chunk, start, left, out);
      } else {
        OnlyReply(fetch, s, tid, chunk, start, left, out, n);
      }
    }
  }

  lemma {:induction false} OnlyReply<S(!new)>(fetch: Fetch<S>, s: S, tid: uint32, chunk: uint32, start: uint32,
                                              left: uint32, out: Bytes, n: nat)
    requires CoversData(fetch) && 0 < left && 0 < n
    requires !Suffices(fetch(s, tid, start, Min(chunk, left)).1, (start, Min(chunk, left)))
    ensures var f := Download(fetch, s, tid, chunk, start, left, out, n).value;
            Told(Received(fetch, s, tid, f.requests), f.requests, f.result, chunk, start, left, out)
  {
    var max: uint32 := Min(chunk, left);
    assert Asked(s, tid, start, max);
    var (s', r) := fetch(s, tid, start, max);
    var f := Download(fetch, s, tid, chunk, start, left, out, n).value;
    assert r.Ok? && r.value.data == [] ==> out + r.value.data == out;
    assert f.requests == [(start, max)] && [(start, max)][1..] == [];
    assert Received(fetch, s, tid, f.requests) == [r];
    OneReply(r, (start, max), f.result, chunk, start, left, out);
  }

  /** So is every download from a camera whose description can be read. */
  lemma {:induction false} ObjectTold<S(!new)>(link: Link<S>, s: S, tid: uint32, handle: uint32, chunk: uint32, n: nat,
                                               s': S, info: PictFileInfo)
    requires Sound(link) && InfoReply(link, s, tid, handle) == (s', Ok(info))
    requires VendorObject(link, s, tid, handle, chunk, n).Some?
    ensures var f := VendorObject(link, s, tid, handle, chunk, n).value;
            var rs := Received(Parts(link, info.fileAddress), s', NextTid(tid), f.requests);
            Told(rs, f.requests, f.result, chunk, 0, info.fileSize, [])
  {
    PartsCoverData(link, info.fileAddress);
    DownloadTold(Parts(link, info.fileAddress), s', NextTid(tid), chunk, 0, info.fileSize, [], n);
  }

  // ----- descriptions that cannot be read -----

  /** Without a readable description there is no download: the error is its result, and no part is asked for. */
  lemma {:induction false} DescriptionFails<S(!new)>(link: Link<S>, s: S, tid: uint32, handle: uint32, chunk: uint32,
                                                     n: nat, s': S, e: Error)
    requires Sound(link) && InfoReply(link, s, tid, handle) == (s', Err(e))
    ensures VendorObject(link, s, tid, handle, chunk, n) == Some(Fetched(s', NextTid(tid), Err(e), []))
  {
  }

  /** A transaction that fails, for instance as no response arrives. */
  lemma {:induction false} DescriptionUnanswered<S(!new)>(link: Link<S>, s: S, tid: uint32, handle: uint32,
                                                          chunk: uint32, n: nat, s': S, e: Error)
    requires Sound(link)
    requires Transacted(link, s, Command(tid, OP_GET_PICT_FILE_INFO2, [handle])) == (s', Err(e))
    ensures VendorObject(link, s, tid, handle, chunk, n) == Some(Fetched(s', NextTid(tid), Err(e), []))
  {
    DescriptionFails(link, s, tid, handle, chunk, n, s', e);
  }

  /** An answer without data, with too little of them, or with names that do not end. */
  lemma {:induction false} DescriptionUnreadable<S(!new)>(link: Link<S>, s: S, tid: uint32, handle: uint32,
                                                          chunk: uint32, n: nat, inb: Inbound, s': S)
    requires Sound(link)
    requires Delivers(link, Send(link, s, Command(tid, OP_GET_PICT_FILE_INFO2, [handle])), inb, s')
    requires forall i, j | 36 <= i < j < |inb.Payload()| :: inb.Payload()[i] != 0 || inb.Payload()[j] != 0
    ensures var e := if |inb.Payload()| < 36 then ShortBuffer else Unterminated;
            VendorObject(link, s, tid, handle, chunk, n) == Some(Fetched(s', NextTid(tid), Err(e), []))
  {
    DeliveredTransaction(link, s, Command(tid, OP_GET_PICT_FILE_INFO2, [handle]), inb, s');
    InfoFails(inb.Payload());
    DescriptionFails(link, s, tid, handle, chunk, n, s', if |inb.Payload()| < 36 then ShortBuffer else Unterminated);
  }

  // ----- the camera object -----

  /** The download of an object that the camera does not describe: an error, and nothing sent after the one command. */
  method DownloadUndescribed<S(!new)>(camera: SigmaCamera<S>, handle: uint32, chunk: uint32, ghost e: Error)
    returns (r: Result<Bytes>)
    requires Sound(camera.ptp.transport.link)
    requires var (_, reply) := Transacted(camera.ptp.transport.link, camera.ptp.transport.state,
                                          Command(camera.ptp.nextTid, OP_GET_PICT_FILE_INFO2, [handle]));
             match reply
             case Err(error) => e == error
             case Ok(response) =>
               var d := response.data;
               && (forall i, j | 36 <= i < j < |d| :: d[i] != 0 || d[j] != 0)
               && e == if |d| < 36 then ShortBuffer else Unterminated
    modifies camera.ptp, camera.ptp.transport
    ensures r == Err(e)
    ensures camera.ptp.transport.writes ==
            old(camera.ptp.transport.writes) + Command(old(camera.ptp.nextTid), OP_GET_PICT_FILE_INFO2, [handle])
    ensures camera.ptp.nextTid == NextTid(old(camera.ptp.nextTid))
  {
    ghost var (s', reply) := Transacted(camera.ptp.transport.link, camera.ptp.transport.state,
                                        Command(camera.ptp.nextTid, OP_GET_PICT_FILE_INFO2, [handle]));
    if reply.Ok? {
      InfoFails(reply.value.data);
    }
    DescriptionFails(camera.ptp.transport.link, camera.ptp.transport.state, camera.ptp.nextTid, handle, chunk, 0, s', e);
    r := camera.GetObjectVendor(handle, chunk, 0);
  }

  /** The download of a file from a camera that announces and serves it. */
  method DownloadFile<S(!new)>(camera: SigmaCamera<S>, handle: uint32, chunk: uint32, ghost ready: S -> bool,
                               ghost info: PictFileInfo, ghost file: Bytes, ghost full: bool, ghost inb: Inbound,
                               ghost s': S)
    returns (r: Result<Bytes>)
    requires Sound(camera.ptp.transport.link) && |file| == info.fileSize
    requires Serves(camera.ptp.transport.link, ready, info.fileAddress, file, full)
    requires Delivers(camera.ptp.transport.link,
                      Send(camera.ptp.transport.link, camera.ptp.transport.state,
                           Command(camera.ptp.nextTid, OP_GET_PICT_FILE_INFO2, [handle])), inb, s')
    requires Info(inb.Payload()) == Ok(info) && ready(s')
    modifies camera.ptp, camera.ptp.transport
    ensures r.Ok? && r.value <= file && (full && 0 < chunk ==> r.value == file)
    ensures ready(camera.ptp.transport.state)
  {
    EndToEnd(camera.ptp.transport.link, ready, camera.ptp.transport.state, camera.ptp.nextTid, handle, chunk, info, file,
             full, inb, s', |file|);
    r := camera.GetObjectVendor(handle, chunk, |file|);
  }
}
