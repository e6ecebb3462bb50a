/** Chunking independence of framing, and the transaction protocol over containers. */
module Protocol {
  import opened Wrappers
  import opened Bytes
  import opened Containers
  import opened Transport
  import opened Ptp

  // ----- what a transport is about to deliver -----

  function Concat(chunks: seq<Bytes>): (b: Bytes) {
    if chunks == [] then [] else chunks[0] + Concat(chunks[1..])
  }

  /** From state `s`, the next bulk reads deliver exactly `chunks`. */
  ghost predicate Yields<S(!new)>(link: Link<S>, s: S, chunks: seq<Bytes>) {
    chunks == [] || (link.read(s).1 == Some(chunks[0]) && Yields(link, link.read(s).0, chunks[1..]))
  }

  /** The state after `n` bulk reads. */
  ghost function After<S(!new)>(link: Link<S>, s: S, n: nat): S {
    if n == 0 then s else After(link, link.read(s).0, n - 1)
  }

  lemma {:induction false} YieldsConcat<S(!new)>(link: Link<S>, s: S, a: seq<Bytes>, b: seq<Bytes>)
    ensures Yields(link, s, a + b) <==> Yields(link, s, a) && Yields(link, After(link, s, |a|), b)
    ensures After(link, s, |a + b|) == After(link, After(link, s, |a|), |b|)
  {
    if a == [] {
      assert a + b == b;
    } else {
      assert (a + b)[1..] == a[1..] + b;
      YieldsConcat(link, link.read(s).0, a[1..], b);
    }
  }

  // ----- reads as large as the driver's buffer -----

  function Chop(b: Bytes): (chunks: seq<Bytes>)
    ensures chunks != [] && |chunks[0]| == if |b| < CHUNK then |b| else CHUNK
  {
    if |b| <= CHUNK then [b] else [b[..CHUNK]] + Chop(b[CHUNK..])
  }

  // ----- chunking independence -----

  /** `chunks` cut `bytes` anywhere (empty reads included) except that the last read completes it. */
  predicate Cuts(chunks: seq<Bytes>, bytes: Bytes) {
    chunks != [] && Concat(chunks) == bytes && chunks[|chunks| - 1] != []
  }

  lemma {:induction false} FillDelivers<S(!new)>(link: Link<S>, s: S, out: Bytes, need: nat, chunks: seq<Bytes>)
    requires Sound(link) && Yields(link, s, chunks) && chunks != []
    requires |out + Concat(chunks)| >= need > |out + Concat(chunks[..|chunks| - 1])|
    ensures Fill(link, s, out, need) == (After(link, s, |chunks|), Ok((out + Concat(chunks))[..need]))
    decreases |chunks|
  {
    assert out + Concat(chunks) == (out + chunks[0]) + Concat(chunks[1..]);
    if |chunks| > 1 {
      assert chunks[..|chunks| - 1][1..] == chunks[1..][..|chunks| - 2];
      assert chunks[..|chunks| - 1][0] == chunks[0];
      assert out + Concat(chunks[..|chunks| - 1]) == (out + chunks[0]) + Concat(chunks[1..][..|chunks| - 2]);
      FillDelivers(link, link.read(s).0, out + chunks[0], need, chunks[1..]);
    } else {
      assert chunks[1..] == [] && chunks[..0] == [] && out + Concat([]) == out;
      assert out + Concat(chunks) == out + chunks[0];
      assert After(link, s, 1) == After(link, link.read(s).0, 0);
    }
  }

  lemma {:induction false} ConcatInit(chunks: seq<Bytes>)
    requires chunks != []
    ensures Concat(chunks) == Concat(chunks[..|chunks| - 1]) + chunks[|chunks| - 1]
  {
    if |chunks| == 1 {
      assert chunks[1..] == [] && chunks[..0] == [];
    } else {
      ConcatInit(chunks[1..]);
      assert chunks[1..][..|chunks| - 2] == chunks[..|chunks| - 1][1..];
    }
  }

  /**
   However a container is cut into reads, reassembly returns exactly its bytes and
   leaves the transport just after them -- if and only if the first read holds the
   12 header bytes. A shorter first read makes the driver give up.
   */
  lemma {:induction false} ChunkingIndependence<S(!new)>(link: Link<S>, s: S, c: Container, chunks: seq<Bytes>)
    requires Sound(link) && c.Fits() && Cuts(chunks, Frame(c)) && Yields(link, s, chunks)
    ensures 12 <= |chunks[0]| ==> ReadContainer(link, s) == (After(link, s, |chunks|), Ok(Frame(c)))
    ensures |chunks[0]| < 12 ==> ReadContainer(link, s) == (link.read(s).0, Err(ShortHeader))
  {
    var first, rest := chunks[0], chunks[1..];
    var frame := Frame(c);
    assert frame == first + Concat(rest);
    if HEADER <= |first| {
      FrameFields(c, []);
      assert frame + [] == frame;
      assert ReadLe32(first, 0) == ReadLe32(frame, 0);
      if rest == [] {
        assert frame == first;
        assert After(link, s, 1) == After(link, link.read(s).0, 0);
      } else {
        ConcatInit(rest);
        assert rest[|rest| - 1] == chunks[|chunks| - 1];
        assert |Concat(rest)| > 0 ;
        FillDelivers(link, link.read(s).0, first, |frame|, rest);
        assert (first + Concat(rest))[..|frame|] == frame;
      }
    }
  }

  lemma {:induction false} FillStarves<S(!new)>(link: Link<S>, s: S, out: Bytes, need: nat, chunks: seq<Bytes>)
    requires Sound(link) && Yields(link, s, chunks) && |out + Concat(chunks)| < need
    requires link.read(After(link, s, |chunks|)).1 == None
    ensures Fill(link, s, out, need).1 == Err(Timeout)
    decreases |chunks|
  {
    if chunks != [] {
      assert out + Concat(chunks) == (out + chunks[0]) + Concat(chunks[1..]);
      FillStarves(link, link.read(s).0, out + chunks[0], need, chunks[1..]);
    }
  }

  /** A container of which the rest does not arrive times out. */
  lemma {:induction false} ContainerStarves<S(!new)>(link: Link<S>, s: S, c: Container, chunks: seq<Bytes>)
    requires Sound(link) && c.Fits() && chunks != [] && Yields(link, s, chunks)
    requires Concat(chunks) < Frame(c) && 12 <= |chunks[0]|
    requires link.read(After(link, s, |chunks|)).1 == None
    ensures ReadContainer(link, s).1 == Err(Timeout)
  {
    var first, rest := chunks[0], chunks[1..];
    FrameFields(c, []);
    assert Frame(c) + [] == Frame(c);
    assert first <= Frame(c);
    assert ReadLe32(first, 0) == ReadLe32(Frame(c), 0);
    FillStarves(link, link.read(s).0, first, |Frame(c)|, rest);
  }

  /**
   Bytes beyond the length named in the header: cut when the container needed several
   reads, but kept when a single read brought it all.
   */
  lemma {:induction false} SurplusHandling<S(!new)>(link: Link<S>, s: S, c: Container, surplus: Bytes,
                                                    chunks: seq<Bytes>)
    requires Sound(link) && c.Fits() && Yields(link, s, chunks) && chunks != []
    requires Concat(chunks) == Frame(c) + surplus
    requires HEADER <= |chunks[0]| && |Concat(chunks[..|chunks| - 1])| < |Frame(c)|
    ensures ReadContainer(link, s) ==
            (After(link, s, |chunks|), Ok(if |chunks| == 1 then Frame(c) + surplus else Frame(c)))
  {
    var first, rest := chunks[0], chunks[1..];
    FrameFields(c, surplus);
    assert Frame(c) + surplus == first + Concat(rest);
    assert ReadLe32(first, 0) == ReadLe32(Frame(c) + surplus, 0);
    assert After(link, s, 1) == After(link, link.read(s).0, 0);
    if rest == [] {
      assert Concat(rest) == [] && first == Frame(c) + surplus;
    } else {
      var init := chunks[..|chunks| - 1];
      assert init[0] == first && init[1..] == rest[..|rest| - 1];
      assert Concat(init) == first + Concat(rest[..|rest| - 1]);
      FillDelivers(link, link.read(s).0, first, |Frame(c)|, rest);
      assert (Frame(c) + surplus)[..|Frame(c)|] == Frame(c);
    }
  }

  // ----- the protocol over containers -----

  datatype Verdict = Verdict(result: Result<Response>, used: nat)

  function Accept(resp: Container, data: Bytes): Response {
    Response(resp.code, Words(resp.payload), data)
  }

  /** What a transaction makes of the containers that arrive; None when they run out first. */
  function Judge(cs: seq<Container>, guard: nat): Option<Verdict>
    decreases |cs|
  {
    if cs == [] then None
    else if cs[0].kind == EVENT && guard < MAX_STRAY_EVENTS then
      var v := Judge(cs[1..], guard + 1);
      if v.None? then None else Some(Verdict(v.value.result, v.value.used + 1))
    else if cs[0].kind == DATA then
      if |cs| == 1 then None
      else if cs[1].kind != RESPONSE then Some(Verdict(Err(ExpectedResponse), 2))
      else Some(Verdict(Ok(Accept(cs[1], cs[0].payload)), 2))
    else if cs[0].kind == RESPONSE then Some(Verdict(Ok(Accept(cs[0], [])), 1))
    else Some(Verdict(Err(UnexpectedContainer), 1))
  }

  /** Containers together with the reads they arrive in, one list of reads per container. */
  ghost predicate Deliverable(cs: seq<Container>, cuts: seq<seq<Bytes>>) {
    && |cs| == |cuts|
    && forall i | 0 <= i < |cs| :: cs[i].Good() && Cuts(cuts[i], Frame(cs[i])) && HEADER <= |cuts[i][0]|
  }

  function Flat(cuts: seq<seq<Bytes>>): seq<Bytes> {
    if cuts == [] then [] else cuts[0] + Flat(cuts[1..])
  }

  lemma {:induction false} ChopCuts(b: Bytes)
    requires b != []
    ensures Cuts(Chop(b), b)
  {
    if |b| <= CHUNK {
      assert Chop(b)[1..] == [] && b + [] == b;
    } else {
      ChopCuts(b[CHUNK..]);
      assert Chop(b)[1..] == Chop(b[CHUNK..]);
      assert b == b[..CHUNK] + b[CHUNK..];
    }
  }

  lemma {:induction false} FlatCuts(a: seq<Bytes>, b: seq<Bytes>)
    ensures Flat([a]) == a && Flat([a] + [b]) == a + b
  {
    assert [a][1..] == [] && ([a] + [b])[1..] == [b] && [b][1..] == [];
    assert a + [] == a && b + [] == b;
  }

  lemma {:induction false} ReadNext<S(!new)>(link: Link<S>, s: S, cs: seq<Container>, cuts: seq<seq<Bytes>>)
    requires Sound(link) && Deliverable(cs, cuts) && cs != [] && Yields(link, s, Flat(cuts))
    ensures var s' := After(link, s, |cuts[0]|);
            && ReadContainer(link, s) == (s', Ok(Frame(cs[0])))
            && Deliverable(cs[1..], cuts[1..]) && Yields(link, s', Flat(cuts[1..]))
    ensures forall n: nat | n < |cuts| ::
              After(link, s, |Flat(cuts[..n + 1])|) == After(link, After(link, s, |cuts[0]|), |Flat(cuts[1..][..n])|)
  {
    YieldsConcat(link, s, cuts[0], Flat(cuts[1..]));
    ChunkingIndependence(link, s, cs[0], cuts[0]);
    forall n: nat | n < |cuts|
      ensures After(link, s, |Flat(cuts[..n + 1])|) == After(link, After(link, s, |cuts[0]|), |Flat(cuts[1..][..n])|)
    {
      assert cuts[..n + 1][1..] == cuts[1..][..n];
      YieldsConcat(link, s, cuts[0], Flat(cuts[1..][..n]));
    }
  }

  lemma {:induction false} ConcludeIs(c: Container, data: Bytes)
    requires c.Good() && c.kind == RESPONSE
    ensures Conclude(Frame(c), data) == Ok(Accept(c, data))
  {
    FrameFields(c, []);
    assert Frame(c) + [] == Frame(c);
  }

  lemma {:induction false} KindOfFrame(c: Container)
    requires c.Fits()
    ensures Whole(Frame(c)) && KindOf(Frame(c)) == c.kind
    ensures LengthOf(Frame(c)) == |Frame(c)| && Frame(c)[HEADER..LengthOf(Frame(c))] == c.payload
  {
    FrameFields(c, []);
    assert Frame(c) + [] == Frame(c);
  }

  lemma {:induction false} JudgeAfterEvents(events: seq<Container>, rest: seq<Container>, guard: nat)
    requires AllEvents(events) && guard + |events| <= MAX_STRAY_EVENTS
    ensures Judge(events + rest, guard) ==
            match Judge(rest, guard + |events|)
            case None => None
            case Some(v) => Some(Verdict(v.result, v.used + |events|))
  {
    if events == [] {
      assert events + rest == rest;
    } else {
      assert (events + rest)[1..] == events[1..] + rest && (events + rest)[0] == events[0];
      JudgeAfterEvents(events[1..], rest, guard + 1);
    }
  }

  lemma {:induction false} SkipOne<S(!new)>(link: Link<S>, s: S, pkt: Bytes, guard: nat, s': S, next: Bytes)
    requires Sound(link) && Whole(pkt) && KindOf(pkt) == EVENT && guard < MAX_STRAY_EVENTS
    requires ReadContainer(link, s) == (s', Ok(next)) && Whole(next)
    ensures Continue(link, s, pkt, guard) == Continue(link, s', next, guard + 1)
  {
  }

  /** With `cs[0]` in hand and not to be skipped; `cuts` are the reads of the containers after it. */
  lemma {:induction false} SettleFollowsProtocol<S(!new)>(link: Link<S>, s: S, cs: seq<Container>,
                                                          cuts: seq<seq<Bytes>>, guard: nat)
    requires Sound(link) && cs != [] && cs[0].Good() && Deliverable(cs[1..], cuts) && Yields(link, s, Flat(cuts))
    requires cs[0].kind != EVENT || guard >= MAX_STRAY_EVENTS
    requires Judge(cs, guard).Some?
    ensures Whole(Frame(cs[0]))
    ensures var v := Judge(cs, guard).value;
            && 1 <= v.used <= |cs|
            && Settle(link, s, Frame(cs[0])) == (After(link, s, |Flat(cuts[..v.used - 1])|), v.result)
  {
    var c, rest := cs[0], cs[1..];
    KindOfFrame(c);
    assert cuts[..0] == [];
    if c.kind == DATA {
      ReadNext(link, s, rest, cuts);
      KindOfFrame(rest[0]);
      assert cuts[1..][..0] == [];
      if rest[0].kind == RESPONSE {
        ConcludeIs(rest[0], c.payload);
      }
    } else if c.kind == RESPONSE {
      ConcludeIs(c, []);
    }
  }

  lemma {:induction false} ContinueFollowsProtocol<S(!new)>(link: Link<S>, s: S, cs: seq<Container>,
                                                            cuts: seq<seq<Bytes>>, guard: nat)
    requires Sound(link) && cs != [] && cs[0].Good() && Deliverable(cs[1..], cuts) && Yields(link, s, Flat(cuts))
    requires Judge(cs, guard).Some?
    ensures Whole(Frame(cs[0]))
    ensures var v := Judge(cs, guard).value;
            && 1 <= v.used <= |cs|
            && Continue(link, s, Frame(cs[0]), guard) == (After(link, s, |Flat(cuts[..v.used - 1])|), v.result)
    decreases |cs|
  {
    KindOfFrame(cs[0]);
    if cs[0].kind == EVENT && guard < MAX_STRAY_EVENTS {
      var rest, s' := cs[1..], After(link, s, |cuts[0]|);
      ReadNext(link, s, rest, cuts);
      ContinueFollowsProtocol(link, s', rest, cuts[1..], guard + 1);
      SkipOne(link, s, Frame(cs[0]), guard, s', Frame(rest[0]));
      var n := Judge(rest, guard + 1).value.used;
      assert After(link, s', |Flat(cuts[1..][..n - 1])|) == After(link, s, |Flat(cuts[..n])|);
    } else {
      SettleFollowsProtocol(link, s, cs, cuts, guard);
    }
  }

  /**
   The byte-level receive refines the protocol over containers: whatever containers
   arrive, however each is cut into reads, the outcome and the number of containers
   consumed are those of `Judge`.
   */
  lemma {:induction false} ReceiveFollowsProtocol<S(!new)>(link: Link<S>, s: S, cs: seq<Container>,
                                                           cuts: seq<seq<Bytes>>)
    requires Sound(link) && Deliverable(cs, cuts) && Yields(link, s, Flat(cuts))
    requires Judge(cs, 0).Some?
    ensures var v := Judge(cs, 0).value;
            && v.used <= |cs|
            && Receive(link, s) == (After(link, s, |Flat(cuts[..v.used])|), v.result)
  {
    ReadNext(link, s, cs, cuts);
    ContinueFollowsProtocol(link, After(link, s, |cuts[0]|), cs, cuts[1..], 0);
    assert Receive(link, s) == Continue(link, After(link, s, |cuts[0]|), Frame(cs[0]), 0);
  }

  // ----- which runs succeed -----

  predicate AllEvents(cs: seq<Container>) {
    forall c | c in cs :: c.kind == EVENT
  }

  /** At most eight events, then an optional DATA, then a RESPONSE. */
  predicate Exchange(events: seq<Container>, data: Option<Container>, resp: Container) {
    && |events| <= MAX_STRAY_EVENTS && AllEvents(events)
    && (data.Some? ==> data.value.kind == DATA) && resp.kind == RESPONSE
  }

  function Listed(data: Option<Container>): seq<Container> {
    if data.Some? then [data.value] else []
  }

  /** The response record has the response's code and parameters, and the data. */
  lemma {:induction false} AcceptedFields(resp: Container, data: Bytes)
    requires |resp.payload| % 4 == 0
    ensures var r := Accept(resp, data);
            r.code == resp.code && UnWords(r.params) == resp.payload && r.data == data
  {
    UnWordsWords(resp.payload);
  }

  /**
   At most eight events, then an optional DATA, then a RESPONSE, by the numbers of their
   kinds: exactly that data, response code and parameters, and nothing after it is touched.
   */
  lemma {:induction false} ExchangeSucceeds(events: seq<Container>, data: Option<Container>, resp: Container,
                                            later: seq<Container>)
    requires |events| <= 8 && (forall c | c in events :: c.kind == 4)
    requires (data.Some? ==> data.value.kind == 2) && resp.kind == 3 && |resp.payload| % 4 == 0
    ensures var v := Judge(events + (Listed(data) + [resp] + later), 0);
            && v.Some? && v.value.result.Ok? && v.value.used == |events| + (if data.Some? then 2 else 1)
            && var r := v.value.result.value;
               r.code == resp.code && UnWords(r.params) == resp.payload
               && r.data == if data.Some? then data.value.payload else []
  {
    JudgeExchange(events, data, resp, later);
    AcceptedFields(resp, if data.Some? then data.value.payload else []);
  }

  lemma {:induction false} JudgeExchange(events: seq<Container>, data: Option<Container>, resp: Container,
                                         later: seq<Container>)
    requires Exchange(events, data, resp)
    ensures Judge(events + (Listed(data) + [resp] + later), 0) ==
            Some(Verdict(Ok(Accept(resp, if data.Some? then data.value.payload else [])),
                         |events| + |Listed(data)| + 1))
  {
    var rest := Listed(data) + [resp] + later;
    JudgeAfterEvents(events, rest, 0);
    assert data.Some? ==> rest[0] == data.value && rest[1] == resp;
    assert data.None? ==> rest[0] == resp;
  }

  /** The first `n` containers are events, of kind 4, and no more. */
  predicate Leading(cs: seq<Container>, n: nat) {
    n <= |cs| && (forall i | 0 <= i < n :: cs[i].kind == 4) && (n < |cs| ==> cs[n].kind != 4)
  }

  /**
   Exactly when a run of containers ends in success: up to eight events are skipped, and
   after them comes a RESPONSE, of kind 3, or a DATA, of kind 2, directly followed by one.
   */
  lemma {:induction false} SuccessShape(cs: seq<Container>, n: nat)
    requires Leading(cs, n)
    ensures (Judge(cs, 0).Some? && Judge(cs, 0).value.result.Ok?) <==>
            && n <= 8
            && (|| (n < |cs| && cs[n].kind == 3)
                || (n + 1 < |cs| && cs[n].kind == 2 && cs[n + 1].kind == 3))
  {
    if n <= 8 {
      AfterLeading(cs, n);
    } else {
      NinthEventFails(cs);
    }
  }

  /** Exactly when one ends in an error, with which, and after how many containers. */
  lemma {:induction false} FailureShape(cs: seq<Container>, n: nat, e: Error, used: nat)
    requires Leading(cs, n)
    ensures Judge(cs, 0) == Some(Verdict(Err(e), used)) <==>
            || (9 <= n && e == UnexpectedContainer && used == 9)
            || (n <= 8 && n < |cs| && cs[n].kind != 2 && cs[n].kind != 3 && e == UnexpectedContainer && used == n + 1)
            || (n <= 8 && n + 1 < |cs| && cs[n].kind == 2 && cs[n + 1].kind != 3
                && e == ExpectedResponse && used == n + 2)
  {
    if n <= 8 {
      AfterLeading(cs, n);
    } else {
      NinthEventFails(cs);
    }
  }

  lemma {:induction false} AfterLeading(cs: seq<Container>, n: nat)
    requires Leading(cs, n) && n <= 8
    ensures Judge(cs, 0) ==
            match Judge(cs[n..], n)
            case None => None
            case Some(v) => Some(Verdict(v.result, v.used + n))
  {
    assert cs == cs[..n] + cs[n..];
    JudgeAfterEvents(cs[..n], cs[n..], 0);
  }

  lemma {:induction false} NinthEventFails(cs: seq<Container>)
    requires |cs| >= 9 && forall i | 0 <= i < 9 :: cs[i].kind == 4
    ensures Judge(cs, 0) == Some(Verdict(Err(UnexpectedContainer), 9))
  {
    assert cs == cs[..8] + cs[8..];
    JudgeAfterEvents(cs[..8], cs[8..], 0);
  }

  // ----- transactions answered by a well-shaped exchange -----

  datatype Inbound = Inbound(events: seq<Container>, data: Option<Container>, resp: Container, cuts: seq<seq<Bytes>>) {
    function Containers(): seq<Container> {
      events + (Listed(data) + [resp])
    }

    function Payload(): Bytes {
      if data.Some? then data.value.payload else []
    }
  }

  /** From `s` the transport delivers `inb`, cut anyhow, after which it is in `s'`. */
  ghost predicate Delivers<S(!new)>(link: Link<S>, s: S, inb: Inbound, s': S) {
    && Exchange(inb.events, inb.data, inb.resp)
    && Deliverable(inb.Containers(), inb.cuts)
    && Yields(link, s, Flat(inb.cuts))
    && s' == After(link, s, |Flat(inb.cuts)|)
  }

  lemma {:induction false} DeliveredIsReceived<S(!new)>(link: Link<S>, s: S, inb: Inbound, s': S)
    requires Sound(link) && Delivers(link, s, inb, s')
    ensures Receive(link, s) == (s', Ok(Accept(inb.resp, inb.Payload())))
  {
    var cs := inb.Containers();
    JudgeExchange(inb.events, inb.data, inb.resp, []);
    assert Listed(inb.data) + [inb.resp] + [] == Listed(inb.data) + [inb.resp];
    ReceiveFollowsProtocol(link, s, cs, inb.cuts);
    assert inb.cuts[..|cs|] == inb.cuts;
  }

  lemma {:induction false} DeliveredTransaction<S(!new)>(link: Link<S>, s: S, frames: seq<Bytes>, inb: Inbound, s': S)
    requires Sound(link) && Delivers(link, Send(link, s, frames), inb, s')
    ensures Transacted(link, s, frames) == (s', Ok(Accept(inb.resp, inb.Payload())))
  {
    DeliveredIsReceived(link, Send(link, s, frames), inb, s');
  }

  /**
   A transaction answered by at most eight events, an optional DATA and a RESPONSE, cut
   anyhow: it returns the response's code and parameters and the data, byte for byte, and
   consumes exactly those containers.
   */
  lemma {:induction false} TransactionCorrect<S(!new)>(link: Link<S>, s: S, frames: seq<Bytes>, inb: Inbound)
    requires Sound(link)
    requires |inb.events| <= 8 && (forall c | c in inb.events :: c.kind == 4)
    requires (inb.data.Some? ==> inb.data.value.kind == 2) && inb.resp.kind == 3
    requires Deliverable(inb.events + (Listed(inb.data) + [inb.resp]), inb.cuts)
    requires Yields(link, Send(link, s, frames), Flat(inb.cuts))
    ensures var (s', r) := Transacted(link, s, frames);
            && s' == After(link, Send(link, s, frames), |Flat(inb.cuts)|)
            && Delivers(link, Send(link, s, frames), inb, s')
            && r.Ok? && r.value.code == inb.resp.code && UnWords(r.value.params) == inb.resp.payload
            && r.value.data == inb.Payload() == if inb.data.Some? then inb.data.value.payload else []
  {
    var s' := After(link, Send(link, s, frames), |Flat(inb.cuts)|);
    DeliveredTransaction(link, s, frames, inb, s');
    var cs := inb.Containers();
    assert cs[|cs| - 1] == inb.resp;
    AcceptedFields(inb.resp, inb.Payload());
  }

  // ----- transactions that are not answered -----

  /** When the containers run out before they decide the transaction, it times out. */
  lemma {:induction false} ContinueRunsOut<S(!new)>(link: Link<S>, s: S, cs: seq<Container>, cuts: seq<seq<Bytes>>,
                                                    guard: nat)
    requires Sound(link) && cs != [] && cs[0].Good() && Deliverable(cs[1..], cuts) && Yields(link, s, Flat(cuts))
    requires Judge(cs, guard).None? && link.read(After(link, s, |Flat(cuts)|)).1 == None
    ensures Whole(Frame(cs[0])) && Continue(link, s, Frame(cs[0]), guard).1 == Err(Timeout)
    decreases |cs|
  {
    KindOfFrame(cs[0]);
    if |cs| == 1 {
      assert Flat(cuts) == [] && After(link, s, 0) == s;
    } else {
      var rest, s' := cs[1..], After(link, s, |cuts[0]|);
      ReadNext(link, s, rest, cuts);
      assert cuts[..|cuts|] == cuts && cuts[1..][..|cuts| - 1] == cuts[1..];
      ContinueRunsOut(link, s', rest, cuts[1..], guard + 1);
      SkipOne(link, s, Frame(cs[0]), guard, s', Frame(rest[0]));
    }
  }

  lemma {:induction false} TransactionTimesOut<S(!new)>(link: Link<S>, s: S, frames: seq<Bytes>, cs: seq<Container>,
                                                        cuts: seq<seq<Bytes>>)
    requires Sound(link) && Deliverable(cs, cuts) && Yields(link, Send(link, s, frames), Flat(cuts))
    requires Judge(cs, 0).None? && link.read(After(link, Send(link, s, frames), |Flat(cuts)|)).1 == None
    ensures Transacted(link, s, frames).1 == Err(Timeout)
  {
    var s0 := Send(link, s, frames);
    if cs == [] {
      assert Flat(cuts) == [] && After(link, s0, 0) == s0;
    } else {
      ReadNext(link, s0, cs, cuts);
      assert cuts[..|cuts|] == cuts && cuts[1..][..|cuts| - 1] == cuts[1..];
      ContinueRunsOut(link, After(link, s0, |cuts[0]|), cs, cuts[1..], 0);
    }
  }

  /** When they decide it against the device, it fails as they say. */
  lemma {:induction false} TransactionFails<S(!new)>(link: Link<S>, s: S, frames: seq<Bytes>, cs: seq<Container>,
                                                     cuts: seq<seq<Bytes>>, n: nat)
    requires Sound(link) && Deliverable(cs, cuts) && Yields(link, Send(link, s, frames), Flat(cuts)) && Leading(cs, n)
    ensures 9 <= n || (n < |cs| && cs[n].kind != 2 && cs[n].kind != 3) ==>
              Transacted(link, s, frames).1 == Err(UnexpectedContainer)
    ensures n <= 8 && n + 1 < |cs| && cs[n].kind == 2 && cs[n + 1].kind != 3 ==>
              Transacted(link, s, frames).1 == Err(ExpectedResponse)
  {
    FailureShape(cs, n, UnexpectedContainer, if 9 <= n then 9 else n + 1);
    FailureShape(cs, n, ExpectedResponse, n + 2);
    if Judge(cs, 0).Some? {
      ReceiveFollowsProtocol(link, Send(link, s, frames), cs, cuts);
    }
  }
}
