/** The queue transport the driver is tried on (src/ptp/fake_transport.cpp). */
module FakeTransport {
  import opened Wrappers
  import opened Bytes
  import opened Containers
  import opened Transport
  import opened Ptp
  import opened Protocol

  const RESP_OK: uint16 := 0x2001

  // ----- the object's state and what its methods do to it -----

  datatype Fake = Fake(open: bool, writes: seq<Bytes>, rx: Bytes, ev: Bytes, lastTxn: uint32)

  /** The response container built by `build_resp`. */
  function Resp(rc: uint16, txn: uint32, params: seq<uint32>): Container {
    Container(RESPONSE, rc, txn, UnWords(params))
  }

  function Written(f: Fake, data: Bytes): Fake {
    f.(writes := f.writes + [data],
       lastTxn := if HEADER <= |data| && KindOf(data) == COMMAND then TidOf(data) else f.lastTxn)
  }

  /** The bytes an automatic reply adds: an OK response to the last command when nothing is queued. */
  function AutoReply(f: Fake): Bytes {
    if f.rx != [] || f.lastTxn == 0 then [] else Frame(Resp(RESP_OK, f.lastTxn, []))
  }

  function Read(f: Fake, max: nat): (Fake, Bytes) {
    var rx := f.rx + AutoReply(f);
    var n := if max < |rx| then max else |rx|;
    (f.(rx := rx[n..]), rx[..n])
  }

  function Interrupt(f: Fake, max: nat): (Fake, Bytes) {
    var n := if max < |f.ev| then max else |f.ev|;
    (f.(ev := f.ev[n..]), f.ev[..n])
  }

  method BuildResp(rc: uint16, txn: uint32, params: seq<uint32>) returns (b: Bytes)
    ensures b == Frame(Resp(rc, txn, params))
  {
    b := Le32(Wrap32(HEADER + |params| * 4));
    b := b + Le16(3);
    b := b + Le16(rc);
    b := b + Le32(txn);
    for i := 0 to |params|
      invariant b == Header(HEADER + |params| * 4, RESPONSE, rc, txn) + UnWords(params[..i])
    {
      assert params[..i + 1][..i] == params[..i];
      b := b + Le32(params[i]);
    }
    assert params[..|params|] == params;
  }

  class FakeTransport {
    var writes: seq<Bytes>
    var open: bool
    var rx: Bytes
    var ev: Bytes
    var lastTxn: uint32

    function State(): Fake
      reads this
    {
      Fake(open, writes, rx, ev, lastTxn)
    }

    constructor ()
      ensures State() == Fake(true, [], [], [], 0)
    {
      writes, open, rx, ev, lastTxn := [], true, [], [], 0;
    }

    method QueueRead(v: Bytes)
      modifies this
      ensures State() == old(State()).(rx := old(rx) + v)
    {
      rx := rx + v;
    }

    method Close()
      modifies this
      ensures State() == Fake(false, [], [], old(ev), old(lastTxn))
    {
      open, writes, rx := false, [], [];
    }

    method WriteExact(data: Bytes)
      modifies this
      ensures State() == Written(old(State()), data)
    {
      writes := writes + [data];
      var last := writes[|writes| - 1];
      if |data| >= 12 && KindOf(last) == COMMAND {
        lastTxn := TidOf(last);
      }
    }

    method EnsureAutoOk()
      modifies this
      ensures State() == old(State()).(rx := old(rx) + old(AutoReply(State())))
    {
      if rx != [] || lastTxn == 0 {
        return;
      }
      var reply := BuildResp(RESP_OK, lastTxn, []);
      QueueRead(reply);
    }

    method ReadSome(max: nat) returns (b: Bytes)
      modifies this
      ensures (State(), b) == Read(old(State()), max)
    {
      EnsureAutoOk();
      if rx == [] {
        return [];
      }
      var n := if max < |rx| then max else |rx|;
      b := rx[..n];
      rx := rx[n..];
    }

    method ReadIntr(max: nat) returns (b: Bytes)
      modifies this
      ensures (State(), b) == Interrupt(old(State()), max)
    {
      if ev == [] {
        return [];
      }
      var n := if max < |ev| then max else |ev|;
      b := ev[..n];
      ev := ev[n..];
    }
  }

  // ----- the driver on this transport -----

  /** The transport, and whether the last bulk read found nothing. */
  datatype Line = Line(fake: Fake, dry: bool)

  /** A bulk read of nothing delivers no bytes; a second one in a row fails, since so would all that follow. */
  function ReadLine(l: Line): (Line, Option<Bytes>) {
    var (f, b) := Read(l.fake, CHUNK);
    if b != [] then (Line(f, false), Some(b))
    else (Line(f, true), if l.dry then None else Some([]))
  }

  function FakeLink(): Link<Line> {
    Link((l: Line, data: Bytes) => Line(Written(l.fake, data), false),
         (l: Line) => ReadLine(l),
         (l: Line) => var (f, b) := Interrupt(l.fake, INTERRUPT); (Line(f, l.dry), b),
         (l: Line) => if l.dry then 0 else 1)
  }

  lemma {:induction false} FakeIsSound()
    ensures Sound(FakeLink())
  {
    var link := FakeLink();
    forall l: Line
      ensures var (l', b) := link.read(l);
              b.Some? ==> |b.value| <= CHUNK && (b.value == [] ==> link.patience(l') < link.patience(l))
    {
    }
    forall l: Line ensures |link.interrupt(l).1| <= INTERRUPT {
    }
  }

  /** A bulk read of the driver takes at most 1 MiB, an interrupt read at most 64 bytes. */
  lemma {:induction false} BufferSizes(l: Line)
    ensures l.fake.rx != [] ==>
              ReadLine(l).1 == Some(if |l.fake.rx| < 0x10_0000 then l.fake.rx else l.fake.rx[..0x10_0000])
    ensures FakeLink().interrupt(l).1 == if |l.fake.ev| < 64 then l.fake.ev else l.fake.ev[..64]
  {
    assert l.fake.rx + [] == l.fake.rx && l.fake.rx[..|l.fake.rx|] == l.fake.rx;
    assert l.fake.ev[..|l.fake.ev|] == l.fake.ev;
  }

  /** The fake once a request is written. */
  function Asked(f: Fake, tid: uint32, stale: uint32, op: uint16, params: seq<uint32>, data: Option<Bytes>): Fake {
    f.(writes := f.writes + Request(tid, stale, op, params, data), lastTxn := tid)
  }

  lemma {:induction false} SentToFake(l: Line, tid: uint32, stale: uint32, op: uint16, params: seq<uint32>,
                                      data: Option<Bytes>)
    ensures Send(FakeLink(), l, Request(tid, stale, op, params, data)) ==
            Line(Asked(l.fake, tid, stale, op, params, data), false)
  {
    var f, frames := l.fake, Request(tid, stale, op, params, data);
    SendSteps(FakeLink(), l, frames);
    HeaderFields(HEADER + |UnWords(params)|, COMMAND, op, tid, frames[0]);
    if data.Some? {
      HeaderFields(HEADER + |data.value|, DATA, op, DataTid(tid, stale, params), frames[1]);
      assert f.writes + [frames[0]] + [frames[1]] == f.writes + frames;
    }
  }

  /** One read takes everything that is queued or replied, up to its size. */
  lemma {:induction false} ReadsAll(f: Fake, b: Bytes)
    requires f.rx + AutoReply(f) == b && |b| <= CHUNK
    ensures ReadLine(Line(f, false)) == (Line(f.(rx := []), b == []), Some(b))
  {
    assert b[..|b|] == b && b[|b|..] == [];
  }

  lemma {:induction false} AutoReplies(f: Fake)
    requires f.rx == []
    ensures f.rx + AutoReply(f) == if f.lastTxn == 0 then [] else Frame(Resp(RESP_OK, f.lastTxn, []))
  {
    assert [] + AutoReply(f) == AutoReply(f);
  }

  /** The driver gives up on a first read without a header. */
  lemma {:induction false} NothingToRead<S(!new)>(link: Link<S>, s: S)
    requires Sound(link) && link.read(s).1 == Some([])
    ensures Receive(link, s) == (link.read(s).0, Err(ShortHeader))
  {
  }

  lemma {:induction false} SilentFakeSendsNothing(f: Fake)
    requires f.rx == [] && f.lastTxn == 0
    ensures Sound(FakeLink())
    ensures Receive(FakeLink(), Line(f, false)) == (Line(f, true), Err(ShortHeader))
  {
    FakeIsSound();
    AutoReplies(f);
    ReadsAll(f, []);
    NothingToRead(FakeLink(), Line(f, false));
  }

  /** Queued bytes are read in pieces as large as the buffer; no reply comes between. */
  lemma {:induction false} QueueIsChopped(f: Fake, dry: bool)
    requires f.rx != []
    ensures Yields(FakeLink(), Line(f, dry), Chop(f.rx))
    ensures After(FakeLink(), Line(f, dry), |Chop(f.rx)|) == Line(f.(rx := []), false)
    decreases |f.rx|
  {
    var link, l, b := FakeLink(), Line(f, dry), f.rx;
    assert b + [] == b;
    if |b| <= CHUNK {
      assert b[..|b|] == b && b[|b|..] == [];
      assert link.read(l) == (Line(f.(rx := []), false), Some(b));
      assert Chop(b)[1..] == [];
      assert After(link, l, 1) == After(link, link.read(l).0, 0);
    } else {
      var rest := f.(rx := b[CHUNK..]);
      assert link.read(l) == (Line(rest, false), Some(b[..CHUNK]));
      QueueIsChopped(rest, false);
      assert Chop(b)[1..] == Chop(b[CHUNK..]);
      assert rest.(rx := []) == f.(rx := []);
    }
  }

  lemma {:induction false} QueueDelivers(f: Fake, resp: Container)
    requires resp.Good() && resp.kind == RESPONSE && f.rx == Frame(resp)
    ensures Delivers(FakeLink(), Line(f, false), Inbound([], None, resp, [Chop(f.rx)]), Line(f.(rx := []), false))
  {
    QueueIsChopped(f, false);
    ChopCuts(f.rx);
    FlatCuts(Chop(f.rx), []);
    assert [] + ([] + [resp]) == [resp];
  }

  lemma {:induction false} QueueIsReceived(f: Fake, rc: uint16, id: uint32, ps: seq<uint32>)
    requires Resp(rc, id, ps).Fits() && f.rx == Frame(Resp(rc, id, ps))
    ensures Sound(FakeLink())
    ensures Receive(FakeLink(), Line(f, false)) == (Line(f.(rx := []), false), Ok(Response(rc, ps, [])))
  {
    var resp := Resp(rc, id, ps);
    FakeIsSound();
    QueueDelivers(f, resp);
    DeliveredIsReceived(FakeLink(), Line(f, false), Inbound([], None, resp, [Chop(f.rx)]), Line(f.(rx := []), false));
    RespIsAccepted(rc, id, ps);
  }

  lemma {:induction false} RespIsAccepted(rc: uint16, id: uint32, ps: seq<uint32>)
    ensures Accept(Resp(rc, id, ps), []) == Response(rc, ps, [])
  {
    WordsUnWords(ps, []);
    assert UnWords(ps) + [] == UnWords(ps);
  }

  /** A single queued response is what the next transaction returns, whatever id it carries and however long it is. */
  lemma {:induction false} QueuedResponseIsReturned(l: Line, rc: uint16, id: uint32, ps: seq<uint32>, tid: uint32,
                                                    stale: uint32, op: uint16, params: seq<uint32>, data: Option<Bytes>)
    requires Resp(rc, id, ps).Fits() && l.fake.rx == Frame(Resp(rc, id, ps))
    ensures Sound(FakeLink())
    ensures Transacted(FakeLink(), l, Request(tid, stale, op, params, data)) ==
            (Line(Asked(l.fake, tid, stale, op, params, data).(rx := []), false), Ok(Response(rc, ps, [])))
  {
    FakeIsSound();
    SentToFake(l, tid, stale, op, params, data);
    QueueIsReceived(Asked(l.fake, tid, stale, op, params, data), rc, id, ps);
  }

  lemma {:induction false} SameReadSameReceive<S(!new)>(link: Link<S>, s: S, t: S)
    requires Sound(link) && link.read(s) == link.read(t)
    ensures Receive(link, s) == Receive(link, t)
  {
  }

  lemma {:induction false} ReplyIsRead(f: Fake)
    requires f.rx == []
    ensures var g := f.(rx := AutoReply(f));
            FakeLink().read(Line(f, false)) == FakeLink().read(Line(g, false)) && g.(rx := []) == f
  {
    var reply := AutoReply(f);
    assert [] + reply == reply && reply + [] == reply;
  }

  /** An automatic reply is read as if it had been queued. */
  lemma {:induction false} IdleFakeReplies(f: Fake)
    requires f.rx == [] && f.lastTxn != 0
    ensures Sound(FakeLink())
    ensures Receive(FakeLink(), Line(f, false)) == (Line(f, false), Ok(Response(RESP_OK, [], [])))
  {
    FakeIsSound();
    AutoReplies(f);
    var g := f.(rx := AutoReply(f));
    ReplyIsRead(f);
    SameReadSameReceive(FakeLink(), Line(f, false), Line(g, false));
    QueueIsReceived(g, RESP_OK, f.lastTxn, []);
  }

  /**
   With nothing queued, a transaction ends OK, without data or parameters and leaving nothing
   queued, exactly when its id is not zero; otherwise the driver reports a short header.
   */
  lemma {:induction false} IdleFakeAnswersOk(l: Line, tid: uint32, stale: uint32, op: uint16, params: seq<uint32>,
                                             data: Option<Bytes>)
    requires l.fake.rx == []
    ensures Sound(FakeLink())
    ensures Transacted(FakeLink(), l, Request(tid, stale, op, params, data)) ==
            (Line(Asked(l.fake, tid, stale, op, params, data), tid == 0),
             if tid == 0 then Err(ShortHeader) else Ok(Response(0x2001, [], [])))
  {
    FakeIsSound();
    SentToFake(l, tid, stale, op, params, data);
    if tid == 0 {
      SilentFakeSendsNothing(Asked(l.fake, tid, stale, op, params, data));
    } else {
      IdleFakeReplies(Asked(l.fake, tid, stale, op, params, data));
    }
  }

  // ----- conservation of bytes -----

  datatype Step = QueueStep(v: Bytes) | WriteStep(data: Bytes) | ReadStep(max: nat) | InterruptStep(max: nat)

  /** State, bytes delivered and bytes queued (an automatic reply included) by one step. */
  function Perform(g: Fake, step: Step): (Fake, Bytes, Bytes) {
    match step
    case QueueStep(v) => (g.(rx := g.rx + v), [], v)
    case WriteStep(data) => (Written(g, data), [], [])
    case ReadStep(max) => (Read(g, max).0, Read(g, max).1, AutoReply(g))
    case InterruptStep(max) => (Interrupt(g, max).0, [], [])
  }

  function Run(f: Fake, steps: seq<Step>): (Fake, Bytes, Bytes) {
    if steps == [] then (f, [], [])
    else
      var (g, delivered, queued) := Run(f, steps[..|steps| - 1]);
      var (h, b, q) := Perform(g, steps[|steps| - 1]);
      (h, delivered + b, queued + q)
  }

  lemma {:induction false} ReadConserves(g: Fake, max: nat, reply: Bytes)
    requires reply == AutoReply(g)
    ensures Read(g, max).1 + Read(g, max).0.rx == g.rx + reply
  {
    var rx := g.rx + reply;
    var n := if max < |rx| then max else |rx|;
    assert rx[..n] + rx[n..] == rx;
  }

  lemma {:induction false} StepConserves(g: Fake, step: Step)
    ensures var (h, b, q) := Perform(g, step);
            b + h.rx == g.rx + q
  {
    if step.ReadStep? {
      ReadConserves(g, step.max, AutoReply(g));
    } else if step.QueueStep? {
      assert [] + (g.rx + step.v) == g.rx + step.v;
    } else {
      assert [] + g.rx == g.rx + [];
    }
  }

  /** A read of either queue takes as many bytes as there are, up to its size, off the front, and nothing else changes. */
  lemma {:induction false} ReadsTakeTheFront(f: Fake, max: nat)
    ensures var (g, b) := Read(f, max);
            && b + g.rx == f.rx + AutoReply(f) && |b| <= max && (g.rx == [] || |b| == max)
            && g == f.(rx := g.rx)
    ensures var (g, b) := Interrupt(f, max);
            b + g.ev == f.ev && |b| <= max && (g.ev == [] || |b| == max) && g == f.(ev := g.ev)
  {
    ReadConserves(f, max, AutoReply(f));
    var n := if max < |f.ev| then max else |f.ev|;
    assert f.ev[..n] + f.ev[n..] == f.ev;
  }

  /** No byte is lost, duplicated or reordered: delivered bytes and the rest of the queue are all bytes ever queued. */
  lemma {:induction false} BytesAreConserved(f: Fake, steps: seq<Step>)
    ensures var (g, delivered, queued) := Run(f, steps);
            delivered + g.rx == f.rx + queued
  {
    if steps == [] {
      assert [] + f.rx == f.rx + [];
    } else {
      BytesAreConserved(f, steps[..|steps| - 1]);
      var (g, delivered, queued) := Run(f, steps[..|steps| - 1]);
      StepConserves(g, steps[|steps| - 1]);
      var (h, b, q) := Perform(g, steps[|steps| - 1]);
      Regroup(delivered, b, h.rx, g.rx, f.rx, queued, q);
    }
  }

  lemma {:induction false} Regroup(delivered: Bytes, b: Bytes, rest: Bytes, before: Bytes, initial: Bytes,
                                   queued: Bytes, q: Bytes)
    requires delivered + before == initial + queued && b + rest == before + q
    ensures (delivered + b) + rest == initial + (queued + q)
  {
    assert (delivered + b) + rest == delivered + (b + rest);
    assert delivered + (before + q) == (delivered + before) + q;
    assert initial + (queued + q) == (initial + queued) + q;
  }
}
