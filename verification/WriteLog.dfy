/** What the driver ever writes: safety of the transport's write log over whole runs. */
module WriteLog {
  import opened Wrappers
  import opened Bytes
  import opened Containers
  import opened Transport
  import opened Ptp

  /** A call of one of the three writing operations of the driver. */
  datatype Call =
    | OpenSession(sid: uint32)
    | CloseSession
    | Transact(op: uint16, params: seq<uint32>, data: Option<Bytes>)
  {
    /** The containers it writes when the next transaction id is `tid`; failing to be answered changes nothing. */
    function Writes(tid: uint32, stale: uint32): seq<Bytes> {
      match this
      case OpenSession(sid) => Command(tid, OP_OPEN_SESSION, [sid])
      case CloseSession => Command(tid, OP_CLOSE_SESSION, [])
      case Transact(op, params, data) => Request(tid, stale, op, params, data)
    }

    /** The sizes fit the 32-bit length field. */
    predicate Fits() {
      Transact? ==> HEADER + 4 * |params| < TWO_32 && (data.Some? ==> HEADER + |data.value| < TWO_32)
    }

    /** The id of its data phase is fetched from where the command buffer may no longer be. */
    predicate Exposed() {
      Transact? && data.Some? && params != []
    }
  }

  /** Log and next transaction id after a run of calls on a fresh driver; `stales[i]` is what call `i` fetches. */
  function Run(calls: seq<Call>, stales: seq<uint32>): (seq<Bytes>, uint32)
    requires |stales| == |calls|
  {
    if calls == [] then ([], 1)
    else
      var n := |calls| - 1;
      var (log, tid) := Run(calls[..n], stales[..n]);
      (log + calls[n].Writes(tid, stales[n]), NextTid(tid))
  }

  /** One well-formed outbound container: its length field is its size. */
  predicate Outbound(b: Bytes) {
    HEADER <= |b| && LengthOf(b) == |b| && (KindOf(b) == COMMAND || KindOf(b) == DATA)
  }

  predicate WellFormed(log: seq<Bytes>) {
    forall i | 0 <= i < |log| :: Outbound(log[i])
  }

  function Commands(log: seq<Bytes>): (n: nat)
    requires WellFormed(log)
    ensures n <= |log|
  {
    if log == [] then 0
    else Commands(log[..|log| - 1]) + (if KindOf(log[|log| - 1]) == COMMAND then 1 else 0)
  }

  /** The k-th command carries transaction id k modulo 2^32; DATA directly follows its command, with the same opcode. */
  predicate InOrder(log: seq<Bytes>, i: nat)
    requires WellFormed(log) && i < |log|
  {
    if KindOf(log[i]) == COMMAND then TidOf(log[i]) == Commands(log[..i + 1]) % TWO_32
    else 0 < i && KindOf(log[i - 1]) == COMMAND && CodeOf(log[i]) == CodeOf(log[i - 1])
  }

  /** DATA carries the transaction id of its command. */
  predicate SameId(log: seq<Bytes>, i: nat)
    requires WellFormed(log) && i < |log|
  {
    KindOf(log[i]) == DATA && 0 < i ==> TidOf(log[i]) == TidOf(log[i - 1])
  }

  /** Well-formed containers in order, and the driver's counter is one past the last command. */
  ghost predicate Ordered(log: seq<Bytes>, next: uint32) {
    && WellFormed(log)
    && (forall i | 0 <= i < |log| :: InOrder(log, i))
    && next == (Commands(log) + 1) % TWO_32
  }

  ghost predicate Matched(log: seq<Bytes>)
    requires WellFormed(log)
  {
    forall i | 0 <= i < |log| :: SameId(log, i)
  }

  ghost predicate Safe(log: seq<Bytes>, next: uint32) {
    Ordered(log, next) && Matched(log)
  }

  // ----- one more container -----

  lemma {:induction false} Append(log: seq<Bytes>, b: Bytes)
    requires WellFormed(log) && Outbound(b)
    ensures WellFormed(log + [b])
    ensures Commands(log + [b]) == Commands(log) + (if KindOf(b) == COMMAND then 1 else 0)
    ensures forall i | 0 <= i < |log| :: InOrder(log + [b], i) == InOrder(log, i)
    ensures Matched(log + [b]) <==> Matched(log) && SameId(log + [b], |log|)
  {
    assert (log + [b])[..|log|] == log;
    forall i | 0 <= i < |log|
      ensures InOrder(log + [b], i) == InOrder(log, i) && SameId(log + [b], i) == SameId(log, i)
    {
      assert (log + [b])[..i + 1] == log[..i + 1];
    }
  }

  lemma {:induction false} FrameIsOutbound(c: Container)
    requires c.Fits() && (c.kind == COMMAND || c.kind == DATA)
    ensures Outbound(Frame(c))
    ensures KindOf(Frame(c)) == c.kind && CodeOf(Frame(c)) == c.code && TidOf(Frame(c)) == c.tid
  {
    FrameFields(c, []);
    assert Frame(c) + [] == Frame(c);
  }

  lemma {:induction false} NextWraps(n: nat)
    ensures NextTid(n % TWO_32) == (n + 1) % TWO_32
  {
    var q, r := n / 0x1_0000_0000, n % 0x1_0000_0000;
    assert n == q * 0x1_0000_0000 + r;
  }

  lemma {:induction false} AppendCommand(log: seq<Bytes>, next: uint32, op: uint16, params: seq<uint32>)
    requires Ordered(log, next) && HEADER + 4 * |params| < TWO_32
    ensures Ordered(log + Command(next, op, params), NextTid(next))
    ensures Commands(log + Command(next, op, params)) == Commands(log) + 1
    ensures Matched(log + Command(next, op, params)) <==> Matched(log)
  {
    var c := Container(COMMAND, op, next, UnWords(params));
    FrameIsOutbound(c);
    Append(log, Frame(c));
    var log' := log + [Frame(c)];
    assert log'[..|log| + 1] == log';
    assert InOrder(log', |log|);
    NextWraps(Commands(log) + 1);
  }

  lemma {:induction false} AppendData(log: seq<Bytes>, next: uint32, cmd: Container, c: Container)
    requires Ordered(log, next) && log != [] && log[|log| - 1] == Frame(cmd)
    requires cmd.Fits() && cmd.kind == COMMAND && c.Fits() && c.kind == DATA && c.code == cmd.code
    ensures Ordered(log + [Frame(c)], next)
    ensures Commands(log + [Frame(c)]) == Commands(log)
    ensures Matched(log + [Frame(c)]) <==> Matched(log) && c.tid == cmd.tid
  {
    FrameIsOutbound(cmd);
    FrameIsOutbound(c);
    Append(log, Frame(c));
    assert InOrder(log + [Frame(c)], |log|);
  }

  // ----- one more call -----

  lemma {:induction false} RequestKeepsOrder(log: seq<Bytes>, next: uint32, stale: uint32, op: uint16,
                                             params: seq<uint32>, data: Bytes)
    requires Ordered(log, next) && HEADER + 4 * |params| < TWO_32 && HEADER + |data| < TWO_32
    ensures var log' := log + Request(next, stale, op, params, Some(data));
            && Ordered(log', NextTid(next)) && Commands(log') == Commands(log) + 1
            && (Matched(log') <==> Matched(log) && DataTid(next, stale, params) == next)
  {
    var cmd := Container(COMMAND, op, next, UnWords(params));
    var c := Container(DATA, op, DataTid(next, stale, params), data);
    AppendCommand(log, next, op, params);
    AppendData(log + Command(next, op, params), NextTid(next), cmd, c);
    assert log + Command(next, op, params) + [Frame(c)] == log + Request(next, stale, op, params, Some(data));
  }

  /**
   Each call keeps the log in order and adds one command. It keeps the log safe exactly
   when it is not exposed, or fetches the right id all the same.
   */
  lemma {:induction false} CallKeepsSafe(log: seq<Bytes>, next: uint32, call: Call, stale: uint32)
    requires Ordered(log, next) && call.Fits()
    ensures Ordered(log + call.Writes(next, stale), NextTid(next))
    ensures Commands(log + call.Writes(next, stale)) == Commands(log) + 1
    ensures Safe(log + call.Writes(next, stale), NextTid(next)) <==>
            Safe(log, next) && (call.Exposed() ==> stale == next)
  {
    match call
    case OpenSession(sid) => AppendCommand(log, next, OP_OPEN_SESSION, [sid]);
    case CloseSession => AppendCommand(log, next, OP_CLOSE_SESSION, []);
    case Transact(op, params, data) =>
      if data.Some? {
        RequestKeepsOrder(log, next, stale, op, params, data.value);
      } else {
        AppendCommand(log, next, op, params);
      }
  }

  // ----- whole runs -----

  /** Every exposed call happens to fetch its own id. */
  predicate Lucky(calls: seq<Call>, stales: seq<uint32>)
    requires |stales| == |calls|
  {
    forall i | 0 <= i < |calls| && calls[i].Exposed() :: stales[i] == (i + 1) % TWO_32
  }

  lemma {:induction false} LuckyStep(calls: seq<Call>, stales: seq<uint32>, n: nat)
    requires |stales| == |calls| == n + 1
    ensures Lucky(calls, stales) <==>
            Lucky(calls[..n], stales[..n]) && (calls[n].Exposed() ==> stales[n] == (n + 1) % TWO_32)
  {
    forall i | 0 <= i < n ensures calls[..n][i] == calls[i] && stales[..n][i] == stales[i] {
    }
  }

  /**
   Over every run of calls the k-th call writes the k-th command, and the log is in order;
   it is safe if and only if every exposed call happens to fetch its own id.
   */
  lemma {:induction false} RunIsSafe(calls: seq<Call>, stales: seq<uint32>)
    requires |stales| == |calls| && forall c | c in calls :: c.Fits()
    ensures var (log, next) := Run(calls, stales);
            Ordered(log, next) && Commands(log) == |calls| && (Safe(log, next) <==> Lucky(calls, stales))
  {
    if calls != [] {
      var n := |calls| - 1;
      RunIsSafe(calls[..n], stales[..n]);
      LuckyStep(calls, stales, n);
      var (log, tid) := Run(calls[..n], stales[..n]);
      CallKeepsSafe(log, tid, calls[n], stales[n]);
    }
  }

  /** A run is safe whatever is fetched if and only if no call has both parameters and data. */
  lemma {:induction false} EveryRunIsSafe(calls: seq<Call>)
    requires forall c | c in calls :: c.Fits()
    ensures (forall stales: seq<uint32> | |stales| == |calls| :: Safe(Run(calls, stales).0, Run(calls, stales).1)) <==>
            (forall c | c in calls :: !c.Exposed())
  {
    forall stales: seq<uint32> | |stales| == |calls|
      ensures (forall c | c in calls :: !c.Exposed()) ==> Safe(Run(calls, stales).0, Run(calls, stales).1)
    {
      RunIsSafe(calls, stales);
    }
    if i :| 0 <= i < |calls| && calls[i].Exposed() {
      var stales: seq<uint32> := seq(|calls|, j => if (i + 1) % TWO_32 == 0 then 1 else 0);
      RunIsSafe(calls, stales);
      assert stales[i] != (i + 1) % TWO_32;
    }
  }

  /** On a fresh driver the command of an exposed call carries id 1, and its data whatever was fetched. */
  lemma {:induction false} ExposedSendsAnyId(call: Call, stale: uint32)
    requires call.Fits() && call.Exposed()
    ensures var (log, next) := Run([call], [stale]);
            && |log| == 2 && |log[0]| >= HEADER && |log[1]| >= HEADER
            && TidOf(log[0]) == 1 && TidOf(log[1]) == stale
            && (Safe(log, next) <==> stale == 1)
  {
    RunIsSafe([call], [stale]);
    assert Run([call][..0], [stale][..0]) == ([], 1);
    assert Run([call], [stale]).0 == call.Writes(1, stale);
    FrameIsOutbound(Container(COMMAND, call.op, 1, UnWords(call.params)));
    FrameIsOutbound(Container(DATA, call.op, stale, call.data.value));
  }

  // ----- the driver object -----

  /** A call of the driver, whatever becomes of it. */
  method Perform<S(!new)>(camera: CameraPTP<S>, call: Call) returns (ghost stale: uint32)
    requires Sound(camera.transport.link) && call.Fits() && Ordered(camera.transport.writes, camera.nextTid)
    modifies camera, camera.transport
    ensures camera.transport.writes == old(camera.transport.writes) + call.Writes(old(camera.nextTid), stale)
    ensures camera.nextTid == NextTid(old(camera.nextTid))
    ensures Ordered(camera.transport.writes, camera.nextTid)
    ensures old(Safe(camera.transport.writes, camera.nextTid)) && !call.Exposed() ==>
              Safe(camera.transport.writes, camera.nextTid)
  {
    ghost var log, tid := camera.transport.writes, camera.nextTid;
    stale := 0;
    match call {
      case OpenSession(sid) => var _ := camera.OpenSession(sid);
      case CloseSession => var _ := camera.CloseSession();
      case Transact(op, params, data) =>
        var _ := camera.Transact(op, params, data, false);
        stale :| camera.transport.writes == log + Request(tid, stale, op, params, data);
    }
    CallKeepsSafe(log, tid, call, stale);
  }

  /** A run of calls on a fresh driver, for every device and whatever is fetched. */
  method PerformAll<S(!new)>(camera: CameraPTP<S>, calls: seq<Call>) returns (ghost stales: seq<uint32>)
    requires Sound(camera.transport.link) && camera.transport.writes == [] && camera.nextTid == 1
    requires forall c | c in calls :: c.Fits()
    modifies camera, camera.transport
    ensures |stales| == |calls| && (camera.transport.writes, camera.nextTid) == Run(calls, stales)
    ensures Ordered(camera.transport.writes, camera.nextTid)
    ensures (forall c | c in calls :: !c.Exposed()) ==> Safe(camera.transport.writes, camera.nextTid)
  {
    stales := [];
    for i := 0 to |calls|
      invariant |stales| == i && (camera.transport.writes, camera.nextTid) == Run(calls[..i], stales)
      invariant Ordered(camera.transport.writes, camera.nextTid)
    {
      ghost var stale := Perform(camera, calls[i]);
      assert calls[..i + 1][..i] == calls[..i] && (stales + [stale])[..i] == stales;
      stales := stales + [stale];
    }
    assert calls[..|calls|] == calls;
    RunIsSafe(calls, stales);
  }
}
