/** Safety of the write log over whole runs of the vendor operations. */
module VendorLog {
  import opened Wrappers
  import opened Bytes
  import opened Containers
  import opened Transport
  import opened Ptp
  import opened Records
  import opened Groups
  import opened Sigma
  import opened WriteLog

  // ----- the requests of the loops -----

  lemma {:induction false} Regroup(log: seq<Bytes>, a: seq<Bytes>, b: seq<Bytes>)
    ensures log + (a + b) == (log + a) + b
  {
  }

  /** The requests of a polling keep the log in order, and right if it was. */
  lemma {:induction false} StatusRequestsKeepOrder(log: seq<Bytes>, tid: uint32, imageId: byte, n: nat)
    requires Ordered(log, tid)
    ensures var log' := log + StatusRequests(StatusRequest(imageId), tid, n);
            Ordered(log', TidAfter(tid, n)) && (Matched(log') <==> Matched(log))
  {
    var request := StatusRequest(imageId);
    if n == 0 {
      assert log + [] == log;
    } else {
      StatusRequestsKeepOrder(log, tid, imageId, n - 1);
      var a, b := StatusRequests(request, tid, n - 1), request(TidAfter(tid, n - 1));
      AppendCommand(log + a, TidAfter(tid, n - 1), OP_GET_CAPT_STATUS, StatusParams(imageId));
      Regroup(log, a, b);
    }
  }

  /** So do those of a download. */
  lemma {:induction false} PartRequestsKeepOrder(log: seq<Bytes>, tid: uint32, address: uint32,
                                                 ranges: seq<(uint32, uint32)>)
    requires Ordered(log, tid)
    ensures var log' := log + PartRequests(PartRequest(address), tid, ranges);
            Ordered(log', TidAfter(tid, |ranges|)) && (Matched(log') <==> Matched(log))
  {
    var request := PartRequest(address);
    if ranges == [] {
      assert log + [] == log;
    } else {
      var n := |ranges| - 1;
      var q := ranges[n];
      PartRequestsKeepOrder(log, tid, address, ranges[..n]);
      var a, b := PartRequests(request, tid, ranges[..n]), request(TidAfter(tid, n), q.0, q.1);
      assert b == Command(TidAfter(tid, n), OP_GET_BIG_PARTIAL_PICT_FILE, [address, q.0, q.1]);
      AppendCommand(log + a, TidAfter(tid, n), OP_GET_BIG_PARTIAL_PICT_FILE, [address, q.0, q.1]);
      Regroup(log, a, b);
    }
  }

  lemma {:induction false} DownloadTid<S(!new)>(fetch: Fetch<S>, s: S, tid: uint32, chunk: uint32, start: uint32,
                                                left: uint32, out: Bytes, n: nat)
    requires Download(fetch, s, tid, chunk, start, left, out, n).Some?
    ensures var f := Download(fetch, s, tid, chunk, start, left, out, n).value; f.tid == TidAfter(tid, |f.requests|)
    decreases n
  {
    if left > 0 {
      var max: uint32 := Min(chunk, left);
      var (s', r) := fetch(s, tid, start, max);
      if r.Ok? && r.value.acquired > 0 && r.value.data != [] && |r.value.data| >= max {
        var acquired := r.value.acquired;
        DownloadTid(fetch, s', NextTid(tid), chunk, Add32(start, acquired), Sub32(left, acquired), out + r.value.data,
                    n - 1);
        var rest := Download(fetch, s', NextTid(tid), chunk, Add32(start, acquired), Sub32(left, acquired),
                             out + r.value.data, n - 1).value;
        TidAfterOne(tid, |rest.requests|);
      } else {
        assert TidAfter(tid, 1) == NextTid(TidAfter(tid, 0));
      }
    }
  }

  lemma {:induction false} PollTid<S(!new)>(ask: Ask<S>, s: S, tid: uint32, polls: nat, err: nat, st: CaptStatus)
    ensures var p := Poll(ask, s, tid, polls, err, st); p.tid == TidAfter(tid, p.requests)
    decreases polls
  {
    if polls > 0 {
      var (s', r) := ask(s, tid);
      assert TidAfter(tid, 1) == NextTid(TidAfter(tid, 0));
      if r.Ok? {
        var err' := if Unexpected(r.value.status) then err + 1 else err;
        PollTid(ask, s', NextTid(tid), polls - 1, err', r.value);
        TidAfterOne(tid, Poll(ask, s', NextTid(tid), polls - 1, err', r.value).requests);
      }
    }
  }

  // ----- single operations -----

  datatype VendorCall =
    | Status(imageId: byte)
    | Await(imageId: byte, polls: int)
    | Snap(mode: byte, amount: byte)
    | Clear(pictureId: uint32)
    | DescribeLatest
    | Describe(handle: uint32)
    | ReadPart(address: uint32, start: uint32, max: uint32)
    | Fetch(handle: uint32, chunk: uint32)
    | Set(g: Group)
    | Get(id: GroupId)

  /** Transport state, next transaction id and write log. */
  datatype Stage<S> = Stage(s: S, tid: uint32, log: seq<Bytes>)

  /** The loop of a download ends on this device. */
  ghost predicate Ends<S(!new)>(link: Link<S>, s: S, tid: uint32, handle: uint32, chunk: uint32)
    requires Sound(link)
  {
    exists n: nat :: VendorObject(link, s, tid, handle, chunk, n).Some?
  }

  /** A number of requests that suffices for it. */
  ghost function Budget<S(!new)>(link: Link<S>, s: S, tid: uint32, handle: uint32, chunk: uint32): (n: nat)
    requires Sound(link) && Ends(link, s, tid, handle, chunk)
    ensures VendorObject(link, s, tid, handle, chunk, n).Some?
  {
    var n: nat :| VendorObject(link, s, tid, handle, chunk, n).Some?;
    n
  }

  ghost function Fetched<S(!new)>(link: Link<S>, at: Stage<S>, handle: uint32, chunk: uint32): Stage<S>
    requires Sound(link) && Ends(link, at.s, at.tid, handle, chunk)
  {
    var f := VendorObject(link, at.s, at.tid, handle, chunk, Budget(link, at.s, at.tid, handle, chunk)).value;
    var (_, info) := InfoReply(link, at.s, at.tid, handle);
    Stage(f.s, f.tid,
          at.log + Command(at.tid, OP_GET_PICT_FILE_INFO2, [handle])
          + if info.Err? then []
            else PartRequests(PartRequest(info.value.fileAddress), NextTid(at.tid), f.requests))
  }

  ghost function Awaited<S(!new)>(link: Link<S>, at: Stage<S>, imageId: byte, polls: int): Stage<S>
    requires Sound(link)
  {
    var p := Poll(Statuses(link, imageId), at.s, at.tid, if polls < 0 then 0 else polls, 0, NO_STATUS);
    Stage(p.s, p.tid, at.log + StatusRequests(StatusRequest(imageId), at.tid, p.requests))
  }

  // An operation that makes one transaction: its opcode, parameters and data.

  function OpOf(call: VendorCall): uint16
    requires !call.Await? && !call.Fetch?
  {
    match call
    case Status(_) => OP_GET_CAPT_STATUS
    case Snap(_, _) => OP_SNAP_COMMAND
    case Clear(_) => OP_CLEAR_IMAGE_DB_SINGLE
    case DescribeLatest => OP_GET_PICT_FILE_INFO2
    case Describe(_) => OP_GET_PICT_FILE_INFO2
    case ReadPart(_, _, _) => OP_GET_BIG_PARTIAL_PICT_FILE
    case Set(g) => SetOp(IdOf(g))
    case Get(id) => GetOp(id)
  }

  function ParamsOf(call: VendorCall): (params: seq<uint32>)
    ensures |params| <= 3
  {
    match call
    case Status(imageId) => StatusParams(imageId)
    case Clear(pictureId) => [pictureId]
    case Describe(handle) => [handle]
    case ReadPart(address, start, max) => [address, start, max]
    case _ => []
  }

  function DataOf(call: VendorCall): Option<Bytes> {
    match call
    case Snap(mode, amount) => Some(SnapPayload(mode, amount))
    case Clear(_) => Some(Zeros(10))
    case Set(g) => Some(Wire(g))
    case _ => None
  }

  function Frames(call: VendorCall, tid: uint32, stale: uint32): seq<Bytes>
    requires !call.Await? && !call.Fetch?
  {
    Request(tid, stale, OpOf(call), ParamsOf(call), DataOf(call))
  }

  /** One operation; `stale` is the id that clearing fetches for its data phase. */
  ghost function Step<S(!new)>(link: Link<S>, at: Stage<S>, call: VendorCall, stale: uint32): Stage<S>
    requires Sound(link) && (call.Fetch? ==> Ends(link, at.s, at.tid, call.handle, call.chunk))
  {
    if call.Await? then Awaited(link, at, call.imageId, call.polls)
    else if call.Fetch? then Fetched(link, at, call.handle, call.chunk)
    else if call.Set? && !Encodable(call.g) then at
    else
      var frames := Frames(call, at.tid, stale);
      Stage(Transacted(link, at.s, frames).0, NextTid(at.tid), at.log + frames)
  }

  lemma {:induction false} FramesKeepOrder(log: seq<Bytes>, tid: uint32, call: VendorCall, stale: uint32)
    requires !call.Await? && !call.Fetch? && Ordered(log, tid)
    ensures var log' := log + Frames(call, tid, stale);
            && Ordered(log', NextTid(tid))
            && (Matched(log') <==> Matched(log) && (call.Clear? ==> stale == tid))
  {
    if call.Set? {
      WireFits(call.g);
    }
    var op, params, data := OpOf(call), ParamsOf(call), DataOf(call);
    assert data.Some? && params != [] <==> call.Clear?;
    CallKeepsSafe(log, tid, Transact(op, params, data), stale);
  }

  /** Each operation keeps the log in order; all but clearing keep it right, and that if it fetches its own id. */
  lemma {:induction false} StepKeepsOrder<S(!new)>(link: Link<S>, at: Stage<S>, call: VendorCall, stale: uint32)
    requires Sound(link) && (call.Fetch? ==> Ends(link, at.s, at.tid, call.handle, call.chunk))
    requires Ordered(at.log, at.tid)
    ensures var end := Step(link, at, call, stale);
            && Ordered(end.log, end.tid)
            && (Matched(end.log) <==> Matched(at.log) && (call.Clear? ==> stale == at.tid))
  {
    if call.Fetch? {
      var n := Budget(link, at.s, at.tid, call.handle, call.chunk);
      var (s', info) := InfoReply(link, at.s, at.tid, call.handle);
      var log' := at.log + Command(at.tid, OP_GET_PICT_FILE_INFO2, [call.handle]);
      AppendCommand(at.log, at.tid, OP_GET_PICT_FILE_INFO2, [call.handle]);
      if info.Err? {
        assert log' + [] == log';
      } else {
        var address, size := info.value.fileAddress, info.value.fileSize;
        DownloadTid(Parts(link, address), s', NextTid(at.tid), call.chunk, 0, size, [], n);
        PartRequestsKeepOrder(log', NextTid(at.tid), address,
                              VendorObject(link, at.s, at.tid, call.handle, call.chunk, n).value.requests);
      }
    } else if call.Await? {
      var ask, limit := Statuses(link, call.imageId), if call.polls < 0 then 0 else call.polls;
      PollTid(ask, at.s, at.tid, limit, 0, NO_STATUS);
      StatusRequestsKeepOrder(at.log, at.tid, call.imageId, Poll(ask, at.s, at.tid, limit, 0, NO_STATUS).requests);
    } else if !(call.Set? && !Encodable(call.g)) {
      FramesKeepOrder(at.log, at.tid, call, stale);
    }
  }

  // ----- whole runs -----

  /** Every download of the run returns, as there is none or on this device all of them do. */
  ghost predicate Returns<S(!new)>(link: Link<S>, calls: seq<VendorCall>)
    requires Sound(link)
  {
    (forall c | c in calls :: !c.Fetch?)
    || forall s, tid: uint32, handle: uint32, chunk: uint32 :: Ends(link, s, tid, handle, chunk)
  }

  ghost function Run<S(!new)>(link: Link<S>, at: Stage<S>, calls: seq<VendorCall>, stales: seq<uint32>): Stage<S>
    requires Sound(link) && Returns(link, calls) && |stales| == |calls|
  {
    if calls == [] then at
    else
      var n := |calls| - 1;
      Step(link, Run(link, at, calls[..n], stales[..n]), calls[n], stales[n])
  }

  /** Every clearing of the run happens to fetch its own id. */
  ghost predicate Lucky<S(!new)>(link: Link<S>, at: Stage<S>, calls: seq<VendorCall>, stales: seq<uint32>)
    requires Sound(link) && Returns(link, calls) && |stales| == |calls|
  {
    if calls == [] then true
    else
      var n := |calls| - 1;
      && Lucky(link, at, calls[..n], stales[..n])
      && (calls[n].Clear? ==> stales[n] == Run(link, at, calls[..n], stales[..n]).tid)
  }

  /** A run keeps the log in order; it keeps it safe if and only if every clearing fetches its own id. */
  lemma {:induction false} RunIsSafe<S(!new)>(link: Link<S>, at: Stage<S>, calls: seq<VendorCall>, stales: seq<uint32>)
    requires Sound(link) && Returns(link, calls) && |stales| == |calls| && Safe(at.log, at.tid)
    ensures var end := Run(link, at, calls, stales);
            Ordered(end.log, end.tid) && (Safe(end.log, end.tid) <==> Lucky(link, at, calls, stales))
  {
    if calls != [] {
      var n := |calls| - 1;
      RunIsSafe(link, at, calls[..n], stales[..n]);
      StepKeepsOrder(link, Run(link, at, calls[..n], stales[..n]), calls[n], stales[n]);
    }
  }

  lemma {:induction false} NoClearIsLucky<S(!new)>(link: Link<S>, at: Stage<S>, calls: seq<VendorCall>,
                                                   stales: seq<uint32>)
    requires Sound(link) && Returns(link, calls) && |stales| == |calls| && forall c | c in calls :: !c.Clear?
    ensures Lucky(link, at, calls, stales)
  {
    if calls != [] {
      NoClearIsLucky(link, at, calls[..|calls| - 1], stales[..|calls| - 1]);
    }
  }

  lemma {:induction false} ClearCanFail<S(!new)>(link: Link<S>, at: Stage<S>, calls: seq<VendorCall>)
    returns (stales: seq<uint32>)
    requires Sound(link) && Returns(link, calls) && exists c :: c in calls && c.Clear?
    ensures |stales| == |calls| && !Lucky(link, at, calls, stales)
  {
    var n := |calls| - 1;
    if calls[n].Clear? {
      var before: seq<uint32> := seq(n, _ => 0);
      stales := before + [NextTid(Run(link, at, calls[..n], before).tid)];
      assert stales[..n] == before;
    } else {
      var before := ClearCanFail(link, at, calls[..n]);
      stales := before + [0];
      assert stales[..n] == before;
    }
  }

  /** A run is safe whatever is fetched if and only if it clears no image. */
  lemma {:induction false} EveryRunIsSafe<S(!new)>(link: Link<S>, at: Stage<S>, calls: seq<VendorCall>)
    requires Sound(link) && Returns(link, calls) && Safe(at.log, at.tid)
    ensures (forall stales: seq<uint32> | |stales| == |calls| ::
               Safe(Run(link, at, calls, stales).log, Run(link, at, calls, stales).tid)) <==>
            (forall c | c in calls :: !c.Clear?)
  {
    if forall c | c in calls :: !c.Clear? {
      forall stales: seq<uint32> | |stales| == |calls|
        ensures Safe(Run(link, at, calls, stales).log, Run(link, at, calls, stales).tid)
      {
        NoClearIsLucky(link, at, calls, stales);
        RunIsSafe(link, at, calls, stales);
      }
    } else {
      var stales := ClearCanFail(link, at, calls);
      RunIsSafe(link, at, calls, stales);
    }
  }

  /** Clearing an image on a fresh driver: the command carries id 1, and the data whatever was fetched. */
  lemma {:induction false} ClearingSendsAnyId<S(!new)>(link: Link<S>, s: S, pictureId: uint32, stale: uint32)
    requires Sound(link)
    ensures Returns(link, [Clear(pictureId)])
    ensures var end := Run(link, Stage(s, 1, []), [Clear(pictureId)], [stale]);
            && |end.log| == 2 && |end.log[0]| >= HEADER && |end.log[1]| >= HEADER
            && TidOf(end.log[0]) == 1 && TidOf(end.log[1]) == stale
            && (Safe(end.log, end.tid) <==> stale == 1)
  {
    var at, calls := Stage(s, 1, []), [Clear(pictureId)];
    assert calls[..0] == [] && [stale][..0] == [];
    assert Run(link, at, calls[..0], [stale][..0]) == at;
    var call := Transact(OP_CLEAR_IMAGE_DB_SINGLE, [pictureId], Some(Zeros(10)));
    assert [call][..0] == [];
    assert WriteLog.Run([call], [stale]) == ([] + call.Writes(1, stale), 2);
    ExposedSendsAnyId(call, stale);
  }

  // ----- the camera object -----

  /** The operations that make one request without data. */
  method PerformCommand<S(!new)>(camera: SigmaCamera<S>, call: VendorCall, ghost stale: uint32)
    requires Sound(camera.ptp.transport.link)
    requires call.Status? || call.DescribeLatest? || call.Describe? || call.ReadPart? || call.Get?
    modifies camera.ptp, camera.ptp.transport
    ensures Stage(camera.ptp.transport.state, camera.ptp.nextTid, camera.ptp.transport.writes) ==
            Step(camera.ptp.transport.link,
                 old(Stage(camera.ptp.transport.state, camera.ptp.nextTid, camera.ptp.transport.writes)), call, stale)
  {
    match call {
      case Status(imageId) => var _ := camera.GetCamCaptStatus(imageId);
      case DescribeLatest => var _ := camera.GetLatestPictFileInfo2();
      case Describe(handle) => var _ := camera.GetPictFileInfo2(handle);
      case ReadPart(address, start, max) => var _ := camera.GetBigPartialPictFile(address, start, max);
      case Get(id) => var _ := camera.GetGroup(id);
    }
  }

  method PerformClear<S(!new)>(camera: SigmaCamera<S>, pictureId: uint32) returns (ghost stale: uint32)
    requires Sound(camera.ptp.transport.link)
    modifies camera.ptp, camera.ptp.transport
    ensures Stage(camera.ptp.transport.state, camera.ptp.nextTid, camera.ptp.transport.writes) ==
            Step(camera.ptp.transport.link,
                 old(Stage(camera.ptp.transport.state, camera.ptp.nextTid, camera.ptp.transport.writes)),
                 Clear(pictureId), stale)
  {
    ghost var link, s := camera.ptp.transport.link, camera.ptp.transport.state;
    ghost var log, tid := camera.ptp.transport.writes, camera.ptp.nextTid;
    var _ := camera.ClearImageDbSingle(pictureId);
    stale :|
      && camera.ptp.transport.writes == log + ClearRequest(tid, stale, pictureId)
      && camera.ptp.transport.state == Transacted(link, s, ClearRequest(tid, stale, pictureId)).0;
  }

  method PerformSet<S(!new)>(camera: SigmaCamera<S>, group: Group, ghost stale: uint32)
    requires Sound(camera.ptp.transport.link)
    modifies camera.ptp, camera.ptp.transport
    ensures Stage(camera.ptp.transport.state, camera.ptp.nextTid, camera.ptp.transport.writes) ==
            Step(camera.ptp.transport.link,
                 old(Stage(camera.ptp.transport.state, camera.ptp.nextTid, camera.ptp.transport.writes)),
                 Set(group), stale)
  {
    var g := new CamDataGroup(group);
    var _ := camera.SetGroup(g);
  }

  /** An operation of the camera, whatever becomes of it. */
  method Perform<S(!new)>(camera: SigmaCamera<S>, call: VendorCall) returns (ghost stale: uint32)
    requires Sound(camera.ptp.transport.link)
    requires call.Fetch? ==>
               Ends(camera.ptp.transport.link, camera.ptp.transport.state, camera.ptp.nextTid, call.handle, call.chunk)
    modifies camera.ptp, camera.ptp.transport
    ensures Stage(camera.ptp.transport.state, camera.ptp.nextTid, camera.ptp.transport.writes) ==
            Step(camera.ptp.transport.link,
                 old(Stage(camera.ptp.transport.state, camera.ptp.nextTid, camera.ptp.transport.writes)), call, stale)
  {
    stale := 0;
    if call.Await? {
      var _ := camera.WaitCompletion(call.imageId, call.polls);
    } else if call.Fetch? {
      ghost var n := Budget(camera.ptp.transport.link, camera.ptp.transport.state, camera.ptp.nextTid, call.handle,
                            call.chunk);
      var _ := camera.GetObjectVendor(call.handle, call.chunk, n);
    } else if call.Snap? {
      var _ := camera.Snap(call.mode, call.amount);
    } else if call.Clear? {
      stale := PerformClear(camera, call.pictureId);
    } else if call.Set? {
      PerformSet(camera, call.g, stale);
    } else {
      PerformCommand(camera, call, stale);
    }
  }

  /** A run of operations. */
  method PerformAll<S(!new)>(camera: SigmaCamera<S>, calls: seq<VendorCall>) returns (ghost stales: seq<uint32>)
    requires Sound(camera.ptp.transport.link) && Returns(camera.ptp.transport.link, calls)
    requires Safe(camera.ptp.transport.writes, camera.ptp.nextTid)
    modifies camera.ptp, camera.ptp.transport
    ensures |stales| == |calls|
    ensures Stage(camera.ptp.transport.state, camera.ptp.nextTid, camera.ptp.transport.writes) ==
            Run(camera.ptp.transport.link,
                old(Stage(camera.ptp.transport.state, camera.ptp.nextTid, camera.ptp.transport.writes)), calls, stales)
    ensures Ordered(camera.ptp.transport.writes, camera.ptp.nextTid)
    ensures (forall c | c in calls :: !c.Clear?) ==> Safe(camera.ptp.transport.writes, camera.ptp.nextTid)
  {
    ghost var link := camera.ptp.transport.link;
    ghost var at := Stage(camera.ptp.transport.state, camera.ptp.nextTid, camera.ptp.transport.writes);
    stales := [];
    for i := 0 to |calls|
      invariant |stales| == i
      invariant Stage(camera.ptp.transport.state, camera.ptp.nextTid, camera.ptp.transport.writes) ==
                Run(link, at, calls[..i], stales)
    {
      ghost var stale := Perform(camera, calls[i]);
      assert calls[..i + 1][..i] == calls[..i] && (stales + [stale])[..i] == stales;
      stales := stales + [stale];
    }
    assert calls[..|calls|] == calls;
    RunIsSafe(link, at, calls, stales);
    if forall c | c in calls :: !c.Clear? {
      NoClearIsLucky(link, at, calls, stales);
    }
  }
}
