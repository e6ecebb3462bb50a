/** How often the capture status is polled, and which status is returned. */
module Polling {
  import opened Wrappers
  import opened Bytes
  import opened Transport
  import opened Ptp
  import opened Protocol
  import opened Records
  import opened Sigma

  /** The camera answers the next requests with these statuses, one after another. */
  ghost predicate Reports<S(!new)>(ask: Ask<S>, s: S, tid: uint32, sts: seq<CaptStatus>)
    decreases |sts|
  {
    sts == [] || (var (s', r) := ask(s, tid); r == Ok(sts[0]) && Reports(ask, s', NextTid(tid), sts[1..]))
  }

  /** How many of the statuses are unexpected. */
  function Surprises(sts: seq<CaptStatus>): nat {
    if sts == [] then 0 else Surprises(sts[..|sts| - 1]) + if Unexpected(sts[|sts| - 1].status) then 1 else 0
  }

  /** Status `k` ends the polling: capture is completed, or this is the 16th unexpected status. */
  predicate Ends(sts: seq<CaptStatus>, k: nat)
    requires k < |sts|
  {
    || Completed(sts[k].status)
    || (Unexpected(sts[k].status) && Surprises(sts[..k + 1]) == MAX_UNEXPECTED + 1)
  }

  /** The first status that ends the polling, or the number of statuses. */
  function FirstEnd(sts: seq<CaptStatus>, k: nat): (n: nat)
    requires k <= |sts|
    ensures k <= n <= |sts| && (forall i | k <= i < n :: !Ends(sts, i)) && (n < |sts| ==> Ends(sts, n))
    decreases |sts| - k
  {
    if k == |sts| || Ends(sts, k) then k else FirstEnd(sts, k + 1)
  }

  lemma {:induction false} SurprisesStep(sts: seq<CaptStatus>, k: nat)
    requires k < |sts|
    ensures Surprises(sts[..k + 1]) == if Unexpected(sts[k].status) then Surprises(sts[..k]) + 1 else Surprises(sts[..k])
    ensures Ends(sts, k) <==> Completed(sts[k].status)
                              || (Unexpected(sts[k].status) && Surprises(sts[..k]) == MAX_UNEXPECTED)
  {
    assert sts[..k + 1][..k] == sts[..k];
  }

  lemma {:induction false} ReportsStep<S(!new)>(ask: Ask<S>, s: S, tid: uint32, sts: seq<CaptStatus>, k: nat)
    requires k < |sts| && Reports(ask, s, tid, sts[k..])
    ensures var (s', r) := ask(s, tid); r == Ok(sts[k]) && Reports(ask, s', NextTid(tid), sts[k + 1..])
  {
    assert sts[k..][0] == sts[k] && sts[k..][1..] == sts[k + 1..];
  }

  lemma {:induction false} PollOnce<S(!new)>(ask: Ask<S>, s: S, tid: uint32, polls: nat, err: nat, st: CaptStatus)
    requires 0 < polls && ask(s, tid).1.Ok?
    ensures var (s', r) := ask(s, tid);
            var err' := if Unexpected(r.value.status) then err + 1 else err;
            var p := Poll(ask, s, tid, polls, err, st);
            if Completed(r.value.status) || (Unexpected(r.value.status) && err' > MAX_UNEXPECTED)
            then p.requests == 1 && p.result == r
            else var rest := Poll(ask, s', NextTid(tid), polls - 1, err', r.value);
                 p.requests == rest.requests + 1 && p.result == rest.result
  {
  }

  /** The statuses decide a polling of at most `polls` requests: there are enough, or one ends it. */
  predicate Decides(sts: seq<CaptStatus>, polls: nat) {
    |sts| == polls || (|sts| < polls && FirstEnd(sts, 0) < |sts|)
  }

  /** The outcome of polling from status `k` on, when status `n` ends it or the polls do. */
  predicate EndsAt<S>(p: Polled<S>, sts: seq<CaptStatus>, k: nat, n: nat, polls: nat)
    requires n <= |sts| <= polls && (n == |sts| ==> n == polls)
  {
    && p.requests + k == (if n == polls then n else n + 1)
    && p.result == Ok(if n < polls then sts[n] else if n == 0 then NO_STATUS else sts[n - 1])
  }

  lemma {:induction false} PollFrom<S(!new)>(ask: Ask<S>, s: S, tid: uint32, sts: seq<CaptStatus>, k: nat, st: CaptStatus,
                                             polls: nat)
    requires k <= |sts| && Reports(ask, s, tid, sts[k..])
    requires |sts| == polls || (|sts| < polls && FirstEnd(sts, k) < |sts|)
    requires st == if k == 0 then NO_STATUS else sts[k - 1]
    requires Surprises(sts[..k]) <= MAX_UNEXPECTED
    ensures EndsAt(Poll(ask, s, tid, polls - k, Surprises(sts[..k]), st), sts, k, FirstEnd(sts, k), polls)
    decreases |sts| - k
  {
    if k < |sts| {
      SurprisesStep(sts, k);
      ReportsStep(ask, s, tid, sts, k);
      PollOnce(ask, s, tid, polls - k, Surprises(sts[..k]), st);
      if !Ends(sts, k) {
        var s' := ask(s, tid).0;
        PollFrom(ask, s', NextTid(tid), sts, k + 1, sts[k], polls);
      }
    }
  }

  /** As many requests as it takes to reach an end, at most `polls`, and the last status read. */
  predicate Bounded<S>(p: Polled<S>, sts: seq<CaptStatus>, polls: nat) {
    && p.requests == Min(polls, FirstEnd(sts, 0) + 1) <= |sts|
    && p.result == Ok(if p.requests == 0 then NO_STATUS else sts[p.requests - 1])
  }

  /**
   For every sequence of statuses, polling makes exactly as many requests as it takes to
   reach the first completed status or the 16th unexpected one, but no more than asked for,
   and returns the last status read, or the initial record when there were no polls.
   */
  lemma {:induction false} PollingBound<S(!new)>(ask: Ask<S>, s: S, tid: uint32, sts: seq<CaptStatus>, polls: nat)
    requires Reports(ask, s, tid, sts) && Decides(sts, polls)
    ensures Bounded(Poll(ask, s, tid, polls, 0, NO_STATUS), sts, polls)
  {
    assert sts[0..] == sts && sts[..0] == [];
    PollFrom(ask, s, tid, sts, 0, NO_STATUS, polls);
  }

  // ----- which statuses end it, by their codes -----

  lemma {:induction false} SurprisesCounted(sts: seq<CaptStatus>, n: nat)
    requires n <= |sts|
    ensures Surprises(sts[..n]) ==
            |set i: nat | i < n && sts[i].status !in {0x0001, 0x0002, 0x0004, 0x0005, 0x8001, 0x8002, 0x8003}|
  {
    if n > 0 {
      SurprisesCounted(sts, n - 1);
      SurprisesStep(sts, n - 1);
      var a := set i: nat | i < n - 1 && sts[i].status !in {0x0001, 0x0002, 0x0004, 0x0005, 0x8001, 0x8002, 0x8003};
      var b := set i: nat | i < n && sts[i].status !in {0x0001, 0x0002, 0x0004, 0x0005, 0x8001, 0x8002, 0x8003};
      assert b == if Unexpected(sts[n - 1].status) then a + {n - 1} else a;
    }
  }

  /** Capture is completed, 0x0005 or 0x8003; or this is the 16th status outside the seven known ones. */
  lemma {:induction false} EndsByCode(sts: seq<CaptStatus>, k: nat)
    requires k < |sts|
    ensures Ends(sts, k) <==>
            || sts[k].status in {0x0005, 0x8003}
            || (&& sts[k].status !in {0x0001, 0x0002, 0x0004, 0x0005, 0x8001, 0x8002, 0x8003}
                && |set i: nat | i < k + 1
                       && sts[i].status !in {0x0001, 0x0002, 0x0004, 0x0005, 0x8001, 0x8002, 0x8003}| == 16)
  {
    SurprisesCounted(sts, k + 1);
  }

  lemma {:induction false} FirstEndIs(sts: seq<CaptStatus>, k: nat, n: nat)
    requires k <= n <= |sts| && (forall i | k <= i < n :: !Ends(sts, i)) && (n < |sts| ==> Ends(sts, n))
    ensures FirstEnd(sts, k) == n
  {
  }

  lemma {:induction false} CompletionDecides(sts: seq<CaptStatus>, polls: nat)
    requires 0 < |sts| <= polls
    requires forall i | 0 <= i < |sts| - 1 :: sts[i].status in {0x0001, 0x0002, 0x0004, 0x8001, 0x8002}
    requires sts[|sts| - 1].status in {0x0005, 0x8003}
    ensures FirstEnd(sts, 0) == |sts| - 1 && Decides(sts, polls)
  {
    FirstEndIs(sts, 0, |sts| - 1);
  }

  /** While capture goes on the driver polls, and the first completed status is returned. */
  lemma {:induction false} CompletionEnds<S(!new)>(ask: Ask<S>, s: S, tid: uint32, sts: seq<CaptStatus>, polls: nat)
    requires Reports(ask, s, tid, sts) && 0 < |sts| <= polls
    requires forall i | 0 <= i < |sts| - 1 :: sts[i].status in {0x0001, 0x0002, 0x0004, 0x8001, 0x8002}
    requires sts[|sts| - 1].status in {0x0005, 0x8003}
    ensures var p := Poll(ask, s, tid, polls, 0, NO_STATUS); p.requests == |sts| && p.result == Ok(sts[|sts| - 1])
  {
    CompletionDecides(sts, polls);
    PollingBound(ask, s, tid, sts, polls);
  }

  /** Unknown statuses are taken for a capture that goes on, until the 16th, which is returned. */
  lemma {:induction false} SixteenthUnknownEnds<S(!new)>(ask: Ask<S>, s: S, tid: uint32, sts: seq<CaptStatus>,
                                                         polls: nat)
    requires Reports(ask, s, tid, sts) && 0 < |sts| <= polls
    requires forall i | 0 <= i < |sts| :: sts[i].status !in {0x0005, 0x8003}
    requires sts[|sts| - 1].status !in {0x0001, 0x0002, 0x0004, 0x8001, 0x8002}
    requires |set i: nat | i < |sts| && sts[i].status !in {0x0001, 0x0002, 0x0004, 0x0005, 0x8001, 0x8002, 0x8003}| == 16
    ensures var p := Poll(ask, s, tid, polls, 0, NO_STATUS); p.requests == |sts| && p.result == Ok(sts[|sts| - 1])
  {
    var n := |sts| - 1;
    EndsByCode(sts, n);
    forall k: nat | k < n ensures !Ends(sts, k) {
      SurprisesCounted(sts, |sts|);
      SurprisesCounted(sts, k + 1);
      FewerBefore(sts, k + 1, n);
      SurprisesStep(sts, n);
      assert sts[..|sts|] == sts;
    }
    FirstEndIs(sts, 0, n);
    PollingBound(ask, s, tid, sts, polls);
  }

  lemma {:induction false} FewerBefore(sts: seq<CaptStatus>, k: nat, n: nat)
    requires k <= n <= |sts|
    ensures Surprises(sts[..k]) <= Surprises(sts[..n])
  {
    if k < n {
      FewerBefore(sts, k, n - 1);
      SurprisesStep(sts, n - 1);
    }
  }

  /** Otherwise all polls are made, and the last status is returned; without a poll, the record it starts from. */
  lemma {:induction false} PollsRunOut<S(!new)>(ask: Ask<S>, s: S, tid: uint32, sts: seq<CaptStatus>)
    requires Reports(ask, s, tid, sts)
    requires forall i | 0 <= i < |sts| :: sts[i].status !in {0x0005, 0x8003}
    requires |set i: nat | i < |sts| && sts[i].status !in {0x0001, 0x0002, 0x0004, 0x0005, 0x8001, 0x8002, 0x8003}| < 16
    ensures var p := Poll(ask, s, tid, |sts|, 0, NO_STATUS);
            p.requests == |sts| && p.result == Ok(if sts == [] then CaptStatus(0, 0, 0, 0xFFFF, 0) else sts[|sts| - 1])
  {
    forall k: nat | k < |sts| ensures !Ends(sts, k) {
      SurprisesCounted(sts, |sts|);
      FewerBefore(sts, k + 1, |sts|);
      assert sts[..|sts|] == sts;
    }
    FirstEndIs(sts, 0, |sts|);
    PollingBound(ask, s, tid, sts, |sts|);
  }

  /** A status request that fails, or whose answer cannot be read, ends the polling in its error. */
  lemma {:induction false} FailureEnds<S(!new)>(ask: Ask<S>, s: S, tid: uint32, polls: nat, err: nat, st: CaptStatus)
    requires 0 < polls && ask(s, tid).1.Err?
    ensures var p := Poll(ask, s, tid, polls, err, st); p.requests == 1 && p.result == Err(ask(s, tid).1.error)
  {
  }

  // ----- the same on the wire -----

  /** The transport answers the next status requests with these statuses, after any stray events and cut anyhow. */
  ghost predicate Tells<S(!new)>(link: Link<S>, s: S, tid: uint32, imageId: byte, sts: seq<CaptStatus>)
    decreases |sts|
  {
    sts == [] ||
    exists inb: Inbound, s' ::
      && Delivers(link, Send(link, s, Command(tid, OP_GET_CAPT_STATUS, StatusParams(imageId))), inb, s')
      && StatusOf(inb.Payload()) == Ok(sts[0]) && Tells(link, s', NextTid(tid), imageId, sts[1..])
  }

  lemma {:induction false} StatusReplyIs<S(!new)>(link: Link<S>, s: S, tid: uint32, imageId: byte, inb: Inbound, s': S)
    requires Sound(link)
    requires Delivers(link, Send(link, s, Command(tid, OP_GET_CAPT_STATUS, StatusParams(imageId))), inb, s')
    ensures StatusReply(link, s, tid, imageId) == (s', StatusOf(inb.Payload()))
  {
    DeliveredTransaction(link, s, Command(tid, OP_GET_CAPT_STATUS, StatusParams(imageId)), inb, s');
  }

  lemma {:induction false} TellerReports<S(!new)>(link: Link<S>, s: S, tid: uint32, imageId: byte, sts: seq<CaptStatus>)
    requires Sound(link) && Tells(link, s, tid, imageId, sts)
    ensures Reports(Statuses(link, imageId), s, tid, sts)
    decreases |sts|
  {
    if sts != [] {
      var inb: Inbound, s' :|
        && Delivers(link, Send(link, s, Command(tid, OP_GET_CAPT_STATUS, StatusParams(imageId))), inb, s')
        && StatusOf(inb.Payload()) == Ok(sts[0]) && Tells(link, s', NextTid(tid), imageId, sts[1..]);
      StatusReplyIs(link, s, tid, imageId, inb, s');
      TellerReports(link, s', NextTid(tid), imageId, sts[1..]);
    }
  }

  /** The bound over all layers: what WaitCompletion computes from statuses on the wire. */
  lemma {:induction false} PollingOnTheWire<S(!new)>(link: Link<S>, s: S, tid: uint32, imageId: byte,
                                                     sts: seq<CaptStatus>, polls: nat)
    requires Sound(link) && Tells(link, s, tid, imageId, sts) && Decides(sts, polls)
    ensures Bounded(Poll(Statuses(link, imageId), s, tid, polls, 0, NO_STATUS), sts, polls)
  {
    TellerReports(link, s, tid, imageId, sts);
    PollingBound(Statuses(link, imageId), s, tid, sts, polls);
  }

  // ----- the camera object -----

  /** The loop of WaitCompletion, however `ask` gets the statuses it reports. */
  method AwaitReported<S(!new)>(camera: SigmaCamera<S>, imageId: byte, polls: nat, ghost sts: seq<CaptStatus>,
                                ghost ask: Ask<S>, ghost request: uint32 -> seq<Bytes>)
    returns (r: Result<CaptStatus>)
    requires Sound(camera.ptp.transport.link) && Asks(camera.ptp.transport.link, imageId, ask, request)
    requires Reports(ask, camera.ptp.transport.state, camera.ptp.nextTid, sts) && Decides(sts, polls)
    modifies camera.ptp, camera.ptp.transport
    ensures var n := Min(polls, FirstEnd(sts, 0) + 1);
            && n <= |sts| && r == Ok(if n == 0 then NO_STATUS else sts[n - 1])
            && camera.ptp.transport.writes ==
               old(camera.ptp.transport.writes) + StatusRequests(request, old(camera.ptp.nextTid), n)
  {
    PollingBound(ask, camera.ptp.transport.state, camera.ptp.nextTid, sts, polls);
    r := camera.PollAll(imageId, polls, ask, request);
  }

  /** Waiting, as WaitCompletion does, on a camera that tells these statuses. */
  method Await<S(!new)>(camera: SigmaCamera<S>, imageId: byte, polls: nat, ghost sts: seq<CaptStatus>)
    returns (r: Result<CaptStatus>)
    requires Sound(camera.ptp.transport.link) && Decides(sts, polls)
    requires Tells(camera.ptp.transport.link, camera.ptp.transport.state, camera.ptp.nextTid, imageId, sts)
    modifies camera.ptp, camera.ptp.transport
    ensures var n := Min(polls, FirstEnd(sts, 0) + 1);
            && n <= |sts| && r == Ok(if n == 0 then NO_STATUS else sts[n - 1])
            && camera.ptp.transport.writes ==
               old(camera.ptp.transport.writes) + StatusRequests(StatusRequest(imageId), old(camera.ptp.nextTid), n)
  {
    TellerReports(camera.ptp.transport.link, camera.ptp.transport.state, camera.ptp.nextTid, imageId, sts);
    r := AwaitReported(camera, imageId, polls, sts, Statuses(camera.ptp.transport.link, imageId), StatusRequest(imageId));
  }

  /** Waiting for a capture that goes on and is completed within the polls. */
  method AwaitCompletion<S(!new)>(camera: SigmaCamera<S>, imageId: byte, polls: nat, ghost sts: seq<CaptStatus>)
    returns (r: Result<CaptStatus>)
    requires Sound(camera.ptp.transport.link) && 0 < |sts| <= polls
    requires Tells(camera.ptp.transport.link, camera.ptp.transport.state, camera.ptp.nextTid, imageId, sts)
    requires forall i | 0 <= i < |sts| - 1 :: sts[i].status in {0x0001, 0x0002, 0x0004, 0x8001, 0x8002}
    requires sts[|sts| - 1].status in {0x0005, 0x8003}
    modifies camera.ptp, camera.ptp.transport
    ensures r == Ok(sts[|sts| - 1])
    ensures camera.ptp.transport.writes ==
            old(camera.ptp.transport.writes)
            + StatusRequests(StatusRequest(imageId), old(camera.ptp.nextTid), |sts|)
  {
    CompletionDecides(sts, polls);
    r := Await(camera, imageId, polls, sts);
  }
}
