/** Settings written to a camera that keeps them come back, in normal form, when they are read. */
module SetThenGet {
  import opened Wrappers
  import opened Bytes
  import opened Containers
  import opened Transport
  import opened Ptp
  import opened Protocol
  import opened Groups
  import opened Sigma

  /** Marks a get or set transaction that is about to be made. */
  predicate Due<S>(s: S, tid: uint32, id: GroupId) {
    true
  }

  predicate Sending<S>(s: S, tid: uint32, id: GroupId, payload: Bytes) {
    true
  }

  /** In `s'` the payload kept for `id` is `payload`, those of the other groups are as in `s`. */
  ghost predicate Kept<S(!new)>(stored: (S, GroupId) -> Bytes, s: S, s': S, id: GroupId, payload: Bytes) {
    forall other: GroupId :: stored(s', other) == if other == id then payload else stored(s, other)
  }

  /** `ready` states accept the set command of every group and keep its payload, which fits in one container. */
  ghost predicate Accepts<S(!new)>(link: Link<S>, ready: S -> bool, stored: (S, GroupId) -> Bytes) {
    forall s, tid: uint32, id: GroupId, payload: Bytes {:trigger Sending(s, tid, id, payload)} |
      Sending(s, tid, id, payload) && ready(s) && HEADER + |payload| < TWO_32 ::
      exists inb: Inbound, s' ::
        && Delivers(link, Send(link, s, Upload(tid, SetOp(id), payload)), inb, s')
        && ready(s') && Kept(stored, s, s', id, payload)
  }

  /** `ready` states answer the get command of every group with the payload kept for it. */
  ghost predicate Replays<S(!new)>(link: Link<S>, ready: S -> bool, stored: (S, GroupId) -> Bytes) {
    forall s, tid: uint32, id: GroupId {:trigger Due(s, tid, id)} | Due(s, tid, id) && ready(s) ::
      exists inb: Inbound, s' ::
        && Delivers(link, Send(link, s, Command(tid, GetOp(id), [])), inb, s')
        && inb.Payload() == stored(s, id) && ready(s') && Kept(stored, s, s', id, stored(s, id))
  }

  // ----- runs of sets and gets -----

  datatype Access = Set(g: Group) | Get(id: GroupId)

  /** Transport state and next transaction id after a set or get; a group that cannot be encoded is not sent. */
  ghost function Accessed<S(!new)>(link: Link<S>, s: S, tid: uint32, access: Access): (S, uint32)
    requires Sound(link)
  {
    match access
    case Set(g) => if Encodable(g) then (SetReply(link, s, tid, g).0, NextTid(tid)) else (s, tid)
    case Get(id) => (GetReply(link, s, tid, id).0, NextTid(tid))
  }

  ghost function AccessAll<S(!new)>(link: Link<S>, s: S, tid: uint32, run: seq<Access>): (S, uint32)
    requires Sound(link)
  {
    if run == [] then (s, tid)
    else
      var (s', tid') := AccessAll(link, s, tid, run[..|run| - 1]);
      Accessed(link, s', tid', run[|run| - 1])
  }

  /** The last value set for this group in the run. */
  function LastSet(run: seq<Access>, id: GroupId): (g: Option<Group>)
    ensures g.Some? ==> Encodable(g.value) && IdOf(g.value) == id
  {
    if run == [] then None
    else
      var last := run[|run| - 1];
      if last.Set? && Encodable(last.g) && IdOf(last.g) == id then Some(last.g)
      else LastSet(run[..|run| - 1], id)
  }

  lemma {:induction false} GetReplyIs<S(!new)>(link: Link<S>, s: S, tid: uint32, id: GroupId, inb: Inbound, s': S,
                                               payload: Bytes)
    requires Sound(link) && Delivers(link, Send(link, s, Command(tid, GetOp(id), [])), inb, s')
    requires inb.Payload() == payload
    ensures GetReply(link, s, tid, id) == (s', DecodedFrom(id, payload))
  {
    DeliveredTransaction(link, s, Command(tid, GetOp(id), []), inb, s');
  }

  lemma {:induction false} SetStores<S(!new)>(link: Link<S>, ready: S -> bool, stored: (S, GroupId) -> Bytes, s: S,
                                              tid: uint32, g: Group)
    requires Sound(link) && Accepts(link, ready, stored) && ready(s)
    ensures var (s', r) := SetReply(link, s, tid, g);
            r.Ok? && ready(s') && Kept(stored, s, s', IdOf(g), Wire(g))
  {
    var id, payload := IdOf(g), Wire(g);
    WireFits(g);
    assert Sending(s, tid, id, payload);
    var inb: Inbound, s' :|
      && Delivers(link, Send(link, s, Upload(tid, SetOp(id), payload)), inb, s')
      && ready(s') && Kept(stored, s, s', id, payload);
    DeliveredTransaction(link, s, Upload(tid, SetOp(id), payload), inb, s');
  }

  lemma {:induction false} Replayed<S(!new)>(link: Link<S>, ready: S -> bool, stored: (S, GroupId) -> Bytes, s: S,
                                             tid: uint32, id: GroupId)
    returns (inb: Inbound, s': S)
    requires Sound(link) && Replays(link, ready, stored) && ready(s)
    ensures Delivers(link, Send(link, s, Command(tid, GetOp(id), [])), inb, s')
    ensures inb.Payload() == stored(s, id) && ready(s') && Kept(stored, s, s', id, stored(s, id))
  {
    assert Due(s, tid, id);
    inb, s' :|
      && Delivers(link, Send(link, s, Command(tid, GetOp(id), [])), inb, s')
      && inb.Payload() == stored(s, id) && ready(s') && Kept(stored, s, s', id, stored(s, id));
  }

  lemma {:induction false} GetReplays<S(!new)>(link: Link<S>, ready: S -> bool, stored: (S, GroupId) -> Bytes, s: S,
                                               tid: uint32, id: GroupId)
    requires Sound(link) && Replays(link, ready, stored) && ready(s)
    ensures var (s', r) := GetReply(link, s, tid, id);
            r == DecodedFrom(id, stored(s, id)) && ready(s') && Kept(stored, s, s', id, stored(s, id))
  {
    var inb, s' := Replayed(link, ready, stored, s, tid, id);
    GetReplyIs(link, s, tid, id, inb, s', stored(s, id));
  }

  /** What the device keeps for a group after a run. */
  ghost function KeptAfter<S>(stored: (S, GroupId) -> Bytes, s: S, run: seq<Access>, id: GroupId): Bytes {
    match LastSet(run, id)
    case Some(g) => Wire(g)
    case None => stored(s, id)
  }

  lemma {:induction false} AccessIsKept<S(!new)>(link: Link<S>, ready: S -> bool, stored: (S, GroupId) -> Bytes, s: S,
                                                 tid: uint32, access: Access)
    requires Sound(link) && Accepts(link, ready, stored) && Replays(link, ready, stored) && ready(s)
    ensures var (s', _) := Accessed(link, s, tid, access);
            && ready(s')
            && forall id: GroupId ::
                 stored(s', id) == if access.Set? && Encodable(access.g) && IdOf(access.g) == id then Wire(access.g)
                                   else stored(s, id)
  {
    match access
    case Set(g) =>
      if Encodable(g) {
        SetStores(link, ready, stored, s, tid, g);
      }
    case Get(id) => GetReplays(link, ready, stored, s, tid, id);
  }

  /** After any run the device keeps, for each group, the encoding of the last value set. */
  lemma {:induction false} RunIsKept<S(!new)>(link: Link<S>, ready: S -> bool, stored: (S, GroupId) -> Bytes, s: S,
                                              tid: uint32, run: seq<Access>)
    requires Sound(link) && Accepts(link, ready, stored) && Replays(link, ready, stored) && ready(s)
    ensures var (s', _) := AccessAll(link, s, tid, run);
            ready(s') && forall id: GroupId :: stored(s', id) == KeptAfter(stored, s, run, id)
  {
    if run != [] {
      var n := |run| - 1;
      RunIsKept(link, ready, stored, s, tid, run[..n]);
      var (s', tid') := AccessAll(link, s, tid, run[..n]);
      AccessIsKept(link, ready, stored, s', tid', run[n]);
    }
  }

  /**
   After any run of sets and gets, through any chunking and any stray events, reading a group
   gives the normal form of the value last set for it, or what the device held before the run.
   */
  lemma {:induction false} GetAfterRun<S(!new)>(link: Link<S>, ready: S -> bool, stored: (S, GroupId) -> Bytes, s: S,
                                                tid: uint32, run: seq<Access>, id: GroupId)
    requires Sound(link) && Accepts(link, ready, stored) && Replays(link, ready, stored) && ready(s)
    ensures var (s', tid') := AccessAll(link, s, tid, run);
            GetReply(link, s', tid', id).1 ==
            match LastSet(run, id)
            case Some(g) => Ok(ViewOf(NormalOf(g)))
            case None => DecodedFrom(id, stored(s, id))
  {
    RunIsKept(link, ready, stored, s, tid, run);
    var (s', tid') := AccessAll(link, s, tid, run);
    GetReplays(link, ready, stored, s', tid', id);
    if LastSet(run, id).Some? {
      FreshRoundTrip(LastSet(run, id).value);
    }
  }

  lemma {:induction false} FreshRoundTrip(g: Group)
    requires Encodable(g)
    ensures DecodedFrom(IdOf(g), Wire(g)) == Ok(ViewOf(NormalOf(g)))
  {
    var blank := Blank(IdOf(g));
    assert SameKind(g, blank) && TableOf(blank) == TableOf(g);
    GroupRoundTrip(g, blank);
  }

  lemma {:induction false} ViewDetermines(got: Group, g: Group)
    requires IdOf(got) == IdOf(g) && ViewOf(got) == ViewOf(NormalOf(g))
    ensures got == NormalOf(g)
  {
    ViewIsInjective(got, NormalOf(g));
  }

  // ----- the camera object -----

  /** A group set on a camera that keeps it and read back from it. */
  method SetAndGet<S(!new)>(camera: SigmaCamera<S>, g: CamDataGroup, ghost ready: S -> bool,
                            ghost stored: (S, GroupId) -> Bytes)
    returns (r: Result<Group>)
    requires Sound(camera.ptp.transport.link) && Encodable(g.value) && ready(camera.ptp.transport.state)
    requires Accepts(camera.ptp.transport.link, ready, stored) && Replays(camera.ptp.transport.link, ready, stored)
    modifies camera.ptp, camera.ptp.transport
    ensures r == Ok(NormalOf(g.value)) && ready(camera.ptp.transport.state)
  {
    SetStores(camera.ptp.transport.link, ready, stored, camera.ptp.transport.state, camera.ptp.nextTid, g.value);
    var _ := camera.SetGroup(g);
    GetReplays(camera.ptp.transport.link, ready, stored, camera.ptp.transport.state, camera.ptp.nextTid, IdOf(g.value));
    FreshRoundTrip(g.value);
    r := camera.GetGroup(IdOf(g.value));
    ViewDetermines(r.value, g.value);
  }
}
