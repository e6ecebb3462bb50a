/** The byte transport under the driver (include/ptp/transport.h). */
module Transport {
  import opened Wrappers
  import opened Bytes

  const CHUNK: nat := 0x10_0000      // size of the driver's bulk read buffer
  const INTERRUPT: nat := 64         // size of its interrupt buffer

  /**
   An arbitrary transport with the device behind it, as a machine over states S.
   `read` is one bulk read into a CHUNK-sized buffer: None when it fails (the USB
   transport throws on a timeout), otherwise the bytes delivered, possibly none.
   `interrupt` is one read of the interrupt pipe. `patience` bounds how many
   empty bulk reads may follow one another.
   */
  datatype Link<!S> = Link(
    write: (S, Bytes) -> S,
    read: S -> (S, Option<Bytes>),
    interrupt: S -> (S, Bytes),
    patience: S -> nat)

  ghost predicate Sound<S(!new)>(link: Link<S>) {
    && (forall s :: var (s', b) := link.read(s);
                    b.Some? ==> |b.value| <= CHUNK && (b.value == [] ==> link.patience(s') < link.patience(s)))
    && (forall s :: |link.interrupt(s).1| <= INTERRUPT)
  }

  class Transport<S(!new)> {
    const link: Link<S>
    var state: S
    var writes: seq<Bytes>

    constructor (link: Link<S>, state: S)
      ensures this.link == link && this.state == state && writes == []
    {
      this.link := link;
      this.state := state;
      writes := [];
    }

    method WriteExact(data: Bytes)
      modifies this
      ensures writes == old(writes) + [data]
      ensures state == link.write(old(state), data)
    {
      writes := writes + [data];
      state := link.write(state, data);
    }

    method ReadSome() returns (r: Result<Bytes>)
      modifies this`state
      ensures state == link.read(old(state)).0
      ensures r == match link.read(old(state)).1 case Some(b) => Ok(b) case None => Err(Timeout)
    {
      var (s, b) := link.read(state);
      state := s;
      match b {
        case Some(bytes) => return Ok(bytes);
        case None => return Err(Timeout);
      }
    }

    method ReadInterrupt() returns (b: Bytes)
      modifies this`state
      ensures (state, b) == link.interrupt(old(state))
    {
      var (s, bytes) := link.interrupt(state);
      state := s;
      return bytes;
    }
  }
}
