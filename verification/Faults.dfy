/** Injected faults, and what a request waiting in the kernel receives. */
module Faults {
  import opened Words
  import opened Wire

  /** An injected fault; remaining is how often it still fires, zero meaning for ever. */
  datatype Fault =
    | NoFault
    | Timeout(remaining: nat)
    | Disconnect(remaining: nat)
    | Errno(code: nat, remaining: nat)
    | ShortReply(reply: seq<byte>, remaining: nat)

  /** -errno, as a status. */
  function Negative(errno: nat): int {
    var e: int := errno;
    -e
  }

  /** The status a fault answers with in place of the device, if it does. */
  function PreStatus(f: Fault): Option<int> {
    match f
    case Timeout(_) => Some(ETIMEDOUT)
    case Disconnect(_) => Some(ENODEV)
    case Errno(code, _) => Some(Negative(code))
    case _ => None
  }

  function Consumed(f: Fault): Fault {
    if f.NoFault? || f.remaining == 0 then f
    else if f.remaining == 1 then NoFault
    else f.(remaining := f.remaining - 1)
  }

  /** What a fault makes of a successful reply. */
  function Shortened(f: Fault, data: seq<byte>): seq<byte> {
    if !f.ShortReply? then data
    else if f.reply != [] then f.reply
    else if |data| > 1 then data[..|data| / 2]
    else data
  }

  /** What a waiting request of the given response capacity gets: its status, and the reply cut to size. */
  function Received(capacity: nat, status: int, data: seq<byte>): (int, seq<byte>) {
    if REPLY_PREFIX + |data| > MAX_PAYLOAD then (ETIMEDOUT, [])  // never written to the reply ring
    else if status != 0 then (status, [])
    else (0, data[..Min(capacity, |data|)])
  }

  /** The fault a device carries. */
  class FaultPlan {
    var fault: Fault

    constructor (fault: Fault)
      ensures this.fault == fault
    {
      this.fault := fault;
    }

    method Consume()
      modifies this`fault
      ensures fault == Consumed(old(fault))
    {
      if !fault.NoFault? && fault.remaining > 0 {
        if fault.remaining == 1 {
          fault := NoFault;
        } else {
          fault := fault.(remaining := fault.remaining - 1);
        }
      }
    }

    /** A fault that answers for the device: its status, unless there is none. */
    method ApplyPre() returns (status: Option<int>)
      modifies this`fault
      ensures fault == if status.Some? then Consumed(old(fault)) else old(fault)
      ensures status == PreStatus(old(fault))
    {
      match fault {
        case Timeout(_) => status := Some(ETIMEDOUT);
        case Disconnect(_) => status := Some(ENODEV);
        case Errno(code, _) => status := Some(Negative(code));
        case _ => status := None;
      }
      if status.Some? {
        Consume();
      }
    }

    method ApplyPost(data: seq<byte>) returns (reply: seq<byte>)
      requires fault.NoFault? || fault.ShortReply?
      modifies this`fault
      ensures reply == Shortened(old(fault), data) && fault == Consumed(old(fault))
    {
      reply := Shortened(fault, data);
      if fault.ShortReply? {
        Consume();
      }
    }
  }
}
