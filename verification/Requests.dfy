/** The kernel's request table as the send, reply, timeout and teardown paths mutate it. */
module Requests {
  import opened Words
  import opened RequestModel

  /** The objects after the first part of the list has been failed. */
  function FailedSoFar(m: map<nat, Request>, done: seq<nat>, status: int): map<nat, Request> {
    map s | s in m :: if s in done then Failed(m[s], status) else m[s]
  }

  lemma FailedSoFarNext(m: map<nat, Request>, done: seq<nat>, s: nat, status: int)
    requires s in m && s !in done
    ensures s in FailedSoFar(m, done, status)
    ensures FailedSoFar(m, done + [s], status)
         == FailedSoFar(m, done, status)[s := Failed(FailedSoFar(m, done, status)[s], status)]
  {
    hide Failed;
  }

  lemma FailedSoFarEnds(m: map<nat, Request>, list: seq<nat>, status: int)
    requires forall s :: s in m ==> s in list
    ensures FailedSoFar(m, [], status) == m
    ensures FailedSoFar(m, list, status) == map s | s in m :: Failed(m[s], status)
  {
    hide Failed;
  }

  class RequestTable {
    var objects: map<nat, Request>
    var listed: seq<nat>
    var index: map<u32, nat>
    var nextSerial: nat
    var nextId: u32
    var generation: u32
    var creditLimit: nat
    var page: Option<nat>
    var daemonOpen: bool
    var started: bool

    ghost function View(): Table
      reads this
    {
      Table(objects, listed, index, nextSerial, nextId, generation, creditLimit, page, daemonOpen, started)
    }

    constructor ()
      ensures View() == Empty()
    {
      objects, listed, index := map[], [], map[];
      nextSerial, nextId, generation, creditLimit := 0, 0, 0, 128;
      page, daemonOpen, started := None, false, false;
    }

    /** Takes a request off the list and out of the index and frees it. */
    method Remove(serial: nat)
      requires serial in objects
      modifies this`objects, this`listed, this`index
      ensures View() == Unlist(old(View()), serial)
    {
      var id := objects[serial].id;
      index := index - {id};
      listed := Without(listed, serial);
      objects := objects - {serial};
    }

    /**
     send_request up to the wait: list and index the request, queue it, and take it back when the
     session is down, the credits are used up or there is no room.
     */
    method SendRequest(capacity: nat, room: bool) returns (status: int)
      requires ListOk(View())
      modifies this
      ensures View() == StepSend(old(View()), capacity, room)
      ensures status == SendStatus(old(View()), room) && (status == 0 <==> Sendable(old(View()), room))
    {
      hide Unlist, ListOk;
      nextId := Word(nextId + 1);
      var serial := nextSerial;
      nextSerial := nextSerial + 1;
      objects := objects[serial := Request(nextId, generation, capacity, false, 0, 0)];
      listed := listed + [serial];
      index := index[nextId := serial];
      if !daemonOpen || !started || page.None? {
        Remove(serial);
        return ETIMEDOUT;
      }
      if page.value >= creditLimit || !room {
        Remove(serial);
        return EBUSY;
      }
      page := Some(page.value + 1);
      status := 0;
    }

    /** cmd_reply, after the payload lengths have been checked. */
    method CmdReply(id: u32, generation: u32, status: int, dataLen: nat) returns (ret: int)
      requires IndexLive(View())
      modifies this`objects, this`page
      ensures View() == StepReply(old(View()), id, generation, status, dataLen)
      ensures ret == if Addressee(old(View()), id, generation).Some? then 0 else ENOENT
    {
      if id !in index || objects[index[id]].generation != generation {
        return ENOENT;
      }
      var s := index[id];
      var req := objects[s];
      var copyLen := 0;
      if status == 0 {
        copyLen := Min(req.capacity, dataLen);
      }
      objects := objects[s := req.(replied := true, status := status, responseLen := copyLen)];
      if page.Some? {
        page := Some(MinusOne(page.value));
      }
      ret := 0;
    }

    method FailRequest(serial: nat, status: int)
      requires serial in objects
      modifies this`objects
      ensures objects == old(objects)[serial := Failed(old(objects)[serial], status)]
    {
      var req := objects[serial];
      if !req.replied {
        objects := objects[serial := req.(replied := true, status := status, responseLen := 0)];
      }
    }

    /** fail_all_locked walks the list. */
    method FailEveryRequest(status: int)
      requires ListOk(View())
      modifies this`objects, this`page
      ensures View() == FailAll(old(View()), status)
    {
      hide Failed, FailedSoFar;
      ghost var start := objects;
      FailedSoFarEnds(start, listed, status);
      var i := 0;
      while i < |listed|
        invariant i <= |listed| && page == old(page)
        invariant objects == FailedSoFar(start, listed[..i], status)
      {
        assert listed[i] !in listed[..i];
        assert listed[..i + 1] == listed[..i] + [listed[i]];
        FailedSoFarNext(start, listed[..i], listed[i], status);
        FailRequest(listed[i], status);
        i := i + 1;
      }
      assert listed[..i] == listed;
      if page.Some? {
        page := Some(0);
      }
    }

    /** The waiter of send_request gave up, possibly just after a reply. */
    method WaitTimedOut(serial: nat)
      modifies this`objects, this`listed, this`index, this`page
      ensures View() == StepTimeout(old(View()), serial)
    {
      if serial in objects {
        Remove(serial);
        if page.Some? {
          page := Some(MinusOne(page.value));
        }
      }
    }

    /** The waiter of send_request was completed: it collects the status and the reply length. */
    method WaitCompleted(serial: nat) returns (status: int, responseLen: nat)
      requires serial in objects && objects[serial].replied
      modifies this`objects, this`listed, this`index
      ensures View() == StepWake(old(View()), serial)
      ensures status == old(objects)[serial].status && responseLen == old(objects)[serial].responseLen
    {
      status, responseLen := objects[serial].status, objects[serial].responseLen;
      Remove(serial);
    }

    /** The eventfd ioctl, which also zeroes the control page. */
    method RegisterEventfds(valid: bool) returns (ok: bool)
      modifies this`page
      ensures View() == Step(old(View()), Eventfds(valid)) && (ok <==> old(page).Some? && valid)
    {
      if page.None? || !valid {
        return false;
      }
      page := Some(0);
      ok := true;
    }

    method BridgeRelease()
      requires ListOk(View())
      modifies this
      ensures View() == Step(old(View()), Release)
    {
      daemonOpen, started := false, false;
      FailEveryRequest(EPIPE);
      page := None;
    }

    method CmdReset()
      requires ListOk(View())
      modifies this
      ensures View() == Step(old(View()), ResetCommand)
    {
      FailEveryRequest(EPIPE);
      generation := Word(generation + 1);
      if generation == 0 {
        generation := 1;
      }
    }
  }
}
