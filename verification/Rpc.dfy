/** The RPC server's event loop callbacks, changing client states and slots in place. */
module Rpc {
  import opened Words
  import opened RpcModel

  class ClientState {
    var pending: seq<Request>
    var active: bool
    var waiting: Option<Request>
    var closed: bool
    var output: seq<Output>
    /** Numbers the requests, which stand for themselves otherwise. */
    var accepted: nat

    constructor ()
      ensures View() == NEW_CLIENT
    {
      pending := [];
      active := false;
      waiting := None;
      closed := false;
      output := [];
      accepted := 0;
    }

    ghost function View(): Client
      reads this
    {
      Client(pending, active, waiting, closed, output, accepted)
    }

    method QueueResponse(o: Output)
      modifies this`output
      ensures View() == Respond(old(View()), o)
    {
      if closed {
        return;
      }
      output := output + [o];
    }
  }

  ghost function Values(cs: seq<ClientState>): (vs: seq<Client>)
    reads set c | c in cs
    ensures |vs| == |cs|
    ensures forall i :: 0 <= i < |cs| ==> vs[i] == cs[i].View()
  {
    if cs == [] then [] else Values(cs[..|cs| - 1]) + [cs[|cs| - 1].View()]
  }

  /** What one turn of the dispatch loop does. */
  lemma DispatchUnfolds(s: Server, c: nat, ready: bool, meanwhile: seq<seq<Worker>>)
    requires c < |s.clients|
    ensures
      var client := s.clients[c];
      if !Idle(client) || client.pending == [] then DispatchOn(s, c, ready, meanwhile) == s
      else
        var r := client.pending[0];
        var c1 := PopPending(client);
        var s1 := Workers(s, Meanwhile(meanwhile));
        DispatchOn(s, c, ready, meanwhile)
          == if r.nextEvent then
               var c2 := if ready then Respond(c1, Answer(r.seqno, false)) else c1.(waiting := Some(r));
               s.(clients := s.clients[c := c2])
             else if s1.free > 0 then
               s1.(clients := s.clients[c := c1.(active := true)], executing := s1.executing[c := r.seqno],
                   free := s1.free - 1)
             else
               var c2 := Respond(c1, Answer(r.seqno, true));
               DispatchOn(s1.(clients := s.clients[c := c2]), c, ready, Later(meanwhile))
  {
  }

  class RpcServer {
    const limits: Limits
    var clients: seq<ClientState>
    var freeSlots: nat
    var executing: map<nat, nat>
    var released: map<nat, nat>
    var completions: seq<Job>
    var activeClients: nat

    constructor (limits: Limits)
      ensures View() == Initial(limits) && Distinct()
    {
      this.limits := limits;
      clients := [];
      freeSlots := limits.maxWorkers;
      executing, released := map[], map[];
      completions := [];
      activeClients := 0;
    }

    ghost predicate Distinct()
      reads this`clients
    {
      forall i, j :: 0 <= i < j < |clients| ==> clients[i] != clients[j]
    }

    ghost function States(): set<object>
      reads this`clients
    {
      set c | c in clients
    }

    ghost function View(): Server
      reads this, States()
    {
      Server(limits, Values(clients), executing, released, completions, freeSlots, activeClients)
    }

    method AcceptClient()
      requires Distinct()
      modifies this`clients, this`activeClients
      ensures Distinct() && View() == Step(old(View()), Accept)
    {
      if activeClients >= limits.maxClients {
        return;
      }
      hide Values;
      ghost var before := Values(clients);
      ghost var n := |clients|;
      var state := new ClientState();
      clients := clients + [state];
      activeClients := activeClients + 1;
      ghost var after := Values(clients);
      forall i | 0 <= i < n
        ensures after[i] == before[i]
      {
        assert after[i] == clients[i].View();
      }
      assert after == before + [NEW_CLIENT];
    }

    method Close(c: nat)
      requires Distinct()
      modifies this`activeClients, States()
      ensures View() == Step(old(View()), Event.Close(c))
    {
      if c >= |clients| || clients[c].closed {
        return;
      }
      hide Values;
      ghost var before := Values(clients);
      clients[c].closed := true;
      if activeClients > 0 {
        activeClients := activeClients - 1;
      }
      assert Values(clients) == before[c := clients[c].View()];
    }

    method RunWorkers(ws: seq<Worker>)
      modifies this`executing, this`released, this`completions, this`freeSlots
      ensures View() == Workers(old(View()), ws)
    {
      var i := 0;
      while i < |ws|
        invariant i <= |ws|
        invariant Workers(View(), ws[i..]) == Workers(old(View()), ws)
      {
        assert ws[i..][0] == ws[i] && ws[i..][1..] == ws[i + 1..];
        match ws[i] {
          case Release(c) => ReleaseSlot(c);
          case Post(c) => PostCompletion(c);
        }
        i := i + 1;
      }
    }

    /** Asks for a slot without waiting, after what the workers did meanwhile. */
    method TryAcquire(meanwhile: seq<Worker>) returns (granted: bool)
      modifies this`executing, this`released, this`completions, this`freeSlots
      ensures
        var s := Workers(old(View()), meanwhile);
        granted == (s.free > 0) && View() == s.(free := if granted then s.free - 1 else 0)
    {
      RunWorkers(meanwhile);
      granted := freeSlots > 0;
      if granted {
        freeSlots := freeSlots - 1;
      }
    }

    /** Takes the oldest pending request of a client: a poll is answered or waits. */
    method StartPoll(c: nat, ready: bool)
      requires Distinct() && c < |clients|
      requires clients[c].pending != [] && clients[c].pending[0].nextEvent
      requires Idle(clients[c].View())
      modifies clients[c]
      ensures forall meanwhile :: View() == DispatchOn(old(View()), c, ready, meanwhile)
    {
      hide Values, Workers;
      ghost var before := Values(clients);
      var state := clients[c];
      var request := state.pending[0];
      state.pending := state.pending[1..];
      if ready {
        state.QueueResponse(Answer(request.seqno, false));
      } else {
        state.waiting := Some(request);
      }
      assert Values(clients) == before[c := state.View()];
    }

    /** Takes the oldest pending request of a client to a worker, or answers busy. */
    method StartCall(c: nat, meanwhile: seq<Worker>) returns (granted: bool)
      requires Distinct() && c < |clients| && clients[c].pending != []
      modifies this`executing, this`released, this`completions, this`freeSlots, clients[c]
      ensures
        var s := old(View());
        var r := s.clients[c].pending[0];
        var c1 := PopPending(s.clients[c]);
        var s1 := Workers(s, meanwhile);
        && granted == (s1.free > 0)
        && View() == if granted then
             s1.(clients := s.clients[c := c1.(active := true)], executing := s1.executing[c := r.seqno],
                 free := s1.free - 1)
           else
             s1.(clients := s.clients[c := Respond(c1, Answer(r.seqno, true))])
    {
      hide Values, Workers;
      ghost var s := View();
      granted := TryAcquire(meanwhile);
      var state := clients[c];
      var request := state.pending[0];
      state.pending := state.pending[1..];
      if granted {
        state.active := true;
        executing := executing[c := request.seqno];
      } else {
        state.QueueResponse(Answer(request.seqno, true));
      }
      assert Values(clients) == s.clients[c := state.View()];
    }

    /** Starts pending requests of one client, asking for a slot for each of them. */
    method DispatchPending(c: nat, ready: bool, meanwhile: seq<seq<Worker>>)
      requires Distinct() && c < |clients|
      modifies this`executing, this`released, this`completions, this`freeSlots, clients[c]
      ensures View() == DispatchOn(old(View()), c, ready, meanwhile)
    {
      hide Values, Workers, DispatchOn;
      var state := clients[c];
      var left := meanwhile;
      while !state.closed && !state.active && state.waiting.None? && state.pending != []
        invariant DispatchOn(View(), c, ready, left) == DispatchOn(old(View()), c, ready, meanwhile)
        decreases |state.pending|
      {
        ghost var s := View();
        if state.pending[0].nextEvent {
          StartPoll(c, ready);
          return;
        }
        DispatchUnfolds(s, c, ready, left);
        var granted := StartCall(c, Meanwhile(left));
        assert state.View() == View().clients[c];
        if granted {
          return;
        }
        left := Later(left);
      }
      DispatchUnfolds(View(), c, ready, left);
    }

    /** Takes the complete lines of a read; false when the client exceeded its queue. */
    method TakeLines(state: ClientState, lines: seq<Line>) returns (ok: bool)
      modifies state
      ensures (state.View(), ok) == ReadLines(old(state.View()), lines, limits.maxPending)
    {
      var i := 0;
      while i < |lines|
        invariant i <= |lines|
        invariant
          ReadLines(state.View(), lines[i..], limits.maxPending)
            == ReadLines(old(state.View()), lines, limits.maxPending)
      {
        assert lines[i..][0] == lines[i] && lines[i..][1..] == lines[i + 1..];
        match lines[i] {
          case BadJson =>
            state.QueueResponse(ParseError);
          case Call(nextEvent) =>
            if |state.pending| >= limits.maxPending {
              return false;
            }
            state.pending := state.pending + [Request(state.accepted, nextEvent)];
            state.accepted := state.accepted + 1;
        }
        i := i + 1;
      }
      ok := true;
    }

    method ServiceClient(c: nat, lines: seq<Line>, ready: bool, meanwhile: seq<seq<Worker>>)
      requires Distinct()
      modifies this`executing, this`released, this`completions, this`freeSlots, this`activeClients, States()
      ensures View() == Step(old(View()), Receive(c, lines, ready, meanwhile))
    {
      hide Values, DispatchOn, ReadLines;
      if c >= |clients| || clients[c].closed {
        return;
      }
      ghost var before := Values(clients);
      var ok := TakeLines(clients[c], lines);
      assert Values(clients) == before[c := clients[c].View()];
      if ok {
        DispatchPending(c, ready, meanwhile);
      } else {
        Close(c);
      }
    }

    /** The end of a worker's run: the slot goes back before the response is queued. */
    method ReleaseSlot(c: nat)
      modifies this`executing, this`released, this`freeSlots
      ensures View() == WorkerStep(old(View()), Release(c))
    {
      if c in executing {
        released := released[c := executing[c]];
        executing := executing - {c};
        freeSlots := freeSlots + 1;
      }
    }

    method PostCompletion(c: nat)
      modifies this`released, this`completions
      ensures View() == WorkerStep(old(View()), Post(c))
    {
      if c in released {
        completions := completions + [Job(c, released[c])];
        released := released - {c};
      }
    }

    /** One turn of the completion loop: answer the client and start its next request. */
    method DrainCompletion(ready: bool, meanwhile: seq<seq<Worker>>)
      requires Distinct()
      modifies this`executing, this`released, this`completions, this`freeSlots, States()
      ensures View() == Step(old(View()), Drain(ready, meanwhile))
    {
      hide Values, DispatchOn;
      if completions == [] {
        return;
      }
      var j := completions[0];
      completions := completions[1..];
      if j.client >= |clients| || clients[j.client].closed {
        return;
      }
      ghost var before := Values(clients);
      var state := clients[j.client];
      state.active := false;
      state.QueueResponse(Answer(j.seqno, false));
      assert Values(clients) == before[j.client := state.View()];
      DispatchPending(j.client, ready, meanwhile);
    }

    method ServiceEventWaiter(c: nat, due: bool, ready: bool, meanwhile: seq<seq<Worker>>)
      requires Distinct()
      modifies this`executing, this`released, this`completions, this`freeSlots, States()
      ensures View() == Step(old(View()), ServiceWaiter(c, due, ready, meanwhile))
    {
      hide Values, DispatchOn;
      if c >= |clients| || clients[c].closed || clients[c].waiting.None? || !due {
        return;
      }
      ghost var before := Values(clients);
      var state := clients[c];
      var request := state.waiting.value;
      state.waiting := None;
      state.QueueResponse(Answer(request.seqno, false));
      assert Values(clients) == before[c := state.View()];
      DispatchPending(c, ready, meanwhile);
    }
  }
}
