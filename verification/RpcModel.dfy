/** The RPC server: per-client request queues, worker slots and completions, as a state machine. */
module RpcModel {
  import opened Words

  /** A parsed request; seqno counts the requests its client was granted, nextEvent marks an event poll. */
  datatype Request = Request(seqno: nat, nextEvent: bool)

  /** What enters a client's output: the answer to a request, or an out-of-band parse error. */
  datatype Output = Answer(seqno: nat, busy: bool) | ParseError

  datatype Line = BadJson | Call(nextEvent: bool)

  datatype Client = Client(
    pending: seq<Request>, active: bool, waiting: Option<Request>, closed: bool, output: seq<Output>, accepted: nat)

  /** A request a worker holds or has finished with. */
  datatype Job = Job(client: nat, seqno: nat)

  datatype Limits = Limits(maxWorkers: nat, maxClients: nat, maxPending: nat)

  /** executing hold a worker slot, released gave it back but are not yet in the completion queue. */
  datatype Server = Server(
    limits: Limits, clients: seq<Client>, executing: map<nat, nat>, released: map<nat, nat>,
    completions: seq<Job>, free: nat, activeClients: nat)

  /** What a worker thread does when its request is done: give the slot back, then queue the response. */
  datatype Worker = Release(c: nat) | Post(c: nat)

  /**
   ready tells whether an event is there when a poll starts; meanwhile lists, for each slot the dispatch
   loop asks for, what workers do just before.
   */
  datatype Event =
    | Accept
    | Close(c: nat)
    | Receive(c: nat, lines: seq<Line>, ready: bool, meanwhile: seq<seq<Worker>>)
    | Work(w: Worker)
    | Drain(ready: bool, meanwhile: seq<seq<Worker>>)
    | ServiceWaiter(c: nat, due: bool, ready: bool, meanwhile: seq<seq<Worker>>)

  const NEW_CLIENT := Client([], false, None, false, [], 0)

  function Respond(c: Client, o: Output): Client {
    if c.closed then c else c.(output := c.output + [o])
  }

  /** Reads the complete lines; the second result is false when the client exceeded its queue. */
  function ReadLines(c: Client, lines: seq<Line>, maxPending: nat): (Client, bool)
    decreases |lines|
  {
    if lines == [] then (c, true)
    else match lines[0]
      case BadJson => ReadLines(Respond(c, ParseError), lines[1..], maxPending)
      case Call(nextEvent) =>
        if |c.pending| >= maxPending then (c, false)
        else
          var r := Request(c.accepted, nextEvent);
          ReadLines(c.(pending := c.pending + [r], accepted := c.accepted + 1), lines[1..], maxPending)
  }

  predicate Open(s: Server, c: nat) {
    c < |s.clients| && !s.clients[c].closed
  }

  function CloseClient(s: Server, c: nat): Server {
    if Open(s, c) then
      s.(clients := s.clients[c := s.clients[c].(closed := true)],
         activeClients := if s.activeClients > 0 then s.activeClients - 1 else 0)
    else s
  }

  function WorkerStep(s: Server, w: Worker): (s': Server)
    ensures s'.clients == s.clients && s'.limits == s.limits && s'.activeClients == s.activeClients
  {
    match w
    case Release(c) =>
      if c !in s.executing then s
      else s.(executing := s.executing - {c}, released := s.released[c := s.executing[c]], free := s.free + 1)
    case Post(c) =>
      if c !in s.released then s
      else s.(released := s.released - {c}, completions := s.completions + [Job(c, s.released[c])])
  }

  function Workers(s: Server, ws: seq<Worker>): (s': Server)
    ensures s'.clients == s.clients && s'.limits == s.limits && s'.activeClients == s.activeClients
    decreases |ws|
  {
    if ws == [] then s else Workers(WorkerStep(s, ws[0]), ws[1..])
  }

  predicate Idle(c: Client) {
    !c.closed && !c.active && c.waiting.None?
  }

  function PopPending(c: Client): Client
    requires c.pending != []
  {
    c.(pending := c.pending[1..])
  }

  function Meanwhile(meanwhile: seq<seq<Worker>>): seq<Worker> {
    if meanwhile == [] then [] else meanwhile[0]
  }

  function Later(meanwhile: seq<seq<Worker>>): seq<seq<Worker>> {
    if meanwhile == [] then [] else meanwhile[1..]
  }

  /**
   Starts pending requests of a client until one is executing or waiting, or a poll is answered at once.
   Each request but a poll asks for a slot of its own, after whatever the workers did meanwhile.
   */
  function DispatchOn(s: Server, c: nat, ready: bool, meanwhile: seq<seq<Worker>>): Server
    requires c < |s.clients|
    decreases |s.clients[c].pending|
  {
    var client := s.clients[c];
    if !Idle(client) || client.pending == [] then s
    else
      var r := client.pending[0];
      var c1 := PopPending(client);
      if r.nextEvent then
        s.(clients := s.clients[c := if ready then Respond(c1, Answer(r.seqno, false)) else c1.(waiting := Some(r))])
      else
        var s1 := Workers(s, Meanwhile(meanwhile));
        if s1.free == 0 then
          DispatchOn(s1.(clients := s.clients[c := Respond(c1, Answer(r.seqno, true))]), c, ready, Later(meanwhile))
        else
          s1.(clients := s.clients[c := c1.(active := true)], executing := s1.executing[c := r.seqno],
              free := s1.free - 1)
  }

  function Step(s: Server, e: Event): Server {
    match e
    case Accept =>
      if s.activeClients >= s.limits.maxClients then s
      else s.(clients := s.clients + [NEW_CLIENT], activeClients := s.activeClients + 1)
    case Close(c) => CloseClient(s, c)
    case Receive(c, lines, ready, meanwhile) =>
      if !Open(s, c) then s
      else
        var (client, ok) := ReadLines(s.clients[c], lines, s.limits.maxPending);
        var s' := s.(clients := s.clients[c := client]);
        if ok then DispatchOn(s', c, ready, meanwhile) else CloseClient(s', c)
    case Work(w) => WorkerStep(s, w)
    case Drain(ready, meanwhile) =>
      if s.completions == [] then s
      else
        var j := s.completions[0];
        var s' := s.(completions := s.completions[1..]);
        if !Open(s', j.client) then s'
        else
          var client := Respond(s.clients[j.client].(active := false), Answer(j.seqno, false));
          DispatchOn(s'.(clients := s.clients[j.client := client]), j.client, ready, meanwhile)
    case ServiceWaiter(c, due, ready, meanwhile) =>
      if !Open(s, c) || s.clients[c].waiting.None? || !due then s
      else
        var r := s.clients[c].waiting.value;
        var client := Respond(s.clients[c].(waiting := None), Answer(r.seqno, false));
        DispatchOn(s.(clients := s.clients[c := client]), c, ready, meanwhile)
  }

  function Run(s: Server, es: seq<Event>): Server
    decreases |es|
  {
    if es == [] then s else Run(Step(s, es[0]), es[1..])
  }

  function Initial(l: Limits): Server {
    Server(l, [], map[], map[], [], l.maxWorkers, 0)
  }

  // One client.

  /** The requests answered so far, in the order their answers entered the output. */
  function Answered(output: seq<Output>): seq<nat> {
    if output == [] then []
    else
      var n := |output| - 1;
      Answered(output[..n]) + (if output[n].Answer? then [output[n].seqno] else [])
  }

  /** The request that is executing, on its way back, or waiting for an event. */
  function Current(c: Client, job: Option<nat>): seq<nat> {
    (if job.Some? then [job.value] else []) + (if c.waiting.Some? then [c.waiting.value.seqno] else [])
  }

  function Seqnos(rs: seq<Request>): (ns: seq<nat>)
    ensures |ns| == |rs|
    ensures forall i :: 0 <= i < |rs| ==> ns[i] == rs[i].seqno
  {
    seq(|rs|, i requires 0 <= i < |rs| => rs[i].seqno)
  }

  function FirstNats(n: nat): (ns: seq<nat>)
    ensures |ns| == n
    ensures forall i :: 0 <= i < n ==> ns[i] == i
  {
    seq(n, i => i)
  }

  /**
    * A client's accepted requests are, in order: those answered, at most one current one, those pending.
    * job is the request a worker has of it.
    */
  ghost predicate ClientInv(c: Client, job: Option<nat>) {
    && Answered(c.output) + Current(c, job) + Seqnos(c.pending) == FirstNats(c.accepted)
    && |Current(c, job)| <= 1
    && (c.active <==> job.Some?)
  }

  lemma AnsweredMore(output: seq<Output>, o: Output)
    ensures Answered(output + [o]) == Answered(output) + (if o.Answer? then [o.seqno] else [])
  {
    assert (output + [o])[..|output|] == output;
  }

  lemma SeqnosSplit(rs: seq<Request>)
    requires rs != []
    ensures Seqnos(rs) == [rs[0].seqno] + Seqnos(rs[1..])
  {
  }

  lemma SeqnosMore(rs: seq<Request>, r: Request)
    ensures Seqnos(rs + [r]) == Seqnos(rs) + [r.seqno]
  {
  }

  lemma FirstNatsMore(n: nat)
    ensures FirstNats(n + 1) == FirstNats(n) + [n]
  {
  }

  lemma MoveOver(a: seq<nat>, x: seq<nat>, p: seq<nat>)
    ensures (a + x) + [] + p == a + x + p
    ensures a + [] + (x + p) == a + x + p
  {
    assert a + [] + (x + p) == a + x + p;
  }

  /** Starting the first pending request of an idle client, in any of the four ways, keeps its order. */
  lemma {:induction false} StartKeepsInv(c: Client)
    requires ClientInv(c, None) && Idle(c) && c.pending != []
    ensures
      var r := c.pending[0];
      var c1 := PopPending(c);
      && ClientInv(Respond(c1, Answer(r.seqno, false)), None)
      && ClientInv(Respond(c1, Answer(r.seqno, true)), None)
      && ClientInv(c1.(waiting := Some(r)), None)
      && ClientInv(c1.(active := true), Some(r.seqno))
  {
    hide Answered, Seqnos, FirstNats;
    var r := c.pending[0];
    SeqnosSplit(c.pending);
    MoveOver(Answered(c.output), [r.seqno], Seqnos(c.pending[1..]));
    AnsweredMore(c.output, Answer(r.seqno, false));
    AnsweredMore(c.output, Answer(r.seqno, true));
  }

  /** After a dispatch an idle client has a backlog only if its last start was a poll that was answered at once. */
  lemma {:induction false} DispatchLeavesNoBacklog(s: Server, c: nat, ready: bool, meanwhile: seq<seq<Worker>>)
    requires c < |s.clients|
    ensures |DispatchOn(s, c, ready, meanwhile).clients| == |s.clients|
    ensures
      var was := s.clients[c].pending;
      var client := DispatchOn(s, c, ready, meanwhile).clients[c];
      Idle(client) && client.pending != [] ==>
        ready && exists i :: 0 <= i < |was| && was[i].nextEvent && client.pending == was[i + 1..]
    decreases |s.clients[c].pending|
  {
    hide Workers;
    var was := s.clients[c].pending;
    if Idle(s.clients[c]) && was != [] {
      var c1 := PopPending(s.clients[c]);
      var s1 := Workers(s, Meanwhile(meanwhile));
      if was[0].nextEvent {
        assert was[1..] == was[0 + 1..];
      } else if s1.free == 0 {
        var s2 := s1.(clients := s.clients[c := Respond(c1, Answer(was[0].seqno, true))]);
        DispatchLeavesNoBacklog(s2, c, ready, Later(meanwhile));
        var client := DispatchOn(s2, c, ready, Later(meanwhile)).clients[c];
        if Idle(client) && client.pending != [] {
          var i :| 0 <= i < |was[1..]| && was[1..][i].nextEvent && client.pending == was[1..][i + 1..];
          assert was[i + 1].nextEvent && client.pending == was[(i + 1) + 1..];
        }
      }
    }
  }

  lemma {:induction false} ReadLinesKeepsInv(c: Client, lines: seq<Line>, maxPending: nat, job: Option<nat>)
    requires ClientInv(c, job) && !c.closed && |c.pending| <= maxPending
    ensures
      var (c', ok) := ReadLines(c, lines, maxPending);
      ClientInv(c', job) && !c'.closed && |c'.pending| <= maxPending
    decreases |lines|
  {
    hide Answered, Seqnos, FirstNats, Current;
    if lines != [] {
      match lines[0]
      case BadJson =>
        AnsweredMore(c.output, ParseError);
        assert Answered(c.output) + [] == Answered(c.output);
        CurrentOnly(c, Respond(c, ParseError), job);
        ReadLinesKeepsInv(Respond(c, ParseError), lines[1..], maxPending, job);
      case Call(nextEvent) =>
        if |c.pending| < maxPending {
          var r := Request(c.accepted, nextEvent);
          var c1 := c.(pending := c.pending + [r], accepted := c.accepted + 1);
          SeqnosMore(c.pending, r);
          FirstNatsMore(c.accepted);
          CurrentOnly(c, c1, job);
          assert Answered(c.output) + Current(c, job) + (Seqnos(c.pending) + [r.seqno])
              == Answered(c.output) + Current(c, job) + Seqnos(c.pending) + [r.seqno];
          ReadLinesKeepsInv(c1, lines[1..], maxPending, job);
        }
    }
  }

  lemma CurrentOnly(c: Client, c': Client, job: Option<nat>)
    requires c'.waiting == c.waiting
    ensures Current(c', job) == Current(c, job)
  {
  }

  /** Answering the current request moves it to the answered ones. */
  lemma AnswerKeepsInv(c: Client, job: Option<nat>, seqno: nat)
    requires ClientInv(c, job) && !c.closed && Current(c, job) == [seqno]
    ensures ClientInv(Respond(c.(active := false, waiting := None), Answer(seqno, false)), None)
  {
    hide Answered, Seqnos, FirstNats;
    AnsweredMore(c.output, Answer(seqno, false));
    MoveOver(Answered(c.output), [seqno], Seqnos(c.pending));
  }
}
