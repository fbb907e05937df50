/** Which answers the RPC server gives: busy only for want of a slot, and never for a request that has run. */
module RpcAnswers {
  import opened Words
  import opened RpcModel

  /** From the given place on there is no busy answer. */
  predicate NoBusyFrom(output: seq<Output>, from: nat) {
    forall i :: from <= i < |output| ==> !(output[i].Answer? && output[i].busy)
  }

  /** Workers never take a slot away. */
  lemma {:induction false} WorkersAddSlots(s: Server, ws: seq<Worker>)
    ensures Workers(s, ws).free >= s.free
    decreases |ws|
  {
    hide WorkerStep;
    if ws != [] {
      WorkerAddsSlots(s, ws[0]);
      WorkersAddSlots(WorkerStep(s, ws[0]), ws[1..]);
    }
  }

  lemma WorkerAddsSlots(s: Server, w: Worker)
    ensures WorkerStep(s, w).free >= s.free
  {
  }

  /** A dispatch only adds answers, and while a slot is free none of them is busy. */
  lemma {:induction false} DispatchAddsAnswers(s: Server, c: nat, ready: bool, meanwhile: seq<seq<Worker>>)
    requires c < |s.clients|
    ensures |DispatchOn(s, c, ready, meanwhile).clients| == |s.clients|
    ensures
      var was, now := s.clients[c].output, DispatchOn(s, c, ready, meanwhile).clients[c].output;
      was <= now && (s.free > 0 ==> NoBusyFrom(now, |was|))
    decreases |s.clients[c].pending|
  {
    hide Workers;
    var client := s.clients[c];
    if Idle(client) && client.pending != [] && !client.pending[0].nextEvent {
      WorkersAddSlots(s, Meanwhile(meanwhile));
      var s1 := Workers(s, Meanwhile(meanwhile));
      if s1.free == 0 {
        var c1 := Respond(PopPending(client), Answer(client.pending[0].seqno, true));
        DispatchAddsAnswers(s1.(clients := s.clients[c := c1]), c, ready, Later(meanwhile));
      }
    }
  }

  /**
   The first pending call of an idle client runs if a slot is free, and is answered busy if none is and
   none comes.
   */
  lemma {:induction false} CallRunsOrIsBusy(s: Server, c: nat, ready: bool, meanwhile: seq<seq<Worker>>)
    requires c < |s.clients| && Idle(s.clients[c]) && s.clients[c].pending != [] && !s.clients[c].pending[0].nextEvent
    ensures
      var r := s.clients[c].pending[0];
      var s' := DispatchOn(s, c, ready, meanwhile);
      && |s'.clients| == |s.clients|
      && (s.free > 0 ==> c in s'.executing && s'.executing[c] == r.seqno && s'.clients[c].active
                         && s'.clients[c].output == s.clients[c].output)
      && (s.free == 0 && meanwhile == [] ==> s.clients[c].output + [Answer(r.seqno, true)] <= s'.clients[c].output)
  {
    var client := s.clients[c];
    WorkersAddSlots(s, Meanwhile(meanwhile));
    var c1 := Respond(PopPending(client), Answer(client.pending[0].seqno, true));
    var s1 := Workers(s, Meanwhile(meanwhile));
    var s2 := s1.(clients := s.clients[c := c1]);
    DispatchAddsAnswers(s2, c, ready, Later(meanwhile));
  }

  /** The first pending poll of an idle client is answered at once if an event is there, and waits otherwise. */
  lemma {:induction false} PollIsAnsweredOrWaits(s: Server, c: nat, ready: bool, meanwhile: seq<seq<Worker>>)
    requires c < |s.clients| && Idle(s.clients[c]) && s.clients[c].pending != [] && s.clients[c].pending[0].nextEvent
    ensures
      var client, r := s.clients[c], s.clients[c].pending[0];
      DispatchOn(s, c, ready, meanwhile)
        == s.(clients := s.clients[c :=
             if ready then client.(pending := client.pending[1..], output := client.output + [Answer(r.seqno, false)])
             else client.(pending := client.pending[1..], waiting := Some(r))])
  {
  }

  /** The request a completion is of is answered, and not busy. */
  lemma {:induction false} CompletedIsNotBusy(s: Server, ready: bool, meanwhile: seq<seq<Worker>>)
    requires s.completions != [] && Open(s, s.completions[0].client)
    ensures
      var j := s.completions[0];
      var s' := Step(s, Drain(ready, meanwhile));
      && |s'.clients| == |s.clients|
      && s.clients[j.client].output + [Answer(j.seqno, false)] <= s'.clients[j.client].output
      && (s.free > 0 ==> NoBusyFrom(s'.clients[j.client].output, |s.clients[j.client].output|))
  {
    var j := s.completions[0];
    var client := Respond(s.clients[j.client].(active := false), Answer(j.seqno, false));
    var s1 := s.(completions := s.completions[1..], clients := s.clients[j.client := client]);
    DispatchAddsAnswers(s1, j.client, ready, meanwhile);
    hide DispatchOn;
  }

  /** A waiting poll is answered when it is due, and not busy. */
  lemma {:induction false} WaiterIsNotBusy(s: Server, c: nat, ready: bool, meanwhile: seq<seq<Worker>>)
    requires Open(s, c) && s.clients[c].waiting.Some?
    ensures
      var s' := Step(s, ServiceWaiter(c, true, ready, meanwhile));
      && |s'.clients| == |s.clients|
      && s.clients[c].output + [Answer(s.clients[c].waiting.value.seqno, false)] <= s'.clients[c].output
    ensures Step(s, ServiceWaiter(c, false, ready, meanwhile)) == s
  {
    var r := s.clients[c].waiting.value;
    var client := Respond(s.clients[c].(waiting := None), Answer(r.seqno, false));
    DispatchAddsAnswers(s.(clients := s.clients[c := client]), c, ready, meanwhile);
    hide DispatchOn;
  }

  /** A worker's run ends in the completion queue, with its slot given back first. */
  lemma {:induction false} WorkerCompletes(s: Server, c: nat)
    requires c in s.executing && c !in s.released
    ensures
      var s1 := WorkerStep(s, Release(c));
      var s2 := WorkerStep(s1, Post(c));
      && s1.free == s.free + 1 && c !in s1.executing && s1.completions == s.completions
      && s2.completions == s.completions + [Job(c, s.executing[c])]
      && c !in s2.executing && c !in s2.released && s2.free == s.free + 1
  {
  }

  // ---- Clients and their lines ----

  /** A connection is accepted if and only if there are fewer clients than allowed, and it starts empty. */
  lemma AcceptOpensClient(s: Server)
    ensures
      Step(s, Accept)
        == if s.activeClients < s.limits.maxClients then
             s.(clients := s.clients + [NEW_CLIENT], activeClients := s.activeClients + 1)
           else s
  {
  }

  function Calls(lines: seq<Line>): nat {
    if lines == [] then 0 else (if lines[0].Call? then 1 else 0) + Calls(lines[1..])
  }

  /** The requests of a client's lines, numbered on. */
  function Requests(lines: seq<Line>, from: nat): seq<Request>
    decreases |lines|
  {
    if lines == [] then []
    else if lines[0].Call? then [Request(from, lines[0].nextEvent)] + Requests(lines[1..], from + 1)
    else Requests(lines[1..], from)
  }

  lemma Regroup<T>(a: seq<T>, b: seq<T>, c: seq<T>)
    ensures a + b + c == a + (b + c)
  {
  }

  /**
   A client is cut off if and only if its calls exceed its queue; otherwise all of them are queued, in order
   and each under the next number, and each malformed line is answered by a parse error.
   */
  lemma {:induction false} LinesAreQueued(c: Client, lines: seq<Line>, maxPending: nat)
    requires !c.closed && |c.pending| <= maxPending
    ensures
      var (c', ok) := ReadLines(c, lines, maxPending);
      && (ok <==> |c.pending| + Calls(lines) <= maxPending)
      && (ok ==> c'.pending == c.pending + Requests(lines, c.accepted) && c'.accepted == c.accepted + Calls(lines)
                 && |c'.output| == |c.output| + |lines| - Calls(lines) && c.output <= c'.output)
    decreases |lines|
  {
    if lines == [] {
      assert c.pending + [] == c.pending;
    } else {
      match lines[0]
      case BadJson => LinesAreQueued(Respond(c, ParseError), lines[1..], maxPending);
      case Call(nextEvent) =>
        if |c.pending| < maxPending {
          var r := Request(c.accepted, nextEvent);
          LinesAreQueued(c.(pending := c.pending + [r], accepted := c.accepted + 1), lines[1..], maxPending);
          Regroup(c.pending, [r], Requests(lines[1..], c.accepted + 1));
        }
    }
  }

  /** Closing an open client closes it and makes room for another. */
  lemma CloseMakesRoom(s: Server, c: nat)
    requires Open(s, c) && s.activeClients > 0
    ensures
      var s' := Step(s, Close(c));
      && s'.activeClients == s.activeClients - 1 && |s'.clients| == |s.clients|
      && s'.clients[c] == s.clients[c].(closed := true)
  {
  }
}
