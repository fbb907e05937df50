/** What every run of the RPC server keeps. */
module RpcProofs {
  import opened Words
  import opened RpcModel

  // Where the job of a client is.

  function CompletionOf(js: seq<Job>, c: nat): (r: Option<nat>)
    ensures r.Some? <==> exists i :: 0 <= i < |js| && js[i].client == c
  {
    if js == [] then None
    else if js[0].client == c then Some(js[0].seqno)
    else
      var r := CompletionOf(js[1..], c);
      assert r.None? ==> forall i :: 1 <= i < |js| ==> js[i] == js[1..][i - 1];
      assert r.Some? ==> exists i :: 0 <= i < |js[1..]| && js[1..][i].client == c && js[i + 1] == js[1..][i];
      r
  }

  /** The request of a client that a worker has, has just given back, or left in the completion queue. */
  function JobOf(s: Server, c: nat): Option<nat> {
    if c in s.executing then Some(s.executing[c])
    else if c in s.released then Some(s.released[c])
    else CompletionOf(s.completions, c)
  }

  /** No client has two jobs, and jobs belong to clients that were accepted. */
  ghost predicate JobsApart(s: Server) {
    && s.executing.Keys !! s.released.Keys
    && (forall c :: c in s.executing || c in s.released ==> c < |s.clients| && CompletionOf(s.completions, c) == None)
    && (forall i :: 0 <= i < |s.completions| ==> s.completions[i].client < |s.clients|)
    && (forall i, j :: 0 <= i < j < |s.completions| ==> s.completions[i].client != s.completions[j].client)
  }

  ghost predicate ClientOk(s: Server, c: nat)
    requires c < |s.clients|
  {
    s.clients[c].closed || (ClientInv(s.clients[c], JobOf(s, c)) && |s.clients[c].pending| <= s.limits.maxPending)
  }

  ghost predicate ClientsOk(s: Server) {
    forall c :: 0 <= c < |s.clients| ==> ClientOk(s, c)
  }

  /** Executing requests and free slots add up to the worker count. */
  ghost predicate SlotsOk(s: Server) {
    s.free + |s.executing| == s.limits.maxWorkers
  }

  function OpenCount(cs: seq<Client>): nat {
    if cs == [] then 0 else OpenCount(cs[..|cs| - 1]) + (if cs[|cs| - 1].closed then 0 else 1)
  }

  ghost predicate CountOk(s: Server) {
    s.activeClients == OpenCount(s.clients) <= s.limits.maxClients
  }

  ghost predicate Inv(s: Server) {
    JobsApart(s) && ClientsOk(s) && SlotsOk(s) && CountOk(s)
  }

  lemma {:induction false} CompletionOfAppend(js: seq<Job>, j: Job, c: nat)
    ensures
      CompletionOf(js + [j], c)
        == if CompletionOf(js, c).Some? then CompletionOf(js, c) else if j.client == c then Some(j.seqno) else None
    decreases |js|
  {
    if js != [] {
      assert (js + [j])[1..] == js[1..] + [j];
      CompletionOfAppend(js[1..], j, c);
    } else {
      assert (js + [j])[1..] == [];
    }
  }

  lemma {:induction false} OpenCountOfUpdate(cs: seq<Client>, c: nat, client: Client)
    requires c < |cs|
    ensures
      OpenCount(cs[c := client])
        == OpenCount(cs) - (if cs[c].closed then 0 else 1) + (if client.closed then 0 else 1)
    ensures !cs[c].closed ==> OpenCount(cs) > 0
    decreases |cs|
  {
    var n := |cs| - 1;
    if c < n {
      OpenCountOfUpdate(cs[..n], c, client);
      assert cs[c := client][..n] == cs[..n][c := client];
    } else {
      assert cs[c := client][..n] == cs[..n];
    }
  }

  /** Replacing an open client by an open one that is fine with its job. */
  lemma ReplaceKeepsInv(s: Server, c: nat, client: Client)
    requires Inv(s) && Open(s, c) && !client.closed
    requires ClientInv(client, JobOf(s, c)) && |client.pending| <= s.limits.maxPending
    ensures Inv(s.(clients := s.clients[c := client]))
  {
    hide ClientInv, OpenCount;
    var s' := s.(clients := s.clients[c := client]);
    OpenCountOfUpdate(s.clients, c, client);
    forall d | 0 <= d < |s'.clients|
      ensures ClientOk(s', d)
    {
      assert JobOf(s', d) == JobOf(s, d);
      assert ClientOk(s, d);
    }
  }

  lemma CloseKeepsInv(s: Server, c: nat)
    requires Inv(s)
    ensures Inv(CloseClient(s, c))
  {
    hide ClientInv, OpenCount;
    if Open(s, c) {
      var s' := CloseClient(s, c);
      OpenCountOfUpdate(s.clients, c, s.clients[c].(closed := true));
      forall d | 0 <= d < |s'.clients|
        ensures ClientOk(s', d)
      {
        assert JobOf(s', d) == JobOf(s, d);
        assert ClientOk(s, d);
      }
    }
  }

  lemma MoreExecuting(m: map<nat, nat>, c: nat, seqno: nat)
    requires c !in m
    ensures |m[c := seqno]| == |m| + 1
  {
    assert m[c := seqno].Keys == m.Keys + {c};
    assert |m[c := seqno].Keys| == |m.Keys| + 1;
  }

  lemma StartedJobs(s: Server, c: nat, seqno: nat)
    requires JobsApart(s) && c < |s.clients| && JobOf(s, c) == None
    ensures
      var s' := s.(executing := s.executing[c := seqno]);
      && JobsApart(s') && JobOf(s', c) == Some(seqno)
      && forall d :: d != c ==> JobOf(s', d) == JobOf(s, d)
  {
  }

  lemma {:induction false} TakeSlotKeepsInv(s: Server, c: nat, client: Client, seqno: nat)
    requires Inv(s) && Open(s, c) && JobOf(s, c) == None && s.free > 0
    requires !client.closed && ClientInv(client, Some(seqno)) && |client.pending| <= s.limits.maxPending
    ensures
      Inv(s.(clients := s.clients[c := client], executing := s.executing[c := seqno], free := s.free - 1))
  {
    hide ClientInv, OpenCount, JobOf;
    var s1 := s.(executing := s.executing[c := seqno]);
    var s' := s1.(clients := s.clients[c := client], free := s.free - 1);
    OpenCountOfUpdate(s.clients, c, client);
    StartedJobs(s, c, seqno);
    NoJobNoSlot(s, c);
    MoreExecuting(s.executing, c, seqno);
    forall d | 0 <= d < |s'.clients|
      ensures ClientOk(s', d)
    {
      SameJobs(s1, s', d);
      assert ClientOk(s, d);
    }
  }

  lemma NoJobNoSlot(s: Server, c: nat)
    requires JobOf(s, c) == None
    ensures c !in s.executing
  {
  }

  /** Dispatching for an open client keeps everything, whatever workers do in between. */
  lemma {:induction false} DispatchOnKeepsInv(s: Server, c: nat, ready: bool, meanwhile: seq<seq<Worker>>)
    requires Inv(s) && Open(s, c)
    ensures Inv(DispatchOn(s, c, ready, meanwhile))
    decreases |s.clients[c].pending|
  {
    hide Inv, JobOf, Workers, ClientInv;
    var client := s.clients[c];
    if Idle(client) && client.pending != [] {
      var r := client.pending[0];
      var c1 := PopPending(client);
      OpenIsOk(s, c);
      IdleHasNoJob(s, c);
      StartKeepsInv(client);
      if r.nextEvent {
        if ready {
          ReplaceKeepsInv(s, c, Respond(c1, Answer(r.seqno, false)));
        } else {
          ReplaceKeepsInv(s, c, c1.(waiting := Some(r)));
        }
      } else {
        var s1 := Workers(s, Meanwhile(meanwhile));
        WorkersKeepInv(s, Meanwhile(meanwhile));
        IdleHasNoJob(s1, c);
        if s1.free == 0 {
          var busy := Respond(c1, Answer(r.seqno, true));
          ReplaceKeepsInv(s1, c, busy);
          DispatchOnKeepsInv(s1.(clients := s.clients[c := busy]), c, ready, Later(meanwhile));
        } else {
          TakeSlotKeepsInv(s1, c, c1.(active := true), r.seqno);
        }
      }
    }
  }

  lemma OpenIsOk(s: Server, c: nat)
    requires Inv(s) && Open(s, c)
    ensures ClientInv(s.clients[c], JobOf(s, c)) && |s.clients[c].pending| <= s.limits.maxPending
  {
    hide ClientInv, JobsApart, CountOk;
    assert ClientOk(s, c);
  }

  lemma IdleHasNoJob(s: Server, c: nat)
    requires Inv(s) && Open(s, c) && !s.clients[c].active
    ensures JobOf(s, c) == None
  {
    OpenIsOk(s, c);
  }

  lemma {:induction false} ReceiveKeepsInv(s: Server, c: nat, lines: seq<Line>, ready: bool,
                                           meanwhile: seq<seq<Worker>>)
    requires Inv(s)
    ensures Inv(Step(s, Receive(c, lines, ready, meanwhile)))
  {
    hide Inv, JobOf, ReadLines, CloseClient, DispatchOn;
    if Open(s, c) {
      OpenIsOk(s, c);
      ReadLinesKeepsInv(s.clients[c], lines, s.limits.maxPending, JobOf(s, c));
      var (client, ok) := ReadLines(s.clients[c], lines, s.limits.maxPending);
      var s' := s.(clients := s.clients[c := client]);
      ReplaceKeepsInv(s, c, client);
      if ok {
        DispatchOnKeepsInv(s', c, ready, meanwhile);
      } else {
        CloseKeepsInv(s', c);
      }
    }
  }

  lemma {:induction false} AcceptKeepsInv(s: Server)
    requires Inv(s)
    ensures Inv(Step(s, Accept))
  {
    if s.activeClients < s.limits.maxClients {
      var s' := Step(s, Accept);
      assert s'.clients[..|s.clients|] == s.clients;
      forall d | 0 <= d < |s'.clients|
        ensures ClientOk(s', d)
      {
        assert JobOf(s', d) == JobOf(s, d);
        if d < |s.clients| {
          assert ClientOk(s, d);
        } else {
          NewClientIsOk();
        }
      }
    }
  }

  lemma NewClientIsOk()
    ensures ClientInv(NEW_CLIENT, None)
  {
  }

  lemma {:induction false} ReleaseKeepsInv(s: Server, c: nat)
    requires Inv(s)
    ensures Inv(WorkerStep(s, Release(c)))
  {
    hide ClientInv, OpenCount;
    if c in s.executing {
      var s' := WorkerStep(s, Release(c));
      assert s.executing.Keys == s'.executing.Keys + {c};
      assert |s.executing| == |s'.executing| + 1 by {
        assert |s.executing.Keys| == |s'.executing.Keys| + 1;
      }
      forall d | 0 <= d < |s'.clients|
        ensures ClientOk(s', d)
      {
        assert JobOf(s', d) == JobOf(s, d);
        assert ClientOk(s, d);
      }
    }
  }

  lemma {:induction false} PostKeepsInv(s: Server, c: nat)
    requires Inv(s)
    ensures Inv(WorkerStep(s, Post(c)))
  {
    hide ClientInv, OpenCount;
    if c in s.released {
      var s' := WorkerStep(s, Post(c));
      var j := Job(c, s.released[c]);
      forall d: nat
        ensures CompletionOf(s'.completions, d)
          == if CompletionOf(s.completions, d).Some? then CompletionOf(s.completions, d)
             else if d == c then Some(j.seqno) else None
      {
        CompletionOfAppend(s.completions, j, d);
      }
      forall d | 0 <= d < |s'.clients|
        ensures ClientOk(s', d)
      {
        assert JobOf(s', d) == JobOf(s, d);
        assert ClientOk(s, d);
      }
    }
  }

  lemma {:induction false} WorkersKeepInv(s: Server, ws: seq<Worker>)
    requires Inv(s)
    ensures Inv(Workers(s, ws))
    decreases |ws|
  {
    hide Inv, WorkerStep;
    if ws != [] {
      match ws[0] {
        case Release(c) => ReleaseKeepsInv(s, c);
        case Post(c) => PostKeepsInv(s, c);
      }
      WorkersKeepInv(WorkerStep(s, ws[0]), ws[1..]);
    }
  }

  /** Taking the first completion off ends the job of its client, and no other. */
  lemma DrainedJobs(s: Server)
    requires JobsApart(s) && s.completions != []
    ensures
      var s' := s.(completions := s.completions[1..]);
      && JobsApart(s')
      && JobOf(s, s.completions[0].client) == Some(s.completions[0].seqno)
      && JobOf(s', s.completions[0].client) == None
      && forall d :: d != s.completions[0].client ==> JobOf(s', d) == JobOf(s, d)
  {
    var s' := s.(completions := s.completions[1..]);
    assert forall i :: 0 <= i < |s'.completions| ==> s'.completions[i] == s.completions[i + 1];
    assert CompletionOf(s.completions, s.completions[0].client).Some?;
  }

  /** Answering the current request of an open client whose job, if it had one, is gone. */
  lemma AnswerOnKeepsInv(s: Server, s1: Server, c: nat, client: Client)
    requires Inv(s) && Open(s, c) && JobsApart(s1)
    requires s1 == s.(completions := s1.completions)
    requires JobOf(s1, c) == None && forall d :: d != c ==> JobOf(s1, d) == JobOf(s, d)
    requires !client.closed && ClientInv(client, None) && |client.pending| <= s.limits.maxPending
    ensures Inv(s1.(clients := s.clients[c := client]))
  {
    hide ClientInv, OpenCount, JobOf;
    var s' := s1.(clients := s.clients[c := client]);
    OpenCountOfUpdate(s.clients, c, client);
    forall d | 0 <= d < |s'.clients|
      ensures ClientOk(s', d)
    {
      SameJobs(s1, s', d);
      assert ClientOk(s, d);
    }
  }

  lemma SameJobs(s: Server, s': Server, c: nat)
    requires s' == s.(clients := s'.clients, free := s'.free)
    ensures JobOf(s', c) == JobOf(s, c)
  {
  }

  lemma CurrentOfJob(c: Client, seqno: nat)
    requires ClientInv(c, Some(seqno))
    ensures Current(c, Some(seqno)) == [seqno] && c.waiting == None
  {
  }

  lemma CurrentOfWaiter(c: Client, job: Option<nat>)
    requires ClientInv(c, job) && c.waiting.Some?
    ensures Current(c, job) == [c.waiting.value.seqno] && job == None && !c.active
  {
  }

  lemma {:induction false} DrainKeepsInv(s: Server, ready: bool, meanwhile: seq<seq<Worker>>)
    requires Inv(s)
    ensures Inv(Step(s, Drain(ready, meanwhile)))
  {
    hide JobOf, ClientInv, DispatchOn;
    if s.completions != [] {
      var j := s.completions[0];
      var s1 := s.(completions := s.completions[1..]);
      DrainedJobs(s);
      if Open(s, j.client) {
        var client := s.clients[j.client];
        OpenIsOk(s, j.client);
        CurrentOfJob(client, j.seqno);
        AnswerKeepsInv(client, Some(j.seqno), j.seqno);
        var answered := Respond(client.(active := false), Answer(j.seqno, false));
        assert answered == Respond(client.(active := false, waiting := None), Answer(j.seqno, false));
        AnswerOnKeepsInv(s, s1, j.client, answered);
        DispatchOnKeepsInv(s1.(clients := s.clients[j.client := answered]), j.client, ready, meanwhile);
      } else {
        ClosedLosesItsJob(s, s1, j.client);
      }
    }
  }

  lemma ClosedLosesItsJob(s: Server, s1: Server, c: nat)
    requires Inv(s) && JobsApart(s1) && s1 == s.(completions := s1.completions)
    requires c < |s.clients| && s.clients[c].closed && forall d :: d != c ==> JobOf(s1, d) == JobOf(s, d)
    ensures Inv(s1)
  {
    hide ClientInv, JobOf, OpenCount;
    forall d | 0 <= d < |s1.clients|
      ensures ClientOk(s1, d)
    {
      assert ClientOk(s, d);
    }
  }

  lemma {:induction false} WaiterKeepsInv(s: Server, c: nat, due: bool, ready: bool, meanwhile: seq<seq<Worker>>)
    requires Inv(s)
    ensures Inv(Step(s, ServiceWaiter(c, due, ready, meanwhile)))
  {
    hide Inv, JobOf, ClientInv, DispatchOn;
    if Open(s, c) && s.clients[c].waiting.Some? && due {
      var client := s.clients[c];
      OpenIsOk(s, c);
      CurrentOfWaiter(client, JobOf(s, c));
      AnswerKeepsInv(client, None, client.waiting.value.seqno);
      var answered := Respond(client.(waiting := None), Answer(client.waiting.value.seqno, false));
      assert answered == Respond(client.(active := false, waiting := None), Answer(client.waiting.value.seqno, false));
      ReplaceKeepsInv(s, c, answered);
      DispatchOnKeepsInv(s.(clients := s.clients[c := answered]), c, ready, meanwhile);
    }
  }

  lemma {:induction false} StepKeepsInv(s: Server, e: Event)
    requires Inv(s)
    ensures Inv(Step(s, e))
  {
    hide Inv, Step;
    match e
    case Accept => AcceptKeepsInv(s);
    case Close(c) => StepOfClose(s, c); CloseKeepsInv(s, c);
    case Receive(c, lines, ready, meanwhile) => ReceiveKeepsInv(s, c, lines, ready, meanwhile);
    case Work(w) => StepOfWork(s, w); WorkersKeepInv(s, [w]); OneWorker(s, w);
    case Drain(ready, meanwhile) => DrainKeepsInv(s, ready, meanwhile);
    case ServiceWaiter(c, due, ready, meanwhile) => WaiterKeepsInv(s, c, due, ready, meanwhile);
  }

  lemma StepOfWork(s: Server, w: Worker)
    ensures Step(s, Work(w)) == WorkerStep(s, w)
  {
  }

  lemma OneWorker(s: Server, w: Worker)
    ensures Workers(s, [w]) == WorkerStep(s, w)
  {
    assert [w][1..] == [];
    assert Workers(WorkerStep(s, w), []) == WorkerStep(s, w);
  }

  lemma StepOfClose(s: Server, c: nat)
    ensures Step(s, Close(c)) == CloseClient(s, c)
  {
  }

  lemma {:induction false} RunKeepsInv(s: Server, es: seq<Event>)
    requires Inv(s)
    ensures Inv(Run(s, es))
    decreases |es|
  {
    hide Inv, Step;
    if es != [] {
      StepKeepsInv(s, es[0]);
      RunKeepsInv(Step(s, es[0]), es[1..]);
    }
  }

  lemma {:induction false} DispatchKeepsLimits(s: Server, c: nat, ready: bool, meanwhile: seq<seq<Worker>>)
    requires c < |s.clients|
    ensures DispatchOn(s, c, ready, meanwhile).limits == s.limits
    decreases |s.clients[c].pending|
  {
    hide Workers;
    var client := s.clients[c];
    if Idle(client) && client.pending != [] {
      var s1 := Workers(s, Meanwhile(meanwhile));
      var busy := Respond(PopPending(client), Answer(client.pending[0].seqno, true));
      DispatchKeepsLimits(s1.(clients := s.clients[c := busy]), c, ready, Later(meanwhile));
    }
  }

  lemma StepKeepsLimits(s: Server, e: Event)
    ensures Step(s, e).limits == s.limits
  {
    hide DispatchOn, ReadLines, WorkerStep;
    match e
    case Receive(c, lines, ready, meanwhile) =>
      if Open(s, c) {
        var client := ReadLines(s.clients[c], lines, s.limits.maxPending).0;
        DispatchKeepsLimits(s.(clients := s.clients[c := client]), c, ready, meanwhile);
      }
    case Drain(ready, meanwhile) =>
      if s.completions != [] && Open(s, s.completions[0].client) {
        var j := s.completions[0];
        var client := Respond(s.clients[j.client].(active := false), Answer(j.seqno, false));
        var s' := s.(completions := s.completions[1..], clients := s.clients[j.client := client]);
        DispatchKeepsLimits(s', j.client, ready, meanwhile);
      }
    case ServiceWaiter(c, due, ready, meanwhile) =>
      if Open(s, c) && s.clients[c].waiting.Some? {
        var client := Respond(s.clients[c].(waiting := None), Answer(s.clients[c].waiting.value.seqno, false));
        DispatchKeepsLimits(s.(clients := s.clients[c := client]), c, ready, meanwhile);
      }
    case _ =>
  }

  lemma {:induction false} RunKeepsLimits(s: Server, es: seq<Event>)
    ensures Run(s, es).limits == s.limits
    decreases |es|
  {
    hide Step;
    if es != [] {
      StepKeepsLimits(s, es[0]);
      RunKeepsLimits(Step(s, es[0]), es[1..]);
    }
  }

  lemma InitialInv(l: Limits)
    ensures Inv(Initial(l))
  {
  }

  lemma InitialLimits(l: Limits)
    ensures Initial(l).limits == l
  {
  }

  /**
    * Over every run: executing requests and free slots are the worker count; the open clients are counted
    * and bounded; and of each open client at most one request is executing or waiting, while its answers
    * so far are those of its first requests, one each and in order.
    */
  lemma {:induction false} RpcIsOrderedAndBounded(l: Limits, es: seq<Event>, c: nat)
    ensures
      var s := Run(Initial(l), es);
      && s.free + |s.executing| == l.maxWorkers
      && s.activeClients == OpenCount(s.clients) <= l.maxClients
      && (Open(s, c) ==>
            var client := s.clients[c];
            && |client.pending| <= l.maxPending
            && !(client.waiting.Some? && (c in s.executing || c in s.released))
            && |Answered(client.output)| <= client.accepted
            && Answered(client.output) == FirstNats(|Answered(client.output)|)
            && client.accepted - |client.pending| - |Answered(client.output)|
               == if client.waiting.Some? || JobOf(s, c).Some? then 1 else 0)
  {
    hide Initial, Run;
    InitialInv(l);
    RunKeepsInv(Initial(l), es);
    RunKeepsLimits(Initial(l), es);
    InitialLimits(l);
    var s := Run(Initial(l), es);
    if Open(s, c) {
      OpenIsOk(s, c);
      PrefixOfFirstNats(s.clients[c], JobOf(s, c));
    }
  }

  lemma PrefixOfFirstNats(c: Client, job: Option<nat>)
    requires ClientInv(c, job)
    ensures |Answered(c.output)| <= c.accepted
    ensures Answered(c.output) == FirstNats(|Answered(c.output)|)
    ensures c.accepted - |c.pending| - |Answered(c.output)| == |Current(c, job)|
    ensures |Current(c, job)| == if c.waiting.Some? || job.Some? then 1 else 0
  {
    var a, all := Answered(c.output), Answered(c.output) + Current(c, job) + Seqnos(c.pending);
    assert |all| == c.accepted;
    forall i | 0 <= i < |a|
      ensures a[i] == i
    {
      assert all[i] == FirstNats(c.accepted)[i];
    }
  }
}
