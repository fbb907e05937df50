/**
 The life of bridge requests: ids, the request list and its index, in-flight credits, replies,
 timeouts, resets and daemon exit, as steps that each run under the runtime lock.
 */
module RequestModel {
  import opened Words

  datatype Request = Request(id: u32, generation: u32, capacity: nat,
                             replied: bool, status: int, responseLen: nat)

  /**
   Requests are objects, named by a serial number; the list orders them and the index finds them by
   id. `page` is the in-flight counter of the control page, present while a session is set up.
   */
  datatype Table = Table(objects: map<nat, Request>, listed: seq<nat>, index: map<u32, nat>,
                         nextSerial: nat, nextId: u32, generation: u32, creditLimit: nat,
                         page: Option<nat>, daemonOpen: bool, started: bool)

  datatype Event =
    | Open | Setup(credits: u32) | Eventfds(valid: bool) | Start | Release | ResetCommand
    | Send(capacity: nat, room: bool)
    | Reply(id: u32, generation: u32, status: int, dataLen: nat)
    | Timeout(serial: nat)
    | Wake(serial: nat)

  function Empty(): Table {
    Table(map[], [], map[], 0, 0, 0, 128, None, false, false)
  }

  // ---- Steps ----

  function Failed(req: Request, status: int): Request {
    if req.replied then req else req.(replied := true, status := status, responseLen := 0)
  }

  /** fail_all_locked: every unreplied request completes with the status; the credits return. */
  function FailAll(t: Table, status: int): Table {
    t.(objects := map s | s in t.objects :: Failed(t.objects[s], status),
       page := if t.page.Some? then Some(0) else None)
  }

  predicate Distinct(list: seq<nat>) {
    forall i, j :: 0 <= i < j < |list| ==> list[i] != list[j]
  }

  function Without(list: seq<nat>, serial: nat): (r: seq<nat>)
    ensures forall s :: s in r <==> s in list && s != serial
  {
    if list == [] then []
    else if list[0] == serial then Without(list[1..], serial)
    else [list[0]] + Without(list[1..], serial)
  }

  function MinusOne(n: nat): nat { if n > 0 then n - 1 else 0 }

  /** Takes a request off the list, out of the index slot of its id, and frees it. */
  function Unlist(t: Table, serial: nat): Table
    requires serial in t.objects
  {
    t.(objects := t.objects - {serial},
       listed := Without(t.listed, serial),
       index := t.index - {t.objects[serial].id})
  }

  /** The guards of queue_transport_locked; `room` is what the ring and the arena say. */
  predicate Sendable(t: Table, room: bool) {
    t.daemonOpen && t.started && t.page.Some? && t.page.value < t.creditLimit && room
  }

  function SendStatus(t: Table, room: bool): int {
    if !t.daemonOpen || !t.started || t.page.None? then ETIMEDOUT
    else if t.page.value >= t.creditLimit || !room then EBUSY
    else 0
  }

  /** A request is listed and indexed first, and taken back if it cannot be queued. */
  function Enlist(t: Table, capacity: nat): Table {
    var id := Word(t.nextId + 1);
    var req := Request(id, t.generation, capacity, false, 0, 0);
    t.(objects := t.objects[t.nextSerial := req],
       listed := t.listed + [t.nextSerial],
       index := t.index[id := t.nextSerial],
       nextSerial := t.nextSerial + 1, nextId := id)
  }

  function StepSend(t: Table, capacity: nat, room: bool): Table {
    var t1 := Enlist(t, capacity);
    if Sendable(t, room) then t1.(page := Some(t.page.value + 1))
    else Unlist(t1, t.nextSerial)
  }

  /** The request a reply is for, if any: found by id, and of the same generation. */
  function Addressee(t: Table, id: u32, generation: u32): Option<nat> {
    if id in t.index && t.index[id] in t.objects
       && t.objects[t.index[id]].generation == generation
    then Some(t.index[id]) else None
  }

  function StepReply(t: Table, id: u32, generation: u32, status: int, dataLen: nat): Table {
    match Addressee(t, id, generation)
    case None => t
    case Some(s) =>
      var req := t.objects[s];
      t.(objects := t.objects[s := req.(replied := true, status := status,
                      responseLen := if status == 0 then Min(req.capacity, dataLen) else 0)],
         page := if t.page.Some? then Some(MinusOne(t.page.value)) else None)
  }

  /** The waiter's timeout, which may race a reply that has already completed the request. */
  function StepTimeout(t: Table, serial: nat): Table {
    if serial !in t.objects then t else
    var t1 := Unlist(t, serial);
    t1.(page := if t.page.Some? then Some(MinusOne(t.page.value)) else None)
  }

  function StepWake(t: Table, serial: nat): Table {
    if serial !in t.objects || !t.objects[serial].replied then t else Unlist(t, serial)
  }

  function Step(t: Table, e: Event): Table {
    match e
    case Open => if t.daemonOpen then t else t.(daemonOpen := true, started := false)
    case Setup(credits) =>
      if !t.daemonOpen then t
      else t.(page := Some(0), creditLimit := if credits < 1 then 1 else credits, started := false)
    case Eventfds(valid) => if t.page.None? || !valid then t else t.(page := Some(0))
    case Start =>
      if !t.daemonOpen || t.page.None? then t else t.(page := Some(0), started := true)
    case Release => FailAll(t.(daemonOpen := false, started := false), EPIPE).(page := None)
    case ResetCommand =>
      FailAll(t, EPIPE).(generation := if Word(t.generation + 1) == 0 then 1 else Word(t.generation + 1))
    case Send(capacity, room) => StepSend(t, capacity, room)
    case Reply(id, generation, status, dataLen) => StepReply(t, id, generation, status, dataLen)
    case Timeout(serial) => StepTimeout(t, serial)
    case Wake(serial) => StepWake(t, serial)
  }

  function Run(t: Table, es: seq<Event>): Table
    decreases |es|
  {
    if es == [] then t else Run(Step(t, es[0]), es[1..])
  }

  // ---- Invariant ----

  function Unreplied(t: Table): set<nat> {
    set s | s in t.objects && !t.objects[s].replied
  }

  /** The list names the live requests, each once. */
  ghost predicate ListOk(t: Table) {
    && (forall s :: s in t.listed <==> s in t.objects)
    && Distinct(t.listed)
    && (forall s :: s in t.objects ==> s < t.nextSerial)
  }

  /** Every index entry is a live request of that id: a reply never touches a freed request. */
  ghost predicate IndexLive(t: Table) {
    forall id :: id in t.index ==> t.index[id] in t.objects && t.objects[t.index[id]].id == id
  }

  /** Every listed request is found under its own id. */
  ghost predicate IndexComplete(t: Table) {
    forall s :: s in t.objects ==> t.objects[s].id in t.index && t.index[t.objects[s].id] == s
  }

  /** The index holds exactly the listed requests, each under its own id. */
  ghost predicate IndexOk(t: Table) {
    IndexLive(t) && IndexComplete(t)
  }

  /** Credits in use never exceed the limit, nor the number of listed requests without a reply. */
  ghost predicate CreditsOk(t: Table) {
    t.page.Some? ==> t.page.value <= t.creditLimit && t.page.value <= |Unreplied(t)|
  }

  /** What holds whatever ids are handed out. */
  ghost predicate Safe(t: Table) {
    ListOk(t) && IndexLive(t) && CreditsOk(t)
  }

  ghost predicate Inv(t: Table) {
    Safe(t) && IndexComplete(t)
  }

  /** The next id is not in use, which fails only when 2^32 sends have overtaken a waiting request. */
  predicate FreshId(t: Table) {
    Word(t.nextId + 1) !in t.index
  }

  /** The parts of the table the list and the index consist of. */
  predicate SamePeople(t: Table, t': Table) {
    t'.objects == t.objects && t'.listed == t.listed && t'.index == t.index && t'.nextSerial == t.nextSerial
  }

  lemma SamePeopleSameInv(t: Table, t': Table)
    requires SamePeople(t, t')
    ensures ListOk(t') == ListOk(t) && IndexLive(t') == IndexLive(t) && IndexComplete(t') == IndexComplete(t)
    ensures Unreplied(t') == Unreplied(t)
  {
  }

  lemma FailAllKeepsSafe(t: Table, status: int)
    requires ListOk(t) && IndexLive(t)
    ensures Safe(FailAll(t, status)) && Unreplied(FailAll(t, status)) == {}
    ensures IndexComplete(t) ==> IndexComplete(FailAll(t, status))
  {
    assert forall s :: s in FailAll(t, status).objects <==> s in t.objects;
  }

  lemma {:induction false} WithoutKeepsDistinct(list: seq<nat>, serial: nat)
    requires Distinct(list)
    ensures Distinct(Without(list, serial))
  {
    if list != [] {
      WithoutKeepsDistinct(list[1..], serial);
      assert list[0] !in list[1..];
    }
  }

  lemma UnlistKeepsTable(t: Table, serial: nat)
    requires ListOk(t) && IndexLive(t) && serial in t.objects
    ensures ListOk(Unlist(t, serial)) && IndexLive(Unlist(t, serial))
    ensures IndexComplete(t) ==> IndexComplete(Unlist(t, serial))
    ensures Unreplied(Unlist(t, serial)) == Unreplied(t) - {serial}
    ensures Unlist(t, serial).page == t.page && Unlist(t, serial).creditLimit == t.creditLimit
  {
    WithoutKeepsDistinct(t.listed, serial);
    hide Without, Distinct;
  }

  lemma EnlistKeepsTable(t: Table, capacity: nat)
    requires ListOk(t) && IndexLive(t)
    ensures ListOk(Enlist(t, capacity)) && IndexLive(Enlist(t, capacity))
    ensures Unreplied(Enlist(t, capacity)) == Unreplied(t) + {t.nextSerial}
    ensures t.nextSerial !in t.objects && t.nextSerial in Enlist(t, capacity).objects
    ensures Enlist(t, capacity).page == t.page && Enlist(t, capacity).creditLimit == t.creditLimit
  {
    assert t.nextSerial !in t.listed;
  }

  lemma EnlistKeepsComplete(t: Table, capacity: nat)
    requires ListOk(t) && IndexComplete(t) && FreshId(t)
    ensures IndexComplete(Enlist(t, capacity))
  {
    assert t.nextSerial !in t.objects;
  }

  lemma SendKeepsSafe(t: Table, capacity: nat, room: bool)
    requires Safe(t)
    ensures Safe(StepSend(t, capacity, room))
  {
    hide Unlist, Enlist, ListOk, IndexLive, Unreplied, IndexComplete;
    var t1 := Enlist(t, capacity);
    EnlistKeepsTable(t, capacity);
    assert t.nextSerial !in Unreplied(t) by { UnrepliedAreLive(t, t.nextSerial); }
    if Sendable(t, room) {
      SamePeopleSameInv(t1, t1.(page := Some(t.page.value + 1)));
    } else {
      UnlistKeepsTable(t1, t.nextSerial);
      assert Unreplied(Unlist(t1, t.nextSerial)) == Unreplied(t);
    }
  }

  lemma UnrepliedAreLive(t: Table, serial: nat)
    ensures serial in Unreplied(t) ==> serial in t.objects
  {
  }

  lemma SendKeepsComplete(t: Table, capacity: nat, room: bool)
    requires ListOk(t) && IndexOk(t) && FreshId(t)
    ensures IndexComplete(StepSend(t, capacity, room))
  {
    hide Unlist, Enlist, ListOk, IndexLive, IndexComplete;
    var t1 := Enlist(t, capacity);
    EnlistKeepsTable(t, capacity);
    EnlistKeepsComplete(t, capacity);
    if Sendable(t, room) {
      SamePeopleSameInv(t1, t1.(page := Some(t.page.value + 1)));
    } else {
      UnlistKeepsTable(t1, t.nextSerial);
    }
  }

  lemma ReplyKeepsSafe(t: Table, id: u32, generation: u32, status: int, dataLen: nat)
    requires Safe(t)
    ensures Safe(StepReply(t, id, generation, status, dataLen))
    ensures IndexComplete(t) ==> IndexComplete(StepReply(t, id, generation, status, dataLen))
  {
    match Addressee(t, id, generation)
    case None =>
    case Some(s) =>
      var t' := StepReply(t, id, generation, status, dataLen);
      assert Unreplied(t') == Unreplied(t) - {s};
  }

  lemma TimeoutKeepsSafe(t: Table, serial: nat)
    requires Safe(t)
    ensures Safe(StepTimeout(t, serial))
    ensures IndexComplete(t) ==> IndexComplete(StepTimeout(t, serial))
  {
    if serial in t.objects {
      hide Unlist, ListOk, IndexLive, IndexComplete;
      UnlistKeepsTable(t, serial);
      SamePeopleSameInv(Unlist(t, serial), StepTimeout(t, serial));
      assert Unreplied(StepTimeout(t, serial)) == Unreplied(t) - {serial};
    }
  }

  lemma WakeKeepsSafe(t: Table, serial: nat)
    requires Safe(t)
    ensures Safe(StepWake(t, serial))
    ensures IndexComplete(t) ==> IndexComplete(StepWake(t, serial))
  {
    if serial in t.objects && t.objects[serial].replied {
      hide Unlist, ListOk, IndexLive, IndexComplete;
      UnlistKeepsTable(t, serial);
      assert Unreplied(t) - {serial} == Unreplied(t);
    }
  }

  lemma ReleaseKeepsSafe(t: Table)
    requires ListOk(t) && IndexLive(t)
    ensures Safe(Step(t, Release)) && (IndexComplete(t) ==> IndexComplete(Step(t, Release)))
  {
    hide ListOk, IndexLive, IndexComplete, FailAll;
    var closed := t.(daemonOpen := false, started := false);
    SamePeopleSameInv(t, closed);
    FailAllKeepsSafe(closed, EPIPE);
    SamePeopleSameInv(FailAll(closed, EPIPE), Step(t, Release));
  }

  lemma ResetKeepsSafe(t: Table)
    requires ListOk(t) && IndexLive(t)
    ensures Safe(Step(t, ResetCommand)) && (IndexComplete(t) ==> IndexComplete(Step(t, ResetCommand)))
  {
    hide ListOk, IndexLive, IndexComplete, FailAll;
    FailAllKeepsSafe(t, EPIPE);
    SamePeopleSameInv(FailAll(t, EPIPE), Step(t, ResetCommand));
  }

  /** Every step keeps list, live index and credits, whatever id a send is given. */
  lemma {:induction false} StepKeepsSafe(t: Table, e: Event)
    requires Safe(t)
    ensures Safe(Step(t, e))
    ensures IndexComplete(t) && !e.Send? ==> IndexComplete(Step(t, e))
  {
    hide ListOk, IndexLive, IndexComplete, StepSend, StepReply, StepTimeout, StepWake, FailAll, Unreplied;
    match e
    case Release => ReleaseKeepsSafe(t);
    case ResetCommand => ResetKeepsSafe(t);
    case Send(capacity, room) => SendKeepsSafe(t, capacity, room);
    case Reply(id, generation, status, dataLen) => ReplyKeepsSafe(t, id, generation, status, dataLen);
    case Timeout(serial) => TimeoutKeepsSafe(t, serial);
    case Wake(serial) => WakeKeepsSafe(t, serial);
    case Open => SamePeopleSameInv(t, Step(t, e));
    case Setup(credits) => SamePeopleSameInv(t, Step(t, e));
    case Eventfds(valid) => SamePeopleSameInv(t, Step(t, e));
    case Start => SamePeopleSameInv(t, Step(t, e));
  }

  /** The index stays complete as well when a send finds its id free. */
  lemma {:induction false} StepKeepsInv(t: Table, e: Event)
    requires Inv(t) && (e.Send? ==> FreshId(t))
    ensures Inv(Step(t, e))
  {
    hide Safe, Step, IndexComplete;
    StepKeepsSafe(t, e);
    if e.Send? {
      SendStepIndexes(t, e.capacity, e.room);
    }
  }

  lemma SendStepIndexes(t: Table, capacity: nat, room: bool)
    requires Inv(t) && FreshId(t)
    ensures IndexComplete(Step(t, Send(capacity, room)))
  {
    hide IndexComplete, StepSend, IndexLive, ListOk;
    SendKeepsComplete(t, capacity, room);
  }

  // ---- Runs ----

  lemma {:induction false} RunKeepsSafe(t: Table, es: seq<Event>)
    requires Safe(t)
    ensures Safe(Run(t, es))
    decreases |es|
  {
    hide Safe, Step;
    if es != [] {
      StepKeepsSafe(t, es[0]);
      RunKeepsSafe(Step(t, es[0]), es[1..]);
    }
  }

  lemma EmptyIsInv()
    ensures Inv(Empty())
  {
  }

  /**
   Over every interleaving of sends, replies (repeated or late), timeouts, wake-ups, resets, daemon
   exits and re-opens: the list is exact, no index entry is dead, and credits are bounded.
   */
  lemma {:induction false} RequestsAreSafe(es: seq<Event>)
    ensures
      var t := Run(Empty(), es);
      && ListOk(t) && IndexLive(t)
      && (t.page.Some? ==> t.page.value <= t.creditLimit && t.page.value <= |Unreplied(t)|)
  {
    hide Run, Empty, ListOk, IndexLive, Unreplied;
    EmptyIsInv();
    RunKeepsSafe(Empty(), es);
  }

  /** Every send of the run finds its id free. */
  ghost predicate FreshRun(t: Table, es: seq<Event>)
    decreases |es|
  {
    es == [] || ((es[0].Send? ==> FreshId(t)) && FreshRun(Step(t, es[0]), es[1..]))
  }

  lemma {:induction false} RunKeepsInv(t: Table, es: seq<Event>)
    requires Inv(t) && FreshRun(t, es)
    ensures Inv(Run(t, es))
    decreases |es|
  {
    hide Inv, Step, FreshId;
    if es != [] {
      StepKeepsInv(t, es[0]);
      RunKeepsInv(Step(t, es[0]), es[1..]);
    }
  }

  /** While sends find their ids free the index holds exactly the listed requests, however many there are. */
  lemma {:induction false} IndexIsExactWhileIdsAreFresh(es: seq<Event>)
    requires FreshRun(Empty(), es)
    ensures IndexOk(Run(Empty(), es))
  {
    hide Run, Empty, FreshRun;
    EmptyIsInv();
    RunKeepsInv(Empty(), es);
  }

  function Sends(es: seq<Event>): nat
    decreases |es|
  {
    if es == [] then 0 else (if es[0].Send? then 1 else 0) + Sends(es[1..])
  }

  /** Until the id counter wraps, ids in the index are at most the last one handed out. */
  ghost predicate IdsBelow(t: Table) {
    forall id :: id in t.index ==> id <= t.nextId
  }

  lemma StepKeepsIdsBelow(t: Table, e: Event)
    requires IdsBelow(t) && t.nextId + (if e.Send? then 1 else 0) < U32
    ensures IdsBelow(Step(t, e)) && Step(t, e).nextId == t.nextId + (if e.Send? then 1 else 0)
  {
    hide Without, Distinct, Failed;
  }

  /** Fewer than 2^32 sends always find their ids free. */
  lemma {:induction false} FewSendsAreFresh(t: Table, es: seq<Event>)
    requires IdsBelow(t) && t.nextId + Sends(es) < U32
    ensures FreshRun(t, es)
    decreases |es|
  {
    hide Step;
    if es != [] {
      StepKeepsIdsBelow(t, es[0]);
      FewSendsAreFresh(Step(t, es[0]), es[1..]);
    }
  }

  /** With no request left, no credit is in use: credits never leak. */
  lemma NoCreditLeak(t: Table)
    requires Safe(t) && t.listed == [] && t.page.Some?
    ensures t.page.value == 0
  {
    assert Unreplied(t) == {};
  }

  /** The id condition is exact: a send, queued or refused, keeps the index exact if and only if its id is free. */
  lemma {:induction false} SendKeepsIndexIff(t: Table, capacity: nat, room: bool)
    requires Inv(t)
    ensures IndexOk(StepSend(t, capacity, room)) <==> FreshId(t)
  {
    SendKeepsSafe(t, capacity, room);
    if FreshId(t) {
      SendKeepsComplete(t, capacity, room);
    } else {
      OvertakenIsLost(t, capacity, room);
    }
  }

  /** A send that is given the id of a listed request makes the index lose that request. */
  lemma OvertakenIsLost(t: Table, capacity: nat, room: bool)
    requires Inv(t) && !FreshId(t)
    ensures
      var id := Word(t.nextId + 1);
      var other := t.index[id];
      var t' := StepSend(t, capacity, room);
      && other in t'.objects && t'.objects[other] == t.objects[other] && t.objects[other].id == id
      && (if Sendable(t, room) then id in t'.index && t'.index[id] == t.nextSerial != other else id !in t'.index)
  {
  }

  /** n sends that find no room in the ring. */
  function RefusedSends(n: nat): seq<Event> {
    seq(n, _ => Send(0, false))
  }

  /** A refused send with a free id only uses the id up. */
  lemma RefusedSendOnlyCounts(t: Table)
    requires ListOk(t) && FreshId(t)
    ensures Step(t, Send(0, false)) == t.(nextSerial := t.nextSerial + 1, nextId := Word(t.nextId + 1))
  {
    assert t.nextSerial !in t.objects && t.nextSerial !in t.listed;
    hide ListOk, Without;
    WithoutLast(t.listed, t.nextSerial);
    var id := Word(t.nextId + 1);
    PutThenErase(t.objects, t.nextSerial, Request(id, t.generation, 0, false, 0, 0));
    PutThenErase(t.index, id, t.nextSerial);
  }

  lemma PutThenErase<K, V>(m: map<K, V>, k: K, v: V)
    requires k !in m
    ensures m[k := v] - {k} == m
  {
  }

  lemma {:induction false} WithoutLast(list: seq<nat>, serial: nat)
    requires serial !in list
    ensures Without(list + [serial], serial) == list
    decreases |list|
  {
    if list == [] {
      assert (list + [serial])[1..] == [];
    } else {
      assert (list + [serial])[1..] == list[1..] + [serial];
      WithoutLast(list[1..], serial);
    }
  }

  lemma {:induction false} RefusedSendsOnlyCount(t: Table, n: nat)
    requires ListOk(t) && t.nextId + n < U32
    requires forall id :: id in t.index ==> id <= t.nextId
    ensures Run(t, RefusedSends(n)) == t.(nextSerial := t.nextSerial + n, nextId := t.nextId + n)
    decreases n
  {
    hide Step, ListOk;
    if n > 0 {
      RefusedSendOnlyCounts(t);
      var t1 := t.(nextSerial := t.nextSerial + 1, nextId := t.nextId + 1);
      LaterSerialsAreFine(t, t1);
      assert RefusedSends(n)[1..] == RefusedSends(n - 1);
      RefusedSendsOnlyCount(t1, n - 1);
    }
  }

  lemma LaterSerialsAreFine(t: Table, t': Table)
    requires ListOk(t) && t'.objects == t.objects && t'.listed == t.listed && t'.nextSerial >= t.nextSerial
    ensures ListOk(t')
  {
  }

  /** A session with one queued request. */
  function OneWaiting(): seq<Event> {
    [Open, Setup(2), Start, Send(4, true)]
  }

  function Waiting(): Table {
    Table(map[0 := Request(1, 0, 4, false, 0, 0)], [0], map[1 := 0], 1, 1, 0, 2, Some(1), true, true)
  }

  lemma {:induction false} RunOfConcat(t: Table, es: seq<Event>, fs: seq<Event>)
    ensures Run(t, es + fs) == Run(Run(t, es), fs)
    decreases |es|
  {
    hide Step;
    if es == [] {
      assert es + fs == fs;
    } else {
      assert (es + fs)[1..] == es[1..] + fs;
      RunOfConcat(Step(t, es[0]), es[1..], fs);
    }
  }

  lemma OneWaitingRuns()
    ensures Run(Empty(), OneWaiting()) == Waiting()
  {
    hide Without;
    var es := OneWaiting();
    var t1 := Step(Empty(), es[0]);
    var t2 := Step(t1, es[1]);
    var t3 := Step(t2, es[2]);
    var t4 := Step(t3, es[3]);
    assert t4 == Waiting();
    assert es[1..][1..][1..][1..] == [];
    assert es[1..][0] == es[1] && es[1..][1..][0] == es[2] && es[1..][1..][1..][0] == es[3];
  }

  /**
   The id can be in use in a reachable state: 2^32 - 2 refused sends after a queued one bring its id
   round, and the next refused send takes the waiting request out of the index, so that its reply is
   ignored.
   */
  lemma {:induction false} WaitingRequestLosesItsReply(status: int, dataLen: nat)
    ensures
      var t := Run(Empty(), OneWaiting() + RefusedSends(U32 - 2) + [Send(0, false)] + [Send(0, false)]);
      && 0 in t.objects && !t.objects[0].replied && t.objects[0].id == 1 && t.index == map[]
      && StepReply(t, 1, t.objects[0].generation, status, dataLen) == t
  {
    hide Step, Run, Empty, StepReply;
    var t1 := Waiting().(nextSerial := U32 - 1, nextId := U32 - 1);
    var t2 := Waiting().(nextSerial := U32, nextId := 0);
    CountedRound();
    RunOfOne(t1, Send(0, false));
    RunOfConcat(Empty(), OneWaiting() + RefusedSends(U32 - 2), [Send(0, false)]);
    RunOfOne(t2, Send(0, false));
    RunOfConcat(Empty(), OneWaiting() + RefusedSends(U32 - 2) + [Send(0, false)], [Send(0, false)]);
    OvertakesTheFirst(t2);
    UnindexedGetsNoReply(Step(t2, Send(0, false)), 1, 0, status, dataLen);
  }

  lemma UnindexedGetsNoReply(t: Table, id: u32, generation: u32, status: int, dataLen: nat)
    requires id !in t.index
    ensures StepReply(t, id, generation, status, dataLen) == t
  {
  }

  /** The refused sends bring the id counter round to the waiting request's id. */
  lemma CountedRound()
    ensures
      var t1 := Waiting().(nextSerial := U32 - 1, nextId := U32 - 1);
      && Run(Empty(), OneWaiting() + RefusedSends(U32 - 2)) == t1
      && Step(t1, Send(0, false)) == Waiting().(nextSerial := U32, nextId := 0)
  {
    hide Step, Run, Empty;
    var w := Waiting();
    OneWaitingRuns();
    assert ListOk(w);
    RefusedSendsOnlyCount(w, U32 - 2);
    RunOfConcat(Empty(), OneWaiting(), RefusedSends(U32 - 2));
    var t1 := w.(nextSerial := U32 - 1, nextId := U32 - 1);
    LaterSerialsAreFine(w, t1);
    RefusedSendOnlyCounts(t1);
  }

  lemma RunOfOne(t: Table, e: Event)
    ensures Run(t, [e]) == Step(t, e)
  {
    assert [e][1..] == [];
    assert Run(Step(t, e), []) == Step(t, e);
  }

  lemma OvertakesTheFirst(t: Table)
    requires t == Waiting().(nextSerial := U32, nextId := 0)
    ensures
      var t' := Step(t, Send(0, false));
      0 in t'.objects && t'.objects[0] == t.objects[0] && t'.index == map[]
  {
    hide Without;
  }

  /**
   A reply completes the one request with its id and generation, clipped to that request's buffer,
   and leaves every other request alone; otherwise it changes nothing.
   */
  lemma ReplyReachesItsRequest(t: Table, s: nat, status: int, dataLen: nat)
    requires Inv(t) && s in t.objects
    ensures
      var req := t.objects[s];
      var t' := StepReply(t, req.id, req.generation, status, dataLen);
      && t'.objects.Keys == t.objects.Keys && t'.listed == t.listed && t'.index == t.index
      && t'.objects[s].replied && t'.objects[s].status == status
      && t'.objects[s].responseLen <= req.capacity
      && (status == 0 && dataLen <= req.capacity ==> t'.objects[s].responseLen == dataLen)
      && (forall o :: o in t.objects && o != s ==> t'.objects[o] == t.objects[o])
  {
  }

  lemma StrayReplyIsIgnored(t: Table, id: u32, generation: u32, status: int, dataLen: nat)
    requires Safe(t)
    requires forall s :: s in t.objects ==> t.objects[s].id != id || t.objects[s].generation != generation
    ensures StepReply(t, id, generation, status, dataLen) == t
  {
  }

  /** A reset or a daemon exit completes every waiting request; none can wait for ever. */
  lemma ResetCompletesEveryone(t: Table, s: nat)
    requires s in t.objects
    ensures s in Step(t, ResetCommand).objects && s in Step(t, Release).objects
    ensures Step(t, ResetCommand).objects[s].replied && Step(t, Release).objects[s].replied
    ensures !t.objects[s].replied ==>
      Step(t, ResetCommand).objects[s].status == EPIPE && Step(t, Release).objects[s].status == EPIPE
  {
  }

  /** The wake-ups of the listed waiters. */
  function Wakes(list: seq<nat>): (es: seq<Event>)
    ensures |es| == |list|
  {
    seq(|list|, i requires 0 <= i < |list| => Wake(list[i]))
  }

  ghost predicate AllReplied(t: Table) {
    forall s :: s in t.objects ==> t.objects[s].replied
  }

  lemma WakeTakesFirst(t: Table)
    requires ListOk(t) && AllReplied(t) && t.listed != []
    ensures Step(t, Wake(t.listed[0])).listed == t.listed[1..] && AllReplied(Step(t, Wake(t.listed[0])))
    ensures Step(t, Wake(t.listed[0])).page == t.page
  {
    WithoutAbsent(t.listed[1..], t.listed[0]);
  }

  lemma {:induction false} WithoutAbsent(list: seq<nat>, serial: nat)
    requires serial !in list
    ensures Without(list, serial) == list
  {
    if list != [] {
      WithoutAbsent(list[1..], serial);
    }
  }

  lemma {:induction false} WakesEmptyTheTable(t: Table)
    requires Safe(t) && AllReplied(t)
    ensures
      var t' := Run(t, Wakes(t.listed));
      t'.listed == [] && t'.objects == map[] && t'.index == map[] && t'.page == t.page
    decreases |t.listed|
  {
    hide Step, AllReplied;
    if t.listed == [] {
      assert forall s :: s !in t.objects;
      assert forall id :: id !in t.index;
    } else {
      var t1 := Step(t, Wake(t.listed[0]));
      WakeTakesFirst(t);
      StepKeepsSafe(t, Wake(t.listed[0]));
      assert Wakes(t.listed)[1..] == Wakes(t.listed[1..]);
      WakesEmptyTheTable(t1);
    }
  }

  /**
   After a reset or a daemon exit the waiters only have to wake up: each finds a status, and with the
   last of them list and index are empty and no credit is in use.
   */
  lemma {:induction false} ResetLeavesNobodyWaiting(t: Table, e: Event)
    requires Safe(t) && (e == ResetCommand || e == Release)
    ensures
      var t1 := Step(t, e);
      var t' := Run(t1, Wakes(t1.listed));
      && AllReplied(t1) && t1.listed == t.listed
      && (forall s :: s in t.listed && !t.objects[s].replied ==> t1.objects[s].status == EPIPE)
      && t'.listed == [] && t'.objects == map[] && t'.index == map[]
      && (t'.page.Some? ==> t'.page.value == 0)
  {
    assert forall s :: s in t.listed ==> s in t.objects;
    hide Safe, Step;
    StepKeepsSafe(t, e);
    WakesEmptyTheTable(Step(t, e));
    forall s | s in t.listed && !t.objects[s].replied
      ensures Step(t, e).objects[s].status == EPIPE
    {
      ResetCompletesEveryone(t, s);
    }
  }
}
