/** The in-flight credits, exactly: when the count is the number of unanswered requests, and that the limit bites. */
module RequestCredits {
  import opened Words
  import opened RequestModel

  /** The credits in use, none while there is no session. */
  function InUse(t: Table): nat {
    if t.page.Some? then t.page.value else 0
  }

  ghost predicate CreditsExact(t: Table) {
    InUse(t) == |Unreplied(t)|
  }

  /** The request a reply or a timeout is about. */
  function Subject(t: Table, e: Event): Option<nat> {
    match e
    case Reply(id, generation, _, _) => Addressee(t, id, generation)
    case Timeout(serial) => if serial in t.objects then Some(serial) else None
    case _ => None
  }

  /** The event zeroes the count of the control page. */
  predicate Zeroes(t: Table, e: Event) {
    match e
    case Setup(_) => t.daemonOpen
    case Eventfds(valid) => t.page.Some? && valid
    case Start => t.daemonOpen && t.page.Some?
    case _ => false
  }

  /**
   The event counts right: it does not zero the count under an unanswered request, and is no reply to an
   answered one nor a timeout after the answer, unless there is nothing to give back.
   */
  ghost predicate CountsRight(t: Table, e: Event) {
    && (Zeroes(t, e) ==> Unreplied(t) == {})
    && (Subject(t, e).Some? && t.objects[Subject(t, e).value].replied ==> InUse(t) == 0)
  }

  // ---- One step ----

  lemma MemberCard(s: set<nat>, x: nat)
    ensures x in s ==> |s - {x}| == |s| - 1 && |s| > 0
    ensures x !in s ==> s - {x} == s && |s + {x}| == |s| + 1
  {
  }

  lemma SendCounts(t: Table, capacity: nat, room: bool)
    requires Safe(t)
    ensures
      var t' := StepSend(t, capacity, room);
      && InUse(t') == InUse(t) + (if Sendable(t, room) then 1 else 0)
      && |Unreplied(t')| == |Unreplied(t)| + (if Sendable(t, room) then 1 else 0)
  {
    hide Unlist, Enlist, ListOk, IndexLive, Unreplied, IndexComplete;
    var t1 := Enlist(t, capacity);
    EnlistKeepsTable(t, capacity);
    UnrepliedAreLive(t, t.nextSerial);
    MemberCard(Unreplied(t), t.nextSerial);
    if Sendable(t, room) {
      SamePeopleSameInv(t1, t1.(page := Some(t.page.value + 1)));
    } else {
      UnlistKeepsTable(t1, t.nextSerial);
      assert Unreplied(t) + {t.nextSerial} - {t.nextSerial} == Unreplied(t);
    }
  }

  lemma ReplyCounts(t: Table, id: u32, generation: u32, status: int, dataLen: nat)
    requires Safe(t) && Addressee(t, id, generation).Some?
    ensures
      var s := Addressee(t, id, generation).value;
      var t' := StepReply(t, id, generation, status, dataLen);
      InUse(t') == MinusOne(InUse(t)) && Unreplied(t') == Unreplied(t) - {s} && (t'.page.None? <==> t.page.None?)
  {
  }

  lemma TimeoutCounts(t: Table, serial: nat)
    requires Safe(t) && serial in t.objects
    ensures
      var t' := StepTimeout(t, serial);
      && InUse(t') == MinusOne(InUse(t)) && Unreplied(t') == Unreplied(t) - {serial}
      && (t'.page.None? <==> t.page.None?)
  {
    hide Unlist, ListOk, IndexLive;
    UnlistKeepsTable(t, serial);
    SamePeopleSameInv(Unlist(t, serial), StepTimeout(t, serial));
  }

  lemma UnrepliedMember(t: Table, s: nat)
    requires s in t.objects
    ensures s in Unreplied(t) <==> !t.objects[s].replied
  {
  }

  /** A queued send takes exactly one credit; an answered or timed-out request gives exactly one back. */
  lemma {:induction false} CreditsMoveByOne(t: Table, e: Event)
    requires Safe(t)
    ensures e.Send? ==> InUse(Step(t, e)) == InUse(t) + (if Sendable(t, e.room) then 1 else 0)
    ensures Subject(t, e).Some? ==> InUse(Step(t, e)) == MinusOne(InUse(t))
    ensures e.Wake? || ((e.Reply? || e.Timeout?) && Subject(t, e).None?) ==> InUse(Step(t, e)) == InUse(t)
  {
    hide Safe, StepSend, StepReply, StepTimeout, Unlist, FailAll;
    match e
    case Send(capacity, room) => SendCounts(t, capacity, room);
    case Reply(id, generation, status, dataLen) =>
      if Subject(t, e).Some? {
        ReplyCounts(t, id, generation, status, dataLen);
      } else {
        UnaddressedIsIgnored(t, id, generation, status, dataLen);
      }
    case Timeout(serial) =>
      if serial in t.objects {
        TimeoutCounts(t, serial);
      } else {
        LateTimeoutIsIgnored(t, serial);
      }
    case Wake(serial) => WakeKeepsPage(t, serial);
    case _ =>
  }

  lemma UnaddressedIsIgnored(t: Table, id: u32, generation: u32, status: int, dataLen: nat)
    requires Addressee(t, id, generation).None?
    ensures StepReply(t, id, generation, status, dataLen) == t
  {
  }

  lemma LateTimeoutIsIgnored(t: Table, serial: nat)
    requires serial !in t.objects
    ensures StepTimeout(t, serial) == t
  {
  }

  lemma WakeKeepsPage(t: Table, serial: nat)
    ensures StepWake(t, serial).page == t.page
  {
  }

  lemma WakeKeepsUnreplied(t: Table, serial: nat)
    requires Safe(t)
    ensures Unreplied(StepWake(t, serial)) == Unreplied(t)
  {
    if serial in t.objects && t.objects[serial].replied {
      hide Unlist, ListOk, IndexLive, IndexComplete;
      UnlistKeepsTable(t, serial);
      assert Unreplied(t) - {serial} == Unreplied(t);
    }
  }

  lemma AnswerKeepsExactIff(t: Table, t': Table, s: nat)
    requires CreditsExact(t) && s in t.objects
    requires InUse(t') == MinusOne(InUse(t)) && Unreplied(t') == Unreplied(t) - {s}
    ensures CreditsExact(t') <==> (t.objects[s].replied ==> InUse(t) == 0)
  {
    UnrepliedMember(t, s);
    hide Unreplied;
    MemberCard(Unreplied(t), s);
  }

  lemma EmptyCard(s: set<nat>)
    ensures |s| == 0 <==> s == {}
  {
  }

  /** Where the count is exact it stays so if and only if the event counts right. */
  lemma {:induction false} StepKeepsCreditsIff(t: Table, e: Event)
    requires Safe(t) && CreditsExact(t) && (t.page.None? ==> Unreplied(t) == {})
    ensures CreditsExact(Step(t, e)) <==> CountsRight(t, e)
    ensures Step(t, e).page.None? ==> Unreplied(Step(t, e)) == {}
  {
    EmptyCard(Unreplied(t));
    EmptyCard(Unreplied(Step(t, e)));
    hide Safe, Unreplied, StepSend, StepReply, StepTimeout, StepWake, FailAll, Addressee;
    match e
    case Send(capacity, room) => SendKeepsExact(t, capacity, room);
    case Reply(id, generation, status, dataLen) => ReplyKeepsExactIff(t, id, generation, status, dataLen);
    case Timeout(serial) => TimeoutKeepsExactIff(t, serial);
    case Wake(serial) =>
      WakeKeepsPage(t, serial);
      WakeKeepsUnreplied(t, serial);
    case Release => ReleaseZeroes(t);
    case ResetCommand => ResetZeroes(t);
    case _ => SessionKeepsUnreplied(t, e);
  }

  lemma SessionKeepsUnreplied(t: Table, e: Event)
    requires e.Open? || e.Setup? || e.Eventfds? || e.Start?
    ensures Unreplied(Step(t, e)) == Unreplied(t)
  {
    SamePeopleSameInv(t, Step(t, e));
  }

  lemma SendKeepsExact(t: Table, capacity: nat, room: bool)
    requires Safe(t) && CreditsExact(t)
    ensures CreditsExact(Step(t, Send(capacity, room))) && CountsRight(t, Send(capacity, room))
    ensures Step(t, Send(capacity, room)).page.None? ==> InUse(Step(t, Send(capacity, room))) == 0
  {
    hide Safe, StepSend, Unreplied;
    SendCounts(t, capacity, room);
  }

  lemma ReplyKeepsExactIff(t: Table, id: u32, generation: u32, status: int, dataLen: nat)
    requires Safe(t) && CreditsExact(t)
    ensures
      var e := Reply(id, generation, status, dataLen);
      && (CreditsExact(Step(t, e)) <==> CountsRight(t, e))
      && Unreplied(Step(t, e)) <= Unreplied(t) && (Step(t, e).page.None? <==> t.page.None?)
  {
    hide Safe, StepReply, Unreplied;
    if Addressee(t, id, generation).Some? {
      ReplyCounts(t, id, generation, status, dataLen);
      AnswerKeepsExactIff(t, StepReply(t, id, generation, status, dataLen), Addressee(t, id, generation).value);
    } else {
      UnaddressedIsIgnored(t, id, generation, status, dataLen);
    }
  }

  lemma TimeoutKeepsExactIff(t: Table, serial: nat)
    requires Safe(t) && CreditsExact(t)
    ensures
      var e := Timeout(serial);
      && (CreditsExact(Step(t, e)) <==> CountsRight(t, e))
      && Unreplied(Step(t, e)) <= Unreplied(t) && (Step(t, e).page.None? <==> t.page.None?)
  {
    hide Safe, StepTimeout, Unreplied;
    if serial in t.objects {
      TimeoutCounts(t, serial);
      AnswerKeepsExactIff(t, StepTimeout(t, serial), serial);
    } else {
      LateTimeoutIsIgnored(t, serial);
    }
  }

  lemma ReleaseZeroes(t: Table)
    requires Safe(t)
    ensures Unreplied(Step(t, Release)) == {} && InUse(Step(t, Release)) == 0
  {
    hide ListOk, IndexLive, FailAll;
    var closed := t.(daemonOpen := false, started := false);
    SamePeopleSameInv(t, closed);
    FailAllKeepsSafe(closed, EPIPE);
    SamePeopleSameInv(FailAll(closed, EPIPE), Step(t, Release));
  }

  lemma ResetZeroes(t: Table)
    requires Safe(t)
    ensures Unreplied(Step(t, ResetCommand)) == {} && InUse(Step(t, ResetCommand)) == 0
  {
    FailAllKeepsSafe(t, EPIPE);
    SamePeopleSameInv(FailAll(t, EPIPE), Step(t, ResetCommand));
  }

  // ---- Runs ----

  ghost predicate CountedRun(t: Table, es: seq<Event>)
    decreases |es|
  {
    es == [] || (CountsRight(t, es[0]) && CountedRun(Step(t, es[0]), es[1..]))
  }

  lemma {:induction false} RunKeepsCredits(t: Table, es: seq<Event>)
    requires Safe(t) && CreditsExact(t) && (t.page.None? ==> Unreplied(t) == {}) && CountedRun(t, es)
    ensures CreditsExact(Run(t, es)) && Safe(Run(t, es))
    decreases |es|
  {
    hide Safe, Step, CreditsExact, CountsRight, Unreplied;
    if es != [] {
      StepKeepsCreditsIff(t, es[0]);
      StepKeepsSafe(t, es[0]);
      RunKeepsCredits(Step(t, es[0]), es[1..]);
    }
  }

  /**
   Over every run whose events count right the credits in use are exactly the unanswered requests, so a
   send is refused for them exactly from the limit on.
   */
  lemma {:induction false} LimitBites(es: seq<Event>, room: bool)
    requires CountedRun(Empty(), es)
    ensures
      var t := Run(Empty(), es);
      && InUse(t) == |Unreplied(t)|
      && (t.daemonOpen && t.started && t.page.Some? ==>
            (SendStatus(t, room) == EBUSY <==> |Unreplied(t)| >= t.creditLimit || !room))
  {
    EmptyIsInv();
    assert Unreplied(Empty()) == {};
    hide Run, Safe, Unreplied, Empty, CountedRun;
    RunKeepsCredits(Empty(), es);
  }

  /** Opening, setting up and starting a session gives it all its credits, at least one; releasing it refuses sends. */
  lemma {:induction false} SessionComesAndGoes(t: Table, credits: u32, room: bool)
    requires !t.daemonOpen
    ensures
      var t' := Step(Step(Step(t, Open), Setup(credits)), Start);
      && t' == t.(daemonOpen := true, started := true, page := Some(0),
                  creditLimit := if credits == 0 then 1 else credits)
      && (SendStatus(t', room) == 0 <==> room)
      && SendStatus(Step(t', Release), room) == ETIMEDOUT
  {
    hide FailAll;
  }

  // ---- A request's whole life ----

  /** A queued send, seen from the table it was made from. */
  function Queued(t: Table, req: Request, page: Option<nat>): Table {
    t.(objects := t.objects[t.nextSerial := req], listed := t.listed + [t.nextSerial],
       index := t.index[req.id := t.nextSerial], nextSerial := t.nextSerial + 1, nextId := req.id, page := page)
  }

  lemma SendQueues(t: Table, capacity: nat)
    requires Sendable(t, true)
    ensures
      StepSend(t, capacity, true)
        == Queued(t, Request(Word(t.nextId + 1), t.generation, capacity, false, 0, 0), Some(t.page.value + 1))
  {
  }

  lemma ReplyAnswers(t: Table, req: Request, page: Option<nat>, status: int, dataLen: nat)
    ensures
      StepReply(Queued(t, req, page), req.id, req.generation, status, dataLen)
        == Queued(t, req.(replied := true, status := status,
                          responseLen := if status == 0 then Min(req.capacity, dataLen) else 0),
                  if page.Some? then Some(MinusOne(page.value)) else None)
  {
    var q := Queued(t, req, page);
    assert Addressee(q, req.id, req.generation) == Some(t.nextSerial);
    var answered := req.(replied := true, status := status,
                         responseLen := if status == 0 then Min(req.capacity, dataLen) else 0);
    assert q.objects[t.nextSerial := answered] == t.objects[t.nextSerial := answered];
  }

  lemma UnlistQueued(t: Table, req: Request, page: Option<nat>)
    requires ListOk(t) && req.id !in t.index
    ensures
      Unlist(Queued(t, req, page), t.nextSerial)
        == t.(nextSerial := t.nextSerial + 1, nextId := req.id, page := page)
  {
    assert t.nextSerial !in t.objects && t.nextSerial !in t.listed;
    WithoutLast(t.listed, t.nextSerial);
    var q := Queued(t, req, page);
    assert q.objects - {t.nextSerial} == t.objects;
    assert q.index - {req.id} == t.index;
  }

  /**
   A queued request, answered and woken up or timed out, leaves the table as it was, but for the counters
   of ids and serials; in between it holds what the reply said.
   */
  lemma {:induction false} RequestComesAndGoes(t: Table, capacity: nat, status: int, dataLen: nat)
    requires Safe(t) && FreshId(t) && Sendable(t, true)
    ensures
      var id, serial := Word(t.nextId + 1), t.nextSerial;
      var t1 := StepSend(t, capacity, true);
      var t2 := StepReply(t1, id, t.generation, status, dataLen);
      var gone := t.(nextSerial := serial + 1, nextId := id);
      && serial in t2.objects && t2.objects[serial].replied && t2.objects[serial].status == status
      && t2.objects[serial].responseLen == (if status == 0 then Min(capacity, dataLen) else 0)
      && StepWake(t2, serial) == gone && StepTimeout(t1, serial) == gone
  {
    var id, serial := Word(t.nextId + 1), t.nextSerial;
    var req := Request(id, t.generation, capacity, false, 0, 0);
    SendQueues(t, capacity);
    var t1 := StepSend(t, capacity, true);
    ReplyAnswers(t, req, t1.page, status, dataLen);
    var t2 := StepReply(t1, id, t.generation, status, dataLen);
    assert t.page.Some? && t2.page == t.page;
    UnlistQueued(t, t2.objects[serial], t.page);
    UnlistQueued(t, req, t1.page);
    hide Safe, StepSend, StepReply, Unlist;
  }

  // ---- Generations ----

  /** A reset starts another generation, never zero, and a request keeps the one it was sent in. */
  lemma ResetChangesGeneration(t: Table)
    ensures Step(t, ResetCommand).generation != t.generation && Step(t, ResetCommand).generation != 0
  {
    hide FailAll;
  }

  /** A request sent after a reset is not touched by a reply to the generation before it. */
  lemma {:induction false} OldRepliesMissNewRequests(t: Table, capacity: nat, id: u32, status: int, dataLen: nat)
    requires Safe(t)
    ensures
      var t1 := Step(t, ResetCommand);
      var t2 := StepSend(t1, capacity, true);
      var t3 := StepReply(t2, id, t.generation, status, dataLen);
      t.nextSerial in t2.objects ==> t.nextSerial in t3.objects && t3.objects[t.nextSerial] == t2.objects[t.nextSerial]
  {
    ResetChangesGeneration(t);
    var t1 := Step(t, ResetCommand);
    assert t1.nextSerial == t.nextSerial;
    hide FailAll, Safe;
    NewRequestGeneration(t1, capacity);
    hide StepSend, Step;
  }

  lemma NewRequestGeneration(t: Table, capacity: nat)
    ensures
      var t' := StepSend(t, capacity, true);
      t.nextSerial in t'.objects ==> t'.objects[t.nextSerial].generation == t.generation
  {
  }
}
