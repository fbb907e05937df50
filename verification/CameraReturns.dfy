/** With which status buffers come back: done exactly for what was delivered, over whole runs. */
module CameraReturns {
  import opened Words
  import opened CameraModel

  /** The buffers that came back done, in order. */
  function DoneBufs(rs: seq<Return>): seq<Buf> {
    if rs == [] then []
    else
      var n := |rs| - 1;
      DoneBufs(rs[..n]) + (if rs[n].status == Done then [rs[n].buf] else [])
  }

  lemma DoneOfMore(rs: seq<Return>, r: Return)
    ensures DoneBufs(rs + [r]) == DoneBufs(rs) + (if r.status == Done then [r.buf] else [])
  {
    assert (rs + [r])[..|rs|] == rs;
  }

  lemma {:induction false} DoneOfErrors(rs: seq<Return>, bs: seq<Buf>)
    ensures DoneBufs(rs + Errors(bs)) == DoneBufs(rs)
    decreases |bs|
  {
    if bs == [] {
      assert rs + Errors(bs) == rs;
    } else {
      var n := |bs| - 1;
      assert Errors(bs) == Errors(bs[..n]) + [Return(bs[n], Error)];
      assert rs + Errors(bs) == (rs + Errors(bs[..n])) + [Return(bs[n], Error)];
      DoneOfErrors(rs, bs[..n]);
      DoneOfMore(rs + Errors(bs[..n]), Return(bs[n], Error));
    }
  }

  function Targets(fs: seq<Frame>): (bs: seq<Buf>)
    ensures |bs| == |fs| && forall i :: 0 <= i < |fs| ==> bs[i] == fs[i].target
  {
    seq(|fs|, i requires 0 <= i < |fs| => fs[i].target)
  }

  /** The frame a step delivers, if it does. */
  function NewFrames(s: Cam, e: Event): seq<Frame> {
    var s' := Step(s, e);
    if e.DeliverFrame? && |s'.frames| > |s.frames| then s'.frames[|s.frames|..] else []
  }

  /** All frames a run delivers, also across restarts of the capture node. */
  function Delivered(s: Cam, es: seq<Event>): seq<Frame>
    decreases |es|
  {
    if es == [] then [] else NewFrames(s, es[0]) + Delivered(Step(s, es[0]), es[1..])
  }

  // ---- Targets ----

  lemma DroppedKeepsTargets(s: Cam)
    ensures
      var s' := DropShort(s);
      s'.frames == s.frames && s'.captureList == s.captureList && s'.captureReturned == s.captureReturned
  {
  }

  lemma TakenKeepsTargets(s: Cam)
    requires s.injectList != []
    ensures
      var s' := TakeSource(s);
      s'.frames == s.frames && s'.captureList == s.captureList && s'.captureReturned == s.captureReturned
  {
  }

  lemma CompleteReturnsDone(s: Cam, source: Buf)
    requires s.captureList != []
    ensures
      var s' := Complete(s, source);
      && |s'.frames| == |s.frames| + 1 && s'.frames[..|s.frames|] == s.frames
      && s'.frames[|s.frames|..] == [s'.frames[|s.frames|]]
      && s'.frames[|s.frames|].source == source && s'.frames[|s.frames|].target == s.captureList[0]
      && s'.captureReturned == s.captureReturned + [Return(s.captureList[0], Done)]
      && s'.injectReturned == s.injectReturned && s'.held == s.held
  {
  }

  lemma DeliverReturnsTargets(s: Cam, dst: bool, src: bool, held: bool)
    ensures
      var s' := TryDeliver(s, dst, src, held);
      && |s'.frames| >= |s.frames|
      && DoneBufs(s'.captureReturned) == DoneBufs(s.captureReturned) + Targets(s'.frames[|s.frames|..])
  {
    hide FrameSize, TakeSource, Complete, CanRun, BigEnough, DropShort, DoneBufs;
    DroppedKeepsTargets(s);
    var s1 := DropShort(s);
    if s.captureList != [] {
      DoneOfMore(s.captureReturned, Return(s.captureList[0], Error));
      DoneOfMore(s.captureReturned, Return(s.captureList[0], Done));
      if s1.injectList != [] {
        TakenKeepsTargets(s1);
        CompleteReturnsDone(TakeSource(s1), s1.injectList[0]);
      }
      if s1.held.Some? {
        CompleteReturnsDone(s1, s1.held.value);
      }
    }
    assert s.frames[|s.frames|..] == [] && DoneBufs(s.captureReturned) + [] == DoneBufs(s.captureReturned);
  }

  /** A step returns as done exactly the target of the frame it delivers. */
  lemma {:induction false} StepReturnsTargets(s: Cam, e: Event)
    ensures DoneBufs(Step(s, e).captureReturned) == DoneBufs(s.captureReturned) + Targets(NewFrames(s, e))
  {
    hide FrameSize, SizeImage, TryDeliver, DoneBufs;
    assert DoneBufs(s.captureReturned) + [] == DoneBufs(s.captureReturned);
    match e
    case DeliverFrame(dst, src, held) => DeliverReturnsTargets(s, dst, src, held);
    case StopCaptureReturn => DoneOfErrors(s.captureReturned, s.captureList);
    case _ =>
  }

  /** Over every run the target buffers that came back done are those of the delivered frames, in order. */
  lemma {:induction false} DoneTargetsAreDelivered(s: Cam, es: seq<Event>)
    ensures DoneBufs(Run(s, es).captureReturned) == DoneBufs(s.captureReturned) + Targets(Delivered(s, es))
    decreases |es|
  {
    hide Step, DoneBufs, NewFrames;
    if es == [] {
      assert DoneBufs(s.captureReturned) + [] == DoneBufs(s.captureReturned);
    } else {
      var s1 := Step(s, es[0]);
      StepReturnsTargets(s, es[0]);
      DoneTargetsAreDelivered(s1, es[1..]);
      TargetsJoin(NewFrames(s, es[0]), Delivered(s1, es[1..]));
      Regroup(DoneBufs(s.captureReturned), Targets(NewFrames(s, es[0])), Targets(Delivered(s1, es[1..])));
    }
  }

  lemma TargetsJoin(fs: seq<Frame>, gs: seq<Frame>)
    ensures Targets(fs + gs) == Targets(fs) + Targets(gs)
  {
  }

  lemma Regroup<T>(a: seq<T>, b: seq<T>, c: seq<T>)
    ensures a + b + c == a + (b + c)
  {
  }

  // ---- Sources ----

  ghost predicate SourceOf(b: Buf, fs: seq<Frame>) {
    exists i :: 0 <= i < |fs| && fs[i].source == b
  }

  /** What came back done, and what is held for repetition, was the source of a delivered frame. */
  ghost predicate SourcesDelivered(returned: seq<Return>, held: Option<Buf>, fs: seq<Frame>) {
    && (forall i :: 0 <= i < |returned| && returned[i].status == Done ==> SourceOf(returned[i].buf, fs))
    && (held.Some? ==> SourceOf(held.value, fs))
  }

  lemma SourceStays(b: Buf, fs: seq<Frame>, gs: seq<Frame>)
    requires SourceOf(b, fs)
    ensures SourceOf(b, fs + gs)
  {
    var i :| 0 <= i < |fs| && fs[i].source == b;
    assert (fs + gs)[i].source == b;
  }

  lemma SourcesStay(returned: seq<Return>, held: Option<Buf>, fs: seq<Frame>, gs: seq<Frame>)
    requires SourcesDelivered(returned, held, fs)
    ensures SourcesDelivered(returned, held, fs + gs)
  {
    hide SourceOf;
    forall b | SourceOf(b, fs)
      ensures SourceOf(b, fs + gs)
    {
      SourceStays(b, fs, gs);
    }
  }

  lemma ReturnError(returned: seq<Return>, held: Option<Buf>, fs: seq<Frame>, b: Buf)
    requires SourcesDelivered(returned, held, fs)
    ensures SourcesDelivered(returned + [Return(b, Error)], held, fs)
  {
    hide SourceOf;
  }

  lemma ReturnErrors(returned: seq<Return>, held: Option<Buf>, fs: seq<Frame>, bs: seq<Buf>)
    requires SourcesDelivered(returned, held, fs)
    ensures SourcesDelivered(returned + Errors(bs), held, fs)
  {
    hide SourceOf;
  }

  lemma ReleasedIsDelivered(s: Cam, status: Status, fs: seq<Frame>)
    requires SourcesDelivered(s.injectReturned, s.held, fs)
    ensures
      var s' := ReleaseHeld(s, status);
      SourcesDelivered(s'.injectReturned, s'.held, fs) && s'.held.None?
  {
    hide SourceOf;
  }

  lemma {:induction false} DroppedIsDelivered(s: Cam, fs: seq<Frame>)
    requires SourcesDelivered(s.injectReturned, s.held, fs)
    ensures SourcesDelivered(DropShort(s).injectReturned, DropShort(s).held, fs)
    decreases |s.injectList|
  {
    hide SourcesDelivered, BigEnough;
    if s.injectList != [] && !BigEnough(s, s.injectList[0]) {
      ReturnError(s.injectReturned, s.held, fs, s.injectList[0]);
      DroppedIsDelivered(s.(injectList := s.injectList[1..],
                            injectReturned := s.injectReturned + [Return(s.injectList[0], Error)]), fs);
    }
  }

  lemma TakenIsDelivered(s: Cam, f: Frame, fs: seq<Frame>)
    requires SourcesDelivered(s.injectReturned, s.held, fs)
    requires s.injectList != [] && f.source == s.injectList[0]
    ensures SourcesDelivered(TakeSource(s).injectReturned, TakeSource(s).held, fs + [f])
  {
    ReleasedIsDelivered(s, Done, fs);
    var s1 := ReleaseHeld(s, Done);
    SourcesStay(s1.injectReturned, s1.held, fs, [f]);
    SourcesStay(s.injectReturned, s.held, fs, [f]);
    assert (fs + [f])[|fs|].source == s.injectList[0];
    assert SourceOf(s.injectList[0], fs + [f]);
    hide SourceOf;
  }

  lemma DeliverKeepsSources(s: Cam, dst: bool, src: bool, held: bool, fs: seq<Frame>)
    requires SourcesDelivered(s.injectReturned, s.held, fs)
    ensures
      var s' := TryDeliver(s, dst, src, held);
      && |s'.frames| >= |s.frames|
      && SourcesDelivered(s'.injectReturned, s'.held, fs + s'.frames[|s.frames|..])
  {
    hide FrameSize, TakeSource, Complete, CanRun, BigEnough, DropShort, SourcesDelivered;
    DroppedKeepsTargets(s);
    DroppedIsDelivered(s, fs);
    var s1 := DropShort(s);
    assert s.frames[|s.frames|..] == [] && fs + [] == fs;
    if s.captureList != [] {
      if s1.injectList != [] && src {
        TakenKeepsTargets(s1);
        var s2 := Complete(TakeSource(s1), s1.injectList[0]);
        CompleteReturnsDone(TakeSource(s1), s1.injectList[0]);
        TakenIsDelivered(s1, s2.frames[|s.frames|], fs);
      } else if s1.held.Some? {
        var s2 := Complete(s1, s1.held.value);
        CompleteReturnsDone(s1, s1.held.value);
        SourcesStay(s1.injectReturned, s1.held, fs, [s2.frames[|s.frames|]]);
      }
    }
  }

  lemma {:induction false} StepKeepsSources(s: Cam, e: Event, fs: seq<Frame>)
    requires SourcesDelivered(s.injectReturned, s.held, fs)
    ensures SourcesDelivered(Step(s, e).injectReturned, Step(s, e).held, fs + NewFrames(s, e))
  {
    hide FrameSize, SizeImage, TryDeliver, SourcesDelivered, ReleaseHeld;
    assert fs + [] == fs;
    match e
    case DeliverFrame(dst, src, held) =>
      DeliverKeepsSources(s, dst, src, held, fs);
      var t := TryDeliver(s, dst, src, held);
      if |t.frames| == |s.frames| {
        assert t.frames[|s.frames|..] == [];
      }
    case StopInjectReturn =>
      ReleasedIsDelivered(s, Error, fs);
      var s1 := ReleaseHeld(s, Error);
      ReturnErrors(s1.injectReturned, s1.held, fs, s.injectList);
    case SetInjectFormat(m, _, _) => ReleasedWithMode(s, m, fs);
    case SetCaptureFormat(m, _) => ReleasedWithMode(s, m, fs);
    case SetSensorFormat(m) => ReleasedWithMode(s, m, fs);
    case _ =>
  }

  lemma ReleasedWithMode(s: Cam, m: Mode, fs: seq<Frame>)
    requires SourcesDelivered(s.injectReturned, s.held, fs)
    ensures
      var s' := ReleaseHeld(s.(mode := m), Error);
      SourcesDelivered(s'.injectReturned, s'.held, fs)
  {
    hide SourcesDelivered;
    ReleasedIsDelivered(s.(mode := m), Error, fs);
  }

  lemma {:induction false} RunKeepsSources(s: Cam, es: seq<Event>, fs: seq<Frame>)
    requires SourcesDelivered(s.injectReturned, s.held, fs)
    ensures SourcesDelivered(Run(s, es).injectReturned, Run(s, es).held, fs + Delivered(s, es))
    decreases |es|
  {
    hide Step, SourcesDelivered, NewFrames;
    if es == [] {
      assert fs + [] == fs;
    } else {
      StepKeepsSources(s, es[0], fs);
      RunKeepsSources(Step(s, es[0]), es[1..], fs + NewFrames(s, es[0]));
      Regroup(fs, NewFrames(s, es[0]), Delivered(Step(s, es[0]), es[1..]));
    }
  }

  /** From the start on a source buffer comes back done only when a frame was delivered from it. */
  lemma {:induction false} DoneSourcesWereDelivered(m: Mode, repeat: bool, es: seq<Event>, i: nat)
    ensures
      var s := Run(Initial(m, repeat), es);
      i < |s.injectReturned| && s.injectReturned[i].status == Done ==>
        SourceOf(s.injectReturned[i].buf, Delivered(Initial(m, repeat), es))
  {
    RunKeepsSources(Initial(m, repeat), es, []);
    hide Run, Delivered, SourceOf;
    assert [] + Delivered(Initial(m, repeat), es) == Delivered(Initial(m, repeat), es);
  }

  // ---- Repetition ----

  /**
   A frame from the source list: with repetition its buffer is held and the one held before comes back
   done; without, it comes back done at once.
   */
  lemma {:induction false} RepetitionHoldsTheLastSource(s: Cam, held: bool)
    requires CanRun(s) && s.captureList != [] && s.captureList[0].size >= FrameSize(s.mode)
    requires s.injectList != [] && BigEnough(s, s.injectList[0])
    ensures
      var s' := TryDeliver(s, true, true, held);
      var b := s.injectList[0];
      && s'.injectList == s.injectList[1..]
      && s'.held == (if s.repeat then Some(b) else s.held)
      && s'.injectReturned == s.injectReturned
           + (if !s.repeat then [Return(b, Done)] else if s.held.Some? then [Return(s.held.value, Done)] else [])
  {
    hide FrameSize, SizeImage;
    assert s.injectReturned + [] == s.injectReturned;
  }

  /** With nothing new a held buffer is delivered again, and stays held. */
  lemma {:induction false} HeldIsRepeated(s: Cam)
    requires CanRun(s) && s.captureList != [] && s.captureList[0].size >= FrameSize(s.mode)
    requires s.injectList == [] && s.repeat && s.held.Some?
    ensures
      var s' := TryDeliver(s, true, true, true);
      && s'.held == s.held && s'.injectReturned == s.injectReturned && |s'.frames| == |s.frames| + 1
      && s'.frames[|s.frames|].source == s.held.value
  {
    hide FrameSize, SizeImage;
  }
}
