/** The camera: who owns which frame buffer, and the frame work that pairs them, as a state machine. */
module CameraModel {
  import opened Words

  /** A sensor mode; frames are 16 bits a pixel. */
  datatype Mode = Mode(width: nat, height: nat)

  datatype Format = BGR32 | RGB32 | BGR24 | RGB24 | SRGGB10

  function FrameSize(m: Mode): nat {
    m.width * m.height * 2
  }

  /** The bytes a source frame must have. */
  function SizeImage(f: Format, m: Mode): nat {
    match f
    case SRGGB10 => FrameSize(m)
    case BGR32 | RGB32 => m.width * m.height * 4
    case BGR24 | RGB24 => m.width * m.height * 3
  }

  /** One queueing of a buffer; id tells how many were queued on its node before. */
  datatype Buf = Buf(id: nat, size: nat, payload: nat)

  datatype Status = Done | Error

  datatype Return = Return(buf: Buf, status: Status)

  /** A delivered frame, with the sizes that were demanded of its buffers. */
  datatype Frame = Frame(sequence: u32, source: Buf, target: Buf, sizeimage: nat, frameSize: nat)

  /** Progress of the frame work: not running, before its delivery, between delivery and rearming. */
  datatype Phase = Idle | Delivering | Rearming

  /** queued and returned are histories; frames counts from the last start of the capture node. */
  datatype Cam = Cam(
    mode: Mode, format: Format, sizeimage: nat, repeat: bool,
    injectStreaming: bool, injectList: seq<Buf>, held: Option<Buf>,
    injectQueued: seq<Buf>, injectReturned: seq<Return>,
    captureStreaming: bool, captureList: seq<Buf>, captureQueued: seq<Buf>, captureReturned: seq<Return>,
    sequence: u32, frames: seq<Frame>, armed: bool, phase: Phase)

  datatype Event =
    | QueueInject(size: nat, payload: nat)
    | QueueCapture(size: nat)
    | StartInject
    | StartCapture
    | StopInjectMark
    | StopCaptureMark
    | StopCancel
    | StopInjectReturn
    | StopCaptureReturn
    | SetInjectFormat(injectMode: Mode, format: Format, injectInUse: bool)
    | SetCaptureFormat(captureMode: Mode, captureInUse: bool)
    | SetSensorFormat(sensorMode: Mode)
    | SensorOn
    | SensorOff
    | BeginWork
    | DeliverFrame(dstMapped: bool, srcMapped: bool, heldMapped: bool)
    | FinishWork

  predicate CanRun(s: Cam) {
    s.injectStreaming && s.captureStreaming
  }

  /** Arming the clock schedules the frame work when there is something to do. */
  function Arm(s: Cam): Cam {
    if CanRun(s) && s.captureList != [] then s.(armed := true) else s
  }

  function Errors(bs: seq<Buf>): (rs: seq<Return>)
    ensures |rs| == |bs|
    ensures forall i :: 0 <= i < |bs| ==> rs[i] == Return(bs[i], Error)
  {
    seq(|bs|, i requires 0 <= i < |bs| => Return(bs[i], Error))
  }

  function ReleaseHeld(s: Cam, status: Status): Cam {
    if s.held.Some? then s.(held := None, injectReturned := s.injectReturned + [Return(s.held.value, status)]) else s
  }

  function SetFormat(s: Cam, f: Format): Cam {
    s.(format := f, sizeimage := SizeImage(f, s.mode))
  }

  function ApplyMode(s: Cam, m: Mode): Cam {
    SetFormat(ReleaseHeld(s.(mode := m), Error), s.format)
  }

  predicate BigEnough(s: Cam, b: Buf) {
    b.size >= s.sizeimage && b.payload >= s.sizeimage
  }

  /** Returns the source buffers at the front that cannot fill a frame. */
  function DropShort(s: Cam): (s': Cam)
    ensures s' == s.(injectList := s'.injectList, injectReturned := s'.injectReturned)
    ensures s'.injectList != [] ==> BigEnough(s, s'.injectList[0])
    decreases |s.injectList|
  {
    if s.injectList == [] || BigEnough(s, s.injectList[0]) then s
    else
      DropShort(s.(injectList := s.injectList[1..],
                   injectReturned := s.injectReturned + [Return(s.injectList[0], Error)]))
  }

  function ReturnTarget(s: Cam, status: Status): Cam
    requires s.captureList != []
  {
    s.(captureList := s.captureList[1..],
       captureReturned := s.captureReturned + [Return(s.captureList[0], status)])
  }

  function Complete(s: Cam, source: Buf): Cam
    requires s.captureList != []
  {
    var frame := Frame(s.sequence, source, s.captureList[0], s.sizeimage, FrameSize(s.mode));
    ReturnTarget(s, Done).(frames := s.frames + [frame], sequence := Word(s.sequence + 1))
  }

  /** Takes the first source buffer: held for repetition, or returned at once. */
  function TakeSource(s: Cam): Cam
    requires s.injectList != []
  {
    var b := s.injectList[0];
    if s.repeat then ReleaseHeld(s, Done).(injectList := s.injectList[1..], held := Some(b))
    else s.(injectList := s.injectList[1..], injectReturned := s.injectReturned + [Return(b, Done)])
  }

  function TryDeliver(s: Cam, dstMapped: bool, srcMapped: bool, heldMapped: bool): Cam {
    if !CanRun(s) || s.captureList == [] then s
    else if s.captureList[0].size < FrameSize(s.mode) || !dstMapped then ReturnTarget(s, Error)
    else
      var s1 := DropShort(s);
      if s1.injectList != [] && srcMapped then Complete(TakeSource(s1), s1.injectList[0])
      else if s1.repeat && s1.held.Some? && heldMapped then Complete(s1, s1.held.value)
      else s1
  }

  function AddSource(s: Cam, size: nat, payload: nat): Cam {
    var b := Buf(|s.injectQueued|, size, payload);
    var s' := s.(injectList := s.injectList + [b], injectQueued := s.injectQueued + [b]);
    if |s'.injectList| == 1 then Arm(s') else s'
  }

  function AddTarget(s: Cam, size: nat): Cam {
    var b := Buf(|s.captureQueued|, size, 0);
    var s' := s.(captureList := s.captureList + [b], captureQueued := s.captureQueued + [b]);
    if |s'.captureList| == 1 then Arm(s') else s'
  }

  function ReturnSources(s: Cam): Cam {
    var s' := ReleaseHeld(s, Error);
    s'.(injectList := [], injectReturned := s'.injectReturned + Errors(s.injectList))
  }

  function ReturnTargets(s: Cam): Cam {
    s.(captureList := [], captureReturned := s.captureReturned + Errors(s.captureList))
  }

  /** s_fmt on the inject node; inUse tells whether it has buffers allocated beyond those listed or held. */
  function FormatInject(s: Cam, m: Mode, f: Format, inUse: bool): Cam {
    var busy := s.injectStreaming || inUse || s.injectList != [] || s.held.Some?;
    if busy && (m != s.mode || f != s.format) then s
    else SetFormat(if m != s.mode then ApplyMode(s, m) else s, f)
  }

  function FormatCapture(s: Cam, m: Mode, inUse: bool): Cam {
    var busy := s.captureStreaming || inUse || s.captureList != [];
    if m == s.mode || busy then s else ApplyMode(s, m)
  }

  function FormatSensor(s: Cam, m: Mode): Cam {
    if m == s.mode || s.captureStreaming then s else ApplyMode(s, m)
  }

  function Step(s: Cam, e: Event): Cam {
    match e
    case QueueInject(size, payload) => AddSource(s, size, payload)
    case QueueCapture(size) => AddTarget(s, size)
    case StartInject => Arm(s.(injectStreaming := true))
    case StartCapture => Arm(s.(captureStreaming := true, sequence := 0, frames := []))
    case StopInjectMark => s.(injectStreaming := false)
    case StopCaptureMark => s.(captureStreaming := false)
    case StopCancel => if s.phase == Idle && !CanRun(s) then s.(armed := false) else s
    case StopInjectReturn => ReturnSources(s)
    case StopCaptureReturn => ReturnTargets(s)
    case SetInjectFormat(m, f, inUse) => FormatInject(s, m, f, inUse)
    case SetCaptureFormat(m, inUse) => FormatCapture(s, m, inUse)
    case SetSensorFormat(m) => FormatSensor(s, m)
    case SensorOn => Arm(s)
    case SensorOff => if s.phase == Idle then s.(armed := false) else s
    case BeginWork => if s.armed && s.phase == Idle then s.(armed := false, phase := Delivering) else s
    case DeliverFrame(dst, src, held) =>
      if s.phase == Delivering then TryDeliver(s, dst, src, held).(phase := Rearming) else s
    case FinishWork => if s.phase == Rearming then Arm(s.(phase := Idle)) else s
  }

  function Run(s: Cam, es: seq<Event>): Cam
    decreases |es|
  {
    if es == [] then s else Run(Step(s, es[0]), es[1..])
  }

  function Initial(m: Mode, repeat: bool): Cam {
    Cam(m, BGR32, SizeImage(BGR32, m), repeat, false, [], None, [], [], false, [], [], [], 0, [], false, Idle)
  }

  // Ownership.

  function Bufs(rs: seq<Return>): (bs: seq<Buf>)
    ensures |bs| == |rs|
    ensures forall i :: 0 <= i < |rs| ==> bs[i] == rs[i].buf
  {
    seq(|rs|, i requires 0 <= i < |rs| => rs[i].buf)
  }

  function HeldBufs(s: Cam): seq<Buf> {
    if s.held.Some? then [s.held.value] else []
  }

  ghost predicate Numbered(bs: seq<Buf>) {
    forall i :: 0 <= i < |bs| ==> bs[i].id == i
  }

  /** Every queued source buffer is listed, held or returned, once. */
  ghost predicate InjectConserved(s: Cam) {
    && Numbered(s.injectQueued)
    && multiset(s.injectQueued) == multiset(s.injectList) + multiset(HeldBufs(s)) + multiset(Bufs(s.injectReturned))
  }

  /** Target buffers are returned in the order they were queued, and the rest is listed in that order. */
  ghost predicate CaptureConserved(s: Cam) {
    Numbered(s.captureQueued) && s.captureQueued == Bufs(s.captureReturned) + s.captureList
  }

  /** The layout follows mode and format, and a held buffer still fills a frame of it. */
  ghost predicate HeldFits(s: Cam) {
    s.sizeimage == SizeImage(s.format, s.mode) && (s.held.Some? ==> BigEnough(s, s.held.value))
  }

  /** Frames are numbered from zero since the capture started, and never overrun a buffer. */
  ghost predicate FramesGood(s: Cam) {
    && s.sequence == Word(|s.frames|)
    && forall i :: 0 <= i < |s.frames| ==>
         var f := s.frames[i];
         && f.sequence == Word(i)
         && f.source.size >= f.sizeimage && f.source.payload >= f.sizeimage
         && f.target.size >= f.frameSize
  }

  ghost predicate Inv(s: Cam) {
    InjectConserved(s) && CaptureConserved(s) && HeldFits(s) && FramesGood(s)
  }

  lemma BufsOfAppend(a: seq<Return>, b: seq<Return>)
    ensures Bufs(a + b) == Bufs(a) + Bufs(b)
  {
  }

  lemma BufsOfErrors(bs: seq<Buf>)
    ensures Bufs(Errors(bs)) == bs
  {
  }

  // The source side.

  /** What a step does to the source side: nothing, or move buffers between the three places. */
  ghost predicate SameSources(s: Cam, s': Cam) {
    && s'.injectQueued == s.injectQueued
    && multiset(s'.injectList) + multiset(HeldBufs(s')) + multiset(Bufs(s'.injectReturned))
       == multiset(s.injectList) + multiset(HeldBufs(s)) + multiset(Bufs(s.injectReturned))
  }

  lemma FirstMoves(bs: seq<Buf>)
    requires bs != []
    ensures multiset(bs) == multiset{bs[0]} + multiset(bs[1..])
  {
    assert bs == [bs[0]] + bs[1..];
  }

  lemma ReleaseMoves(s: Cam, status: Status)
    ensures SameSources(s, ReleaseHeld(s, status))
  {
    if s.held.Some? {
      BufsOfAppend(s.injectReturned, [Return(s.held.value, status)]);
      assert Bufs([Return(s.held.value, status)]) == [s.held.value];
    }
  }

  lemma {:induction false} DropMoves(s: Cam)
    ensures SameSources(s, DropShort(s))
    decreases |s.injectList|
  {
    if s.injectList != [] && !BigEnough(s, s.injectList[0]) {
      var r := Return(s.injectList[0], Error);
      var s1 := s.(injectList := s.injectList[1..], injectReturned := s.injectReturned + [r]);
      FirstMoves(s.injectList);
      BufsOfAppend(s.injectReturned, [r]);
      assert Bufs([r]) == [s.injectList[0]];
      DropMoves(s1);
    }
  }

  lemma TakeMoves(s: Cam)
    requires s.injectList != []
    ensures SameSources(s, TakeSource(s))
  {
    var b := s.injectList[0];
    FirstMoves(s.injectList);
    if s.repeat {
      ReleaseMoves(s, Done);
    } else {
      BufsOfAppend(s.injectReturned, [Return(b, Done)]);
      assert Bufs([Return(b, Done)]) == [b];
    }
  }

  lemma ReturnAllMoves(s: Cam)
    ensures SameSources(s, ReturnSources(s))
  {
    ReleaseMoves(s, Error);
    BufsOfAppend(ReleaseHeld(s, Error).injectReturned, Errors(s.injectList));
    BufsOfErrors(s.injectList);
  }

  lemma {:induction false} DeliverMoves(s: Cam, dst: bool, src: bool, held: bool)
    ensures SameSources(s, TryDeliver(s, dst, src, held))
  {
    hide DropShort, TakeSource;
    if CanRun(s) && s.captureList != [] {
      DropMoves(s);
      var s1 := DropShort(s);
      if s1.injectList != [] {
        TakeMoves(s1);
      }
    }
  }

  lemma ApplyModeMoves(s: Cam, m: Mode)
    ensures SameSources(s, ApplyMode(s, m))
  {
    hide SizeImage;
    ReleaseMoves(s.(mode := m), Error);
  }

  lemma FormatMoves(s: Cam, m: Mode, f: Format, inUse: bool)
    ensures SameSources(s, FormatInject(s, m, f, inUse))
    ensures SameSources(s, FormatCapture(s, m, inUse))
    ensures SameSources(s, FormatSensor(s, m))
  {
    hide SizeImage, ApplyMode;
    ApplyModeMoves(s, m);
  }

  lemma UntouchedSources(s: Cam, s': Cam)
    ensures
      && s'.injectQueued == s.injectQueued && s'.injectList == s.injectList
      && s'.held == s.held && s'.injectReturned == s.injectReturned
      ==> SameSources(s, s')
  {
  }

  lemma SameSourcesAnyPhase(s: Cam, s': Cam, p: Phase)
    requires SameSources(s, s')
    ensures SameSources(s, s'.(phase := p))
  {
  }

  /** Only queueing a source buffer brings one in; every other step moves them between the three places. */
  lemma {:induction false} StepMovesSources(s: Cam, e: Event)
    requires !e.QueueInject?
    ensures SameSources(s, Step(s, e))
  {
    hide TryDeliver, ReturnSources, FormatInject, FormatCapture, FormatSensor, Errors, SizeImage, SameSources;
    UntouchedSources(s, Step(s, e));
    match e
    case DeliverFrame(dst, src, held) =>
      DeliverMoves(s, dst, src, held);
      SameSourcesAnyPhase(s, TryDeliver(s, dst, src, held), Rearming);
    case StopInjectReturn =>
      ReturnAllMoves(s);
    case SetInjectFormat(m, f, inUse) =>
      FormatMoves(s, m, f, inUse);
    case SetCaptureFormat(m, inUse) =>
      FormatMoves(s, m, s.format, inUse);
    case SetSensorFormat(m) =>
      FormatMoves(s, m, s.format, false);
    case _ =>
  }

  lemma {:induction false} StepConservesSources(s: Cam, e: Event)
    requires InjectConserved(s)
    ensures InjectConserved(Step(s, e))
  {
    hide Step;
    if e.QueueInject? {
      AddSourceConserves(s, e.size, e.payload);
      QueueIsAdd(s, e.size, e.payload);
    } else {
      StepMovesSources(s, e);
    }
  }

  lemma QueueIsAdd(s: Cam, size: nat, payload: nat)
    ensures Step(s, QueueInject(size, payload)) == AddSource(s, size, payload)
  {
  }

  lemma AddSourceConserves(s: Cam, size: nat, payload: nat)
    requires InjectConserved(s)
    ensures InjectConserved(AddSource(s, size, payload))
  {
    hide Bufs;
  }

  // The target side.

  ghost predicate SameTargets(s: Cam, s': Cam) {
    && s'.captureQueued == s.captureQueued && s'.captureList == s.captureList
    && s'.captureReturned == s.captureReturned
  }

  lemma FormatKeepsTargets(s: Cam, m: Mode, f: Format, inUse: bool)
    ensures SameTargets(s, FormatInject(s, m, f, inUse))
    ensures SameTargets(s, FormatCapture(s, m, inUse))
    ensures SameTargets(s, FormatSensor(s, m))
  {
    hide SizeImage;
  }

  lemma DeliverConservesTargets(s: Cam, dst: bool, src: bool, held: bool)
    requires CaptureConserved(s)
    ensures CaptureConserved(TryDeliver(s, dst, src, held))
  {
    hide DropShort, FrameSize, Bufs;
    if s.captureList != [] {
      TargetReturned(s, Done);
      TargetReturned(s, Error);
    }
  }

  lemma {:induction false} StepConservesTargets(s: Cam, e: Event)
    requires CaptureConserved(s)
    ensures CaptureConserved(Step(s, e))
  {
    hide TryDeliver, FormatInject, FormatCapture, FormatSensor, Errors, SizeImage, Bufs;
    match e
    case QueueCapture(size) =>
      assert Bufs(s.captureReturned) + s.captureList + [Buf(|s.captureQueued|, size, 0)]
          == Bufs(s.captureReturned) + (s.captureList + [Buf(|s.captureQueued|, size, 0)]);
    case DeliverFrame(dst, src, held) =>
      DeliverConservesTargets(s, dst, src, held);
    case StopCaptureReturn =>
      BufsOfAppend(s.captureReturned, Errors(s.captureList));
      BufsOfErrors(s.captureList);
    case SetInjectFormat(m, f, inUse) =>
      FormatKeepsTargets(s, m, f, inUse);
    case SetCaptureFormat(m, inUse) =>
      FormatKeepsTargets(s, m, s.format, inUse);
    case SetSensorFormat(m) =>
      FormatKeepsTargets(s, m, s.format, false);
    case _ =>
  }

  lemma TargetReturned(s: Cam, status: Status)
    requires CaptureConserved(s) && s.captureList != []
    ensures CaptureConserved(ReturnTarget(s, status))
  {
    var r := Return(s.captureList[0], status);
    BufsOfAppend(s.captureReturned, [r]);
    assert Bufs([r]) == [s.captureList[0]];
    assert s.captureList == [s.captureList[0]] + s.captureList[1..];
  }

  // Sizes and sequence numbers.

  lemma FormatKeepsHeldFitting(s: Cam, m: Mode, f: Format, inUse: bool)
    requires HeldFits(s)
    ensures HeldFits(FormatInject(s, m, f, inUse))
    ensures HeldFits(FormatCapture(s, m, inUse))
    ensures HeldFits(FormatSensor(s, m))
  {
    hide SizeImage;
  }

  lemma DeliverKeepsHeldFitting(s: Cam, dst: bool, src: bool, held: bool)
    requires HeldFits(s)
    ensures HeldFits(TryDeliver(s, dst, src, held))
  {
    hide DropShort, SizeImage, FrameSize;
  }

  lemma {:induction false} StepKeepsHeldFitting(s: Cam, e: Event)
    requires HeldFits(s)
    ensures HeldFits(Step(s, e))
  {
    hide TryDeliver, FormatInject, FormatCapture, FormatSensor, Errors, SizeImage;
    match e
    case DeliverFrame(dst, src, held) =>
      DeliverKeepsHeldFitting(s, dst, src, held);
    case SetInjectFormat(m, f, inUse) =>
      FormatKeepsHeldFitting(s, m, f, inUse);
    case SetCaptureFormat(m, inUse) =>
      FormatKeepsHeldFitting(s, m, s.format, inUse);
    case SetSensorFormat(m) =>
      FormatKeepsHeldFitting(s, m, s.format, false);
    case _ =>
  }

  ghost predicate SameFrames(s: Cam, s': Cam) {
    s'.sequence == s.sequence && s'.frames == s.frames
  }

  lemma FormatKeepsFrames(s: Cam, m: Mode, f: Format, inUse: bool)
    ensures SameFrames(s, FormatInject(s, m, f, inUse))
    ensures SameFrames(s, FormatCapture(s, m, inUse))
    ensures SameFrames(s, FormatSensor(s, m))
  {
    hide SizeImage;
  }

  lemma TakeKeepsFrames(s: Cam)
    requires s.injectList != []
    ensures SameFrames(s, TakeSource(s))
    ensures TakeSource(s).captureList == s.captureList && TakeSource(s).mode == s.mode
    ensures TakeSource(s).sizeimage == s.sizeimage
  {
  }

  lemma DeliverKeepsFramesGood(s: Cam, dst: bool, src: bool, held: bool)
    requires HeldFits(s) && FramesGood(s)
    ensures FramesGood(TryDeliver(s, dst, src, held))
  {
    hide DropShort, SizeImage, FrameSize, TakeSource, FramesGood, Complete;
    SameFramesStayGood(s, TryDeliver(s, dst, src, held));
    if CanRun(s) && s.captureList != [] && s.captureList[0].size >= FrameSize(s.mode) {
      var s1 := DropShort(s);
      SameFramesStayGood(s, s1);
      if s1.injectList != [] {
        TakeKeepsFrames(s1);
        SameFramesStayGood(s, TakeSource(s1));
        CompletedFrame(TakeSource(s1), s1.injectList[0]);
      }
      if s1.held.Some? {
        CompletedFrame(s1, s1.held.value);
      }
    }
  }

  lemma SameFramesStayGood(s: Cam, s': Cam)
    requires FramesGood(s)
    ensures SameFrames(s, s') ==> FramesGood(s')
  {
  }

  lemma {:induction false} StepKeepsFramesGood(s: Cam, e: Event)
    requires HeldFits(s) && FramesGood(s)
    ensures FramesGood(Step(s, e))
  {
    hide TryDeliver, FormatInject, FormatCapture, FormatSensor, Errors, SizeImage, FramesGood;
    SameFramesStayGood(s, Step(s, e));
    match e
    case StartCapture =>
      NoFramesAreGood(Step(s, e));
    case DeliverFrame(dst, src, held) =>
      DeliverKeepsFramesGood(s, dst, src, held);
      SameFramesStayGood(TryDeliver(s, dst, src, held), Step(s, e));
    case SetInjectFormat(m, f, inUse) =>
      FormatKeepsFrames(s, m, f, inUse);
    case SetCaptureFormat(m, inUse) =>
      FormatKeepsFrames(s, m, s.format, inUse);
    case SetSensorFormat(m) =>
      FormatKeepsFrames(s, m, s.format, false);
    case _ =>
  }

  lemma NoFramesAreGood(s: Cam)
    requires s.sequence == 0 && s.frames == []
    ensures FramesGood(s)
  {
  }

  lemma CompletedFrame(s: Cam, b: Buf)
    requires FramesGood(s) && s.captureList != [] && s.captureList[0].size >= FrameSize(s.mode) && BigEnough(s, b)
    ensures FramesGood(Complete(s, b))
  {
    WordAdd(|s.frames|, 1);
  }

  lemma {:induction false} StepKeepsInv(s: Cam, e: Event)
    requires Inv(s)
    ensures Inv(Step(s, e))
  {
    hide Step, InjectConserved, CaptureConserved, HeldFits, FramesGood;
    StepConservesSources(s, e);
    StepConservesTargets(s, e);
    StepKeepsHeldFitting(s, e);
    StepKeepsFramesGood(s, e);
  }

  lemma {:induction false} RunKeepsInv(s: Cam, es: seq<Event>)
    requires Inv(s)
    ensures Inv(Run(s, es))
    decreases |es|
  {
    hide Step, Inv;
    if es != [] {
      StepKeepsInv(s, es[0]);
      RunKeepsInv(Step(s, es[0]), es[1..]);
    }
  }

  lemma InitialInv(m: Mode, repeat: bool)
    ensures Inv(Initial(m, repeat))
  {
    hide SizeImage;
  }

  // What conservation means for one buffer.

  ghost predicate Listed(s: Cam, b: Buf) { b in s.injectList }

  ghost predicate Held(s: Cam, b: Buf) { s.held == Some(b) }

  ghost predicate Returned(s: Cam, b: Buf) { exists i :: 0 <= i < |s.injectReturned| && s.injectReturned[i].buf == b }

  lemma {:induction false} OnceInSequence<T>(bs: seq<T>, i: nat, j: nat)
    requires i < j < |bs| && bs[i] == bs[j]
    ensures multiset(bs)[bs[i]] >= 2
  {
    assert bs == bs[..j] + [bs[j]] + bs[j + 1..];
    assert bs[..j][i] == bs[i];
    assert multiset(bs) == multiset(bs[..j]) + multiset{bs[j]} + multiset(bs[j + 1..]);
  }

  lemma {:induction false} NumberedIsUnique(bs: seq<Buf>, b: Buf)
    requires Numbered(bs)
    ensures multiset(bs)[b] <= 1
    decreases |bs|
  {
    if bs != [] {
      var n := |bs| - 1;
      assert bs == bs[..n] + [bs[n]];
      NumberedIsUnique(bs[..n], b);
      assert multiset(bs) == multiset(bs[..n]) + multiset{bs[n]};
      assert forall k :: 0 <= k < n ==> bs[..n][k].id == k;
      assert bs[n] !in bs[..n];
    }
  }

  /** After any run each queued source buffer is in exactly one place, and it was returned at most once. */
  lemma {:induction false} SourceBuffersAreConserved(m: Mode, repeat: bool, es: seq<Event>, b: Buf)
    ensures
      var s := Run(Initial(m, repeat), es);
      && (b in s.injectQueued <==> Listed(s, b) || Held(s, b) || Returned(s, b))
      && !(Listed(s, b) && Held(s, b)) && !(Listed(s, b) && Returned(s, b)) && !(Held(s, b) && Returned(s, b))
      && (forall i, j :: 0 <= i < j < |s.injectReturned| ==> s.injectReturned[i].buf != s.injectReturned[j].buf)
  {
    hide Initial, Run;
    InitialInv(m, repeat);
    RunKeepsInv(Initial(m, repeat), es);
    OnePlaceEach(Run(Initial(m, repeat), es), b);
  }

  lemma {:induction false} OnePlaceEach(s: Cam, b: Buf)
    requires InjectConserved(s)
    ensures b in s.injectQueued <==> Listed(s, b) || Held(s, b) || Returned(s, b)
    ensures !(Listed(s, b) && Held(s, b)) && !(Listed(s, b) && Returned(s, b)) && !(Held(s, b) && Returned(s, b))
    ensures forall i, j :: 0 <= i < j < |s.injectReturned| ==> s.injectReturned[i].buf != s.injectReturned[j].buf
  {
    var q, l := multiset(s.injectQueued), multiset(s.injectList);
    var h, r := multiset(HeldBufs(s)), multiset(Bufs(s.injectReturned));
    NumberedIsUnique(s.injectQueued, b);
    assert q[b] == l[b] + h[b] + r[b];
    assert b in s.injectQueued <==> q[b] > 0;
    assert Listed(s, b) <==> l[b] > 0;
    HeldCount(s, b);
    ReturnedCount(s, b);
    forall i, j | 0 <= i < j < |s.injectReturned|
      ensures s.injectReturned[i].buf != s.injectReturned[j].buf
    {
      var c := s.injectReturned[i].buf;
      NumberedIsUnique(s.injectQueued, c);
      assert q[c] == l[c] + h[c] + r[c];
      if c == s.injectReturned[j].buf {
        OnceInSequence(Bufs(s.injectReturned), i, j);
      }
    }
  }

  lemma HeldCount(s: Cam, b: Buf)
    ensures Held(s, b) <==> multiset(HeldBufs(s))[b] > 0
  {
    assert b in HeldBufs(s) <==> Held(s, b);
  }

  lemma ReturnedCount(s: Cam, b: Buf)
    ensures Returned(s, b) <==> multiset(Bufs(s.injectReturned))[b] > 0
  {
    var bs := Bufs(s.injectReturned);
    assert b in bs <==> multiset(bs)[b] > 0;
    if Returned(s, b) {
      var i :| 0 <= i < |s.injectReturned| && s.injectReturned[i].buf == b;
      assert bs[i] == b;
    }
    if b in bs {
      var i :| 0 <= i < |bs| && bs[i] == b;
      assert s.injectReturned[i].buf == b;
    }
  }

  /** Stopping a node leaves nothing behind: whatever was queued is back with its owner. */
  lemma {:induction false} StopReturnsEverything(s: Cam)
    requires Inv(s)
    ensures
      var s' := Step(s, StopInjectReturn);
      && s'.injectList == [] && s'.held == None
      && multiset(s'.injectQueued) == multiset(Bufs(s'.injectReturned))
    ensures
      var s' := Step(s, StopCaptureReturn);
      s'.captureList == [] && s'.captureQueued == Bufs(s'.captureReturned)
  {
    StepKeepsInv(s, StopInjectReturn);
    StepKeepsInv(s, StopCaptureReturn);
    var s' := Step(s, StopCaptureReturn);
    assert Bufs(s'.captureReturned) + [] == Bufs(s'.captureReturned);
  }

  /** After any run target buffers came back in the order they were queued, and a held buffer fits the layout. */
  lemma {:induction false} TargetsReturnInOrderAndHeldFits(m: Mode, repeat: bool, es: seq<Event>)
    ensures
      var s := Run(Initial(m, repeat), es);
      && Bufs(s.captureReturned) + s.captureList == s.captureQueued
      && (s.held.Some? ==> s.held.value.size >= SizeImage(s.format, s.mode))
  {
    hide Initial, Run, SizeImage;
    InitialInv(m, repeat);
    RunKeepsInv(Initial(m, repeat), es);
  }

  /** Over any run the frames since the capture start are numbered 0, 1, 2 and so on, modulo 2^32. */
  lemma {:induction false} FramesAreConsecutive(m: Mode, repeat: bool, es: seq<Event>, i: nat)
    ensures
      var s := Run(Initial(m, repeat), es);
      i < |s.frames| ==> s.frames[i].sequence == Word(i) && s.sequence == Word(|s.frames|)
  {
    hide Initial, Run;
    InitialInv(m, repeat);
    RunKeepsInv(Initial(m, repeat), es);
  }

  // Progress.

  /** With both nodes streaming and a target listed, the frame work is scheduled or running. */
  ghost predicate NotStalled(s: Cam) {
    CanRun(s) && s.captureList != [] ==> s.armed || s.phase != Idle
  }

  /** A step stalls a stream if and only if it switches the sensor off while a frame is due and no work runs. */
  lemma {:induction false} StepKeepsStreamingIff(s: Cam, e: Event)
    requires NotStalled(s)
    ensures NotStalled(Step(s, e)) <==> !(e == SensorOff && CanRun(s) && s.captureList != [] && s.phase == Idle)
  {
    hide TryDeliver, SizeImage, Errors;
  }

  lemma {:induction false} StreamsNeverStall(s: Cam, es: seq<Event>)
    requires NotStalled(s) && SensorOff !in es
    ensures NotStalled(Run(s, es))
    decreases |es|
  {
    hide Step, NotStalled;
    if es != [] {
      StepKeepsStreamingIff(s, es[0]);
      StreamsNeverStall(Step(s, es[0]), es[1..]);
    }
  }

  /** One round of the scheduled work delivers the next frame when its buffers fit. */
  lemma {:induction false} RoundDeliversFrame(s: Cam)
    requires CanRun(s) && s.armed && s.phase == Idle
    requires s.captureList != [] && s.captureList[0].size >= FrameSize(s.mode)
    requires (s.injectList != [] && BigEnough(s, s.injectList[0])) || (s.repeat && s.held.Some?)
    ensures
      var s' := Run(s, [BeginWork, DeliverFrame(true, true, true), FinishWork]);
      && |s'.frames| == |s.frames| + 1
      && s'.frames[|s.frames|].target == s.captureList[0]
      && (s.injectList != [] && BigEnough(s, s.injectList[0]) ==> s'.frames[|s.frames|].source == s.injectList[0])
      && (s.injectList == [] ==> s'.frames[|s.frames|].source == s.held.value)
  {
    hide FrameSize, SizeImage, TryDeliver, CanRun, BigEnough;
    var s1 := Step(s, BeginWork);
    var s2 := Step(s1, DeliverFrame(true, true, true));
    var s3 := Step(s2, FinishWork);
    var es := [BeginWork, DeliverFrame(true, true, true), FinishWork];
    assert es[1..] == [DeliverFrame(true, true, true), FinishWork] && es[1..][1..] == [FinishWork];
    assert Run(s3, es[1..][1..][1..]) == s3;
    SameFit(s, s1);
    Delivers(s1);
  }

  lemma SameFit(s: Cam, s': Cam)
    requires s' == s.(armed := s'.armed, phase := s'.phase)
    ensures CanRun(s') == CanRun(s)
    ensures forall b :: BigEnough(s', b) == BigEnough(s, b)
  {
  }

  lemma Delivers(s: Cam)
    requires CanRun(s) && s.captureList != [] && s.captureList[0].size >= FrameSize(s.mode)
    requires (s.injectList != [] && BigEnough(s, s.injectList[0])) || (s.repeat && s.held.Some?)
    ensures
      var s' := TryDeliver(s, true, true, true);
      && |s'.frames| == |s.frames| + 1
      && s'.frames[|s.frames|].target == s.captureList[0]
      && (s.injectList != [] && BigEnough(s, s.injectList[0]) ==> s'.frames[|s.frames|].source == s.injectList[0])
      && (s.injectList == [] ==> s'.frames[|s.frames|].source == s.held.value)
  {
    hide FrameSize, TakeSource, CanRun, BigEnough;
    DroppedKeepsFrames(s);
    var s1 := DropShort(s);
    if s1.injectList != [] {
      TakeKeepsFrames(s1);
    }
  }

  lemma DroppedKeepsFrames(s: Cam)
    ensures DropShort(s).frames == s.frames && DropShort(s).captureList == s.captureList
    ensures DropShort(s).held == s.held && DropShort(s).repeat == s.repeat
  {
  }
}
