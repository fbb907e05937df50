/** That the camera starts, takes formats and delivers: the runs everything else is about exist. */
module CameraStart {
  import opened Words
  import opened CameraModel

  /** An idle inject node takes any mode and format, and demands their size from then on. */
  lemma {:induction false} InjectFormatApplies(s: Cam, m: Mode, f: Format)
    requires !s.injectStreaming && s.injectList == [] && s.held.None?
    ensures
      var s' := Step(s, SetInjectFormat(m, f, false));
      s'.mode == m && s'.format == f && (s'.sizeimage == SizeImage(f, m))
  {
    hide SizeImage;
  }

  /** A busy one takes only what it has. */
  lemma {:induction false} BusyInjectKeepsFormat(s: Cam, m: Mode, f: Format, inUse: bool)
    requires s.injectStreaming || s.injectList != [] || s.held.Some? || inUse
    ensures m != s.mode || f != s.format ==> Step(s, SetInjectFormat(m, f, inUse)) == s
  {
  }

  /** The mode follows the capture node while that is idle, and the sensor while the capture node is stopped. */
  lemma {:induction false} ModeApplies(s: Cam, m: Mode)
    ensures !s.captureStreaming && s.captureList == [] ==> Step(s, SetCaptureFormat(m, false)).mode == m
    ensures !s.captureStreaming ==> Step(s, SetSensorFormat(m)).mode == m
    ensures s.captureStreaming ==> Step(s, SetCaptureFormat(m, false)) == s && Step(s, SetSensorFormat(m)) == s
  {
    hide SizeImage;
  }

  /** Queueing one buffer on each node, starting both and one round of the work. */
  function FirstRound(source: nat, payload: nat, target: nat): seq<Event> {
    [QueueInject(source, payload), QueueCapture(target), StartInject, StartCapture,
     BeginWork, DeliverFrame(true, true, true), FinishWork]
  }

  lemma RunOne(s: Cam, e: Event, es: seq<Event>)
    ensures Run(s, [e] + es) == Run(Step(s, e), es)
  {
    assert ([e] + es)[1..] == es;
  }

  /** The camera before the first round. */
  function Ready(m: Mode, repeat: bool, source: nat, payload: nat, target: nat): Cam {
    var b, c := Buf(0, source, payload), Buf(0, target, 0);
    Initial(m, repeat).(injectStreaming := true, injectList := [b], injectQueued := [b],
                        captureStreaming := true, captureList := [c], captureQueued := [c], armed := true)
  }

  lemma StartedIsReady(m: Mode, repeat: bool, source: nat, payload: nat, target: nat)
    ensures
      var s := Step(Step(Initial(m, repeat), QueueInject(source, payload)), QueueCapture(target));
      Step(Step(s, StartInject), StartCapture) == Ready(m, repeat, source, payload, target)
  {
    hide SizeImage;
  }

  /** From power-on a source and a target buffer of the demanded sizes give frame number zero. */
  lemma {:induction false} FirstFrameIsDelivered(m: Mode, repeat: bool, source: nat, payload: nat, target: nat)
    requires source >= SizeImage(BGR32, m) && payload >= SizeImage(BGR32, m) && target >= FrameSize(m)
    ensures
      var s := Run(Initial(m, repeat), FirstRound(source, payload, target));
      && |s.frames| == 1 && s.frames[0].sequence == 0
      && s.frames[0].source == Buf(0, source, payload) && s.frames[0].target == Buf(0, target, 0)
  {
    var s := Ready(m, repeat, source, payload, target);
    StartedIsReady(m, repeat, source, payload, target);
    assert BigEnough(s, s.injectList[0]) && CanRun(s);
    RoundDeliversFrame(s);
    var round := [BeginWork, DeliverFrame(true, true, true), FinishWork];
    FramesAreConsecutive(m, repeat, FirstRound(source, payload, target), 0);
    hide Step, Run, SizeImage, FrameSize, BigEnough, CanRun;
    var s0 := Initial(m, repeat);
    var s1 := Step(s0, QueueInject(source, payload));
    var s2 := Step(s1, QueueCapture(target));
    var s3 := Step(s2, StartInject);
    RunOne(s0, QueueInject(source, payload), [QueueCapture(target), StartInject, StartCapture] + round);
    RunOne(s1, QueueCapture(target), [StartInject, StartCapture] + round);
    RunOne(s2, StartInject, [StartCapture] + round);
    RunOne(s3, StartCapture, round);
    assert FirstRound(source, payload, target)
        == [QueueInject(source, payload)] + ([QueueCapture(target), StartInject, StartCapture] + round);
    assert [QueueCapture(target), StartInject, StartCapture] + round
        == [QueueCapture(target)] + ([StartInject, StartCapture] + round);
    assert [StartInject, StartCapture] + round == [StartInject] + ([StartCapture] + round);
  }
}
