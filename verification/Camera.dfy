/** The camera driver's callbacks and frame work, changing the buffer lists in place. */
module Camera {
  import opened Words
  import opened CameraModel

  class SensorDevice {
    var mode: Mode
    var format: Format
    var sizeimage: nat
    const repeatLastFrame: bool
    var injectStreaming: bool
    var injectBuffers: seq<Buf>
    var heldInject: Option<Buf>
    var captureStreaming: bool
    var captureBuffers: seq<Buf>
    var sequence: u32
    var armed: bool
    var phase: Phase
    ghost var injectQueued: seq<Buf>
    ghost var injectReturned: seq<Return>
    ghost var captureQueued: seq<Buf>
    ghost var captureReturned: seq<Return>
    ghost var frames: seq<Frame>

    constructor (mode: Mode, repeatLastFrame: bool)
      ensures View() == Initial(mode, repeatLastFrame)
    {
      this.mode := mode;
      format := BGR32;
      sizeimage := SizeImage(BGR32, mode);
      this.repeatLastFrame := repeatLastFrame;
      injectStreaming, captureStreaming := false, false;
      injectBuffers, captureBuffers := [], [];
      heldInject := None;
      sequence := 0;
      armed := false;
      phase := Idle;
      injectQueued, captureQueued := [], [];
      injectReturned, captureReturned := [], [];
      frames := [];
    }

    ghost function View(): Cam
      reads this
    {
      Cam(mode, format, sizeimage, repeatLastFrame, injectStreaming, injectBuffers, heldInject, injectQueued,
          injectReturned, captureStreaming, captureBuffers, captureQueued, captureReturned, sequence, frames,
          armed, phase)
    }

    predicate Runnable()
      reads this
    {
      injectStreaming && captureStreaming
    }

    method ArmClock()
      modifies this`armed
      ensures View() == Arm(old(View()))
    {
      if Runnable() && captureBuffers != [] {
        armed := true;
      }
    }

    method InjectBufQueue(b: Buf)
      requires b.id == |injectQueued|
      modifies this`injectBuffers, this`injectQueued, this`armed
      ensures View() == Step(old(View()), QueueInject(b.size, b.payload))
    {
      injectBuffers := injectBuffers + [b];
      injectQueued := injectQueued + [b];
      if |injectBuffers| == 1 {
        ArmClock();
      }
    }

    method CaptureBufQueue(b: Buf)
      requires b.id == |captureQueued| && b.payload == 0
      modifies this`captureBuffers, this`captureQueued, this`armed
      ensures View() == Step(old(View()), QueueCapture(b.size))
    {
      captureBuffers := captureBuffers + [b];
      captureQueued := captureQueued + [b];
      if |captureBuffers| == 1 {
        ArmClock();
      }
    }

    method InjectStartStreaming()
      modifies this`injectStreaming, this`armed
      ensures View() == Step(old(View()), StartInject)
    {
      injectStreaming := true;
      ArmClock();
    }

    method CaptureStartStreaming()
      modifies this`captureStreaming, this`sequence, this`frames, this`armed
      ensures View() == Step(old(View()), StartCapture)
    {
      sequence := 0;
      frames := [];
      captureStreaming := true;
      ArmClock();
    }

    method CompleteInject(status: Status)
      requires injectBuffers != []
      modifies this`injectBuffers, this`injectReturned
      ensures injectBuffers == old(injectBuffers[1..])
      ensures injectReturned == old(injectReturned + [Return(injectBuffers[0], status)])
    {
      injectReturned := injectReturned + [Return(injectBuffers[0], status)];
      injectBuffers := injectBuffers[1..];
    }

    method CompleteCapture(status: Status)
      requires captureBuffers != []
      modifies this`captureBuffers, this`captureReturned
      ensures View() == ReturnTarget(old(View()), status)
    {
      captureReturned := captureReturned + [Return(captureBuffers[0], status)];
      captureBuffers := captureBuffers[1..];
    }

    method ReleaseHeldInject(status: Status)
      modifies this`heldInject, this`injectReturned
      ensures View() == ReleaseHeld(old(View()), status)
    {
      if heldInject.None? {
        return;
      }
      injectReturned := injectReturned + [Return(heldInject.value, status)];
      heldInject := None;
    }

    /** The end of stop_streaming on the inject node: the held buffer first, then the list. */
    method InjectReturnAll()
      modifies this`heldInject, this`injectBuffers, this`injectReturned
      ensures View() == Step(old(View()), StopInjectReturn)
    {
      ReleaseHeldInject(Error);
      ghost var all, first := injectBuffers, injectReturned;
      ghost var n := 0;
      NoErrors(first);
      while injectBuffers != []
        invariant n <= |all| && injectBuffers == all[n..] && heldInject == None
        invariant injectReturned == first + Errors(all[..n])
        decreases |injectBuffers|
      {
        MoreErrors(first, all, n);
        CompleteInject(Error);
        n := n + 1;
      }
      assert all[..n] == all;
    }

    method CaptureReturnAll()
      modifies this`captureBuffers, this`captureReturned
      ensures View() == Step(old(View()), StopCaptureReturn)
    {
      ghost var all, first := captureBuffers, captureReturned;
      ghost var n := 0;
      NoErrors(first);
      while captureBuffers != []
        invariant n <= |all| && captureBuffers == all[n..]
        invariant captureReturned == first + Errors(all[..n])
        decreases |captureBuffers|
      {
        MoreErrors(first, all, n);
        CompleteCapture(Error);
        n := n + 1;
      }
      assert all[..n] == all;
    }

    method UpdateInjectLayout()
      modifies this`sizeimage
      ensures sizeimage == SizeImage(format, mode)
    {
      sizeimage := SizeImage(format, mode);
    }

    method ChangeInjectFormat(f: Format)
      modifies this`format, this`sizeimage
      ensures View() == SetFormat(old(View()), f)
    {
      format := f;
      UpdateInjectLayout();
    }

    method SensorApplyMode(m: Mode)
      modifies this`mode, this`heldInject, this`injectReturned, this`format, this`sizeimage
      ensures View() == ApplyMode(old(View()), m)
    {
      hide SizeImage;
      mode := m;
      ReleaseHeldInject(Error);
      ChangeInjectFormat(format);
    }

    /** s_fmt on the inject node; false stands for -EBUSY. */
    method InjectSetFmt(m: Mode, f: Format, inUse: bool) returns (ok: bool)
      modifies this`mode, this`heldInject, this`injectReturned, this`format, this`sizeimage
      ensures View() == Step(old(View()), SetInjectFormat(m, f, inUse))
      ensures ok ==> mode == m && format == f
      ensures !ok ==> View() == old(View())
    {
      hide SizeImage;
      var busy := injectStreaming || inUse || injectBuffers != [] || heldInject.Some?;
      if busy && (m != mode || f != format) {
        return false;
      }
      if m != mode {
        SensorApplyMode(m);
      }
      ChangeInjectFormat(f);
      ok := true;
    }

    method CaptureSetFmt(m: Mode, inUse: bool) returns (ok: bool)
      modifies this`mode, this`heldInject, this`injectReturned, this`format, this`sizeimage
      ensures View() == Step(old(View()), SetCaptureFormat(m, inUse))
      ensures ok ==> mode == m
      ensures !ok ==> View() == old(View())
    {
      hide SizeImage;
      var busy := captureStreaming || inUse || captureBuffers != [];
      if busy && m != mode {
        return false;
      }
      if m != mode {
        SensorApplyMode(m);
      }
      ok := true;
    }

    method SensorSetFmt(m: Mode) returns (ok: bool)
      modifies this`mode, this`heldInject, this`injectReturned, this`format, this`sizeimage
      ensures View() == Step(old(View()), SetSensorFormat(m))
      ensures ok ==> mode == m
      ensures !ok ==> View() == old(View())
    {
      hide SizeImage;
      if captureStreaming && m != mode {
        return false;
      }
      if m != mode {
        SensorApplyMode(m);
      }
      ok := true;
    }

    /** Drops the source buffers at the front that are too short. */
    method DropShortBuffers()
      modifies this`injectBuffers, this`injectReturned
      ensures View() == DropShort(old(View()))
    {
      ghost var before := View();
      while injectBuffers != [] && (injectBuffers[0].size < sizeimage || injectBuffers[0].payload < sizeimage)
        invariant View() == before.(injectList := injectBuffers, injectReturned := injectReturned)
        invariant DropShort(View()) == DropShort(before)
        decreases |injectBuffers|
      {
        CompleteInject(Error);
      }
    }

    /** Uses the first source buffer: it becomes the held one, or goes back at once. */
    method TakeFirstSource() returns (source: Buf)
      requires injectBuffers != []
      modifies this`injectBuffers, this`injectReturned, this`heldInject
      ensures View() == TakeSource(old(View())) && source == old(injectBuffers[0])
    {
      source := injectBuffers[0];
      if repeatLastFrame {
        ReleaseHeldInject(Done);
        injectBuffers := injectBuffers[1..];
        heldInject := Some(source);
      } else {
        CompleteInject(Done);
      }
    }

    method CompleteFrame(source: Buf)
      requires captureBuffers != []
      modifies this`captureBuffers, this`captureReturned, this`sequence, this`frames
      ensures View() == Complete(old(View()), source)
      ensures |frames| == old(|frames|) + 1
    {
      hide FrameSize;
      frames := frames + [Frame(sequence, source, captureBuffers[0], sizeimage, FrameSize(mode))];
      sequence := Word(sequence + 1);
      CompleteCapture(Done);
    }

    /** Pairs a target buffer with a source buffer, or with the held one, and completes the frame. */
    method TryDeliverFrame(dstMapped: bool, srcMapped: bool, heldMapped: bool) returns (delivered: bool)
      modifies this`injectBuffers, this`injectReturned, this`heldInject, this`captureBuffers, this`captureReturned,
               this`sequence, this`frames
      ensures View() == TryDeliver(old(View()), dstMapped, srcMapped, heldMapped)
      ensures |frames| == old(|frames|) + if delivered then 1 else 0
    {
      hide DropShort, FrameSize, TakeSource, Complete, ReturnTarget;
      if !Runnable() || captureBuffers == [] {
        return false;
      }
      if captureBuffers[0].size < FrameSize(mode) || !dstMapped {
        CompleteCapture(Error);
        return false;
      }
      DropShortBuffers();
      ghost var dropped := View();
      var source;
      if injectBuffers != [] && srcMapped {
        source := TakeFirstSource();
        TakeKeepsFrames(dropped);
      } else if repeatLastFrame && heldInject.Some? {
        if !heldMapped {
          return false;
        }
        source := heldInject.value;
      } else {
        return false;
      }
      CompleteFrame(source);
      delivered := true;
    }

    method FrameWorkBegin()
      modifies this`armed, this`phase
      ensures View() == Step(old(View()), BeginWork)
    {
      if armed && phase == Idle {
        armed := false;
        phase := Delivering;
      }
    }

    method FrameWorkDeliver(dstMapped: bool, srcMapped: bool, heldMapped: bool)
      modifies this`injectBuffers, this`injectReturned, this`heldInject, this`captureBuffers, this`captureReturned,
               this`sequence, this`frames, this`phase
      ensures View() == Step(old(View()), DeliverFrame(dstMapped, srcMapped, heldMapped))
    {
      hide TryDeliver, AddSource, AddTarget, ReturnSources, ReturnTargets, FormatInject, FormatCapture, FormatSensor;
      hide Arm, CanRun;
      if phase == Delivering {
        var delivered := TryDeliverFrame(dstMapped, srcMapped, heldMapped);
        phase := Rearming;
      }
    }

    method FrameWorkFinish()
      modifies this`armed, this`phase
      ensures View() == Step(old(View()), FinishWork)
    {
      if phase == Rearming {
        phase := Idle;
        ArmClock();
      }
    }
  }

  lemma NoErrors(first: seq<Return>)
    ensures first + Errors([]) == first
  {
  }

  lemma MoreErrors(first: seq<Return>, all: seq<Buf>, n: nat)
    requires n < |all|
    ensures first + Errors(all[..n + 1]) == first + Errors(all[..n]) + [Return(all[n], Error)]
  {
    assert Errors(all[..n + 1]) == Errors(all[..n]) + [Return(all[n], Error)];
  }

  /**
    * The frame clock: always at least one interval on, on the same grid, and the first point of the grid
    * after now that is.
    */
  method AdvanceClock(next: nat, interval: nat, now: nat) returns (next': nat)
    requires interval > 0
    ensures next' > now && next' > next && (next' - next) % interval == 0
    ensures next' - interval <= now || next' == next + interval
  {
    ghost var k := 1;
    next' := next + interval;
    assert next' - next == 1 * interval;
    while next' <= now
      invariant k >= 1 && next' - next == k * interval
      invariant next' - interval <= now || next' == next + interval
      decreases now + interval - next'
    {
      k := k + 1;
      next' := next' + interval;
    }
    ModOfSum(k, 0, interval);
  }
}
