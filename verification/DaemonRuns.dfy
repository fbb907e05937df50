/** Runs of the daemon: any sequence of its operations, whatever bridge writes fail in between. */
module DaemonRuns {
  import opened Words
  import opened KernelModel
  import opened RuntimeModel
  import opened Replay
  import opened Daemon

  datatype Operation =
    | Apply(name: string, buses: seq<RawBus>, devices: seq<RawDevice>)
    | Reset
    | Resync
    | Attach(backend: string, ids: seq<string>)
    | Detach(backend: string, ids: seq<string>)
    | UpdateBackend(id: string, value: Backend)
    | ReportDesync

  /** What the daemon and the kernel hold between two operations. */
  datatype Moment = Moment(
    kernel: Kernel, buses: seq<StoredBus>, devices: seq<StoredDevice>, byHandle: map<nat, string>,
    state: State, generation: nat, answers: seq<bool>, portLimit: nat)

  ghost function Now(manager: RuntimeManager): Moment
    reads manager
  {
    Moment(manager.kernel, manager.buses, manager.devices, manager.byHandle, manager.state, manager.generation,
           manager.answers, manager.portLimit)
  }

  /** The kernel is consistent, handles are in order, and unless the daemon says desynced both sides agree. */
  ghost predicate Sound(m: Moment) {
    && Inv(m.kernel) && HandlesOk(m.buses, m.devices, m.byHandle)
    && (m.state != Desynced ==> Agrees(m.kernel, m.buses, m.devices))
  }

  predicate Transaction(op: Operation) {
    op.Apply? || op.Reset? || op.Resync?
  }

  /** What the operation and its outcome allow to become of a moment. */
  ghost predicate Follows(m: Moment, op: Operation, ok: bool, m': Moment) {
    && m'.generation == m.generation + (if ok && Transaction(op) then 1 else 0)
    && m'.portLimit == m.portLimit && Failures(m'.answers) <= Failures(m.answers)
    && (m.state == Desynced && !op.Resync? ==> m' == m && (ok ==> op.ReportDesync?))
    && (op.Resync? && !AllAttachable(m.devices) ==> !ok && m' == m)
    && (op.Resync? && ok ==> m'.state == Ready && m'.buses == m.buses && m'.devices == m.devices)
    && (op.Resync? && !ok && AllAttachable(m.devices) ==> m'.state == Desynced)
    && (op.Apply? && !ok && m'.state != Desynced ==>
          m'.state == m.state && m'.buses == m.buses && m'.devices == m.devices && m'.byHandle == m.byHandle)
    && (op.Reset? && ok ==> m'.state == Empty && m'.devices == [] && m'.kernel == EmptyKernel())
    && (op.Reset? && !ok ==> m' == m.(answers := m'.answers))
    && Succeeds(m, op, ok, m')
  }

  /** When it must succeed, and what a failure then leaves. */
  ghost predicate Succeeds(m: Moment, op: Operation, ok: bool, m': Moment) {
    && (op.Reset? ==> (ok <==> m.state != Desynced && Next(m.answers)))
    && (op.Resync? ==> (ok <==> AllAttachable(m.devices) && Failures(m'.answers) == Failures(m.answers)))
    && (op.Apply? && m.state != Desynced && Failures(m.answers) == 0 ==>
          (ok <==> Appliable(op.buses, op.devices, m.portLimit)))
    && (op.Apply? && !ok && AllAttachable(m.devices) && Failures(m.answers) == 0 ==> m'.state == m.state)
    && (op.Apply? && ok ==> m'.state == Ready && AllAttachable(m'.devices))
    && (op.Attach? || op.Detach? ==> m'.state == m.state && (AllAttachable(m.devices) ==> AllAttachable(m'.devices)))
  }

  /** The moments of a run, one more than its operations. */
  ghost predicate IsRun(ms: seq<Moment>, ops: seq<Operation>, oks: seq<bool>) {
    && |ms| == |ops| + 1 && |oks| == |ops|
    && (forall i :: 0 <= i < |ms| ==> Sound(ms[i]))
    && (forall i :: 0 <= i < |ops| ==> Follows(ms[i], ops[i], oks[i], ms[i + 1]))
  }

  lemma DetachedIsAttachable(devices: seq<StoredDevice>)
    requires Detached(devices) == devices
    ensures AllAttachable(devices)
  {
    hide Attachable;
    assert forall i :: 0 <= i < |devices| ==> Detached(devices)[i].attached.None?;
  }

  lemma AttachingKeepsAttachable(devices: seq<StoredDevice>, backend: string, ids: seq<string>)
    requires DistinctIds(devices) && AllAttachable(devices)
    requires forall id :: id in ids ==> Serves(devices, id)
    ensures AllAttachable(AttachedTo(devices, backend, ids))
  {
    hide Attachable;
    var after := AttachedTo(devices, backend, ids);
    forall i | 0 <= i < |after| && after[i].attached.Some?
      ensures Attachable(after[i].dev)
    {
      if devices[i].dev.id in ids {
        assert Serves(devices, devices[i].dev.id);
        var j :| 0 <= j < |devices| && devices[j].dev.id == devices[i].dev.id && Attachable(devices[j].dev);
        assert i == j;
      }
    }
  }

  lemma DetachingKeepsAttachable(devices: seq<StoredDevice>, backend: string, ids: seq<string>)
    requires AllAttachable(devices)
    ensures AllAttachable(DetachedFrom(devices, backend, ids))
  {
    hide Attachable;
  }

  method PerformApply(manager: RuntimeManager, name: string, buses: seq<RawBus>, devices: seq<RawDevice>)
    returns (ok: bool)
    requires manager.Valid()
    modifies manager
    ensures manager.Valid() && Follows(old(Now(manager)), Apply(name, buses, devices), ok, Now(manager))
  {
    hide Inv, WellFormed, HandlesOk, Agrees, AllAttachable, Held, Failures, Appliable, Acceptable, Detached,
         BusesAccepted, DevicesAccepted;
    ghost var left;
    AppliableIsAcceptable(buses, devices, manager.portLimit);
    ok, left := manager.Apply(name, buses, devices);
    if ok {
      DetachedIsAttachable(manager.devices);
    }
  }

  lemma AppliableIsAcceptable(rb: seq<RawBus>, rd: seq<RawDevice>, portLimit: nat)
    ensures Appliable(rb, rd, portLimit) ==> Acceptable(rb, rd)
  {
    hide BusesAccepted, DevicesAccepted, Held;
  }

  method PerformAttach(manager: RuntimeManager, backend: string, ids: seq<string>) returns (ok: bool)
    requires manager.Valid()
    modifies manager
    ensures manager.Valid() && Follows(old(Now(manager)), Attach(backend, ids), ok, Now(manager))
  {
    hide Inv, HandlesOk, Agrees, WellFormed, AllAttachable, Held, Failures, Serves, AttachedTo;
    ghost var before := manager.devices;
    WellFormedIsDistinct(BusesOf(manager.buses), DevicesOf(manager.devices), manager.devices);
    ok := manager.Attach(backend, ids);
    if ok && AllAttachable(before) {
      AttachingKeepsAttachable(before, backend, ids);
    }
  }

  method PerformDetach(manager: RuntimeManager, backend: string, ids: seq<string>) returns (ok: bool)
    requires manager.Valid()
    modifies manager
    ensures manager.Valid() && Follows(old(Now(manager)), Detach(backend, ids), ok, Now(manager))
  {
    hide Inv, HandlesOk, Agrees, WellFormed, AllAttachable, Held, Failures, DetachedFrom;
    ghost var before := manager.devices;
    ok := manager.Detach(backend, ids);
    if ok && AllAttachable(before) {
      DetachingKeepsAttachable(before, backend, ids);
    }
  }

  method Perform(manager: RuntimeManager, op: Operation) returns (ok: bool)
    requires manager.Valid() && (op.UpdateBackend? ==> BackendFits(op.value))
    modifies manager
    ensures manager.Valid() && Follows(old(Now(manager)), op, ok, Now(manager))
  {
    hide Inv, WellFormed, HandlesOk, Agrees, AllAttachable, Serves, BackendFits, Held, Failures, Appliable;
    match op {
      case Apply(name, buses, devices) => ok := PerformApply(manager, name, buses, devices);
      case Reset => ok := manager.Reset();
      case Resync => ok := manager.Resync();
      case Attach(backend, ids) => ok := PerformAttach(manager, backend, ids);
      case Detach(backend, ids) => ok := PerformDetach(manager, backend, ids);
      case UpdateBackend(id, value) => ok := manager.UpdateBackend(id, value);
      case ReportDesync =>
        manager.ReportDesync();
        ok := true;
    }
  }

  /** Every sequence of operations on a valid daemon is a run. */
  method PerformAll(manager: RuntimeManager, ops: seq<Operation>) returns (ghost ms: seq<Moment>, oks: seq<bool>)
    requires manager.Valid()
    requires forall i :: 0 <= i < |ops| && ops[i].UpdateBackend? ==> BackendFits(ops[i].value)
    modifies manager
    ensures manager.Valid() && IsRun(ms, ops, oks)
    ensures ms[0] == old(Now(manager)) && ms[|ops|] == Now(manager)
  {
    hide Follows, BackendFits, Inv, HandlesOk, Agrees, WellFormed;
    ms, oks := [Now(manager)], [];
    var i := 0;
    while i < |ops|
      invariant i <= |ops| && manager.Valid()
      invariant IsRun(ms, ops[..i], oks) && ms[0] == old(Now(manager)) && ms[i] == Now(manager)
    {
      var ok := Perform(manager, ops[i]);
      ms, oks := ms + [Now(manager)], oks + [ok];
      i := i + 1;
    }
    assert ops[..i] == ops;
  }

  /** A daemon that was desynced and no longer is has had a successful resync in between. */
  lemma {:induction false} OnlyResyncRecovers(ms: seq<Moment>, ops: seq<Operation>, oks: seq<bool>, i: nat, j: nat)
    requires IsRun(ms, ops, oks) && i <= j < |ms|
    requires ms[i].state == Desynced && ms[j].state != Desynced
    ensures exists k :: i <= k < j && ops[k] == Resync && oks[k]
    decreases j - i
  {
    hide Sound;
    assert Follows(ms[i], ops[i], oks[i], ms[i + 1]);
    if !(ops[i] == Resync && oks[i]) {
      OnlyResyncRecovers(ms, ops, oks, i + 1, j);
    }
  }

  /** A desynced daemon keeps everything as it is, on both sides, until the next resync. */
  lemma {:induction false} DesyncedIsFrozen(ms: seq<Moment>, ops: seq<Operation>, oks: seq<bool>, i: nat, j: nat)
    requires IsRun(ms, ops, oks) && i <= j < |ms| && ms[i].state == Desynced
    requires forall k :: i <= k < j ==> ops[k] != Resync
    ensures ms[j] == ms[i]
    decreases j - i
  {
    hide Sound, AllAttachable;
    if i < j {
      assert Follows(ms[i], ops[i], oks[i], ms[i + 1]);
      DesyncedIsFrozen(ms, ops, oks, i + 1, j);
    }
  }

  /**
   A daemon that is desynced while an attached device is no longer an unmanaged controller stays as it is
   for the rest of the run: resync is refused, and so is every operation that could mend the device.
   */
  lemma {:induction false} DesyncedForGood(ms: seq<Moment>, ops: seq<Operation>, oks: seq<bool>, i: nat, j: nat)
    requires IsRun(ms, ops, oks) && i <= j < |ms|
    requires ms[i].state == Desynced && !AllAttachable(ms[i].devices)
    ensures ms[j] == ms[i]
    decreases j - i
  {
    hide Sound, AllAttachable;
    if i < j {
      assert Follows(ms[i], ops[i], oks[i], ms[i + 1]);
      DesyncedForGood(ms, ops, oks, i + 1, j);
    }
  }

  /** Whenever the daemon trusts two moments with the same inventory, the kernel is the same in both. */
  lemma SameInventorySameKernel(ms: seq<Moment>, ops: seq<Operation>, oks: seq<bool>, i: nat, j: nat)
    requires IsRun(ms, ops, oks) && i < |ms| && j < |ms|
    requires ms[i].state != Desynced && ms[j].state != Desynced
    requires ms[i].buses == ms[j].buses && DevicesOf(ms[i].devices) == DevicesOf(ms[j].devices)
    ensures ms[i].kernel == ms[j].kernel
  {
    hide Inv, HandlesOk, MirrorsBuses, MirrorsDevices, Follows;
    assert Sound(ms[i]) && Sound(ms[j]);
    AgreementDeterminesTheKernel(ms[i].kernel, ms[j].kernel, ms[i].buses, ms[i].devices);
  }

  /**
   While no request fails, nothing reports a desync and no backend is changed, the daemon is never desynced,
   and every apply succeeds if and only if its model is accepted and within the limits of the kernel.
   */
  lemma {:induction false} NothingFailsNothingDesyncs(ms: seq<Moment>, ops: seq<Operation>, oks: seq<bool>, i: nat)
    requires IsRun(ms, ops, oks) && i < |ms|
    requires ms[0].state != Desynced && AllAttachable(ms[0].devices) && Failures(ms[0].answers) == 0
    requires forall k :: 0 <= k < |ops| ==> !ops[k].ReportDesync? && !ops[k].UpdateBackend?
    ensures ms[i].state != Desynced && AllAttachable(ms[i].devices) && Failures(ms[i].answers) == 0
    ensures ms[i].portLimit == ms[0].portLimit
    ensures i < |ops| && ops[i].Apply? ==> (oks[i] <==> Appliable(ops[i].buses, ops[i].devices, ms[0].portLimit))
  {
    hide Sound, AllAttachable, Failures, Appliable;
    if i > 0 {
      NothingFailsNothingDesyncs(ms, ops, oks, i - 1);
      assert Follows(ms[i - 1], ops[i - 1], oks[i - 1], ms[i]);
      NoFailuresGoesWell(ms[i - 1].answers);
      StaysGood(ms[i - 1], ops[i - 1], oks[i - 1], ms[i]);
    }
    if i < |ops| {
      assert Follows(ms[i], ops[i], oks[i], ms[i + 1]);
    }
  }

  lemma NoFailuresGoesWell(answers: seq<bool>)
    requires Failures(answers) == 0
    ensures Next(answers)
  {
  }

  lemma StaysGood(m: Moment, op: Operation, ok: bool, m': Moment)
    requires Follows(m, op, ok, m') && !op.ReportDesync? && !op.UpdateBackend?
    requires m.state != Desynced && AllAttachable(m.devices) && Failures(m.answers) == 0 && Next(m.answers)
    ensures m'.state != Desynced && AllAttachable(m'.devices)
  {
    hide Failures, Appliable;
    if op.Reset? {
      NothingAttached();
    }
  }

  function Successes(ops: seq<Operation>, oks: seq<bool>): nat
    requires |ops| == |oks|
  {
    if ops == [] then 0
    else Successes(ops[..|ops| - 1], oks[..|ops| - 1])
         + (if oks[|ops| - 1] && Transaction(ops[|ops| - 1]) then 1 else 0)
  }

  /** The generation counts exactly the transactions that succeeded, rolled back and refused ones not. */
  lemma {:induction false} GenerationCountsSuccesses(ms: seq<Moment>, ops: seq<Operation>, oks: seq<bool>)
    requires IsRun(ms, ops, oks)
    ensures ms[|ops|].generation == ms[0].generation + Successes(ops, oks)
    decreases |ops|
  {
    hide Sound;
    if ops != [] {
      var n := |ops| - 1;
      assert Follows(ms[n], ops[n], oks[n], ms[n + 1]);
      assert IsRun(ms[..n + 1], ops[..n], oks[..n]);
      GenerationCountsSuccesses(ms[..n + 1], ops[..n], oks[..n]);
    }
  }

  /**
   Turning a served controller into a template keeps its attachment; from the next desync on
   every resync is refused.
   */
  method ResyncRefusedAfterTemplate(manager: RuntimeManager, backend: string, id: string, template: string)
    returns (attached: bool, updated: bool, resynced: bool)
    requires manager.Valid() && manager.state == Ready && Serves(manager.devices, id)
    requires BackendFits(Template(template))
    modifies manager
    ensures attached && !resynced
    ensures !updated ==> exists i :: 0 <= i < |manager.devices| && manager.devices[i].dev.id == id
                                     && SendsDefaults(manager.devices[i].dev)
    ensures manager.Valid() && manager.state == Desynced && !AllAttachable(manager.devices)
  {
    hide Inv, WellFormed, HandlesOk, Agrees, BackendFits;
    ghost var i :| 0 <= i < |manager.devices| && manager.devices[i].dev.id == id && Attachable(manager.devices[i].dev);
    attached := manager.Attach(backend, [id]);
    ghost var before := manager.devices;
    assert before[i].dev.id == id && before[i].attached == Some(backend);
    updated := manager.UpdateBackend(id, Template(template));
    assert manager.devices[i].attached == Some(backend);
    assert manager.devices[i].dev.backend == Template(template);
    manager.ReportDesync();
    resynced := manager.Resync();
  }
}
