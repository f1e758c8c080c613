/** The wrapper that paces PictureReady callbacks to a frame rate: pictures
    queue in FIFO order, one delivery tick at a time runs through the message
    loop, late pictures are recycled instead of delivered, and a reset starts
    a new epoch that makes every tick already posted stale.  Time is an
    integer clock handed to each callback; the frame duration is a positive
    integer; the message loop is the explicit list of posted tasks, run in
    any order the caller picks. */
module Throttling {
  import CM = ClientModel

  /** base::TimeTicks, which may be null; a null value counts as time 0 in
      arithmetic. */
  datatype Ticks = Null | At(t: int)

  function TicksValue(x: Ticks): int {
    match x
    case Null => 0
    case At(t) => t
  }

  /** A task posted to the message loop: a delivery tick tagged with the
      stream version current when it was posted, or a deferred flush-done. */
  datatype Task = Deliver(readyAt: int, version: int) | RetryFlush(readyAt: int)

  /** The callbacks the wrapper forwards unchanged. */
  datatype PassThrough =
    | ProvidePictureBuffers(count: int, width: int, height: int)
    | DismissPictureBuffer(id: int)
    | InitializeDone
    | EndOfBitstreamBuffer(id: int)
    | Error(code: int)

  /** What reaches the wrapped client or the reuse callback, in order.  A
      recycled picture hands its picture buffer id to the reuse callback. */
  datatype Output =
    | Delivered(pic: CM.Picture)
    | Recycled(pic: CM.Picture)
    | FlushForwarded
    | ResetForwarded
    | Passed(call: PassThrough)

  /** The pictures that have left the queue, in order. */
  function Departures(out: seq<Output>): (r: seq<CM.Picture>)
    ensures |r| <= |out|
  {
    if out == [] then []
    else (match out[0]
          case Delivered(p) => [p]
          case Recycled(p) => [p]
          case _ => [])
         + Departures(out[1..])
  }

  lemma {:induction false} DeparturesAppend(a: seq<Output>, b: seq<Output>)
    ensures Departures(a + b) == Departures(a) + Departures(b)
    decreases |a|
  {
    if a != [] {
      assert (a + b)[0] == a[0] && (a + b)[1..] == a[1..] + b;
      DeparturesAppend(a[1..], b);
    } else {
      assert a + b == b;
    }
  }

  /** The reuse callbacks for a queue drained by a reset. */
  function Recycles(ps: seq<CM.Picture>): (r: seq<Output>)
    ensures |r| == |ps| && forall i :: 0 <= i < |ps| ==> r[i] == Recycled(ps[i])
  {
    seq(|ps|, i requires 0 <= i < |ps| => Recycled(ps[i]))
  }

  lemma {:induction false} DeparturesOfRecycles(ps: seq<CM.Picture>)
    ensures Departures(Recycles(ps)) == ps
    decreases |ps|
  {
    if ps != [] {
      assert Recycles(ps) == [Recycled(ps[0])] + Recycles(ps[1..]);
      DeparturesAppend([Recycled(ps[0])], Recycles(ps[1..]));
      DeparturesOfRecycles(ps[1..]);
    }
  }

  /** The number of posted delivery ticks of version `v`. */
  function LiveTicks(tasks: seq<Task>, v: int): (n: nat)
    ensures n <= |tasks|
  {
    if tasks == [] then 0
    else (if tasks[0].Deliver? && tasks[0].version == v then 1 else 0) + LiveTicks(tasks[1..], v)
  }

  lemma {:induction false} LiveTicksAppend(a: seq<Task>, b: seq<Task>, v: int)
    ensures LiveTicks(a + b, v) == LiveTicks(a, v) + LiveTicks(b, v)
    decreases |a|
  {
    if a != [] {
      assert (a + b)[0] == a[0] && (a + b)[1..] == a[1..] + b;
      LiveTicksAppend(a[1..], b, v);
    } else {
      assert a + b == b;
    }
  }

  function Remove(tasks: seq<Task>, k: nat): (r: seq<Task>)
    requires k < |tasks|
    ensures |r| == |tasks| - 1
  {
    tasks[..k] + tasks[k + 1..]
  }

  /** Taking a task out of the message loop takes its tick out of the count. */
  lemma LiveTicksRemove(tasks: seq<Task>, k: nat, v: int)
    requires k < |tasks|
    ensures LiveTicks(Remove(tasks, k), v) + (if tasks[k].Deliver? && tasks[k].version == v then 1 else 0)
            == LiveTicks(tasks, v)
  {
    assert tasks == tasks[..k] + [tasks[k]] + tasks[k + 1..];
    LiveTicksAppend(tasks[..k] + [tasks[k]], tasks[k + 1..], v);
    LiveTicksAppend(tasks[..k], [tasks[k]], v);
    LiveTicksAppend(tasks[..k], tasks[k + 1..], v);
  }

  /** After the version moves past every posted tick, none of them is live. */
  lemma {:induction false} LiveTicksStale(tasks: seq<Task>, v: int, w: int)
    requires NoneAhead(tasks, v) && w > v
    ensures LiveTicks(tasks, w) == 0
    decreases |tasks|
  {
    if tasks != [] {
      LiveTicksStale(tasks[1..], v, w);
    }
  }

  /** The time a tick measures lateness from: the scheduled delivery time,
      or the tick's own time when none is set yet. */
  function TickBase(next: Ticks, now: int): int {
    match next
    case Null => now
    case At(t) => t
  }

  /** A tick drops its picture when the slot after the scheduled one has
      already passed. */
  predicate Late(next: Ticks, dur: int, now: int) {
    TickBase(next, now) + dur < now
  }

  /** Every picture that arrived has either left the queue, in FIFO order,
      or is still queued. */
  ghost predicate Accounted(arrived: seq<CM.Picture>, out: seq<Output>, pending: seq<CM.Picture>) {
    arrived == Departures(out) + pending
  }

  /** No posted tick belongs to a version later than `v`. */
  predicate NoneAhead(tasks: seq<Task>, v: int) {
    forall i :: 0 <= i < |tasks| && tasks[i].Deliver? ==> tasks[i].version <= v
  }

  /** Exactly one live tick is posted while pictures are queued, and none
      otherwise. */
  predicate Paced(tasks: seq<Task>, v: int, pending: seq<CM.Picture>) {
    LiveTicks(tasks, v) == if pending == [] then 0 else 1
  }

  lemma AccountArrival(arrived: seq<CM.Picture>, out: seq<Output>, pending: seq<CM.Picture>, p: CM.Picture)
    requires Accounted(arrived, out, pending)
    ensures Accounted(arrived + [p], out, pending + [p])
  {
  }

  /** Delivering or recycling the front picture keeps the accounting. */
  lemma AccountDeparture(arrived: seq<CM.Picture>, out: seq<Output>, pending: seq<CM.Picture>, o: Output)
    requires Accounted(arrived, out, pending) && pending != []
    requires o == Delivered(pending[0]) || o == Recycled(pending[0])
    ensures Accounted(arrived, out + [o], pending[1..])
  {
    var p0, rest := pending[0], pending[1..];
    DeparturesAppend(out, [o]);
    assert [o][1..] == [];
    assert Departures([o]) == [p0] + Departures([]);
    assert pending == [p0] + rest;
    assert Departures(out) + ([p0] + rest) == (Departures(out) + [p0]) + rest;
  }

  /** Any other output leaves the accounting as it was. */
  lemma AccountOther(arrived: seq<CM.Picture>, out: seq<Output>, pending: seq<CM.Picture>, o: Output)
    requires Accounted(arrived, out, pending) && !o.Delivered? && !o.Recycled?
    ensures Accounted(arrived, out + [o], pending)
  {
    DeparturesAppend(out, [o]);
    assert [o][1..] == [];
    assert Departures([o]) == [] + Departures([]);
  }

  /** Recycling the whole queue and then forwarding the reset accounts for
      every picture that ever arrived. */
  lemma AccountReset(arrived: seq<CM.Picture>, out: seq<Output>, pending: seq<CM.Picture>)
    requires Accounted(arrived, out, pending)
    ensures Accounted(arrived, out + Recycles(pending) + [ResetForwarded], [])
  {
    DeparturesAppend(out, Recycles(pending));
    DeparturesOfRecycles(pending);
    AccountOther(arrived, out + Recycles(pending), [], ResetForwarded);
  }

  /** Posting tasks adds their live ticks to the count. */
  lemma PostTasks(tasks: seq<Task>, v: int, posted: seq<Task>)
    requires NoneAhead(tasks, v) && NoneAhead(posted, v)
    ensures NoneAhead(tasks + posted, v)
    ensures LiveTicks(tasks + posted, v) == LiveTicks(tasks, v) + LiveTicks(posted, v)
  {
    LiveTicksAppend(tasks, posted, v);
  }

  class Throttler {
    const dur: int
    var next: Ticks                 // next_frame_delivered_time_
    var numDecoded: int             // num_decoded_frames_
    var version: int                // stream_version_
    var pending: seq<CM.Picture>    // pending_pictures_
    var tasks: seq<Task>            // tasks posted and not yet run
    var out: seq<Output>
    ghost var arrived: seq<CM.Picture>

    ghost predicate Valid()
      reads this
    {
      Core() && Paced(tasks, version, pending)
    }

    ghost predicate Core()
      reads this
    {
      dur > 0 && numDecoded == |arrived| && Accounted(arrived, out, pending) && NoneAhead(tasks, version)
    }

    /** The wrapper for a rate whose frame lasts `dur` clock units. */
    constructor(dur: int)
      requires dur > 0
      ensures Valid()
      ensures this.dur == dur && next == Null && numDecoded == 0 && version == 0
      ensures pending == [] && tasks == [] && out == []
    {
      this.dur := dur;
      next := Null;
      numDecoded := 0;
      version := 0;
      pending := [];
      tasks := [];
      out := [];
      arrived := [];
    }

    /** num_decoded_frames(): every picture that reached the wrapper. */
    function NumDecodedFrames(): (n: int)
      reads this
      requires Valid()
      ensures n == |arrived|
    {
      numDecoded
    }

    /** PictureReady: count and queue the picture; post a tick when the
        queue was empty, due at the scheduled time, or at once when none is
        scheduled. */
    method PictureReady(pic: CM.Picture, now: int)
      requires Valid()
      modifies this
      ensures Valid()
      ensures numDecoded == old(numDecoded) + 1 && arrived == old(arrived) + [pic]
      ensures pending == old(pending) + [pic]
      ensures tasks == old(tasks) + (if old(pending) == [] then [Deliver(TickBase(next, now), version)] else [])
      ensures next == old(next) && version == old(version) && out == old(out)
    {
      AccountArrival(arrived, out, pending, pic);
      var posted := if pending == [] then [Deliver(TickBase(next, now), version)] else [];
      PostTasks(tasks, version, posted);
      numDecoded, arrived, pending, tasks := numDecoded + 1, arrived + [pic], pending + [pic], tasks + posted;
    }

    /** CallClientPictureReady, for a tick already taken off the message
        loop: a stale tick does nothing; a live one delivers or, when late,
        recycles the front picture, moves the schedule one frame on and, while
        pictures remain, posts the next tick for the new scheduled time. */
    method CallClientPictureReady(v: int, now: int)
      requires Core()
      requires LiveTicks(tasks, version) + (if v == version then 1 else 0) == (if pending == [] then 0 else 1)
      modifies this
      ensures Valid()
      ensures v != old(version) ==>
                next == old(next) && pending == old(pending) && tasks == old(tasks) && out == old(out)
      ensures v == old(version) ==>
                && old(pending) != []
                && next == At(TickBase(old(next), now) + dur)
                && pending == old(pending)[1..]
                && out == old(out) + [if Late(old(next), dur, now) then Recycled(old(pending)[0])
                                      else Delivered(old(pending)[0])]
                && tasks == old(tasks) + (if pending != [] then [Deliver(next.t, version)] else [])
      ensures v == old(version) && old(next) == Null ==> out == old(out) + [Delivered(old(pending)[0])]
      ensures version == old(version) && numDecoded == old(numDecoded) && arrived == old(arrived)
    {
      if v != version {
        return;
      }
      var base := TickBase(next, now);
      var o := if base + dur < now then Recycled(pending[0]) else Delivered(pending[0]);
      AccountDeparture(arrived, out, pending, o);
      var rest := pending[1..];
      var posted := if rest != [] then [Deliver(base + dur, version)] else [];
      PostTasks(tasks, version, posted);
      next, out, pending, tasks := At(base + dur), out + [o], rest, tasks + posted;
    }

    /** NotifyFlushDone: forwarded at once when nothing is queued, otherwise
        posted again for the scheduled time. */
    method NotifyFlushDone(now: int)
      requires Valid()
      modifies this
      ensures Valid()
      ensures old(pending) == [] ==> out == old(out) + [FlushForwarded] && tasks == old(tasks)
      ensures old(pending) != [] ==> out == old(out) && tasks == old(tasks) + [RetryFlush(TicksValue(next))]
      ensures next == old(next) && version == old(version) && pending == old(pending)
      ensures numDecoded == old(numDecoded) && arrived == old(arrived)
    {
      if pending != [] {
        PostTasks(tasks, version, [RetryFlush(TicksValue(next))]);
        tasks := tasks + [RetryFlush(TicksValue(next))];
        return;
      }
      AccountOther(arrived, out, pending, FlushForwarded);
      out := out + [FlushForwarded];
    }

    /** NotifyResetDone: a new stream version, every queued picture recycled
        in order, no schedule, then the reset forwarded. */
    method NotifyResetDone()
      requires Valid()
      modifies this
      ensures Valid()
      ensures version == old(version) + 1 && pending == [] && next == Null
      ensures out == old(out) + Recycles(old(pending)) + [ResetForwarded]
      ensures tasks == old(tasks) && numDecoded == old(numDecoded) && arrived == old(arrived)
      ensures arrived == Departures(out)
    {
      LiveTicksStale(tasks, version, version + 1);
      AccountReset(arrived, out, pending);
      var recycled := RecycleAll(pending);
      version, pending, next, out := version + 1, [], Null, out + recycled + [ResetForwarded];
    }

    /** The callbacks passed straight through to the wrapped client. */
    method Forward(call: PassThrough)
      requires Valid()
      modifies this
      ensures Valid()
      ensures out == old(out) + [Passed(call)]
      ensures next == old(next) && version == old(version) && pending == old(pending) && tasks == old(tasks)
      ensures numDecoded == old(numDecoded) && arrived == old(arrived)
    {
      AccountOther(arrived, out, pending, Passed(call));
      out := out + [Passed(call)];
    }

    /** The message loop runs the posted task `k`. */
    method RunTask(k: nat, now: int)
      requires Valid() && k < |tasks|
      modifies this
      ensures Valid()
      ensures old(tasks[k]).Deliver? && old(tasks[k]).version != old(version) ==>
                && tasks == Remove(old(tasks), k)
                && next == old(next) && pending == old(pending) && out == old(out)
      ensures old(tasks[k]).Deliver? && old(tasks[k]).version == old(version) ==>
                && old(pending) != [] && pending == old(pending)[1..]
                && next == At(TickBase(old(next), now) + dur)
                && out == old(out) + [if Late(old(next), dur, now) then Recycled(old(pending)[0])
                                      else Delivered(old(pending)[0])]
                && tasks == Remove(old(tasks), k) + (if pending != [] then [Deliver(next.t, version)] else [])
                && (old(next) == Null ==> out == old(out) + [Delivered(old(pending)[0])])
      ensures old(tasks[k]).RetryFlush? ==> next == old(next) && pending == old(pending)
      ensures old(tasks[k]).RetryFlush? && old(pending) == [] ==>
                out == old(out) + [FlushForwarded] && tasks == Remove(old(tasks), k)
      ensures old(tasks[k]).RetryFlush? && old(pending) != [] ==>
                out == old(out) && tasks == Remove(old(tasks), k) + [RetryFlush(TicksValue(next))]
      ensures version == old(version) && numDecoded == old(numDecoded) && arrived == old(arrived)
    {
      var t := tasks[k];
      LiveTicksRemove(tasks, k, version);
      tasks := Remove(tasks, k);
      match t
      case Deliver(_, v) =>
        CallClientPictureReady(v, now);
      case RetryFlush(_) =>
        NotifyFlushDone(now);
    }
  }

  /** The reset's drain loop: the reuse callback for each queued picture,
      front first. */
  method RecycleAll(queue: seq<CM.Picture>) returns (log: seq<Output>)
    ensures log == Recycles(queue)
  {
    log := [];
    var rest := queue;
    ghost var drained: seq<CM.Picture> := [];
    while rest != []
      invariant queue == drained + rest
      invariant log == Recycles(drained)
      decreases |rest|
    {
      RecyclesAppend(drained, rest[0]);
      log := log + [Recycled(rest[0])];
      drained := drained + [rest[0]];
      rest := rest[1..];
    }
    assert drained == queue;
  }

  lemma RecyclesAppend(ps: seq<CM.Picture>, p: CM.Picture)
    ensures Recycles(ps + [p]) == Recycles(ps) + [Recycled(p)]
  {
    var r := Recycles(ps + [p]);
    assert |r| == |Recycles(ps) + [Recycled(p)]|;
    forall i | 0 <= i < |r|
      ensures r[i] == (Recycles(ps) + [Recycled(p)])[i]
    {
    }
  }
}
