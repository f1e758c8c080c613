/** Whole runs of the decode test client against a decoder that consumes
    every bitstream buffer it is given: the state notifications of P
    play-throughs, the final counters, and what the deletion state changes. */
module DriverLifecycle {
  import opened ClientModel
  import opened ClientProperties
  import F = Fragmenter

  // ---------------------------------------------------------------------
  // Schedules

  /** `n` copies of the same callback. */
  function Repeat(e: Event, n: nat): (r: seq<Event>)
    ensures |r| == n && forall k :: 0 <= k < n ==> r[k] == e
    decreases n
  {
    if n == 0 then [] else [e] + Repeat(e, n - 1)
  }

  /** What the decoder does in one play-through of `k` fragments: return
      every buffer, then complete the flush and the reset the client asks
      for. */
  function PlayThroughEvents(k: nat): (r: seq<Event>)
    ensures |r| == k + 2 && r[k] == FlushDone && r[k + 1] == ResetDone
  {
    Repeat(EndOfBitstreamBuffer, k) + [FlushDone, ResetDone]
  }

  function Rounds(k: nat, p: nat): seq<Event>
    decreases p
  {
    if p == 0 then [] else PlayThroughEvents(k) + Rounds(k, p - 1)
  }

  /** `p` play-throughs of `k` fragments are `p * (k + 2)` events. */
  lemma {:induction false} RoundsLength(k: nat, p: nat)
    ensures |Rounds(k, p)| == p * (k + 2)
    decreases p
  {
    if p > 0 {
      RoundsLength(k, p - 1);
    }
  }

  /** The whole schedule: create and initialize the decoder, then `p`
      play-throughs. */
  function Schedule(k: nat, p: nat): (r: seq<Event>)
    ensures |r| >= 2 && r[..2] == [CreateDecoderEvent(true), InitializeDone] && r[2..] == Rounds(k, p)
  {
    [CreateDecoderEvent(true), InitializeDone] + Rounds(k, p)
  }

  /** The notifications the harness waits for, in order (one group
      CS_FLUSHING, CS_FLUSHED, CS_RESETTING, CS_INITIALIZED per play-through
      but the last). */
  function Replays(p: nat): seq<ClientState>
    decreases p
  {
    if p == 0 then [] else [CsFlushing, CsFlushed, CsResetting, CsInitialized] + Replays(p - 1)
  }

  /** The last play-through, ending with the deletion cascade. */
  const LastStates: seq<ClientState> := [CsFlushing, CsFlushed, CsResetting, CsReset, CsError, CsDestroyed]

  function LifecycleTrace(p: nat): seq<ClientState>
    requires p >= 1
  {
    [CsDecoderSet, CsInitialized] + Replays(p - 1) + LastStates
  }

  lemma {:induction false} RunAppend(c: Client, a: seq<Event>, b: seq<Event>)
    ensures Run(c, a + b) == match Run(c, a) { case Crash(why) => Crash(why) case Ok(d) => Run(d, b) }
    decreases |a|
  {
    if a == [] {
      assert a + b == b;
    } else {
      assert (a + b)[0] == a[0] && (a + b)[1..] == a[1..] + b;
      match Step(c, a[0])
      case Crash(_) =>
      case Ok(c') => RunAppend(c', a[1..], b);
    }
  }

  /** A schedule whose first part succeeds goes on from where it left off. */
  lemma RunThen(c: Client, a: seq<Event>, b: seq<Event>, d: Client)
    requires Run(c, a) == Ok(d)
    ensures Run(c, a + b) == Run(d, b)
  {
    RunAppend(c, a, b);
  }

  lemma RunCons(c: Client, e: Event, s: seq<Event>, d: Client)
    requires Step(c, e) == Ok(d)
    ensures Run(c, [e] + s) == Run(d, s)
  {
    assert ([e] + s)[0] == e && ([e] + s)[1..] == s;
  }

  // ---------------------------------------------------------------------
  // Following the rest of a play-through

  /** The fields none of the callbacks of a play-through changes. */
  ghost predicate SameConfig(c: Client, d: Client) {
    d.data == c.data && SameSettings(c, d)
  }

  /** The test parameters, which deleting the decoder keeps too. */
  ghost predicate SameSettings(c: Client, d: Client) {
    && d.h264 == c.h264 && d.numInFlight == c.numInFlight
    && d.resetAfter == c.resetAfter && d.deleteState == c.deleteState && d.throttled == c.throttled
  }

  /** The client is part-way through a play-through that is not the last:
      from its cursor the rest of the data is played through as `rest`. */
  ghost predicate Playing(c: Client, rest: F.Chain) {
    c.live && c.remaining > 0 && F.PlayChain(c.data, c.h264, c.pos) == F.Some(rest)
  }

  /** `d` is `c` after `m` more submissions along the play-through `rest`:
      the cursor has moved `m` fragments on, each counted and outstanding. */
  ghost predicate Along(c: Client, rest: F.Chain, d: Client, m: nat) {
    Submitted(c, d, m) && AlongCounted(c, rest, d, m)
  }

  ghost predicate Submitted(c: Client, d: Client, m: nat) {
    && SameConfig(c, d) && d.remaining == c.remaining && d.live
    && d.trace == c.trace && d.state == c.state && d.done == c.done
    && d.outstanding == c.outstanding + m
  }

  ghost predicate AlongCounted(c: Client, rest: F.Chain, d: Client, m: nat) {
    && F.PlayChain(d.data, d.h264, d.pos).Some?
    && var rest' := F.PlayChain(d.data, d.h264, d.pos).value;
       && rest'.steps + m == rest.steps
       && d.skipped + rest'.skipped == c.skipped + rest.skipped
       && d.queued + rest'.queued == c.queued + rest.queued
  }

  lemma AlongCompose(c: Client, rest: F.Chain, c': Client, d: Client, m: nat)
    requires m >= 1 && Along(c, rest, c', 1)
    requires Along(c', F.PlayChain(c'.data, c'.h264, c'.pos).value, d, m - 1)
    ensures Along(c, rest, d, m)
  {
  }

  /** One submission moves the cursor one fragment along the play-through. */
  lemma SubmitAlong(c: Client, rest: F.Chain)
    requires Playing(c, rest) && c.pos != |c.data|
    ensures DecodeNextFragment(c).Ok? && Along(c, rest, DecodeNextFragment(c).value, 1)
  {
    var f := F.FragmentAt(c.data, c.h264, c.pos).value;
    var rest' := F.PlayChain(c.data, c.h264, f.end).value;
    assert rest == F.Chain(rest'.steps + 1, rest'.skipped + f.skipped, rest'.queued + f.queued);
  }

  lemma DecodeTimesStep(c: Client, m: nat, c': Client)
    requires m >= 1 && DecodeNextFragment(c) == Ok(c')
    ensures DecodeTimes(c, m) == DecodeTimes(c', m - 1)
  {
  }

  /** `m` submissions in a row, as long as fragments remain. */
  lemma {:induction false} DecodeTimesAlong(c: Client, rest: F.Chain, m: nat)
    requires Playing(c, rest) && m <= rest.steps
    ensures DecodeTimes(c, m).Ok? && Along(c, rest, DecodeTimes(c, m).value, m)
    decreases m, 1
  {
    if m == 0 {
      assert DecodeTimes(c, 0) == Ok(c);
    } else {
      SubmitThenAlong(c, rest, m);
    }
  }

  lemma {:induction false} SubmitThenAlong(c: Client, rest: F.Chain, m: nat)
    requires Playing(c, rest) && 1 <= m <= rest.steps
    ensures DecodeTimes(c, m).Ok? && Along(c, rest, DecodeTimes(c, m).value, m)
    decreases m, 0
  {
    var c', rest' := FirstSubmission(c, rest, m);
    DecodeTimesAlong(c', rest', m - 1);
    AlongCompose(c, rest, c', DecodeTimes(c', m - 1).value, m);
  }

  /** The first of `m` submissions: the client `c'` it leaves, still
      playing the one-shorter rest `rest'`, from which the other `m - 1`
      follow. */
  lemma FirstSubmission(c: Client, rest: F.Chain, m: nat) returns (c': Client, rest': F.Chain)
    requires Playing(c, rest) && 1 <= m <= rest.steps
    ensures DecodeTimes(c, m) == DecodeTimes(c', m - 1) && Along(c, rest, c', 1)
    ensures Playing(c', rest') && m - 1 <= rest'.steps && F.PlayChain(c'.data, c'.h264, c'.pos).value == rest'
  {
    assert c.pos != |c.data|;
    SubmitAlong(c, rest);
    c' := DecodeNextFragment(c).value;
    rest' := F.PlayChain(c'.data, c'.h264, c'.pos).value;
    DecodeTimesStep(c, m, c');
  }

  /** The client just after NotifyInitializeDone of a play-through that is
      not the last: `numInFlight` fragments are out, none returned yet. */
  ghost predicate Started(c: Client, ch: F.Chain) {
    && c.live && c.remaining > 0 && c.resetAfter == EndOfStreamReset
    && 1 <= c.numInFlight <= ch.steps && c.outstanding == c.numInFlight
    && c.state == CsInitialized
    && F.PlayChain(c.data, c.h264, 0) == F.Some(ch)
    && F.PlayChain(c.data, c.h264, c.pos).Some?
    && F.PlayChain(c.data, c.h264, c.pos).value.steps + c.numInFlight == ch.steps
  }

  /** What the skip and queue counters will read once the current
      play-through is done. */
  ghost function FinalSkipped(c: Client): nat
    requires F.PlayChain(c.data, c.h264, c.pos).Some?
  {
    c.skipped + F.PlayChain(c.data, c.h264, c.pos).value.skipped
  }

  ghost function FinalQueued(c: Client): nat
    requires F.PlayChain(c.data, c.h264, c.pos).Some?
  {
    c.queued + F.PlayChain(c.data, c.h264, c.pos).value.queued
  }

  /** NotifyInitializeDone at the start of a play-through that is not the
      last submits `numInFlight` fragments. */
  lemma InitializeDoneStarts(c: Client, ch: F.Chain)
    requires c.live && c.remaining > 0 && c.resetAfter == EndOfStreamReset
    requires c.pos == 0 && c.outstanding == 0 && 1 <= c.numInFlight <= ch.steps
    requires F.PlayChain(c.data, c.h264, 0) == F.Some(ch)
    ensures NotifyInitializeDone(c).Ok?
    ensures var d := NotifyInitializeDone(c).value;
            && Started(d, ch) && SameConfig(c, d) && d.remaining == c.remaining
            && d.trace == c.trace + [CsInitialized] && d.done == c.done
            && FinalSkipped(d) == c.skipped + ch.skipped && FinalQueued(d) == c.queued + ch.queued
  {
    var c' := c.(trace := c.trace + [CsInitialized], state := CsInitialized);
    assert SetState(c, CsInitialized) == Ok(c');
    DecodeTimesAlong(c', ch, c.numInFlight);
  }

  // ---------------------------------------------------------------------
  // Returning the buffers

  /** NotifyEndOfBitstreamBuffer while fragments remain submits the next one:
      one more buffer done, the same number outstanding. */
  lemma EndOfBufferSubmits(c: Client, rest: F.Chain)
    requires Playing(c, rest) && c.pos != |c.data| && c.outstanding >= 1
    ensures NotifyEndOfBitstreamBuffer(c).Ok?
    ensures Along(c.(done := c.done + 1, outstanding := c.outstanding - 1), rest,
                  NotifyEndOfBitstreamBuffer(c).value, 1)
  {
    SubmitAlong(c.(done := c.done + 1, outstanding := c.outstanding - 1), rest);
  }

  /** At the end of the data the last returned buffer triggers the flush. */
  lemma EndOfBufferFlushes(c: Client)
    requires c.live && c.remaining > 0 && c.pos == |c.data| && c.outstanding == 1
    ensures NotifyEndOfBitstreamBuffer(c)
            == Ok(c.(done := c.done + 1, outstanding := 0, calls := c.calls + [Flush],
                     trace := c.trace + [CsFlushing], state := CsFlushing))
  {
  }

  /** `d` is `c` once every outstanding buffer has come back and the rest
      `rest` of the data has been submitted and has come back too: the client
      is flushing. */
  ghost predicate Drained(c: Client, rest: F.Chain, d: Client) {
    Flushing(c, d) && DrainCounted(c, rest, d)
  }

  ghost predicate Flushing(c: Client, d: Client) {
    && SameConfig(c, d) && d.remaining == c.remaining && d.live
    && d.pos == |c.data| && d.outstanding == 0
    && d.trace == c.trace + [CsFlushing] && d.state == CsFlushing
  }

  ghost predicate DrainCounted(c: Client, rest: F.Chain, d: Client) {
    && d.done == c.done + rest.steps + c.outstanding
    && d.skipped == c.skipped + rest.skipped && d.queued == c.queued + rest.queued
  }

  lemma DrainedCompose(c: Client, rest: F.Chain, c': Client, rest': F.Chain, d: Client)
    requires Along(c.(done := c.done + 1, outstanding := c.outstanding - 1), rest, c', 1)
    requires rest' == F.PlayChain(c'.data, c'.h264, c'.pos).value
    requires Drained(c', rest', d)
    ensures Drained(c, rest, d)
  {
  }

  lemma AlongCount(c: Client, rest: F.Chain, c': Client, rest': F.Chain)
    requires Along(c.(done := c.done + 1, outstanding := c.outstanding - 1), rest, c', 1)
    requires rest' == F.PlayChain(c'.data, c'.h264, c'.pos).value && c.remaining > 0 && c.outstanding >= 1
    ensures rest'.steps + c'.outstanding == rest.steps + c.outstanding - 1
    ensures Playing(c', rest') && c'.outstanding >= 1
  {
    var c1 := c.(done := c.done + 1, outstanding := c.outstanding - 1);
    assert Submitted(c1, c', 1) && AlongCounted(c1, rest, c', 1);
    assert c'.remaining == c.remaining;
  }

  /** All outstanding buffers coming back, one by one: the client submits the
      rest of the data, then flushes. */
  lemma {:induction false} Drain(c: Client, rest: F.Chain, n: nat)
    requires Playing(c, rest) && c.outstanding >= 1 && n == rest.steps + c.outstanding
    ensures Run(c, Repeat(EndOfBitstreamBuffer, n)).Ok?
    ensures Drained(c, rest, Run(c, Repeat(EndOfBitstreamBuffer, n)).value)
    decreases n, 1
  {
    if c.pos != |c.data| {
      DrainSubmitting(c, rest);
    } else if c.outstanding == 1 {
      DrainLast(c, rest);
    } else {
      DrainWaiting(c, rest);
    }
  }

  /** A buffer comes back while fragments remain: the next one goes out. */
  lemma {:induction false} DrainSubmitting(c: Client, rest: F.Chain)
    requires Playing(c, rest) && c.outstanding >= 1 && c.pos != |c.data|
    ensures Run(c, Repeat(EndOfBitstreamBuffer, rest.steps + c.outstanding)).Ok?
    ensures Drained(c, rest, Run(c, Repeat(EndOfBitstreamBuffer, rest.steps + c.outstanding)).value)
    decreases rest.steps + c.outstanding, 0
  {
    var n := rest.steps + c.outstanding;
    var tail := Repeat(EndOfBitstreamBuffer, n - 1);
    assert Repeat(EndOfBitstreamBuffer, n) == [EndOfBitstreamBuffer] + tail;
    EndOfBufferSubmits(c, rest);
    var c' := NotifyEndOfBitstreamBuffer(c).value;
    var rest' := F.PlayChain(c'.data, c'.h264, c'.pos).value;
    RunCons(c, EndOfBitstreamBuffer, tail, c');
    AlongCount(c, rest, c', rest');
    Drain(c', rest', n - 1);
    DrainedCompose(c, rest, c', rest', Run(c', tail).value);
  }

  /** The last buffer comes back at the end of the data: the client flushes. */
  lemma DrainLast(c: Client, rest: F.Chain)
    requires Playing(c, rest) && c.outstanding == 1 && c.pos == |c.data|
    ensures Run(c, Repeat(EndOfBitstreamBuffer, rest.steps + c.outstanding)).Ok?
    ensures Drained(c, rest, Run(c, Repeat(EndOfBitstreamBuffer, rest.steps + c.outstanding)).value)
  {
    assert rest == F.Chain(0, 0, 0);
    assert Repeat(EndOfBitstreamBuffer, 1) == [EndOfBitstreamBuffer] + [];
    EndOfBufferFlushes(c);
    var c' := NotifyEndOfBitstreamBuffer(c).value;
    RunCons(c, EndOfBitstreamBuffer, [], c');
  }

  /** A buffer comes back at the end of the data with others still out. */
  lemma {:induction false} DrainWaiting(c: Client, rest: F.Chain)
    requires Playing(c, rest) && c.outstanding > 1 && c.pos == |c.data|
    ensures Run(c, Repeat(EndOfBitstreamBuffer, rest.steps + c.outstanding)).Ok?
    ensures Drained(c, rest, Run(c, Repeat(EndOfBitstreamBuffer, rest.steps + c.outstanding)).value)
    decreases rest.steps + c.outstanding, 0
  {
    assert rest == F.Chain(0, 0, 0);
    var n := c.outstanding;
    var tail := Repeat(EndOfBitstreamBuffer, n - 1);
    assert Repeat(EndOfBitstreamBuffer, n) == [EndOfBitstreamBuffer] + tail;
    var c' := c.(done := c.done + 1, outstanding := c.outstanding - 1);
    assert NotifyEndOfBitstreamBuffer(c) == Ok(c');
    RunCons(c, EndOfBitstreamBuffer, tail, c');
    Drain(c', rest, n - 1);
  }

  // ---------------------------------------------------------------------
  // Flush and reset

  /** NotifyFlushDone with play-throughs left after this one asks for a
      reset. */
  lemma FlushDoneContinues(c: Client)
    requires c.live && c.remaining > 1
    ensures NotifyFlushDone(c)
            == Ok(c.(trace := c.trace + [CsFlushed, CsResetting], state := CsResetting,
                     remaining := c.remaining - 1, calls := c.calls + [Reset]))
  {
    assert c.trace + [CsFlushed] + [CsResetting] == c.trace + [CsFlushed, CsResetting];
  }

  /** NotifyResetDone with play-throughs left rewinds and initializes again. */
  lemma ResetDoneReplays(c: Client, ch: F.Chain)
    requires c.live && c.remaining > 0 && c.resetAfter == EndOfStreamReset
    requires c.outstanding == 0 && 1 <= c.numInFlight <= ch.steps
    requires F.PlayChain(c.data, c.h264, 0) == F.Some(ch)
    ensures NotifyResetDone(c).Ok?
    ensures var d := NotifyResetDone(c).value;
            && Started(d, ch) && SameConfig(c, d) && d.remaining == c.remaining
            && d.trace == c.trace + [CsInitialized] && d.done == c.done
            && FinalSkipped(d) == c.skipped + ch.skipped && FinalQueued(d) == c.queued + ch.queued
  {
    InitializeDoneStarts(c.(pos := 0), ch);
  }

  /** The last NotifyFlushDone: the count of play-throughs reaches 0, and the
      decoder goes at once when CS_RESETTING is the deletion state. */
  lemma FlushDoneLast(c: Client)
    requires c.live && c.remaining == 1
    ensures NotifyFlushDone(c).Ok?
    ensures var d := NotifyFlushDone(c).value;
            && d.remaining == 0 && d.done == c.done && d.skipped == c.skipped && d.queued == c.queued
            && SameSettings(c, d) && (d.live ==> d.data == c.data)
            && (d.live <==> c.deleteState != CsResetting)
            && d.trace == c.trace + [CsFlushed, CsResetting]
                          + (if c.deleteState == CsResetting then [CsReset, CsError, CsDestroyed] else [])
            && d.state == if d.live then CsResetting else CsDestroyed
  {
    var c' := c.(trace := c.trace + [CsFlushed], state := CsFlushed);
    var c3 := c'.(remaining := 0, calls := c'.calls + [Reset]);
    assert NotifyFlushDone(c) == SetState(c3, CsResetting);
    var c4 := c3.(trace := c3.trace + [CsResetting], state := CsResetting);
    if c.deleteState == CsResetting {
      DeleteDecoderClosedForm(c4);
      assert StatesAbove(CsResetting) == [CsReset, CsError, CsDestroyed];
    } else {
      assert SetState(c3, CsResetting) == Ok(c4);
    }
  }

  /** The last NotifyResetDone deletes the decoder (through SetState when
      CS_RESET is the deletion state, by the explicit call otherwise); the
      cascade that follows aborts when the deletion state lies above
      CS_RESET. */
  lemma ResetDoneLast(c: Client)
    requires c.live && c.remaining == 0 && c.resetAfter == EndOfStreamReset
    ensures NotifyResetDone(c).Crash? <==> c.deleteState == CsError || c.deleteState == CsDestroyed
    ensures NotifyResetDone(c).Crash? ==> NotifyResetDone(c).reason == DeletedTwice
    ensures NotifyResetDone(c).Ok? ==>
              var d := NotifyResetDone(c).value;
              && !d.live && d.state == CsDestroyed && d.remaining == 0
              && d.trace == c.trace + [CsReset, CsError, CsDestroyed]
              && d.done == c.done && d.skipped == c.skipped && d.queued == c.queued
              && SameSettings(c, d)
  {
    var c' := c.(trace := c.trace + [CsReset], state := CsReset);
    assert StatesAbove(CsReset) == [CsError, CsDestroyed];
    DeleteDecoderClosedForm(c');
    if c.deleteState != CsReset {
      assert SetState(c, CsReset) == Ok(c');
    }
  }

  /** Two callbacks in a row, the first succeeding. */
  lemma RunPair(c: Client, a: Event, b: Event, d: Client)
    requires Step(c, a) == Ok(d)
    ensures Run(c, [a, b]) == Step(d, b)
  {
    assert [a, b] == [a] + [b];
    RunCons(c, a, [b], d);
    assert [b][1..] == [];
    match Step(d, b)
    case Crash(_) =>
    case Ok(e) => assert Run(e, []) == Ok(e);
  }

  // ---------------------------------------------------------------------
  // Play-throughs

  /** `e` is `d`, flushing at the end of the data, once the flush and the
      reset are done and the next play-through has started. */
  ghost predicate Restarted(d: Client, ch: F.Chain, e: Client) {
    && Started(e, ch) && SameConfig(d, e) && e.remaining == d.remaining - 1
    && e.trace == d.trace + [CsFlushed, CsResetting, CsInitialized] && e.done == d.done
    && FinalSkipped(e) == d.skipped + ch.skipped && FinalQueued(e) == d.queued + ch.queued
  }

  /** The flush and the reset that end a play-through that is not the
      last. */
  lemma FlushAndReplay(d: Client, ch: F.Chain)
    requires d.live && d.remaining > 1 && d.resetAfter == EndOfStreamReset
    requires d.outstanding == 0 && 1 <= d.numInFlight <= ch.steps
    requires F.PlayChain(d.data, d.h264, 0) == F.Some(ch)
    ensures Run(d, [FlushDone, ResetDone]).Ok? && Restarted(d, ch, Run(d, [FlushDone, ResetDone]).value)
  {
    FlushDoneContinues(d);
    var d2 := NotifyFlushDone(d).value;
    ResetDoneReplays(d2, ch);
    var e := NotifyResetDone(d2).value;
    RestartedAfterFlush(d, d2, ch, e);
    RunPair(d, FlushDone, ResetDone, d2);
    assert Step(d2, ResetDone) == Ok(e);
  }

  /** The client restarted by the reset that follows a flush: the flush and
      the reset are logged before the re-initialization, one play-through
      fewer remains and the counters carry on into the next play-through. */
  lemma RestartedAfterFlush(d: Client, d2: Client, ch: F.Chain, e: Client)
    requires d2 == d.(trace := d.trace + [CsFlushed, CsResetting], state := CsResetting,
                      remaining := d.remaining - 1, calls := d.calls + [Reset])
    requires && Started(e, ch) && SameConfig(d2, e) && e.remaining == d2.remaining
             && e.trace == d2.trace + [CsInitialized] && e.done == d2.done
             && FinalSkipped(e) == d2.skipped + ch.skipped && FinalQueued(e) == d2.queued + ch.queued
    ensures Restarted(d, ch, e)
  {
    assert d2.trace + [CsInitialized] == d.trace + [CsFlushed, CsResetting, CsInitialized];
  }

  /** How the last play-through ends, from the client `d` flushing at the
      end of the data. */
  ghost predicate Closed(d: Client, r: Outcome<Client>) {
    && (r.Crash? <==> d.deleteState == CsError || d.deleteState == CsDestroyed)
    && (r.Crash? ==> r.reason == DeletedTwice)
    && (r.Ok? ==>
          && !r.value.live && r.value.state == CsDestroyed && r.value.remaining == 0
          && r.value.trace == d.trace + [CsFlushed, CsResetting, CsReset, CsError, CsDestroyed]
          && r.value.done == d.done && r.value.skipped == d.skipped && r.value.queued == d.queued
          && SameSettings(d, r.value))
  }

  /** The flush and the reset of the last play-through. */
  lemma FlushAndDelete(d: Client)
    requires d.live && d.remaining == 1 && d.resetAfter == EndOfStreamReset
    ensures Closed(d, Run(d, [FlushDone, ResetDone]))
  {
    FlushDoneLast(d);
    var d2 := NotifyFlushDone(d).value;
    RunPair(d, FlushDone, ResetDone, d2);
    if d2.live {
      ResetDoneLast(d2);
    }
  }

  /** Every buffer of a play-through coming back ends it with the flush. */
  lemma DrainFromStart(c: Client, ch: F.Chain)
    requires Started(c, ch)
    ensures Run(c, Repeat(EndOfBitstreamBuffer, ch.steps)).Ok?
    ensures Drained(c, F.PlayChain(c.data, c.h264, c.pos).value, Run(c, Repeat(EndOfBitstreamBuffer, ch.steps)).value)
  {
    Drain(c, F.PlayChain(c.data, c.h264, c.pos).value, ch.steps);
  }

  /** `d` is `c` one whole play-through later. */
  ghost predicate NextRound(c: Client, ch: F.Chain, d: Client)
    requires F.PlayChain(c.data, c.h264, c.pos).Some?
  {
    && Started(d, ch) && SameConfig(c, d) && d.remaining == c.remaining - 1
    && d.trace == c.trace + [CsFlushing, CsFlushed, CsResetting, CsInitialized]
    && d.done == c.done + ch.steps
    && FinalSkipped(d) == FinalSkipped(c) + ch.skipped
    && FinalQueued(d) == FinalQueued(c) + ch.queued
  }

  lemma NextRoundCompose(c: Client, ch: F.Chain, d: Client, e: Client)
    requires Started(c, ch)
    requires Drained(c, F.PlayChain(c.data, c.h264, c.pos).value, d) && Restarted(d, ch, e)
    ensures NextRound(c, ch, e)
  {
    assert d.trace + [CsFlushed, CsResetting, CsInitialized]
           == c.trace + [CsFlushing, CsFlushed, CsResetting, CsInitialized];
  }

  /** A play-through that is not the last: every buffer comes back, the
      client flushes, resets and starts again from the first fragment. */
  lemma RoundContinues(c: Client, ch: F.Chain)
    requires Started(c, ch) && c.remaining > 1
    ensures Run(c, PlayThroughEvents(ch.steps)).Ok?
    ensures NextRound(c, ch, Run(c, PlayThroughEvents(ch.steps)).value)
  {
    DrainFromStart(c, ch);
    var d1 := Run(c, Repeat(EndOfBitstreamBuffer, ch.steps)).value;
    RunThen(c, Repeat(EndOfBitstreamBuffer, ch.steps), [FlushDone, ResetDone], d1);
    FlushAndReplay(d1, ch);
    NextRoundCompose(c, ch, d1, Run(d1, [FlushDone, ResetDone]).value);
  }

  /** How the last play-through ends, from its start `c`. */
  ghost predicate LastRound(c: Client, r: Outcome<Client>, steps: nat)
    requires F.PlayChain(c.data, c.h264, c.pos).Some?
  {
    && (r.Crash? <==> c.deleteState == CsError || c.deleteState == CsDestroyed)
    && (r.Crash? ==> r.reason == DeletedTwice)
    && (r.Ok? ==>
          && !r.value.live && r.value.state == CsDestroyed && r.value.remaining == 0
          && r.value.trace == c.trace + LastStates
          && r.value.done == c.done + steps
          && r.value.skipped == FinalSkipped(c) && r.value.queued == FinalQueued(c)
          && SameSettings(c, r.value))
  }

  lemma LastRoundCompose(c: Client, ch: F.Chain, d: Client, r: Outcome<Client>)
    requires Started(c, ch)
    requires Drained(c, F.PlayChain(c.data, c.h264, c.pos).value, d) && Closed(d, r)
    ensures LastRound(c, r, ch.steps)
  {
    assert d.trace + [CsFlushed, CsResetting, CsReset, CsError, CsDestroyed] == c.trace + LastStates;
  }

  /** The last play-through, ending with the decoder deleted, or aborting
      when the deletion state is CS_ERROR or CS_DESTROYED. */
  lemma RoundEnds(c: Client, ch: F.Chain)
    requires Started(c, ch) && c.remaining == 1
    ensures LastRound(c, Run(c, PlayThroughEvents(ch.steps)), ch.steps)
  {
    DrainFromStart(c, ch);
    var d1 := Run(c, Repeat(EndOfBitstreamBuffer, ch.steps)).value;
    RunThen(c, Repeat(EndOfBitstreamBuffer, ch.steps), [FlushDone, ResetDone], d1);
    FlushAndDelete(d1);
    LastRoundCompose(c, ch, d1, Run(d1, [FlushDone, ResetDone]));
  }

  /** How a run ends: it aborts exactly for a deletion state of CS_ERROR or
      CS_DESTROYED; otherwise the decoder is gone and the notifications and
      counters are the given ones. */
  ghost predicate EndsAs(r: Outcome<Client>, deleteState: int, trace: seq<ClientState>,
                         done: int, skipped: int, queued: int) {
    && (r.Crash? <==> deleteState == CsError || deleteState == CsDestroyed)
    && (r.Crash? ==> r.reason == DeletedTwice)
    && (r.Ok? ==> Finished(r.value, trace, done, skipped, queued))
  }

  ghost predicate Finished(d: Client, trace: seq<ClientState>, done: int, skipped: int, queued: int) {
    && !d.live && d.state == CsDestroyed && d.trace == trace
    && d.done == done && d.skipped == skipped && d.queued == queued
  }

  /** `p` play-throughs from the start of the first. */
  lemma {:induction false} PlayThroughs(c: Client, ch: F.Chain, p: nat)
    requires Started(c, ch) && c.remaining == p
    ensures EndsAs(Run(c, Rounds(ch.steps, p)), c.deleteState, c.trace + Replays(p - 1) + LastStates,
                   c.done + p * ch.steps, FinalSkipped(c) + (p - 1) * ch.skipped,
                   FinalQueued(c) + (p - 1) * ch.queued)
    decreases p, 1
  {
    if p == 1 {
      assert Rounds(ch.steps, 1) == PlayThroughEvents(ch.steps) + [];
      assert PlayThroughEvents(ch.steps) + [] == PlayThroughEvents(ch.steps);
      RoundEnds(c, ch);
      assert c.trace + Replays(0) + LastStates == c.trace + LastStates;
    } else {
      ReplayThenPlay(c, ch, p);
    }
  }

  lemma {:induction false} ReplayThenPlay(c: Client, ch: F.Chain, p: nat)
    requires Started(c, ch) && c.remaining == p && p > 1
    ensures EndsAs(Run(c, Rounds(ch.steps, p)), c.deleteState, c.trace + Replays(p - 1) + LastStates,
                   c.done + p * ch.steps, FinalSkipped(c) + (p - 1) * ch.skipped,
                   FinalQueued(c) + (p - 1) * ch.queued)
    decreases p, 0
  {
    RoundContinues(c, ch);
    var d := Run(c, PlayThroughEvents(ch.steps)).value;
    RunThen(c, PlayThroughEvents(ch.steps), Rounds(ch.steps, p - 1), d);
    PlayThroughs(d, ch, p - 1);
    ReplayArgs(c, d, ch, p);
  }

  lemma Times(p: int, x: int)
    requires p >= 1
    ensures p * x == x + (p - 1) * x
  {
  }

  /** The bookkeeping of the inductive step of PlayThroughs. */
  lemma ReplayArgs(c: Client, d: Client, ch: F.Chain, p: nat)
    requires p > 1
    requires F.PlayChain(c.data, c.h264, c.pos).Some? && F.PlayChain(d.data, d.h264, d.pos).Some?
    requires d.trace == c.trace + [CsFlushing, CsFlushed, CsResetting, CsInitialized]
    requires d.done == c.done + ch.steps
    requires FinalSkipped(d) == FinalSkipped(c) + ch.skipped && FinalQueued(d) == FinalQueued(c) + ch.queued
    ensures d.trace + Replays(p - 2) + LastStates == c.trace + Replays(p - 1) + LastStates
    ensures d.done + (p - 1) * ch.steps == c.done + p * ch.steps
    ensures FinalSkipped(d) + (p - 2) * ch.skipped == FinalSkipped(c) + (p - 1) * ch.skipped
    ensures FinalQueued(d) + (p - 2) * ch.queued == FinalQueued(c) + (p - 1) * ch.queued
  {
    Times(p, ch.steps);
    Times(p - 1, ch.skipped);
    Times(p - 1, ch.queued);
    assert Replays(p - 1) == [CsFlushing, CsFlushed, CsResetting, CsInitialized] + Replays(p - 2);
  }

  // ---------------------------------------------------------------------
  // The whole test

  /** The test client set up for END_OF_STREAM_RESET. */
  function TestClient(data: seq<Byte>, h264: bool, numInFlight: int, numPlayThroughs: int,
                      deleteState: int, delayReuseAfter: int, fps: int): (r: Outcome<Client>)
    ensures r.Ok? <==> numInFlight > 0 && numPlayThroughs > 0 && fps >= 0
  {
    NewClient(data, h264, numInFlight, numPlayThroughs, EndOfStreamReset, deleteState, delayReuseAfter, fps)
  }

  /** Creating and initializing the decoder starts the first play-through. */
  lemma Opening(data: seq<Byte>, h264: bool, numInFlight: int, p: int, deleteState: int,
                delayReuseAfter: int, fps: int, ch: F.Chain)
    requires F.PlayChain(data, h264, 0) == F.Some(ch)
    requires 1 <= numInFlight <= ch.steps && p >= 1 && fps >= 0
    ensures var c0 := TestClient(data, h264, numInFlight, p, deleteState, delayReuseAfter, fps).value;
            && Run(c0, [CreateDecoderEvent(true), InitializeDone]).Ok?
            && var c := Run(c0, [CreateDecoderEvent(true), InitializeDone]).value;
               && Started(c, ch) && c.remaining == p && c.deleteState == deleteState
               && c.trace == [CsDecoderSet, CsInitialized] && c.done == 0
               && FinalSkipped(c) == ch.skipped && FinalQueued(c) == ch.queued
  {
    var c0 := TestClient(data, h264, numInFlight, p, deleteState, delayReuseAfter, fps).value;
    assert !c0.live && c0.trace == [] && c0.remaining == p && c0.pos == 0 && c0.outstanding == 0;
    var c1 := c0.(live := true, trace := [CsDecoderSet], state := CsDecoderSet);
    assert c0.trace + [CsDecoderSet] == [CsDecoderSet];
    assert SetState(c0.(live := true), CsDecoderSet) == Ok(c1);
    var c2 := c1.(calls := c1.calls + [Initialize]);
    assert CreateDecoder(c0, true) == Ok(c2);
    RunPair(c0, CreateDecoderEvent(true), InitializeDone, c2);
    InitializeDoneStarts(c2, ch);
  }

  /** A decoder that returns every buffer, completes every flush and every
      reset: after `p` play-throughs of `ch.steps` fragments the client has
      notified DECODER_SET, INITIALIZED, then FLUSHING, FLUSHED, RESETTING and
      INITIALIZED again for each replay, and FLUSHING, FLUSHED, RESETTING,
      RESET, ERROR, DESTROYED for the last; the decoder is gone; and the
      counters, never reset between play-throughs, add up `p` play-throughs.
      Whatever the deletion state, nothing is deleted before the last flush,
      and only CS_ERROR and CS_DESTROYED as deletion states abort the run. */
  lemma WholeRun(data: seq<Byte>, h264: bool, numInFlight: int, p: int, deleteState: int,
                 delayReuseAfter: int, fps: int, ch: F.Chain)
    requires F.PlayChain(data, h264, 0) == F.Some(ch)
    requires 1 <= numInFlight <= ch.steps && p >= 1 && fps >= 0
    ensures EndsAs(Run(TestClient(data, h264, numInFlight, p, deleteState, delayReuseAfter, fps).value,
                       Schedule(ch.steps, p)),
                   deleteState, LifecycleTrace(p), p * ch.steps, p * ch.skipped, p * ch.queued)
  {
    var c0 := TestClient(data, h264, numInFlight, p, deleteState, delayReuseAfter, fps).value;
    Opening(data, h264, numInFlight, p, deleteState, delayReuseAfter, fps, ch);
    var c := Run(c0, [CreateDecoderEvent(true), InitializeDone]).value;
    assert Run(c0, Schedule(ch.steps, p)) == Run(c, Rounds(ch.steps, p)) by {
      RunThen(c0, [CreateDecoderEvent(true), InitializeDone], Rounds(ch.steps, p), c);
    }
    PlayThroughs(c, ch, p);
    Times(p, ch.skipped);
    Times(p, ch.queued);
    EndsAsAgain(Run(c, Rounds(ch.steps, p)), deleteState,
                c.trace + Replays(p - 1) + LastStates, LifecycleTrace(p),
                c.done + p * ch.steps, p * ch.steps,
                FinalSkipped(c) + (p - 1) * ch.skipped, p * ch.skipped,
                FinalQueued(c) + (p - 1) * ch.queued, p * ch.queued);
  }

  /** EndsAs with its expected values rewritten to equal ones. */
  lemma EndsAsAgain(r: Outcome<Client>, deleteState: int, trace: seq<ClientState>, trace': seq<ClientState>,
                    done: int, done': int, skipped: int, skipped': int, queued: int, queued': int)
    requires EndsAs(r, deleteState, trace, done, skipped, queued)
    requires trace == trace' && done == done' && skipped == skipped' && queued == queued'
    ensures EndsAs(r, deleteState, trace', done', skipped', queued')
  {
  }

  /** The checks the test makes after a single END_OF_STREAM_RESET
      play-through with a deletion state of CS_FLUSHED or later: every
      fragment was either skipped or queued (for H.264 that is every NALU of
      the stream), and every queued fragment came back. */
  lemma SinglePlayThroughChecks(data: seq<Byte>, h264: bool, numInFlight: int, deleteState: int,
                                delayReuseAfter: int, fps: int, ch: F.Chain)
    requires F.PlayChain(data, h264, 0) == F.Some(ch)
    requires 1 <= numInFlight <= ch.steps && fps >= 0
    requires deleteState != CsError && deleteState != CsDestroyed
    ensures var r := Run(TestClient(data, h264, numInFlight, 1, deleteState, delayReuseAfter, fps).value,
                         Schedule(ch.steps, 1));
            && r.Ok?
            && r.value.done == r.value.queued
            && r.value.skipped + r.value.queued == ch.skipped + ch.queued
            && (h264 ==> r.value.skipped + r.value.queued == F.CountStartCodes(data, 0))
            && (!h264 ==> r.value.skipped == 0 && r.value.queued == ch.steps)
  {
    WholeRun(data, h264, numInFlight, 1, deleteState, delayReuseAfter, fps, ch);
    if h264 {
      F.H264PlayThroughCountsEveryNalu(data, ch);
    } else {
      F.IvfChainQueuesEveryFrame(data, 0, ch);
    }
  }

  // ---------------------------------------------------------------------
  // The other reset points

  /** NotifyResetDone after a mid-stream reset submits exactly one fragment
      from the rewound cursor and reverts to an end-of-stream reset. */
  lemma ResetDoneMidStream(c: Client, rest: F.Chain)
    requires c.resetAfter == MidStreamReset && Playing(c, rest) && c.pos != |c.data|
    ensures NotifyResetDone(c).Ok?
    ensures Along(c.(resetAfter := EndOfStreamReset), rest, NotifyResetDone(c).value, 1)
  {
    SubmitAlong(c.(resetAfter := EndOfStreamReset), rest);
  }

  /** NotifyResetDone after a start-of-stream reset submits `numInFlight`
      fragments, as NotifyInitializeDone would have. */
  lemma ResetDoneStartOfStream(c: Client, rest: F.Chain)
    requires c.resetAfter == StartOfStreamReset && Playing(c, rest) && 0 <= c.numInFlight <= rest.steps
    ensures NotifyResetDone(c).Ok?
    ensures Along(c.(resetAfter := EndOfStreamReset), rest, NotifyResetDone(c).value, c.numInFlight)
  {
    DecodeTimesAlong(c.(resetAfter := EndOfStreamReset), rest, c.numInFlight);
  }
}
