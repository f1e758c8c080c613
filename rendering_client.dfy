/** GLRenderingVDAClient as an object: its member variables are fields and
    each callback changes them in place, in the order the client's code does.
    Every callback is proved to do exactly what the corresponding function of
    ClientModel says about the client's value, so everything proved about
    those functions (the decode accounting, the picture-buffer pool, the
    whole-test run) holds of this object as well. */
module RenderingClient {
  import opened ClientModel
  import F = Fragmenter

  /** How a callback ends: normally, or in the CHECK that aborts. */
  datatype Status = Fine | Aborted(reason: Reason)

  /** The callback ended as the function says, in the state it says. */
  ghost predicate Matches(o: Outcome<Client>, st: Status, after: Client) {
    match o
    case Crash(why) => st == Aborted(why)
    case Ok(c) => st == Fine && after == c
  }

  /** GetBytesForFirstFragment / GetBytesForNextFragment: the fragment at
      cursor `pos`, found by the fragmenter's scanning loops. */
  method NextFragment(data: seq<Byte>, h264: bool, pos: nat) returns (r: F.Result<F.Fragment>)
    ensures r == F.FragmentAt(data, h264, pos)
  {
    if !h264 {
      return F.NextIvfFrame(data, pos);
    }
    var start := pos;
    var skipped := 0;
    if pos == 0 {
      var search := F.FindFirstSps(data, 0);
      match search
      case SearchFailed(f) =>
        return F.Fail(f);
      case NotFound(k) =>
        return F.Ok(F.Fragment([], 0, k, 0));
      case Found(at, k) =>
        start, skipped := at, k;
    }
    var end := F.GetBytesForNextNalu(data, start);
    if end.Fail? {
      return F.Fail(end.failure);
    }
    if start > |data| {
      return F.Fail(F.CursorPastEnd);
    }
    r := F.Ok(F.Fragment(data[start..end.value], end.value, skipped, if end.value != start then 1 else 0));
  }

  /** The cases of DecodeNextFragment on a live client, one at a time. */
  lemma DecodeAtEnd(c: Client)
    requires c.live && c.pos == |c.data|
    ensures ClientModel.DecodeNextFragment(c)
            == if c.outstanding == 0 then ClientModel.SetState(c.(calls := c.calls + [Flush]), CsFlushing) else Ok(c)
  {
  }

  lemma DecodeFails(c: Client, f: F.Failure)
    requires c.live && c.pos != |c.data| && F.FragmentAt(c.data, c.h264, c.pos) == F.Fail(f)
    ensures ClientModel.DecodeNextFragment(c) == Crash(Bitstream(f))
  {
  }

  lemma DecodeSubmits(c: Client, frag: F.Fragment, c': Client)
    requires c.live && c.pos != |c.data| && F.FragmentAt(c.data, c.h264, c.pos) == F.Ok(frag)
    requires c' == AfterSubmit(c, frag)
    ensures ClientModel.DecodeNextFragment(c)
            == if c'.remaining == 0 && -c'.deleteState == c'.nextId then ClientModel.DeleteDecoder(c') else Ok(c')
  {
  }

  class GLRenderingClient {
    var data: seq<Byte>
    const h264: bool
    const numInFlight: int
    var outstanding: int
    var pos: nat
    var nextId: int
    var live: bool
    var textures: set<int>
    var remaining: int
    var resetAfter: int
    const deleteState: int
    var state: ClientState
    var skipped: nat
    var queued: nat
    var decoded: nat
    var done: nat
    var buffers: map<int, PictureBuffer>
    const delayReuseAfter: int
    const throttled: bool
    var trace: seq<ClientState>
    var calls: seq<DecoderCall>

    /** The client's value. */
    function Model(): Client
      reads this
    {
      Client(data, h264, numInFlight, outstanding, pos, nextId, live, textures, remaining, resetAfter,
             deleteState, state, skipped, queued, decoded, done, buffers, delayReuseAfter, throttled,
             trace, calls)
    }

    /** The constructor; its CHECKs are the caller's obligations. */
    constructor(data: seq<Byte>, h264: bool, numInFlight: int, numPlayThroughs: int,
                resetAfter: int, deleteState: int, delayReuseAfter: int, fps: int)
      requires numInFlight > 0 && numPlayThroughs > 0 && fps >= 0
      ensures NewClient(data, h264, numInFlight, numPlayThroughs, resetAfter, deleteState,
                        delayReuseAfter, fps) == Ok(Model())
    {
      this.data, this.h264, this.numInFlight := data, h264, numInFlight;
      outstanding, pos, nextId, live, textures := 0, 0, 0, false, {};
      remaining, this.resetAfter, this.deleteState, state := numPlayThroughs, resetAfter, deleteState, CsCreated;
      skipped, queued, decoded, done, buffers := 0, 0, 0, 0, map[];
      this.delayReuseAfter, throttled, trace, calls := delayReuseAfter, fps > 0, [], [];
    }

    method SetState(s: ClientState) returns (st: Status)
      modifies this
      ensures Matches(ClientModel.SetState(old(Model()), s), st, Model())
      decreases if live then 1 else 0, 1
    {
      trace, state := trace + [s], s;
      if remaining == 0 && s == deleteState {
        if !live {
          return Aborted(DeletedTwice);
        }
        st := DeleteDecoder();
      } else {
        st := Fine;
      }
    }

    /** DeleteDecoder, with its cascade through the states above the
        current one. */
    method DeleteDecoder() returns (st: Status)
      modifies this
      ensures Matches(ClientModel.DeleteDecoder(old(Model())), st, Model())
      decreases if live then 1 else 0, 0
    {
      if !live {
        return Fine;
      }
      DestroyDecoder();
      var i := state + 1;
      while i < CsMax
        invariant !live && 0 <= i
        invariant Cascade(Model(), i) == ClientModel.DeleteDecoder(old(Model()))
        decreases CsMax - i
      {
        st := SetState(i);
        if st.Aborted? {
          return;
        }
        i := i + 1;
      }
      st := Fine;
    }

    /** Destroys the decoder: logs the Destroy request, then drops the
        decoder, the encoded data and the textures. */
    method DestroyDecoder()
      modifies this
      ensures Model() == old(Model()).(live := false, data := [], textures := {}, calls := old(calls) + [Destroy])
    {
      calls, live, data, textures := calls + [Destroy], false, [], {};
    }

    method DecodeNextFragment() returns (st: Status)
      modifies this
      ensures Matches(ClientModel.DecodeNextFragment(old(Model())), st, Model())
    {
      if !live {
        return Fine;
      }
      ghost var c := Model();
      if pos == |data| {
        DecodeAtEnd(c);
        if outstanding == 0 {
          calls := calls + [Flush];
          st := SetState(CsFlushing);
        } else {
          st := Fine;
        }
        return;
      }
      var next := NextFragment(data, h264, pos);
      if next.Fail? {
        DecodeFails(c, next.failure);
        return Aborted(Bitstream(next.failure));
      }
      var frag := next.value;
      Submit(frag);
      DecodeSubmits(c, frag, Model());
      if remaining == 0 && -deleteState == nextId {
        st := DeleteDecoder();
      } else {
        st := Fine;
      }
    }

    /** Hands one fragment to the decoder: counts it, logs the Decode
        request under the current bitstream id, advances the id within its
        30 bits and moves the cursor past the fragment. */
    method Submit(frag: F.Fragment)
      modifies this
      ensures skipped == old(skipped) + frag.skipped && queued == old(queued) + frag.queued
      ensures calls == old(calls) + [Decode(old(nextId), frag.bytes)] && nextId == (old(nextId) + 1) % IdModulus
      ensures outstanding == old(outstanding) + 1 && pos == frag.end
      ensures data == old(data) && live == old(live) && textures == old(textures) && remaining == old(remaining)
      ensures resetAfter == old(resetAfter) && state == old(state) && decoded == old(decoded) && done == old(done)
      ensures buffers == old(buffers) && trace == old(trace)
    {
      skipped, queued, calls, nextId, outstanding, pos :=
        skipped + frag.skipped, queued + frag.queued, calls + [Decode(nextId, frag.bytes)],
        (nextId + 1) % IdModulus, outstanding + 1, frag.end;
    }

    /** The loop `for (i = 0; i < n; ++i) DecodeNextFragment();`. */
    method DecodeRepeatedly(n: int) returns (st: Status)
      modifies this
      ensures Matches(DecodeTimes(old(Model()), n), st, Model())
    {
      var i := 0;
      while i < n
        invariant 0 <= i && (i <= n || i == 0)
        invariant DecodeTimes(Model(), n - i) == DecodeTimes(old(Model()), n)
      {
        st := DecodeNextFragment();
        if st.Aborted? {
          return;
        }
        i := i + 1;
      }
      st := Fine;
    }

    method CreateDecoder(initializeOk: bool) returns (st: Status)
      modifies this
      ensures Matches(ClientModel.CreateDecoder(old(Model()), initializeOk), st, Model())
    {
      if live {
        return Aborted(DecoderAlreadySet);
      }
      live := true;
      st := SetState(CsDecoderSet);
      if st.Aborted? || !live {
        return;
      }
      if !initializeOk {
        return Aborted(InitializeFailed);
      }
      calls := calls + [Initialize];
    }

    method NotifyInitializeDone() returns (st: Status)
      modifies this
      ensures Matches(ClientModel.NotifyInitializeDone(old(Model())), st, Model())
    {
      st := SetState(CsInitialized);
      if st.Aborted? {
        return;
      }
      if resetAfter == StartOfStreamReset {
        if !live {
          return Aborted(NoDecoder);
        }
        calls := calls + [Reset];
        return;
      }
      st := DecodeRepeatedly(numInFlight);
      if st.Aborted? {
        return;
      }
      if outstanding != numInFlight {
        return Aborted(InFlightShortfall);
      }
    }

    method NotifyEndOfBitstreamBuffer() returns (st: Status)
      modifies this
      ensures Matches(ClientModel.NotifyEndOfBitstreamBuffer(old(Model())), st, Model())
    {
      done, outstanding := done + 1, outstanding - 1;
      assert Model() == old(Model()).(done := old(done) + 1, outstanding := old(outstanding) - 1);
      st := DecodeNextFragment();
    }

    method NotifyFlushDone() returns (st: Status)
      modifies this
      ensures Matches(ClientModel.NotifyFlushDone(old(Model())), st, Model())
    {
      if !live {
        return Fine;
      }
      st := SetState(CsFlushed);
      if st.Aborted? {
        return;
      }
      remaining := remaining - 1;
      if remaining < 0 {
        return Aborted(PlayThroughsExhausted);
      }
      if !live {
        return;
      }
      calls := calls + [Reset];
      st := SetState(CsResetting);
    }

    method NotifyResetDone() returns (st: Status)
      modifies this
      ensures Matches(ClientModel.NotifyResetDone(old(Model())), st, Model())
    {
      if !live {
        return Fine;
      }
      if resetAfter == MidStreamReset {
        resetAfter := EndOfStreamReset;
        st := DecodeNextFragment();
        return;
      } else if resetAfter == StartOfStreamReset {
        resetAfter := EndOfStreamReset;
        st := DecodeRepeatedly(numInFlight);
        return;
      }
      if remaining != 0 {
        pos := 0;
        st := NotifyInitializeDone();
        return;
      }
      st := SetState(CsReset);
      if st.Aborted? {
        return;
      }
      if live {
        st := DeleteDecoder();
      }
    }

    method NotifyError() returns (st: Status)
      modifies this
      ensures Matches(ClientModel.NotifyError(old(Model())), st, Model())
    {
      st := SetState(CsError);
    }

    /** PictureReady; `arrivals` is the throttling wrapper's picture count. */
    method PictureReady(pic: Picture, arrivals: nat) returns (st: Status)
      modifies this
      ensures Matches(ClientModel.PictureReady(old(Model()), pic, arrivals), st, Model())
    {
      if state >= CsReset {
        return Aborted(PictureAfterReset);
      }
      if !live {
        return Fine;
      }
      if pic.bitstreamBufferId > nextId {
        return Aborted(FutureBitstreamId);
      }
      ghost var c1 := Model().(decoded := decoded + 1);
      decoded := decoded + 1;
      var n := if throttled then arrivals else decoded;
      assert Model() == c1;
      if remaining == 1 && resetAfter == n {
        RestartMidStream();
      }
      if pic.pictureBufferId !in buffers {
        return Aborted(UnknownPictureBuffer);
      }
      var reuse := if n > delayReuseAfter then ReuseAfterDelay(pic.pictureBufferId)
                   else ReusePictureBuffer(pic.pictureBufferId);
      Request(reuse);
      st := Fine;
    }

    /** The mid-stream reset PictureReady starts: remembered in resetAfter,
        requested from the decoder, the cursor back at the start. */
    method RestartMidStream()
      modifies this
      ensures Model() == old(Model()).(resetAfter := MidStreamReset, calls := old(calls) + [Reset], pos := 0)
    {
      resetAfter, calls, pos := MidStreamReset, calls + [Reset], 0;
    }

    /** Logs one request to the decoder and changes nothing else. */
    method Request(call: DecoderCall)
      modifies this
      ensures Model() == old(Model()).(calls := old(calls) + [call])
    {
      calls := calls + [call];
    }

    /** ProvidePictureBuffers: `newTextures` are the texture ids the
        rendering helper creates, one per requested buffer. */
    method ProvidePictureBuffers(width: int, height: int, newTextures: seq<int>) returns (st: Status)
      modifies this
      ensures Matches(ClientModel.ProvidePictureBuffers(old(Model()), width, height, newTextures), st, Model())
    {
      if !live {
        return Fine;
      }
      var handed: seq<PictureBuffer> := [];
      var i := 0;
      while i < |newTextures|
        invariant i <= |newTextures| && live && calls == old(calls)
        invariant Model() == old(Model()).(textures := textures, buffers := buffers)
        invariant AddBuffers(textures, buffers, width, height, newTextures[i..], handed)
                  == AddBuffers(old(textures), old(buffers), width, height, newTextures, [])
      {
        var id := |buffers|;
        var t := newTextures[i];
        assert newTextures[i..][1..] == newTextures[i + 1..];
        if t in textures {
          return Aborted(TextureReused);
        }
        textures := textures + {t};
        if id in buffers {
          return Aborted(PictureIdTaken);
        }
        var b := PictureBuffer(id, width, height, t);
        buffers := buffers[id := b];
        handed := handed + [b];
        i := i + 1;
      }
      calls := calls + [AssignPictureBuffers(handed)];
      st := Fine;
    }

    method DismissPictureBuffer(id: int) returns (st: Status)
      modifies this
      ensures Matches(ClientModel.DismissPictureBuffer(old(Model()), id), st, Model())
    {
      if id !in buffers {
        return Aborted(UnknownPictureBuffer);
      }
      var t := buffers[id].textureId;
      if t !in textures {
        return Aborted(TextureNotOutstanding);
      }
      textures := textures - {t};
      buffers := buffers - {id};
      st := Fine;
    }

    method NotifyFrameDropped(id: int) returns (st: Status)
      modifies this
      ensures Matches(ClientModel.NotifyFrameDropped(old(Model()), id), st, Model())
    {
      if !live {
        return Aborted(NoDecoder);
      }
      calls := calls + [ReusePictureBuffer(id)];
      st := Fine;
    }

    /** The destructor. */
    method Destruct() returns (st: Status)
      modifies this
      ensures Matches(ClientModel.Destruct(old(Model())), st, Model())
    {
      st := DeleteDecoder();
      if st.Aborted? {
        return;
      }
      buffers := map[];
      st := SetState(CsDestroyed);
    }
  }
}
