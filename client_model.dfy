/** The decode test client (GLRenderingVDAClient) as a value: every callback
    the decoder can make is a function from the client's state to the next
    state, or to the CHECK that aborts the process. Requests the client makes
    of the decoder are appended to `calls`; state notifications to `trace`. */
module ClientModel {
  import F = Fragmenter

  type Byte = F.Byte

  /** ClientState, ordered as the test relies on. */
  type ClientState = s: int | 0 <= s <= 8

  const CsCreated: ClientState := 0
  const CsDecoderSet: ClientState := 1
  const CsInitialized: ClientState := 2
  const CsFlushing: ClientState := 3
  const CsFlushed: ClientState := 4
  const CsResetting: ClientState := 5
  const CsReset: ClientState := 6
  const CsError: ClientState := 7
  const CsDestroyed: ClientState := 8
  const CsMax: int := 9

  /** ResetPoint: values of `reset_after_frame_num` other than a frame number. */
  const StartOfStreamReset: int := -3
  const MidStreamReset: int := -2
  const EndOfStreamReset: int := -1

  /** Bitstream buffer ids are kept to 30 bits. */
  const IdModulus: int := 0x4000_0000

  datatype PictureBuffer = PictureBuffer(id: int, width: int, height: int, textureId: int)

  datatype Picture = Picture(pictureBufferId: int, bitstreamBufferId: int)

  /** Requests made of the decoder, in order. */
  datatype DecoderCall =
    | Initialize
    | Decode(bitstreamBufferId: int, bytes: seq<Byte>)
    | Flush
    | Reset
    | Destroy
    | AssignPictureBuffers(buffers: seq<PictureBuffer>)
    | ReusePictureBuffer(pictureBufferId: int)
    | ReuseAfterDelay(pictureBufferId: int)

  /** Why the process aborts: the CHECK or DCHECK that fails, or a call
      through the null decoder pointer. */
  datatype Reason =
    | BadParameters
    | DecoderAlreadySet
    | InitializeFailed
    | DeletedTwice
    | NoDecoder
    | InFlightShortfall
    | PlayThroughsExhausted
    | PictureAfterReset
    | FutureBitstreamId
    | UnknownPictureBuffer
    | TextureReused
    | PictureIdTaken
    | TextureNotOutstanding
    | Bitstream(failure: F.Failure)

  datatype Outcome<T> = Ok(value: T) | Crash(reason: Reason)

  datatype Client = Client(
    data: seq<Byte>,           // encoded_data_, emptied by DeleteDecoder
    h264: bool,                // which fragmenter the profile selects
    numInFlight: int,
    outstanding: int,
    pos: nat,                  // encoded_data_next_pos_to_decode_
    nextId: int,               // next_bitstream_buffer_id_
    live: bool,                // the decoder exists
    textures: set<int>,        // outstanding_texture_ids_
    remaining: int,            // remaining_play_throughs_
    resetAfter: int,           // reset_after_frame_num_
    deleteState: int,          // delete_decoder_state_
    state: ClientState,
    skipped: nat,
    queued: nat,
    decoded: nat,
    done: nat,
    buffers: map<int, PictureBuffer>,
    delayReuseAfter: int,
    throttled: bool,           // the throttling wrapper sits in front
    trace: seq<ClientState>,
    calls: seq<DecoderCall>)

  /** The constructor: the in-flight budget and the play-through count must
      be positive, the rendering rate not negative; a positive rate puts the
      throttling wrapper in front. */
  function NewClient(data: seq<Byte>, h264: bool, numInFlight: int, numPlayThroughs: int,
                     resetAfter: int, deleteState: int, delayReuseAfter: int, fps: int): (r: Outcome<Client>)
    ensures r.Ok? <==> numInFlight > 0 && numPlayThroughs > 0 && fps >= 0
    ensures r.Ok? ==> !r.value.live && r.value.state == CsCreated && r.value.trace == []
                      && r.value.remaining == numPlayThroughs && r.value.throttled == (fps > 0)
  {
    if numInFlight <= 0 || numPlayThroughs <= 0 || fps < 0 then Crash(BadParameters)
    else Ok(Client(data, h264, numInFlight, 0, 0, 0, false, {}, numPlayThroughs, resetAfter,
                   deleteState, CsCreated, 0, 0, 0, 0, map[], delayReuseAfter, fps > 0, [], []))
  }

  /** The fields that SetState and DeleteDecoder leave alone. */
  ghost predicate SameCounters(c: Client, d: Client) {
    d.h264 == c.h264 && d.numInFlight == c.numInFlight && d.outstanding == c.outstanding
    && d.pos == c.pos && d.nextId == c.nextId && d.remaining == c.remaining
    && d.resetAfter == c.resetAfter && d.deleteState == c.deleteState
    && d.skipped == c.skipped && d.queued == c.queued && d.decoded == c.decoded
    && d.done == c.done && d.buffers == c.buffers && d.delayReuseAfter == c.delayReuseAfter
    && d.throttled == c.throttled
  }

  /** The states strictly above `s`, in increasing order. */
  function StatesAbove(s: ClientState): (r: seq<ClientState>)
    ensures |r| == 8 - s
    ensures forall k :: 0 <= k < |r| ==> r[k] == s + 1 + k
    decreases 8 - s
  {
    if s == CsDestroyed then [] else [s + 1 as ClientState] + StatesAbove(s + 1)
  }

  /** SetState: notify, record, and delete the decoder when this is the
      configured deletion state of the last play-through. */
  function SetState(c: Client, s: ClientState): (r: Outcome<Client>)
    ensures r.Ok? ==> SameCounters(c, r.value)
    ensures r.Ok? && !c.live ==> !r.value.live
    decreases if c.live then 1 else 0, 1, 0
  {
    var c' := c.(trace := c.trace + [s], state := s);
    if c.remaining == 0 && s == c.deleteState then
      if !c.live then Crash(DeletedTwice) else DeleteDecoder(c')
    else Ok(c')
  }

  /** DeleteDecoder: destroy the decoder, drop the data and the textures, and
      notify every state above the current one. */
  function DeleteDecoder(c: Client): (r: Outcome<Client>)
    ensures r.Ok? ==> SameCounters(c, r.value) && !r.value.live
    decreases if c.live then 1 else 0, 0, 0
  {
    if !c.live then Ok(c)
    else Cascade(c.(live := false, data := [], textures := {}, calls := c.calls + [Destroy]), c.state + 1)
  }

  /** The cascade loop of DeleteDecoder, from state `i` up to CS_DESTROYED. */
  function Cascade(c: Client, i: int): (r: Outcome<Client>)
    requires !c.live && 0 <= i
    ensures r.Ok? ==> SameCounters(c, r.value) && !r.value.live
    decreases if c.live then 1 else 0, 2, CsMax - i
  {
    if i >= CsMax then Ok(c)
    else match SetState(c, i)
      case Crash(why) => Crash(why)
      case Ok(c') => Cascade(c', i + 1)
  }

  /** DecodeNextFragment: at the end of the data, flush once nothing is
      outstanding; otherwise submit the next fragment under a fresh id. */
  function DecodeNextFragment(c: Client): (r: Outcome<Client>)
  {
    if !c.live then Ok(c)
    else if c.pos == |c.data| then
      if c.outstanding == 0 then SetState(c.(calls := c.calls + [Flush]), CsFlushing) else Ok(c)
    else match F.FragmentAt(c.data, c.h264, c.pos)
      case Fail(f) => Crash(Bitstream(f))
      case Ok(frag) =>
        var c' := AfterSubmit(c, frag);
        if c'.remaining == 0 && -c'.deleteState == c'.nextId then DeleteDecoder(c') else Ok(c')
  }

  /** The client once `frag` is handed to the decoder: counted, logged as a
      Decode under the current id, the id advanced within its 30 bits (the
      `& 0x3FFFFFFF` mask), the cursor past the fragment. */
  function AfterSubmit(c: Client, frag: F.Fragment): Client {
    c.(skipped := c.skipped + frag.skipped, queued := c.queued + frag.queued,
       calls := c.calls + [Decode(c.nextId, frag.bytes)],
       nextId := (c.nextId + 1) % IdModulus,
       outstanding := c.outstanding + 1, pos := frag.end)
  }

  /** `n` calls of DecodeNextFragment in a row. */
  function DecodeTimes(c: Client, n: int): (r: Outcome<Client>)
    decreases n
  {
    if n <= 0 then Ok(c)
    else match DecodeNextFragment(c)
      case Crash(why) => Crash(why)
      case Ok(c') => DecodeTimes(c', n - 1)
  }

  /** CreateDecoder: only without a decoder; initialization must succeed. */
  function CreateDecoder(c: Client, initializeOk: bool): (r: Outcome<Client>)
  {
    if c.live then Crash(DecoderAlreadySet)
    else match SetState(c.(live := true), CsDecoderSet)
      case Crash(why) => Crash(why)
      case Ok(c') =>
        if !c'.live then Ok(c')
        else if !initializeOk then Crash(InitializeFailed)
        else Ok(c'.(calls := c'.calls + [Initialize]))
  }

  function NotifyInitializeDone(c: Client): (r: Outcome<Client>)
  {
    match SetState(c, CsInitialized)
    case Crash(why) => Crash(why)
    case Ok(c') =>
      if c'.resetAfter == StartOfStreamReset then
        if !c'.live then Crash(NoDecoder) else Ok(c'.(calls := c'.calls + [Reset]))
      else match DecodeTimes(c', c'.numInFlight)
        case Crash(why) => Crash(why)
        case Ok(c'') => if c''.outstanding != c'.numInFlight then Crash(InFlightShortfall) else Ok(c'')
  }

  function NotifyEndOfBitstreamBuffer(c: Client): (r: Outcome<Client>)
  {
    DecodeNextFragment(c.(done := c.done + 1, outstanding := c.outstanding - 1))
  }

  function NotifyFlushDone(c: Client): (r: Outcome<Client>)
  {
    if !c.live then Ok(c)
    else match SetState(c, CsFlushed)
      case Crash(why) => Crash(why)
      case Ok(c') =>
        var c'' := c'.(remaining := c'.remaining - 1);
        if c''.remaining < 0 then Crash(PlayThroughsExhausted)
        else if !c''.live then Ok(c'')
        else SetState(c''.(calls := c''.calls + [Reset]), CsResetting)
  }

  function NotifyResetDone(c: Client): (r: Outcome<Client>)
  {
    if !c.live then Ok(c)
    else if c.resetAfter == MidStreamReset then
      DecodeNextFragment(c.(resetAfter := EndOfStreamReset))
    else if c.resetAfter == StartOfStreamReset then
      DecodeTimes(c.(resetAfter := EndOfStreamReset), c.numInFlight)
    else if c.remaining != 0 then
      NotifyInitializeDone(c.(pos := 0))
    else match SetState(c, CsReset)
      case Crash(why) => Crash(why)
      case Ok(c') => if c'.live then DeleteDecoder(c') else Ok(c')
  }

  function NotifyError(c: Client): (r: Outcome<Client>)
  {
    SetState(c, CsError)
  }

  /** num_decoded_frames(): the wrapper's arrival count when throttling. */
  function NumDecodedFrames(c: Client, arrivals: nat): nat {
    if c.throttled then arrivals else c.decoded
  }

  /** PictureReady; `arrivals` is the throttling wrapper's count of pictures
      that reached it, read only when the wrapper is in front. */
  function PictureReady(c: Client, pic: Picture, arrivals: nat): (r: Outcome<Client>)
  {
    if c.state >= CsReset then Crash(PictureAfterReset)
    else if !c.live then Ok(c)
    else if pic.bitstreamBufferId > c.nextId then Crash(FutureBitstreamId)
    else
      var c1 := c.(decoded := c.decoded + 1);
      var n := NumDecodedFrames(c1, arrivals);
      var c2 := if c1.remaining == 1 && c1.resetAfter == n
                then c1.(resetAfter := MidStreamReset, calls := c1.calls + [Reset], pos := 0)
                else c1;
      if pic.pictureBufferId !in c2.buffers then Crash(UnknownPictureBuffer)
      else
        var reuse := if n > c2.delayReuseAfter then ReuseAfterDelay(pic.pictureBufferId)
                     else ReusePictureBuffer(pic.pictureBufferId);
        Ok(c2.(calls := c2.calls + [reuse]))
  }

  /** The loop of ProvidePictureBuffers: one buffer per fresh texture, each
      under the id equal to the current size of the map. */
  function AddBuffers(textures: set<int>, buffers: map<int, PictureBuffer>, width: int, height: int,
                      newTextures: seq<int>, handed: seq<PictureBuffer>)
    : (r: Outcome<(set<int>, map<int, PictureBuffer>, seq<PictureBuffer>)>)
    decreases |newTextures|
  {
    if newTextures == [] then Ok((textures, buffers, handed))
    else
      var id := |buffers|;
      var t := newTextures[0];
      if t in textures then Crash(TextureReused)
      else if id in buffers then Crash(PictureIdTaken)
      else
        var b := PictureBuffer(id, width, height, t);
        AddBuffers(textures + {t}, buffers[id := b], width, height, newTextures[1..], handed + [b])
  }

  /** ProvidePictureBuffers: `newTextures` are the ids the rendering helper
      hands out, one per requested buffer. */
  function ProvidePictureBuffers(c: Client, width: int, height: int, newTextures: seq<int>): (r: Outcome<Client>)
  {
    if !c.live then Ok(c)
    else match AddBuffers(c.textures, c.buffers, width, height, newTextures, [])
      case Crash(why) => Crash(why)
      case Ok((ts, bs, handed)) =>
        Ok(c.(textures := ts, buffers := bs, calls := c.calls + [AssignPictureBuffers(handed)]))
  }

  function DismissPictureBuffer(c: Client, id: int): (r: Outcome<Client>)
  {
    if id !in c.buffers then Crash(UnknownPictureBuffer)
    else if c.buffers[id].textureId !in c.textures then Crash(TextureNotOutstanding)
    else Ok(c.(textures := c.textures - {c.buffers[id].textureId}, buffers := c.buffers - {id}))
  }

  function NotifyFrameDropped(c: Client, id: int): (r: Outcome<Client>)
  {
    if !c.live then Crash(NoDecoder) else Ok(c.(calls := c.calls + [ReusePictureBuffer(id)]))
  }

  /** The destructor: delete the decoder if still there, free every
      picture buffer, then notify CS_DESTROYED once more. */
  function Destruct(c: Client): (r: Outcome<Client>)
  {
    match DeleteDecoder(c)
    case Crash(why) => Crash(why)
    case Ok(c') => SetState(c'.(buffers := map[]), CsDestroyed)
  }

  /** The callbacks a decoder (or the test) can make. */
  datatype Event =
    | CreateDecoderEvent(initializeOk: bool)
    | InitializeDone
    | EndOfBitstreamBuffer
    | FlushDone
    | ResetDone
    | Error
    | PictureReadyEvent(pic: Picture, arrivals: nat)
    | ProvideBuffers(width: int, height: int, newTextures: seq<int>)
    | DismissBuffer(id: int)
    | FrameDropped(id: int)
    | Destructed

  function Step(c: Client, e: Event): Outcome<Client> {
    match e
    case CreateDecoderEvent(ok) => CreateDecoder(c, ok)
    case InitializeDone => NotifyInitializeDone(c)
    case EndOfBitstreamBuffer => NotifyEndOfBitstreamBuffer(c)
    case FlushDone => NotifyFlushDone(c)
    case ResetDone => NotifyResetDone(c)
    case Error => NotifyError(c)
    case PictureReadyEvent(pic, n) => PictureReady(c, pic, n)
    case ProvideBuffers(w, h, ts) => ProvidePictureBuffers(c, w, h, ts)
    case DismissBuffer(id) => DismissPictureBuffer(c, id)
    case FrameDropped(id) => NotifyFrameDropped(c, id)
    case Destructed => Destruct(c)
  }

  /** A schedule of callbacks, applied in order until one aborts. */
  function Run(c: Client, events: seq<Event>): Outcome<Client>
    decreases |events|
  {
    if events == [] then Ok(c)
    else match Step(c, events[0])
      case Crash(why) => Crash(why)
      case Ok(c') => Run(c', events[1..])
  }
}
