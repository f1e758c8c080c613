/** What the client's callbacks promise, proved about the value model. */
module ClientProperties {
  import opened ClientModel
  import F = Fragmenter

  // ---------------------------------------------------------------------
  // SetState and DeleteDecoder

  /** The client once DeleteDecoder has run its course: no decoder, no data,
      no textures, one Destroy request, and every state above the current one
      notified, ending at CS_DESTROYED. */
  function Deleted(c: Client): (d: Client)
    ensures !d.live && d.textures == {} && d.state == CsDestroyed
  {
    c.(live := false, data := [], textures := {}, calls := c.calls + [Destroy],
       trace := c.trace + StatesAbove(c.state), state := CsDestroyed)
  }

  /** The cascade notifies the states above `s` in order, and aborts exactly
      when one of them is the deletion state of the last play-through. */
  lemma CascadeClosedForm(c: Client, s: ClientState)
    requires !c.live
    ensures Cascade(c, s + 1)
            == if c.remaining == 0 && s < c.deleteState < CsMax then Crash(DeletedTwice)
               else Ok(Notified(c, s))
  {
    if c.remaining == 0 && s < c.deleteState < CsMax {
      CascadeCrashes(c, s);
    } else {
      CascadeNotifies(c, s);
    }
  }

  /** `c` once every state above `s` has been notified. */
  function Notified(c: Client, s: ClientState): (d: Client)
    ensures d.state == if s < CsDestroyed then CsDestroyed else c.state
  {
    c.(trace := c.trace + StatesAbove(s), state := if s < CsDestroyed then CsDestroyed else c.state)
  }

  lemma {:induction false} CascadeCrashes(c: Client, s: ClientState)
    requires !c.live && c.remaining == 0 && s < c.deleteState < CsMax
    ensures Cascade(c, s + 1) == Crash(DeletedTwice)
    decreases 8 - s
  {
    var t := (s + 1) as ClientState;
    if t != c.deleteState {
      var c1 := c.(trace := c.trace + [t], state := t);
      assert SetState(c, t) == Ok(c1);
      CascadeCrashes(c1, t);
    }
  }

  lemma {:induction false} CascadeNotifies(c: Client, s: ClientState)
    requires !c.live && !(c.remaining == 0 && s < c.deleteState < CsMax)
    ensures Cascade(c, s + 1) == Ok(Notified(c, s))
    decreases 8 - s
  {
    if s < CsDestroyed {
      var t := (s + 1) as ClientState;
      var c1 := c.(trace := c.trace + [t], state := t);
      assert Cascade(c, s + 1) == Cascade(c1, t as int + 1) by {
        assert SetState(c, t) == Ok(c1);
      }
      CascadeNotifies(c1, t);
      NotifiedStep(c, s, t);
    } else {
      assert c.trace + StatesAbove(s) == c.trace;
    }
  }

  lemma NotifiedStep(c: Client, s: ClientState, t: ClientState)
    requires t == s + 1
    ensures Notified(c.(trace := c.trace + [t], state := t), t) == Notified(c, s)
  {
    TraceStep(c.trace, s, t);
  }

  lemma TraceStep(trace: seq<ClientState>, s: ClientState, t: ClientState)
    requires t == s + 1
    ensures trace + [t] + StatesAbove(t) == trace + StatesAbove(s)
  {
    assert StatesAbove(s) == [t] + StatesAbove(t);
  }

  /** DeleteDecoder is `Deleted` when there is a decoder, a no-op when there
      is none, and aborts only when the cascade meets the deletion state. */
  lemma DeleteDecoderClosedForm(c: Client)
    ensures DeleteDecoder(c)
            == if !c.live then Ok(c)
               else if c.remaining == 0 && c.state < c.deleteState < CsMax then Crash(DeletedTwice)
               else Ok(Deleted(c))
  {
    if c.live {
      var c' := c.(live := false, data := [], textures := {}, calls := c.calls + [Destroy]);
      CascadeClosedForm(c', c.state);
    }
  }

  /** A second DeleteDecoder changes nothing. */
  lemma DeleteDecoderIdempotent(c: Client)
    requires DeleteDecoder(c).Ok?
    ensures DeleteDecoder(DeleteDecoder(c).value) == DeleteDecoder(c)
  {
    DeleteDecoderClosedForm(c);
  }

  /** SetState deletes the decoder exactly when no play-through remains and
      the new state is the deletion state; it aborts exactly when that
      happens with the decoder already gone. */
  lemma SetStateDeletes(c: Client, s: ClientState)
    ensures SetState(c, s).Crash? <==> !c.live && c.remaining == 0 && s == c.deleteState
    ensures SetState(c, s).Ok? ==>
              var d := SetState(c, s).value;
              (c.live && !d.live <==> c.remaining == 0 && s == c.deleteState)
              && d.trace == c.trace + [s] + (if c.live && !d.live then StatesAbove(s) else [])
              && (d.live ==> d == c.(trace := c.trace + [s], state := s))
  {
    var c' := c.(trace := c.trace + [s], state := s);
    if c.remaining == 0 && s == c.deleteState && c.live {
      DeleteDecoderClosedForm(c');
    } else {
      assert c.trace + [s] + [] == c.trace + [s];
    }
  }

  // ---------------------------------------------------------------------
  // Submission

  /** Whether DecodeNextFragment submits a fragment. */
  predicate Submits(c: Client) {
    c.live && c.pos != |c.data|
  }

  /** Whether DecodeNextFragment asks for a flush. */
  predicate Flushes(c: Client) {
    c.live && c.pos == |c.data| && c.outstanding == 0
  }

  /** Each submission uses the current id and advances it modulo 2^30; the
      outstanding count goes up by one per submission; a flush is asked for
      only at the end of the data with nothing outstanding. */
  lemma SubmissionAccounting(c: Client)
    requires DecodeNextFragment(c).Ok?
    ensures var d := DecodeNextFragment(c).value;
            && d.outstanding == c.outstanding + (if Submits(c) then 1 else 0)
            && d.nextId == (if Submits(c) then (c.nextId + 1) % IdModulus else c.nextId)
            && (0 <= c.nextId < IdModulus ==> 0 <= d.nextId < IdModulus)
            && |c.calls| <= |d.calls| && d.calls[..|c.calls|] == c.calls
            && (Submits(c) ==> |c.calls| < |d.calls| && d.calls[|c.calls|].Decode? && d.calls[|c.calls|].bitstreamBufferId == c.nextId)
            && (Flushes(c) <==> |c.calls| < |d.calls| && d.calls[|c.calls|] == Flush)
            && (!Submits(c) && !Flushes(c) ==> d == c)
  {
    if Flushes(c) {
      FlushAccounting(c);
    } else if Submits(c) {
      SubmitAccounting(c);
    }
  }

  lemma FlushAccounting(c: Client)
    requires Flushes(c) && DecodeNextFragment(c).Ok?
    ensures var d := DecodeNextFragment(c).value;
            && d.outstanding == c.outstanding && d.nextId == c.nextId
            && |c.calls| < |d.calls| && d.calls[..|c.calls|] == c.calls && d.calls[|c.calls|] == Flush
  {
    var c' := c.(calls := c.calls + [Flush]);
    var d := DecodeNextFragment(c).value;
    assert d == SetState(c', CsFlushing).value;
    SetStateDeletes(c', CsFlushing);
    DeleteDecoderClosedForm(c'.(trace := c'.trace + [CsFlushing], state := CsFlushing));
    assert d.calls == c.calls + [Flush] || d.calls == c.calls + [Flush, Destroy];
  }

  lemma SubmitAccounting(c: Client)
    requires Submits(c) && DecodeNextFragment(c).Ok?
    ensures var d := DecodeNextFragment(c).value;
            && d.outstanding == c.outstanding + 1 && d.nextId == (c.nextId + 1) % IdModulus
            && |c.calls| < |d.calls| && d.calls[..|c.calls|] == c.calls
            && d.calls[|c.calls|].Decode? && d.calls[|c.calls|].bitstreamBufferId == c.nextId
  {
    var c' := AfterSubmit(c, F.FragmentAt(c.data, c.h264, c.pos).value);
    var d := DecodeNextFragment(c).value;
    assert d == c' || d == DeleteDecoder(c').value;
    DeleteDecoderClosedForm(c');
    assert d.calls == c'.calls || d.calls == c'.calls + [Destroy];
  }

  /** With no decoder, a run of DecodeNextFragment calls changes nothing. */
  lemma {:induction false} DecodeTimesWithoutDecoder(c: Client, n: int)
    requires !c.live
    ensures DecodeTimes(c, n) == Ok(c)
    decreases n
  {
    if n > 0 {
      DecodeTimesWithoutDecoder(c, n - 1);
    }
  }

  /** Once the decoder is deleted, no callback other than CreateDecoder asks
      anything of a decoder, and none brings one back. */
  lemma NothingAskedOfDeletedDecoder(c: Client, e: Event)
    requires !c.live && !e.CreateDecoderEvent? && Step(c, e).Ok?
    ensures Step(c, e).value.calls == c.calls && !Step(c, e).value.live
  {
    match e
    case InitializeDone =>
      var c' := SetState(c, CsInitialized).value;
      SetStateDeletes(c, CsInitialized);
      DecodeTimesWithoutDecoder(c', c'.numInFlight);
    case Destructed =>
      SetStateDeletes(c, CsDestroyed);
    case Error =>
      SetStateDeletes(c, CsError);
    case _ =>
  }

  // ---------------------------------------------------------------------
  // The picture-buffer pool

  ghost function TexturesOf(buffers: map<int, PictureBuffer>): set<int> {
    set id | id in buffers :: buffers[id].textureId
  }

  /** The pool's invariant: each buffer sits under its own id, no two buffers
      share a texture, and the outstanding textures are the buffers' textures
      while the decoder exists and none after DeleteDecoder. */
  ghost predicate PoolInv(c: Client) {
    KeyedAndInjective(c.buffers) && c.textures == (if c.live then TexturesOf(c.buffers) else {})
  }

  ghost predicate KeyedAndInjective(buffers: map<int, PictureBuffer>) {
    && (forall id :: id in buffers ==> buffers[id].id == id)
    && (forall i, j :: i in buffers && j in buffers && i != j ==> buffers[i].textureId != buffers[j].textureId)
  }

  ghost predicate PoolShape(textures: set<int>, buffers: map<int, PictureBuffer>) {
    KeyedAndInjective(buffers) && textures == TexturesOf(buffers)
  }

  /** Textures the rendering helper hands out that are new to the pool and
      pairwise distinct. */
  ghost predicate FreshTextures(textures: set<int>, newTextures: seq<int>) {
    && (forall k :: 0 <= k < |newTextures| ==> newTextures[k] !in textures)
    && (forall i, j :: 0 <= i < j < |newTextures| ==> newTextures[i] != newTextures[j])
  }

  /** The ids `|buffers|`, `|buffers|+1`, ... that the loop will use are free. */
  ghost predicate FreeIds(buffers: map<int, PictureBuffer>, n: nat) {
    forall id :: |buffers| <= id < |buffers| + n ==> id !in buffers
  }

  /** The buffers ProvidePictureBuffers creates, in order. */
  function NewBuffers(first: int, width: int, height: int, newTextures: seq<int>): (r: seq<PictureBuffer>)
    ensures |r| == |newTextures|
    ensures forall k :: 0 <= k < |r| ==> r[k] == PictureBuffer(first + k, width, height, newTextures[k])
  {
    seq(|newTextures|, k requires 0 <= k < |newTextures| => PictureBuffer(first + k, width, height, newTextures[k]))
  }

  lemma FreshTexturesStep(textures: set<int>, newTextures: seq<int>)
    requires newTextures != []
    ensures FreshTextures(textures, newTextures)
            <==> newTextures[0] !in textures && FreshTextures(textures + {newTextures[0]}, newTextures[1..])
  {
    var rest := newTextures[1..];
    if newTextures[0] !in textures && FreshTextures(textures + {newTextures[0]}, rest) {
      forall i, j | 0 <= i < j < |newTextures| ensures newTextures[i] != newTextures[j] {
        assert newTextures[j] == rest[j - 1];
        if i > 0 { assert newTextures[i] == rest[i - 1]; }
      }
    }
    if FreshTextures(textures, newTextures) {
      forall k | 0 <= k < |rest| ensures rest[k] !in textures + {newTextures[0]} {
        assert rest[k] == newTextures[k + 1];
      }
      forall i, j | 0 <= i < j < |rest| ensures rest[i] != rest[j] {
        assert rest[i] == newTextures[i + 1] && rest[j] == newTextures[j + 1];
      }
    }
  }

  lemma FreeIdsStep(buffers: map<int, PictureBuffer>, n: nat, b: PictureBuffer)
    requires n > 0 && |buffers| !in buffers
    ensures |buffers[|buffers| := b]| == |buffers| + 1
    ensures FreeIds(buffers, n) <==> FreeIds(buffers[|buffers| := b], n - 1)
  {
    var buffers' := buffers[|buffers| := b];
    assert buffers'.Keys == buffers.Keys + {|buffers|};
    assert |buffers'| == |buffers'.Keys|;
    if FreeIds(buffers', n - 1) {
      forall id | |buffers| <= id < |buffers| + n ensures id !in buffers {
        if id != |buffers| { assert id !in buffers'; }
      }
    }
  }

  /** One turn of the loop keeps the pool's shape. */
  lemma AddOneKeepsShape(textures: set<int>, buffers: map<int, PictureBuffer>, b: PictureBuffer)
    requires PoolShape(textures, buffers) && b.textureId !in textures && b.id !in buffers
    ensures PoolShape(textures + {b.textureId}, buffers[b.id := b])
  {
    var buffers' := buffers[b.id := b];
    forall x | x in TexturesOf(buffers') ensures x in TexturesOf(buffers) + {b.textureId} {
      var i :| i in buffers' && buffers'[i].textureId == x;
      if i != b.id { assert i in buffers && buffers[i].textureId == x; }
    }
    forall x | x in TexturesOf(buffers) ensures x in TexturesOf(buffers') {
      var i :| i in buffers && buffers[i].textureId == x;
      assert i in buffers' && buffers'[i].textureId == x;
    }
    assert buffers'[b.id].textureId == b.textureId;
    forall i, j | i in buffers' && j in buffers' && i != j
      ensures buffers'[i].textureId != buffers'[j].textureId
    {
      if i == b.id {
        assert buffers'[j].textureId in TexturesOf(buffers);
      } else if j == b.id {
        assert buffers'[i].textureId in TexturesOf(buffers);
      }
    }
  }

  /** ProvidePictureBuffers' loop succeeds exactly when every texture is fresh
      and every id it uses is free. */
  lemma {:induction false} AddBuffersSucceeds(textures: set<int>, buffers: map<int, PictureBuffer>, width: int,
                                              height: int, newTextures: seq<int>, handed: seq<PictureBuffer>)
    requires PoolShape(textures, buffers)
    ensures AddBuffers(textures, buffers, width, height, newTextures, handed).Ok?
            <==> FreshTextures(textures, newTextures) && FreeIds(buffers, |newTextures|)
    decreases |newTextures|
  {
    if newTextures != [] {
      var b := PictureBuffer(|buffers|, width, height, newTextures[0]);
      FreshTexturesStep(textures, newTextures);
      if newTextures[0] !in textures && |buffers| !in buffers {
        FreeIdsStep(buffers, |newTextures|, b);
        AddOneKeepsShape(textures, buffers, b);
        AddBuffersSucceeds(textures + {b.textureId}, buffers[b.id := b], width, height, newTextures[1..], handed + [b]);
      } else if newTextures[0] !in textures {
        assert !FreeIds(buffers, |newTextures|);
      }
    }
  }

  /** `after` is `before` with one buffer per texture of `newTextures` added
      under the ids counting up from `before`'s size, and nothing else changed. */
  ghost predicate AddedInOrder(before: map<int, PictureBuffer>, after: map<int, PictureBuffer>,
                               width: int, height: int, newTextures: seq<int>) {
    && (forall id :: id in after <==> id in before || |before| <= id < |before| + |newTextures|)
    && (forall id :: id in before ==> after[id] == before[id])
    && (forall k :: 0 <= k < |newTextures| ==>
          |before| + k in after && after[|before| + k] == PictureBuffer(|before| + k, width, height, newTextures[k]))
  }

  lemma AddedInOrderStep(before: map<int, PictureBuffer>, after: map<int, PictureBuffer>,
                         width: int, height: int, newTextures: seq<int>)
    requires newTextures != [] && |before| !in before
    requires AddedInOrder(before[|before| := PictureBuffer(|before|, width, height, newTextures[0])], after,
                          width, height, newTextures[1..])
    ensures AddedInOrder(before, after, width, height, newTextures)
  {
    var n := |before|;
    var mid := before[n := PictureBuffer(n, width, height, newTextures[0])];
    assert mid.Keys == before.Keys + {n};
    assert |mid| == |mid.Keys| == n + 1;
    forall k | 0 <= k < |newTextures|
      ensures n + k in after && after[n + k] == PictureBuffer(n + k, width, height, newTextures[k])
    {
      if k > 0 {
        assert newTextures[1..][k - 1] == newTextures[k];
        assert (n + 1) + (k - 1) == n + k;
      }
    }
  }

  /** When it succeeds, the loop hands the decoder exactly the buffers it
      creates, one per texture, under ids counting up from the map's size. */
  lemma {:induction false} AddBuffersHands(textures: set<int>, buffers: map<int, PictureBuffer>, width: int,
                                           height: int, newTextures: seq<int>, handed: seq<PictureBuffer>)
    requires AddBuffers(textures, buffers, width, height, newTextures, handed).Ok?
    ensures AddBuffers(textures, buffers, width, height, newTextures, handed).value.2
            == handed + NewBuffers(|buffers|, width, height, newTextures)
    decreases |newTextures|
  {
    if newTextures == [] {
      assert handed + NewBuffers(|buffers|, width, height, newTextures) == handed;
    } else {
      var n := |buffers|;
      var b := PictureBuffer(n, width, height, newTextures[0]);
      var buffers' := buffers[n := b];
      assert |buffers'| == n + 1 by {
        assert buffers'.Keys == buffers.Keys + {n};
        assert |buffers'| == |buffers'.Keys|;
      }
      AddBuffersHands(textures + {b.textureId}, buffers', width, height, newTextures[1..], handed + [b]);
      NewBuffersCons(handed, n, width, height, newTextures);
    }
  }

  lemma NewBuffersCons(handed: seq<PictureBuffer>, first: int, width: int, height: int, newTextures: seq<int>)
    requires newTextures != []
    ensures handed + [PictureBuffer(first, width, height, newTextures[0])]
              + NewBuffers(first + 1, width, height, newTextures[1..])
            == handed + NewBuffers(first, width, height, newTextures)
  {
    var l := handed + [PictureBuffer(first, width, height, newTextures[0])]
             + NewBuffers(first + 1, width, height, newTextures[1..]);
    var r := handed + NewBuffers(first, width, height, newTextures);
    assert |l| == |r|;
    forall k | 0 <= k < |r| ensures l[k] == r[k] {
      if k > |handed| { assert newTextures[1..][k - |handed| - 1] == newTextures[k - |handed|]; }
    }
  }

  /** When it succeeds, the loop adds those buffers to the map and changes no
      other entry. */
  lemma {:induction false} AddBuffersMap(textures: set<int>, buffers: map<int, PictureBuffer>, width: int,
                                         height: int, newTextures: seq<int>, handed: seq<PictureBuffer>)
    requires AddBuffers(textures, buffers, width, height, newTextures, handed).Ok?
    ensures AddedInOrder(buffers, AddBuffers(textures, buffers, width, height, newTextures, handed).value.1,
                         width, height, newTextures)
    decreases |newTextures|
  {
    if newTextures != [] {
      var n := |buffers|;
      var b := PictureBuffer(n, width, height, newTextures[0]);
      AddBuffersMap(textures + {b.textureId}, buffers[n := b], width, height, newTextures[1..], handed + [b]);
      AddedInOrderStep(buffers, AddBuffers(textures, buffers, width, height, newTextures, handed).value.1,
                       width, height, newTextures);
    }
  }

  /** When it succeeds, every new texture becomes outstanding. */
  lemma {:induction false} AddBuffersTextures(textures: set<int>, buffers: map<int, PictureBuffer>, width: int,
                                              height: int, newTextures: seq<int>, handed: seq<PictureBuffer>)
    requires AddBuffers(textures, buffers, width, height, newTextures, handed).Ok?
    ensures AddBuffers(textures, buffers, width, height, newTextures, handed).value.0
            == textures + (set t | t in newTextures)
    decreases |newTextures|
  {
    if newTextures == [] {
      assert (set t | t in newTextures) == {};
    } else {
      var n := |buffers|;
      var b := PictureBuffer(n, width, height, newTextures[0]);
      var rest := newTextures[1..];
      AddBuffersTextures(textures + {b.textureId}, buffers[n := b], width, height, rest, handed + [b]);
      ElementsOfCons(newTextures);
    }
  }

  /** The elements of a non-empty sequence: its head and those of its tail. */
  lemma ElementsOfCons(s: seq<int>)
    requires s != []
    ensures (set t | t in s) == {s[0]} + (set t | t in s[1..])
  {
    assert s == [s[0]] + s[1..];
  }

  /** When it succeeds, every new texture becomes outstanding and the pool
      keeps its shape. */
  lemma {:induction false} AddBuffersKeepsShape(textures: set<int>, buffers: map<int, PictureBuffer>, width: int,
                                                height: int, newTextures: seq<int>, handed: seq<PictureBuffer>)
    requires PoolShape(textures, buffers)
    requires AddBuffers(textures, buffers, width, height, newTextures, handed).Ok?
    ensures var (ts, bs, _) := AddBuffers(textures, buffers, width, height, newTextures, handed).value;
            ts == textures + (set t | t in newTextures) && PoolShape(ts, bs)
    decreases |newTextures|
  {
    AddBuffersTextures(textures, buffers, width, height, newTextures, handed);
    if newTextures != [] {
      var n := |buffers|;
      var b := PictureBuffer(n, width, height, newTextures[0]);
      var rest := newTextures[1..];
      assert newTextures[0] !in textures && n !in buffers;
      AddOneKeepsShape(textures, buffers, b);
      AddBuffersKeepsShape(textures + {b.textureId}, buffers[n := b], width, height, rest, handed + [b]);
    }
  }

  /** While the decoder exists, a buffer may be dismissed exactly when the
      pool holds it; afterwards the pool keeps its shape without it. */
  lemma DismissOnLivePool(c: Client, id: int)
    requires c.live && PoolShape(c.textures, c.buffers)
    ensures DismissPictureBuffer(c, id).Ok? <==> id in c.buffers
    ensures DismissPictureBuffer(c, id).Ok? ==>
              var d := DismissPictureBuffer(c, id).value;
              && d.buffers == c.buffers - {id}
              && d.textures == c.textures - {c.buffers[id].textureId}
              && PoolShape(d.textures, d.buffers)
  {
    if id in c.buffers {
      var d := DismissPictureBuffer(c, id).value;
      var t := c.buffers[id].textureId;
      assert t in TexturesOf(c.buffers);
      assert TexturesOf(d.buffers) == TexturesOf(c.buffers) - {t} by {
        forall x | x in TexturesOf(c.buffers) - {t} ensures x in TexturesOf(d.buffers) {
          var i :| i in c.buffers && c.buffers[i].textureId == x;
          assert i != id && i in d.buffers;
        }
      }
    }
  }

  /** After DeleteDecoder a dismissal always aborts, since no texture is
      outstanding any more. */
  lemma DismissAfterDeletion(c: Client, id: int)
    requires !c.live && c.textures == {}
    ensures DismissPictureBuffer(c, id).Crash?
  {
  }

  /** How a callback that does not manage buffers may touch the pool: the map
      is left alone, and the outstanding textures either stay with the decoder
      or are dropped together with it. */
  ghost predicate PoolFrame(c: Client, d: Client) {
    && d.buffers == c.buffers
    && (if c.live then (d.live && d.textures == c.textures) || (!d.live && d.textures == {})
        else !d.live && d.textures == c.textures)
  }

  lemma PoolFrameTransitive(c: Client, d: Client, e: Client)
    requires PoolFrame(c, d) && PoolFrame(d, e)
    ensures PoolFrame(c, e)
  {
  }

  lemma SetStateFrame(c: Client, s: ClientState)
    requires SetState(c, s).Ok?
    ensures PoolFrame(c, SetState(c, s).value)
  {
    var c' := c.(trace := c.trace + [s], state := s);
    if c.remaining == 0 && s == c.deleteState {
      DeleteDecoderClosedForm(c');
    }
  }

  lemma DeleteDecoderFrame(c: Client)
    requires DeleteDecoder(c).Ok?
    ensures PoolFrame(c, DeleteDecoder(c).value)
  {
    DeleteDecoderClosedForm(c);
  }

  lemma DecodeNextFragmentFrame(c: Client)
    requires DecodeNextFragment(c).Ok?
    ensures PoolFrame(c, DecodeNextFragment(c).value)
  {
    if c.live && c.pos == |c.data| && c.outstanding == 0 {
      SetStateFrame(c.(calls := c.calls + [Flush]), CsFlushing);
    } else if c.live && c.pos != |c.data| {
      var c' := AfterSubmit(c, F.FragmentAt(c.data, c.h264, c.pos).value);
      DeleteDecoderClosedForm(c');
      assert PoolFrame(c, c');
    }
  }

  lemma {:induction false} DecodeTimesFrame(c: Client, n: int)
    requires DecodeTimes(c, n).Ok?
    ensures PoolFrame(c, DecodeTimes(c, n).value)
    decreases n
  {
    if n > 0 {
      var c' := DecodeNextFragment(c).value;
      DecodeNextFragmentFrame(c);
      DecodeTimesFrame(c', n - 1);
      PoolFrameTransitive(c, c', DecodeTimes(c', n - 1).value);
    }
  }

  lemma InitializeDoneFrame(c: Client)
    requires NotifyInitializeDone(c).Ok?
    ensures PoolFrame(c, NotifyInitializeDone(c).value)
  {
    var c' := SetState(c, CsInitialized).value;
    SetStateFrame(c, CsInitialized);
    if c'.resetAfter != StartOfStreamReset {
      DecodeTimesFrame(c', c'.numInFlight);
      PoolFrameTransitive(c, c', DecodeTimes(c', c'.numInFlight).value);
    }
  }

  lemma FlushDoneFrame(c: Client)
    requires NotifyFlushDone(c).Ok?
    ensures PoolFrame(c, NotifyFlushDone(c).value)
  {
    if c.live {
      var c' := SetState(c, CsFlushed).value;
      SetStateFrame(c, CsFlushed);
      var c'' := c'.(remaining := c'.remaining - 1);
      if c''.live {
        SetStateFrame(c''.(calls := c''.calls + [Reset]), CsResetting);
      }
    }
  }

  lemma ResetDoneFrame(c: Client)
    requires NotifyResetDone(c).Ok?
    ensures PoolFrame(c, NotifyResetDone(c).value)
  {
    if c.live {
      if c.resetAfter == MidStreamReset {
        DecodeNextFragmentFrame(c.(resetAfter := EndOfStreamReset));
      } else if c.resetAfter == StartOfStreamReset {
        DecodeTimesFrame(c.(resetAfter := EndOfStreamReset), c.numInFlight);
      } else if c.remaining != 0 {
        InitializeDoneFrame(c.(pos := 0));
      } else {
        var c' := SetState(c, CsReset).value;
        SetStateFrame(c, CsReset);
        if c'.live { DeleteDecoderFrame(c'); }
      }
    }
  }

  /** Besides ProvidePictureBuffers and DismissPictureBuffer, only the
      destructor changes the buffer map, and it empties it; every
      other callback keeps the map, and keeps the outstanding textures unless
      it deletes the decoder, which drops them all. */
  lemma OnlyBufferCallbacksTouchPool(c: Client, e: Event)
    requires !e.CreateDecoderEvent? && !e.ProvideBuffers? && !e.DismissBuffer?
    requires Step(c, e).Ok?
    ensures e.Destructed? ==> PoolFrame(c.(buffers := map[]), Step(c, e).value)
    ensures !e.Destructed? ==> PoolFrame(c, Step(c, e).value)
  {
    match e
    case InitializeDone => InitializeDoneFrame(c);
    case EndOfBitstreamBuffer =>
      DecodeNextFragmentFrame(c.(done := c.done + 1, outstanding := c.outstanding - 1));
    case FlushDone => FlushDoneFrame(c);
    case ResetDone => ResetDoneFrame(c);
    case Error => SetStateFrame(c, CsError);
    case PictureReadyEvent(_, _) =>
    case FrameDropped(_) =>
    case Destructed =>
      var c' := DeleteDecoder(c).value;
      DeleteDecoderFrame(c);
      SetStateFrame(c'.(buffers := map[]), CsDestroyed);
  }

  /** Every callback keeps the pool's invariant, provided the decoder is
      created before any buffer exists. */
  lemma PoolInvPreserved(c: Client, e: Event)
    requires PoolInv(c) && Step(c, e).Ok?
    requires e.CreateDecoderEvent? ==> c.buffers == map[]
    ensures PoolInv(Step(c, e).value)
  {
    match e
    case CreateDecoderEvent(ok) =>
      assert TexturesOf(c.buffers) == {};
      SetStateFrame(c.(live := true), CsDecoderSet);
    case ProvideBuffers(w, h, ts) =>
      if c.live {
        AddBuffersKeepsShape(c.textures, c.buffers, w, h, ts, []);
      }
    case DismissBuffer(id) =>
      DismissOnLivePool(c, id);
    case _ =>
      OnlyBufferCallbacksTouchPool(c, e);
  }

  // ---------------------------------------------------------------------
  // PictureReady

  /** PictureReady aborts after a reset has completed, on a picture from a
      bitstream buffer not yet submitted, or on an unknown picture buffer;
      otherwise it counts the frame, asks for a mid-stream reset exactly on
      the last play-through when the frame count reaches the reset frame, and
      hands the buffer back, after a delay once enough frames have decoded. */
  lemma PictureReadyMeaning(c: Client, pic: Picture, arrivals: nat)
    ensures PictureReady(c, pic, arrivals).Crash? <==>
              c.state >= CsReset
              || (c.live && (pic.bitstreamBufferId > c.nextId || pic.pictureBufferId !in c.buffers))
    ensures c.state >= CsReset ==> PictureReady(c, pic, arrivals) == Crash(PictureAfterReset)
    ensures c.state < CsReset && !c.live ==> PictureReady(c, pic, arrivals) == Ok(c)
    ensures PictureReady(c, pic, arrivals).Ok? && c.live ==>
              var d := PictureReady(c, pic, arrivals).value;
              var n := NumDecodedFrames(c.(decoded := c.decoded + 1), arrivals);
              var reset := c.remaining == 1 && c.resetAfter == n;
              && d.decoded == c.decoded + 1
              && d.pos == (if reset then 0 else c.pos)
              && d.resetAfter == (if reset then MidStreamReset else c.resetAfter)
              && d.calls == c.calls + (if reset then [Reset] else [])
                            + [if n > c.delayReuseAfter then ReuseAfterDelay(pic.pictureBufferId)
                               else ReusePictureBuffer(pic.pictureBufferId)]
              && d.buffers == c.buffers && d.textures == c.textures && d.state == c.state
              && d.outstanding == c.outstanding && d.nextId == c.nextId
  {
    if c.state < CsReset && c.live && pic.bitstreamBufferId <= c.nextId {
      var n := NumDecodedFrames(c.(decoded := c.decoded + 1), arrivals);
      if !(c.remaining == 1 && c.resetAfter == n) {
        assert c.calls + [] == c.calls;
      }
    }
  }
}
