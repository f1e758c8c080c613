/**
 * Bitstream fragmenters of the hardware-decode test client.
 *
 * Two cursor scanners over the encoded stream:
 *  - H.264 in the Annex B byte-stream format of ITU-T H.264: a unit starts
 *    at the start code 00 00 00 01 and runs to the next start code or to the
 *    end of the data; the first fragment of a play-through is the first NAL
 *    unit whose header byte has nal_unit_type 7 (sequence parameter set,
 *    Table 7-1 of ITU-T H.264), earlier units being skipped and counted;
 *  - VP8 in an IVF container: a 32-byte file header, then frames made of a
 *    12-byte frame header whose first 4 bytes are the little-endian payload
 *    size, followed by the payload.
 *
 * A CHECK failure ends the test process; an out-of-bounds read is undefined
 * behaviour, and an uncaught std::out_of_range ends the process too. The
 * scanners report all of them as `Fail`.
 */
module Fragmenter {

  /** One byte of the encoded stream. */
  type Byte = b: int | 0 <= b < 256

  const StartCodeSize: nat := 4
  /** nal_unit_type of a sequence parameter set. */
  const SpsNalType: int := 7
  const IvfFileHeaderSize: nat := 32
  const IvfFrameHeaderSize: nat := 12

  /** Why a scan ends the test process. */
  datatype Failure =
    | NoStartCode          // CHECK(LookingAtNAL(...)) in GetBytesForNextNALU
    | FrameSizeUnreadable  // fewer than 4 bytes left for the IVF frame size
    | FrameHeaderPastEnd   // substr past the end throws std::out_of_range
    | CursorPastEnd        // substr of an H.264 fragment starting past the end

  datatype Result<T> = Ok(value: T) | Fail(failure: Failure)

  /** One fragment handed to the decoder, the cursor after it and what the
      scan added to num_skipped_fragments_ and num_queued_fragments_. */
  datatype Fragment = Fragment(bytes: seq<Byte>, end: nat, skipped: nat, queued: nat)

  /** The four bytes at `pos` are a start code (LookingAtNAL). */
  predicate LookingAtNal(data: seq<Byte>, pos: nat)
    requires pos + 4 <= |data|
  {
    data[pos] == 0 && data[pos + 1] == 0 && data[pos + 2] == 0 && data[pos + 3] == 1
  }

  /** A complete start code begins at `pos`. */
  predicate StartCodeAt(data: seq<Byte>, pos: nat) {
    pos + 4 <= |data| && LookingAtNal(data, pos)
  }

  /** Where the inner loop of GetBytesForNextNALU stops when it starts at `p`:
      the first start code at or after `p`, or the first position from which
      fewer than four bytes remain. */
  function ScanForStartCode(data: seq<Byte>, p: nat): (q: nat)
    ensures p <= q
    ensures q <= p || q + 3 <= |data|
    ensures q + 4 > |data| || StartCodeAt(data, q)
    ensures forall x :: p <= x < q ==> !StartCodeAt(data, x)
    decreases |data| - p
  {
    if p + 4 > |data| || LookingAtNal(data, p) then p else ScanForStartCode(data, p + 1)
  }

  /** The value GetBytesForNextNALU leaves in *end_pos. */
  function NextNaluEnd(data: seq<Byte>, start: nat): (r: Result<nat>)
    ensures r.Ok? && start <= |data| ==> start <= r.value <= |data|
    ensures r.Ok? && start + 4 <= |data| ==> start + 4 <= r.value
  {
    if start + 4 > |data| then Ok(start)
    else if !LookingAtNal(data, start) then Fail(NoStartCode)
    else
      var q := ScanForStartCode(data, start + 4);
      Ok(if q + 3 >= |data| then |data| else q)
  }

  /** `e` ends the NAL unit that begins at `start`: it lies at least a start
      code past `start`, it is the end of the data or a start code, and no
      complete start code begins strictly between the two. */
  ghost predicate IsNaluEnd(data: seq<Byte>, start: nat, e: nat) {
    && start + 4 <= e <= |data|
    && (e == |data| || StartCodeAt(data, e))
    && forall p :: start < p < e ==> !StartCodeAt(data, p)
  }

  /** No start code can begin one, two or three bytes after another one. */
  lemma NoOverlappingStartCodes(data: seq<Byte>, s: nat, p: nat)
    requires StartCodeAt(data, s) && s < p < s + 4
    ensures !StartCodeAt(data, p)
  {
  }

  /** GetBytesForNextNALU, when four bytes remain: it CHECK-fails exactly when
      no start code sits at `start`, and otherwise returns the one and only
      end of the NAL unit that begins there. */
  lemma NextNaluEndCharacterized(data: seq<Byte>, start: nat)
    requires start + 4 <= |data|
    ensures NextNaluEnd(data, start).Fail? <==> !LookingAtNal(data, start)
    ensures LookingAtNal(data, start) ==>
              forall e: nat :: IsNaluEnd(data, start, e) <==> NextNaluEnd(data, start) == Ok(e)
  {
    if LookingAtNal(data, start) {
      var q := ScanForStartCode(data, start + 4);
      var end := NextNaluEnd(data, start).value;
      forall p | start < p < end
        ensures !StartCodeAt(data, p)
      {
        if p < start + 4 {
          NoOverlappingStartCodes(data, start, p);
        } else if p >= q {
          assert q + 3 >= |data| && end == |data|;
        }
      }
      assert IsNaluEnd(data, start, end);
      forall e: nat | IsNaluEnd(data, start, e)
        ensures e == end
      {
      }
    }
  }

  /** GetBytesForNextNALU: the while loop that advances *end_pos. */
  method GetBytesForNextNalu(data: seq<Byte>, start: nat) returns (r: Result<nat>)
    ensures r == NextNaluEnd(data, start)
  {
    var end := start;
    if end + 4 > |data| {
      return Ok(end);
    }
    if !LookingAtNal(data, start) {
      return Fail(NoStartCode);
    }
    end := end + 4;
    while end + 4 <= |data| && !LookingAtNal(data, end)
      invariant start + 4 <= end <= |data|
      invariant ScanForStartCode(data, end) == ScanForStartCode(data, start + 4)
      decreases |data| - end
    {
      end := end + 1;
    }
    if end + 3 >= |data| {
      end := |data|;
    }
    return Ok(end);
  }

  /** Outcome of the skipping loop of GetBytesForFirstFragment. */
  datatype SpsSearch =
    | Found(at: nat, skipped: nat)     // a unit with nal_unit_type 7 starts at `at`
    | NotFound(skipped: nat)           // the loop guard failed first
    | SearchFailed(failure: Failure)   // a skipped unit had no start code

  /** The low five bits of the NAL header byte (four bytes after `p`) give
      nal_unit_type 7. */
  predicate SpsHeaderAt(data: seq<Byte>, p: nat)
    requires p + 4 < |data|
  {
    data[p + 4] % 32 == SpsNalType
  }

  /** The skipping loop of GetBytesForFirstFragment from cursor `p` with the
      counter at `skipped`. */
  function FindSps(data: seq<Byte>, p: nat, skipped: nat): (r: SpsSearch)
    decreases |data| - p
  {
    if p + 4 >= |data| then NotFound(skipped)
    else if SpsHeaderAt(data, p) then Found(p, skipped)
    else match NextNaluEnd(data, p)
      case Fail(f) => SearchFailed(f)
      case Ok(e) => FindSps(data, e, skipped + 1)
  }

  /** The skipping loop of GetBytesForFirstFragment, which bumps the skip
      counter once per discarded NAL unit. */
  method FindFirstSps(data: seq<Byte>, start: nat) returns (r: SpsSearch)
    ensures r == FindSps(data, start, 0)
  {
    var end := start;
    var skipped := 0;
    while end + 4 < |data|
      invariant FindSps(data, end, skipped) == FindSps(data, start, 0)
      decreases |data| - end
    {
      if data[end + 4] % 32 == SpsNalType {
        return Found(end, skipped);
      }
      var next := GetBytesForNextNalu(data, end);
      if next.Fail? {
        return SearchFailed(next.failure);
      }
      end := next.value;
      skipped := skipped + 1;
    }
    return NotFound(skipped);
  }

  /** GetBytesForNextFragment for H.264: the bytes of the NAL unit at `start`;
      it is counted as queued exactly when it is non-empty. */
  function NextH264Fragment(data: seq<Byte>, start: nat): (r: Result<Fragment>)
  {
    match NextNaluEnd(data, start)
    case Fail(f) => Fail(f)
    case Ok(e) =>
      if start > |data| then Fail(CursorPastEnd)
      else Ok(Fragment(data[start..e], e, 0, if e != start then 1 else 0))
  }

  /** GetBytesForFirstFragment for H.264: the first sequence-parameter-set NAL
      unit at or after `start`, with the number of units skipped before it.
      When there is none the fragment is empty and the cursor stays at
      `start`, but the units stepped over stay counted. */
  function FirstH264Fragment(data: seq<Byte>, start: nat): (r: Result<Fragment>)
  {
    match FindSps(data, start, 0)
    case SearchFailed(f) => Fail(f)
    case NotFound(k) => Ok(Fragment([], start, k, 0))
    case Found(at, k) =>
      match NextH264Fragment(data, at)
      case Fail(f) => Fail(f)
      case Ok(frag) => Ok(frag.(skipped := k))
  }

  /** The 32-bit little-endian value at `pos`. */
  function LittleEndian32(data: seq<Byte>, pos: nat): (v: nat)
    requires pos + 4 <= |data|
    ensures v < 0x1_0000_0000
  {
    (data[pos] as int) + 0x100 * (data[pos + 1] as int) + 0x1_0000 * (data[pos + 2] as int)
      + 0x100_0000 * (data[pos + 3] as int)
  }

  function Min(a: nat, b: nat): nat { if a <= b then a else b }

  /** GetBytesForNextFrame: the cursor 0 is moved past the IVF file header;
      the payload is `size` bytes from 12 bytes past the cursor (substr keeps
      what is there), and the new cursor lies past the whole payload even if
      the data is shorter. */
  function NextIvfFrame(data: seq<Byte>, start: nat): (r: Result<Fragment>)
  {
    var cursor := if start == 0 then IvfFileHeaderSize else start;
    if cursor + 4 > |data| then Fail(FrameSizeUnreadable)
    else if cursor + IvfFrameHeaderSize > |data| then Fail(FrameHeaderPastEnd)
    else
      var size := LittleEndian32(data, cursor);
      var from := cursor + IvfFrameHeaderSize;
      Ok(Fragment(data[from..Min(from + size, |data|)], from + size, 0, 1))
  }

  /** The fragment DecodeNextFragment takes at cursor `pos`: the first fragment
      at cursor 0, the next one elsewhere. */
  function FragmentAt(data: seq<Byte>, h264: bool, pos: nat): Result<Fragment> {
    if h264 then
      (if pos == 0 then FirstH264Fragment(data, 0) else NextH264Fragment(data, pos))
    else NextIvfFrame(data, pos)
  }

  /** Totals of one play-through: fragments submitted, and what they added
      to the skip and queue counters. */
  datatype Chain = Chain(steps: nat, skipped: nat, queued: nat)

  /** Fragments taken one after another from `pos` until the cursor is at the
      end of the data; None when a scan fails, a fragment makes no progress
      (the client would resubmit it forever) or overruns the data. */
  function PlayChain(data: seq<Byte>, h264: bool, pos: nat): (r: Option<Chain>)
    decreases if pos <= |data| then |data| - pos else 0
  {
    if pos == |data| then Some(Chain(0, 0, 0))
    else if pos > |data| then None
    else match FragmentAt(data, h264, pos)
      case Fail(_) => None
      case Ok(f) =>
        if f.end <= pos || f.end > |data| then None
        else match PlayChain(data, h264, f.end)
          case None => None
          case Some(c) => Some(Chain(c.steps + 1, c.skipped + f.skipped, c.queued + f.queued))
  }

  datatype Option<T> = None | Some(value: T)

  /** Number of complete start codes at or after `p`: the number of NAL units
      of a stream that begins with a start code. */
  function CountStartCodes(data: seq<Byte>, p: nat): nat
    decreases |data| - p
  {
    if p >= |data| then 0
    else (if StartCodeAt(data, p) then 1 else 0) + CountStartCodes(data, p + 1)
  }

  lemma {:induction false} CountWithoutStartCodes(data: seq<Byte>, a: nat, b: nat)
    requires a <= b
    requires forall p :: a <= p < b ==> !StartCodeAt(data, p)
    ensures CountStartCodes(data, a) == CountStartCodes(data, b)
    decreases b - a
  {
    if a < b && a < |data| {
      CountWithoutStartCodes(data, a + 1, b);
    } else if a < b {
      CountPastEnd(data, a);
      CountPastEnd(data, b);
    }
  }

  lemma CountPastEnd(data: seq<Byte>, p: nat)
    requires p >= |data|
    ensures CountStartCodes(data, p) == 0
  {
  }

  /** A NAL unit holds exactly one start code, its own. */
  lemma NaluHoldsOneStartCode(data: seq<Byte>, s: nat, e: nat)
    requires StartCodeAt(data, s) && NextNaluEnd(data, s) == Ok(e)
    ensures CountStartCodes(data, s) == 1 + CountStartCodes(data, e)
  {
    NextNaluEndCharacterized(data, s);
    assert IsNaluEnd(data, s, e);
    CountWithoutStartCodes(data, s + 1, e);
  }

  /** The skipping loop steps over whole NAL units only: the units it
      discards are exactly the start codes before the one it stops at. */
  lemma {:induction false} FindSpsCountsSkipped(data: seq<Byte>, p: nat, k: nat, at: nat, skipped: nat)
    requires FindSps(data, p, k) == Found(at, skipped)
    ensures p <= at && at + 4 < |data| && SpsHeaderAt(data, at)
    ensures k <= skipped
    ensures CountStartCodes(data, p) == (skipped - k) + CountStartCodes(data, at)
    decreases |data| - p
  {
    if !SpsHeaderAt(data, p) {
      var e := NextNaluEnd(data, p).value;
      NextNaluEndCharacterized(data, p);
      NaluHoldsOneStartCode(data, p, e);
      FindSpsCountsSkipped(data, e, k + 1, at, skipped);
    }
  }

  /** Away from the start of the stream every H.264 fragment of a completed
      play-through is one counted NAL unit and nothing is skipped. */
  lemma {:induction false} H264TailChain(data: seq<Byte>, pos: nat, c: Chain)
    requires 0 < pos && PlayChain(data, true, pos) == Some(c)
    ensures c.skipped == 0 && c.queued == c.steps
    ensures c.queued == CountStartCodes(data, pos)
    decreases |data| - pos
  {
    if pos == |data| {
      CountPastEnd(data, pos);
    } else {
      var f := FragmentAt(data, true, pos).value;
      var c' := PlayChain(data, true, f.end).value;
      assert LookingAtNal(data, pos);
      NaluHoldsOneStartCode(data, pos, f.end);
      H264TailChain(data, f.end, c');
    }
  }

  /** One complete H.264 play-through from the start of the stream skips and
      queues every NAL unit of the stream exactly once between them, and each
      queued unit is one submission: the test's expectation that skipped +
      queued equals the fragment count of the stream. */
  lemma H264PlayThroughCountsEveryNalu(data: seq<Byte>, c: Chain)
    requires PlayChain(data, true, 0) == Some(c)
    ensures c.skipped + c.queued == CountStartCodes(data, 0)
    ensures c.queued == c.steps
  {
    if |data| > 0 {
      var f := FragmentAt(data, true, 0).value;
      var c' := PlayChain(data, true, f.end).value;
      match FindSps(data, 0, 0)
      case Found(at, k) =>
        FindSpsCountsSkipped(data, 0, 0, at, k);
        var frag := NextH264Fragment(data, at).value;
        assert LookingAtNal(data, at);
        NaluHoldsOneStartCode(data, at, frag.end);
        H264TailChain(data, f.end, c');
      case NotFound(k) =>
      case SearchFailed(_) =>
    }
  }

  /** Every VP8 fragment of a play-through is counted as queued. */
  lemma {:induction false} IvfChainQueuesEveryFrame(data: seq<Byte>, pos: nat, c: Chain)
    requires PlayChain(data, false, pos) == Some(c)
    ensures c.skipped == 0 && c.queued == c.steps
    decreases |data| - pos
  {
    if pos != |data| {
      var f := FragmentAt(data, false, pos).value;
      IvfChainQueuesEveryFrame(data, f.end, PlayChain(data, false, f.end).value);
    }
  }

  // ---------------------------------------------------------------------
  // Round trips: streams assembled from units are cut back into those units.

  const StartCode: seq<Byte> := [0, 0, 0, 1]

  /** A NAL unit payload that contains no start code of its own (what the
      emulation-prevention bytes of section 7.4.1 of ITU-T H.264 ensure). */
  ghost predicate FreeOfStartCodes(n: seq<Byte>) {
    forall p: nat :: !StartCodeAt(n, p)
  }

  /** The Annex B byte stream of a list of NAL unit payloads. */
  function AnnexB(nalus: seq<seq<Byte>>): seq<Byte> {
    if nalus == [] then [] else StartCode + nalus[0] + AnnexB(nalus[1..])
  }

  lemma {:induction false} AnnexBAppend(a: seq<seq<Byte>>, b: seq<seq<Byte>>)
    ensures AnnexB(a + b) == AnnexB(a) + AnnexB(b)
    decreases |a|
  {
    if a != [] {
      assert (a + b)[1..] == a[1..] + b;
      AnnexBAppend(a[1..], b);
    } else {
      assert a + b == b;
    }
  }

  lemma AnnexBStartsWithStartCode(nalus: seq<seq<Byte>>)
    ensures AnnexB(nalus) == [] || StartCodeAt(AnnexB(nalus), 0)
  {
  }

  /** A NAL unit framed by its own start code and followed by nothing or by
      another start code is scanned as exactly that unit. */
  lemma AnnexBNaluEnd(data: seq<Byte>, before: seq<Byte>, n: seq<Byte>, after: seq<Byte>)
    requires data == before + StartCode + n + after
    requires FreeOfStartCodes(n)
    requires after == [] || StartCodeAt(after, 0)
    ensures NextNaluEnd(data, |before|) == Ok(|before| + 4 + |n|)
  {
    var s, e := |before|, |before| + 4 + |n|;
    assert LookingAtNal(data, s) by {
      assert data[s] == 0 && data[s + 1] == 0 && data[s + 2] == 0 && data[s + 3] == 1;
    }
    forall p: nat | s < p < e
      ensures !StartCodeAt(data, p)
    {
      if p < s + 4 {
        NoOverlappingStartCodes(data, s, p);
      } else if p + 4 <= e {
        var i := p - s - 4;
        assert data[p] == n[i] && data[p + 1] == n[i + 1];
        assert data[p + 2] == n[i + 2] && data[p + 3] == n[i + 3];
        assert !StartCodeAt(n, i);
      } else if p + 4 <= |data| {
        assert data[p + 3] == after[p + 3 - e];
      }
    }
    if after != [] {
      assert data[e] == 0 && data[e + 1] == 0 && data[e + 2] == 0 && data[e + 3] == 1;
    }
    assert IsNaluEnd(data, s, e);
    NextNaluEndCharacterized(data, s);
  }

  /** One step of a play-through. */
  lemma PlayChainStep(data: seq<Byte>, h264: bool, pos: nat, f: Fragment, c: Chain, r: Chain)
    requires pos < |data| && FragmentAt(data, h264, pos) == Ok(f)
    requires pos < f.end <= |data| && PlayChain(data, h264, f.end) == Some(c)
    requires r == Chain(c.steps + 1, c.skipped + f.skipped, c.queued + f.queued)
    ensures PlayChain(data, h264, pos) == Some(r)
  {
    if h264 && pos == 0 {
      PlayChainFirstUnfold(data, h264, pos, f);
    } else {
      PlayChainNextStep(data, h264, pos, f, c, r);
    }
  }

  /** One unfolding of PlayChain at the first H.264 fragment, kept apart from
      any fact about the rest of the chain. */
  lemma PlayChainFirstUnfold(data: seq<Byte>, h264: bool, pos: nat, f: Fragment)
    requires h264 && pos == 0
    requires pos < |data| && FragmentAt(data, h264, pos) == Ok(f)
    requires pos < f.end <= |data|
    ensures PlayChain(data, h264, pos) == match PlayChain(data, h264, f.end)
              case None => None
              case Some(c) => Some(Chain(c.steps + 1, c.skipped + f.skipped, c.queued + f.queued))
  {
  }

  /** PlayChainStep for every other fragment. */
  lemma PlayChainNextStep(data: seq<Byte>, h264: bool, pos: nat, f: Fragment, c: Chain, r: Chain)
    requires !(h264 && pos == 0)
    requires pos < |data| && FragmentAt(data, h264, pos) == Ok(f)
    requires pos < f.end <= |data| && PlayChain(data, h264, f.end) == Some(c)
    requires r == Chain(c.steps + 1, c.skipped + f.skipped, c.queued + f.queued)
    ensures PlayChain(data, h264, pos) == Some(r)
  {
  }

  /** Where the start code of unit `i` sits in the Annex B stream of `nalus`:
      the lengths of the units before it, each with its start code. */
  function NaluOffset(nalus: seq<seq<Byte>>, i: nat): nat
    requires i <= |nalus|
    decreases i
  {
    if i == 0 then 0 else NaluOffset(nalus, i - 1) + 4 + |nalus[i - 1]|
  }

  /** The offset is the length of the stream of the units before it. */
  lemma {:induction false} NaluOffsetIsPrefixLength(nalus: seq<seq<Byte>>, i: nat)
    requires i <= |nalus|
    ensures NaluOffset(nalus, i) == |AnnexB(nalus[..i])|
    decreases i
  {
    if i > 0 {
      NaluOffsetIsPrefixLength(nalus, i - 1);
      assert nalus[..i] == nalus[..i - 1] + [nalus[i - 1]];
      AnnexBAppend(nalus[..i - 1], [nalus[i - 1]]);
      assert AnnexB([nalus[i - 1]]) == StartCode + nalus[i - 1] + AnnexB([]);
    } else {
      assert nalus[..0] == [];
    }
  }

  lemma AnnexBSplit(nalus: seq<seq<Byte>>, i: nat)
    requires i < |nalus|
    ensures AnnexB(nalus) == AnnexB(nalus[..i]) + StartCode + nalus[i] + AnnexB(nalus[i + 1..])
  {
    var t := nalus[i..];
    assert nalus == nalus[..i] + t;
    AnnexBAppend(nalus[..i], t);
    assert t[0] == nalus[i] && t[1..] == nalus[i + 1..];
    assert AnnexB(t) == StartCode + nalus[i] + AnnexB(nalus[i + 1..]);
    ConcatAssoc(AnnexB(nalus[..i]), StartCode, nalus[i], AnnexB(nalus[i + 1..]));
  }

  lemma ConcatAssoc(a: seq<Byte>, b: seq<Byte>, c: seq<Byte>, d: seq<Byte>)
    ensures a + (b + c + d) == a + b + c + d
  {
  }

  lemma {:induction false} NaluOffsetBounds(nalus: seq<seq<Byte>>, i: nat, j: nat)
    requires i <= j <= |nalus|
    ensures NaluOffset(nalus, i) <= NaluOffset(nalus, j) <= |AnnexB(nalus)|
    ensures NaluOffset(nalus, |nalus|) == |AnnexB(nalus)|
    decreases |nalus| - i
  {
    if i < j {
      NaluOffsetBounds(nalus, i + 1, j);
    } else if j < |nalus| {
      NaluOffsetBounds(nalus, j + 1, j + 1);
    } else {
      NaluOffsetIsPrefixLength(nalus, |nalus|);
      assert nalus[..|nalus|] == nalus;
    }
  }

  /** Unit `i` is scanned as exactly that unit. */
  lemma NaluAt(nalus: seq<seq<Byte>>, i: nat)
    requires i < |nalus| && FreeOfStartCodes(nalus[i])
    ensures NextNaluEnd(AnnexB(nalus), NaluOffset(nalus, i)) == Ok(NaluOffset(nalus, i + 1))
  {
    var before, after := AnnexB(nalus[..i]), AnnexB(nalus[i + 1..]);
    NaluOffsetIsPrefixLength(nalus, i);
    AnnexBSplit(nalus, i);
    AnnexBStartsWithStartCode(nalus[i + 1..]);
    AnnexBNaluEnd(AnnexB(nalus), before, nalus[i], after);
  }

  /** The byte the SPS test looks at for unit `i`: its first payload byte, or
      the first byte of the next start code when the payload is empty. */
  lemma HeaderByteAt(nalus: seq<seq<Byte>>, i: nat)
    requires i < |nalus| && NaluOffset(nalus, i) + 4 < |AnnexB(nalus)|
    ensures AnnexB(nalus)[NaluOffset(nalus, i) + 4] == if nalus[i] == [] then 0 else nalus[i][0]
  {
    NaluOffsetIsPrefixLength(nalus, i);
    AnnexBSplit(nalus, i);
    AnnexBStartsWithStartCode(nalus[i + 1..]);
  }

  /** Away from cursor 0, the units from `i` on are played through as one
      counted fragment per unit. */
  lemma {:induction false} AnnexBTailChain(nalus: seq<seq<Byte>>, i: nat)
    requires i <= |nalus| && 0 < NaluOffset(nalus, i)
    requires forall j :: i <= j < |nalus| ==> FreeOfStartCodes(nalus[j])
    ensures PlayChain(AnnexB(nalus), true, NaluOffset(nalus, i)) == Some(Chain(|nalus| - i, 0, |nalus| - i))
    decreases |nalus| - i
  {
    NaluOffsetBounds(nalus, i, |nalus|);
    if i < |nalus| {
      NaluAt(nalus, i);
      NaluOffsetBounds(nalus, i + 1, |nalus|);
      AnnexBTailChain(nalus, i + 1);
      AnnexBTailStep(nalus, i);
    }
  }

  /** Unit `i`, away from cursor 0, is one counted fragment in front of the
      play-through of the units after it. */
  lemma AnnexBTailStep(nalus: seq<seq<Byte>>, i: nat)
    requires i < |nalus| && 0 < NaluOffset(nalus, i) < NaluOffset(nalus, i + 1) <= |AnnexB(nalus)|
    requires NextNaluEnd(AnnexB(nalus), NaluOffset(nalus, i)) == Ok(NaluOffset(nalus, i + 1))
    requires PlayChain(AnnexB(nalus), true, NaluOffset(nalus, i + 1))
             == Some(Chain(|nalus| - (i + 1), 0, |nalus| - (i + 1)))
    ensures PlayChain(AnnexB(nalus), true, NaluOffset(nalus, i)) == Some(Chain(|nalus| - i, 0, |nalus| - i))
  {
    var data, o, o' := AnnexB(nalus), NaluOffset(nalus, i), NaluOffset(nalus, i + 1);
    PlayChainStep(data, true, o, Fragment(data[o..o'], o', 0, 1), Chain(|nalus| - (i + 1), 0, |nalus| - (i + 1)),
                  Chain(|nalus| - i, 0, |nalus| - i));
  }

  /** From unit `i` on, the units before the first SPS unit `j` are skipped,
      and counted, one by one. */
  lemma {:induction false} AnnexBFindSps(nalus: seq<seq<Byte>>, i: nat, j: nat, k: nat)
    requires i <= j < |nalus|
    requires forall m :: i <= m < j ==> FreeOfStartCodes(nalus[m])
    requires forall m :: i <= m < j ==> nalus[m] == [] || nalus[m][0] % 32 != SpsNalType
    requires |nalus[j]| > 0 && nalus[j][0] % 32 == SpsNalType
    ensures FindSps(AnnexB(nalus), NaluOffset(nalus, i), k) == Found(NaluOffset(nalus, j), k + j - i)
    decreases j - i
  {
    var data, o := AnnexB(nalus), NaluOffset(nalus, i);
    assert o + 4 < |data| by {
      NaluOffsetBounds(nalus, i, j);
      NaluOffsetBounds(nalus, j + 1, |nalus|);
    }
    HeaderByteAt(nalus, i);
    if i == j {
      FindSpsHits(data, o, k);
    } else {
      assert FindSps(data, o, k) == FindSps(data, NaluOffset(nalus, i + 1), k + 1) by {
        NaluAt(nalus, i);
        FindSpsSkips(data, o, k, NaluOffset(nalus, i + 1));
      }
      AnnexBFindSps(nalus, i + 1, j, k + 1);
    }
  }

  lemma FindSpsHits(data: seq<Byte>, p: nat, k: nat)
    requires p + 4 < |data| && data[p + 4] % 32 == SpsNalType
    ensures FindSps(data, p, k) == Found(p, k)
  {
  }

  lemma FindSpsSkips(data: seq<Byte>, p: nat, k: nat, e: nat)
    requires p + 4 < |data| && data[p + 4] % 32 != SpsNalType && NextNaluEnd(data, p) == Ok(e)
    ensures FindSps(data, p, k) == FindSps(data, e, k + 1)
  {
  }

  /** Round trip of the H.264 fragmenter: a play-through of the Annex B stream
      of `nalus`, whose first unit with an SPS header byte is unit `j`, skips
      exactly the `j` units before it and submits unit `j` and every later
      unit as a fragment of its own. */
  lemma AnnexBPlayThrough(nalus: seq<seq<Byte>>, j: nat)
    requires j < |nalus|
    requires forall m :: 0 <= m < |nalus| ==> FreeOfStartCodes(nalus[m])
    requires forall m :: 0 <= m < j ==> nalus[m] == [] || nalus[m][0] % 32 != SpsNalType
    requires |nalus[j]| > 0 && nalus[j][0] % 32 == SpsNalType
    ensures PlayChain(AnnexB(nalus), true, 0) == Some(Chain(|nalus| - j, j, |nalus| - j))
  {
    AnnexBFindSps(nalus, 0, j, 0);
    assert NaluOffset(nalus, 0) == 0 && 0 + j - 0 == j;
    AnnexBFromSps(nalus, j);
  }

  /** Once the search stops at unit `j`, the play-through submits unit `j`
      and every later unit. */
  lemma AnnexBFromSps(nalus: seq<seq<Byte>>, j: nat)
    requires j < |nalus|
    requires forall m :: 0 <= m < |nalus| ==> FreeOfStartCodes(nalus[m])
    requires FindSps(AnnexB(nalus), 0, 0) == Found(NaluOffset(nalus, j), j)
    ensures PlayChain(AnnexB(nalus), true, 0) == Some(Chain(|nalus| - j, j, |nalus| - j))
  {
    AnnexBUnitSpan(nalus, j);
    AnnexBTailChain(nalus, j + 1);
    AnnexBCompose(nalus, j);
  }

  /** The first fragment, unit `j`, followed by the play-through of the
      units after it. */
  lemma AnnexBCompose(nalus: seq<seq<Byte>>, j: nat)
    requires j < |nalus|
    requires FindSps(AnnexB(nalus), 0, 0) == Found(NaluOffset(nalus, j), j)
    requires NaluOffset(nalus, j) < NaluOffset(nalus, j + 1) <= |AnnexB(nalus)|
    requires NextNaluEnd(AnnexB(nalus), NaluOffset(nalus, j)) == Ok(NaluOffset(nalus, j + 1))
    requires PlayChain(AnnexB(nalus), true, NaluOffset(nalus, j + 1))
             == Some(Chain(|nalus| - (j + 1), 0, |nalus| - (j + 1)))
    ensures PlayChain(AnnexB(nalus), true, 0) == Some(Chain(|nalus| - j, j, |nalus| - j))
  {
    PlayFromSps(AnnexB(nalus), NaluOffset(nalus, j), j, NaluOffset(nalus, j + 1),
                Chain(|nalus| - (j + 1), 0, |nalus| - (j + 1)), Chain(|nalus| - j, j, |nalus| - j));
  }

  /** Unit `i` spans from its offset to the next one. */
  lemma AnnexBUnitSpan(nalus: seq<seq<Byte>>, i: nat)
    requires i < |nalus| && FreeOfStartCodes(nalus[i])
    ensures NaluOffset(nalus, i) < NaluOffset(nalus, i + 1) <= |AnnexB(nalus)|
    ensures NextNaluEnd(AnnexB(nalus), NaluOffset(nalus, i)) == Ok(NaluOffset(nalus, i + 1))
  {
    NaluAt(nalus, i);
    NaluOffsetBounds(nalus, i + 1, |nalus|);
  }

  /** From the first SPS unit on, a play-through continues as from any cursor. */
  lemma PlayFromSps(data: seq<Byte>, at: nat, k: nat, e: nat, c: Chain, r: Chain)
    requires FindSps(data, 0, 0) == Found(at, k) && at < e <= |data| && NextNaluEnd(data, at) == Ok(e)
    requires PlayChain(data, true, e) == Some(c)
    requires r == Chain(c.steps + 1, c.skipped + k, c.queued + 1)
    ensures PlayChain(data, true, 0) == Some(r)
  {
    FirstFragmentAtSps(data, at, k, e);
    PlayChainStep(data, true, 0, Fragment(data[at..e], e, k, 1), c, r);
  }

  lemma FirstFragmentAtSps(data: seq<Byte>, at: nat, k: nat, e: nat)
    requires FindSps(data, 0, 0) == Found(at, k) && at < e && NextNaluEnd(data, at) == Ok(e)
    ensures FragmentAt(data, true, 0) == Ok(Fragment(data[at..e], e, k, 1))
  {
    FindSpsCountsSkipped(data, 0, 0, at, k);
  }

  /** The four little-endian bytes of a 32-bit value. */
  function LittleEndianBytes(v: nat): (b: seq<Byte>)
    requires v < 0x1_0000_0000
    ensures |b| == 4
  {
    [v % 0x100, v / 0x100 % 0x100, v / 0x1_0000 % 0x100, v / 0x100_0000]
  }

  lemma LittleEndianRoundTrip(v: nat, before: seq<Byte>, after: seq<Byte>)
    requires v < 0x1_0000_0000
    ensures LittleEndian32(before + LittleEndianBytes(v) + after, |before|) == v
  {
    var data := before + LittleEndianBytes(v) + after;
    var p := |before|;
    var r1 := v / 0x100;
    var r2 := r1 / 0x100;
    assert v / 0x1_0000 == r2;
    assert v / 0x100_0000 == r2 / 0x100;
    assert data[p] == v % 0x100 && data[p + 1] == r1 % 0x100;
    assert data[p + 2] == r2 % 0x100 && data[p + 3] == r2 / 0x100;
    assert v == v % 0x100 + 0x100 * (r1 % 0x100 + 0x100 * (r2 % 0x100 + 0x100 * (r2 / 0x100)));
  }

  /** One IVF frame: the 8 header bytes after the size field, and the payload. */
  datatype IvfFrameRecord = IvfFrameRecord(header: seq<Byte>, payload: seq<Byte>)

  ghost predicate WellFormedFrame(f: IvfFrameRecord) {
    |f.header| == 8 && |f.payload| < 0x1_0000_0000
  }

  /** The bytes of one IVF frame as a muxer writes them. */
  function IvfFrame(f: IvfFrameRecord): (b: seq<Byte>)
    requires WellFormedFrame(f)
    ensures |b| == 12 + |f.payload|
  {
    LittleEndianBytes(|f.payload|) + f.header + f.payload
  }

  function IvfFrames(frames: seq<IvfFrameRecord>): seq<Byte>
    requires forall i :: 0 <= i < |frames| ==> WellFormedFrame(frames[i])
  {
    if frames == [] then [] else IvfFrame(frames[0]) + IvfFrames(frames[1..])
  }

  /** GetBytesForNextFrame reads back a frame written at the cursor (or, at
      cursor 0, right after the 32-byte file header). */
  lemma IvfFrameRead(data: seq<Byte>, before: seq<Byte>, f: IvfFrameRecord, after: seq<Byte>, start: nat)
    requires WellFormedFrame(f) && data == before + IvfFrame(f) + after
    requires (start == |before| && start > 0) || (start == 0 && |before| == IvfFileHeaderSize)
    ensures FragmentAt(data, false, start) == Ok(Fragment(f.payload, |before| + 12 + |f.payload|, 0, 1))
  {
    var p := |before|;
    assert data == before + LittleEndianBytes(|f.payload|) + (f.header + f.payload + after);
    LittleEndianRoundTrip(|f.payload|, before, f.header + f.payload + after);
    assert data[p + 12..p + 12 + |f.payload|] == f.payload;
  }

  /** The frames after `before` split into the first frame and the rest. */
  lemma IvfFramesSplit(before: seq<Byte>, frames: seq<IvfFrameRecord>)
    requires frames != [] && forall i :: 0 <= i < |frames| ==> WellFormedFrame(frames[i])
    ensures before + IvfFrames(frames) == before + IvfFrame(frames[0]) + IvfFrames(frames[1..])
  {
    var f0, rest := IvfFrame(frames[0]), IvfFrames(frames[1..]);
    assert IvfFrames(frames) == f0 + rest;
    Assoc(before, f0, rest);
  }

  lemma Assoc(a: seq<Byte>, b: seq<Byte>, c: seq<Byte>)
    ensures a + (b + c) == a + b + c
  {
  }

  /** One frame of a play-through, followed by the rest of it. */
  lemma IvfChainStep(data: seq<Byte>, before: seq<Byte>, f: IvfFrameRecord, rest: seq<Byte>, start: nat,
                     e: nat, n: nat, m: nat)
    requires WellFormedFrame(f) && data == before + IvfFrame(f) + rest
    requires (start == |before| && start > 0) || (start == 0 && |before| == IvfFileHeaderSize)
    requires e == |before| + 12 + |f.payload| && PlayChain(data, false, e) == Some(Chain(n, 0, n))
    requires m == n + 1
    ensures PlayChain(data, false, start) == Some(Chain(m, 0, m))
  {
    IvfFrameRead(data, before, f, rest, start);
    PlayChainStep(data, false, start, Fragment(f.payload, e, 0, 1), Chain(n, 0, n), Chain(m, 0, m));
  }

  lemma {:induction false} IvfTailChain(before: seq<Byte>, frames: seq<IvfFrameRecord>)
    requires |before| > 0
    requires forall i :: 0 <= i < |frames| ==> WellFormedFrame(frames[i])
    ensures PlayChain(before + IvfFrames(frames), false, |before|) == Some(Chain(|frames|, 0, |frames|))
    decreases |frames|
  {
    if frames == [] {
      assert before + IvfFrames(frames) == before;
    } else {
      var before', rest := before + IvfFrame(frames[0]), IvfFrames(frames[1..]);
      var data := before + IvfFrames(frames);
      assert data == before' + rest by {
        IvfFramesSplit(before, frames);
      }
      IvfTailChain(before', frames[1..]);
      IvfChainStep(data, before, frames[0], rest, |before|, |before'|, |frames[1..]|, |frames|);
    }
  }

  /** Round trip of the VP8 fragmenter: a play-through of an IVF file with at
      least one frame submits each frame's payload once, in order, and counts
      each as queued. (With no frame at all the first read runs past the
      end of the data.) */
  lemma IvfPlayThrough(fileHeader: seq<Byte>, frames: seq<IvfFrameRecord>)
    requires |fileHeader| == IvfFileHeaderSize && |frames| > 0
    requires forall i :: 0 <= i < |frames| ==> WellFormedFrame(frames[i])
    ensures PlayChain(fileHeader + IvfFrames(frames), false, 0) == Some(Chain(|frames|, 0, |frames|))
  {
    var before', rest := fileHeader + IvfFrame(frames[0]), IvfFrames(frames[1..]);
    var data := fileHeader + IvfFrames(frames);
    assert data == before' + rest by {
      IvfFramesSplit(fileHeader, frames);
    }
    IvfTailChain(before', frames[1..]);
    IvfChainStep(data, fileHeader, frames[0], rest, 0, |before'|, |frames[1..]|, |frames|);
  }

  /** Without any frame the first read of an IVF file fails. */
  lemma IvfHeaderOnlyFails(fileHeader: seq<Byte>)
    requires |fileHeader| == IvfFileHeaderSize
    ensures PlayChain(fileHeader, false, 0) == None
  {
    assert NextIvfFrame(fileHeader, 0) == Fail(FrameSizeUnreadable);
  }
}
