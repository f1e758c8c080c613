/** The test-video list the decode test reads from the command line:
    entries separated by ';', each `file:width:height:frames:fragments:
    min_fps_render:min_fps_no_render:profile`, where every field but the
    file name may be left empty.  Numbers are parsed, a mid-stream reset is
    planned, and the frame-rate expectations are shared between concurrent
    decoders.  Reading the video file itself is left to the caller. */
module TestVideoData {
  import CM = ClientModel

  datatype Option<T> = None | Some(value: T)
  datatype Result<T> = Ok(value: T) | Err(error: ParseError)

  /** Why parsing fails: one of the CHECKs, or a read past the end of the
      field vector. */
  datatype ParseError = NoEntries | NoFields | TooManyFields | BadNumber(field: nat) | FieldPastEnd(index: nat)

  /** Resets are planned no later than this frame. */
  const MaxResetAfterFrameNum: int := 100

  const Int32Min: int := -0x8000_0000
  const Int32Max: int := 0x7FFF_FFFF

  predicate IsWhitespace(c: char) {
    c == ' ' || c == '\t' || c == '\n' || c == '\r' || c as int == 11 || c as int == 12
  }

  /** The piece of `s` with leading and trailing whitespace removed. */
  function Trim(s: string): (t: string)
    ensures |t| <= |s|
    ensures t != [] ==> !IsWhitespace(t[0]) && !IsWhitespace(t[|t| - 1])
    decreases |s|
  {
    if s == [] then []
    else if IsWhitespace(s[0]) then Trim(s[1..])
    else if IsWhitespace(s[|s| - 1]) then Trim(s[..|s| - 1])
    else s
  }

  /** The pieces of `s` between separators, in order, always at least one. */
  function Pieces(s: string, sep: char): (parts: seq<string>)
    ensures |parts| >= 1
    ensures forall i :: 0 <= i < |parts| ==> sep !in parts[i]
  {
    if s == [] then [""]
    else
      var rest := Pieces(s[1..], sep);
      if s[0] == sep then [""] + rest
      else [[s[0]] + rest[0]] + rest[1..]
  }

  function CountOf(s: string, sep: char): nat {
    if s == [] then 0 else (if s[0] == sep then 1 else 0) + CountOf(s[1..], sep)
  }

  /** A string with k separators has k + 1 pieces. */
  lemma {:induction false} PiecesCount(s: string, sep: char)
    ensures |Pieces(s, sep)| == CountOf(s, sep) + 1
    decreases |s|
  {
    if s != [] {
      PiecesCount(s[1..], sep);
    }
  }

  /** A string without the separator is a single piece. */
  lemma {:induction false} PiecesWithoutSeparator(s: string, sep: char)
    ensures sep !in s ==> Pieces(s, sep) == [s]
    decreases |s|
  {
    if s != [] && sep !in s {
      assert sep !in s[1..];
      PiecesWithoutSeparator(s[1..], sep);
      assert [s[0]] + s[1..] == s;
    }
  }

  /** base::SplitString: the trimmed pieces, except that a string without a
      separator that trims to nothing gives no pieces at all. */
  function SplitString(s: string, sep: char): (r: seq<string>)
    ensures r == [] || |r| == CountOf(s, sep) + 1
    ensures sep !in s ==> r == (if Trim(s) == [] then [] else [Trim(s)])
  {
    PiecesCount(s, sep);
    PiecesWithoutSeparator(s, sep);
    var raw := Pieces(s, sep);
    var trimmed := seq(|raw|, i requires 0 <= i < |raw| => Trim(raw[i]));
    if |raw| == 1 && trimmed[0] == [] then [] else trimmed
  }

  /** The value of a non-empty string of decimal digits. */
  function DigitsValue(s: string): nat
    requires forall i :: 0 <= i < |s| ==> '0' <= s[i] <= '9'
  {
    if s == [] then 0 else 10 * DigitsValue(s[..|s| - 1]) + (s[|s| - 1] - '0') as nat
  }

  predicate AllDigits(s: string) {
    forall i :: 0 <= i < |s| ==> '0' <= s[i] <= '9'
  }

  /** base::StringToInt: an optional sign and at least one digit, nothing
      else, with a value that fits in an int. */
  function StringToInt(s: string): Option<int> {
    var negative := |s| > 0 && s[0] == '-';
    var digits := if |s| > 0 && (s[0] == '-' || s[0] == '+') then s[1..] else s;
    if digits == [] || !AllDigits(digits) then None
    else
      var magnitude: int := DigitsValue(digits);
      var v := if negative then -magnitude else magnitude;
      if Int32Min <= v <= Int32Max then Some(v) else None
  }

  /** The decimal rendering of a natural number, without leading zeros. */
  function Decimal(n: nat): (s: string)
    ensures |s| >= 1 && AllDigits(s)
  {
    if n < 10 then [('0' as int + n) as char] else Decimal(n / 10) + [('0' as int + n % 10) as char]
  }

  lemma {:induction false} DecimalValue(n: nat)
    ensures DigitsValue(Decimal(n)) == n
  {
    if n >= 10 {
      var s := Decimal(n);
      assert s[..|s| - 1] == Decimal(n / 10);
      DecimalValue(n / 10);
    }
  }

  /** StringToInt on a bare run of digits. */
  lemma UnsignedParse(digits: string)
    requires digits != [] && AllDigits(digits)
    ensures StringToInt(digits) == (if DigitsValue(digits) <= Int32Max then Some(DigitsValue(digits)) else None)
  {
    assert digits[0] != '-' && digits[0] != '+';
  }

  /** StringToInt on a '-' followed by digits. */
  lemma NegativeParse(digits: string)
    requires digits != [] && AllDigits(digits)
    ensures StringToInt("-" + digits)
            == (if -(DigitsValue(digits) as int) >= Int32Min then Some(-(DigitsValue(digits) as int)) else None)
  {
    var s := "-" + digits;
    assert s[0] == '-' && s[1..] == digits;
  }

  /** Every int written in decimal, with a '-' when negative, parses back. */
  lemma StringToIntRoundTrip(v: int)
    requires Int32Min <= v <= Int32Max
    ensures StringToInt(if v < 0 then "-" + Decimal(-v) else Decimal(v)) == Some(v)
  {
    if v < 0 {
      DecimalValue(-v);
      NegativeParse(Decimal(-v));
    } else {
      DecimalValue(v);
      UnsignedParse(Decimal(v));
    }
  }

  /** An int divided by a size_t: the int is converted to a 64-bit unsigned
      value, divided, and the quotient converted back to a 32-bit int. */
  function DivideBySize(v: int, n: int): (q: int)
    requires Int32Min <= v <= Int32Max && n >= 1
    ensures Int32Min <= q <= Int32Max
  {
    var u := if v < 0 then v + 0x1_0000_0000_0000_0000 else v;
    var w := (u / n) % 0x1_0000_0000;
    if w > Int32Max then w - 0x1_0000_0000 else w
  }

  /** For the non-negative rates the files give, that is plain division. */
  lemma DivideBySizeOfRate(v: int, n: int)
    requires 0 <= v <= Int32Max && n >= 1
    ensures DivideBySize(v, n) == v / n
  {
    assert v / n <= v;
  }

  datatype TestVideoFile = TestVideoFile(
    fileName: string, width: int, height: int, numFrames: int, numFragments: int,
    minFpsRender: int, minFpsNoRender: int, profile: int, resetAfterFrameNum: int)

  /** The frame count the test expects and the frame to reset after, for a
      frame-count field `frames` and the requested reset point. */
  function FrameExpectations(frames: int, resetPoint: int): (r: (int, int))
    ensures frames > 0 && resetPoint == CM.MidStreamReset ==>
              && r.1 == (if frames <= MaxResetAfterFrameNum then 1 else MaxResetAfterFrameNum)
              && 1 <= r.1 <= frames
              && r.0 == frames + r.1
    ensures !(frames > 0 && resetPoint == CM.MidStreamReset) ==> r == (frames, resetPoint)
  {
    if frames > 0 && resetPoint == CM.MidStreamReset then
      var resetAfter := if frames <= MaxResetAfterFrameNum then 1 else MaxResetAfterFrameNum;
      (frames + resetAfter, resetAfter)
    else (frames, resetPoint)
  }

  /** A field the parser accepts: empty, or a number StringToInt reads. */
  predicate NumberOk(f: string) {
    f == [] || StringToInt(f).Some?
  }

  /** An optional numeric field: -1 when empty. */
  function FieldValue(f: string): int
    requires NumberOk(f)
  {
    if f == [] then -1 else StringToInt(f).value
  }

  /** The first of the numeric fields `i` to 7 whose CHECK fails. */
  function FirstBadField(fields: seq<string>, i: nat): (r: Option<nat>)
    requires 1 <= i <= 8 && |fields| == 8
    ensures r.None? <==> forall j :: i <= j < 8 ==> NumberOk(fields[j])
    ensures r.Some? ==> i <= r.value < 8 && !NumberOk(fields[r.value])
                        && forall j :: i <= j < r.value ==> NumberOk(fields[j])
    decreases 8 - i
  {
    if i == 8 then None
    else if !NumberOk(fields[i]) then Some(i)
    else FirstBadField(fields, i + 1)
  }

  /** An entry's eight fields, once the count has been checked. */
  function BuildFile(fields: seq<string>, decoders: int, resetPoint: int): (r: Result<TestVideoFile>)
    requires |fields| == 8 && decoders >= 1
    ensures r.Ok? <==> forall i :: 1 <= i < 8 ==> NumberOk(fields[i])
    ensures r.Err? ==> r.error.BadNumber? && 1 <= r.error.field < 8 && !NumberOk(fields[r.error.field])
    ensures r.Ok? ==> r.value.fileName == fields[0]
    ensures r.Ok? ==> && r.value.width == FieldValue(fields[1]) && r.value.height == FieldValue(fields[2])
                      && r.value.numFragments == FieldValue(fields[4]) && r.value.profile == FieldValue(fields[7])
    ensures r.Ok? ==> r.value.minFpsRender == (if fields[5] == [] then -1 else DivideBySize(FieldValue(fields[5]), decoders))
    ensures r.Ok? ==> r.value.minFpsNoRender == (if fields[6] == [] then -1 else DivideBySize(FieldValue(fields[6]), decoders))
    ensures r.Ok? && fields[3] == [] ==> r.value.numFrames == -1 && r.value.resetAfterFrameNum == CM.EndOfStreamReset
    ensures r.Ok? && fields[3] != [] ==>
              (r.value.numFrames, r.value.resetAfterFrameNum) == FrameExpectations(FieldValue(fields[3]), resetPoint)
  {
    match FirstBadField(fields, 1)
    case Some(i) => Err(BadNumber(i))
    case None =>
      var (numFrames, resetAfter) :=
        if fields[3] == [] then (-1, CM.EndOfStreamReset) else FrameExpectations(FieldValue(fields[3]), resetPoint);
      var render := if fields[5] == [] then -1 else DivideBySize(FieldValue(fields[5]), decoders);
      var noRender := if fields[6] == [] then -1 else DivideBySize(FieldValue(fields[6]), decoders);
      Ok(TestVideoFile(fields[0], FieldValue(fields[1]), FieldValue(fields[2]), numFrames, FieldValue(fields[4]),
                       render, noRender, FieldValue(fields[7]), resetAfter))
  }

  /** One entry as the code reads it: the field count is checked to lie
      between 1 and 8, and then fields 1 to 7 are read in order whatever the
      count. A short entry fails the CHECK of its first present field that
      is not a number, or else reads the first field it does not have. */
  function ParseEntryAsWritten(entry: string, decoders: int, resetPoint: int): (r: Result<TestVideoFile>)
    requires decoders >= 1
    ensures var fields := SplitString(entry, ':');
            1 <= |fields| < 8 ==>
              && r.Err?
              && (r.error.FieldPastEnd? <==> forall i :: 1 <= i < |fields| ==> NumberOk(fields[i]))
              && (r.error.FieldPastEnd? ==> r.error.index == |fields|)
              && (!r.error.FieldPastEnd? ==>
                    && r.error.BadNumber? && 1 <= r.error.field < |fields|
                    && !NumberOk(fields[r.error.field])
                    && forall i :: 1 <= i < r.error.field ==> NumberOk(fields[i]))
  {
    var fields := SplitString(entry, ':');
    if |fields| < 1 then Err(NoFields)
    else if |fields| > 8 then Err(TooManyFields)
    else if |fields| < 8 then
      var padded := PadFields(fields);
      assert forall i :: 1 <= i < |fields| ==> padded[i] == fields[i];
      match FirstBadField(padded, 1)
      case Some(i) => Err(BadNumber(i))
      case None => Err(FieldPastEnd(|fields|))
    else BuildFile(fields, decoders, resetPoint)
  }

  /** An entry that names only the file passes both CHECKs and reads past
      the end of its one-element field vector. */
  lemma FileNameOnlyReadsPastEnd()
    ensures SplitString("test.h264", ':') == ["test.h264"]
    ensures ParseEntryAsWritten("test.h264", 1, CM.EndOfStreamReset) == Err(FieldPastEnd(1))
  {
    assert ':' !in "test.h264";
    assert Trim("test.h264") == "test.h264";
  }

  /** A short entry whose first optional field is not a number fails that
      field's CHECK before any absent field is read. */
  lemma BadFieldFailsBeforeReadPastEnd()
    ensures SplitString("a:x", ':') == ["a", "x"]
    ensures ParseEntryAsWritten("a:x", 1, CM.EndOfStreamReset) == Err(BadNumber(1))
  {
    assert "a:x"[1..] == ":x" && ":x"[1..] == "x";
    PiecesWithoutSeparator("x", ':');
    assert Pieces(":x", ':') == [""] + ["x"];
    assert Pieces("a:x", ':') == [['a'] + ""] + ["x"];
    assert Trim("a") == "a" && Trim("x") == "x";
    var fields := SplitString("a:x", ':');
    assert |fields| == 2 && fields[0] == Trim("a") && fields[1] == Trim("x");
    assert fields == ["a", "x"];
    assert StringToInt("x").None?;
  }

  /** Fields the entry leaves out count as empty. */
  function PadFields(fields: seq<string>): (r: seq<string>)
    requires |fields| <= 8
    ensures |r| == 8 && r[..|fields|] == fields
    ensures forall i :: |fields| <= i < 8 ==> r[i] == []
  {
    fields + seq(8 - |fields|, _ => [])
  }

  /** One entry, with omitted trailing fields unspecified (-1), as the
      parser's own description intends: it never reads past the fields it
      has, and it succeeds exactly when the count is right and every given
      number parses. */
  function ParseEntry(entry: string, decoders: int, resetPoint: int): (r: Result<TestVideoFile>)
    requires decoders >= 1
    ensures r.Err? ==> !r.error.FieldPastEnd?
    ensures var fields := SplitString(entry, ':');
            r.Ok? <==> 1 <= |fields| <= 8 && forall i :: 1 <= i < |fields| ==> NumberOk(fields[i])
  {
    var fields := SplitString(entry, ':');
    if |fields| < 1 then Err(NoFields)
    else if |fields| > 8 then Err(TooManyFields)
    else
      var padded := PadFields(fields);
      assert forall i :: 1 <= i < |fields| ==> padded[i] == fields[i];
      assert forall i :: |fields| <= i < 8 ==> NumberOk(padded[i]);
      BuildFile(padded, decoders, resetPoint)
  }

  /** Where the code as written gives a result, the corrected parser gives
      the same one; and an entry with only a file name yields a file with
      every optional field unspecified. */
  lemma ParseEntryExtendsAsWritten(entry: string, decoders: int, resetPoint: int)
    requires decoders >= 1
    ensures !ParseEntryAsWritten(entry, decoders, resetPoint).Err?
            || !ParseEntryAsWritten(entry, decoders, resetPoint).error.FieldPastEnd? ==>
              ParseEntry(entry, decoders, resetPoint) == ParseEntryAsWritten(entry, decoders, resetPoint)
    ensures |SplitString(entry, ':')| == 1 ==>
              ParseEntry(entry, decoders, resetPoint)
              == Ok(TestVideoFile(SplitString(entry, ':')[0], -1, -1, -1, -1, -1, -1, -1, CM.EndOfStreamReset))
  {
    var fields := SplitString(entry, ':');
    if |fields| == 8 {
      assert PadFields(fields) == fields;
    }
    if |fields| == 1 {
      var padded := PadFields(fields);
      assert forall i :: 1 <= i < 8 ==> padded[i] == [];
    }
  }

  /** ParseAndReadTestVideoData without the file reads: every entry in
      order, or the first failure. */
  function ParseAll(entries: seq<string>, decoders: int, resetPoint: int): (r: Result<seq<TestVideoFile>>)
    requires decoders >= 1
    ensures r.Ok? ==> |r.value| == |entries|
  {
    if entries == [] then Ok([])
    else match ParseEntry(entries[0], decoders, resetPoint)
      case Err(e) => Err(e)
      case Ok(f) =>
        match ParseAll(entries[1..], decoders, resetPoint)
        case Err(e) => Err(e)
        case Ok(fs) => Ok([f] + fs)
  }

  /** The list parses exactly when every entry does ... */
  lemma {:induction false} ParseAllSucceeds(entries: seq<string>, decoders: int, resetPoint: int)
    requires decoders >= 1
    ensures ParseAll(entries, decoders, resetPoint).Ok?
            <==> forall i :: 0 <= i < |entries| ==> ParseEntry(entries[i], decoders, resetPoint).Ok?
  {
    if entries != [] {
      var tail := entries[1..];
      ParseAllSucceeds(tail, decoders, resetPoint);
      if ParseEntry(entries[0], decoders, resetPoint).Ok? {
        forall i | 1 <= i < |entries|
          ensures entries[i] == tail[i - 1]
        {
        }
      }
    }
  }

  /** ... and then holds each entry's file at the entry's position. */
  lemma {:induction false} ParseAllElements(entries: seq<string>, decoders: int, resetPoint: int)
    requires decoders >= 1 && ParseAll(entries, decoders, resetPoint).Ok?
    ensures forall i :: 0 <= i < |entries| ==>
              ParseEntry(entries[i], decoders, resetPoint) == Ok(ParseAll(entries, decoders, resetPoint).value[i])
  {
    if entries != [] {
      var tail := entries[1..];
      ParseAllElements(tail, decoders, resetPoint);
      var f := ParseEntry(entries[0], decoders, resetPoint).value;
      var rest := ParseAll(tail, decoders, resetPoint).value;
      var files := [f] + rest;
      assert ParseAll(entries, decoders, resetPoint) == Ok(files);
      forall i | 0 <= i < |entries|
        ensures ParseEntry(entries[i], decoders, resetPoint) == Ok(files[i])
      {
        if i > 0 {
          assert entries[i] == tail[i - 1] && files[i] == rest[i - 1];
        }
      }
    }
  }

  /** The files parsed so far in front of what the rest gives. */
  function Prefixed(files: seq<TestVideoFile>, r: Result<seq<TestVideoFile>>): Result<seq<TestVideoFile>> {
    if r.Err? then r else Ok(files + r.value)
  }

  lemma ParseAllAccepts(rest: seq<string>, decoders: int, resetPoint: int, files: seq<TestVideoFile>)
    requires decoders >= 1 && rest != [] && ParseEntry(rest[0], decoders, resetPoint).Ok?
    ensures Prefixed(files, ParseAll(rest, decoders, resetPoint))
            == Prefixed(files + [ParseEntry(rest[0], decoders, resetPoint).value], ParseAll(rest[1..], decoders, resetPoint))
  {
    var f := ParseEntry(rest[0], decoders, resetPoint).value;
    var tail := ParseAll(rest[1..], decoders, resetPoint);
    assert ParseAll(rest, decoders, resetPoint) == if tail.Err? then tail else Ok([f] + tail.value);
    PrefixedCons(files, f, tail);
  }

  /** One more file in front moves from the result to the prefix. */
  lemma PrefixedCons(files: seq<TestVideoFile>, f: TestVideoFile, tail: Result<seq<TestVideoFile>>)
    ensures Prefixed(files, if tail.Err? then tail else Ok([f] + tail.value)) == Prefixed(files + [f], tail)
  {
    if tail.Ok? {
      assert files + ([f] + tail.value) == (files + [f]) + tail.value;
    }
  }

  lemma ParseAllRejects(rest: seq<string>, decoders: int, resetPoint: int, files: seq<TestVideoFile>)
    requires decoders >= 1 && rest != [] && ParseEntry(rest[0], decoders, resetPoint).Err?
    ensures Prefixed(files, ParseAll(rest, decoders, resetPoint)) == Err(ParseEntry(rest[0], decoders, resetPoint).error)
  {
  }

  lemma PrefixedEnds(entries: seq<string>, decoders: int, resetPoint: int, files: seq<TestVideoFile>)
    requires decoders >= 1
    ensures Prefixed([], ParseAll(entries, decoders, resetPoint)) == ParseAll(entries, decoders, resetPoint)
    ensures Prefixed(files, ParseAll([], decoders, resetPoint)) == Ok(files)
  {
    PrefixedNothing(ParseAll(entries, decoders, resetPoint));
    assert files + [] == files;
  }

  /** No files in front leave a result as it is. */
  lemma PrefixedNothing(r: Result<seq<TestVideoFile>>)
    ensures Prefixed([], r) == r
  {
    if r.Ok? {
      assert [] + r.value == r.value;
    }
  }

  /** The loop over the entries. */
  method ParseEntries(entries: seq<string>, decoders: int, resetPoint: int)
    returns (r: Result<seq<TestVideoFile>>)
    requires decoders >= 1
    ensures r == ParseAll(entries, decoders, resetPoint)
  {
    var files: seq<TestVideoFile> := [];
    var index := 0;
    PrefixedEnds(entries, decoders, resetPoint, files);
    assert entries[0..] == entries;
    while index < |entries|
      invariant index <= |entries|
      invariant ParseAll(entries, decoders, resetPoint) == Prefixed(files, ParseAll(entries[index..], decoders, resetPoint))
    {
      var file := ParseEntry(entries[index], decoders, resetPoint);
      if file.Err? {
        ParseAllRejects(entries[index..], decoders, resetPoint, files);
        return Err(file.error);
      }
      ParseAllAccepts(entries[index..], decoders, resetPoint, files);
      assert entries[index..][1..] == entries[index + 1..];
      files := files + [file.value];
      index := index + 1;
    }
    assert entries[index..] == [];
    PrefixedEnds(entries, decoders, resetPoint, files);
    r := Ok(files);
  }

  method ParseAndReadTestVideoData(data: string, decoders: int, resetPoint: int)
    returns (r: Result<seq<TestVideoFile>>)
    requires decoders >= 1
    ensures SplitString(data, ';') == [] ==> r == Err(NoEntries)
    ensures SplitString(data, ';') != [] ==> r == ParseAll(SplitString(data, ';'), decoders, resetPoint)
  {
    var entries := SplitString(data, ';');
    if |entries| < 1 {
      return Err(NoEntries);
    }
    r := ParseEntries(entries, decoders, resetPoint);
  }
}
