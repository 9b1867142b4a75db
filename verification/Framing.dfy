/**
 Control-socket framing: newline-delimited requests with descriptors attached to their
 first byte. A rejected request is read through its newline, so the next one starts clean.
 */
module Framing {
  import opened Net

  const READ_BUFFER_BYTES: nat := 4096
  const MAX_REQUEST_BYTES: nat := 1024 * 1024
  const MAX_FRAME_FDS: nat := MAX_VMS
  const NEWLINE: Byte := 10
  const CARRIAGE_RETURN: Byte := 13

  type Byte = b: int | 0 <= b < 256
  type Fd = int

  /** One receive operation: some bytes, and the descriptors that came with the first of them. */
  datatype Read = Read(bytes: seq<Byte>, fds: seq<Fd>) {
    predicate Valid() {
      1 <= |bytes| <= READ_BUFFER_BYTES && |fds| <= MAX_FRAME_FDS + 1
    }
  }

  datatype FrameError = TooLong | TooManyDescriptors | MisplacedDescriptors | InvalidUtf8

  datatype Line = Accepted(text: seq<Byte>) | Rejected(error: FrameError)

  datatype Frame = Frame(line: Line, fds: seq<Fd>)

  // ---------------------------------------------------------------------------
  // The stream, whatever reads it arrives in

  /** A byte together with the descriptors that arrived at it. */
  datatype Marked = Marked(byte: Byte, fds: seq<Fd>)

  type Stream = seq<Marked>

  function Plain(bytes: seq<Byte>): (s: Stream)
    ensures |s| == |bytes|
  {
    seq(|bytes|, i requires 0 <= i < |bytes| => Marked(bytes[i], []))
  }

  function Marks(r: Read): (s: Stream)
    ensures |s| == |r.bytes|
  {
    seq(|r.bytes|, i requires 0 <= i < |r.bytes| => Marked(r.bytes[i], if i == 0 then r.fds else []))
  }

  function StreamOf(arrivals: seq<Read>): Stream {
    if arrivals == [] then [] else Marks(arrivals[0]) + StreamOf(arrivals[1..])
  }

  function Bytes(s: Stream): (bytes: seq<Byte>)
    ensures |bytes| == |s|
  {
    seq(|s|, i requires 0 <= i < |s| => s[i].byte)
  }

  // ---------------------------------------------------------------------------
  // Text

  predicate Tail(b: Byte) {
    0x80 <= b <= 0xBF
  }

  /** Well-formed byte sequences of section 4 of RFC 3629. */
  predicate ValidUtf8(s: seq<Byte>)
    decreases |s|
  {
    if s == [] then true
    else if s[0] <= 0x7F then ValidUtf8(s[1..])
    else if 0xC2 <= s[0] <= 0xDF then |s| >= 2 && Tail(s[1]) && ValidUtf8(s[2..])
    else if 0xE0 <= s[0] <= 0xEF then
      && |s| >= 3 && Tail(s[1]) && Tail(s[2])
      && (s[0] == 0xE0 ==> 0xA0 <= s[1]) && (s[0] == 0xED ==> s[1] <= 0x9F)
      && ValidUtf8(s[3..])
    else if 0xF0 <= s[0] <= 0xF4 then
      && |s| >= 4 && Tail(s[1]) && Tail(s[2]) && Tail(s[3])
      && (s[0] == 0xF0 ==> 0x90 <= s[1]) && (s[0] == 0xF4 ==> s[1] <= 0x8F)
      && ValidUtf8(s[4..])
    else false
  }

  /** A trailing carriage return is not part of the line. */
  function WithoutReturn(line: seq<Byte>): seq<Byte> {
    if line != [] && line[|line| - 1] == CARRIAGE_RETURN then line[..|line| - 1] else line
  }

  // ---------------------------------------------------------------------------
  // What a stream means

  function NewlineIndex(bytes: seq<Byte>): (k: nat)
    ensures k <= |bytes|
    ensures k < |bytes| ==> bytes[k] == NEWLINE
    ensures forall i :: 0 <= i < k ==> bytes[i] != NEWLINE
  {
    if bytes == [] || bytes[0] == NEWLINE then 0 else 1 + NewlineIndex(bytes[1..])
  }

  /** The position of the first newline of a stream, or its length without one. */
  ghost function LineEnd(s: Stream): (k: nat)
    ensures k <= |s|
    ensures k < |s| ==> s[k].byte == NEWLINE
    ensures forall i :: 0 <= i < k ==> s[i].byte != NEWLINE
  {
    if s == [] || s[0].byte == NEWLINE then 0 else 1 + LineEnd(s[1..])
  }

  /** A mistake in the placement of descriptors on the first bytes of a frame. */
  ghost function MarkError(s: Stream): Option<FrameError> {
    if s != [] && |s[0].fds| > MAX_FRAME_FDS then Some(TooManyDescriptors)
    else if exists k :: 1 <= k < |s| && k <= MAX_REQUEST_BYTES && s[k].fds != [] then Some(MisplacedDescriptors)
    else None
  }

  /** The verdict on one frame, its newline included. */
  ghost function Judge(frame: Stream): Frame
    requires frame != []
  {
    var line := Bytes(frame)[..|frame| - 1];
    if MarkError(frame).Some? then Frame(Rejected(MarkError(frame).value), [])
    else if |line| > MAX_REQUEST_BYTES then Frame(Rejected(TooLong), [])
    else if !ValidUtf8(WithoutReturn(line)) then Frame(Rejected(InvalidUtf8), [])
    else Frame(Accepted(WithoutReturn(line)), frame[0].fds)
  }

  /** A stream cut after each newline; bytes after the last one make no piece. */
  ghost function Cut(s: Stream): (pieces: seq<Stream>)
    ensures forall i :: 0 <= i < |pieces| ==> pieces[i] != []
    decreases |s|
  {
    var k := LineEnd(s);
    if k == |s| then [] else [s[..k + 1]] + Cut(s[k + 1..])
  }

  ghost function JudgeAll(pieces: seq<Stream>): (frames: seq<Frame>)
    requires forall i :: 0 <= i < |pieces| ==> pieces[i] != []
    ensures |frames| == |pieces|
    ensures forall i :: 0 <= i < |pieces| ==> frames[i] == Judge(pieces[i])
  {
    seq(|pieces|, i requires 0 <= i < |pieces| => Judge(pieces[i]))
  }

  /** The frames of a stream. */
  ghost function Frames(s: Stream): seq<Frame> {
    JudgeAll(Cut(s))
  }

  /** All descriptors that arrive with a stream. */
  ghost function Descriptors(s: Stream): multiset<Fd> {
    if s == [] then multiset{} else multiset(s[0].fds) + Descriptors(s[1..])
  }

  /** Descriptors closed, held, and still to come. */
  ghost function Owed(closed: multiset<Fd>, held: seq<Fd>, rest: Stream): multiset<Fd> {
    closed + multiset(held) + Descriptors(rest)
  }

  // ---------------------------------------------------------------------------
  // The transport as it runs

  /** The error recorded once `s` has arrived and its first `seen` bytes hold no newline. */
  ghost function Recorded(s: Stream, seen: nat): Option<FrameError> {
    if MarkError(s).Some? then MarkError(s)
    else if seen > MAX_REQUEST_BYTES then Some(TooLong)
    else None
  }

  /** A frame in the making: bytes held, how many of them were searched, descriptors held, the first error. */
  datatype Scan = Scan(input: seq<Byte>, searched: nat, fds: seq<Fd>, error: Option<FrameError>)

  /** `s` has arrived, and `scan` holds its bytes from `base` on. */
  ghost predicate Scanning(s: Stream, base: nat, scan: Scan) {
    && HoldsFrom(s, base, scan.input) && scan.searched <= |scan.input|
    && (forall i :: 0 <= i < base + scan.searched ==> s[i].byte != NEWLINE)
    && (forall i :: base + scan.searched < i < |s| ==> s[i].fds == [])
    && scan.error == Recorded(s, base + scan.searched)
    && (scan.error.None? ==> base == 0 && scan.fds == FirstDescriptors(s))
  }

  ghost predicate HoldsFrom(s: Stream, base: nat, input: seq<Byte>) {
    |s| == base + |input| && forall i :: base <= i < |s| ==> s[i].byte == input[i - base]
  }

  ghost function FirstDescriptors(s: Stream): seq<Fd> {
    if s == [] then [] else s[0].fds
  }

  /** The whole of `s` has been searched without finding a newline. */
  ghost predicate Searched(s: Stream, scan: Scan) {
    && (forall i :: 0 <= i < |s| ==> s[i].byte != NEWLINE)
    && scan.searched == |scan.input|
    && scan.error == Recorded(s, |s|)
    && (scan.error.None? ==> HoldsFrom(s, 0, scan.input) && scan.fds == FirstDescriptors(s))
    && (scan.error.Some? ==> scan.input == [])
  }

  // The steps of the loop

  /** Where the newline is, or the length of the input without one. */
  function Search(scan: Scan): (newline: nat)
    requires scan.searched <= |scan.input|
    ensures scan.searched <= newline <= |scan.input|
  {
    scan.searched + NewlineIndex(scan.input[scan.searched..])
  }

  /** Adds the size error unless there is one already; a carriage return counts, the newline does not. */
  function SizeChecked(error: Option<FrameError>, length: nat): Option<FrameError> {
    if length > MAX_REQUEST_BYTES && error.None? then Some(TooLong) else error
  }

  function Deliver(scan: Scan, newline: nat): Frame
    requires newline <= |scan.input|
  {
    var error := SizeChecked(scan.error, newline);
    var line := WithoutReturn(scan.input[..newline]);
    if error.Some? then Frame(Rejected(error.value), [])
    else if !ValidUtf8(line) then Frame(Rejected(InvalidUtf8), [])
    else Frame(Accepted(line), scan.fds)
  }

  /** Once a frame is known to be bad, nothing of it is held any longer. */
  function Discard(scan: Scan): Scan {
    var error := SizeChecked(scan.error, |scan.input|);
    if error.Some? then Scan([], 0, [], error) else Scan(scan.input, |scan.input|, scan.fds, error)
  }

  /** Takes in one read; descriptors in the middle of a frame, or too many of them, are its error. */
  function Absorb(scan: Scan, read: Read): Scan {
    var error :=
      if scan.error.Some? || read.fds == [] then scan.error
      else if scan.input != [] then Some(MisplacedDescriptors)
      else if |read.fds| > MAX_FRAME_FDS then Some(TooManyDescriptors)
      else None;
    Scan(scan.input + read.bytes, scan.searched, scan.fds + read.fds, error)
  }

  // What each step keeps

  /** The search meets the first newline of the stream, or there is none in what arrived. */
  lemma SearchFinds(s: Stream, base: nat, scan: Scan)
    requires Scanning(s, base, scan)
    ensures
      var k := base + Search(scan);
      && (forall i :: 0 <= i < k ==> s[i].byte != NEWLINE)
      && (k < |s| ==> s[k].byte == NEWLINE)
  {
    var rest := scan.input[scan.searched..];
    var k := base + Search(scan);
    forall i | base + scan.searched <= i < |s| ensures s[i].byte == rest[i - base - scan.searched] {
    }
  }

  lemma LeftoverIsPlain(s: Stream, base: nat, scan: Scan, newline: nat)
    requires Scanning(s, base, scan)
    requires scan.searched <= newline < |scan.input|
    ensures s[base + newline + 1..] == Plain(scan.input[newline + 1..])
  {
  }

  /** Unmarked bytes add no placement error. */
  lemma MarkErrorOfPrefix(s: Stream, n: nat)
    requires 0 < n <= |s| && forall i :: n <= i < |s| ==> s[i].fds == []
    ensures MarkError(s[..n]) == MarkError(s)
  {
  }

  /** The frame delivered at its newline is the verdict on exactly its bytes and descriptors. */
  lemma DeliveredIsJudged(s: Stream, base: nat, scan: Scan, newline: nat)
    requires Scanning(s, base, scan)
    requires scan.searched <= newline < |scan.input|
    ensures Judge(s[..base + newline + 1]) == Deliver(scan, newline)
  {
    var k := base + newline;
    MarkErrorOfPrefix(s, k + 1);
    if scan.error.None? {
      assert Bytes(s[..k + 1])[..k] == scan.input[..newline];
    }
  }

  lemma DiscardKeepsSearched(s: Stream, base: nat, scan: Scan)
    requires Scanning(s, base, scan)
    requires forall i :: 0 <= i < |s| ==> s[i].byte != NEWLINE
    ensures Searched(s, Discard(scan))
    ensures |Discard(scan).input| <= MAX_REQUEST_BYTES
  {
  }

  /** Receiving more keeps the scan on track, whatever comes attached. */
  lemma AbsorbKeepsScanning(s: Stream, scan: Scan, read: Read)
    requires Searched(s, scan) && read.Valid()
    ensures Scanning(s + Marks(read), |s| - |scan.input|, Absorb(scan, read))
  {
    MarkErrorOfArrival(s, read);
  }

  lemma MarkErrorOfArrival(s: Stream, read: Read)
    requires read.Valid()
    ensures MarkError(s + Marks(read)) ==
            if MarkError(s).Some? || read.fds == [] then MarkError(s)
            else if s == [] then if |read.fds| > MAX_FRAME_FDS then Some(TooManyDescriptors) else None
            else if |s| <= MAX_REQUEST_BYTES then Some(MisplacedDescriptors)
            else None
  {
    var s' := s + Marks(read);
    assert s'[|s|].fds == read.fds;
    assert forall k :: 0 <= k < |s| ==> s'[k] == s[k];
    assert forall k :: |s| < k < |s'| ==> s'[k].fds == [];
  }

  /** What one call promises: the first frame of the stream and the stream after it, or nothing at its end. */
  ghost predicate TakesFirst(before: Stream, result: Option<Frame>, after: Stream) {
    var k := LineEnd(before);
    if k == |before| then result == None && after == []
    else result == Some(Judge(before[..k + 1])) && after == before[k + 1..]
  }

  lemma FoundTakesFirst(s: Stream, base: nat, scan: Scan, rest: Stream)
    requires Scanning(s, base, scan) && Search(scan) < |scan.input|
    ensures TakesFirst(s + rest, Some(Deliver(scan, Search(scan))), Plain(scan.input[Search(scan) + 1..]) + rest)
  {
    var newline := Search(scan);
    var k := base + newline;
    SearchFinds(s, base, scan);
    LineEndIs(s + rest, k);
    DeliveredIsJudged(s, base, scan, newline);
    LeftoverIsPlain(s, base, scan, newline);
    Splits(s, k + 1, rest);
  }

  lemma LineEndIs(s: Stream, k: nat)
    requires k <= |s| && forall i :: 0 <= i < k ==> s[i].byte != NEWLINE
    requires k < |s| ==> s[k].byte == NEWLINE
    ensures LineEnd(s) == k
  {
  }

  lemma Splits(s: Stream, n: nat, rest: Stream)
    requires n <= |s|
    ensures (s + rest)[..n] == s[..n]
    ensures (s + rest)[n..] == s[n..] + rest
  {
  }

  /** Between receive operations: everything is either arrived or to come, and no descriptor is lost. */
  ghost predicate Progress(before: Stream, owed: multiset<Fd>, s: Stream, base: nat, scan: Scan, rest: seq<Read>,
                           closed: multiset<Fd>) {
    && before == s + StreamOf(rest)
    && Scanning(s, base, scan)
    && Owed(closed, scan.fds, StreamOf(rest)) == owed
    && AllValid(rest)
    && |scan.input| - scan.searched <= READ_BUFFER_BYTES
  }

  lemma ProgressStarts(buffered: seq<Byte>, incoming: seq<Read>, closed: multiset<Fd>)
    requires AllValid(incoming) && |buffered| <= READ_BUFFER_BYTES
    ensures
      var before := Plain(buffered) + StreamOf(incoming);
      Progress(before, Owed(closed, [], before), Plain(buffered), 0, Scan(buffered, 0, [], None), incoming, closed)
  {
    PlainOwes(closed, [], buffered, StreamOf(incoming));
  }

  /** A call is over: the first frame was taken and every descriptor is accounted for. */
  ghost predicate Finished(before: Stream, owed: multiset<Fd>, result: Option<Frame>, buffered: seq<Byte>,
                           rest: seq<Read>, closed: multiset<Fd>) {
    && TakesFirst(before, result, Plain(buffered) + StreamOf(rest))
    && Owed(closed, if result.Some? then result.value.fds else [], Plain(buffered) + StreamOf(rest)) == owed
    && AllValid(rest) && |buffered| < READ_BUFFER_BYTES
  }

  ghost function ClosedAtEnd(scan: Scan, frame: Frame): multiset<Fd> {
    if frame.line.Rejected? then multiset(scan.fds) else multiset{}
  }

  lemma ProgressFound(before: Stream, owed: multiset<Fd>, s: Stream, base: nat, scan: Scan, rest: seq<Read>,
                      closed: multiset<Fd>)
    requires Progress(before, owed, s, base, scan, rest, closed) && Search(scan) < |scan.input|
    ensures
      var frame := Deliver(scan, Search(scan));
      Finished(before, owed, Some(frame), scan.input[Search(scan) + 1..], rest, closed + ClosedAtEnd(scan, frame))
  {
    var frame := Deliver(scan, Search(scan));
    FoundTakesFirst(s, base, scan, StreamOf(rest));
    Delivering(closed, scan, frame, StreamOf(rest));
    PlainOwes(closed + ClosedAtEnd(scan, frame), frame.fds, scan.input[Search(scan) + 1..], StreamOf(rest));
  }

  lemma ProgressEnds(before: Stream, owed: multiset<Fd>, s: Stream, base: nat, scan: Scan, closed: multiset<Fd>)
    requires Progress(before, owed, s, base, scan, [], closed) && Search(scan) == |scan.input|
    ensures Finished(before, owed, None, [], [], closed + multiset(scan.fds))
  {
    SearchFinds(s, base, scan);
    assert s + [] == s;
    LineEndIs(s, |s|);
    Closing(closed, scan.fds, []);
    assert Plain([]) + StreamOf([]) == [];
  }

  ghost function ClosedBy(scan: Scan): multiset<Fd> {
    if Discard(scan).error.Some? then multiset(scan.fds) else multiset{}
  }

  lemma ProgressReads(before: Stream, owed: multiset<Fd>, s: Stream, base: nat, scan: Scan, rest: seq<Read>,
                      closed: multiset<Fd>)
    requires Progress(before, owed, s, base, scan, rest, closed) && rest != [] && Search(scan) == |scan.input|
    ensures |Discard(scan).input| <= |s|
    ensures Progress(before, owed, s + Marks(rest[0]), |s| - |Discard(scan).input|,
                     Absorb(Discard(scan), rest[0]), rest[1..], closed + ClosedBy(scan))
    ensures |Absorb(Discard(scan), rest[0]).input| <= MAX_REQUEST_BYTES + READ_BUFFER_BYTES
  {
    SearchFinds(s, base, scan);
    DiscardKeepsSearched(s, base, scan);
    Discarding(closed, scan, StreamOf(rest));
    Arrival(s, rest, closed + ClosedBy(scan), Discard(scan).fds);
    AbsorbKeepsScanning(s, Discard(scan), rest[0]);
  }

  ghost predicate AllValid(incoming: seq<Read>) {
    forall i :: 0 <= i < |incoming| ==> incoming[i].Valid()
  }

  lemma FramesStep(frames: seq<Frame>, before: Stream, frame: Frame, after: Stream)
    requires TakesFirst(before, Some(frame), after)
    ensures frames + Frames(before) == (frames + [frame]) + Frames(after)
    ensures |after| < |before|
  {
    FramesUnfold(before, LineEnd(before));
    PrependFrame(frames, frame, Frames(after));
  }

  lemma FramesUnfold(s: Stream, k: nat)
    requires k == LineEnd(s) < |s|
    ensures Frames(s) == [Judge(s[..k + 1])] + Frames(s[k + 1..])
  {
    CutUnfold(s, k);
    JudgeOneMore(s[..k + 1], Cut(s[k + 1..]));
  }

  lemma CutUnfold(s: Stream, k: nat)
    requires k == LineEnd(s) < |s|
    ensures Cut(s) == [s[..k + 1]] + Cut(s[k + 1..])
  {
  }

  lemma JudgeOneMore(piece: Stream, pieces: seq<Stream>)
    requires piece != [] && forall i :: 0 <= i < |pieces| ==> pieces[i] != []
    ensures JudgeAll([piece] + pieces) == [Judge(piece)] + JudgeAll(pieces)
  {
    var all := [piece] + pieces;
    forall i | 0 <= i < |all| ensures JudgeAll(all)[i] == ([Judge(piece)] + JudgeAll(pieces))[i] {
      assert i > 0 ==> all[i] == pieces[i - 1];
    }
  }

  lemma PrependFrame(frames: seq<Frame>, frame: Frame, rest: seq<Frame>)
    ensures frames + ([frame] + rest) == (frames + [frame]) + rest
  {
  }

  lemma DeliveredOne(c: multiset<Fd>, c': multiset<Fd>, d: multiset<Fd>, before: Stream, fds: seq<Fd>, after: Stream)
    requires Owed(c', fds, after) == Owed(c, [], before)
    ensures Owed(c' + (d + multiset(fds)), [], after) == Owed(c + d, [], before)
  {
    MoveTerm(c', multiset(fds), Descriptors(after), d);
    MoveTerm(c, multiset([]), Descriptors(before), d);
    assert d + multiset([]) == d;
  }

  lemma MoveTerm(a: multiset<Fd>, b: multiset<Fd>, c: multiset<Fd>, d: multiset<Fd>)
    ensures a + (d + b) + multiset([]) + c == d + (a + b + c)
  {
  }

  lemma DeliveredNone(c: multiset<Fd>, c': multiset<Fd>, d: multiset<Fd>, before: Stream, after: Stream)
    requires Owed(c', [], after) == Owed(c, [], before) && after == []
    ensures c' + d == Owed(c + d, [], before)
  {
    DeliveredOne(c, c', d, before, [], after);
    assert d + multiset([]) == d;
  }

  /** All descriptors handed out with frames. */
  ghost function Delivered(frames: seq<Frame>): multiset<Fd> {
    if frames == [] then multiset{} else multiset(frames[0].fds) + Delivered(frames[1..])
  }

  lemma {:induction false} DeliveredMore(frames: seq<Frame>, frame: Frame)
    ensures Delivered(frames + [frame]) == Delivered(frames) + multiset(frame.fds)
  {
    if frames != [] {
      DeliveredMore(frames[1..], frame);
      assert (frames + [frame])[1..] == frames[1..] + [frame];
      SumsAssociate(multiset(frames[0].fds), Delivered(frames[1..]), multiset(frame.fds));
    }
  }

  lemma Closing(closed: multiset<Fd>, fds: seq<Fd>, rest: Stream)
    ensures Owed(closed + multiset(fds), [], rest) == Owed(closed, fds, rest)
  {
  }

  lemma Delivering(closed: multiset<Fd>, scan: Scan, frame: Frame, rest: Stream)
    requires frame.fds == if frame.line.Rejected? then [] else scan.fds
    ensures Owed(closed + ClosedAtEnd(scan, frame), frame.fds, rest) == Owed(closed, scan.fds, rest)
  {
  }

  lemma Discarding(closed: multiset<Fd>, scan: Scan, rest: Stream)
    ensures Owed(closed + ClosedBy(scan), Discard(scan).fds, rest) == Owed(closed, scan.fds, rest)
  {
  }

  lemma PlainOwes(closed: multiset<Fd>, fds: seq<Fd>, bytes: seq<Byte>, rest: Stream)
    ensures Owed(closed, fds, Plain(bytes) + rest) == Owed(closed, fds, rest)
  {
    DescriptorsConcat(Plain(bytes), rest);
    PlainHasNoDescriptors(bytes);
  }

  lemma Arrival(s: Stream, incoming: seq<Read>, closed: multiset<Fd>, fds: seq<Fd>)
    requires incoming != [] && incoming[0].Valid()
    ensures s + StreamOf(incoming) == (s + Marks(incoming[0])) + StreamOf(incoming[1..])
    ensures Owed(closed, fds + incoming[0].fds, StreamOf(incoming[1..])) == Owed(closed, fds, StreamOf(incoming))
  {
    DescriptorsConcat(Marks(incoming[0]), StreamOf(incoming[1..]));
    MarksDescriptors(incoming[0]);
    assert s + (Marks(incoming[0]) + StreamOf(incoming[1..])) == (s + Marks(incoming[0])) + StreamOf(incoming[1..]);
  }

  lemma {:induction false} MarksDescriptors(read: Read)
    requires read.Valid()
    ensures Descriptors(Marks(read)) == multiset(read.fds)
  {
    assert Marks(read)[1..] == Plain(read.bytes[1..]);
    PlainHasNoDescriptors(read.bytes[1..]);
  }

  lemma {:induction false} PlainHasNoDescriptors(bytes: seq<Byte>)
    ensures Descriptors(Plain(bytes)) == multiset{}
  {
    if bytes != [] {
      PlainHasNoDescriptors(bytes[1..]);
      assert Plain(bytes)[1..] == Plain(bytes[1..]);
    }
  }

  lemma SumsAssociate(a: multiset<Fd>, b: multiset<Fd>, c: multiset<Fd>)
    ensures a + (b + c) == (a + b) + c
  {
  }

  lemma DescriptorsStep(a: Stream, b: Stream)
    requires a != []
    ensures Descriptors(a + b) == multiset(a[0].fds) + Descriptors(a[1..] + b)
  {
    assert (a + b)[1..] == a[1..] + b;
  }

  lemma {:induction false} DescriptorsConcat(a: Stream, b: Stream)
    ensures Descriptors(a + b) == Descriptors(a) + Descriptors(b)
  {
    if a == [] {
      assert a + b == b;
    } else {
      calc {
        Descriptors(a + b);
        { DescriptorsStep(a, b); }
        multiset(a[0].fds) + Descriptors(a[1..] + b);
        { DescriptorsConcat(a[1..], b); }
        multiset(a[0].fds) + (Descriptors(a[1..]) + Descriptors(b));
        { SumsAssociate(multiset(a[0].fds), Descriptors(a[1..]), Descriptors(b)); }
        Descriptors(a) + Descriptors(b);
      }
    }
  }
}
