/**
 Laws of framing: the frames depend on the stream alone and not on how it was cut into
 reads, they are its lines, and each descriptor goes to at most one of them.
 */
module FramingLaws {
  import opened Net
  import opened Framing
  import opened Utf8

  // ---------------------------------------------------------------------------
  // Streams without descriptors

  function BytesOf(incoming: seq<Read>): seq<Byte> {
    if incoming == [] then [] else incoming[0].bytes + BytesOf(incoming[1..])
  }

  lemma PlainConcat(a: seq<Byte>, b: seq<Byte>)
    ensures Plain(a) + Plain(b) == Plain(a + b)
  {
  }

  lemma {:induction false} PlainReads(incoming: seq<Read>)
    requires forall i :: 0 <= i < |incoming| ==> incoming[i].fds == []
    ensures StreamOf(incoming) == Plain(BytesOf(incoming))
  {
    if incoming != [] {
      PlainReads(incoming[1..]);
      assert Marks(incoming[0]) == Plain(incoming[0].bytes);
      PlainConcat(incoming[0].bytes, BytesOf(incoming[1..]));
    }
  }

  /** However a descriptor-free stream is cut into reads, the frames are the same. */
  lemma CuttingDoesNotMatter(one: seq<Read>, other: seq<Read>)
    requires forall i :: 0 <= i < |one| ==> one[i].fds == []
    requires forall i :: 0 <= i < |other| ==> other[i].fds == []
    requires BytesOf(one) == BytesOf(other)
    ensures Frames(StreamOf(one)) == Frames(StreamOf(other))
  {
    PlainReads(one);
    PlainReads(other);
  }

  /** The newline-terminated lines of a text. */
  function Lines(bytes: seq<Byte>): seq<seq<Byte>>
    decreases |bytes|
  {
    var k := NewlineIndex(bytes);
    if k == |bytes| then [] else [bytes[..k]] + Lines(bytes[k + 1..])
  }

  /** What follows the last newline. */
  function Remainder(bytes: seq<Byte>): seq<Byte>
    decreases |bytes|
  {
    var k := NewlineIndex(bytes);
    if k == |bytes| then bytes else Remainder(bytes[k + 1..])
  }

  function Joined(lines: seq<seq<Byte>>): seq<Byte> {
    if lines == [] then [] else lines[0] + [10] + Joined(lines[1..])
  }

  lemma TextSplits(bytes: seq<Byte>, k: nat, joined: seq<Byte>, rest: seq<Byte>)
    requires k < |bytes| && bytes[k] == NEWLINE && joined + rest == bytes[k + 1..]
    ensures (bytes[..k] + [NEWLINE] + joined) + rest == bytes
  {
    assert bytes == bytes[..k] + [NEWLINE] + bytes[k + 1..];
  }

  /** The lines are the text cut at its newlines, and nowhere else. */
  lemma {:induction false} LinesAreTheText(bytes: seq<Byte>)
    ensures Joined(Lines(bytes)) + Remainder(bytes) == bytes
    ensures forall i :: 0 <= i < |Lines(bytes)| ==> 10 !in Lines(bytes)[i]
    ensures 10 !in Remainder(bytes)
    decreases |bytes|
  {
    var k := NewlineIndex(bytes);
    if k < |bytes| {
      LinesAreTheText(bytes[k + 1..]);
      assert Lines(bytes)[1..] == Lines(bytes[k + 1..]);
      TextSplits(bytes, k, Joined(Lines(bytes[k + 1..])), Remainder(bytes[k + 1..]));
    }
  }

  // ---------------------------------------------------------------------------
  // What a frame says

  /** `content` is what `line` says: a carriage return at its end is not part of it. */
  ghost predicate Says(line: seq<Byte>, content: seq<Byte>) {
    line == content + [13] || (line == content && (line == [] || line[|line| - 1] != 13))
  }

  /** Some text, encoded, is what the line says. */
  ghost predicate IsText(line: seq<Byte>) {
    exists text: seq<Scalar> :: Says(line, EncodeAll(text))
  }

  /** The verdict on a line, in terms of bytes, characters and the descriptors along its frame. */
  ghost predicate Means(frame: Stream, result: Frame)
    requires frame != []
  {
    var line := Bytes(frame)[..|frame| - 1];
    var crowded := |frame[0].fds| > 5;
    var misplaced := exists k :: 1 <= k < |frame| && k <= 1_048_576 && frame[k].fds != [];
    match result.line
    case Accepted(content) =>
      && !crowded && !misplaced && |line| <= 1_048_576 && Says(line, content)
      && (exists text: seq<Scalar> :: EncodeAll(text) == content) && result.fds == frame[0].fds
    case Rejected(TooManyDescriptors) => crowded && result.fds == []
    case Rejected(MisplacedDescriptors) => !crowded && misplaced && result.fds == []
    case Rejected(TooLong) => !crowded && !misplaced && |line| > 1_048_576 && result.fds == []
    case Rejected(InvalidUtf8) =>
      !crowded && !misplaced && |line| <= 1_048_576 && !IsText(line) && result.fds == []
  }

  lemma SaysOne(line: seq<Byte>, content: seq<Byte>)
    ensures Says(line, content) <==> content == WithoutReturn(line)
  {
    if line == content + [13] {
      assert line[..|line| - 1] == content;
    }
    if line != [] && line[|line| - 1] == 13 {
      assert line == line[..|line| - 1] + [13];
    }
  }

  lemma TextExactly(line: seq<Byte>)
    ensures IsText(line) <==> ValidUtf8(WithoutReturn(line))
  {
    if IsText(line) {
      var text: seq<Scalar> :| Says(line, EncodeAll(text));
      SaysOne(line, EncodeAll(text));
      EncodingsAreValid(text);
    }
    if ValidUtf8(WithoutReturn(line)) {
      var text := Decode(WithoutReturn(line));
      SaysOne(line, EncodeAll(text));
      assert Says(line, EncodeAll(text));
    }
  }

  /** Every frame gets the verdict its bytes and descriptors deserve. */
  lemma JudgeMeans(frame: Stream)
    requires frame != []
    ensures Means(frame, Judge(frame))
  {
    var line := Bytes(frame)[..|frame| - 1];
    TextExactly(line);
    SaysOne(line, WithoutReturn(line));
    ValidUtf8Exactly(WithoutReturn(line));
  }

  /** `after` is what follows the first newline of `before`, and `result` the verdict on what comes up to it. */
  ghost predicate GivesFirst(before: Stream, result: Option<Frame>, after: Stream) {
    match result
    case None => after == [] && forall i :: 0 <= i < |before| ==> before[i].byte != 10
    case Some(frame) =>
      exists k :: 0 <= k < |before| && EndsFirst(before, k) && Means(before[..k + 1], frame) && after == before[k + 1..]
  }

  /** The first newline is at `k`. */
  ghost predicate EndsFirst(s: Stream, k: nat)
    requires k < |s|
  {
    s[k].byte == 10 && forall i :: 0 <= i < k ==> s[i].byte != 10
  }

  lemma TakingGivesFirst(before: Stream, result: Option<Frame>, after: Stream)
    requires TakesFirst(before, result, after)
    ensures GivesFirst(before, result, after)
  {
    var k := LineEnd(before);
    if k < |before| {
      assert EndsFirst(before, k);
      JudgeMeans(before[..k + 1]);
    }
  }

  /** So does every frame of a stream, whatever its descriptors. */
  lemma FramesMean(s: Stream, i: nat)
    requires i < |Frames(s)|
    ensures Means(Cut(s)[i], Frames(s)[i])
  {
    JudgeMeans(Cut(s)[i]);
  }

  /** A line without descriptors is rejected if it is too long or not text, and accepted otherwise. */
  ghost predicate LineMeans(line: seq<Byte>, result: Frame) {
    && result.fds == []
    && match result.line
       case Accepted(content) =>
         |line| <= 1_048_576 && Says(line, content) && exists text: seq<Scalar> :: EncodeAll(text) == content
       case Rejected(error) => if |line| > 1_048_576 then error == TooLong else error == InvalidUtf8 && !IsText(line)
  }

  lemma JudgePlain(line: seq<Byte>)
    ensures LineMeans(line, Judge(Plain(line + [NEWLINE])))
  {
    var frame := Plain(line + [NEWLINE]);
    assert Bytes(frame)[..|line|] == line;
    JudgeMeans(frame);
  }

  lemma PlainLineEnd(bytes: seq<Byte>)
    ensures LineEnd(Plain(bytes)) == NewlineIndex(bytes)
  {
    LineEndIs(Plain(bytes), NewlineIndex(bytes));
  }

  lemma PlainSlices(bytes: seq<Byte>, k: nat)
    requires k <= |bytes|
    ensures Plain(bytes)[..k] == Plain(bytes[..k])
    ensures Plain(bytes)[k..] == Plain(bytes[k..])
  {
  }

  lemma LinesUnfold(bytes: seq<Byte>, k: nat)
    requires k == NewlineIndex(bytes) < |bytes|
    ensures Lines(bytes) == [bytes[..k]] + Lines(bytes[k + 1..])
  {
  }

  /** Lines with their newlines, as pieces of a stream. */
  ghost function Pieces(lines: seq<seq<Byte>>): (pieces: seq<Stream>)
    ensures |pieces| == |lines|
    ensures forall i :: 0 <= i < |lines| ==> pieces[i] == Plain(lines[i] + [NEWLINE])
  {
    seq(|lines|, i requires 0 <= i < |lines| => Plain(lines[i] + [NEWLINE]))
  }

  lemma PiecesUnfold(line: seq<Byte>, lines: seq<seq<Byte>>)
    ensures Pieces([line] + lines) == [Plain(line + [NEWLINE])] + Pieces(lines)
  {
    var all := [line] + lines;
    forall i | 0 <= i < |all| ensures Pieces(all)[i] == ([Plain(line + [NEWLINE])] + Pieces(lines))[i] {
      assert i > 0 ==> all[i] == lines[i - 1];
    }
  }

  lemma PlainSplits(bytes: seq<Byte>, k: nat)
    requires k < |bytes| && bytes[k] == NEWLINE
    ensures Plain(bytes)[..k + 1] == Plain(bytes[..k] + [NEWLINE])
    ensures Plain(bytes)[k + 1..] == Plain(bytes[k + 1..])
  {
    PlainSlices(bytes, k + 1);
    assert bytes[..k + 1] == bytes[..k] + [NEWLINE];
  }

  lemma CutPlain(bytes: seq<Byte>, k: nat)
    requires k == NewlineIndex(bytes) < |bytes|
    ensures Cut(Plain(bytes)) == [Plain(bytes[..k] + [NEWLINE])] + Cut(Plain(bytes[k + 1..]))
  {
    var s := Plain(bytes);
    assert k == LineEnd(s) by { PlainLineEnd(bytes); }
    calc {
      Cut(s);
      { CutUnfold(s, k); }
      [s[..k + 1]] + Cut(s[k + 1..]);
      { PlainSplits(bytes, k); }
      [Plain(bytes[..k] + [NEWLINE])] + Cut(Plain(bytes[k + 1..]));
    }
  }

  lemma PiecesOfLines(bytes: seq<Byte>, k: nat)
    requires k == NewlineIndex(bytes) < |bytes|
    ensures Pieces(Lines(bytes)) == [Plain(bytes[..k] + [NEWLINE])] + Pieces(Lines(bytes[k + 1..]))
  {
    LinesUnfold(bytes, k);
    PiecesUnfold(bytes[..k], Lines(bytes[k + 1..]));
  }

  lemma NoLines(bytes: seq<Byte>)
    requires NewlineIndex(bytes) == |bytes|
    ensures Cut(Plain(bytes)) == [] && Lines(bytes) == []
  {
    PlainLineEnd(bytes);
  }

  /** A descriptor-free stream is cut at the ends of its lines. */
  lemma {:induction false} CutsAreLines(bytes: seq<Byte>)
    ensures Cut(Plain(bytes)) == Pieces(Lines(bytes))
    decreases |bytes|
  {
    var k := NewlineIndex(bytes);
    if k < |bytes| {
      CutPlain(bytes, k);
      PiecesOfLines(bytes, k);
      CutsAreLines(bytes[k + 1..]);
    } else {
      NoLines(bytes);
    }
  }

  /** The frames of a descriptor-free stream are its lines, each judged on its own. */
  lemma FramesAreLines(bytes: seq<Byte>)
    ensures |Frames(Plain(bytes))| == |Lines(bytes)|
    ensures forall i :: 0 <= i < |Lines(bytes)| ==> LineMeans(Lines(bytes)[i], Frames(Plain(bytes))[i])
  {
    CutsAreLines(bytes);
    forall i | 0 <= i < |Lines(bytes)| ensures LineMeans(Lines(bytes)[i], Frames(Plain(bytes))[i]) {
      JudgePlain(Lines(bytes)[i]);
    }
  }

  // ---------------------------------------------------------------------------
  // Descriptors

  /** The position at which piece `i` of a stream starts. */
  ghost function PieceStart(s: Stream, i: nat): nat
    requires i <= |Cut(s)|
  {
    TotalLength(Cut(s)[..i])
  }

  ghost function TotalLength(pieces: seq<Stream>): nat {
    if pieces == [] then 0 else |pieces[0]| + TotalLength(pieces[1..])
  }

  ghost function Glue(pieces: seq<Stream>): (s: Stream)
    ensures |s| == TotalLength(pieces)
  {
    if pieces == [] then [] else pieces[0] + Glue(pieces[1..])
  }

  lemma {:induction false} GlueConcat(a: seq<Stream>, b: seq<Stream>)
    ensures Glue(a + b) == Glue(a) + Glue(b)
  {
    if a == [] {
      assert a + b == b;
    } else {
      calc {
        Glue(a + b);
        { assert (a + b)[1..] == a[1..] + b; }
        a[0] + Glue(a[1..] + b);
        { GlueConcat(a[1..], b); }
        a[0] + (Glue(a[1..]) + Glue(b));
        (a[0] + Glue(a[1..])) + Glue(b);
      }
    }
  }

  /** The pieces put together again are the stream up to its last newline. */
  lemma {:induction false} CutIsPrefix(s: Stream)
    ensures Glue(Cut(s)) <= s
    decreases |s|
  {
    var k := LineEnd(s);
    if k < |s| {
      CutIsPrefix(s[k + 1..]);
      CutUnfold(s, k);
      GlueUnfold(s[..k + 1], Cut(s[k + 1..]));
      PrefixExtends(s, k + 1, Glue(Cut(s[k + 1..])));
    }
  }

  lemma GlueUnfold(piece: Stream, pieces: seq<Stream>)
    ensures Glue([piece] + pieces) == piece + Glue(pieces)
  {
    assert ([piece] + pieces)[1..] == pieces;
  }

  lemma PrefixExtends(s: Stream, k: nat, more: Stream)
    requires k <= |s| && more <= s[k..]
    ensures s[..k] + more <= s
  {
  }

  lemma PieceIsASlice(s: Stream, i: nat)
    requires i < |Cut(s)|
    ensures PieceStart(s, i) + |Cut(s)[i]| <= |s|
    ensures Cut(s)[i] == s[PieceStart(s, i)..PieceStart(s, i) + |Cut(s)[i]|]
  {
    CutIsPrefix(s);
    SliceOfGlue(Cut(s), i, s);
  }

  lemma SliceOfGlue(pieces: seq<Stream>, i: nat, s: Stream)
    requires i < |pieces| && Glue(pieces) <= s
    ensures TotalLength(pieces[..i]) + |pieces[i]| <= |s|
    ensures pieces[i] == s[TotalLength(pieces[..i])..TotalLength(pieces[..i]) + |pieces[i]|]
  {
    assert pieces == pieces[..i] + ([pieces[i]] + pieces[i + 1..]);
    GlueConcat(pieces[..i], [pieces[i]] + pieces[i + 1..]);
    GlueConcat([pieces[i]], pieces[i + 1..]);
    GlueOne(pieces[i]);
    Middle(Glue(pieces[..i]), pieces[i], Glue(pieces[i + 1..]), s);
  }

  lemma GlueOne(piece: Stream)
    ensures Glue([piece]) == piece
  {
    assert piece + Glue([]) == piece;
  }

  lemma Middle(a: Stream, b: Stream, c: Stream, s: Stream)
    requires a + (b + c) <= s
    ensures |a| + |b| <= |s| && s[|a|..|a| + |b|] == b
  {
    assert s[..|a + (b + c)|] == a + (b + c);
    assert s[|a|..|a| + |b|] == (a + (b + c))[|a|..|a| + |b|];
  }

  lemma JudgedDescriptors(piece: Stream)
    requires piece != []
    ensures |Judge(piece).fds| <= MAX_FRAME_FDS
    ensures Judge(piece).fds == if Judge(piece).line.Accepted? then piece[0].fds else []
    ensures multiset(Judge(piece).fds) <= Descriptors(piece)
  {
  }

  /**
   An accepted frame carries what arrived with its first byte, at most five descriptors; a rejected one
   carries none.
   */
  lemma FrameDescriptors(s: Stream, i: nat)
    requires i < |Frames(s)|
    ensures PieceStart(s, i) < |s|
    ensures |Frames(s)[i].fds| <= MAX_FRAME_FDS
    ensures Frames(s)[i].fds == if Frames(s)[i].line.Accepted? then s[PieceStart(s, i)].fds else []
  {
    PieceIsASlice(s, i);
    JudgedDescriptors(Cut(s)[i]);
  }

  lemma DeliveredUnfold(frame: Frame, frames: seq<Frame>)
    ensures Delivered([frame] + frames) == multiset(frame.fds) + Delivered(frames)
  {
    assert ([frame] + frames)[1..] == frames;
  }

  lemma SumsGrow(a: multiset<Fd>, a': multiset<Fd>, b: multiset<Fd>, b': multiset<Fd>)
    requires a <= a' && b <= b'
    ensures a + b <= a' + b'
  {
  }

  /** Counting repetitions, no descriptor is handed out more often than it arrived. */
  lemma {:induction false} FramesDeliverAtMost(s: Stream)
    ensures Delivered(Frames(s)) <= Descriptors(s)
    decreases |s|
  {
    var k := LineEnd(s);
    if k < |s| {
      var piece, rest := s[..k + 1], s[k + 1..];
      FramesDeliverAtMost(rest);
      assert s == piece + rest;
      calc <= {
        Delivered(Frames(s));
        { FramesUnfold(s, k); DeliveredUnfold(Judge(piece), Frames(rest)); }
        multiset(Judge(piece).fds) + Delivered(Frames(rest));
        { JudgedDescriptors(piece);
          SumsGrow(multiset(Judge(piece).fds), Descriptors(piece), Delivered(Frames(rest)), Descriptors(rest)); }
        Descriptors(piece) + Descriptors(rest);
        { DescriptorsConcat(piece, rest); }
        Descriptors(s);
      }
    }
  }

  lemma {:induction false} SharedTwice(frames: seq<Frame>, i: nat, j: nat, fd: Fd)
    requires i < j < |frames| && fd in frames[i].fds && fd in frames[j].fds
    ensures Delivered(frames)[fd] >= 2
  {
    if i == 0 {
      DeliveredHas(frames[1..], j - 1, fd);
    } else {
      SharedTwice(frames[1..], i - 1, j - 1, fd);
    }
  }

  lemma {:induction false} DeliveredHas(frames: seq<Frame>, j: nat, fd: Fd)
    requires j < |frames| && fd in frames[j].fds
    ensures Delivered(frames)[fd] >= 1
  {
    if j > 0 {
      DeliveredHas(frames[1..], j - 1, fd);
    }
  }

  /** When each descriptor arrives once, no two frames share one. */
  lemma NoDescriptorInTwoFrames(s: Stream, i: nat, j: nat, fd: Fd)
    requires Descriptors(s)[fd] <= 1
    requires i < j < |Frames(s)|
    ensures fd !in Frames(s)[i].fds || fd !in Frames(s)[j].fds
  {
    FramesDeliverAtMost(s);
    if fd in Frames(s)[i].fds && fd in Frames(s)[j].fds {
      SharedTwice(Frames(s), i, j, fd);
    }
  }
}
