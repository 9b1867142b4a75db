/**
 The control transport as it runs: a loop over receive operations that hands out one
 frame per call, and an object that keeps what was read beyond the frame.
 */
module ControlTransport {
  import opened Net
  import opened Framing
  import opened FramingLaws

  /** Keeps receiving until the bytes held have a newline or the stream ends. */
  method ReceiveLine(buffered: seq<Byte>, incoming: seq<Read>, ghost closed: multiset<Fd>, ghost before: Stream,
                     ghost owed: multiset<Fd>)
    returns (scan: Scan, incoming': seq<Read>, ghost s: Stream, ghost base: nat, ghost closed': multiset<Fd>,
             ghost peak: nat)
    requires |buffered| < READ_BUFFER_BYTES
    requires Progress(before, owed, Plain(buffered), 0, Scan(buffered, 0, [], None), incoming, closed)
    ensures Progress(before, owed, s, base, scan, incoming', closed')
    ensures Search(scan) == |scan.input| ==> incoming' == []
    ensures |scan.input| <= peak <= MAX_REQUEST_BYTES + READ_BUFFER_BYTES
  {
    scan := Scan(buffered, 0, [], None);
    incoming', closed', peak, s, base := incoming, closed, |buffered|, Plain(buffered), 0;

    while Search(scan) == |scan.input| && incoming' != []
      invariant Progress(before, owed, s, base, scan, incoming', closed')
      invariant scan.searched <= |scan.input| <= peak <= MAX_REQUEST_BYTES + READ_BUFFER_BYTES
      decreases |incoming'|
    {
      ProgressReads(before, owed, s, base, scan, incoming', closed');
      closed' := closed' + ClosedBy(scan);
      base, s := |s| - |Discard(scan).input|, s + Marks(incoming'[0]);
      scan := Absorb(Discard(scan), incoming'[0]);
      incoming' := incoming'[1..];
      peak := if peak < |scan.input| then |scan.input| else peak;
    }
  }

  /** Delivers the next frame, or nothing at the end of the stream. */
  method ReadFrame(buffered: seq<Byte>, incoming: seq<Read>, ghost closed: multiset<Fd>, ghost before: Stream,
                   ghost owed: multiset<Fd>)
    returns (result: Option<Frame>, buffered': seq<Byte>, incoming': seq<Read>, ghost closed': multiset<Fd>,
             ghost peak: nat)
    requires |buffered| < READ_BUFFER_BYTES
    requires Progress(before, owed, Plain(buffered), 0, Scan(buffered, 0, [], None), incoming, closed)
    ensures TakesFirst(before, result, Plain(buffered') + StreamOf(incoming')) && |buffered'| < READ_BUFFER_BYTES
    ensures Finished(before, owed, result, buffered', incoming', closed')
    ensures peak <= MAX_REQUEST_BYTES + READ_BUFFER_BYTES
  {
    var scan;
    ghost var s, base;
    scan, incoming', s, base, closed', peak := ReceiveLine(buffered, incoming, closed, before, owed);
    if Search(scan) < |scan.input| {
      result, buffered', closed' := TakeFrame(scan, incoming', before, owed, s, base, closed');
    } else {
      ProgressEnds(before, owed, s, base, scan, closed');
      result, buffered', closed' := None, [], closed' + multiset(scan.fds);
    }
  }

  /** Takes the frame off at its newline and keeps what was read beyond it. */
  method TakeFrame(scan: Scan, incoming: seq<Read>, ghost before: Stream, ghost owed: multiset<Fd>, ghost s: Stream,
                   ghost base: nat, ghost closed: multiset<Fd>)
    returns (result: Option<Frame>, buffered: seq<Byte>, ghost closed': multiset<Fd>)
    requires Progress(before, owed, s, base, scan, incoming, closed) && Search(scan) < |scan.input|
    ensures TakesFirst(before, result, Plain(buffered) + StreamOf(incoming)) && |buffered| < READ_BUFFER_BYTES
    ensures Finished(before, owed, result, buffered, incoming, closed')
  {
    ProgressFound(before, owed, s, base, scan, incoming, closed);
    var newline := Search(scan);
    var frame := Deliver(scan, newline);
    return Some(frame), scan.input[newline + 1..], closed + ClosedAtEnd(scan, frame);
  }

  class ControlTransport {
    /** What the socket is going to deliver. */
    var incoming: seq<Read>
    var buffered: seq<Byte>
    ghost var closed: multiset<Fd>
    ghost var highWater: nat

    ghost predicate Valid()
      reads this
    {
      && AllValid(incoming)
      && |buffered| < READ_BUFFER_BYTES
      && highWater <= MAX_REQUEST_BYTES + READ_BUFFER_BYTES
    }

    /** Everything not yet turned into frames. */
    ghost function Pending(): Stream
      reads this
    {
      Plain(buffered) + StreamOf(incoming)
    }

    constructor (incoming: seq<Read>)
      requires AllValid(incoming)
      ensures Valid() && Pending() == StreamOf(incoming) && closed == multiset{}
    {
      this.incoming, buffered, closed, highWater := incoming, [], multiset{}, 0;
      assert Plain([]) + StreamOf(incoming) == StreamOf(incoming);
    }

    method Next() returns (result: Option<Frame>)
      requires Valid()
      modifies this
      ensures Valid()
      ensures TakesFirst(old(Pending()), result, Pending())
      ensures GivesFirst(old(Pending()), result, Pending())
      ensures Owed(closed, if result.Some? then result.value.fds else [], Pending()) ==
              Owed(old(closed), [], old(Pending()))
    {
      ghost var peak;
      ProgressStarts(buffered, incoming, closed);
      result, buffered, incoming, closed, peak :=
        ReadFrame(buffered, incoming, closed, Pending(), Owed(closed, [], Pending()));
      highWater := if highWater < peak then peak else highWater;
      TakingGivesFirst(old(Pending()), result, Pending());
    }

    /** Calls `Next` until the stream ends. */
    method ReadAll() returns (frames: seq<Frame>)
      requires Valid()
      modifies this
      ensures Valid() && Pending() == []
      ensures frames == Frames(old(Pending()))
      ensures closed + Delivered(frames) == Owed(old(closed), [], old(Pending()))
    {
      frames := [];
      ghost var all, owed := Frames(Pending()), Owed(closed, [], Pending());
      assert frames + Frames(Pending()) == all;
      assert closed + Delivered(frames) == closed;
      while true
        invariant Valid()
        invariant frames + Frames(Pending()) == all
        invariant Owed(closed + Delivered(frames), [], Pending()) == owed
        decreases |Pending()|
      {
        ghost var before, closedBefore := Pending(), closed;
        var next := Next();
        match next {
          case None =>
            assert frames + [] == frames;
            DeliveredNone(closedBefore, closed, Delivered(frames), before, Pending());
            return;
          case Some(frame) =>
            FramesStep(frames, before, frame, Pending());
            DeliveredMore(frames, frame);
            DeliveredOne(closedBefore, closed, Delivered(frames), before, frame.fds, Pending());
            frames := frames + [frame];
        }
      }
    }
  }
}
