/**
  A stream that concatenates parts of other streams.  The inner streams keep their
  own cursors, and only the current one is moved by a seek.
 */
module SegmentedStreams {
  import opened Bytes
  import opened Wrappers

  /** An inner stream: its contents and the position of its cursor. */
  datatype Inner = Inner(bytes: seq<Byte>, cursor: nat)

  /** The part of an inner stream that is taken: where it begins, and its length. */
  datatype Segment = Segment(offset: nat, length: nat)

  /** All that a segmented stream consists of; each segment has an inner stream of its own. */
  datatype State = State(segments: seq<Segment>, streams: seq<Inner>, current: nat, position: nat) {

    /** Segments lie within their streams, and cursors within their segments. */
    ghost predicate Valid() {
      && |streams| == |segments|
      && current <= |segments|
      && forall i :: 0 <= i < |segments| ==> InSegment(segments[i], streams[i])
    }

    /** The cursors of all segments behind the current one stand at their start. */
    ghost predicate LaterAtStart()
      requires Valid()
    {
      forall j :: current < j < |segments| ==> streams[j].cursor == segments[j].offset
    }

    /** How many bytes of the current segment are in front of the cursor. */
    function Remaining(): nat
      requires Valid() && current < |segments|
    {
      assert InSegment(segments[current], streams[current]);
      segments[current].offset + segments[current].length - streams[current].cursor
    }

    /** The bytes of all segments, one after the other. */
    ghost function Flat(): seq<Byte>
      requires Valid()
    {
      Joined(Parts(segments, streams), |segments|)
    }

    /** The offset in the concatenation at which the next byte is read or written. */
    ghost function Where(): nat
      requires Valid()
    {
      Start(segments, current) + if current < |segments| then segments[current].length - Remaining() else 0
    }
  }

  // ---------- Pieces of sequences ----------

  /** The sequence with some of its elements overwritten. */
  function Put(s: seq<Byte>, at: nat, data: seq<Byte>): (r: seq<Byte>)
    requires at + |data| <= |s|
    ensures |r| == |s|
  {
    s[..at] + data + s[at + |data|..]
  }

  lemma SliceOfSlice(s: seq<Byte>, offset: nat, length: nat, a: nat, b: nat)
    requires offset + length <= |s| && a <= b <= length
    ensures s[offset..offset + length][a..b] == s[offset + a..offset + b]
  {
    var part := s[offset..offset + length];
    assert forall k :: 0 <= k < b - a ==> part[a..b][k] == part[a + k] == s[offset + a + k];
  }

  lemma SliceOfFirst(first: seq<Byte>, rest: seq<Byte>, a: nat, b: nat)
    requires a <= b <= |first|
    ensures (first + rest)[a..b] == first[a..b]
  {
  }

  lemma SliceOfRest(first: seq<Byte>, rest: seq<Byte>, a: nat, b: nat)
    requires a <= b <= |rest|
    ensures (first + rest)[|first| + a..|first| + b] == rest[a..b]
  {
  }

  lemma PutInFirst(first: seq<Byte>, rest: seq<Byte>, at: nat, data: seq<Byte>)
    requires at + |data| <= |first|
    ensures Put(first, at, data) + rest == Put(first + rest, at, data)
  {
  }

  lemma PutInRest(first: seq<Byte>, rest: seq<Byte>, at: nat, data: seq<Byte>)
    requires at + |data| <= |rest|
    ensures first + Put(rest, at, data) == Put(first + rest, |first| + at, data)
  {
  }

  lemma PutSlice(s: seq<Byte>, offset: nat, length: nat, at: nat, data: seq<Byte>)
    requires offset + length <= |s| && at + |data| <= length
    ensures Put(s, offset + at, data)[offset..offset + length] == Put(s[offset..offset + length], at, data)
  {
  }

  lemma PutTwice(s: seq<Byte>, at: nat, data: seq<Byte>, more: seq<Byte>)
    requires at + |data| + |more| <= |s|
    ensures Put(Put(s, at, data), at + |data|, more) == Put(s, at, data + more)
  {
    var once := Put(s, at, data);
    assert once[..at + |data|] == s[..at] + data;
    assert once[at + |data| + |more|..] == s[at + |data + more|..];
    assert (s[..at] + data) + more == s[..at] + (data + more);
  }

  lemma JoinSlices(s: seq<Byte>, a: nat, b: nat, c: nat)
    requires a <= b <= c <= |s|
    ensures s[a..b] + s[b..c] == s[a..c]
  {
  }

  /** The first parts, one after the other. */
  function Joined(parts: seq<seq<Byte>>, i: nat): seq<Byte>
    requires i <= |parts|
  {
    if i == 0 then [] else Joined(parts, i - 1) + parts[i - 1]
  }

  lemma {:induction false} JoinedSlice(parts: seq<seq<Byte>>, j: nat, i: nat, a: nat, b: nat)
    requires j < i <= |parts| && a <= b <= |parts[j]|
    ensures |Joined(parts, j)| + b <= |Joined(parts, i)|
    ensures Joined(parts, i)[|Joined(parts, j)| + a..|Joined(parts, j)| + b] == parts[j][a..b]
  {
    if j < i - 1 {
      var front, from := Joined(parts, i - 1), |Joined(parts, j)|;
      JoinedSlice(parts, j, i - 1, a, b);
      assert Joined(parts, i) == front + parts[i - 1];
      SliceOfFirst(front, parts[i - 1], from + a, from + b);
    } else {
      SliceOfRest(Joined(parts, j), parts[j], a, b);
    }
  }

  lemma {:induction false} JoinedUntouched(parts: seq<seq<Byte>>, j: nat, part: seq<Byte>, i: nat)
    requires i <= j < |parts|
    ensures Joined(parts[j := part], i) == Joined(parts, i)
  {
    if i > 0 {
      JoinedUntouched(parts, j, part, i - 1);
    }
  }

  lemma {:induction false} JoinedOverwrite(parts: seq<seq<Byte>>, j: nat, i: nat, at: nat, data: seq<Byte>)
    requires j < i <= |parts| && at + |data| <= |parts[j]|
    ensures |Joined(parts, j)| + at + |data| <= |Joined(parts, i)|
    ensures Joined(parts[j := Put(parts[j], at, data)], i) == Put(Joined(parts, i), |Joined(parts, j)| + at, data)
  {
    if j < i - 1 {
      JoinedOverwrite(parts, j, i - 1, at, data);
      PutInFirst(Joined(parts, i - 1), parts[i - 1], |Joined(parts, j)| + at, data);
    } else {
      JoinedUntouched(parts, j, Put(parts[j], at, data), j);
      PutInRest(Joined(parts, j), parts[j], at, data);
    }
  }

  // ---------- Segments ----------

  predicate InSegment(segment: Segment, stream: Inner) {
    segment.offset <= stream.cursor <= segment.offset + segment.length <= |stream.bytes|
  }

  /** The bytes of a segment. */
  function Part(segment: Segment, stream: Inner): (part: seq<Byte>)
    requires InSegment(segment, stream)
    ensures |part| == segment.length
  {
    stream.bytes[segment.offset..segment.offset + segment.length]
  }

  function Parts(segments: seq<Segment>, streams: seq<Inner>): (parts: seq<seq<Byte>>)
    requires |streams| == |segments|
    requires forall k :: 0 <= k < |segments| ==> InSegment(segments[k], streams[k])
    ensures |parts| == |segments| && forall k :: 0 <= k < |segments| ==> parts[k] == Part(segments[k], streams[k])
  {
    seq(|segments|, k requires 0 <= k < |segments| && InSegment(segments[k], streams[k]) => Part(segments[k], streams[k]))
  }

  /** The total length of the first segments. */
  function Start(segments: seq<Segment>, i: nat): nat
    requires i <= |segments|
  {
    if i == 0 then 0 else Start(segments, i - 1) + segments[i - 1].length
  }

  lemma {:induction false} StartMonotone(segments: seq<Segment>, i: nat, j: nat)
    requires i <= j <= |segments|
    ensures Start(segments, i) <= Start(segments, j)
  {
    if i < j {
      StartMonotone(segments, i, j - 1);
    }
  }

  lemma {:induction false} StartIsLength(segments: seq<Segment>, parts: seq<seq<Byte>>, i: nat)
    requires i <= |parts| == |segments| && forall k :: 0 <= k < |segments| ==> |parts[k]| == segments[k].length
    ensures |Joined(parts, i)| == Start(segments, i)
  {
    if i > 0 {
      StartIsLength(segments, parts, i - 1);
    }
  }

  /** The concatenation is as long as the segments together, and the next byte is within it or at its end. */
  lemma FlatLength(s: State)
    requires s.Valid()
    ensures |s.Flat()| == Start(s.segments, |s.segments|)
    ensures s.Where() <= |s.Flat()|
    ensures s.current < |s.segments| ==> s.Where() + s.Remaining() <= |s.Flat()|
  {
    StartIsLength(s.segments, Parts(s.segments, s.streams), |s.segments|);
    if s.current < |s.segments| {
      assert InSegment(s.segments[s.current], s.streams[s.current]);
      StartMonotone(s.segments, s.current + 1, |s.segments|);
    }
  }

  // ---------- Seeking ----------

  /** The segment that contains the offset: the first one that ends behind it. */
  function SegmentAt(segments: seq<Segment>, i: nat, value: nat): (s: nat)
    requires i <= |segments|
    ensures i <= s <= |segments|
    decreases |segments| - i
  {
    if i < |segments| && value >= segments[i].length then SegmentAt(segments, i + 1, value - segments[i].length) else i
  }

  /** The offset lies in exactly one segment if it is below the length, and in none otherwise. */
  lemma {:induction false} SegmentAtIsUnique(segments: seq<Segment>, i: nat, value: nat)
    requires i <= |segments|
    ensures var s, offset := SegmentAt(segments, i, value), Start(segments, i) + value;
            && (s < |segments| <==> offset < Start(segments, |segments|))
            && (s < |segments| ==> Start(segments, s) <= offset < Start(segments, s + 1))
            && (s == |segments| ==> Start(segments, |segments|) <= offset)
            && forall k :: i <= k < |segments| && Start(segments, k) <= offset < Start(segments, k + 1) ==> k == s
    decreases |segments| - i
  {
    if i < |segments| && value >= segments[i].length {
      SegmentAtIsUnique(segments, i + 1, value - segments[i].length);
    } else if i < |segments| {
      StartMonotone(segments, i + 1, |segments|);
      forall k | i < k < |segments| ensures Start(segments, i) + value < Start(segments, k) {
        StartMonotone(segments, i + 1, k);
      }
    }
  }

  /** The state after setting the position; None where the original runs past the last segment. */
  function AfterSeek(s: State, value: nat): (r: Option<State>)
    requires s.Valid()
    ensures r.Some? ==> r.value.Valid()
  {
    SegmentAtIsUnique(s.segments, 0, value);
    var current := SegmentAt(s.segments, 0, value);
    if current == |s.segments| then None
    else
      var cursor := s.segments[current].offset + value - Start(s.segments, current);
      assert InSegment(s.segments[current], s.streams[current]);
      Some(s.(position := value, current := current, streams := s.streams[current := s.streams[current].(cursor := cursor)]))
  }

  lemma SeekDone(s: State, value: nat, current: nat, rest: nat)
    requires s.Valid() && current == SegmentAt(s.segments, 0, value) < |s.segments|
    requires Start(s.segments, current) + rest == value
    ensures AfterSeek(s, value) ==
            Some(State(s.segments, s.streams[current := s.streams[current].(cursor := s.segments[current].offset + rest)], current, value))
  {
  }

  /** Bytes do not move when a cursor does. */
  lemma FlatIgnoresCursors(s: State, t: State)
    requires s.Valid() && t.Valid() && t.segments == s.segments
    requires forall k :: 0 <= k < |s.segments| ==> t.streams[k].bytes == s.streams[k].bytes
    ensures t.Flat() == s.Flat()
  {
    assert Parts(t.segments, t.streams) == Parts(s.segments, s.streams);
  }

  /** The segments and the streams of all segments but one are as before. */
  ghost predicate OthersStay(s: State, t: State, i: nat) {
    t.segments == s.segments && |t.streams| == |s.streams| && forall j :: 0 <= j < |s.streams| && j != i ==> t.streams[j] == s.streams[j]
  }

  /** A seek below the length arrives exactly there, and moves the cursor of that segment only; it succeeds only below the length. */
  lemma SeekArrives(s: State, value: nat)
    requires s.Valid()
    ensures AfterSeek(s, value).Some? <==> value < |s.Flat()|
    ensures AfterSeek(s, value).Some? ==>
              var t := AfterSeek(s, value).value;
              && t.Where() == t.position == value && t.Flat() == s.Flat()
              && OthersStay(s, t, t.current)
  {
    FlatLength(s);
    SegmentAtIsUnique(s.segments, 0, value);
    if AfterSeek(s, value).Some? {
      FlatIgnoresCursors(s, AfterSeek(s, value).value);
    }
  }

  /** A forward seek keeps the later segments at their start. */
  lemma ForwardSeekKeepsOrder(s: State, value: nat)
    requires s.Valid() && s.LaterAtStart() && s.Where() <= value && AfterSeek(s, value).Some?
    ensures AfterSeek(s, value).value.LaterAtStart()
  {
    SegmentAtIsUnique(s.segments, 0, value);
    var t := AfterSeek(s, value).value;
    if t.current < s.current {
      StartMonotone(s.segments, t.current + 1, s.current);
    }
  }

  // ---------- Reading ----------

  function Min(a: nat, b: nat): nat {
    if a < b then a else b
  }

  /** The state after moving the cursor, which may finish the current segment. */
  function Advanced(s: State, count: nat): (t: State)
    requires s.Valid() && s.current < |s.segments| && count <= s.Remaining()
    ensures t.Valid()
  {
    var stream := s.streams[s.current];
    assert InSegment(s.segments[s.current], stream);
    s.(streams := s.streams[s.current := stream.(cursor := stream.cursor + count)],
       current := if count == s.Remaining() then s.current + 1 else s.current)
  }

  /** The bytes that a read delivers and the state after it; None where the original runs past the last segment. */
  function AfterRead(s: State, count: nat): (r: Option<(State, seq<Byte>)>)
    requires s.Valid()
    ensures r.Some? ==> r.value.0.Valid()
  {
    if s.current == |s.segments| then None
    else
      var stream, k := s.streams[s.current], Min(count, s.Remaining());
      assert InSegment(s.segments[s.current], stream);
      Some((Advanced(s, k), stream.bytes[stream.cursor..stream.cursor + k]))
  }

  /** The bytes in front of which the cursor stands are found in the concatenation. */
  lemma CursorSlice(s: State, count: nat)
    requires s.Valid() && s.current < |s.segments| && count <= s.Remaining()
    ensures var stream := s.streams[s.current];
            && s.Where() + count <= |s.Flat()| && stream.cursor + count <= |stream.bytes|
            && s.Flat()[s.Where()..s.Where() + count] == stream.bytes[stream.cursor..stream.cursor + count]
  {
    var segment, stream, parts := s.segments[s.current], s.streams[s.current], Parts(s.segments, s.streams);
    assert InSegment(segment, stream);
    var a := stream.cursor - segment.offset;
    JoinedSlice(parts, s.current, |parts|, a, a + count);
    StartIsLength(s.segments, parts, s.current);
    SliceOfSlice(stream.bytes, segment.offset, segment.length, a, a + count);
  }

  /**
    A read delivers the bytes that follow in the concatenation.  It moves on by as
    many bytes exactly if it stays in the segment, or the next segment, if any,
    stands at its start.
   */
  lemma ReadDelivers(s: State, count: nat)
    requires s.Valid() && s.current < |s.segments|
    ensures var (t, data) := AfterRead(s, count).value;
            && |data| == Min(count, s.Remaining())
            && s.Where() + |data| <= |s.Flat()| && data == s.Flat()[s.Where()..s.Where() + |data|]
            && t.Flat() == s.Flat() && OthersStay(s, t, s.current)
            && (t.Where() == s.Where() + |data| <==>
                  |data| < s.Remaining() || t.current == |s.segments| || s.streams[t.current].cursor == s.segments[t.current].offset)
            && (s.LaterAtStart() ==> t.LaterAtStart())
  {
    var (t, data) := AfterRead(s, count).value;
    assert InSegment(s.segments[s.current], s.streams[s.current]);
    CursorSlice(s, |data|);
    FlatIgnoresCursors(s, t);
    if t.current > s.current && t.current < |s.segments| {
      assert InSegment(s.segments[t.current], s.streams[t.current]);
    }
  }

  /** The bytes delivered by several reads, one after the other, and the state after them. */
  function AfterReads(s: State, counts: seq<nat>): (r: Option<(State, seq<Byte>)>)
    requires s.Valid()
    ensures r.Some? ==> r.value.0.Valid()
  {
    if counts == [] then Some((s, []))
    else match AfterReads(s, counts[..|counts| - 1])
      case None => None
      case Some((t, data)) =>
        match AfterRead(t, counts[|counts| - 1])
        case None => None
        case Some((u, more)) => Some((u, data + more))
  }

  /**
    While later segments stand at their start, successive reads deliver consecutive
    bytes of the concatenation.  The position that was set last does not follow.
   */
  lemma {:induction false} ReadsAreConsecutive(s: State, counts: seq<nat>)
    requires s.Valid() && s.LaterAtStart() && AfterReads(s, counts).Some?
    ensures var (t, data) := AfterReads(s, counts).value;
            && t.LaterAtStart() && t.Flat() == s.Flat() && t.Where() == s.Where() + |data| <= |s.Flat()|
            && data == s.Flat()[s.Where()..t.Where()]
            && t.position == s.position
  {
    FlatLength(s);
    if counts != [] {
      var (t, data) := AfterReads(s, counts[..|counts| - 1]).value;
      ReadsAreConsecutive(s, counts[..|counts| - 1]);
      ReadInOrder(t, counts[|counts| - 1]);
      var (u, more) := AfterRead(t, counts[|counts| - 1]).value;
      JoinSlices(s.Flat(), s.Where(), t.Where(), u.Where());
    }
  }

  lemma ReadInOrder(s: State, count: nat)
    requires s.Valid() && s.LaterAtStart() && s.current < |s.segments|
    ensures var (t, data) := AfterRead(s, count).value;
            && t.LaterAtStart() && t.Flat() == s.Flat() && t.Where() == s.Where() + |data| <= |s.Flat()|
            && data == s.Flat()[s.Where()..t.Where()]
            && t.position == s.position
  {
    ReadDelivers(s, count);
    var (t, data) := AfterRead(s, count).value;
    if t.current > s.current && t.current < |s.segments| {
      assert s.streams[t.current].cursor == s.segments[t.current].offset;
    }
  }

  /**
    What a loop reads that goes on until a read delivers nothing, as readers of streams
    do: the bytes, and whether it came to that instead of failing behind the last segment.
   */
  function ReadUntilNothing(s: State, count: nat): (seq<Byte>, bool)
    requires s.Valid() && count > 0
    decreases |s.segments| - s.current, if s.current < |s.segments| then s.Remaining() else 0
  {
    match AfterRead(s, count)
    case None => ([], false)
    case Some((t, data)) =>
      if data == [] then ([], true)
      else
        ReadMovesOn(s, count);
        var (more, ends) := ReadUntilNothing(t, count);
        (data + more, ends)
  }

  lemma ReadMovesOn(s: State, count: nat)
    requires s.Valid() && s.current < |s.segments|
    ensures var (t, data) := AfterRead(s, count).value;
            t.segments == s.segments && (t.current == s.current + 1 || (t.current == s.current && t.Remaining() == s.Remaining() - |data|))
  {
    assert InSegment(s.segments[s.current], s.streams[s.current]);
  }

  /** The first segment from i on that is empty, or their number if there is none. */
  function FirstEmpty(segments: seq<Segment>, i: nat): (j: nat)
    requires i <= |segments|
    ensures i <= j <= |segments| && (j < |segments| ==> segments[j].length == 0)
    ensures forall k :: i <= k < j ==> segments[k].length > 0
    decreases |segments| - i
  {
    if i == |segments| || segments[i].length == 0 then i else FirstEmpty(segments, i + 1)
  }

  /** The segment in which such a loop stops: the first one with nothing left. */
  function StopsIn(s: State): nat
    requires s.Valid()
  {
    if s.current == |s.segments| || s.Remaining() == 0 then s.current else FirstEmpty(s.segments, s.current + 1)
  }

  /** The offset at which it stops. */
  ghost function StopsAt(s: State): nat
    requires s.Valid()
  {
    if StopsIn(s) == s.current then s.Where() else Start(s.segments, StopsIn(s))
  }

  lemma StopStays(s: State, count: nat)
    requires s.Valid() && s.LaterAtStart() && s.current < |s.segments| && s.Remaining() > 0 && count > 0
    ensures var t := AfterRead(s, count).value.0; StopsIn(t) == StopsIn(s) && StopsAt(t) == StopsAt(s)
  {
    var t := AfterRead(s, count).value.0;
    ReadMovesOn(s, count);
    if t.current > s.current && t.current < |s.segments| {
      assert s.streams[t.current].cursor == s.segments[t.current].offset;
    }
  }

  /**
    While later segments stand at their start, such a loop delivers the concatenation up
    to the first segment that has nothing left; it ends there, or, if there is none, fails
    behind the last one.
   */
  lemma {:induction false} LoopStopsAtEmptySegment(s: State, count: nat)
    requires s.Valid() && s.LaterAtStart() && count > 0
    ensures var (data, ends) := ReadUntilNothing(s, count);
            && s.Where() <= StopsAt(s) <= |s.Flat()| && data == s.Flat()[s.Where()..StopsAt(s)]
            && (ends <==> StopsIn(s) < |s.segments|)
    decreases |s.segments| - s.current, if s.current < |s.segments| then s.Remaining() else 0
  {
    FlatLength(s);
    if s.current < |s.segments| && s.Remaining() > 0 {
      var (t, data) := AfterRead(s, count).value;
      ReadMovesOn(s, count);
      ReadInOrder(s, count);
      StopStays(s, count);
      LoopStopsAtEmptySegment(t, count);
      JoinSlices(s.Flat(), s.Where(), t.Where(), StopsAt(s));
    }
  }

  /** So it delivers all that is left, and ends, exactly if some segment has nothing left and all behind it are empty. */
  lemma LoopDeliversAll(s: State, count: nat)
    requires s.Valid() && s.LaterAtStart() && count > 0
    ensures s.Where() <= |s.Flat()|
    ensures ReadUntilNothing(s, count) == (s.Flat()[s.Where()..], true) <==>
            StopsIn(s) < |s.segments| && forall k :: StopsIn(s) < k < |s.segments| ==> s.segments[k].length == 0
  {
    FlatLength(s);
    LoopStopsAtEmptySegment(s, count);
    SliceToEnd(s.Flat(), s.Where(), StopsAt(s));
    if StopsIn(s) < |s.segments| {
      StopsAtEnd(s);
    }
  }

  lemma SliceToEnd(s: seq<Byte>, a: nat, b: nat)
    requires a <= b <= |s|
    ensures s[a..b] == s[a..] <==> b == |s|
  {
    assert |s[a..b]| == b - a && |s[a..]| == |s| - a;
  }

  lemma StopsAtEnd(s: State)
    requires s.Valid() && StopsIn(s) < |s.segments|
    ensures StopsAt(s) == |s.Flat()| <==> forall k :: StopsIn(s) < k < |s.segments| ==> s.segments[k].length == 0
  {
    FlatLength(s);
    RestIsEmpty(s.segments, StopsIn(s) + 1);
    assert StopsAt(s) == Start(s.segments, StopsIn(s) + 1);
  }

  lemma {:induction false} RestIsEmpty(segments: seq<Segment>, i: nat)
    requires i <= |segments|
    ensures Start(segments, i) <= Start(segments, |segments|)
    ensures Start(segments, i) == Start(segments, |segments|) <==> forall k :: i <= k < |segments| ==> segments[k].length == 0
    decreases |segments| - i
  {
    if i < |segments| {
      RestIsEmpty(segments, i + 1);
    }
  }

  /** The reads move on by exactly the bytes that they deliver, unless they fail. */
  ghost predicate MoveByData(s: State, counts: seq<nat>)
    requires s.Valid()
  {
    match AfterReads(s, counts)
    case None => true
    case Some((t, data)) => t.Where() == s.Where() + |data|
  }

  /** However much is read, and however often: reads move on by what they deliver exactly if later segments stand at their start. */
  lemma ReadsMoveByDataExactly(s: State)
    requires s.Valid()
    ensures (forall counts :: MoveByData(s, counts)) <==> s.LaterAtStart()
  {
    if s.LaterAtStart() {
      forall counts ensures MoveByData(s, counts) {
        if AfterReads(s, counts).Some? {
          ReadsAreConsecutive(s, counts);
        }
      }
    } else {
      assert AfterReads(s, []) == Some((s, []));
      var counts := ReadsUntilJump(s, [], s, []);
    }
  }

  /** Reading segment by segment gets to a later segment that does not stand at its start. */
  lemma {:induction false} ReadsUntilJump(s: State, counts: seq<nat>, t: State, data: seq<Byte>) returns (more: seq<nat>)
    requires s.Valid() && t.Valid() && !t.LaterAtStart()
    requires AfterReads(s, counts) == Some((t, data)) && t.Where() == s.Where() + |data|
    ensures !MoveByData(s, more)
    decreases |t.segments| - t.current
  {
    var count := t.Remaining();
    var (u, bytes) := AfterRead(t, count).value;
    ReadDelivers(t, count);
    ReadsAndRead(s, counts, t, data, count, u, bytes);
    more := counts + [count];
    if MoveByData(s, more) {
      more := ReadsUntilJump(s, more, u, data + bytes);
    }
  }

  /**
    After a backward seek reads need not be consecutive: of two segments with one byte
    each that have both been read, the second is not rewound, and reading again from
    the beginning finds nothing behind the first byte.
   */
  lemma BackwardSeekLosesOrder(a: Byte, b: Byte)
    ensures var s, t, u := TwoBytes(a, b, 0, 0, 0), TwoBytes(a, b, 1, 1, 2), TwoBytes(a, b, 0, 1, 0);
            && s.LaterAtStart() && s.Flat() == [a, b] && s.Where() == 0
            && AfterReads(s, [1, 1]) == Some((t, [a, b]))
            && AfterSeek(t, 0) == Some(u) && u.Where() == 0
            && AfterReads(u, [1, 1]) == Some((t, [a]))
  {
    PairIsFresh(a, b);
    ReadBoth(a, b);
    ReadAgain(a, b);
    Rewound(a, b);
  }

  lemma PairIsFresh(a: Byte, b: Byte)
    ensures var s := TwoBytes(a, b, 0, 0, 0); s.LaterAtStart() && s.Flat() == [a, b] && s.Where() == 0
  {
    var s := TwoBytes(a, b, 0, 0, 0);
    TwoParts(Parts(s.segments, s.streams));
  }

  lemma ReadBoth(a: Byte, b: Byte)
    ensures AfterReads(TwoBytes(a, b, 0, 0, 0), [1, 1]) == Some((TwoBytes(a, b, 1, 1, 2), [a, b]))
  {
    ReadFirst(a, b, 0);
    ReadSecond(a, b, 0);
    TwoReads(TwoBytes(a, b, 0, 0, 0), TwoBytes(a, b, 1, 0, 1), TwoBytes(a, b, 1, 1, 2), [a], [b]);
    assert [a] + [b] == [a, b];
  }

  lemma ReadAgain(a: Byte, b: Byte)
    ensures AfterReads(TwoBytes(a, b, 0, 1, 0), [1, 1]) == Some((TwoBytes(a, b, 1, 1, 2), [a]))
  {
    ReadFirst(a, b, 1);
    ReadSecond(a, b, 1);
    TwoReads(TwoBytes(a, b, 0, 1, 0), TwoBytes(a, b, 1, 1, 1), TwoBytes(a, b, 1, 1, 2), [a], []);
    assert [a] + [] == [a];
  }

  /** Two segments of one byte each, with the given cursors. */
  function TwoBytes(a: Byte, b: Byte, first: nat, second: nat, current: nat): (s: State)
    requires first <= 1 && second <= 1 && current <= 2
    ensures s.Valid()
  {
    State([Segment(0, 1), Segment(0, 1)], [Inner([a], first), Inner([b], second)], current, 0)
  }

  lemma ReadFirst(a: Byte, b: Byte, second: nat)
    requires second <= 1
    ensures AfterRead(TwoBytes(a, b, 0, second, 0), 1) == Some((TwoBytes(a, b, 1, second, 1), [a]))
  {
    var (t, data) := AfterRead(TwoBytes(a, b, 0, second, 0), 1).value;
    assert t.streams == TwoBytes(a, b, 1, second, 1).streams;
    assert data == [a];
  }

  lemma ReadSecond(a: Byte, b: Byte, second: nat)
    requires second <= 1
    ensures AfterRead(TwoBytes(a, b, 1, second, 1), 1) == Some((TwoBytes(a, b, 1, 1, 2), if second == 0 then [b] else []))
  {
    var (t, data) := AfterRead(TwoBytes(a, b, 1, second, 1), 1).value;
    assert t.streams == TwoBytes(a, b, 1, 1, 2).streams;
    assert data == if second == 0 then [b] else [];
  }

  lemma Rewound(a: Byte, b: Byte)
    ensures AfterSeek(TwoBytes(a, b, 1, 1, 2), 0) == Some(TwoBytes(a, b, 0, 1, 0))
    ensures TwoBytes(a, b, 0, 1, 0).Where() == 0
  {
    var s := TwoBytes(a, b, 1, 1, 2);
    assert SegmentAt(s.segments, 0, 0) == 0;
    assert AfterSeek(s, 0).value.streams == TwoBytes(a, b, 0, 1, 0).streams;
  }

  lemma TwoReads(s: State, t: State, u: State, x: seq<Byte>, y: seq<Byte>)
    requires s.Valid() && AfterRead(s, 1) == Some((t, x))
    requires t.Valid() && AfterRead(t, 1) == Some((u, y))
    ensures AfterReads(s, [1, 1]) == Some((u, x + y))
  {
    ReadsAndRead(s, [], s, [], 1, t, x);
    ReadsAndRead(s, [1], t, [] + x, 1, u, y);
    assert [] + [1] == [1] && [1] + [1] == [1, 1] && [] + x == x;
  }

  lemma ReadsAndRead(s: State, counts: seq<nat>, t: State, data: seq<Byte>, count: nat, u: State, more: seq<Byte>)
    requires s.Valid() && t.Valid() && AfterReads(s, counts) == Some((t, data)) && AfterRead(t, count) == Some((u, more))
    ensures AfterReads(s, counts + [count]) == Some((u, data + more))
  {
    assert (counts + [count])[..|counts|] == counts;
  }

  lemma TwoParts(parts: seq<seq<Byte>>)
    requires |parts| == 2
    ensures Joined(parts, 2) == parts[0] + parts[1]
  {
    assert Joined(parts, 1) == parts[0];
  }

  // ---------- Writing ----------

  /** The inner stream after overwriting bytes at its cursor, which moves behind them. */
  function Overwritten(stream: Inner, data: seq<Byte>): Inner
    requires stream.cursor + |data| <= |stream.bytes|
  {
    Inner(Put(stream.bytes, stream.cursor, data), stream.cursor + |data|)
  }

  /** The state after writing bytes that fit into the current segment. */
  function AfterWriteEx(s: State, data: seq<Byte>): (t: State)
    requires s.Valid() && s.current < |s.segments| && |data| <= s.Remaining()
    ensures t.Valid()
  {
    assert InSegment(s.segments[s.current], s.streams[s.current]);
    s.(streams := s.streams[s.current := Overwritten(s.streams[s.current], data)],
       current := if |data| == s.Remaining() then s.current + 1 else s.current)
  }

  /** The state after a write, and whether it fit; a write that does not fit fails behind the last segment. */
  function AfterWrite(s: State, data: seq<Byte>): (r: (State, bool))
    requires s.Valid()
    ensures r.0.Valid() && r.0.segments == s.segments
    decreases |data|, |s.segments| - s.current
  {
    if data == [] then (s, true)
    else if s.current == |s.segments| then (s, false)
    else
      var k := Min(|data|, s.Remaining());
      AfterWrite(AfterWriteEx(s, data[..k]), data[k..])
  }

  /** The bytes of one segment are overwritten, all others stay. */
  lemma WriteExParts(s: State, data: seq<Byte>)
    requires s.Valid() && s.current < |s.segments| && |data| <= s.Remaining()
    ensures var t, j, parts := AfterWriteEx(s, data), s.current, Parts(s.segments, s.streams);
            var at := s.segments[j].length - s.Remaining();
            && 0 <= at && at + |data| <= |parts[j]|
            && Parts(t.segments, t.streams) == parts[j := Put(parts[j], at, data)]
  {
    var segment, stream := s.segments[s.current], s.streams[s.current];
    assert InSegment(segment, stream);
    PutSlice(stream.bytes, segment.offset, segment.length, stream.cursor - segment.offset, data);
  }

  lemma WriteExOverwrites(s: State, data: seq<Byte>)
    requires s.Valid() && s.LaterAtStart() && s.current < |s.segments| && |data| <= s.Remaining()
    ensures var t := AfterWriteEx(s, data);
            && t.LaterAtStart() && t.Where() == s.Where() + |data| <= |s.Flat()|
            && t.Flat() == Put(s.Flat(), s.Where(), data)
  {
    var j, parts := s.current, Parts(s.segments, s.streams);
    WriteExMovesOn(s, data);
    WriteExParts(s, data);
    StartIsLength(s.segments, parts, j);
    JoinedOverwrite(parts, j, |parts|, s.segments[j].length - s.Remaining(), data);
  }

  lemma WriteExMovesOn(s: State, data: seq<Byte>)
    requires s.Valid() && s.LaterAtStart() && s.current < |s.segments| && |data| <= s.Remaining()
    ensures var t := AfterWriteEx(s, data);
            t.LaterAtStart() && OthersStay(s, t, s.current) && t.Where() == s.Where() + |data|
  {
    var t := AfterWriteEx(s, data);
    if t.current > s.current && t.current < |s.segments| {
      assert t.streams[t.current].cursor == s.segments[t.current].offset;
    }
  }

  /** The bytes are overwritten as far as they fit, and all fit exactly if there is room for them. */
  ghost predicate Overwrites(before: seq<Byte>, start: nat, data: seq<Byte>, fits: bool, after: seq<Byte>, end: nat) {
    && start <= |before|
    && (fits <==> start + |data| <= |before|)
    && end == (if fits then start + |data| else |before|)
    && after == Put(before, start, data[..end - start])
  }

  lemma OverwritesJoined(before: seq<Byte>, start: nat, data: seq<Byte>, k: nat, middle: seq<Byte>, fits: bool, after: seq<Byte>, end: nat)
    requires k <= |data| && start + k <= |before| && middle == Put(before, start, data[..k])
    requires Overwrites(middle, start + k, data[k..], fits, after, end)
    ensures Overwrites(before, start, data, fits, after, end)
  {
    var more := data[k..][..end - start - k];
    PutTwice(before, start, data[..k], more);
    assert data[..k] + more == data[..end - start];
  }

  /**
    While later segments stand at their start, a write overwrites exactly its range of
    the concatenation and succeeds exactly if that fits; otherwise it fills the
    concatenation to its end and then fails.
   */
  lemma {:induction false} WriteOverwrites(s: State, data: seq<Byte>)
    requires s.Valid() && s.LaterAtStart()
    ensures var (t, fits) := AfterWrite(s, data);
            && t.LaterAtStart() && t.position == s.position
            && Overwrites(s.Flat(), s.Where(), data, fits, t.Flat(), t.Where())
    decreases |data|, |s.segments| - s.current
  {
    if data == [] || s.current == |s.segments| {
      NothingWritten(s, data);
    } else {
      var between, k := WriteStep(s, data);
      WriteOverwrites(between, data[k..]);
      WriteJoined(s, data, between, k, AfterWrite(between, data[k..]).0, AfterWrite(between, data[k..]).1);
    }
  }

  lemma WriteJoined(s: State, data: seq<Byte>, between: State, k: nat, t: State, fits: bool)
    requires s.Valid() && between.Valid() && t.Valid() && k <= |data|
    requires s.Where() + k <= |s.Flat()|
    requires between.Where() == s.Where() + k && between.Flat() == Put(s.Flat(), s.Where(), data[..k])
    requires Overwrites(between.Flat(), between.Where(), data[k..], fits, t.Flat(), t.Where())
    ensures Overwrites(s.Flat(), s.Where(), data, fits, t.Flat(), t.Where())
  {
    OverwritesJoined(s.Flat(), s.Where(), data, k, between.Flat(), fits, t.Flat(), t.Where());
  }

  lemma NothingWritten(s: State, data: seq<Byte>)
    requires s.Valid() && (data == [] || s.current == |s.segments|)
    ensures Overwrites(s.Flat(), s.Where(), data, data == [], s.Flat(), s.Where())
  {
    FlatLength(s);
    PutNothing(s.Flat(), s.Where(), data);
  }

  lemma PutNothing(s: seq<Byte>, at: nat, data: seq<Byte>)
    requires at <= |s|
    ensures Put(s, at, data[..0]) == s
  {
  }

  /** A write consists of writing to the current segment what fits there, and writing the rest. */
  lemma WriteStep(s: State, data: seq<Byte>) returns (between: State, k: nat)
    requires s.Valid() && data != [] && s.current < |s.segments|
    ensures k == Min(|data|, s.Remaining()) && between == AfterWriteEx(s, data[..k])
    ensures AfterWrite(s, data) == AfterWrite(between, data[k..])
    ensures between.segments == s.segments && between.position == s.position
    ensures k > 0 || between.current > s.current
    ensures s.LaterAtStart() ==>
              && between.LaterAtStart() && s.Where() + k <= |s.Flat()|
              && between.Where() == s.Where() + k && between.Flat() == Put(s.Flat(), s.Where(), data[..k])
  {
    k := Min(|data|, s.Remaining());
    between := AfterWriteEx(s, data[..k]);
    if s.LaterAtStart() {
      WriteExOverwrites(s, data[..k]);
    }
  }

  /** How many bytes are in front of the cursors of the segments from i on. */
  function Room(segments: seq<Segment>, streams: seq<Inner>, i: nat): nat
    requires i <= |segments| == |streams|
    requires forall k :: i <= k < |segments| ==> InSegment(segments[k], streams[k])
    decreases |segments| - i
  {
    if i == |segments| then 0
    else
      assert InSegment(segments[i], streams[i]);
      segments[i].offset + segments[i].length - streams[i].cursor + Room(segments, streams, i + 1)
  }

  lemma {:induction false} RoomBehind(segments: seq<Segment>, streams: seq<Inner>, i: nat, j: nat, stream: Inner)
    requires j < i <= |segments| == |streams|
    requires forall k :: i <= k < |segments| ==> InSegment(segments[k], streams[k])
    ensures Room(segments, streams[j := stream], i) == Room(segments, streams, i)
    decreases |segments| - i
  {
    if i < |segments| {
      RoomBehind(segments, streams, i + 1, j, stream);
    }
  }

  /** There is as much room as the segments are long exactly if they stand at their start. */
  lemma {:induction false} RoomIsLength(segments: seq<Segment>, streams: seq<Inner>, i: nat)
    requires i <= |segments| == |streams|
    requires forall k :: i <= k < |segments| ==> InSegment(segments[k], streams[k])
    ensures Start(segments, i) + Room(segments, streams, i) <= Start(segments, |segments|)
    ensures Start(segments, i) + Room(segments, streams, i) == Start(segments, |segments|) <==>
            forall k :: i <= k < |segments| ==> streams[k].cursor == segments[k].offset
    decreases |segments| - i
  {
    if i < |segments| {
      RoomIsLength(segments, streams, i + 1);
      assert InSegment(segments[i], streams[i]);
    }
  }

  /** Wherever the cursors stand: a write succeeds exactly if the bytes fit in front of them. */
  lemma {:induction false} WriteFitsExactly(s: State, data: seq<Byte>)
    requires s.Valid()
    ensures AfterWrite(s, data).1 <==> |data| <= Room(s.segments, s.streams, s.current)
    decreases |data|, |s.segments| - s.current
  {
    if data != [] && s.current < |s.segments| {
      var between, k := WriteStep(s, data);
      RoomBehind(s.segments, s.streams, s.current + 1, s.current, between.streams[s.current]);
      WriteFitsExactly(between, data[k..]);
    }
  }

  /** There is room for the rest of the concatenation exactly if later segments stand at their start. */
  lemma RoomInStream(s: State)
    requires s.Valid()
    ensures var room := Room(s.segments, s.streams, s.current);
            && s.Where() + room <= |s.Flat()|
            && (s.Where() + room == |s.Flat()| <==> s.LaterAtStart())
  {
    FlatLength(s);
    RoomIsLength(s.segments, s.streams, if s.current < |s.segments| then s.current + 1 else s.current);
  }

  /** Every write overwrites its range of the concatenation, as far as that goes, exactly if later segments stand at their start. */
  lemma WritesOverwriteExactly(s: State)
    requires s.Valid()
    ensures (forall data :: OverwritesRange(s, data)) <==> s.LaterAtStart()
  {
    if s.LaterAtStart() {
      forall data ensures OverwritesRange(s, data) {
        WriteOverwrites(s, data);
      }
    } else {
      RoomInStream(s);
      var data := Zeros(|s.Flat()| - s.Where());
      WriteFitsExactly(s, data);
      assert !AfterWrite(s, data).1;
      assert !OverwritesRange(s, data);
    }
  }

  function Zeros(n: nat): (zeros: seq<Byte>)
    ensures |zeros| == n
  {
    seq(n, _ => 0)
  }

  ghost predicate OverwritesRange(s: State, data: seq<Byte>)
    requires s.Valid()
  {
    var (t, fits) := AfterWrite(s, data);
    Overwrites(s.Flat(), s.Where(), data, fits, t.Flat(), t.Where())
  }

  // ---------- The stream ----------

  class SegmentedStream {
    const segments: seq<Segment>
    var streams: seq<Inner>
    var currentSegment: nat
    var position: nat

    ghost function View(): State
      reads this
    {
      State(segments, streams, currentSegment, position)
    }

    /** Takes so many bytes of each stream, beginning where its cursor stands, which may be more than the stream has. */
    constructor (streams: seq<Inner>, lengths: seq<nat>)
      requires |lengths| == |streams|
      ensures View().Valid() <==> forall i :: 0 <= i < |streams| ==> streams[i].cursor + lengths[i] <= |streams[i].bytes|
      ensures View().Valid() ==> View().LaterAtStart() && View().Where() == 0
      ensures this.streams == streams && |segments| == |streams| && currentSegment == 0 && position == 0
      ensures forall i :: 0 <= i < |streams| ==> segments[i] == Segment(streams[i].cursor, lengths[i])
    {
      segments := seq(|streams|, i requires 0 <= i < |streams| && |lengths| == |streams| => Segment(streams[i].cursor, lengths[i]));
      this.streams := streams;
      currentSegment := 0;
      position := 0;
      new;
      if View().Valid() {
        forall i | 0 <= i < |streams| ensures streams[i].cursor + lengths[i] <= |streams[i].bytes| {
          assert InSegment(segments[i], this.streams[i]);
        }
      }
    }

    /** Takes as many bytes of each stream as it has altogether, which are too many if its cursor does not stand at its beginning. */
    constructor Whole(streams: seq<Inner>)
      ensures View().Valid() <==> forall i :: 0 <= i < |streams| ==> streams[i].cursor == 0
      ensures View().Valid() ==> View().LaterAtStart() && View().Where() == 0
      ensures this.streams == streams && |segments| == |streams| && currentSegment == 0 && position == 0
      ensures forall i :: 0 <= i < |streams| ==> segments[i] == Segment(streams[i].cursor, |streams[i].bytes|)
    {
      segments := seq(|streams|, i requires 0 <= i < |streams| => Segment(streams[i].cursor, |streams[i].bytes|));
      this.streams := streams;
      currentSegment := 0;
      position := 0;
      new;
      if View().Valid() {
        forall i | 0 <= i < |streams| ensures streams[i].cursor == 0 {
          assert InSegment(segments[i], this.streams[i]);
        }
      }
    }

    /** Setting the position; fails where the original indexes behind the last segment. */
    method SetPosition(value: nat) returns (ok: bool)
      requires View().Valid()
      modifies this
      ensures View().Valid()
      ensures ok == AfterSeek(old(View()), value).Some?
      ensures View() == if ok then AfterSeek(old(View()), value).value else old(View()).(position := value, current := |segments|)
    {
      ghost var s := View();
      position := value;
      currentSegment := 0;
      var rest: nat := value;
      while currentSegment < |segments| && rest >= segments[currentSegment].length
        invariant currentSegment <= |segments|
        invariant SegmentAt(segments, 0, value) == SegmentAt(segments, currentSegment, rest)
        invariant Start(segments, currentSegment) + rest == value
        invariant streams == s.streams && position == value
      {
        rest := rest - segments[currentSegment].length;
        currentSegment := currentSegment + 1;
      }
      ok := currentSegment < |segments|;
      if ok {
        var stream := streams[currentSegment];
        streams := streams[currentSegment := stream.(cursor := segments[currentSegment].offset + rest)];
        SeekDone(s, value, currentSegment, rest);
      }
      assert View() == State(segments, streams, currentSegment, value);
    }

    /** Reads at most so many bytes of the current segment; None behind the last segment. */
    method Read(count: nat) returns (data: Option<seq<Byte>>)
      requires View().Valid()
      modifies this
      ensures View().Valid()
      ensures match AfterRead(old(View()), count)
              case None => data == None && View() == old(View())
              case Some((t, bytes)) => data == Some(bytes) && View() == t
    {
      if currentSegment == |segments| {
        return None;
      }
      var stream, segment := streams[currentSegment], segments[currentSegment];
      assert InSegment(segment, stream);
      var remaining := segment.offset + segment.length - stream.cursor;
      var taken := if count > remaining then remaining else count;
      data := Some(stream.bytes[stream.cursor..stream.cursor + taken]);
      streams := streams[currentSegment := stream.(cursor := stream.cursor + taken)];
      if taken == remaining {
        currentSegment := currentSegment + 1;
      }
    }

    /** Writes as many of the bytes as fit into the current segment; writing the rest as well is the whole write. */
    method WriteEx(data: seq<Byte>) returns (written: nat)
      requires View().Valid() && currentSegment < |segments|
      modifies this
      ensures View().Valid() && written == Min(|data|, old(View()).Remaining())
      ensures View() == AfterWriteEx(old(View()), data[..written])
      ensures data != [] ==>
                && AfterWrite(old(View()), data) == AfterWrite(View(), data[written..])
                && (written > 0 || currentSegment > old(currentSegment))
    {
      ghost var between, k := View(), 0;
      if data != [] {
        between, k := WriteStep(View(), data);
      }
      var stream, segment := streams[currentSegment], segments[currentSegment];
      assert InSegment(segment, stream);
      var remaining := segment.offset + segment.length - stream.cursor;
      written := if |data| > remaining then remaining else |data|;
      streams := streams[currentSegment := Overwritten(stream, data[..written])];
      if written == remaining {
        currentSegment := currentSegment + 1;
      }
    }

    /** Writes all bytes, segment by segment; fails where the original indexes behind the last segment. */
    method Write(data: seq<Byte>) returns (ok: bool)
      requires View().Valid()
      modifies this
      ensures (View(), ok) == AfterWrite(old(View()), data)
    {
      var left := data;
      while left != [] && currentSegment < |segments|
        invariant View().Valid()
        invariant AfterWrite(View(), left) == AfterWrite(old(View()), data)
        decreases |left|, |segments| - currentSegment
      {
        var written := WriteEx(left);
        left := left[written..];
      }
      ok := left == [];
    }
  }
}
