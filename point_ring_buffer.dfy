/** The bounded circular queue of points that every producer writes into and
    the DAC task drains. One slot is always kept empty so that `head == tail`
    means empty and `(head + 1) % SIZE == tail` means full. */
module PointBuffer {
  import opened Types

  const POINT_BUFFER_SIZE: nat := 8192
  /** The most points the buffer can hold at once. */
  const CAPACITY: nat := POINT_BUFFER_SIZE - 1

  /** Physical slot of the i-th oldest point when the oldest sits at `tail`. */
  function Slot(tail: nat, i: nat): (s: nat)
    requires tail < POINT_BUFFER_SIZE && i < POINT_BUFFER_SIZE
    ensures s < POINT_BUFFER_SIZE && s == (tail + i) % POINT_BUFFER_SIZE
  {
    if tail + i < POINT_BUFFER_SIZE then tail + i else tail + i - POINT_BUFFER_SIZE
  }

  /** Number of live points between the two cursors. */
  function Used(head: nat, tail: nat): (n: nat)
    requires head < POINT_BUFFER_SIZE && tail < POINT_BUFFER_SIZE
    ensures n < POINT_BUFFER_SIZE && Slot(tail, n) == head
    ensures n == 0 <==> head == tail
  {
    if head >= tail then head - tail else head + POINT_BUFFER_SIZE - tail
  }

  /** How many of `n` offered points `addPoints` appends to a buffer holding
      `size`: all of them, or as many as there are free slots. */
  function Accepted(size: nat, n: nat): (k: nat)
    requires size <= CAPACITY
    ensures k <= n && size + k <= CAPACITY
    ensures k == n || size + k == CAPACITY
  {
    if size + n <= CAPACITY then n else CAPACITY - size
  }

  /** The points `addPoints` keeps: the longest prefix that fits, in order. */
  function AfterAdd(contents: seq<Point>, points: seq<Point>): (r: seq<Point>)
    requires |contents| <= CAPACITY
    ensures |r| <= CAPACITY
  {
    contents + points[..Accepted(|contents|, |points|)]
  }

  /** Whatever is pushed, the buffer never exceeds its capacity, and what it
      already held stays in front, untouched. */
  lemma AddKeepsOldestInFront(contents: seq<Point>, points: seq<Point>)
    requires |contents| <= CAPACITY
    ensures |AfterAdd(contents, points)| <= CAPACITY
    ensures AfterAdd(contents, points)[..|contents|] == contents
    ensures |AfterAdd(contents, points)| == |contents| + |points| <==> |points| <= CAPACITY - |contents|
  {
  }

  class PointRingBuffer {
    const buffer: array<Point>
    var head: nat
    var tail: nat
    /** The queued points, oldest first. */
    ghost var Contents: seq<Point>

    ghost predicate Valid()
      reads this, buffer
      ensures Valid() ==> |Contents| <= CAPACITY
    {
      buffer.Length == POINT_BUFFER_SIZE &&
      head < POINT_BUFFER_SIZE && tail < POINT_BUFFER_SIZE &&
      |Contents| == Used(head, tail) &&
      forall i :: 0 <= i < |Contents| ==> Contents[i] == buffer[Slot(tail, i)]
    }

    constructor ()
      ensures Valid() && fresh(buffer)
      ensures head == 0 && tail == 0 && Contents == []
    {
      buffer := new Point[POINT_BUFFER_SIZE](_ => Blank);
      head, tail := 0, 0;
      Contents := [];
    }

    /** `canItFit`: whether `count` more points would all be accepted. */
    method CanItFit(count: u16) returns (fits: bool)
      requires Valid()
      ensures fits <==> count <= CAPACITY - |Contents|
      ensures fits <==> Accepted(|Contents|, count) == count
    {
      var freeSpace: nat;
      if head >= tail {
        freeSpace := POINT_BUFFER_SIZE - (head - tail);
      } else {
        freeSpace := tail - head;
      }
      fits := count < freeSpace;
    }

    /** `addPoints`: appends the points in order until the buffer is full.
        Points written before the buffer filled up stay (no rollback); the
        result is true exactly when every point was appended. The consumer's
        cursor `tail` is never moved. */
    method AddPoints(points: seq<Point>) returns (success: bool)
      requires Valid() && |points| < 0x1_0000
      modifies this, buffer
      ensures Valid() && tail == old(tail)
      ensures Contents == AfterAdd(old(Contents), points)
      ensures success <==> Accepted(|old(Contents)|, |points|) == |points|
    {
      success := true;
      var i := 0;
      while i < |points|
        invariant 0 <= i <= |points|
        invariant Valid() && tail == old(tail)
        invariant |old(Contents)| + i <= CAPACITY
        invariant Contents == old(Contents) + points[..i]
      {
        var next := if head + 1 < POINT_BUFFER_SIZE then head + 1 else 0;
        if next == tail {
          success := false;
          break;
        }
        WriteNewest(points[i]);
        assert points[..i + 1] == points[..i] + [points[i]];
        i := i + 1;
      }
      assert points[..i] == points[..Accepted(|old(Contents)|, |points|)];
    }

    /** The body of the `addPoints` loop once the slot after `head` is known
        not to be `tail`: the point is written at `head` and `head` steps. */
    method WriteNewest(p: Point)
      requires Valid() && (if head + 1 < POINT_BUFFER_SIZE then head + 1 else 0) != tail
      modifies this, buffer
      ensures Valid() && tail == old(tail) && Contents == old(Contents) + [p]
    {
      buffer[head] := p;
      head := if head + 1 < POINT_BUFFER_SIZE then head + 1 else 0;
      Contents := Contents + [p];
    }

    /** `addPoint`: the one-element case of `addPoints`. */
    method AddPoint(p: Point) returns (success: bool)
      requires Valid()
      modifies this, buffer
      ensures Valid() && tail == old(tail)
      ensures success <==> |old(Contents)| < CAPACITY
      ensures Contents == if success then old(Contents) + [p] else old(Contents)
    {
      success := AddPoints([p]);
    }

    /** `getPoint`: takes the oldest point out; on an empty buffer it reports
        false and leaves both the buffer and the caller's point `prev` alone. */
    method GetPoint(prev: Point) returns (ok: bool, p: Point)
      requires Valid()
      modifies this
      ensures Valid() && head == old(head)
      ensures ok <==> old(Contents) != []
      ensures ok ==> p == old(Contents)[0] && Contents == old(Contents)[1..]
      ensures !ok ==> p == prev && Contents == old(Contents) && tail == old(tail)
    {
      if head == tail {
        return false, prev;
      }
      p := buffer[tail];
      tail := if tail + 1 < POINT_BUFFER_SIZE then tail + 1 else 0;
      Contents := Contents[1..];
      ok := true;
    }

    /** `getPoints`: moves up to `max` of the oldest points into `out`, oldest
        first, and removes exactly those; the producers' cursor `head` is
        never moved. */
    method GetPoints(out: array<Point>, max: u16) returns (count: u16)
      requires Valid() && max <= out.Length && out != buffer
      modifies this, out
      ensures Valid() && head == old(head)
      ensures count == if max <= |old(Contents)| then max else |old(Contents)|
      ensures out[..count] == old(Contents)[..count]
      ensures out[count..] == old(out[count..])
      ensures Contents == old(Contents)[count..]
    {
      count := 0;
      while count < max && tail != head
        invariant 0 <= count <= max
        invariant count <= |old(Contents)|
        invariant Valid() && head == old(head)
        invariant Contents == old(Contents)[count..]
        invariant out[..count] == old(Contents)[..count]
        invariant out[count..] == old(out[count..])
      {
        MoveOldest(out, count);
        assert old(Contents)[..count + 1] == old(Contents)[..count] + [old(Contents)[count]];
        count := count + 1;
      }
    }

    /** The body of the `getPoints` loop: the oldest point goes to `out[i]`
        and `tail` steps past it. */
    method MoveOldest(out: array<Point>, i: nat)
      requires Valid() && Contents != [] && i < out.Length && out != buffer
      modifies this, out
      ensures Valid() && head == old(head) && Contents == old(Contents)[1..]
      ensures out[..i] == old(out[..i]) && out[i] == old(Contents)[0] && out[i + 1..] == old(out[i + 1..])
    {
      out[i] := buffer[tail];
      tail := if tail + 1 < POINT_BUFFER_SIZE then tail + 1 else 0;
      Contents := Contents[1..];
    }

    /** `clear`: both cursors back to zero, dropping every queued point. */
    method Clear()
      requires Valid()
      modifies this
      ensures Valid() && head == 0 && tail == 0 && Contents == []
    {
      head, tail := 0, 0;
      Contents := [];
    }
  }
}
