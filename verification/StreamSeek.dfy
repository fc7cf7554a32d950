/**
 * The 3dv source stream: frame times, and seeking to a frame and back to a keyframe.
 */
module StreamSeek {
  import opened Common

  // ----- Division -----

  /** Dividing twice is dividing by the product. */
  lemma DivTwice(x: nat, a: nat, b: nat)
    requires a > 0 && b > 0
    ensures a * b > 0 && x / a / b == x / (a * b)
  {
    var q := x / a;
    DivMod(x, a);
    DivMod(q, b);
    Mono(1, b, a);
    var k, s, r := q / b, q % b, x % a;
    assert x == k * (a * b) + (s * a + r) by {
      assert x == (k * b + s) * a + r;
      assert (k * b + s) * a == (k * b) * a + s * a;
      assert (k * b) * a == k * (a * b);
    }
    Mono(s + 1, b, a);
    Mono(0, s, a);
    DivUnique(x, a * b, k, s * a + r);
  }

  // ----- Times -----

  /** The time of frame n, in units of 100 ns, for count frames in length milliseconds. */
  function FrameTime(n: nat, length: nat, count: nat): (t: nat)
    requires count > 0
  {
    Quotient(n * (length * 10000), count)
  }

  function Quotient(x: nat, d: nat): nat
    requires d > 0
  {
    x / d
  }

  /** The frame that ChangeStart computes for a time. */
  function FrameAt(t: nat, length: nat, count: nat): (n: nat)
    requires length > 0
  {
    Quotient(Quotient(t * count, length), 10000)
  }

  /** Seeking to the time of frame n finds frame n if that time is exact, and otherwise the one before. */
  lemma SeekToFrame(n: nat, length: nat, count: nat)
    requires length > 0 && 0 < count <= length * 10000
    ensures FrameAt(FrameTime(n, length, count), length, count)
         == if (n * (length * 10000)) % count == 0 then n else n - 1
  {
    var total := length * 10000;
    var x := n * total;
    var t := FrameTime(n, length, count);
    DivMod(x, count);
    DivTwice(t * count, length, 10000);
    var r := x % count;
    assert t * count == x - r;
    DivUnique(0, count, 0, 0);
    if r == 0 {
      DivUnique(t * count, total, n, 0);
    } else {
      assert n > 0 && (n - 1) * total + (total - r) == x - r;
      DivUnique(t * count, total, n - 1, total - r);
    }
  }

  /** The n-th part of the film, rounded down; after all frames the film is over. */
  lemma TimeIs(n: nat, length: nat, count: nat)
    requires count > 0
    ensures var t := FrameTime(n, length, count);
      t * count <= n * (length * 10000) < t * count + count
    ensures FrameTime(count, length, count) == length * 10000
  {
    DivMod(n * (length * 10000), count);
    DivUnique(count * (length * 10000), count, length * 10000, 0);
  }

  /** The last frame whose part of the film has begun at this time. */
  lemma FrameIs(t: nat, length: nat, count: nat)
    requires length > 0
    ensures var n := FrameAt(t, length, count);
      n * (length * 10000) <= t * count < n * (length * 10000) + length * 10000
  {
    DivTwice(t * count, length, 10000);
    DivMod(t * count, length * 10000);
  }

  /** Times never go back. */
  lemma TimesAscend(n: nat, m: nat, length: nat, count: nat)
    requires count > 0 && n <= m
    ensures FrameTime(n, length, count) <= FrameTime(m, length, count)
  {
    var a, b := n * (length * 10000), m * (length * 10000);
    Mono(n, m, length * 10000);
    DivMod(a, count);
    DivMod(b, count);
    if b / count < a / count {
      Mono(b / count + 1, a / count, count);
    }
  }

  // ----- Keyframes -----

  ghost predicate Ascending(keyframes: seq<nat>) {
    forall i, j :: 0 <= i < j < |keyframes| ==> keyframes[i] < keyframes[j]
  }

  /** k is the greatest keyframe not after the target. */
  ghost predicate KeyframeFor(keyframes: seq<nat>, target: nat, k: nat) {
    k in keyframes && k <= target && forall x :: x in keyframes && x <= target ==> x <= k
  }

  class SourceStream {
    const packet_count: nat
    const length: nat
    const video: bool
    const keyframes: seq<nat>
    var m_frame_number: nat
    var m_stream_start: nat

    constructor (packet_count: nat, length: nat, video: bool, keyframes: seq<nat>)
      ensures this.packet_count == packet_count && this.length == length && this.video == video
        && this.keyframes == keyframes
      ensures m_frame_number == 0 && m_stream_start == 0
    {
      this.packet_count, this.length, this.video, this.keyframes := packet_count, length, video, keyframes;
      m_frame_number, m_stream_start := 0, 0;
    }

    /** FillBuffer: the times of the next frame; nothing after the last. */
    method FillBuffer() returns (ok: bool, rtStart: int, rtStop: int)
      modifies `m_frame_number
      ensures ok == (old(m_frame_number) < packet_count)
      ensures m_frame_number == old(m_frame_number) + if ok then 1 else 0
      ensures ok ==> rtStart == FrameTime(old(m_frame_number) + 1, length, packet_count) - m_stream_start
      ensures ok ==> rtStop == FrameTime(old(m_frame_number) + 2, length, packet_count) - m_stream_start
    {
      if m_frame_number >= packet_count {
        return false, 0, 0;
      }
      rtStart := FrameTime(m_frame_number + 1, length, packet_count) - m_stream_start;
      rtStop := FrameTime(m_frame_number + 2, length, packet_count) - m_stream_start;
      m_frame_number := m_frame_number + 1;
      ok := true;
    }

    /** What FillBuffer gives from frame n up to frame m tiles the timeline: each frame stops where the next starts. */
    ghost predicate Tiles(times: seq<(int, int)>, n: nat, m: nat)
      reads `m_stream_start
    {
      && n <= m <= packet_count && |times| == m - n
      && (forall i :: 0 <= i < |times| ==> times[i].0 <= times[i].1)
      && (forall i :: 0 <= i < |times| - 1 ==> times[i].1 == times[i + 1].0)
      && (times != [] ==>
            && times[0].0 == FrameTime(n + 1, length, packet_count) - m_stream_start
            && times[|times| - 1].1 == FrameTime(m + 1, length, packet_count) - m_stream_start)
    }

    lemma OneMore(times: seq<(int, int)>, n: nat, m: nat, rtStart: int, rtStop: int)
      requires Tiles(times, n, m) && m < packet_count
      requires rtStart == FrameTime(m + 1, length, packet_count) - m_stream_start
      requires rtStop == FrameTime(m + 2, length, packet_count) - m_stream_start
      ensures Tiles(times + [(rtStart, rtStop)], n, m + 1)
    {
      TimesAscend(m + 1, m + 2, length, packet_count);
      hide FrameTime;
    }

    /** Played to the end. */
    method Play() returns (times: seq<(int, int)>)
      requires m_frame_number <= packet_count
      modifies `m_frame_number
      ensures m_frame_number == packet_count && Tiles(times, old(m_frame_number), packet_count)
    {
      hide FrameTime;
      times := [];
      var ok := true;
      while ok
        invariant Tiles(times, old(m_frame_number), m_frame_number)
        invariant !ok ==> m_frame_number == packet_count
        decreases packet_count - m_frame_number, ok
      {
        ghost var n := m_frame_number;
        var rtStart, rtStop;
        ok, rtStart, rtStop := FillBuffer();
        if ok {
          OneMore(times, old(m_frame_number), n, rtStart, rtStop);
          times := times + [(rtStart, rtStop)];
        }
      }
    }

    /** ChangeStart: the frame for the time, and for video back to a keyframe. */
    method ChangeStart(rtStart: nat)
      requires length > 0
      modifies this
      ensures m_stream_start == rtStart
      ensures var target := FrameAt(rtStart, length, packet_count);
        m_frame_number == if video && keyframes != [] then Scan(keyframes, target) else target
    {
      m_stream_start := rtStart;
      m_frame_number := FrameAt(rtStart, length, packet_count);
      if video && |keyframes| > 0 {
        m_frame_number := FindKeyframe(m_frame_number);
      }
    }

    /** The two scans over the keyframes. */
    method FindKeyframe(target: nat) returns (k: nat)
      requires keyframes != []
      ensures k == Scan(keyframes, target)
    {
      for i := 0 to |keyframes|
        invariant target !in keyframes[..i]
      {
        if keyframes[i] == target {
          return target;
        }
      }
      for i := 0 to |keyframes| - 1
        invariant Between(keyframes, target, 0) == Between(keyframes, target, i)
      {
        if keyframes[i] < target < keyframes[i + 1] {
          return keyframes[i];
        }
      }
      return keyframes[|keyframes| - 1];
    }
  }

  /** The target itself, the first keyframe that it follows directly, or else the last keyframe. */
  function Scan(keyframes: seq<nat>, target: nat): nat
    requires keyframes != []
  {
    if target in keyframes then target else Between(keyframes, target, 0)
  }

  function Between(keyframes: seq<nat>, target: nat, i: nat): nat
    requires i < |keyframes|
    decreases |keyframes| - i
  {
    if i == |keyframes| - 1 then keyframes[i]
    else if keyframes[i] < target < keyframes[i + 1] then keyframes[i]
    else Between(keyframes, target, i + 1)
  }

  lemma {:induction false} BetweenFinds(keyframes: seq<nat>, target: nat, i: nat)
    requires Ascending(keyframes) && i < |keyframes| && target !in keyframes && keyframes[i] < target
    ensures KeyframeFor(keyframes, target, Between(keyframes, target, i))
    decreases |keyframes| - i
  {
    var k := Between(keyframes, target, i);
    if i == |keyframes| - 1 {
      assert forall x :: x in keyframes ==> x <= keyframes[i];
    } else if target < keyframes[i + 1] {
      assert forall j :: i < j < |keyframes| ==> target < keyframes[j];
    } else {
      assert keyframes[i + 1] in keyframes;
      BetweenFinds(keyframes, target, i + 1);
    }
  }

  lemma {:induction false} BetweenMisses(keyframes: seq<nat>, target: nat, i: nat)
    requires Ascending(keyframes) && i < |keyframes| && target < keyframes[0]
    ensures Between(keyframes, target, i) == keyframes[|keyframes| - 1] > target
    decreases |keyframes| - i
  {
    assert keyframes[0] <= keyframes[i] && keyframes[0] <= keyframes[|keyframes| - 1];
    if i < |keyframes| - 1 {
      BetweenMisses(keyframes, target, i + 1);
    }
  }

  lemma NothingBeforeTheFirst(keyframes: seq<nat>)
    requires Ascending(keyframes) && keyframes != []
    ensures forall x :: x in keyframes ==> keyframes[0] <= x
  {}

  /**
   * The scan lands on the greatest keyframe not after the target exactly when the first keyframe is not
   * after it; before the first keyframe it lands on the last.
   */
  lemma ScanFinds(keyframes: seq<nat>, target: nat)
    requires Ascending(keyframes) && keyframes != []
    ensures KeyframeFor(keyframes, target, Scan(keyframes, target)) <==> keyframes[0] <= target
    ensures target < keyframes[0] ==> Scan(keyframes, target) == keyframes[|keyframes| - 1]
  {
    NothingBeforeTheFirst(keyframes);
    if target < keyframes[0] {
      BetweenMisses(keyframes, target, 0);
    } else if target !in keyframes {
      assert keyframes[0] in keyframes;
      BetweenFinds(keyframes, target, 0);
    }
  }
}
