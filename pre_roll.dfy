/** The pre-roll buffer `prev_input`: silent frames kept so that a recording does not
    clip the start of speech. Every listen loop pushes a silent frame with
    `prev_input.append(f)` followed by `prev_input = prev_input[1:]` when it holds more
    than `max_chunks` (20) frames. */
module PreRoll {

  /** `max_chunks` in every recorder. */
  const MaxChunks: nat := 20

  /** One push: append, then drop the oldest frame if the buffer is over capacity. */
  function Push<T>(buf: seq<T>, x: T, maxChunks: nat): seq<T>
  {
    var b := buf + [x];
    if |b| > maxChunks then b[1..] else b
  }

  /** A run of pushes, in arrival order. */
  function PushAll<T>(buf: seq<T>, xs: seq<T>, maxChunks: nat): seq<T>
    decreases |xs|
  {
    if xs == [] then buf else PushAll(Push(buf, xs[0], maxChunks), xs[1..], maxChunks)
  }

  /** The last `k` elements of `s` (all of `s` when it is shorter): an independent
      description of what a bounded FIFO should hold. */
  function Latest<T>(s: seq<T>, k: nat): (r: seq<T>)
    ensures |r| == if |s| <= k then |s| else k
    ensures r == s[|s| - |r|..]
  {
    if |s| <= k then s else s[|s| - k..]
  }

  /** One push on a buffer within capacity keeps exactly the `maxChunks` most recent frames,
      so the buffer stays within capacity and the new frame is the newest one. */
  lemma PushKeepsLatest<T>(buf: seq<T>, x: T, maxChunks: nat)
    requires |buf| <= maxChunks
    ensures Push(buf, x, maxChunks) == Latest(buf + [x], maxChunks)
    ensures |Push(buf, x, maxChunks)| <= maxChunks
    ensures maxChunks > 0 ==> Push(buf, x, maxChunks)[|Push(buf, x, maxChunks)| - 1] == x
  {
  }

  /** Trimming to the latest `k` before more elements arrive changes nothing in the end. */
  lemma LatestOfLatest<T>(s: seq<T>, t: seq<T>, k: nat)
    ensures Latest(Latest(s, k) + t, k) == Latest(s + t, k)
  {
    var a := Latest(s, k);
    var l := Latest(s + t, k);
    var r := Latest(a + t, k);
    assert |r| == |l|;
    forall i | 0 <= i < |l| ensures r[i] == l[i] {
      var j := |a + t| - |l| + i;
      if j < |a| {
        assert r[i] == a[j] == s[|s| - |a| + j];
      } else {
        assert r[i] == t[j - |a|];
      }
    }
  }

  lemma SplitFirst<T>(buf: seq<T>, xs: seq<T>)
    requires xs != []
    ensures buf + [xs[0]] + xs[1..] == buf + xs
  {
    assert [xs[0]] + xs[1..] == xs;
  }

  /** The inductive step of `PushAllKeepsLatest`: once the pushes after `x` keep the latest
      frames of what they were given, the pushes from `x` on keep the latest frames overall. */
  lemma PushThenLatest<T>(buf: seq<T>, x: T, rest: seq<T>, maxChunks: nat)
    requires |buf| <= maxChunks
    requires PushAll(Push(buf, x, maxChunks), rest, maxChunks) == Latest(Push(buf, x, maxChunks) + rest, maxChunks)
    ensures PushAll(Push(buf, x, maxChunks), rest, maxChunks) == Latest(buf + [x] + rest, maxChunks)
  {
    PushKeepsLatest(buf, x, maxChunks);
    LatestOfLatest(buf + [x], rest, maxChunks);
  }

  /** Any sequence of silent frames pushed into a buffer within capacity leaves exactly
      the `maxChunks` most recent frames, oldest first: the oldest are evicted first. */
  lemma {:induction false} PushAllKeepsLatest<T>(buf: seq<T>, xs: seq<T>, maxChunks: nat)
    requires |buf| <= maxChunks
    ensures PushAll(buf, xs, maxChunks) == Latest(buf + xs, maxChunks)
    ensures |PushAll(buf, xs, maxChunks)| <= maxChunks
    decreases |xs|
  {
    if xs == [] {
      assert buf + xs == buf;
    } else {
      PushKeepsLatest(buf, xs[0], maxChunks);
      PushAllKeepsLatest(Push(buf, xs[0], maxChunks), xs[1..], maxChunks);
      PushThenLatest(buf, xs[0], xs[1..], maxChunks);
      SplitFirst(buf, xs);
    }
  }
}
