/** The dashboard's throughput sampler: every status answer that carries
    traffic counters is turned into an upload and a download rate against the
    previous counters, and the rates are kept in a 60-entry chart buffer.
    Times are milliseconds; rates are bytes per second as exact reals. */
module RateSampler {
  import Seqs

  /** Number of samples the chart keeps. */
  const BufferSize: nat := 60

  /** The counters and time of the previous accepted sample. */
  datatype Baseline = Baseline(up: int, down: int, time: int)

  /** One chart point. */
  datatype Sample = Sample(time: int, up: real, down: real)

  /** The cumulative counters a status answer reports. */
  datatype Counters = Counters(bytesUp: int, bytesDown: int)

  datatype Sampler = Sampler(baseline: Baseline, data: seq<Sample>)

  /** The sampler right after the page loads. */
  function Initial(loadedAt: int): (s: Sampler)
    ensures s.data == [] && s.baseline.time == loadedAt
  {
    Sampler(Baseline(0, 0, loadedAt), [])
  }

  /** Bytes per second for a counter that moved by `delta` bytes in `elapsedMs`
      milliseconds, never negative. */
  function Rate(delta: int, elapsedMs: int): (r: real)
    requires elapsedMs > 0
    ensures r >= 0.0
    ensures delta <= 0 ==> r == 0.0
    ensures delta > 0 ==> r * (elapsedMs as real) == (delta as real) * 1000.0
  {
    if delta <= 0 then 0.0 else (delta as real) * 1000.0 / (elapsedMs as real)
  }

  predicate NonNegative(data: seq<Sample>)
  {
    forall k :: 0 <= k < |data| ==> data[k].up >= 0.0 && data[k].down >= 0.0
  }

  /** The point a reading taken at `now` contributes against baseline `b`. */
  function SampleOf(b: Baseline, c: Counters, now: int): (p: Sample)
    requires now > b.time
    ensures p.time == now && p.up >= 0.0 && p.down >= 0.0
    ensures c.bytesUp <= b.up ==> p.up == 0.0
    ensures c.bytesDown <= b.down ==> p.down == 0.0
  {
    Sample(now, Rate(c.bytesUp - b.up, now - b.time), Rate(c.bytesDown - b.down, now - b.time))
  }

  /** React to one reading taken at `now`. A reading that is not later than the
      baseline is dropped; otherwise its point is appended, the buffer is cut to
      its newest BufferSize points and the reading becomes the baseline. */
  function Observe(s: Sampler, c: Counters, now: int): (r: Sampler)
    ensures now <= s.baseline.time ==> r == s
    ensures now > s.baseline.time ==>
              r.baseline == Baseline(c.bytesUp, c.bytesDown, now)
              && |r.data| > 0 && r.data[|r.data| - 1] == SampleOf(s.baseline, c, now)
              && r.data[..|r.data| - 1] == Seqs.KeepLast(s.data, BufferSize - 1)
    ensures |s.data| <= BufferSize ==> |r.data| <= BufferSize
    ensures NonNegative(s.data) ==> NonNegative(r.data)
  {
    if now <= s.baseline.time then s
    else
      var p := SampleOf(s.baseline, c, now);
      var d := Seqs.KeepLast(s.data + [p], BufferSize);
      assert d[|d| - 1] == p;
      assert d[..|d| - 1] == Seqs.KeepLast(s.data, BufferSize - 1);
      assert NonNegative(s.data) ==> NonNegative(d) by {
        if NonNegative(s.data) {
          forall k | 0 <= k < |d| - 1
            ensures d[k].up >= 0.0 && d[k].down >= 0.0
          {
            assert d[k] == s.data[|s.data| + 1 - |d| + k];
          }
        }
      }
      Sampler(Baseline(c.bytesUp, c.bytesDown, now), d)
  }

  /** A reading together with the time it arrived. */
  datatype Reading = Reading(counters: Counters, at: int)

  /** Feed readings in arrival order. */
  function Feed(s: Sampler, rs: seq<Reading>): Sampler
    decreases |rs|
  {
    if |rs| == 0 then s else Feed(Observe(s, rs[0].counters, rs[0].at), rs[1..])
  }

  /** Reference definition: every point the readings would produce with an
      unbounded buffer. */
  function AllSamples(b: Baseline, rs: seq<Reading>): seq<Sample>
    decreases |rs|
  {
    if |rs| == 0 then []
    else if rs[0].at <= b.time then AllSamples(b, rs[1..])
    else [SampleOf(b, rs[0].counters, rs[0].at)]
         + AllSamples(Baseline(rs[0].counters.bytesUp, rs[0].counters.bytesDown, rs[0].at), rs[1..])
  }

  /** The last reading that moved the baseline, or `b` when none did. */
  function FinalBaseline(b: Baseline, rs: seq<Reading>): Baseline
    decreases |rs|
  {
    if |rs| == 0 then b
    else if rs[0].at <= b.time then FinalBaseline(b, rs[1..])
    else FinalBaseline(Baseline(rs[0].counters.bytesUp, rs[0].counters.bytesDown, rs[0].at), rs[1..])
  }

  /** One accepted reading: the unbounded history gains its point in front
      of the rest, and trimming before or after the rest agrees. */
  lemma {:induction false} AcceptedStep(s: Sampler, rs: seq<Reading>)
    requires |rs| > 0 && rs[0].at > s.baseline.time
    ensures Seqs.KeepLast(Observe(s, rs[0].counters, rs[0].at).data
                          + AllSamples(Observe(s, rs[0].counters, rs[0].at).baseline, rs[1..]), BufferSize)
            == Seqs.KeepLast(s.data + AllSamples(s.baseline, rs), BufferSize)
    ensures FinalBaseline(s.baseline, rs) == FinalBaseline(Observe(s, rs[0].counters, rs[0].at).baseline, rs[1..])
  {
    var s1 := Observe(s, rs[0].counters, rs[0].at);
    var p := SampleOf(s.baseline, rs[0].counters, rs[0].at);
    var rest := AllSamples(s1.baseline, rs[1..]);
    Seqs.KeepLastConcat(s.data + [p], rest, BufferSize);
    assert s.data + [p] + rest == s.data + ([p] + rest);
  }

  /** After any run of readings the buffer holds the newest BufferSize points
      of the unbounded history, in arrival order, every rate is non-negative,
      and the baseline is the last accepted reading. */
  lemma {:induction false} FeedKeepsNewest(s: Sampler, rs: seq<Reading>)
    requires |s.data| <= BufferSize && NonNegative(s.data)
    ensures Feed(s, rs).data == Seqs.KeepLast(s.data + AllSamples(s.baseline, rs), BufferSize)
    ensures NonNegative(Feed(s, rs).data)
    ensures Feed(s, rs).baseline == FinalBaseline(s.baseline, rs)
    decreases |rs|
  {
    if |rs| == 0 {
      assert s.data + [] == s.data;
    } else {
      var s1 := Observe(s, rs[0].counters, rs[0].at);
      FeedKeepsNewest(s1, rs[1..]);
      assert Feed(s, rs) == Feed(s1, rs[1..]);
      if rs[0].at > s.baseline.time {
        AcceptedStep(s, rs);
      } else {
        assert s1 == s;
        assert AllSamples(s.baseline, rs) == AllSamples(s.baseline, rs[1..]);
        assert FinalBaseline(s.baseline, rs) == FinalBaseline(s.baseline, rs[1..]);
      }
    }
  }

  /** Example: with one second between readings a counter that grows by 1500
      bytes gives 1500 B/s, and a counter that shrinks gives 0. */
  lemma RateExample()
    ensures Observe(Sampler(Baseline(1000, 5000, 0), []), Counters(2500, 4000), 1000).data
            == [Sample(1000, 1500.0, 0.0)]
  {
    var s := Observe(Sampler(Baseline(1000, 5000, 0), []), Counters(2500, 4000), 1000);
    assert Rate(1500, 1000) == 1500.0;
  }
}
