/** The dashboard's bulk stop: the selected ports go out in DELETE requests of
    at most 50 ports each, one after the other, with a progress counter updated
    after each request; the first request whose fetch is rejected ends the
    run. An HTTP error status is not a rejection. */
module BulkDelete {
  import opened Wrappers

  const ChunkSize: nat := 50

  /** All elements of the pieces, in order. */
  function Flatten<T>(xss: seq<seq<T>>): seq<T>
  {
    if |xss| == 0 then [] else xss[0] + Flatten(xss[1..])
  }

  function Min(a: int, b: int): int
  {
    if a <= b then a else b
  }

  /** Flattening a piece in front of the others. */
  lemma FlattenCons<T>(a: seq<T>, rest: seq<seq<T>>)
    ensures Flatten([a] + rest) == a + Flatten(rest)
  {
    assert ([a] + rest)[1..] == rest;
  }

  /** Consecutive pieces of `xs` of ChunkSize elements, the last one possibly
      shorter (the loop `for i = 0; i < len; i += 50` over `xs.slice(i, i + 50)`). */
  function Chunks<T>(xs: seq<T>): (r: seq<seq<T>>)
    ensures Flatten(r) == xs
    ensures forall k :: 0 <= k < |r| ==> 0 < |r[k]| <= ChunkSize
    ensures forall k :: 0 <= k < |r| - 1 ==> |r[k]| == ChunkSize
    ensures |r| == (|xs| + ChunkSize - 1) / ChunkSize
    decreases |xs|
  {
    if |xs| == 0 then []
    else if |xs| <= ChunkSize then
      FlattenCons(xs, []);
      [xs]
    else
      var rest := Chunks(xs[ChunkSize..]);
      FlattenCons(xs[..ChunkSize], rest);
      assert xs[..ChunkSize] + xs[ChunkSize..] == xs;
      [xs[..ChunkSize]] + rest
  }

  /** The number of ports the first `k` requests carried is min(total, 50·k). */
  lemma {:induction false} ProcessedAfter<T>(xs: seq<T>, k: nat)
    requires k <= |Chunks(xs)|
    ensures |Flatten(Chunks(xs)[..k])| == Min(|xs|, ChunkSize * k)
    decreases |xs|
  {
    var cs := Chunks(xs);
    if k == 0 {
      assert cs[..0] == [];
    } else if |xs| <= ChunkSize {
      assert cs == [xs];
      assert cs[..k] == [xs];
      FlattenCons(xs, []);
    } else {
      var rest := Chunks(xs[ChunkSize..]);
      assert cs == [xs[..ChunkSize]] + rest;
      assert cs[..k] == [xs[..ChunkSize]] + rest[..k - 1];
      FlattenCons(xs[..ChunkSize], rest[..k - 1]);
      ProcessedAfter(xs[ChunkSize..], k - 1);
    }
  }

  /** 120 selected ports go out as requests of 50, 50 and 20 ports. */
  lemma OneHundredTwenty(xs: seq<int>)
    requires |xs| == 120
    ensures |Chunks(xs)| == 3
    ensures |Chunks(xs)[0]| == 50 && |Chunks(xs)[1]| == 50
    ensures |Chunks(xs)[2]| == 20
  {
    var cs := Chunks(xs);
    assert |cs| == 3;
    assert |Flatten(cs)| == 120;
    assert Flatten(cs) == cs[0] + Flatten(cs[1..]);
    assert Flatten(cs[1..]) == cs[1] + Flatten(cs[2..]);
    assert Flatten(cs[2..]) == cs[2] + Flatten(cs[3..]);
  }

  /** What a bulk stop did: the port lists it sent, the successive values of
      the progress counter (starting from 0) and whether every request went
      through. */
  datatype Run<T> = Run(requests: seq<seq<T>>, progress: seq<int>, succeeded: bool)

  /** Stop `ports`, where `rejectAt` is the index of the first request whose
      fetch is rejected, if any. The rejected request is still sent; the
      counter is not advanced for it and no later request is sent. */
  function Stop<T>(ports: seq<T>, rejectAt: Option<nat>): (r: Run<T>)
    ensures var cs := Chunks(ports);
            && (r.succeeded <==> rejectAt.None? || rejectAt.value >= |cs|)
            && (r.succeeded ==> r.requests == cs && |r.progress| == |cs| + 1)
            && (!r.succeeded ==> r.requests == cs[..rejectAt.value + 1]
                                 && |r.progress| == rejectAt.value + 1)
    ensures forall j :: 0 <= j < |r.progress| ==> r.progress[j] == Min(|ports|, ChunkSize * j)
    ensures r.succeeded ==> r.progress[|r.progress| - 1] == |ports|
  {
    var cs := Chunks(ports);
    var done := if rejectAt.Some? && rejectAt.value < |cs| then rejectAt.value else |cs|;
    var progress := seq(done + 1, j requires 0 <= j <= done => |Flatten(cs[..j])|);
    assert forall j :: 0 <= j < |progress| ==> progress[j] == Min(|ports|, ChunkSize * j) by {
      forall j | 0 <= j < |progress|
        ensures progress[j] == Min(|ports|, ChunkSize * j)
      {
        ProcessedAfter(ports, j);
      }
    }
    if done == |cs| then
      assert cs[..|cs|] == cs;
      Run(cs, progress, true)
    else
      Run(cs[..done + 1], progress, false)
  }
}
