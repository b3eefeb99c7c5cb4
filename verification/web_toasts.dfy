/** The dashboard's notification list and the timers of one notification.
    A toast's id is the millisecond clock reading at which it was added, so two
    toasts added in the same millisecond share an id. */
module Toasts {
  import opened Wrappers

  datatype Kind = Error | Success

  datatype Toast = Toast(id: int, message: string, kind: Kind)

  /** Delay before a mounted toast slides in. */
  const EnterDelayMs: int := 10
  /** Time after mounting at which a toast starts closing by itself. */
  const AutoCloseMs: int := 5000
  /** Time between the start of closing and the removal from the list. */
  const ExitMs: int := 400

  /** Append a toast stamped `now`; the kind defaults to Error. */
  function Add(ts: seq<Toast>, now: int, message: string, kind: Option<Kind>): (r: seq<Toast>)
    ensures |r| == |ts| + 1 && r[..|ts|] == ts
    ensures r[|ts|].id == now && r[|ts|].message == message
    ensures kind.None? ==> r[|ts|].kind == Error
    ensures kind.Some? ==> r[|ts|].kind == kind.value
  {
    ts + [Toast(now, message, if kind.Some? then kind.value else Error)]
  }

  /** Drop every toast whose id is `id`, keeping the rest in order. */
  function Remove(ts: seq<Toast>, id: int): (r: seq<Toast>)
    ensures |r| <= |ts|
    ensures forall k :: 0 <= k < |r| ==> r[k].id != id && r[k] in ts
    ensures forall t :: t in ts && t.id != id ==> t in r
    ensures (forall k :: 0 <= k < |ts| ==> ts[k].id != id) ==> r == ts
  {
    if |ts| == 0 then []
    else if ts[|ts| - 1].id == id then Remove(ts[..|ts| - 1], id)
    else Remove(ts[..|ts| - 1], id) + [ts[|ts| - 1]]
  }

  /** Removal distributes over concatenation: the relative order of the
      surviving toasts is that of the list. */
  lemma {:induction false} RemoveConcat(a: seq<Toast>, b: seq<Toast>, id: int)
    ensures Remove(a + b, id) == Remove(a, id) + Remove(b, id)
    decreases |b|
  {
    if |b| == 0 {
      assert a + b == a;
    } else {
      var b0 := b[..|b| - 1];
      assert (a + b)[..|a + b| - 1] == a + b0;
      assert (a + b)[|a + b| - 1] == b[|b| - 1];
      RemoveConcat(a, b0, id);
    }
  }

  /** Removing the id a toast was just added under undoes the addition,
      together with any older toast that shares its id. */
  lemma AddThenRemove(ts: seq<Toast>, now: int, message: string, kind: Option<Kind>)
    ensures Remove(Add(ts, now, message, kind), now) == Remove(ts, now)
  {
    var r := Add(ts, now, message, kind);
    assert r[..|r| - 1] == ts;
  }

  /** When a toast mounted at `mountedAt` starts closing: at the auto-close
      deadline, or earlier when the close button is pressed at `dismissedAt`. */
  function CloseStart(mountedAt: int, dismissedAt: Option<int>): (c: int)
    ensures c <= mountedAt + AutoCloseMs
    ensures dismissedAt.None? ==> c == mountedAt + AutoCloseMs
    ensures dismissedAt.Some? ==> c <= dismissedAt.value
    ensures c == mountedAt + AutoCloseMs || (dismissedAt.Some? && c == dismissedAt.value)
  {
    if dismissedAt.Some? && dismissedAt.value < mountedAt + AutoCloseMs then dismissedAt.value
    else mountedAt + AutoCloseMs
  }

  /** When the toast leaves the list: ExitMs after it starts closing. */
  function RemovalTime(mountedAt: int, dismissedAt: Option<int>): (t: int)
    ensures t - CloseStart(mountedAt, dismissedAt) == ExitMs
    ensures dismissedAt.None? ==> t == mountedAt + 5400
    ensures t <= mountedAt + 5400
    ensures dismissedAt.Some? && dismissedAt.value >= mountedAt ==> t >= mountedAt + ExitMs
  {
    CloseStart(mountedAt, dismissedAt) + ExitMs
  }

  /** Whether the toast is slid in at time `t`. The enter timer slides it in
      EnterDelayMs after mounting and closing slides it out. Closing does not
      cancel the enter timer, so a toast dismissed before it slid in still
      slides in when that timer fires and stays until it leaves the list. */
  function Shown(mountedAt: int, dismissedAt: Option<int>, t: int): (r: bool)
    ensures dismissedAt.None? ==> (r <==> mountedAt + 10 <= t < mountedAt + 5000)
    ensures dismissedAt.Some? && dismissedAt.value < mountedAt + 10 ==>
              (r <==> mountedAt + 10 <= t < dismissedAt.value + 400)
    ensures dismissedAt.Some? && mountedAt + 10 <= dismissedAt.value < mountedAt + 5000 ==>
              (r <==> mountedAt + 10 <= t < dismissedAt.value)
    ensures dismissedAt.Some? && dismissedAt.value >= mountedAt + 5000 ==>
              (r <==> mountedAt + 10 <= t < mountedAt + 5000)
    ensures r ==> mountedAt + 10 <= t < RemovalTime(mountedAt, dismissedAt)
  {
    var c := CloseStart(mountedAt, dismissedAt);
    var hidden := if c < mountedAt + EnterDelayMs then RemovalTime(mountedAt, dismissedAt) else c;
    mountedAt + EnterDelayMs <= t < hidden
  }

  /** Dismissed 5 ms after mounting, a toast still slides in at 10 ms and
      stays until it is removed at 405 ms. */
  lemma EarlyDismissStillShows(mountedAt: int)
    ensures !Shown(mountedAt, Some(mountedAt + 5), mountedAt + 9)
    ensures Shown(mountedAt, Some(mountedAt + 5), mountedAt + 10)
    ensures Shown(mountedAt, Some(mountedAt + 5), mountedAt + 404)
    ensures !Shown(mountedAt, Some(mountedAt + 5), mountedAt + 405)
    ensures RemovalTime(mountedAt, Some(mountedAt + 5)) == mountedAt + 405
  {
  }
}
