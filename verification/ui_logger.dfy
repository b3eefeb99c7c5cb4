/** The terminal's log buffer: a bounded first-in first-out list of entries,
    and the lines the status screen shows from it. Time stamps are local
    times in whole seconds; the time zone and the message formatting are
    outside the model. */
module UiLogger {
  import opened Wrappers
  import Seqs
  import Clock

  datatype Level = Info | Debug

  datatype Entry = Entry(time: int, level: Level, message: string)

  /** The entries, oldest first, and the capacity the buffer was made with. */
  datatype LogBuffer = LogBuffer(entries: seq<Entry>, maxSize: int)

  /** A buffer made with `maxLines` as its capacity. Making the backing slice
      with a negative capacity panics, so the capacity is not negative. */
  function NewBuffer(maxLines: int): (l: LogBuffer)
    requires maxLines >= 0
    ensures l.entries == [] && l.maxSize == maxLines
  {
    LogBuffer([], maxLines)
  }

  /** The first entry of a new buffer is recorded unless the capacity is 0. */
  lemma FirstEntry(maxLines: int, level: Level, message: string, now: int)
    requires maxLines >= 0
    ensures Printf(NewBuffer(maxLines), level, message, now).None? <==> maxLines == 0
    ensures maxLines > 0 ==> Printf(NewBuffer(maxLines), level, message, now).value.entries == [Entry(now, level, message)]
  {
  }

  /** The buffer never holds more than its capacity. */
  predicate Bounded(l: LogBuffer)
  {
    |l.entries| <= l.maxSize
  }

  /** Record one entry. A full buffer first drops its oldest entry; a buffer
      made with capacity 0 panics on its first entry (slicing an empty slice
      from 1), which is None here. */
  function Printf(l: LogBuffer, level: Level, message: string, now: int): (r: Option<LogBuffer>)
    ensures r.None? <==> |l.entries| == 0 && l.maxSize <= 0
    ensures r.Some? ==> r.value.maxSize == l.maxSize && |r.value.entries| > 0
                        && r.value.entries[|r.value.entries| - 1] == Entry(now, level, message)
    ensures r.Some? && l.maxSize >= 1 && Bounded(l) ==>
              Bounded(r.value)
              && r.value.entries == Seqs.KeepLast(l.entries + [Entry(now, level, message)], l.maxSize)
  {
    var e := Entry(now, level, message);
    if |l.entries| >= l.maxSize then
      if |l.entries| == 0 then None
      else Some(l.(entries := l.entries[1..] + [e]))
    else Some(l.(entries := l.entries + [e]))
  }

  /** One message to record: its time, level and text. */
  datatype Message = Message(time: int, level: Level, text: string)

  function EntryOf(m: Message): Entry { Entry(m.time, m.level, m.text) }

  /** Record the messages in order, or None if a panic happens on the way. */
  function PrintAll(l: LogBuffer, msgs: seq<Message>): (r: Option<LogBuffer>)
    decreases |msgs|
  {
    if |msgs| == 0 then Some(l)
    else match Printf(l, msgs[0].level, msgs[0].text, msgs[0].time)
      case None => None
      case Some(l') => PrintAll(l', msgs[1..])
  }

  /** The entries made from `msgs`, in order. */
  function Entries(msgs: seq<Message>): (r: seq<Entry>)
    ensures |r| == |msgs| && forall i :: 0 <= i < |msgs| ==> r[i] == EntryOf(msgs[i])
  {
    seq(|msgs|, i requires 0 <= i < |msgs| => EntryOf(msgs[i]))
  }

  /** A bounded buffer of positive capacity holds, after any run of messages,
      exactly the newest `maxSize` entries of everything it has seen, oldest
      first. */
  lemma {:induction false} PrintAllKeepsNewest(l: LogBuffer, msgs: seq<Message>)
    requires l.maxSize >= 1 && Bounded(l)
    ensures PrintAll(l, msgs).Some?
    ensures PrintAll(l, msgs).value.entries == Seqs.KeepLast(l.entries + Entries(msgs), l.maxSize)
    decreases |msgs|
  {
    if |msgs| > 0 {
      var l' := PrintFirst(l, msgs);
      PrintAllKeepsNewest(l', msgs[1..]);
      NewestAfterOne(l, msgs, l');
    } else {
      EntriesNone(l.entries, msgs);
    }
  }

  /** Recording the first message of a run into a bounded buffer. */
  lemma PrintFirst(l: LogBuffer, msgs: seq<Message>) returns (l': LogBuffer)
    requires l.maxSize >= 1 && Bounded(l) && |msgs| > 0
    ensures l'.maxSize == l.maxSize && Bounded(l')
    ensures l'.entries == Seqs.KeepLast(l.entries + [EntryOf(msgs[0])], l.maxSize)
    ensures PrintAll(l, msgs) == PrintAll(l', msgs[1..])
  {
    l' := Printf(l, msgs[0].level, msgs[0].text, msgs[0].time).value;
  }

  lemma EntriesNone(pre: seq<Entry>, msgs: seq<Message>)
    requires |msgs| == 0
    ensures pre + Entries(msgs) == pre
  {
    assert Entries(msgs) == [];
  }

  /** The step of PrintAllKeepsNewest: the first message's trim folds into
      the trim of the rest. */
  lemma NewestAfterOne(l: LogBuffer, msgs: seq<Message>, l': LogBuffer)
    requires l.maxSize >= 1 && |msgs| > 0
    requires l'.entries == Seqs.KeepLast(l.entries + [EntryOf(msgs[0])], l.maxSize)
    ensures Seqs.KeepLast(l'.entries + Entries(msgs[1..]), l.maxSize)
            == Seqs.KeepLast(l.entries + Entries(msgs), l.maxSize)
  {
    EntriesCons(l.entries, msgs);
    Seqs.KeepLastConcat(l.entries + [EntryOf(msgs[0])], Entries(msgs[1..]), l.maxSize);
  }

  lemma EntriesCons(pre: seq<Entry>, msgs: seq<Message>)
    requires |msgs| > 0
    ensures pre + Entries(msgs) == (pre + [EntryOf(msgs[0])]) + Entries(msgs[1..])
  {
    assert Entries(msgs) == [EntryOf(msgs[0])] + Entries(msgs[1..]);
  }

  /** The prefix written in front of a message of each level. */
  function LevelPrefix(level: Level): string
  {
    match level
    case Info => "[INFO] "
    case Debug => "[DEBUG] "
  }

  /** "15:04:05 [INFO] message": the time of day of the entry's integer seconds (the time
      zone is not modelled), the level and the text. */
  function Line(e: Entry): (s: string)
    ensures |s| == 9 + |LevelPrefix(e.level)| + |e.message|
    ensures s[..8] == Clock.FormatTime(e.time % 86400) && s[8] == ' '
    ensures s[9..9 + |LevelPrefix(e.level)|] == LevelPrefix(e.level) && s[|s| - |e.message|..] == e.message
  {
    Clock.FormatTime(e.time % 86400) + " " + LevelPrefix(e.level) + e.message
  }

  /** The entries shown: all of them, or only the INFO ones. */
  function Shown(entries: seq<Entry>, showDebug: bool): (r: seq<Entry>)
    ensures |r| <= |entries|
    ensures forall k :: 0 <= k < |r| ==> r[k] in entries && (showDebug || r[k].level == Info)
    ensures showDebug ==> r == entries
    decreases |entries|
  {
    if |entries| == 0 then []
    else if entries[0].level == Debug && !showDebug then Shown(entries[1..], showDebug)
    else [entries[0]] + Shown(entries[1..], showDebug)
  }

  function Lines(entries: seq<Entry>): (r: seq<string>)
    ensures |r| == |entries| && forall i :: 0 <= i < |entries| ==> r[i] == Line(entries[i])
  {
    seq(|entries|, i requires 0 <= i < |entries| => Line(entries[i]))
  }

  /** The lines for the shown entries in buffer order; with a positive
      `limit` and more lines than that, only the last `limit` lines. */
  function GetLines(l: LogBuffer, showDebug: bool, limit: int): (r: seq<string>)
    ensures var all := Lines(Shown(l.entries, showDebug));
            |r| <= |all| && r == all[|all| - |r|..]
            && (limit > 0 ==> |r| == if |all| < limit then |all| else limit)
            && (limit <= 0 ==> r == all)
  {
    var lines := Lines(Shown(l.entries, showDebug));
    if limit > 0 then Seqs.KeepLast(lines, limit) else lines
  }

  /** Every INFO entry is shown whether or not debugging output is on
      (and, by Shown's contract, no DEBUG entry is shown when it is off). */
  lemma {:induction false} ShownKeepsInfo(entries: seq<Entry>, showDebug: bool, e: Entry)
    requires e in entries && e.level == Info
    ensures e in Shown(entries, showDebug)
    decreases |entries|
  {
    if entries[0] != e {
      ShownKeepsInfo(entries[1..], showDebug, e);
    }
  }

  /** The status screen's tail ends with the newest entry shown. */
  lemma TailEndsWithNewest(l: LogBuffer, showDebug: bool, limit: int)
    requires limit > 0 && |Shown(l.entries, showDebug)| > 0
    ensures var r, shown := GetLines(l, showDebug, limit), Shown(l.entries, showDebug);
            |r| > 0 && r[|r| - 1] == Line(shown[|shown| - 1])
  {
    var shown := Shown(l.entries, showDebug);
    var all := Lines(shown);
    var r := GetLines(l, showDebug, limit);
    assert |r| > 0;
    assert r[|r| - 1] == all[|all| - 1];
  }
}
