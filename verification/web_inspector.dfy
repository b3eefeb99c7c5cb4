/** Clock strings: the dashboard's uptime display and the terminal log's
    "15:04:05" time stamps both write hours, minutes and seconds as two-digit
    (or wider) decimal fields separated by ':'. */
module Clock {
  import opened Wrappers
  import Text

  /** hh:mm:ss for a number of whole seconds; hours wider than two digits are
      written in full. */
  function FormatTime(seconds: nat): (r: string)
    ensures seconds < 360000 ==> |r| == 8 && r[2] == ':' && r[5] == ':'
    ensures Text.CountChar(r, ':') == 2
  {
    var h := seconds / 3600;
    var m := (seconds % 3600) / 60;
    var s := seconds % 60;
    DigitsHaveNoColon(Text.Pad2(h));
    DigitsHaveNoColon(Text.Pad2(m));
    DigitsHaveNoColon(Text.Pad2(s));
    var r := Text.Pad2(h) + ":" + Text.Pad2(m) + ":" + Text.Pad2(s);
    CountColons(Text.Pad2(h), Text.Pad2(m), Text.Pad2(s));
    r
  }

  lemma DigitsHaveNoColon(s: string)
    requires Text.AllDigits(s)
    ensures ':' !in s
  {
  }

  lemma CountAppend(a: string, b: string, c: char)
    ensures Text.CountChar(a + b, c) == Text.CountChar(a, c) + Text.CountChar(b, c)
  {
    if |a| > 0 {
      assert (a + b)[1..] == a[1..] + b;
    } else {
      assert a + b == b;
    }
  }

  lemma CountAbsent(a: string, c: char)
    requires c !in a
    ensures Text.CountChar(a, c) == 0
  {
    if |a| > 0 {
      assert c !in a[1..];
    }
  }

  lemma CountColons(a: string, b: string, c: string)
    requires ':' !in a && ':' !in b && ':' !in c
    ensures Text.CountChar(a + ":" + b + ":" + c, ':') == 2
  {
    CountAbsent(a, ':');
    CountAbsent(b, ':');
    CountAbsent(c, ':');
    CountAppend(a, ":", ':');
    CountAppend(a + ":", b, ':');
    CountAppend(a + ":" + b, ":", ':');
    CountAppend(a + ":" + b + ":", c, ':');
  }

  /** Reads a clock string back as seconds: three ':'-separated non-empty
      decimal fields, the last two below 60. */
  function ClockSeconds(t: string): (r: Option<nat>)
    ensures r.Some? ==> Text.CountChar(t, ':') == 2
  {
    var parts := Text.Split(t, ':');
    if |parts| == 3 && Text.AllDigits(parts[0]) && Text.AllDigits(parts[1]) && Text.AllDigits(parts[2])
       && |parts[0]| > 0 && |parts[1]| > 0 && |parts[2]| > 0
       && Text.DigitsValue(parts[1]) < 60 && Text.DigitsValue(parts[2]) < 60
    then Some(3600 * Text.DigitsValue(parts[0]) + 60 * Text.DigitsValue(parts[1]) + Text.DigitsValue(parts[2]))
    else None
  }

  /** Reading a formatted time gives back the seconds it was made from. */
  lemma {:induction false} ClockRoundTrip(seconds: nat)
    ensures ClockSeconds(FormatTime(seconds)) == Some(seconds)
  {
    var h := seconds / 3600;
    var m := (seconds % 3600) / 60;
    var s := seconds % 60;
    var ph, pm, ps := Text.Pad2(h), Text.Pad2(m), Text.Pad2(s);
    DigitsHaveNoColon(ph);
    DigitsHaveNoColon(pm);
    DigitsHaveNoColon(ps);
    var parts := [ph, pm, ps];
    assert Text.Join(parts, ':') == ph + ":" + pm + ":" + ps by {
      assert parts[1..] == [pm, ps];
      assert parts[1..][1..] == [ps];
      assert Text.Join([ps], ':') == ps;
      assert Text.Join([pm, ps], ':') == pm + [':'] + ps;
      assert Text.Join(parts, ':') == ph + [':'] + (pm + [':'] + ps);
    }
    Text.SplitOfJoin(parts, ':');
    assert 3600 * h + 60 * m + s == seconds;
  }
}

/** The inspector tab: the captured exchanges newest first, the one the user
    picked, and how its response body is shown. */
module Inspector {
  import opened Wrappers
  import Seqs
  import Protocol

  /** Longest response body shown before it is cut. */
  const DisplayLimit: nat := 2000
  const TruncationMark: string := "... (Truncated)"

  /** The list shown: the fetched log (oldest first) reversed. */
  function ShownOrder(fetched: seq<Protocol.InspectPayload>): (r: seq<Protocol.InspectPayload>)
    ensures |r| == |fetched|
    ensures |fetched| > 0 ==> r[0] == fetched[|fetched| - 1]
    ensures forall i :: 0 <= i < |r| ==> r[i] == fetched[|fetched| - 1 - i]
  {
    Seqs.Reverse(fetched)
  }

  /** The entry the detail pane shows for the picked id: the first match in
      the shown list, or nothing when no id is picked or it has left the list. */
  function Selected(shown: seq<Protocol.InspectPayload>, picked: Option<string>): (r: Option<Protocol.InspectPayload>)
    ensures r.Some? ==> picked.Some? && r.value in shown && r.value.id == picked.value
    ensures picked.Some? && (exists k :: 0 <= k < |shown| && shown[k].id == picked.value) ==> r.Some?
  {
    if picked.None? then None
    else match Protocol.FirstWithId(shown, picked.value)
      case None => None
      case Some(k) => Some(shown[k])
  }

  /** The UTF-16 code units of one character, as JavaScript stores it: one
      unit in the Basic Multilingual Plane, a surrogate pair above it. */
  function CodeUnits(c: char): (u: seq<int>)
    ensures 1 <= |u| <= 2
    ensures |u| == 1 <==> (c as int) < 0x10000
    ensures |u| == 1 ==> u[0] == c as int
    ensures |u| == 2 ==> 0xD800 <= u[0] < 0xDC00 && 0xDC00 <= u[1] < 0xE000
  {
    var v := c as int;
    if v < 0x10000 then [v] else [0xD800 + (v - 0x10000) / 0x400, 0xDC00 + (v - 0x10000) % 0x400]
  }

  /** A string as JavaScript stores it; `.length` and `.substring` count
      these units. */
  function Utf16(s: string): (u: seq<int>)
    ensures |u| >= |s|
  {
    if |s| == 0 then [] else CodeUnits(s[0]) + Utf16(s[1..])
  }

  lemma {:induction false} Utf16Append(a: string, b: string)
    ensures Utf16(a + b) == Utf16(a) + Utf16(b)
    decreases |a|
  {
    if |a| == 0 {
      assert a + b == b;
    } else {
      assert (a + b)[1..] == a[1..] + b;
      Utf16Append(a[1..], b);
    }
  }

  /** Every character of `s` is in the Basic Multilingual Plane. */
  predicate Bmp(s: string)
  {
    forall i :: 0 <= i < |s| ==> (s[i] as int) < 0x10000
  }

  /** Without characters above the Basic Multilingual Plane a string has one
      unit per character. */
  lemma {:induction false} BmpUnits(s: string)
    requires Bmp(s)
    ensures |Utf16(s)| == |s|
    ensures forall i :: 0 <= i < |s| ==> Utf16(s)[i] == s[i] as int
  {
    if |s| > 0 {
      assert Bmp(s[1..]) by {
        forall i | 0 <= i < |s[1..]| ensures (s[1..][i] as int) < 0x10000 {
          assert s[1..][i] == s[i + 1];
        }
      }
      BmpUnits(s[1..]);
    }
  }

  /** The response-body panel, as the code units of the text shown: absent
      for an empty body, the body itself up to DisplayLimit units, otherwise
      its first DisplayLimit units and the truncation mark. The cut counts
      UTF-16 units and may split a surrogate pair. Request bodies are always
      shown whole. */
  function DisplayResBody(body: string): (r: Option<seq<int>>)
    ensures r.None? <==> body == ""
    ensures r.Some? && |Utf16(body)| <= DisplayLimit ==> r.value == Utf16(body)
    ensures r.Some? && |Utf16(body)| > DisplayLimit ==>
              |r.value| == DisplayLimit + |TruncationMark|
              && r.value[..DisplayLimit] == Utf16(body)[..DisplayLimit]
              && r.value[DisplayLimit..] == Utf16(TruncationMark)
  {
    if body == "" then None
    else
      var u := Utf16(body);
      MarkUnits();
      if |u| > DisplayLimit then Some(u[..DisplayLimit] + Utf16(TruncationMark))
      else Some(u)
  }

  /** The truncation mark is plain ASCII: one code unit per character. */
  lemma MarkUnits()
    ensures |Utf16(TruncationMark)| == |TruncationMark|
  {
    AsciiUnits(TruncationMark);
  }

  lemma AsciiUnits(m: string)
    requires m == TruncationMark
    ensures |Utf16(m)| == |m|
  {
    assert Bmp(m);
    BmpUnits(m);
  }

  /** For text in the Basic Multilingual Plane the cut falls after
      DisplayLimit characters. */
  lemma BmpBodyCutAtCharacters(body: string)
    requires Bmp(body) && |body| > DisplayLimit
    ensures DisplayResBody(body) == Some(Utf16(body[..DisplayLimit] + TruncationMark))
  {
    BmpUnits(body);
    assert body == body[..DisplayLimit] + body[DisplayLimit..];
    Utf16Append(body[..DisplayLimit], body[DisplayLimit..]);
    BmpUnits(body[..DisplayLimit]);
    Utf16Append(body[..DisplayLimit], TruncationMark);
  }

  /** `n` copies of one character above the Basic Multilingual Plane. */
  function Astral(n: nat): (s: string)
    ensures |s| == n && |Utf16(s)| == 2 * n
  {
    if n == 0 then "" else
      var s := Astral(n - 1) + "\U{1F600}";
      Utf16Append(Astral(n - 1), "\U{1F600}");
      s
  }

  /** A body of 1500 emoji is 1500 characters but 3000 units: it is cut, and
      the first 2000 units shown are the first 1000 emoji. */
  lemma EmojiBodyIsCut()
    ensures |Astral(1500)| <= DisplayLimit
    ensures |DisplayResBody(Astral(1500)).value| == DisplayLimit + |TruncationMark|
    ensures DisplayResBody(Astral(1500)).value[..DisplayLimit] == Utf16(Astral(1500)[..1000])
  {
    var b := Astral(1500);
    assert b == b[..1000] + b[1000..];
    Utf16Append(b[..1000], b[1000..]);
    assert |Utf16(b[..1000])| == 2000 by {
      AstralPrefix(1500, 1000);
    }
  }

  lemma {:induction false} AstralPrefix(n: nat, k: nat)
    requires k <= n
    ensures Astral(n)[..k] == Astral(k)
    decreases n
  {
    if k < n {
      AstralPrefix(n - 1, k);
      assert Astral(n)[..k] == Astral(n - 1)[..k];
    }
  }

  /** Reversing the shown list gives back the fetched log. */
  lemma ShownOrderInverse(fetched: seq<Protocol.InspectPayload>)
    ensures Seqs.Reverse(ShownOrder(fetched)) == fetched
  {
    Seqs.ReverseReverse(fetched);
  }
}
