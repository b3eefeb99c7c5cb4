/** The terminal's framed boxes: removing colour escape sequences to measure
    what a line shows, and the width arithmetic of a box's border and rows.
    A box is modelled by what it prints: its title, the number of border
    dashes, each row's text and padding, and the bottom border. Go measures
    titles and text with `len`, which counts bytes, while the terminal shows
    one column per rune: one per byte that is not a UTF-8 continuation byte.
    Every rune is taken to be one column wide, and each frame character is
    one column. A Go panic (a negative slice bound or repeat count) is None.
    Printing, and the terminal size query itself, are outside the model. */
module UiBox {
  import opened Wrappers

  // ---------------------------------------------------------------------
  // Colour escape sequences
  // ---------------------------------------------------------------------

  const Esc: char := 27 as char

  /** The characters allowed between ESC '[' and 'm'. */
  predicate IsParam(c: char) { '0' <= c <= '9' || c == ';' }

  /** A colour sequence: ESC '[' params 'm'. */
  function Sgr(params: string): string
  {
    [Esc, '['] + params + "m"
  }

  const Reset: string := Sgr("0")
  const Cyan: string := Sgr("36")
  const White: string := Sgr("97")
  const Bold: string := Sgr("1")

  /** How many parameter characters `s` starts with. */
  function ParamRun(s: string): (n: nat)
    ensures n <= |s|
    ensures forall k :: 0 <= k < n ==> IsParam(s[k])
    ensures n < |s| ==> !IsParam(s[n])
    decreases |s|
  {
    if |s| == 0 || !IsParam(s[0]) then 0 else 1 + ParamRun(s[1..])
  }

  /** The length of the colour sequence `s` starts with, or 0 when it does
      not start with one. */
  function EscapeLength(s: string): (n: nat)
    ensures n == 0 || (3 <= n <= |s| && s[0] == Esc && s[1] == '[' && s[n - 1] == 'm'
                       && forall k :: 2 <= k < n - 1 ==> IsParam(s[k]))
  {
    if |s| >= 2 && s[0] == Esc && s[1] == '[' then
      var p := ParamRun(s[2..]);
      if 2 + p < |s| && s[2 + p] == 'm' then 3 + p else 0
    else 0
  }

  /** One left-to-right pass of regexp \x1b\[[0-9;]*m replaced by "": every
      colour sequence found is removed, every other character kept. */
  function StripAnsi(s: string): (r: string)
    ensures |r| <= |s|
    ensures Esc !in s ==> r == s
    decreases |s|
  {
    if |s| == 0 then ""
    else
      var n := EscapeLength(s);
      if n > 0 then StripAnsi(s[n..]) else [s[0]] + StripAnsi(s[1..])
  }

  /** The parameter run ends at the first character that is not one. */
  lemma {:induction false} ParamRunStops(params: string, c: char, rest: string)
    requires forall k :: 0 <= k < |params| ==> IsParam(params[k])
    requires !IsParam(c)
    ensures ParamRun(params + [c] + rest) == |params|
    decreases |params|
  {
    if |params| > 0 {
      assert (params + [c] + rest)[1..] == params[1..] + [c] + rest;
      ParamRunStops(params[1..], c, rest);
    }
  }

  /** A colour sequence at the front is removed as a whole. */
  lemma StripSgr(params: string, rest: string)
    requires forall k :: 0 <= k < |params| ==> IsParam(params[k])
    ensures StripAnsi(Sgr(params) + rest) == StripAnsi(rest)
  {
    var s := Sgr(params) + rest;
    assert s[2..] == params + "m" + rest;
    ParamRunStops(params, 'm', rest);
    assert EscapeLength(s) == |params| + 3;
    assert s[|params| + 3..] == rest;
  }

  /** Text without ESC passes through unchanged. */
  lemma {:induction false} StripPlain(t: string, rest: string)
    requires Esc !in t
    ensures StripAnsi(t + rest) == t + StripAnsi(rest)
    decreases |t|
  {
    if |t| > 0 {
      var s := t + rest;
      assert s[0] == t[0] && s[0] != Esc;
      assert EscapeLength(s) == 0;
      assert StripAnsi(s) == [s[0]] + StripAnsi(s[1..]);
      assert s[1..] == t[1..] + rest;
      StripPlain(t[1..], rest);
      assert [t[0]] + t[1..] == t;
    } else {
      assert t + rest == rest;
    }
  }

  /** A coloured plain text shows as the text: what DrawBox measures of a
      line like Bold + option + Reset. */
  lemma ColouredText(p: string, t: string, q: string)
    requires forall k :: 0 <= k < |p| ==> IsParam(p[k])
    requires forall k :: 0 <= k < |q| ==> IsParam(q[k])
    requires Esc !in t
    ensures StripAnsi(Sgr(p) + t + Sgr(q)) == t
  {
    var x := t + Sgr(q);
    assert Sgr(p) + t + Sgr(q) == Sgr(p) + x;
    StripSgr(p, x);
    TextThenSgr(t, q);
  }

  /** Plain text followed by a colour sequence shows as the text. */
  lemma TextThenSgr(t: string, q: string)
    requires forall k :: 0 <= k < |q| ==> IsParam(q[k])
    requires Esc !in t
    ensures StripAnsi(t + Sgr(q)) == t
  {
    StripPlain(t, Sgr(q));
    StripSgrAlone(q);
    assert t + "" == t;
  }

  /** A single pass can leave a colour sequence behind: removing the inner
      one of ESC ESC '[' 'm' '[' 'm' joins the rest into a new one. */
  lemma StripIsOnePass()
    ensures StripAnsi([Esc] + Sgr("") + "[m") == Sgr("")
  {
    var s := [Esc] + Sgr("") + "[m";
    assert EscapeLength(s) == 0 by { assert s[1] != '['; }
    assert s[1..] == Sgr("") + "[m";
    StripSgr("", "[m");
    StripPlain("[m", "");
    assert "[m" + "" == "[m";
  }

  /** A colour sequence on its own strips to nothing; so a second pass
      removes what StripIsOnePass leaves. */
  lemma StripSgrAlone(params: string)
    requires forall k :: 0 <= k < |params| ==> IsParam(params[k])
    ensures StripAnsi(Sgr(params)) == ""
  {
    StripSgr(params, "");
    assert Sgr(params) + "" == Sgr(params);
  }

  // ---------------------------------------------------------------------
  // Display columns
  // ---------------------------------------------------------------------

  /** A UTF-8 continuation byte, 10xxxxxx: it carries on the rune before it
      and takes no column of its own. */
  predicate IsContinuation(c: char) { 0x80 as char <= c <= 0xBF as char }

  /** How many continuation bytes `s` holds. */
  function Continuations(s: string): (n: nat)
    ensures n <= |s|
    decreases |s|
  {
    if |s| == 0 then 0 else (if IsContinuation(s[0]) then 1 else 0) + Continuations(s[1..])
  }

  /** The columns a byte string shows: one per rune, that is one per byte
      that is not a continuation byte. */
  function Columns(s: string): nat
  {
    |s| - Continuations(s)
  }

  lemma {:induction false} ContinuationsAppend(a: string, b: string)
    ensures Continuations(a + b) == Continuations(a) + Continuations(b)
    decreases |a|
  {
    if |a| == 0 {
      assert a + b == b;
    } else {
      assert (a + b)[1..] == a[1..] + b;
      ContinuationsAppend(a[1..], b);
    }
  }

  /** Text of 7-bit bytes only. */
  predicate IsAscii(s: string) { forall k :: 0 <= k < |s| ==> s[k] < 0x80 as char }

  /** ASCII text shows one column per byte. */
  lemma {:induction false} AsciiColumns(s: string)
    requires IsAscii(s)
    ensures Continuations(s) == 0 && Columns(s) == |s|
    decreases |s|
  {
    if |s| > 0 {
      AsciiColumns(s[1..]);
    }
  }

  // ---------------------------------------------------------------------
  // Boxes
  // ---------------------------------------------------------------------

  /** One content row: the text printed and the spaces after it. */
  datatype Row = Row(text: string, padding: nat)

  /** A drawn box: its title, the dashes after the title, the rows, and the
      dashes of the bottom border. */
  datatype Box = Box(title: string, dashes: nat, rows: seq<Row>, bottomDashes: nat)

  /** The top border "╭─ " title " " dashes "╮" as Go's arithmetic counts it:
      the title in bytes, the frame as five columns. */
  function TopLength(b: Box): nat { |b.title| + 5 + b.dashes }

  /** The columns the top border shows. */
  function TopColumns(b: Box): nat { Columns(b.title) + 5 + b.dashes }

  /** A content row "│ " text padding " │" as Go's arithmetic counts it: the
      visible text in bytes, the frame as four columns. */
  function RowLength(r: Row): nat { |StripAnsi(r.text)| + r.padding + 4 }

  /** The columns a content row shows. */
  function RowColumns(r: Row): nat { Columns(StripAnsi(r.text)) + r.padding + 4 }

  /** Columns of the bottom border: "╰" dashes "╯". */
  function BottomColumns(b: Box): nat { b.bottomDashes + 2 }

  /** A content line in a box `width` columns wide: a line whose visible
      bytes fit is padded up to the width in bytes, so it shows one column
      fewer per continuation byte; a longer one is cut to its first
      width − 4 bytes (escape sequences included) followed by "...",
      without padding. */
  function ContentRow(line: string, width: int): (r: Row)
    requires width >= 4
    ensures |StripAnsi(line)| <= width - 4 ==>
              r.text == line && RowLength(r) == width
              && RowColumns(r) == width - Continuations(StripAnsi(line))
    ensures |StripAnsi(line)| > width - 4 ==> r == Row(line[..width - 4] + "...", 0)
  {
    var lineLen := |StripAnsi(line)|;
    var padding := width - lineLen - 4;
    if padding < 0 then Row(line[..width - 4] + "...", 0) else Row(line, padding)
  }

  /** DrawBoxWithColor. The title is cut to width − 4 bytes when longer; the
      top border then repeats the dash width − len(title) − 5 times, which
      is negative, and panics, whenever the title has at least width − 4
      bytes, including every title that was cut. Since the dashes are
      counted from the title's bytes, a title with multi-byte runes leaves
      the top border short by one column per continuation byte. */
  function DrawBox(title: string, content: seq<string>, width: int): (r: Option<Box>)
    ensures r.None? <==> |title| >= width - 4
    ensures r.Some? ==> r.value.title == title && TopLength(r.value) == width
                        && TopColumns(r.value) == width - Continuations(title)
                        && BottomColumns(r.value) == width && |r.value.rows| == |content|
    ensures r.Some? ==> forall i :: 0 <= i < |content| ==> r.value.rows[i] == ContentRow(content[i], width)
  {
    var cut := |title| > width - 4;
    if cut && width - 4 < 0 then None
    else
      var t := if cut then title[..width - 4] else title;
      if width - |t| - 5 < 0 then None
      else Some(Box(t, width - |t| - 5, seq(|content|, i requires 0 <= i < |content| => ContentRow(content[i], width)),
                    width - 2))
  }

  /** Every row of a drawn box whose visible bytes fit takes the box's width
      in bytes, and shows exactly the box's width in columns only when its
      text holds no multi-byte rune. */
  lemma FittingRowsFill(title: string, content: seq<string>, width: int, i: nat)
    requires DrawBox(title, content, width).Some? && i < |content|
    requires |StripAnsi(content[i])| <= width - 4
    ensures RowLength(DrawBox(title, content, width).value.rows[i]) == width
    ensures RowColumns(DrawBox(title, content, width).value.rows[i])
            == width - Continuations(StripAnsi(content[i]))
    ensures RowColumns(DrawBox(title, content, width).value.rows[i]) == width
            <==> Continuations(StripAnsi(content[i])) == 0
  {
  }

  /** "✓" (U+2713) as a Go string holds it: three UTF-8 bytes. */
  const CheckMark: string := [0xE2 as char, 0x9C as char, 0x93 as char]

  /** Two of the three bytes of "✓" continue the rune. */
  lemma CheckMarkContinuations()
    ensures Continuations(CheckMark) == 2
  {
    var t1, t2 := CheckMark[1..], CheckMark[2..];
    assert t1[1..] == t2 && t2[1..] == [];
    assert !IsContinuation(CheckMark[0]) && IsContinuation(t1[0]) && IsContinuation(t2[0]);
    assert Continuations(t2) == 1;
    assert Continuations(t1) == 2;
  }

  /** "✓" followed by plain ASCII text shows one column for the mark and
      one per byte of the text. */
  lemma {:induction false} CheckMarkLine(text: string)
    requires Esc !in text && IsAscii(text)
    ensures StripAnsi(CheckMark + text) == CheckMark + text
    ensures Continuations(CheckMark + text) == 2 && Columns(CheckMark + text) == 1 + |text|
  {
    var line := CheckMark + text;
    assert Esc !in line by {
      forall k | 0 <= k < |line| ensures line[k] != Esc {
        if k >= 3 { assert line[k] == text[k - 3]; }
      }
    }
    AsciiColumns(text);
    ContinuationsAppend(CheckMark, text);
    CheckMarkContinuations();
  }

  /** A fitting row of "✓" and ASCII text shows two columns fewer than the
      box is wide, although Go's arithmetic takes it to fill the box; the
      corrected row fills it. */
  lemma CheckMarkRowShort(text: string, width: int)
    requires Esc !in text && IsAscii(text) && 3 + |text| <= width - 4
    ensures RowLength(ContentRow(CheckMark + text, width)) == width
    ensures RowColumns(ContentRow(CheckMark + text, width)) == width - 2
    ensures RowColumns(ContentRowFixed(CheckMark + text, width)) == width
  {
    CheckMarkLine(text);
  }

  /** In a centred box on a terminal at least 60 columns wide, a line of
      "✓" and ASCII text shows 58 of the box's 60 columns. */
  lemma CenteredCheckMarkRow(title: string, content: seq<string>, i: nat, text: string, termWidth: int)
    requires termWidth >= CenteredWidth && |title| <= CenteredWidth - 5
    requires i < |content| && content[i] == CheckMark + text
    requires Esc !in text && IsAscii(text) && 3 + |text| <= CenteredWidth - 4
    ensures var c := CenteredBox(title, content, termWidth);
            c.box.Some? && c.box.value.rows[i] == ContentRow(content[i], CenteredWidth)
            && RowLength(c.box.value.rows[i]) == CenteredWidth
            && RowColumns(c.box.value.rows[i]) == CenteredWidth - 2
            && RowColumns(ContentRowFixed(content[i], CenteredWidth)) == CenteredWidth
  {
    CheckMarkRowShort(text, CenteredWidth);
  }

  /** The "Setup Complete" screen's "✓ Configuration Saved" row shows 58 of
      the centred box's 60 columns; the corrected row shows all 60. */
  lemma ConfigurationSavedRow(termWidth: int)
    requires termWidth >= CenteredWidth
    ensures var c := CenteredBox("Setup Complete",
                                 ["", CheckMark + " Configuration Saved", "", "Starting Client..."], termWidth);
            c.box.Some? && RowLength(c.box.value.rows[1]) == CenteredWidth
            && RowColumns(c.box.value.rows[1]) == CenteredWidth - 2
            && RowColumns(ContentRowFixed(CheckMark + " Configuration Saved", CenteredWidth)) == CenteredWidth
  {
    var text := " Configuration Saved";
    assert IsAscii(text) && Esc !in text;
    CenteredCheckMarkRow("Setup Complete", ["", CheckMark + text, "", "Starting Client..."], 1, text, termWidth);
  }

  /** A 15-byte title in a box 19 columns wide panics. */
  lemma TitleAtLimitPanics()
    ensures DrawBox("TunnelCow Setup", [], 19).None?
    ensures DrawBox("TunnelCow Setup", [], 20).Some?
  {
  }

  /** A plain line longer than the box overflows it: the cut keeps width − 4
      bytes and "..." adds three, so Go's count is width + 3; on screen the
      row is three columns too wide, less one per continuation byte kept. */
  lemma LongLineOverflows(line: string, width: int)
    requires width >= 5 && Esc !in line && |line| > width - 4
    ensures RowLength(ContentRow(line, width)) == width + 3
    ensures RowColumns(ContentRow(line, width)) == width + 3 - Continuations(line[..width - 4])
  {
    var cutText := line[..width - 4] + "...";
    assert Esc !in cutText by {
      assert forall k :: 0 <= k < |cutText| ==> cutText[k] != Esc by {
        forall k | 0 <= k < |cutText| ensures cutText[k] != Esc {
          if k < width - 4 { assert cutText[k] == line[k]; }
        }
      }
    }
    ContinuationsAppend(line[..width - 4], "...");
    AsciiColumns("...");
  }

  function Min(a: int, b: int): int { if a <= b then a else b }

  function Max(a: int, b: int): int { if a >= b then a else b }

  /** The longest prefix of `s` that shows at most n columns: it stops
      before the rune after the n-th one starts, so it never ends inside a
      rune. */
  function TakeColumns(s: string, n: nat): (p: string)
    ensures p <= s
    ensures Columns(p) == Min(n, Columns(s))
    ensures |p| < |s| ==> !IsContinuation(s[|p|])
    decreases |s|
  {
    if |s| == 0 then ""
    else
      var q := if IsContinuation(s[0]) then TakeColumns(s[1..], n)
               else if n == 0 then "" else TakeColumns(s[1..], n - 1);
      if !IsContinuation(s[0]) && n == 0 then ""
      else
        var p := [s[0]] + q;
        assert p[1..] == q;
        assert s == [s[0]] + s[1..];
        p
  }

  /** A content row that stays within the box: the padding counts the
      columns the text shows, and a long line keeps its first width − 7
      runes so that "..." ends at the border. */
  function ContentRowFixed(line: string, width: int): (r: Row)
    requires width >= 4
    ensures Columns(StripAnsi(line)) <= width - 4 ==> r.text == line && RowColumns(r) == width
    ensures |StripAnsi(line)| <= width - 4 ==>
              r.text == ContentRow(line, width).text
              && r.padding == ContentRow(line, width).padding + Continuations(StripAnsi(line))
    ensures Columns(StripAnsi(line)) > width - 4 && width >= 7 && Esc !in line ==>
              r.text == TakeColumns(line, width - 7) + "..." && RowColumns(r) == width
  {
    var lineCols := Columns(StripAnsi(line));
    if lineCols > width - 4 then
      var cutText := TakeColumns(line, Max(0, width - 7)) + "...";
      if width >= 7 && Esc !in line then
        var kept := TakeColumns(line, width - 7);
        assert Esc !in cutText by {
          forall k | 0 <= k < |cutText| ensures cutText[k] != Esc {
            if k < |kept| { assert cutText[k] == line[k]; }
          }
        }
        ContinuationsAppend(kept, "...");
        AsciiColumns("...");
        Row(cutText, 0)
      else Row(cutText, 0)
    else Row(line, width - lineCols - 4)
  }

  /** The box with the title cut to width − 5 columns, so that the border
      takes no negative number of dashes, with the dashes counted from the
      columns the title shows, and with rows measured in columns. Only a box
      narrower than its five frame columns cannot be drawn. */
  function DrawBoxFixed(title: string, content: seq<string>, width: int): (r: Option<Box>)
    ensures r.None? <==> width < 5
    ensures r.Some? ==> r.value.title <= title && TopColumns(r.value) == width
                        && BottomColumns(r.value) == width && |r.value.rows| == |content|
    ensures r.Some? && Columns(title) <= width - 5 ==> r.value.title == title
    ensures r.Some? ==> forall i :: 0 <= i < |content| ==> r.value.rows[i] == ContentRowFixed(content[i], width)
  {
    if width < 5 then None
    else
      var t := if Columns(title) > width - 5 then TakeColumns(title, width - 5) else title;
      Some(Box(t, width - Columns(t) - 5,
               seq(|content|, i requires 0 <= i < |content| => ContentRowFixed(content[i], width)),
               width - 2))
  }

  /** Where the box as written can be drawn, the corrected box keeps the
      title and every fitting line, and adds one dash or space for every
      continuation byte the original counted as a column. */
  lemma FixedAgreesWhereDrawn(title: string, content: seq<string>, width: int)
    requires DrawBox(title, content, width).Some?
    ensures DrawBoxFixed(title, content, width).Some?
    ensures var b, f := DrawBox(title, content, width).value, DrawBoxFixed(title, content, width).value;
            b.title == f.title && f.dashes == b.dashes + Continuations(title) && b.bottomDashes == f.bottomDashes
            && forall i :: 0 <= i < |content| && |StripAnsi(content[i])| <= width - 4 ==>
                 f.rows[i].text == b.rows[i].text
                 && f.rows[i].padding == b.rows[i].padding + Continuations(StripAnsi(content[i]))
  {
  }

  /** In the corrected box every row of plain text, and every row that fits
      whatever it holds, shows exactly the box's width in columns. */
  lemma FixedRowsFill(title: string, content: seq<string>, width: int, i: nat)
    requires width >= 7 && i < |content|
    requires Esc !in content[i] || Columns(StripAnsi(content[i])) <= width - 4
    ensures RowColumns(DrawBoxFixed(title, content, width).value.rows[i]) == width
  {
  }

  // ---------------------------------------------------------------------
  // Centred boxes
  // ---------------------------------------------------------------------

  /** The terminal width: the size reported, or 80 when the query fails. */
  function TerminalWidth(size: Option<int>): (w: int)
    ensures size.Some? ==> w == size.value
    ensures size.None? ==> w == 80
  {
    if size.Some? then size.value else 80
  }

  /** The preferred width of a centred box. */
  const CenteredWidth: int := 60

  /** A centred box: the spaces in front of every line, the box's width, and
      the box drawn at that width. */
  datatype Centered = Centered(leftPad: int, boxWidth: int, box: Option<Box>)

  /** DrawCenteredBox: 60 columns wide, or the terminal width less 4 on a
      terminal narrower than 60, centred by half the spare columns. */
  function CenteredBox(title: string, content: seq<string>, termWidth: int): (r: Centered)
    ensures termWidth >= CenteredWidth ==> r.boxWidth == CenteredWidth
    ensures termWidth < CenteredWidth ==> r.boxWidth == termWidth - 4 && r.leftPad == 2
    ensures r.leftPad >= 0 && 2 * r.leftPad + r.boxWidth <= termWidth <= 2 * r.leftPad + r.boxWidth + 1
    ensures r.box == DrawBox(title, content, r.boxWidth)
  {
    var boxWidth := if CenteredWidth > termWidth then termWidth - 4 else CenteredWidth;
    var leftPad := (termWidth - boxWidth) / 2;
    Centered(leftPad, boxWidth, DrawBox(title, content, boxWidth))
  }

  /** On a standard 80-column terminal a centred box sits 10 columns in and
      fits titles of up to 55 bytes. */
  lemma EightyColumns(title: string, content: seq<string>)
    ensures CenteredBox(title, content, 80).leftPad == 10
    ensures CenteredBox(title, content, 80).box.Some? <==> |title| <= 55
  {
  }
}
