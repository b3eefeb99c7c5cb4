/** Keyboard input for the terminal wizards: decoding one read of up to
    three bytes into a key name, the arrow-key menu, and the single-line
    editor. The terminal's raw mode and the screen drawing are outside the
    model; what a read returns is a parameter. Ctrl-C ends the program,
    which is an outcome of its own here. */
module UiInput {
  import opened Wrappers
  import Text

  /** What a read of the keyboard gives: a key name or the raw text read, a
      read error, or Ctrl-C (the program exits). */
  datatype KeyRead = Key(text: string) | ReadFailed | Interrupted

  const Esc: Text.Byte := 27
  const Bracket: Text.Byte := 91
  const CtrlC: Text.Byte := 3

  /** The bytes of a read as the characters of a Go string. */
  function Chars(b: seq<Text.Byte>): (s: string)
    ensures |s| == |b| && forall i :: 0 <= i < |b| ==> s[i] as int == b[i]
  {
    seq(|b|, i requires 0 <= i < |b| => b[i] as char)
  }

  /** The name of the arrow key whose escape sequence ends in `b`, if any. */
  function ArrowName(b: Text.Byte): string
  {
    if b == 65 then "UP" else if b == 66 then "DOWN" else if b == 67 then "RIGHT"
    else if b == 68 then "LEFT" else ""
  }

  /** Decode one read into a three-byte buffer (`read` is None when the read
      fails): an arrow key's escape sequence gives its name, a read starting
      with Ctrl-C exits, and anything else is returned as the text read. */
  function ReadKey(read: Option<seq<Text.Byte>>): (r: KeyRead)
    requires read.Some? ==> |read.value| <= 3
    ensures r == ReadFailed <==> read.None?
    ensures r == Key("UP") <==> read == Some([Esc, Bracket, 65]) || read == Some(['U' as int, 'P' as int])
    ensures (read.Some? && |read.value| == 3 && read.value[0] == Esc && read.value[1] == Bracket
             && 65 <= read.value[2] <= 68) ==> r.Key? && r.text in {"UP", "DOWN", "RIGHT", "LEFT"}
    ensures r == Interrupted <==> read.Some? && |read.value| > 0 && read.value[0] == CtrlC
    ensures r.Key? ==> r.text == Chars(read.value)
                       || (|read.value| == 3 && read.value[0] == Esc && read.value[1] == Bracket)
  {
    match read
    case None => ReadFailed
    case Some(b) =>
      if |b| == 3 && b[0] == Esc && b[1] == Bracket && ArrowName(b[2]) != "" then
        assert ArrowName(b[2]) == "UP" ==> b == [Esc, Bracket, 65] by {
          if ArrowName(b[2]) == "UP" {
            assert b[2] == 65;
          }
        }
        Key(ArrowName(b[2]))
      else if |b| > 0 && b[0] == CtrlC then Interrupted
      else
        assert Chars(b) == "UP" ==> b == ['U' as int, 'P' as int] by {
          if Chars(b) == "UP" { assert |b| == 2 && b[0] == 'U' as int && b[1] == 'P' as int; }
        }
        Key(Chars(b))
  }

  /** A typed or pasted "UP" reads the same as the up arrow. */
  lemma TypedUpIsArrow()
    ensures ReadKey(Some(['U' as int, 'P' as int])) == ReadKey(Some([Esc, Bracket, 65])) == Key("UP")
  {
  }

  // ---------------------------------------------------------------------
  // Menu selection
  // ---------------------------------------------------------------------

  /** The menu's state: still choosing with an index highlighted, a choice
      made, or the program ended by Ctrl-C. */
  datatype Menu = Choosing(index: nat) | Chosen(index: nat) | Quit

  /** One key in a menu of `count` options. UP moves up unless at the top,
      DOWN moves down unless at the last option, Enter chooses; every other
      key, and a failed read, changes nothing. */
  function SelectStep(index: nat, count: int, key: KeyRead): (r: Menu)
    ensures key == Interrupted <==> r == Quit
    ensures key == Key("\r") || key == Key("\n") <==> r == Chosen(index)
    ensures key == Key("UP") ==> r == Choosing(if index > 0 then index - 1 else index)
    ensures key == Key("DOWN") ==> r == Choosing(if index < count - 1 then index + 1 else index)
    ensures r.Choosing? && key != Key("UP") && key != Key("DOWN") ==> r.index == index
  {
    match key
    case Interrupted => Quit
    case ReadFailed => Choosing(index)
    case Key(k) =>
      if k == "UP" then Choosing(if index > 0 then index - 1 else index)
      else if k == "DOWN" then Choosing(if index < count - 1 then index + 1 else index)
      else if k == "\r" || k == "\n" then Chosen(index)
      else Choosing(index)
  }

  /** Run the menu over the keys read, from the highlighted `index`, until a
      choice is made, Ctrl-C is read or the keys run out. */
  function SelectRun(index: nat, count: int, keys: seq<KeyRead>): (r: Menu)
    decreases |keys|
  {
    if |keys| == 0 then Choosing(index)
    else match SelectStep(index, count, keys[0])
      case Choosing(i) => SelectRun(i, count, keys[1..])
      case other => other
  }

  /** The menu always starts at the first option. */
  function Select(count: int, keys: seq<KeyRead>): (r: Menu)
  {
    SelectRun(0, count, keys)
  }

  /** The highlighted index stays within the options: below `count` when there
      is at least one option, and 0 when there is none. */
  lemma {:induction false} SelectStaysInRange(index: nat, count: int, keys: seq<KeyRead>)
    requires index < count || index == 0
    ensures var r := SelectRun(index, count, keys);
            r != Quit ==> r.index < count || r.index == 0
    decreases |keys|
  {
    if |keys| > 0 {
      var s := SelectStep(index, count, keys[0]);
      if s.Choosing? {
        SelectStaysInRange(s.index, count, keys[1..]);
      }
    }
  }

  /** `n` presses of a key, then Enter. */
  function Presses(key: string, n: nat): (r: seq<KeyRead>)
    ensures |r| == n + 1 && r[n] == Key("\r")
    ensures forall i :: 0 <= i < n ==> r[i] == Key(key)
  {
    if n == 0 then [Key("\r")] else [Key(key)] + Presses(key, n - 1)
  }

  /** Pressing DOWN `n` times from `index` and then Enter chooses the option
      `n` further down, stopping at the last one. */
  lemma {:induction false} DownThenEnter(index: nat, count: int, n: nat)
    requires index < count
    ensures SelectRun(index, count, Presses("DOWN", n)) == Chosen(if index + n < count then index + n else count - 1)
    decreases n
  {
    if n > 0 {
      var next := if index < count - 1 then index + 1 else index;
      assert Presses("DOWN", n)[1..] == Presses("DOWN", n - 1);
      DownThenEnter(next, count, n - 1);
    }
  }

  // ---------------------------------------------------------------------
  // Line editing
  // ---------------------------------------------------------------------

  /** The editor keeps at most this many characters. */
  const MaxInput: nat := 50

  predicate Printable(c: char) { 32 <= c as int <= 126 }

  predicate AllPrintable(s: string) { forall i :: 0 <= i < |s| ==> Printable(s[i]) }

  /** The editor's state: still typing, the line entered, or the program ended. */
  datatype Editor = Typing(text: string) | Entered(text: string) | Aborted

  /** One byte typed. Enter (13 or 10) ends the line; Backspace or Delete
      (8 or 127) removes the last character if there is one; a printable
      byte is appended while the line is shorter than 50; every other byte
      is ignored. */
  function EditStep(text: string, b: Text.Byte): (r: Editor)
    ensures b == CtrlC <==> r == Aborted
    ensures b == 13 || b == 10 <==> r == Entered(text)
    ensures (b == 127 || b == 8) ==> r == Typing(if |text| > 0 then text[..|text| - 1] else text)
    ensures 32 <= b <= 126 && |text| < MaxInput ==> r == Typing(text + [b as char])
    ensures 32 <= b <= 126 && |text| >= MaxInput ==> r == Typing(text)
    ensures r.Typing? && b != 127 && b != 8 && !(32 <= b <= 126) ==> r == Typing(text)
  {
    if b == CtrlC then Aborted
    else if b == 13 || b == 10 then Entered(text)
    else if b == 127 || b == 8 then Typing(if |text| > 0 then text[..|text| - 1] else text)
    else if 32 <= b <= 126 then (if |text| < MaxInput then Typing(text + [b as char]) else Typing(text))
    else Typing(text)
  }

  /** Feed the bytes typed, one at a time, to the editor. */
  function Edit(text: string, bytes: seq<Text.Byte>): (r: Editor)
    decreases |bytes|
  {
    if |bytes| == 0 then Typing(text)
    else match EditStep(text, bytes[0])
      case Typing(t) => Edit(t, bytes[1..])
      case other => other
  }

  /** The line the editor gives back from an empty start. */
  function Input(bytes: seq<Text.Byte>): Editor
  {
    Edit("", bytes)
  }

  /** Whatever is typed, the line is at most 50 printable ASCII characters. */
  lemma {:induction false} EditKeepsLineValid(text: string, bytes: seq<Text.Byte>)
    requires |text| <= MaxInput && AllPrintable(text)
    ensures var r := Edit(text, bytes);
            r != Aborted ==> |r.text| <= MaxInput && AllPrintable(r.text)
    decreases |bytes|
  {
    if |bytes| > 0 {
      var s := EditStep(text, bytes[0]);
      if s.Typing? {
        EditKeepsLineValid(s.text, bytes[1..]);
      }
    }
  }

  /** The bytes of a string of printable characters. */
  function Typed(s: string): (b: seq<Text.Byte>)
    requires AllPrintable(s)
    ensures |b| == |s| && forall i :: 0 <= i < |s| ==> b[i] == s[i] as int
  {
    seq(|s|, i requires 0 <= i < |s| => s[i] as int)
  }

  /** Typing a printable line that fits and pressing Enter enters exactly
      that line, after whatever was already there. */
  lemma {:induction false} TypeThenEnter(text: string, s: string)
    requires AllPrintable(s) && |text| + |s| <= MaxInput
    ensures Edit(text, Typed(s) + [13]) == Entered(text + s)
    decreases |s|
  {
    if |s| == 0 {
      assert Typed(s) + [13] == [13];
    } else {
      assert (Typed(s) + [13])[1..] == Typed(s[1..]) + [13];
      assert text + [s[0]] + s[1..] == text + s;
      TypeThenEnter(text + [s[0]], s[1..]);
    }
  }

  /** A printable character followed by Backspace leaves the line as it was,
      when the line had room for the character. */
  lemma TypeThenErase(text: string, c: Text.Byte, rest: seq<Text.Byte>)
    requires 32 <= c <= 126 && |text| < MaxInput
    ensures Edit(text, [c, 127] + rest) == Edit(text, rest)
  {
    assert ([c, 127] + rest)[1..] == [127] + rest;
    assert ([127] + rest)[1..] == rest;
    assert (text + [c as char])[..|text|] == text;
  }
}
