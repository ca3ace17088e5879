/** The stack trace inside a journal message: parsing it, and what the parse does not depend on.
    crates/blankres-report/src/signature.rs. */
module StackTrace {
  import opened Base
  import opened Text
  import opened Numerals
  import opened Signature

  const HEADER := "Stack trace of thread"

  /** The name after the last slash, unless that is empty. */
  function Basename(path: string): string {
    match SplitLast(path, '/')
    case None => path
    case Some(p) => if p.1 != [] then p.1 else path
  }

  function TrimClose(s: string): string {
    if s != [] && s[|s| - 1] == ')' then TrimClose(s[..|s| - 1]) else s
  }

  function TrimHexMark(s: string): string {
    if "0x" <= s then TrimHexMark(s[2..]) else s
  }

  datatype Place = Place(module_: Option<string>, offset: Option<nat>)

  /** The text between the parentheses, cut at its first plus sign. */
  function PlaceOf(location: string): Place {
    match SplitOnce(location, '+')
    case Some(p) =>
      Place(Some(Basename(Trim(p.0))), ParseUnsigned(TrimHexMark(Trim(p.1)), 16, U64_LIMIT))
    case None =>
      if location == [] then Place(None, None) else Place(Some(Basename(location)), None)
  }

  function Symbol(text: string): Option<string> {
    if text == [] || text == "n/a" then None else Some(text)
  }

  /** The text between the parentheses. */
  function Inside(text: string): string {
    Trim(TrimClose(text))
  }

  /** The frame that the text after the address describes. */
  function FrameOf(tail: string): Frame {
    match SplitOnce(tail, '(')
    case Some(p) =>
      var place := PlaceOf(Inside(p.1));
      Frame(Symbol(Trim(p.0)), place.module_, place.offset)
    case None => Frame(Symbol(tail), None, None)
  }

  /** One line of the form `#N  0xADDR symbol (module + 0xOFFSET)`. */
  function ParseFrame(line: string): Option<Frame> {
    if line == [] || line[0] != '#' then None
    else
      var rest := line[1..];
      var words := Words(rest);
      if words == [] || ParseUnsigned(words[0], 10, U32_LIMIT).None? then None
      else if |words| < 2 || !("0x" <= words[1]) then None
      else
        match AfterFirst(rest, words[1])
        case Some(tail) => Some(FrameOf(Trim(tail)))
        case None => Some(FrameOf([]))
  }

  predicate IsHeader(line: string) {
    HEADER <= Trim(line)
  }

  /** A line that ends a block: blank, or not a frame line at all. */
  predicate Stops(line: string) {
    var text := Trim(line);
    ParseFrame(text).None? && (text == [] || text[0] != '#')
  }

  function ParseLines(lines: seq<string>, inBlock: bool): seq<Frame> {
    if lines == [] then []
    else if IsHeader(lines[0]) then
      if inBlock then [] else ParseLines(lines[1..], true)
    else if !inBlock then ParseLines(lines[1..], false)
    else
      match ParseFrame(Trim(lines[0]))
      case Some(frame) => [frame] + ParseLines(lines[1..], true)
      case None => if Stops(lines[0]) then [] else ParseLines(lines[1..], true)
  }

  function Parse(message: string): seq<Frame> {
    ParseLines(Lines(message), false)
  }

  method ParseJournalStackTrace(message: string) returns (frames: seq<Frame>)
    ensures frames == Parse(message)
  {
    hide ParseFrame, Trim, Lines;
    frames := [];
    var inBlock := false;
    var lines := Lines(message);
    for i := 0 to |lines|
      invariant Parse(message) == frames + ParseLines(lines[i..], inBlock)
    {
      assert lines[i..][1..] == lines[i + 1..];
      var line := Trim(lines[i]);
      if HEADER <= line {
        if inBlock {
          break;
        }
        inBlock := true;
        continue;
      }
      if !inBlock {
        continue;
      }
      match ParseFrame(line) {
        case Some(frame) =>
          assert frames + ([frame] + ParseLines(lines[i + 1..], true)) == (frames + [frame]) + ParseLines(lines[i + 1..], true);
          frames := frames + [frame];
        case None =>
          if line == [] || line[0] != '#' {
            break;
          }
      }
    }
  }

  // ---------------------------------------------------------------- words of a line

  /** A string with a word is blanks, that word, and a rest with the other words. */
  lemma {:induction false} CutWord(s: string) returns (blank: string, r: string)
    requires Words(s) != []
    ensures Blank(blank) && Solid(Words(s)[0]) && Breaks(r)
    ensures s == blank + Words(s)[0] + r && Words(r) == Words(s)[1..]
    decreases |s|
  {
    WordsUnfold(s);
    if IsSpace(s[0]) {
      hide Words, Word, Solid, Breaks;
      var b;
      b, r := CutWord(s[1..]);
      blank := [s[0]] + b;
      OneMoreBlank(s, b, Words(s)[0], r);
    } else {
      WordShape(s);
      hide Words, Word, Solid, Breaks, Blank;
      blank, r := [], Word(s).1;
      NoBlank(Word(s).0, r);
    }
  }

  lemma OneMoreBlank(s: string, b: string, w: string, r: string)
    requires s != [] && IsSpace(s[0]) && Blank(b) && s[1..] == b + w + r
    ensures s == ([s[0]] + b) + w + r && Blank([s[0]] + b)
  {
    assert s == [s[0]] + s[1..];
    hide IsSpace;
  }

  lemma NoBlank(w: string, r: string)
    ensures Blank([]) && [] + w + r == w + r
  {
  }

  lemma WordsUnfold(s: string)
    requires Words(s) != []
    ensures s != []
    ensures IsSpace(s[0]) ==> Words(s) == Words(s[1..])
    ensures !IsSpace(s[0]) ==> Words(s) == [Word(s).0] + Words(Word(s).1)
  {
  }

  // ---------------------------------------------------------------- the address always cuts at the second word

  /** A frame line, taken apart. */
  datatype FrameText = FrameText(lead: string, number: string, gap: string, address: string, tail: string)

  predicate WellFormed(t: FrameText) {
    && Blank(t.lead)
    && Solid(t.number) && ParseUnsigned(t.number, 10, U32_LIMIT).Some?
    && Blank(t.gap) && t.gap != []
    && Solid(t.address) && "0x" <= t.address
    && Breaks(t.tail)
  }

  function Rest(t: FrameText): string {
    t.lead + t.number + (t.gap + t.address + t.tail)
  }

  function Written(t: FrameText): string {
    ['#'] + Rest(t)
  }

  lemma {:induction false} OnlyDigits(s: string, base: nat)
    requires DigitsValue(s, base).Some?
    ensures AllDigits(s, base)
  {
    if |s| > 1 {
      OnlyDigits(s[..|s| - 1], base);
    }
  }

  lemma NumberChars(s: string)
    requires ParseUnsigned(s, 10, U32_LIMIT).Some?
    ensures Free(s, 'x')
  {
    hide DigitsValue;
    var digits := if s != [] && s[0] == '+' then s[1..] else s;
    OnlyDigits(digits, 10);
    assert forall i :: 0 <= i < |digits| ==> digits[i] != 'x';
    assert s == digits || s == ['+'] + digits;
  }

  lemma {:induction false} FirstAt(a: string, pattern: string, b: string)
    requires forall j :: 0 <= j < |a| ==> !(pattern <= (a + pattern + b)[j..])
    ensures AfterFirst(a + pattern + b, pattern) == Some(b)
  {
    var s := a + pattern + b;
    if a == [] {
      assert s == pattern + b;
    } else {
      var shorter := a[1..] + pattern + b;
      assert s[1..] == shorter;
      assert s[0..] == s;
      forall j | 0 <= j < |a[1..]| ensures !(pattern <= shorter[j..]) {
        assert shorter[j..] == s[j + 1..];
      }
      FirstAt(a[1..], pattern, b);
    }
  }

  /** The first occurrence of the address in the line is the second word itself: nothing before it
      holds the digit 0 followed by an x. */
  lemma AddressCut(t: FrameText)
    requires WellFormed(t)
    ensures AfterFirst(Rest(t), t.address) == Some(t.tail)
  {
    NumberChars(t.number);
    hide ParseUnsigned, AfterFirst;
    var a := t.lead + t.number + t.gap;
    var s := a + t.address + t.tail;
    assert s == Rest(t);
    assert a[|a| - 1] == t.gap[|t.gap| - 1];
    var n := |t.lead| + |t.number|;
    assert forall j :: 0 <= j < |t.lead| ==> a[j] == t.lead[j];
    assert forall j :: |t.lead| <= j < n ==> a[j] == t.number[j - |t.lead|];
    assert forall j :: n <= j < |a| ==> a[j] == t.gap[j - n];
    assert forall j :: 0 <= j < |a| ==> s[j] == a[j] && a[j] != 'x';
    forall j | 0 <= j < |a| ensures !(t.address <= s[j..]) {
      assert t.address[0] == '0' && t.address[1] == 'x';
      assert s[j..][0] == s[j];
      assert IsSpace(s[|a| - 1]);
      if j + 1 < |a| {
        assert s[j..][1] == s[j + 1];
      }
    }
    FirstAt(a, t.address, t.tail);
  }

  /** A well-formed line is read as its tail says, whatever number and address it has. */
  lemma ParseWritten(t: FrameText)
    requires WellFormed(t)
    ensures ParseFrame(Written(t)) == Some(FrameOf(Trim(t.tail)))
  {
    AddressCut(t);
    assert Written(t)[1..] == Rest(t);
    var after := t.gap + t.address + t.tail;
    WordsAfter(t.lead, t.number, after);
    WordsAfter(t.gap, t.address, t.tail);
    hide Words, AfterFirst, FrameOf, ParseUnsigned, Trim;
    assert Words(Rest(t)) == [t.number] + ([t.address] + Words(t.tail));
  }

  /** And every line that is read as a frame is well-formed. */
  lemma EveryFrameLine(line: string) returns (t: FrameText)
    requires ParseFrame(line).Some?
    ensures WellFormed(t) && line == Written(t)
  {
    var rest := line[1..];
    var words := Words(rest);
    var lead, r := CutWord(rest);
    var gap, tail := CutWord(r);
    hide Words, ParseUnsigned, FrameOf, AfterFirst;
    t := FrameText(lead, words[0], gap, words[1], tail);
    assert r == (gap + words[1]) + tail;
    assert IsSpace((gap + words[1])[0]);
    assert rest == Rest(t);
    assert line == ['#'] + rest;
  }

  // ---------------------------------------------------------------- the directory of a module

  /** A directory: empty, or something that ends with a slash. */
  predicate Directory(dir: string) {
    dir == [] || (!IsSpace(dir[0]) && dir[|dir| - 1] == '/')
  }

  function ModuleText(inside: string): string {
    Trim(Before(inside, '+'))
  }

  /** What follows the directory starts with the module's own name. */
  predicate Named(core: string) {
    core != [] && !IsSpace(core[0]) && ModuleText(Inside(core)) != [] && Free(ModuleText(Inside(core)), '/')
  }

  lemma {:induction false} TrimCloseKeeps(a: string, b: string)
    requires TrimClose(b) != []
    ensures TrimClose(a + b) == a + TrimClose(b)
  {
    var last := |b| - 1;
    if b[last] == ')' {
      TrimCloseKeeps(a, b[..last]);
      assert (a + b)[..|a + b| - 1] == a + b[..last];
    }
  }

  lemma {:induction false} TrimEndKeeps(a: string, b: string)
    requires TrimEnd(b) != []
    ensures TrimEnd(a + b) == a + TrimEnd(b)
  {
    var last := |b| - 1;
    if IsSpace(b[last]) {
      TrimEndKeeps(a, b[..last]);
      assert (a + b)[..|a + b| - 1] == a + b[..last];
    }
  }

  /** Trimming after something that starts with no space. */
  lemma TrimAfter(a: string, b: string)
    requires a != [] && !IsSpace(a[0]) && b != [] && !IsSpace(b[0]) && Trim(b) != []
    ensures Trim(a + b) == a + Trim(b)
  {
    assert TrimStart(b) == b && TrimStart(a + b) == a + b;
    TrimEndKeeps(a, b);
  }

  lemma {:induction false} TrimCloseHead(s: string)
    ensures TrimClose(s) <= s
  {
    if s != [] && s[|s| - 1] == ')' {
      TrimCloseHead(s[..|s| - 1]);
    }
  }

  lemma InsideHead(core: string)
    requires core != [] && !IsSpace(core[0]) && Inside(core) != []
    ensures TrimClose(core) != [] && TrimClose(core)[0] == core[0] && Inside(core)[0] == core[0]
  {
    TrimCloseHead(core);
    var c := TrimClose(core);
    assert Trim([]) == [];
    assert c == core[..|c|];
    assert TrimStart(c) == c;
    TrimEndHead(c);
    assert Inside(core) == TrimEnd(c) == c[..|TrimEnd(c)|];
  }

  lemma InsideAfter(dir: string, core: string)
    requires Directory(dir) && core != [] && !IsSpace(core[0]) && Inside(core) != []
    ensures Inside(dir + core) == dir + Inside(core)
  {
    if dir == [] {
      assert [] + core == core;
    } else {
      InsideHead(core);
      TrimCloseKeeps(dir, core);
      TrimAfter(dir, TrimClose(core));
    }
  }

  lemma {:induction false} SplitOnceAfter(a: string, b: string, c: char)
    requires Free(a, c)
    ensures SplitOnce(b, c).None? ==> SplitOnce(a + b, c).None?
    ensures SplitOnce(b, c).Some? ==> SplitOnce(a + b, c) == Some((a + SplitOnce(b, c).value.0, SplitOnce(b, c).value.1))
  {
    if a == [] {
      assert a + b == b;
      assert SplitOnce(b, c).Some? ==> a + SplitOnce(b, c).value.0 == SplitOnce(b, c).value.0;
    } else {
      SplitOnceAfter(a[1..], b, c);
      assert (a + b)[1..] == a[1..] + b;
      if SplitOnce(b, c).Some? {
        assert [a[0]] + (a[1..] + SplitOnce(b, c).value.0) == a + SplitOnce(b, c).value.0;
      }
    }
  }

  lemma BasenameAfter(dir: string, name: string)
    requires Directory(dir) && name != [] && Free(name, '/')
    ensures Basename(dir + name) == name
  {
    if dir == [] {
      assert [] + name == name;
      SplitLastNone(name, '/');
    } else {
      var last := |dir| - 1;
      SplitLastAt(dir[..last], name, '/');
      assert dir + name == dir[..last] + ['/'] + name;
    }
  }

  /** The name is what follows the last slash; a path that ends with its slash, or has none, is kept whole. */
  lemma BasenameIs(path: string)
    ensures Free(path, '/') ==> Basename(path) == path
    ensures path != [] && path[|path| - 1] == '/' ==> Basename(path) == path
    ensures forall dir, name :: path == dir + "/" + name && name != [] && Free(name, '/') ==> Basename(path) == name
  {
    if Free(path, '/') {
      SplitLastNone(path, '/');
    }
    forall dir, name | path == dir + "/" + name && name != [] && Free(name, '/')
      ensures Basename(path) == name
    {
      SplitLastAt(dir, name, '/');
      assert dir + ['/'] + name == path;
    }
  }

  /** The part of a text before the first plus sign starts as the text does. */
  lemma BeforeHead(s: string)
    requires s != [] && Before(s, '+') != []
    ensures Before(s, '+')[0] == s[0]
  {
    SplitOnceNone(s, '+');
  }

  /** A directory without a plus sign leaves no trace in the frame. */
  lemma DirectoryDropped(dir: string, core: string)
    requires Directory(dir) && Free(dir, '+') && Named(core)
    ensures PlaceOf(Inside(dir + core)) == PlaceOf(Inside(core))
  {
    var c := Inside(core);
    assert Before([], '+') == [] && Trim([]) == [];
    InsideHead(core);
    InsideAfter(dir, core);
    hide Inside;
    SplitOnceAfter(dir, c, '+');
    var m := Before(c, '+');
    assert m != [] by {
      assert Trim(m) != [];
    }
    BeforeHead(c);
    if dir == [] {
      assert dir + c == c;
    } else {
      TrimAfter(dir, m);
      hide Trim;
      BasenameAfter(dir, Trim(m));
      BasenameAfter([], Trim(m));
      assert [] + Trim(m) == Trim(m);
      NoPlusTrimmed(core, c);
    }
  }

  /** Without an offset the module text is the whole of it. */
  lemma NoPlusTrimmed(core: string, c: string)
    requires c == Inside(core)
    ensures SplitOnce(c, '+').None? ==> Trim(Before(c, '+')) == c
  {
    TrimTwice(TrimClose(core));
  }

  predicate Has(s: string, c: char) {
    exists i :: 0 <= i < |s| && s[i] == c
  }

  /** Trimming removes no slash. */
  lemma TrimHas(s: string)
    requires Has(s, '/')
    ensures Has(Trim(s), '/')
  {
    var a := TrimStartTail(s);
    var b := TrimEndTail(TrimStart(s));
    hide TrimStart, TrimEnd;
    var t := Trim(s);
    assert s == a + t + b;
    var i :| 0 <= i < |s| && s[i] == '/';
    assert forall j :: 0 <= j < |a| ==> s[j] == a[j];
    assert forall j :: |a| + |t| <= j < |s| ==> s[j] == b[j - |a| - |t|];
    assert t[i - |a|] == '/';
  }

  lemma {:induction false} HexMarkHas(s: string)
    requires Has(s, '/')
    ensures Has(TrimHexMark(s), '/')
  {
    if "0x" <= s {
      var i :| 0 <= i < |s| && s[i] == '/';
      assert s[0] == "0x"[0] && s[1] == "0x"[1];
      assert s[2..][i - 2] == '/';
      HexMarkHas(s[2..]);
    }
  }

  lemma SlashIsNoNumber(s: string)
    requires Has(s, '/')
    ensures ParseUnsigned(s, 16, U64_LIMIT).None?
  {
    var digits := if s[0] == '+' then s[1..] else s;
    var i :| 0 <= i < |s| && s[i] == '/';
    assert s[0] == '+' ==> digits[i - 1] == '/';
    assert s[0] != '+' ==> digits[i] == '/';
    assert Has(digits, '/');
    assert DigitValue('/', 16).None?;
    assert !AllDigits(digits, 16);
    if DigitsValue(digits, 16).Some? {
      OnlyDigits(digits, 16);
    }
  }

  /** A directory with a plus sign is cut in two at it, and the offset is lost. */
  lemma DirectoryCut(dir: string, core: string)
    requires Directory(dir) && !Free(dir, '+') && Named(core)
    ensures PlaceOf(Inside(dir + core)).offset.None?
  {
    assert Before([], '+') == [] && Trim([]) == [];
    InsideAfter(dir, core);
    var c := Inside(core);
    hide Inside;
    SplitOnceNone(dir, '+');
    var p := SplitOnce(dir, '+').value;
    assert dir == p.0 + ['+'] + p.1;
    assert dir + c == p.0 + ['+'] + (p.1 + c);
    SplitOnceAt(p.0, p.1 + c, '+');
    assert dir[|dir| - 1] == '/';
    assert p.1[|p.1| - 1] == '/';
    assert (p.1 + c)[|p.1| - 1] == '/';
    TrimHas(p.1 + c);
    HexMarkHas(Trim(p.1 + c));
    SlashIsNoNumber(TrimHexMark(Trim(p.1 + c)));
  }

  /** For a module with an offset, the directory is without effect exactly when it has no plus sign. */
  lemma DirectoryIff(dir: string, core: string)
    requires Directory(dir) && Named(core) && PlaceOf(Inside(core)).offset.Some?
    ensures PlaceOf(Inside(dir + core)) == PlaceOf(Inside(core)) <==> Free(dir, '+')
  {
    if Free(dir, '+') {
      DirectoryDropped(dir, core);
    } else {
      DirectoryCut(dir, core);
    }
  }

  // ---------------------------------------------------------------- messages that say the same

  /** The same text after the address, but for the directory of the module. */
  ghost predicate SameTail(a: string, b: string) {
    a == b || exists symbol, dir, dir', core ::
      && Trim(a) == symbol + ['('] + (dir + core)
      && Trim(b) == symbol + ['('] + (dir' + core)
      && Free(symbol, '(') && Named(core)
      && Directory(dir) && Free(dir, '+') && Directory(dir') && Free(dir', '+')
  }

  /** Two frame lines that differ in number, address and directory only. */
  ghost predicate Moved(a: string, b: string) {
    exists t, u :: WellFormed(t) && WellFormed(u) && Trim(a) == Written(t) && Trim(b) == Written(u)
      && SameTail(t.tail, u.tail)
  }

  lemma SameTailSameFrame(a: string, b: string)
    requires SameTail(a, b)
    ensures FrameOf(Trim(a)) == FrameOf(Trim(b))
  {
    if a != b {
      var symbol, dir, dir', core :|
        && Trim(a) == symbol + ['('] + (dir + core)
        && Trim(b) == symbol + ['('] + (dir' + core)
        && Free(symbol, '(') && Named(core)
        && Directory(dir) && Free(dir, '+') && Directory(dir') && Free(dir', '+');
      SplitOnceAt(symbol, dir + core, '(');
      SplitOnceAt(symbol, dir' + core, '(');
      DirectoryDropped(dir, core);
      DirectoryDropped(dir', core);
    }
  }

  /** Absolute addresses, frame numbers and directories do not reach the frame. */
  lemma MovedSameFrame(a: string, b: string)
    requires Moved(a, b)
    ensures ParseFrame(Trim(a)).Some? && ParseFrame(Trim(a)) == ParseFrame(Trim(b))
  {
    var t, u :| WellFormed(t) && WellFormed(u) && Trim(a) == Written(t) && Trim(b) == Written(u)
      && SameTail(t.tail, u.tail);
    ParseWritten(t);
    ParseWritten(u);
    SameTailSameFrame(t.tail, u.tail);
  }

  /** A numbered line that is no frame is passed over. */
  predicate Skipped(line: string) {
    !IsHeader(line) && ParseFrame(Trim(line)).None? && !Stops(line)
  }

  /** A message taken apart: text with no header, the first header, the lines of its block, and an end
      that starts with a line that stops the block or with the next header. */
  datatype Message = Message(before: seq<string>, header: string, block: seq<string>, after: seq<string>)

  predicate InBlock(line: string) {
    !IsHeader(line) && !Stops(line)
  }

  predicate Shaped(m: Message) {
    && (forall i :: 0 <= i < |m.before| ==> !IsHeader(m.before[i]))
    && IsHeader(m.header)
    && (forall i :: 0 <= i < |m.block| ==> InBlock(m.block[i]))
    && (m.after == [] || !InBlock(m.after[0]))
  }

  function AllLines(m: Message): seq<string> {
    m.before + [m.header] + m.block + m.after
  }

  lemma {:induction false} SkipBefore(before: seq<string>, lines: seq<string>)
    requires forall i :: 0 <= i < |before| ==> !IsHeader(before[i])
    ensures ParseLines(before + lines, false) == ParseLines(lines, false)
  {
    hide IsHeader, ParseFrame, Stops;
    if before == [] {
      assert before + lines == lines;
    } else {
      SkipBefore(before[1..], lines);
      assert (before + lines)[1..] == before[1..] + lines;
    }
  }

  /** The frames of a block, one after the other. */
  function Frames(block: seq<string>): seq<Frame> {
    if block == [] then []
    else
      match ParseFrame(Trim(block[0]))
      case Some(frame) => [frame] + Frames(block[1..])
      case None => Frames(block[1..])
  }

  lemma {:induction false} BlockFrames(block: seq<string>, after: seq<string>)
    requires forall i :: 0 <= i < |block| ==> InBlock(block[i])
    requires after == [] || !InBlock(after[0])
    ensures ParseLines(block + after, true) == Frames(block)
  {
    if block == [] {
      assert block + after == after;
      assert after != [] && !IsHeader(after[0]) ==> Stops(after[0]);
    } else {
      assert InBlock(block[0]);
      hide IsHeader, ParseFrame, Stops, Trim;
      BlockFrames(block[1..], after);
      assert (block + after)[1..] == block[1..] + after;
    }
  }

  /** Only the first block counts: neither what precedes the first header, nor its thread number, nor
      anything after the block. */
  lemma OnlyTheBlock(m: Message)
    requires Shaped(m)
    ensures ParseLines(AllLines(m), false) == Frames(m.block)
  {
    var rest := [m.header] + (m.block + m.after);
    assert AllLines(m) == m.before + rest;
    SkipBefore(m.before, rest);
    assert rest[1..] == m.block + m.after;
    BlockFrames(m.block, m.after);
  }

  /** Every message with a header has this form; one without has no frames. */
  lemma {:induction false} EveryMessage(lines: seq<string>) returns (m: Message)
    ensures if exists i :: 0 <= i < |lines| && IsHeader(lines[i])
      then Shaped(m) && lines == AllLines(m)
      else ParseLines(lines, false) == []
  {
    hide IsHeader, InBlock, ParseFrame, Stops;
    m := Message([], "", [], []);
    if lines != [] {
      if IsHeader(lines[0]) {
        var block, after := TakeBlock(lines[1..]);
        m := Message([], lines[0], block, after);
        assert lines == [lines[0]] + (block + after);
      } else {
        m := EveryMessage(lines[1..]);
        m := m.(before := [lines[0]] + m.before);
        if i :| 0 <= i < |lines| && IsHeader(lines[i]) {
          assert lines[1..][i - 1] == lines[i];
          assert lines == [lines[0]] + lines[1..];
        } else {
          assert forall i :: 0 <= i < |lines[1..]| ==> lines[1..][i] == lines[i + 1];
        }
      }
    }
  }

  lemma {:induction false} TakeBlock(lines: seq<string>) returns (block: seq<string>, after: seq<string>)
    ensures lines == block + after
    ensures forall i :: 0 <= i < |block| ==> InBlock(block[i])
    ensures after == [] || !InBlock(after[0])
  {
    hide InBlock;
    if lines == [] || !InBlock(lines[0]) {
      block, after := [], lines;
    } else {
      var b;
      b, after := TakeBlock(lines[1..]);
      block := [lines[0]] + b;
    }
  }

  /** Blocks that differ line by line in addresses, numbers and directories have the same frames. */
  lemma {:induction false} BlockMoved(a: seq<string>, b: seq<string>)
    requires |a| == |b|
    requires forall i :: 0 <= i < |a| ==> Moved(a[i], b[i]) || (Skipped(a[i]) && Skipped(b[i]))
    ensures Frames(a) == Frames(b)
  {
    if a != [] {
      assert Moved(a[0], b[0]) || (Skipped(a[0]) && Skipped(b[0]));
      if Moved(a[0], b[0]) {
        MovedSameFrame(a[0], b[0]);
      }
      hide Moved, Skipped, ParseFrame, Trim;
      BlockMoved(a[1..], b[1..]);
    }
  }

  /** Address-space layout does not reach the signature: messages whose first blocks differ only in
      addresses, frame numbers and directories have the same signature, whatever else they hold. */
  lemma LayoutInvariance(digest: Bytes -> string, a: string, b: string, m: Message, n: Message, signal: Option<nat>, executable: string)
    requires IsU32(signal)
    requires Shaped(m) && Lines(a) == AllLines(m) && Shaped(n) && Lines(b) == AllLines(n)
    requires |m.block| == |n.block|
    requires forall i :: 0 <= i < |m.block| ==> Moved(m.block[i], n.block[i]) || (Skipped(m.block[i]) && Skipped(n.block[i]))
    ensures Parse(a) == Parse(b) == Frames(m.block)
    ensures SignatureOf(digest, Parse(a), signal, executable) == SignatureOf(digest, Parse(b), signal, executable)
  {
    hide Moved, Skipped, Shaped, AllLines, SignatureOf, Lines;
    OnlyTheBlock(m);
    OnlyTheBlock(n);
    BlockMoved(m.block, n.block);
  }

  lemma NormalizedAppend(a: seq<Frame>, b: seq<Frame>)
    ensures NormalizedAll(a + b) == NormalizedAll(a) + NormalizedAll(b)
  {
    hide Normalized;
  }

  /** Abort machinery on top of a trace with a frame of its own changes nothing. */
  lemma NoiseOnTop(digest: Bytes -> string, noise: seq<Frame>, frames: seq<Frame>, signal: Option<nat>, executable: string)
    requires IsU32(signal) && !HasReal(NormalizedAll(noise)) && HasReal(NormalizedAll(frames))
    ensures SignatureOf(digest, noise + frames, signal, executable) == SignatureOf(digest, frames, signal, executable)
  {
    NormalizedAppend(noise, frames);
    hide NormalizedAll, IsNoise, DropNoise, Significant, HasReal, PreciseBytes, CoarseOf;
    NoiseInFront(NormalizedAll(noise), NormalizedAll(frames));
  }

  /** Nor does anything below the fifth frame that counts. */
  lemma DeepFrames(digest: Bytes -> string, frames: seq<Frame>, more: seq<Frame>, signal: Option<nat>, executable: string)
    requires IsU32(signal) && |DropNoise(NormalizedAll(frames))| >= SIGNIFICANT_FRAMES
    ensures SignatureOf(digest, frames + more, signal, executable) == SignatureOf(digest, frames, signal, executable)
  {
    NormalizedAppend(frames, more);
    hide NormalizedAll, IsNoise, DropNoise, Significant, HasReal, PreciseBytes, CoarseOf;
    DropNoiseAppend(NormalizedAll(frames), []);
    DeepFramesIgnored(NormalizedAll(frames), NormalizedAll(more));
  }

  // ---------------------------------------------------------------- the lines themselves

  /** A header, whatever space stands before it. */
  lemma HeaderIff(line: string)
    ensures IsHeader(line) <==> "Stack trace of thread" <= Trim(line)
  {
    hide Trim;
  }

  /** A block goes on exactly as long as lines begin with a hash sign. */
  lemma InBlockIff(line: string)
    ensures InBlock(line) <==> Trim(line) != [] && Trim(line)[0] == '#'
  {
    hide Trim, Words, ParseUnsigned, AfterFirst, FrameOf;
    assert "Stack trace of thread"[0] == 'S';
  }

  /** However many closing parentheses end a line, and however many hexadecimal marks begin an offset, they
      are all cut off. */
  lemma {:induction false} TrimCloseAll(s: string, closes: string)
    requires (s == [] || s[|s| - 1] != ')') && forall i :: 0 <= i < |closes| ==> closes[i] == ')'
    ensures TrimClose(s + closes) == s
  {
    if closes == [] {
      assert s + closes == s;
    } else {
      var n := |closes| - 1;
      TrimCloseAll(s, closes[..n]);
      assert (s + closes)[..|s + closes| - 1] == s + closes[..n];
    }
  }

  function Marks(n: nat): string {
    if n == 0 then [] else "0x" + Marks(n - 1)
  }

  lemma {:induction false} TrimHexMarkAll(s: string, n: nat)
    requires !("0x" <= s)
    ensures TrimHexMark(Marks(n) + s) == s
  {
    if n == 0 {
      assert Marks(n) + s == s;
    } else {
      TrimHexMarkAll(s, n - 1);
      assert (Marks(n) + s)[2..] == Marks(n - 1) + s;
    }
  }
}
