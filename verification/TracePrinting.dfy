/** Writing a stack trace in the form that systemd-coredump uses, and reading it back. */
module TracePrinting {
  import opened Base
  import opened Text
  import opened Numerals
  import opened Signature
  import opened StackTrace

  function SymbolText(f: Frame): string {
    match f.function_ case Some(symbol) => symbol case None => "n/a"
  }

  function CoreText(m: string, offset: Option<nat>): string {
    match offset
    case Some(o) => m + (" + 0x" + Hex(o) + ")")
    case None => m + ")"
  }

  function TailText(f: Frame): string {
    match f.module_
    case Some(m) => SymbolText(f) + " " + ['('] + CoreText(m, f.moduleOffset)
    case None => SymbolText(f)
  }

  /** One frame line: number, address, symbol and place. */
  function LineOf(f: Frame, number: nat, address: nat): FrameText {
    FrameText("", Dec(number), "  ", "0x" + Hex(address), " " + TailText(f))
  }

  predicate SymbolFits(symbol: string) {
    symbol != [] && symbol != "n/a" && Trimmed(symbol) && Free(symbol, '(')
  }

  predicate ModuleFits(m: string) {
    m != [] && Trimmed(m) && Free(m, '/') && m[|m| - 1] != ')'
  }

  /** Frames the form can hold: an offset needs a module. */
  predicate Fits(f: Frame) {
    && (f.function_.Some? ==> SymbolFits(f.function_.value))
    && (f.module_.Some? ==> ModuleFits(f.module_.value))
    && (f.module_.None? ==> f.moduleOffset.None?)
    && (f.moduleOffset.Some? ==> f.moduleOffset.value < U64_LIMIT)
  }

  lemma DigitsSolid(s: string, base: nat)
    requires AllDigits(s, base) && s != []
    ensures Solid(s) && s[|s| - 1] != ')' && Free(s, '(') && Free(s, '\n') && Free(s, 'x') && Free(s, '+')
  {
    forall i | 0 <= i < |s|
      ensures !IsSpace(s[i]) && s[i] != ')' && s[i] != '(' && s[i] != '\n' && s[i] != 'x' && s[i] != '+'
    {
      assert DigitValue(s[i], base).Some?;
    }
  }

  /** The closing parenthesis and nothing else is removed. */
  lemma InsideOf(text: string)
    requires text != [] && Trimmed(text) && text[|text| - 1] != ')'
    ensures Inside(text + ")") == text
  {
    assert (text + ")")[..|text|] == text;
    assert TrimClose(text) == text;
    TrimOf([], text, []);
    assert [] + text + [] == text;
  }

  lemma HexMark(h: string)
    requires h != [] && Free(h, 'x')
    ensures TrimHexMark("0x" + h) == h
  {
    assert ("0x" + h)[2..] == h;
    assert |h| > 1 ==> h[1] != 'x';
    assert "0x"[1] == 'x';
  }

  function OffsetText(m: string, h: string): string {
    m + " " + ['+'] + (" " + ("0x" + h))
  }

  lemma OffsetInside(m: string, h: string)
    requires ModuleFits(m) && Solid(h) && h[|h| - 1] != ')'
    ensures Inside(OffsetText(m, h) + ")") == OffsetText(m, h)
  {
    var text := OffsetText(m, h);
    assert text[|text| - 1] == h[|h| - 1] && text[0] == m[0];
    InsideOf(text);
  }

  lemma HexTrimmed(h: string)
    requires Solid(h) && Free(h, 'x')
    ensures TrimHexMark(Trim(" " + ("0x" + h))) == h
  {
    var marked := "0x" + h;
    assert marked[|h| + 1] == h[|h| - 1] && marked[0] == '0';
    TrimOf(" ", marked, "");
    assert " " + marked + "" == " " + marked;
    HexMark(h);
  }

  lemma ModuleTrimmed(m: string)
    requires ModuleFits(m)
    ensures Trim(m + " ") == m && Basename(m) == m
  {
    TrimOf("", m, " ");
    assert "" + m + " " == m + " ";
    BasenameAfter("", m);
    assert "" + m == m;
  }

  lemma OffsetPlace(m: string, h: string)
    requires ModuleFits(m) && Free(m, '+') && Solid(h) && Free(h, 'x')
    ensures PlaceOf(OffsetText(m, h)) == Place(Some(m), ParseUnsigned(h, 16, U64_LIMIT))
  {
    hide ParseUnsigned, SplitOnce, Trim, TrimHexMark, Basename, Solid;
    HexTrimmed(h);
    SplitOnceAt(m + " ", " " + ("0x" + h), '+');
    ModuleTrimmed(m);
  }

  /** A module without a plus sign and its offset, from between the parentheses. */
  lemma PlaceWithOffset(m: string, o: nat)
    requires ModuleFits(m) && Free(m, '+') && o < U64_LIMIT
    ensures PlaceOf(Inside(CoreText(m, Some(o)))) == Place(Some(m), Some(o))
  {
    var h := Hex(o);
    PrintRoundTrip(o, 16);
    DigitsSolid(h, 16);
    ParsePrint(o, 16, U64_LIMIT);
    OffsetCore(m, o);
    hide Print, ParseUnsigned, AllDigits, DigitsValue, PlaceOf, Inside, Solid, OffsetText, CoreText;
    OffsetInside(m, h);
    OffsetPlace(m, h);
  }

  lemma OffsetCore(m: string, o: nat)
    ensures OffsetText(m, Hex(o)) + ")" == CoreText(m, Some(o))
  {
    hide Print;
  }

  lemma PlaceWithoutOffset(m: string)
    requires ModuleFits(m) && Free(m, '+')
    ensures PlaceOf(Inside(CoreText(m, None))) == Place(Some(m), None)
  {
    InsideOf(m);
    SplitOnceNone(m, '+');
    BasenameAfter("", m);
    assert "" + m == m;
  }

  lemma TailTrimmed(f: Frame)
    requires Fits(f)
    ensures Trimmed(TailText(f)) && TailText(f) != []
  {
    hide Print;
    var tail := TailText(f);
    var symbol := SymbolText(f);
    assert Trimmed(symbol) && symbol != [];
    assert f.module_.Some? ==> tail[|tail| - 1] == ')' && tail[0] == symbol[0];
  }

  /** The text after the address gives the frame back, up to a plus sign in the module. */
  lemma TailRoundTrip(f: Frame)
    requires Fits(f) && (f.module_.Some? ==> Free(f.module_.value, '+'))
    ensures FrameOf(TailText(f)) == f
  {
    hide Print, PlaceOf, Inside;
    var symbol := SymbolText(f);
    assert Free("n/a", '(');
    match f.module_ {
      case None =>
        SplitOnceNone(symbol, '(');
      case Some(m) =>
        SplitOnceAt(symbol + " ", CoreText(m, f.moduleOffset), '(');
        TrimOf("", symbol, " ");
        assert "" + symbol + " " == symbol + " ";
        if f.moduleOffset.Some? {
          PlaceWithOffset(m, f.moduleOffset.value);
        } else {
          PlaceWithoutOffset(m);
        }
        hide CoreText;
    }
  }

  lemma LineWellFormed(f: Frame, number: nat, address: nat)
    requires Fits(f) && number < U32_LIMIT
    ensures WellFormed(LineOf(f, number, address))
  {
    PrintRoundTrip(number, 10);
    DigitsSolid(Dec(number), 10);
    ParsePrint(number, 10, U32_LIMIT);
    PrintRoundTrip(address, 16);
    DigitsSolid(Hex(address), 16);
    hide Print, AllDigits, ParseUnsigned, TailText;
    var a := "0x" + Hex(address);
    assert forall i :: 0 <= i < |a| ==> a[i] == if i < 2 then "0x"[i] else Hex(address)[i - 2];
    assert " "[0] == ' ';
  }

  /** Reading a written frame line: the tail alone decides. */
  lemma LineReads(f: Frame, number: nat, address: nat)
    requires Fits(f) && number < U32_LIMIT
    ensures ParseFrame(Written(LineOf(f, number, address))) == Some(FrameOf(TailText(f)))
  {
    LineWellFormed(f, number, address);
    ParseWritten(LineOf(f, number, address));
    TailTrimmed(f);
    hide TailText, FrameOf, ParseFrame, Trim, Written;
    TrimOf(" ", TailText(f), "");
    assert " " + TailText(f) + "" == " " + TailText(f);
  }

  lemma {:induction false} SplitLastShort(s: string, c: char)
    ensures SplitLast(s, c).Some? ==> |SplitLast(s, c).value.1| < |s|
  {
    if s != [] && s[|s| - 1] != c {
      SplitLastShort(s[..|s| - 1], c);
    }
  }

  lemma TrimShort(s: string)
    ensures |Trim(s)| <= |s|
  {
    var blank := TrimStartTail(s);
    TrimEndHead(TrimStart(s));
    assert |s| == |blank| + |TrimStart(s)|;
  }

  /** A plus sign in the module cuts its name. */
  lemma PlusCuts(f: Frame)
    requires Fits(f) && f.module_.Some? && !Free(f.module_.value, '+')
    ensures FrameOf(TailText(f)).module_ != f.module_
  {
    hide Print;
    var symbol, m := SymbolText(f), f.module_.value;
    var core := CoreText(m, f.moduleOffset);
    SplitOnceAt(symbol + " ", core, '(');
    SplitOnceNone(m, '+');
    var p := SplitOnce(m, '+').value;
    var end := if f.moduleOffset.Some? then " + 0x" + Hex(f.moduleOffset.value) else "";
    assert core == (m + end) + ")";
    InsideCore(f, m, end);
    hide CoreText, Inside;
    assert m + end == p.0 + ['+'] + (p.1 + end);
    SplitOnceAt(p.0, p.1 + end, '+');
    TrimShort(p.0);
    hide Trim;
    SplitLastShort(Trim(p.0), '/');
  }

  lemma InsideCore(f: Frame, m: string, end: string)
    requires Fits(f) && f.module_ == Some(m)
    requires end == if f.moduleOffset.Some? then " + 0x" + Hex(f.moduleOffset.value) else ""
    ensures Inside(m + end + ")") == m + end
  {
    if f.moduleOffset.Some? {
      var h := Hex(f.moduleOffset.value);
      PrintRoundTrip(f.moduleOffset.value, 16);
      DigitsSolid(h, 16);
      hide Print, AllDigits;
      assert (m + end)[|m + end| - 1] == h[|h| - 1];
      InsideOf(m + end);
    } else {
      assert m + end == m;
      InsideOf(m);
    }
  }

  /** A written frame line is read back exactly when its module has no plus sign: the C++ runtime
      library, for one, falls outside. */
  lemma LineRoundTripIff(f: Frame, number: nat, address: nat)
    requires Fits(f) && number < U32_LIMIT
    ensures ParseFrame(Written(LineOf(f, number, address))) == Some(f)
      <==> (f.module_.Some? ==> Free(f.module_.value, '+'))
  {
    LineReads(f, number, address);
    hide ParseFrame, TailText;
    if f.module_.Some? && !Free(f.module_.value, '+') {
      PlusCuts(f);
    } else {
      TailRoundTrip(f);
    }
  }

  // ---------------------------------------------------------------- whole traces

  predicate OneLine(f: Frame) {
    && (f.function_.Some? ==> Free(f.function_.value, '\n'))
    && (f.module_.Some? ==> Free(f.module_.value, '\n') && Free(f.module_.value, '+'))
  }

  predicate Printable(frames: seq<Frame>) {
    |frames| < U32_LIMIT && forall i :: 0 <= i < |frames| ==> Fits(frames[i]) && OneLine(frames[i])
  }

  function HeaderLine(thread: nat): string {
    HEADER + " " + Dec(thread) + ":"
  }

  /** The frame lines, numbered from `first`. */
  function FrameLines(frames: seq<Frame>, addresses: seq<nat>, first: nat): seq<string>
    requires |addresses| == |frames|
  {
    if frames == [] then []
    else [Written(LineOf(frames[0], first, addresses[0]))] + FrameLines(frames[1..], addresses[1..], first + 1)
  }

  function PrintTrace(frames: seq<Frame>, addresses: seq<nat>, thread: nat): string
    requires |addresses| == |frames|
  {
    Unlines([HeaderLine(thread)] + FrameLines(frames, addresses, 0))
  }

  lemma TailOneLine(f: Frame)
    requires Fits(f) && OneLine(f)
    ensures Free(TailText(f), '\n') && TailText(f) != [] && TailText(f)[|TailText(f)| - 1] != '\r'
  {
    TailTrimmed(f);
    NotReturn(TailText(f));
    hide Trimmed, IsSpace;
    var symbol := SymbolText(f);
    assert Free("n/a", '\n') && Free(" ", '\n') && Free(['('], '\n');
    if f.module_.Some? {
      var core := CoreText(f.module_.value, f.moduleOffset);
      CoreOneLine(f.module_.value, f.moduleOffset);
      hide CoreText;
      FreeConcat(symbol, " ", '\n');
      FreeConcat(symbol + " ", ['('], '\n');
      FreeConcat(symbol + " " + ['('], core, '\n');
    }
  }

  lemma CoreOneLine(m: string, offset: Option<nat>)
    requires Free(m, '\n')
    ensures Free(CoreText(m, offset), '\n')
  {
    assert Free(" + 0x", '\n') && Free(")", '\n');
    if offset.Some? {
      var h := Hex(offset.value);
      PrintRoundTrip(offset.value, 16);
      DigitsSolid(h, 16);
      hide Print, AllDigits, Solid;
      FreeConcat(" + 0x", h, '\n');
      FreeConcat(" + 0x" + h, ")", '\n');
      FreeConcat(m, " + 0x" + h + ")", '\n');
    }
  }

  lemma NotReturn(s: string)
    requires Trimmed(s) && s != []
    ensures s[|s| - 1] != '\r'
  {
  }

  function Front(number: nat, address: nat): string {
    ['#'] + Dec(number) + ("  " + ("0x" + Hex(address)) + " ")
  }

  lemma FrontFree(number: nat, address: nat)
    ensures Free(Front(number, address), '\n')
  {
    PrintRoundTrip(number, 10);
    DigitsSolid(Dec(number), 10);
    PrintRoundTrip(address, 16);
    DigitsSolid(Hex(address), 16);
    hide Print, AllDigits, Solid;
    assert Free("0x", '\n') && Free("  ", '\n') && Free(" ", '\n');
    FreeConcat("0x", Hex(address), '\n');
  }

  lemma FrontTail(f: Frame, number: nat, address: nat)
    ensures Written(LineOf(f, number, address)) == Front(number, address) + TailText(f)
  {
    hide Print, TailText;
    assert "" + Dec(number) == Dec(number);
  }

  /** A written line is one clean line that trimming leaves alone. */
  lemma LineClean(f: Frame, number: nat, address: nat)
    requires Fits(f) && OneLine(f)
    ensures CleanLine(Written(LineOf(f, number, address)))
    ensures Trim(Written(LineOf(f, number, address))) == Written(LineOf(f, number, address))
    ensures !IsHeader(Written(LineOf(f, number, address)))
  {
    FrontFree(number, address);
    FrontTail(f, number, address);
    TailTrimmed(f);
    TailOneLine(f);
    hide TailText, OneLine, Fits, Written, LineOf;
    var tail := TailText(f);
    var line := Front(number, address) + tail;
    FreeConcat(Front(number, address), tail, '\n');
    assert line[|line| - 1] == tail[|tail| - 1];
    assert line[0] == '#';
    TrimOf("", line, "");
    assert "" + line + "" == line;
    assert HEADER[0] == 'S';
    hide Print;
  }

  lemma {:induction false} FrameLinesRead(frames: seq<Frame>, addresses: seq<nat>, first: nat)
    requires |addresses| == |frames| && first + |frames| <= U32_LIMIT
    requires forall i :: 0 <= i < |frames| ==> Fits(frames[i]) && OneLine(frames[i])
    ensures ParseLines(FrameLines(frames, addresses, first), true) == frames
    ensures forall i :: 0 <= i < |FrameLines(frames, addresses, first)| ==> CleanLine(FrameLines(frames, addresses, first)[i])
  {
    hide Fits, LineOf, Written, IsHeader, ParseFrame, Trim, CleanLine, Stops;
    if frames != [] {
      FrameLinesRead(frames[1..], addresses[1..], first + 1);
      var line, rest := Written(LineOf(frames[0], first, addresses[0])), FrameLines(frames[1..], addresses[1..], first + 1);
      LineReadsAlone(frames[0], first, addresses[0]);
      OneFrameMore(line, rest, frames[0]);
      assert frames == [frames[0]] + frames[1..];
    }
  }

  lemma LineReadsAlone(f: Frame, number: nat, address: nat)
    requires Fits(f) && OneLine(f) && number < U32_LIMIT
    ensures var line := Written(LineOf(f, number, address));
      CleanLine(line) && !IsHeader(line) && ParseFrame(Trim(line)) == Some(f)
  {
    LineClean(f, number, address);
    LineRoundTripIff(f, number, address);
    hide Fits, LineOf, Written, IsHeader, ParseFrame, Trim, CleanLine;
  }

  lemma OneFrameMore(line: string, rest: seq<string>, f: Frame)
    requires !IsHeader(line) && ParseFrame(Trim(line)) == Some(f)
    ensures ParseLines([line] + rest, true) == [f] + ParseLines(rest, true)
  {
    hide IsHeader, ParseFrame, Trim, Stops;
    assert ([line] + rest)[1..] == rest;
  }

  lemma HeaderClean(thread: nat)
    ensures IsHeader(HeaderLine(thread)) && CleanLine(HeaderLine(thread))
  {
    PrintRoundTrip(thread, 10);
    DigitsSolid(Dec(thread), 10);
    hide Print, AllDigits, Solid;
    var line := HeaderLine(thread);
    assert HEADER[0] == 'S';
    assert line[|line| - 1] == ':';
    TrimOf("", line, "");
    assert "" + line + "" == line;
    assert HEADER <= line;
    HeaderFree();
    assert Free(" ", '\n') && Free(":", '\n');
  }

  lemma HeaderFree()
    ensures Free(HEADER, '\n')
  {
  }

  /** Reading a printed trace gives its frames back, whatever the addresses and the thread. */
  lemma TraceRoundTrip(frames: seq<Frame>, addresses: seq<nat>, thread: nat)
    requires |addresses| == |frames| && Printable(frames)
    ensures Parse(PrintTrace(frames, addresses, thread)) == frames
  {
    FrameLinesRead(frames, addresses, 0);
    HeaderClean(thread);
    var lines := [HeaderLine(thread)] + FrameLines(frames, addresses, 0);
    hide IsHeader, CleanLine, HeaderLine, FrameLines, Lines, Unlines;
    LinesUnlines(lines);
    assert lines[1..] == FrameLines(frames, addresses, 0);
  }
}
