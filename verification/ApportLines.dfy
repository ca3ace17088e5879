/** Which lines of a `.crash` file are refused, and which do not matter: crates/blankres-report/src/apport.rs. */
module ApportLines {
  import opened Base
  import opened Text
  import opened Apport

  /** What is read from the lines of a file. */
  function Reads(codec: Codec, lines: seq<string>): Result<Fields, ApportError> {
    match Steps(codec, lines)
    case Err(e) => Err(e)
    case Ok(m) =>
      match Closed(codec, m)
      case Err(e) => Err(e)
      case Ok(closed) => Ok(closed.fields)
  }

  lemma ReadsText(codec: Codec, input: string)
    ensures Parsed(codec, input) == Reads(codec, Lines(input))
  {
    hide Lines;
  }

  predicate Indented(line: string) {
    line != [] && line[0] == ' '
  }

  /** A line that counts for nothing. */
  predicate Idle(line: string) {
    Blank(line) && !Indented(line)
  }

  /** A line that should begin a field. */
  predicate Begins(line: string) {
    !Blank(line) && !Indented(line)
  }

  lemma StepsMore(codec: Codec, lines: seq<string>, line: string)
    ensures Steps(codec, lines + [line])
      == match Steps(codec, lines)
         case Err(e) => Err(e)
         case Ok(m) => Step(codec, m, line, |lines| + 1)
  {
    assert (lines + [line])[..|lines|] == lines;
  }

  // ---------------------------------------------------------------- lines that are refused

  /** Line `n` is the first one that the format has no place for: an indented line before any field, or a line
      without a colon that is to begin one, after a part that can be read by itself. */
  ghost predicate MalformedAt(codec: Codec, lines: seq<string>, n: nat, orphan: bool) {
    && 1 <= n <= |lines|
    && if orphan
       then Indented(lines[n - 1]) && forall i :: 0 <= i < n - 1 ==> Idle(lines[i])
       else Begins(lines[n - 1]) && Free(lines[n - 1], ':') && Reads(codec, lines[..n - 1]).Ok?
  }

  /** Among idle lines nothing happens. */
  lemma {:induction false} IdleOnly(codec: Codec, lines: seq<string>)
    requires forall i :: 0 <= i < |lines| ==> Idle(lines[i])
    ensures Steps(codec, lines) == Ok(Machine(None, map[]))
  {
    hide Blank;
    if lines != [] {
      IdleOnly(codec, lines[..|lines| - 1]);
      assert Idle(lines[|lines| - 1]);
    }
  }

  /** A field is open as soon as a line was not idle. */
  lemma {:induction false} OpenIff(codec: Codec, lines: seq<string>)
    requires Steps(codec, lines).Ok?
    ensures Steps(codec, lines).value.current.None? <==> forall i :: 0 <= i < |lines| ==> Idle(lines[i])
  {
    hide Blank, Closed, Opened, Continued, SplitOnce;
    if lines != [] {
      var n := |lines| - 1;
      OpenIff(codec, lines[..n]);
      assert forall i :: 0 <= i < n ==> lines[..n][i] == lines[i];
    }
  }

  /** Finishing a field never blames a line. */
  lemma ClosedErrors(codec: Codec, m: Machine)
    ensures Closed(codec, m).Err? ==> !Closed(codec, m).error.MalformedLine?
  {
    hide DecodeAll, Join;
  }

  lemma StepErrors(codec: Codec, m: Machine, line: string, number: nat, n: nat, orphan: bool)
    ensures Step(codec, m, line, number) == Err(MalformedLine(n, orphan)) <==>
      && n == number
      && if orphan then Indented(line) && m.current.None?
         else Begins(line) && Free(line, ':') && Closed(codec, m).Ok?
  {
    ClosedErrors(codec, m);
    SplitOnceNone(line, ':');
    hide Blank, Closed, Opened, Continued, SplitOnce;
  }

  /** Reading stops at a line, and for what reason, exactly when that is the first such line. */
  lemma {:induction false} MalformedIff(codec: Codec, lines: seq<string>, n: nat, orphan: bool)
    ensures Steps(codec, lines) == Err(MalformedLine(n, orphan)) <==> MalformedAt(codec, lines, n, orphan)
  {
    if lines != [] {
      var k := |lines| - 1;
      var init, last := lines[..k], lines[k];
      MalformedIff(codec, init, n, orphan);
      assert lines == init + [last];
      StepsMore(codec, init, last);
      assert 1 <= n <= k ==> init[..n - 1] == lines[..n - 1];
      assert lines[..k] == init;
      hide Indented, Idle, Begins, Closed, Blank;
      if Steps(codec, init).Ok? {
        StepErrors(codec, Steps(codec, init).value, last, k + 1, n, orphan);
        OpenIff(codec, init);
        hide Step, Steps;
      } else {
        if forall i :: 0 <= i < k ==> Idle(init[i]) {
          IdleOnly(codec, init);
        }
        hide Step, Steps;
      }
    }
  }

  /** So a file is refused for its form, at the given line, exactly when that line is the first that fits
      nowhere. */
  lemma RefusedIff(codec: Codec, input: string, n: nat, orphan: bool)
    ensures Parsed(codec, input) == Err(MalformedLine(n, orphan)) <==> MalformedAt(codec, Lines(input), n, orphan)
  {
    ReadsText(codec, input);
    MalformedIff(codec, Lines(input), n, orphan);
    if Steps(codec, Lines(input)).Ok? {
      ClosedErrors(codec, Steps(codec, Lines(input)).value);
    }
    hide Lines, Steps, Closed, MalformedAt;
  }

  /** What the line of a field says, whatever space stands around its name and before its value: the value is
      binary exactly when it is announced as base64, and then, or when it is empty, begins on the next line. */
  lemma OpenedSays(pre: string, name: string, post: string, blank: string, word: string)
    requires Blank(pre) && Blank(post) && Trimmed(name) && Blank(blank) && (word == [] || !IsSpace(word[0]))
    ensures var raw := Opened(pre + name + post, blank + word);
      && raw.name == name && (raw.isBinary <==> word == "base64")
      && raw.chunks == if word == [] || word == "base64" then [] else [word]
  {
    TrimStartOf(blank, word);
    TrimOf(pre, name, post);
    hide Trim, TrimStart;
  }

  /** Chunks that differ in the space around them only. */
  ghost predicate SameChunks(a: seq<string>, b: seq<string>) {
    |a| == |b| && forall i :: 0 <= i < |a| ==> Padded(a[i], b[i])
  }

  ghost predicate Pads(a: string, core: string, pre: string, post: string) {
    a == pre + core + post && Blank(pre) && Blank(post) && Trimmed(core)
  }

  ghost predicate Padded(a: string, b: string) {
    exists core, pre, post, pre', post' :: Pads(a, core, pre, post) && Pads(b, core, pre', post')
  }

  lemma PaddedTrim(a: string, b: string)
    requires Padded(a, b)
    ensures Trim(a) == Trim(b)
  {
    var core, pre, post, pre', post' :| Pads(a, core, pre, post) && Pads(b, core, pre', post');
    TrimOf(pre, core, post);
    TrimOf(pre', core, post');
  }

  /** Space around the chunks of a binary field does not matter. */
  lemma {:induction false} ChunksTrimmed(codec: Codec, a: seq<string>, b: seq<string>)
    requires SameChunks(a, b)
    ensures DecodeAll(codec, a) == DecodeAll(codec, b)
  {
    hide Padded, Trim;
    if a != [] {
      var n := |a| - 1;
      ChunksTrimmed(codec, a[..n], b[..n]);
      PaddedTrim(a[n], b[n]);
    }
  }

  // ---------------------------------------------------------------- lines that do not matter

  /** The number of a line matters for the blame only. */
  lemma StepNumber(codec: Codec, m: Machine, line: string, p: nat, q: nat)
    ensures Step(codec, m, line, p).Ok? <==> Step(codec, m, line, q).Ok?
    ensures Step(codec, m, line, p).Ok? ==> Step(codec, m, line, p) == Step(codec, m, line, q)
  {
    hide Blank, Closed, Opened, Continued, SplitOnce;
  }

  /** The same up to the blame. */
  predicate SameRead<T(==)>(a: Result<T, ApportError>, b: Result<T, ApportError>) {
    (a.Ok? <==> b.Ok?) && (a.Ok? ==> a == b)
  }

  lemma {:induction false} IdleDropped(codec: Codec, before: seq<string>, idle: string, after: seq<string>)
    requires Idle(idle)
    ensures SameRead(Steps(codec, before + [idle] + after), Steps(codec, before + after))
  {
    if after == [] {
      assert before + [idle] + after == before + [idle] && before + after == before;
      StepsMore(codec, before, idle);
    } else {
      var k := |after| - 1;
      var init, last := after[..k], after[k];
      IdleDropped(codec, before, idle, init);
      assert before + [idle] + after == (before + [idle] + init) + [last];
      assert before + after == (before + init) + [last];
      StepsMore(codec, before + [idle] + init, last);
      StepsMore(codec, before + init, last);
      hide Steps, Step, Idle;
      if Steps(codec, before + init).Ok? {
        StepNumber(codec, Steps(codec, before + init).value, last, |before + init| + 1, |before + [idle] + init| + 1);
      }
    }
  }

  /** A blank line that is not indented may stand anywhere, inside a field as well, and changes nothing. */
  lemma BlankLineIgnored(codec: Codec, before: seq<string>, idle: string, after: seq<string>)
    requires Idle(idle)
    ensures SameRead(Reads(codec, before + [idle] + after), Reads(codec, before + after))
  {
    IdleDropped(codec, before, idle, after);
    hide Steps, Closed, Idle;
  }
}
