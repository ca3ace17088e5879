/** Fields out of the text of a `.crash` file: crates/blankres-report/src/apport.rs. */
module Apport {
  import opened Base
  import opened Text

  datatype Value = TextValue(text: string) | BinaryValue(bytes: Bytes)

  datatype ApportError = MalformedLine(line: nat, orphan: bool) | BadBase64(field: string) | BadZlib(field: string)

  /** Base64 (section 4 of RFC 4648) and zlib (RFC 1950), both ways; decoding can fail. */
  datatype Codec = Codec(
    encode: Bytes -> string, decode: string -> Option<Bytes>,
    deflate: Bytes -> Bytes, inflate: Bytes -> Option<Bytes>)

  /** A field under construction: its name, its lines so far, and whether it announced base64. */
  datatype Raw = Raw(name: string, chunks: seq<string>, isBinary: bool)

  type Fields = map<string, Value>

  const BASE64 := "base64"

  // ---------------------------------------------------------------- finishing a field

  /** Decode the chunks one by one and concatenate; the first failure decides. */
  function DecodeAll(codec: Codec, chunks: seq<string>): Option<Bytes> {
    if chunks == [] then Some([])
    else
      match DecodeAll(codec, chunks[..|chunks| - 1])
      case None => None
      case Some(bytes) =>
        match codec.decode(Trim(chunks[|chunks| - 1]))
        case None => None
        case Some(more) => Some(bytes + more)
  }

  function Finish(codec: Codec, raw: Raw): Result<Value, ApportError> {
    if !raw.isBinary then Ok(TextValue(Join(raw.chunks, '\n')))
    else
      match DecodeAll(codec, raw.chunks)
      case None => Err(BadBase64(raw.name))
      case Some(compressed) =>
        match codec.inflate(compressed)
        case None => Err(BadZlib(raw.name))
        case Some(plain) => Ok(BinaryValue(plain))
  }

  method FinishField(codec: Codec, raw: Raw) returns (r: Result<Value, ApportError>)
    ensures r == Finish(codec, raw)
  {
    if !raw.isBinary {
      return Ok(TextValue(Join(raw.chunks, '\n')));
    }
    var compressed: Bytes := [];
    for i := 0 to |raw.chunks|
      invariant DecodeAll(codec, raw.chunks[..i]) == Some(compressed)
    {
      assert raw.chunks[..i + 1][..i] == raw.chunks[..i];
      var decoded := codec.decode(Trim(raw.chunks[i]));
      if decoded.None? {
        DecodeFails(codec, raw.chunks, i + 1);
        return Err(BadBase64(raw.name));
      }
      compressed := compressed + decoded.value;
    }
    assert raw.chunks[..|raw.chunks|] == raw.chunks;
    match codec.inflate(compressed) {
      case None => return Err(BadZlib(raw.name));
      case Some(plain) => return Ok(BinaryValue(plain));
    }
  }

  lemma {:induction false} DecodeFails(codec: Codec, chunks: seq<string>, i: nat)
    requires i <= |chunks| && DecodeAll(codec, chunks[..i]) == None
    ensures DecodeAll(codec, chunks) == None
    decreases |chunks|
  {
    if i == |chunks| {
      assert chunks[..i] == chunks;
    } else {
      assert chunks[..|chunks| - 1][..i] == chunks[..i];
      DecodeFails(codec, chunks[..|chunks| - 1], i);
    }
  }

  // ---------------------------------------------------------------- the line machine

  /** What the line loop carries: the open field and the finished ones. */
  datatype Machine = Machine(current: Option<Raw>, fields: Fields)

  /** The open field, finished and stored. */
  function Closed(codec: Codec, m: Machine): Result<Machine, ApportError> {
    match m.current
    case None => Ok(m)
    case Some(raw) =>
      match Finish(codec, raw)
      case Err(e) => Err(e)
      case Ok(value) => Ok(Machine(None, m.fields[raw.name := value]))
  }

  /** A continuation line; apport writes a lone dot for a blank line of text. */
  function Continued(raw: Raw, rest: string): Raw {
    raw.(chunks := raw.chunks + [if !raw.isBinary && rest == "." then [] else rest])
  }

  /** A line that opens a field. */
  function Opened(name: string, value: string): Raw {
    var rest := TrimStart(value);
    var isBinary := rest == BASE64;
    Raw(Trim(name), if !isBinary && rest != [] then [rest] else [], isBinary)
  }

  function Step(codec: Codec, m: Machine, line: string, number: nat): Result<Machine, ApportError> {
    if line != [] && line[0] == ' ' then
      match m.current
      case None => Err(MalformedLine(number, true))
      case Some(raw) => Ok(m.(current := Some(Continued(raw, line[1..]))))
    else if Blank(line) then Ok(m)
    else
      match Closed(codec, m)
      case Err(e) => Err(e)
      case Ok(closed) =>
        match SplitOnce(line, ':')
        case None => Err(MalformedLine(number, false))
        case Some(p) => Ok(closed.(current := Some(Opened(p.0, p.1))))
  }

  function Steps(codec: Codec, lines: seq<string>): Result<Machine, ApportError> {
    if lines == [] then Ok(Machine(None, map[]))
    else
      match Steps(codec, lines[..|lines| - 1])
      case Err(e) => Err(e)
      case Ok(m) => Step(codec, m, lines[|lines| - 1], |lines|)
  }

  function Parsed(codec: Codec, input: string): Result<Fields, ApportError> {
    match Steps(codec, Lines(input))
    case Err(e) => Err(e)
    case Ok(m) =>
      match Closed(codec, m)
      case Err(e) => Err(e)
      case Ok(closed) => Ok(closed.fields)
  }

  lemma {:induction false} ErrorSticks(codec: Codec, lines: seq<string>, i: nat)
    requires i <= |lines| && Steps(codec, lines[..i]).Err?
    ensures Steps(codec, lines) == Steps(codec, lines[..i])
    decreases |lines|
  {
    if i == |lines| {
      assert lines[..i] == lines;
    } else {
      assert lines[..|lines| - 1][..i] == lines[..i];
      ErrorSticks(codec, lines[..|lines| - 1], i);
    }
  }

  method Parse(codec: Codec, input: string) returns (r: Result<Fields, ApportError>)
    ensures r == Parsed(codec, input)
  {
    hide Lines, SplitOnce, Blank, Trim, TrimStart, Finish;
    var lines := Lines(input);
    var fields: Fields := map[];
    var current: Option<Raw> := None;
    for i := 0 to |lines|
      invariant Steps(codec, lines[..i]) == Ok(Machine(current, fields))
    {
      var line := lines[i];
      assert lines[..i + 1][..i] == lines[..i];
      if line != [] && line[0] == ' ' {
        if current.None? {
          ErrorSticks(codec, lines, i + 1);
          return Err(MalformedLine(i + 1, true));
        }
        var rest := line[1..];
        var chunk := if !current.value.isBinary && rest == "." then [] else rest;
        current := Some(current.value.(chunks := current.value.chunks + [chunk]));
        continue;
      }
      if Blank(line) {
        continue;
      }
      if current.Some? {
        var finished := FinishField(codec, current.value);
        if finished.Err? {
          ErrorSticks(codec, lines, i + 1);
          return Err(finished.error);
        }
        fields := fields[current.value.name := finished.value];
      }
      var parts := SplitOnce(line, ':');
      if parts.None? {
        ErrorSticks(codec, lines, i + 1);
        return Err(MalformedLine(i + 1, false));
      }
      var rest := TrimStart(parts.value.1);
      var isBinary := rest == BASE64;
      var chunks: seq<string> := [];
      if !isBinary && rest != [] {
        chunks := [rest];
      }
      current := Some(Raw(Trim(parts.value.0), chunks, isBinary));
    }
    assert lines[..|lines|] == lines;
    if current.Some? {
      var finished := FinishField(codec, current.value);
      if finished.Err? {
        return Err(finished.error);
      }
      fields := fields[current.value.name := finished.value];
    }
    return Ok(fields);
  }

  // ---------------------------------------------------------------- printing

  /** A field to print. A text may start on the line of its name or on the next one; a binary value
      is cut into chunks of its compressed bytes. */
  datatype Field =
    | TextField(name: string, text: string, inline: bool)
    | BinaryField(name: string, plain: Bytes, pieces: seq<Bytes>)

  function Spaced(line: string): string {
    [' '] + if line == [] then "." else line
  }

  function SpacedAll(lines: seq<string>): seq<string> {
    if lines == [] then [] else SpacedAll(lines[..|lines| - 1]) + [Spaced(lines[|lines| - 1])]
  }

  function Encoded(codec: Codec, pieces: seq<Bytes>): seq<string> {
    if pieces == [] then [] else Encoded(codec, pieces[..|pieces| - 1]) + [[' '] + codec.encode(pieces[|pieces| - 1])]
  }

  function FieldLines(codec: Codec, f: Field): seq<string> {
    match f
    case TextField(name, text, inline) =>
      var lines := SplitAll(text, '\n');
      if inline then [name + ": " + lines[0]] + SpacedAll(lines[1..]) else [name + ":"] + SpacedAll(lines)
    case BinaryField(name, plain, pieces) => [name + ": " + BASE64] + Encoded(codec, pieces)
  }

  function AllLines(codec: Codec, fields: seq<Field>): seq<string> {
    if fields == [] then [] else AllLines(codec, fields[..|fields| - 1]) + FieldLines(codec, fields[|fields| - 1])
  }

  function ValueOf(f: Field): Value {
    match f
    case TextField(_, text, _) => TextValue(text)
    case BinaryField(_, plain, _) => BinaryValue(plain)
  }

  function ValuesOf(fields: seq<Field>): Fields {
    if fields == [] then map[]
    else ValuesOf(fields[..|fields| - 1])[fields[|fields| - 1].name := ValueOf(fields[|fields| - 1])]
  }

  function Concat(pieces: seq<Bytes>): Bytes {
    if pieces == [] then [] else Concat(pieces[..|pieces| - 1]) + pieces[|pieces| - 1]
  }

  // ---------------------------------------------------------------- what survives printing

  predicate GoodName(name: string) {
    Trimmed(name) && Free(name, ':') && CleanLine(name)
  }

  /** A line of text that survives: not a lone dot, and no carriage return that the line ending would take. */
  predicate GoodLine(line: string) {
    CleanLine(line) && line != "."
  }

  /** A first line printed beside its name must survive the trimming, and must not read as `base64`. */
  predicate GoodFirst(line: string) {
    line != [] && !IsSpace(line[0]) && line != BASE64 && CleanLine(line)
  }

  ghost predicate GoodField(codec: Codec, f: Field) {
    && GoodName(f.name)
    && match f
       case TextField(_, text, inline) =>
         var lines := SplitAll(text, '\n');
         && (inline ==> GoodFirst(lines[0]))
         && (forall i :: (if inline then 1 else 0) <= i < |lines| ==> GoodLine(lines[i]))
       case BinaryField(_, plain, pieces) => Concat(pieces) == codec.deflate(plain)
  }

  /** The codec decodes what it encodes, into single trimmed lines. */
  ghost predicate Inverse(codec: Codec) {
    && (forall b :: codec.decode(codec.encode(b)) == Some(b) && Trimmed(codec.encode(b)) && CleanLine(codec.encode(b)))
    && (forall b :: codec.inflate(codec.deflate(b)) == Some(b))
  }

  // ---------------------------------------------------------------- the round trip

  lemma ContinueStep(codec: Codec, before: seq<string>, m: Machine, raw: Raw, rest: string)
    requires Steps(codec, before) == Ok(m) && m.current == Some(raw)
    ensures Steps(codec, before + [[' '] + rest]) == Ok(m.(current := Some(Continued(raw, rest))))
  {
    var all := before + [[' '] + rest];
    assert all[..|all| - 1] == before;
    assert ([' '] + rest)[1..] == rest;
  }

  /** Continuation lines append their text to the open field. */
  lemma {:induction false} TextContinues(codec: Codec, before: seq<string>, m: Machine, raw: Raw, lines: seq<string>)
    requires Steps(codec, before) == Ok(m) && m.current == Some(raw) && !raw.isBinary
    requires forall i :: 0 <= i < |lines| ==> GoodLine(lines[i])
    ensures Steps(codec, before + SpacedAll(lines)) == Ok(m.(current := Some(raw.(chunks := raw.chunks + lines))))
  {
    hide Steps, Step;
    if lines == [] {
      assert before + SpacedAll(lines) == before && raw.chunks + lines == raw.chunks;
    } else {
      var n := |lines| - 1;
      TextContinues(codec, before, m, raw, lines[..n]);
      var rest := if lines[n] == [] then "." else lines[n];
      var sofar := raw.(chunks := raw.chunks + lines[..n]);
      ContinueStep(codec, before + SpacedAll(lines[..n]), m.(current := Some(sofar)), sofar, rest);
      assert before + SpacedAll(lines) == before + SpacedAll(lines[..n]) + [[' '] + rest];
      assert raw.chunks + lines == raw.chunks + lines[..n] + [lines[n]];
    }
  }

  lemma {:induction false} BinaryContinues(codec: Codec, before: seq<string>, m: Machine, raw: Raw, pieces: seq<Bytes>)
    requires Inverse(codec)
    requires Steps(codec, before) == Ok(m) && m.current == Some(raw) && raw.isBinary && raw.chunks == []
    ensures Steps(codec, before + Encoded(codec, pieces)) == Ok(m.(current := Some(raw.(chunks := Encodings(codec, pieces)))))
    ensures DecodeAll(codec, Encodings(codec, pieces)) == Some(Concat(pieces))
  {
    hide Steps, Step;
    if pieces == [] {
      assert before + Encoded(codec, pieces) == before;
    } else {
      var n := |pieces| - 1;
      BinaryContinues(codec, before, m, raw, pieces[..n]);
      var text := codec.encode(pieces[n]);
      var sofar := raw.(chunks := Encodings(codec, pieces[..n]));
      ContinueStep(codec, before + Encoded(codec, pieces[..n]), m.(current := Some(sofar)), sofar, text);
      assert before + Encoded(codec, pieces) == before + Encoded(codec, pieces[..n]) + [[' '] + text];
      TrimOf([], text, []);
      assert [] + text + [] == text;
      assert Encodings(codec, pieces)[..n] == Encodings(codec, pieces[..n]);
    }
  }

  function Encodings(codec: Codec, pieces: seq<Bytes>): (r: seq<string>)
    ensures |r| == |pieces|
  {
    if pieces == [] then [] else Encodings(codec, pieces[..|pieces| - 1]) + [codec.encode(pieces[|pieces| - 1])]
  }

  /** A line that opens a field is neither blank nor a continuation. */
  lemma HeadStep(codec: Codec, m: Machine, closed: Machine, name: string, rest: string, number: nat)
    requires GoodName(name) && Closed(codec, m) == Ok(closed)
    ensures Step(codec, m, name + [':'] + rest, number) == Ok(closed.(current := Some(Opened(name, rest))))
  {
    hide Closed, Opened, SplitOnce, Continued, CleanLine;
    var line := name + [':'] + rest;
    SplitOnceAt(name, rest, ':');
    assert line[|name|] == ':' && !IsSpace(':');
    assert line[0] == if name == [] then ':' else name[0];
  }

  /** The first line of a field closes the one before and opens this one. */
  lemma HeadOpens(codec: Codec, before: seq<string>, m: Machine, closed: Machine, name: string, rest: string)
    requires GoodName(name) && Steps(codec, before) == Ok(m) && Closed(codec, m) == Ok(closed)
    ensures Steps(codec, before + [name + [':'] + rest]) == Ok(closed.(current := Some(Opened(name, rest))))
  {
    HeadStep(codec, m, closed, name, rest, |before| + 1);
    hide Step, Closed, Opened, GoodName;
    var all := before + [name + [':'] + rest];
    assert all[..|all| - 1] == before;
  }

  /** The rest of a text field, once its first line has opened it. */
  lemma TextRest(codec: Codec, before: seq<string>, closed: Machine, field: Raw, text: string, tail: seq<string>)
    requires !field.isBinary && field.chunks + tail == SplitAll(text, '\n')
    requires Steps(codec, before) == Ok(closed.(current := Some(field)))
    requires forall i :: 0 <= i < |tail| ==> GoodLine(tail[i])
    ensures var after := Steps(codec, before + SpacedAll(tail));
      after.Ok? && Closed(codec, after.value) == Ok(Machine(None, closed.fields[field.name := TextValue(text)]))
  {
    TextContinues(codec, before, closed.(current := Some(field)), field, tail);
    JoinSplit(text, '\n');
  }

  /** What the first line of a text field leaves open. */
  lemma OpensText(name: string, line: string)
    requires GoodName(name)
    ensures Opened(name, []) == Raw(name, [], false)
    ensures GoodFirst(line) ==> Opened(name, [' '] + line) == Raw(name, [line], false)
  {
    TrimOf([], name, []);
    assert [] + name + [] == name;
    if GoodFirst(line) {
      TrimStartOf([' '], line);
    }
  }

  lemma TextFieldParses(codec: Codec, before: seq<string>, m: Machine, closed: Machine, f: Field)
    requires f.TextField? && GoodField(codec, f)
    requires Steps(codec, before) == Ok(m) && Closed(codec, m) == Ok(closed)
    ensures var after := Steps(codec, before + FieldLines(codec, f));
      after.Ok? && Closed(codec, after.value) == Ok(Machine(None, closed.fields[f.name := ValueOf(f)]))
  {
    var lines := SplitAll(f.text, '\n');
    OpensText(f.name, lines[0]);
    if f.inline {
      InlineParses(codec, before, m, closed, f.name, f.text);
    } else {
      OwnLineParses(codec, before, m, closed, f.name, f.text);
    }
  }

  lemma InlineParses(codec: Codec, before: seq<string>, m: Machine, closed: Machine, name: string, text: string)
    requires GoodName(name) && Steps(codec, before) == Ok(m) && Closed(codec, m) == Ok(closed)
    requires var lines := SplitAll(text, '\n');
      Opened(name, [' '] + lines[0]) == Raw(name, [lines[0]], false) && forall i :: 1 <= i < |lines| ==> GoodLine(lines[i])
    ensures var after := Steps(codec, before + FieldLines(codec, TextField(name, text, true)));
      after.Ok? && Closed(codec, after.value) == Ok(Machine(None, closed.fields[name := TextValue(text)]))
  {
    hide Steps, Step, Closed, SplitAll, Opened, GoodName, GoodLine;
    var lines := SplitAll(text, '\n');
    var head, tail := [name + [':'] + ([' '] + lines[0])], lines[1..];
    HeadOpens(codec, before, m, closed, name, [' '] + lines[0]);
    assert name + ": " + lines[0] == head[0];
    assert [lines[0]] + tail == lines;
    TextRest(codec, before + head, closed, Raw(name, [lines[0]], false), text, tail);
    assert before + ([name + ": " + lines[0]] + SpacedAll(tail)) == before + head + SpacedAll(tail);
  }

  lemma OwnLineParses(codec: Codec, before: seq<string>, m: Machine, closed: Machine, name: string, text: string)
    requires GoodName(name) && Steps(codec, before) == Ok(m) && Closed(codec, m) == Ok(closed)
    requires Opened(name, []) == Raw(name, [], false)
    requires var lines := SplitAll(text, '\n'); forall i :: 0 <= i < |lines| ==> GoodLine(lines[i])
    ensures var after := Steps(codec, before + FieldLines(codec, TextField(name, text, false)));
      after.Ok? && Closed(codec, after.value) == Ok(Machine(None, closed.fields[name := TextValue(text)]))
  {
    hide Steps, Step, Closed, SplitAll, Opened, GoodName, GoodLine;
    var lines := SplitAll(text, '\n');
    var head := [name + [':'] + []];
    HeadOpens(codec, before, m, closed, name, []);
    assert name + ":" == head[0];
    assert [] + lines == lines;
    TextRest(codec, before + head, closed, Raw(name, [], false), text, lines);
    assert before + ([name + ":"] + SpacedAll(lines)) == before + head + SpacedAll(lines);
  }

  lemma BinaryFieldParses(codec: Codec, before: seq<string>, m: Machine, closed: Machine, f: Field)
    requires Inverse(codec) && f.BinaryField? && GoodField(codec, f)
    requires Steps(codec, before) == Ok(m) && Closed(codec, m) == Ok(closed)
    ensures var after := Steps(codec, before + FieldLines(codec, f));
      after.Ok? && Closed(codec, after.value) == Ok(Machine(None, closed.fields[f.name := ValueOf(f)]))
  {
    hide Steps, Step;
    TrimOf([], f.name, []);
    assert [] + f.name + [] == f.name;
    var rest := [' '] + BASE64;
    HeadOpens(codec, before, m, closed, f.name, rest);
    TrimStartOf([' '], BASE64);
    var field := Opened(f.name, rest);
    assert f.name + ": " + BASE64 == f.name + [':'] + rest;
    var head := [f.name + [':'] + rest];
    BinaryContinues(codec, before + head, closed.(current := Some(field)), field, f.pieces);
    assert before + FieldLines(codec, f) == before + head + Encoded(codec, f.pieces);
  }

  lemma {:induction false} FieldsParse(codec: Codec, fields: seq<Field>)
    requires Inverse(codec) && forall i :: 0 <= i < |fields| ==> GoodField(codec, fields[i])
    ensures var after := Steps(codec, AllLines(codec, fields));
      after.Ok? && Closed(codec, after.value) == Ok(Machine(None, ValuesOf(fields)))
  {
    if fields != [] {
      var n := |fields| - 1;
      var before := AllLines(codec, fields[..n]);
      FieldsParse(codec, fields[..n]);
      var m := Steps(codec, before).value;
      if fields[n].TextField? {
        TextFieldParses(codec, before, m, Machine(None, ValuesOf(fields[..n])), fields[n]);
      } else {
        BinaryFieldParses(codec, before, m, Machine(None, ValuesOf(fields[..n])), fields[n]);
      }
    }
  }

  /** The lines of a good field are clean lines. */
  lemma {:induction false} SpacedClean(lines: seq<string>)
    requires forall i :: 0 <= i < |lines| ==> CleanLine(lines[i])
    ensures forall i :: 0 <= i < |SpacedAll(lines)| ==> CleanLine(SpacedAll(lines)[i])
  {
    if lines != [] {
      SpacedClean(lines[..|lines| - 1]);
      CleanAppend([' '], lines[|lines| - 1]);
    }
  }

  lemma {:induction false} EncodedClean(codec: Codec, pieces: seq<Bytes>)
    requires Inverse(codec)
    ensures forall i :: 0 <= i < |Encoded(codec, pieces)| ==> CleanLine(Encoded(codec, pieces)[i])
  {
    if pieces != [] {
      EncodedClean(codec, pieces[..|pieces| - 1]);
      CleanAppend([' '], codec.encode(pieces[|pieces| - 1]));
    }
  }

  lemma CleanAppend(a: string, b: string)
    requires CleanLine(a) && CleanLine(b)
    ensures CleanLine(a + b)
  {
  }

  lemma FieldClean(codec: Codec, f: Field)
    requires Inverse(codec) && GoodField(codec, f)
    ensures forall i :: 0 <= i < |FieldLines(codec, f)| ==> CleanLine(FieldLines(codec, f)[i])
  {
    match f
    case TextField(name, text, inline) =>
      var lines := SplitAll(text, '\n');
      if inline {
        SpacedClean(lines[1..]);
        CleanAppend(name, ": ");
        CleanAppend(name + ": ", lines[0]);
      } else {
        SpacedClean(lines);
        CleanAppend(name, ":");
      }
    case BinaryField(name, _, pieces) =>
      EncodedClean(codec, pieces);
      CleanAppend(name, ": ");
      CleanAppend(name + ": ", BASE64);
  }

  lemma {:induction false} AllClean(codec: Codec, fields: seq<Field>)
    requires Inverse(codec) && forall i :: 0 <= i < |fields| ==> GoodField(codec, fields[i])
    ensures forall i :: 0 <= i < |AllLines(codec, fields)| ==> CleanLine(AllLines(codec, fields)[i])
  {
    if fields != [] {
      AllClean(codec, fields[..|fields| - 1]);
      FieldClean(codec, fields[|fields| - 1]);
    }
  }

  /** Parsing a printed list of good fields returns their values; of two fields of one name the later
      one is kept. */
  lemma RoundTrip(codec: Codec, fields: seq<Field>)
    requires Inverse(codec) && forall i :: 0 <= i < |fields| ==> GoodField(codec, fields[i])
    ensures Parsed(codec, Unlines(AllLines(codec, fields))) == Ok(ValuesOf(fields))
  {
    AllClean(codec, fields);
    LinesUnlines(AllLines(codec, fields));
    FieldsParse(codec, fields);
  }

  /** With distinct names nothing is lost: every field is read back under its name. */
  lemma {:induction false} DistinctKept(fields: seq<Field>, i: nat)
    requires i < |fields| && forall j, k :: 0 <= j < k < |fields| ==> fields[j].name != fields[k].name
    ensures fields[i].name in ValuesOf(fields) && ValuesOf(fields)[fields[i].name] == ValueOf(fields[i])
  {
    var n := |fields| - 1;
    if i < n {
      DistinctKept(fields[..n], i);
      assert fields[i].name != fields[n].name;
    }
  }

  /** Of all lines without a newline the lone dot is the one that a continuation does not bring back. */
  lemma LineSurvivesIff(field: Raw, line: string)
    requires !field.isBinary
    ensures Continued(field, Spaced(line)[1..]) == field.(chunks := field.chunks + [line]) <==> line != "."
  {
    var rest := if line == [] then "." else line;
    assert Spaced(line)[1..] == rest;
    assert Continued(field, rest).chunks[|field.chunks|] == if rest == "." then [] else rest;
  }
}
