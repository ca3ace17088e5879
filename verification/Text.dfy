/** The string operations of the Rust standard library that the parsers use. */
module Text {
  import opened Base

  /** The Unicode White_Space property. */
  predicate IsSpace(c: char) {
    var n := c as int;
    9 <= n <= 13 || n == 0x20 || n == 0x85 || n == 0xA0 || n == 0x1680 || 0x2000 <= n <= 0x200A
    || n == 0x2028 || n == 0x2029 || n == 0x202F || n == 0x205F || n == 0x3000
  }

  predicate Blank(s: string) {
    forall i :: 0 <= i < |s| ==> IsSpace(s[i])
  }

  predicate Free(s: string, c: char) {
    forall i :: 0 <= i < |s| ==> s[i] != c
  }

  function TrimStart(s: string): string {
    if s != [] && IsSpace(s[0]) then TrimStart(s[1..]) else s
  }

  function TrimEnd(s: string): string {
    if s != [] && IsSpace(s[|s| - 1]) then TrimEnd(s[..|s| - 1]) else s
  }

  function Trim(s: string): string {
    TrimEnd(TrimStart(s))
  }

  /** Nothing to trim. */
  predicate Trimmed(s: string) {
    s == [] || (!IsSpace(s[0]) && !IsSpace(s[|s| - 1]))
  }

  function SplitOnce(s: string, c: char): (r: Option<(string, string)>)
    ensures r.Some? ==> |r.value.1| < |s|
  {
    if s == [] then None
    else if s[0] == c then Some(([], s[1..]))
    else
      match SplitOnce(s[1..], c)
      case None => None
      case Some(p) => Some(([s[0]] + p.0, p.1))
  }

  /** Split at the last occurrence. */
  function SplitLast(s: string, c: char): Option<(string, string)> {
    if s == [] then None
    else if s[|s| - 1] == c then Some((s[..|s| - 1], []))
    else
      match SplitLast(s[..|s| - 1], c)
      case None => None
      case Some(p) => Some((p.0, p.1 + [s[|s| - 1]]))
  }

  /** The part before the first `c`, all of it when there is none. */
  function Before(s: string, c: char): string {
    match SplitOnce(s, c)
    case Some(p) => p.0
    case None => s
  }

  /** What follows the first occurrence of a non-empty pattern. */
  function AfterFirst(s: string, pattern: string): Option<string> {
    if pattern <= s then Some(s[|pattern|..])
    else if s == [] then None
    else AfterFirst(s[1..], pattern)
  }

  predicate Contains(s: string, t: string) {
    t <= s || (s != [] && Contains(s[1..], t))
  }

  function Lower(c: char): char {
    if 'A' <= c <= 'Z' then c + (32 as char) else c
  }

  function ToLower(s: string): string {
    seq(|s|, i requires 0 <= i < |s| => Lower(s[i]))
  }

  /** The first run of non-space characters and what follows it. */
  function Word(s: string): (r: (string, string))
    ensures r.0 + r.1 == s
  {
    if s == [] || IsSpace(s[0]) then ([], s)
    else var p := Word(s[1..]); ([s[0]] + p.0, p.1)
  }

  /** `split_whitespace` */
  function Words(s: string): seq<string>
    decreases |s|
  {
    if s == [] then []
    else if IsSpace(s[0]) then Words(s[1..])
    else var p := Word(s); [p.0] + Words(p.1)
  }

  function SplitAll(s: string, c: char): (pieces: seq<string>)
    ensures |pieces| > 0
  {
    if s == [] then [[]]
    else
      var rest := SplitAll(s[1..], c);
      if s[0] == c then [[]] + rest else [[s[0]] + rest[0]] + rest[1..]
  }

  function Join(pieces: seq<string>, c: char): string {
    if pieces == [] then []
    else if |pieces| == 1 then pieces[0]
    else pieces[0] + [c] + Join(pieces[1..], c)
  }

  /** The carriage return of a CRLF line ending. */
  function StripCR(line: string): string {
    if line != [] && line[|line| - 1] == '\r' then line[..|line| - 1] else line
  }

  /** `str::lines`: a final line without a newline keeps its carriage return, and an empty one is
      no line. */
  function Lines(s: string): seq<string>
    decreases |s|
  {
    if s == [] then []
    else
      match SplitOnce(s, '\n')
      case None => [s]
      case Some(p) => [StripCR(p.0)] + Lines(p.1)
  }

  // ---------------------------------------------------------------- facts about splitting and trimming

  lemma {:induction false} SplitOnceAt(a: string, b: string, c: char)
    requires Free(a, c)
    ensures SplitOnce(a + [c] + b, c) == Some((a, b))
  {
    if a == [] {
      assert [] + [c] + b == [c] + b;
    } else {
      SplitOnceAt(a[1..], b, c);
      assert (a + [c] + b)[1..] == a[1..] + [c] + b;
      assert [a[0]] + a[1..] == a;
    }
  }

  lemma {:induction false} SplitOnceNone(s: string, c: char)
    ensures SplitOnce(s, c).None? <==> Free(s, c)
    ensures SplitOnce(s, c).Some? ==>
      var p := SplitOnce(s, c).value; Free(p.0, c) && s == p.0 + [c] + p.1
  {
    if s != [] {
      SplitOnceNone(s[1..], c);
      assert s == [s[0]] + s[1..];
      if s[0] != c && SplitOnce(s[1..], c).None? {
        assert forall i :: 0 <= i < |s| ==> s[i] == if i == 0 then s[0] else s[1..][i - 1];
      }
      if SplitOnce(s, c).Some? && s[0] != c {
        var q := SplitOnce(s[1..], c).value;
        assert s == [s[0]] + (q.0 + [c] + q.1);
        assert s[|q.0| + 1] == c;
      }
    }
  }

  lemma {:induction false} SplitLastAt(a: string, b: string, c: char)
    requires Free(b, c)
    ensures SplitLast(a + [c] + b, c) == Some((a, b))
  {
    var s := a + [c] + b;
    if b == [] {
      assert s[..|s| - 1] == a;
    } else {
      var last := |b| - 1;
      SplitLastAt(a, b[..last], c);
      assert s[..|s| - 1] == a + [c] + b[..last];
      assert b[..last] + [b[last]] == b;
    }
  }

  lemma {:induction false} SplitLastNone(s: string, c: char)
    requires Free(s, c)
    ensures SplitLast(s, c) == None
  {
    if s != [] {
      SplitLastNone(s[..|s| - 1], c);
    }
  }

  /** Trimming removes exactly the blank ends. */
  lemma {:induction false} TrimStartOf(blank: string, s: string)
    requires Blank(blank) && (s == [] || !IsSpace(s[0]))
    ensures TrimStart(blank + s) == s
  {
    if blank == [] {
      assert blank + s == s;
    } else {
      TrimStartOf(blank[1..], s);
      assert (blank + s)[1..] == blank[1..] + s;
    }
  }

  lemma {:induction false} TrimEndOf(s: string, blank: string)
    requires Blank(blank) && (s == [] || !IsSpace(s[|s| - 1]))
    ensures TrimEnd(s + blank) == s
  {
    if blank == [] {
      assert s + blank == s;
    } else {
      var last := |blank| - 1;
      TrimEndOf(s, blank[..last]);
      assert (s + blank)[..|s + blank| - 1] == s + blank[..last];
    }
  }

  lemma TrimOf(a: string, s: string, b: string)
    requires Blank(a) && Blank(b) && Trimmed(s)
    ensures Trim(a + s + b) == s
  {
    if s == [] {
      assert a + s + b == (a + b) + [];
      assert Blank(a + b);
      TrimStartOf(a + b, []);
    } else {
      assert a + s + b == a + (s + b);
      TrimStartOf(a, s + b);
      TrimEndOf(s, b);
    }
  }

  lemma {:induction false} TrimEndHead(s: string)
    ensures TrimEnd(s) <= s
  {
    if s != [] && IsSpace(s[|s| - 1]) {
      TrimEndHead(s[..|s| - 1]);
    }
  }

  lemma {:induction false} TrimStartShape(s: string)
    ensures TrimStart(s) == [] || !IsSpace(TrimStart(s)[0])
  {
    if s != [] && IsSpace(s[0]) {
      TrimStartShape(s[1..]);
    }
  }

  lemma {:induction false} TrimEndShape(s: string)
    ensures TrimEnd(s) == [] || !IsSpace(TrimEnd(s)[|TrimEnd(s)| - 1])
  {
    if s != [] && IsSpace(s[|s| - 1]) {
      TrimEndShape(s[..|s| - 1]);
    }
  }

  lemma TrimTwice(s: string)
    ensures Trimmed(Trim(s)) && Trim(Trim(s)) == Trim(s)
  {
    TrimStartShape(s);
    TrimEndShape(TrimStart(s));
    TrimEndHead(TrimStart(s));
  }

  lemma {:induction false} TrimStartTail(s: string) returns (blank: string)
    ensures Blank(blank) && s == blank + TrimStart(s)
  {
    if s != [] && IsSpace(s[0]) {
      var b := TrimStartTail(s[1..]);
      blank := [s[0]] + b;
      assert s == [s[0]] + s[1..];
    } else {
      blank := [];
    }
  }

  lemma {:induction false} TrimEndTail(s: string) returns (blank: string)
    ensures Blank(blank) && s == TrimEnd(s) + blank
  {
    if s != [] && IsSpace(s[|s| - 1]) {
      var b := TrimEndTail(s[..|s| - 1]);
      blank := b + [s[|s| - 1]];
      assert s == s[..|s| - 1] + [s[|s| - 1]];
    } else {
      blank := [];
    }
  }

  /** Trimming cuts off blanks at both ends. */
  lemma TrimShape(s: string) returns (pre: string, post: string)
    ensures s == pre + Trim(s) + post && Blank(pre) && Blank(post) && Trimmed(Trim(s))
  {
    pre := TrimStartTail(s);
    post := TrimEndTail(TrimStart(s));
    TrimTwice(s);
    hide TrimStart, TrimEnd;
  }

  lemma {:induction false} SplitAllFree(s: string, c: char)
    requires Free(s, c)
    ensures SplitAll(s, c) == [s]
  {
    if s != [] {
      SplitAllFree(s[1..], c);
      assert [s[0]] + s[1..] == s;
    }
  }

  lemma {:induction false} SplitAllAt(a: string, b: string, c: char)
    requires Free(a, c)
    ensures SplitAll(a + [c] + b, c) == [a] + SplitAll(b, c)
  {
    if a == [] {
      assert [] + [c] + b == [c] + b;
    } else {
      SplitAllAt(a[1..], b, c);
      assert (a + [c] + b)[1..] == a[1..] + [c] + b;
      assert [a[0]] + a[1..] == a;
    }
  }

  lemma {:induction false} JoinSplit(s: string, c: char)
    ensures Join(SplitAll(s, c), c) == s
    ensures forall i :: 0 <= i < |SplitAll(s, c)| ==> Free(SplitAll(s, c)[i], c)
  {
    if s != [] {
      JoinSplit(s[1..], c);
      var rest := SplitAll(s[1..], c);
      if s[0] != c {
        JoinHead(s[0], rest, c);
      }
      assert s == [s[0]] + s[1..];
    }
  }

  lemma JoinHead(x: char, pieces: seq<string>, c: char)
    requires pieces != []
    ensures Join([[x] + pieces[0]] + pieces[1..], c) == [x] + Join(pieces, c)
  {
    var longer := [[x] + pieces[0]] + pieces[1..];
    assert longer[1..] == pieces[1..];
    if |pieces| > 1 {
      assert [x] + pieces[0] + [c] + Join(pieces[1..], c) == [x] + (pieces[0] + [c] + Join(pieces[1..], c));
    }
  }

  /** Text written line by line, each ended by a newline. */
  function Unlines(lines: seq<string>): string {
    if lines == [] then [] else lines[0] + ['\n'] + Unlines(lines[1..])
  }

  predicate CleanLine(line: string) {
    Free(line, '\n') && (line == [] || line[|line| - 1] != '\r')
  }

  lemma {:induction false} LinesUnlines(lines: seq<string>)
    requires forall i :: 0 <= i < |lines| ==> CleanLine(lines[i])
    ensures Lines(Unlines(lines)) == lines
  {
    if lines != [] {
      LinesUnlines(lines[1..]);
      SplitOnceAt(lines[0], Unlines(lines[1..]), '\n');
      assert StripCR(lines[0]) == lines[0];
      assert lines == [lines[0]] + lines[1..];
    }
  }

  // ---------------------------------------------------------------- letters and substrings

  /** ASCII lower-casing, letter by letter. */
  predicate Lowered(s: string, t: string) {
    && |s| == |t|
    && forall i :: 0 <= i < |s| ==> if 'A' <= s[i] <= 'Z' then t[i] as int == s[i] as int + 32 else t[i] == s[i]
  }

  lemma LoweredIff(s: string, t: string)
    ensures Lowered(s, t) <==> t == ToLower(s)
  {
    if Lowered(s, t) {
      assert forall i :: 0 <= i < |s| ==> t[i] == ToLower(s)[i];
    }
  }

  /** The same text up to the case of ASCII letters. */
  predicate SameLetters(a: string, b: string) {
    && |a| == |b|
    && forall i :: 0 <= i < |a| ==> a[i] == b[i] || Cases(a[i], b[i]) || Cases(b[i], a[i])
  }

  /** A capital and its small letter. */
  predicate Cases(capital: char, small: char) {
    'A' <= capital <= 'Z' && small as int == capital as int + 32
  }

  lemma SameLettersIff(a: string, b: string)
    ensures ToLower(a) == ToLower(b) <==> SameLetters(a, b)
  {
    if ToLower(a) == ToLower(b) {
      forall i | 0 <= i < |a|
        ensures a[i] == b[i] || Cases(a[i], b[i]) || Cases(b[i], a[i])
      {
        assert Lower(a[i]) == ToLower(a)[i] == ToLower(b)[i] == Lower(b[i]);
      }
    }
    if SameLetters(a, b) {
      assert forall i :: 0 <= i < |a| ==> ToLower(a)[i] == ToLower(b)[i];
    }
  }

  /** `str::contains`: the text is something, the pattern, and something. */
  lemma {:induction false} ContainsIff(s: string, t: string)
    ensures Contains(s, t) <==> exists a, b :: s == a + t + b
  {
    if t <= s {
      assert s == [] + t + s[|t|..];
    } else if s != [] {
      ContainsIff(s[1..], t);
      if Contains(s[1..], t) {
        var a, b :| s[1..] == a + t + b;
        assert s == [s[0]] + s[1..] && s == ([s[0]] + a) + t + b;
      }
      if a, b :| s == a + t + b {
        assert a == [] ==> s == t + b;
        assert s[1..] == a[1..] + t + b;
      }
    } else if a, b :| s == a + t + b {
      assert false;
    }
  }

  /** The 25 characters with the White_Space property. */
  lemma SpacesAre(c: char)
    ensures IsSpace(c) <==> c as int in {
      0x9, 0xA, 0xB, 0xC, 0xD, 0x20, 0x85, 0xA0, 0x1680, 0x2000, 0x2001, 0x2002, 0x2003, 0x2004, 0x2005, 0x2006, 0x2007,
      0x2008, 0x2009, 0x200A, 0x2028, 0x2029, 0x202F, 0x205F, 0x3000}
  {
  }

  /** A line as it stands in a text, ended the Unix way or the other one. */
  datatype EndedLine = EndedLine(line: string, crlf: bool)

  function Raw(l: EndedLine): string {
    if l.crlf then l.line + ['\r'] else l.line
  }

  function Ended(lines: seq<EndedLine>): string {
    if lines == [] then [] else Raw(lines[0]) + (['\n'] + Ended(lines[1..]))
  }

  function Bare(lines: seq<EndedLine>): seq<string> {
    if lines == [] then [] else [lines[0].line] + Bare(lines[1..])
  }

  lemma FirstLine(l: EndedLine, rest: string)
    requires Free(l.line, '\n') && (l.crlf || CleanLine(l.line))
    ensures Lines(Raw(l) + (['\n'] + rest)) == [l.line] + Lines(rest)
  {
    SplitOnceAt(Raw(l), rest, '\n');
    assert Raw(l) + ['\n'] + rest == Raw(l) + (['\n'] + rest);
    assert StripCR(Raw(l)) == l.line;
    hide SplitOnce;
  }

  /** However its lines end, a text has them as they are, and what follows the last line end is one more, unless
      it is nothing. */
  lemma {:induction false} LinesEnded(lines: seq<EndedLine>, last: string)
    requires forall i :: 0 <= i < |lines| ==> Free(lines[i].line, '\n') && (lines[i].crlf || CleanLine(lines[i].line))
    requires Free(last, '\n')
    ensures Lines(Ended(lines) + last) == Bare(lines) + if last == [] then [] else [last]
  {
    if lines == [] {
      assert [] + last == last;
      SplitOnceNone(last, '\n');
    } else {
      LinesEnded(lines[1..], last);
      var rest := Ended(lines[1..]) + last;
      FirstLine(lines[0], rest);
      hide Lines, Raw;
      assert Ended(lines) + last == Raw(lines[0]) + (['\n'] + rest);
    }
  }

  lemma FreeConcat(a: string, b: string, c: char)
    requires Free(a, c) && Free(b, c)
    ensures Free(a + b, c)
  {
  }

  // ---------------------------------------------------------------- words

  predicate Solid(s: string) {
    s != [] && forall i :: 0 <= i < |s| ==> !IsSpace(s[i])
  }

  /** A word ends here. */
  predicate Breaks(s: string) {
    s == [] || IsSpace(s[0])
  }

  lemma {:induction false} WordIs(w: string, r: string)
    requires Solid(w) && Breaks(r)
    ensures Word(w + r) == (w, r)
  {
    assert (w + r)[1..] == w[1..] + r;
    if |w| == 1 {
      assert w[1..] + r == r;
    } else {
      WordIs(w[1..], r);
    }
    assert [w[0]] + w[1..] == w;
  }

  lemma {:induction false} WordShape(s: string)
    requires s != [] && !IsSpace(s[0])
    ensures Solid(Word(s).0) && Breaks(Word(s).1)
  {
    if |s| > 1 && !IsSpace(s[1]) {
      WordShape(s[1..]);
    }
  }

  lemma {:induction false} WordsAfter(blank: string, w: string, r: string)
    requires Blank(blank) && Solid(w) && Breaks(r)
    ensures Words(blank + w + r) == [w] + Words(r)
  {
    if blank == [] {
      assert [] + w + r == w + r;
      WordIs(w, r);
    } else {
      WordsAfter(blank[1..], w, r);
      assert (blank + w + r)[1..] == blank[1..] + w + r;
    }
  }
}
