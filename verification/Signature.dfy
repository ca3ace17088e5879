/** Crash signatures: normalised frames, and the bytes that are hashed. crates/blankres-report/src/signature.rs. */
module Signature {
  import opened Base
  import opened Text
  import opened Numerals
  import opened Utf8

  datatype Frame = Frame(function_: Option<string>, module_: Option<string>, moduleOffset: Option<nat>)

  const SIGNIFICANT_FRAMES := 5

  const NOISE_PREFIXES := [
    "__pthread_kill", "pthread_kill", "raise", "abort", "__libc_message", "__gi_raise", "__gi_abort",
    "__assert_fail", "__stack_chk_fail", "gsignal"]

  /** A symbol without its offset, if it is usable. */
  function SymbolBase(f: Frame): Option<string> {
    match f.function_
    case None => None
    case Some(symbol) =>
      var base := Trim(Before(symbol, '+'));
      if base != [] && base != "n/a" then Some(base) else None
  }

  /** What is hashed of a frame: its symbol if usable, else its place, else a constant. */
  function Normalized(f: Frame): string {
    match SymbolBase(f)
    case Some(base) => ToLower(base)
    case None =>
      match f.module_
      case None => "??"
      case Some(m) =>
        match f.moduleOffset
        case Some(offset) => ToLower(m) + "+0x" + Hex(offset)
        case None => ToLower(m)
  }

  predicate IsNoise(normalized: string) {
    exists i :: 0 <= i < |NOISE_PREFIXES| && NOISE_PREFIXES[i] <= normalized
  }

  function NormalizedAll(frames: seq<Frame>): seq<string> {
    seq(|frames|, i requires 0 <= i < |frames| => Normalized(frames[i]))
  }

  /** The leading noise dropped. */
  function DropNoise(names: seq<string>): seq<string> {
    if names != [] && IsNoise(names[0]) then DropNoise(names[1..]) else names
  }

  function Take<T>(s: seq<T>, n: nat): seq<T> {
    s[..Min(n, |s|)]
  }

  /** The frames that take part: from the first that is not noise, or all of them when all are. */
  function Significant(names: seq<string>): seq<string> {
    var tail := DropNoise(names);
    Take(if tail == [] then names else tail, SIGNIFICANT_FRAMES)
  }

  predicate HasReal(names: seq<string>) {
    exists i :: 0 <= i < |names| && !IsNoise(names[i])
  }

  // ---------------------------------------------------------------- which frames matter

  lemma {:induction false} DropNoiseAppend(a: seq<string>, b: seq<string>)
    ensures DropNoise(a) == [] ==> DropNoise(a + b) == DropNoise(b)
    ensures DropNoise(a) != [] ==> DropNoise(a + b) == DropNoise(a) + b
    ensures DropNoise(a) == [] <==> !HasReal(a)
  {
    hide IsNoise;
    if a == [] {
      assert a + b == b;
    } else {
      DropNoiseAppend(a[1..], b);
      assert (a + b)[1..] == a[1..] + b;
      if IsNoise(a[0]) && HasReal(a) {
        var i :| 0 <= i < |a| && !IsNoise(a[i]);
        assert !IsNoise(a[1..][i - 1]);
      }
      if HasReal(a[1..]) {
        var i :| 0 <= i < |a[1..]| && !IsNoise(a[1..][i]);
        assert !IsNoise(a[i + 1]);
      }
    }
  }

  /** Abort machinery in front of a trace that has a frame of its own changes nothing. */
  lemma NoiseInFront(noise: seq<string>, names: seq<string>)
    requires !HasReal(noise) && HasReal(names)
    ensures Significant(noise + names) == Significant(names)
  {
    hide IsNoise;
    DropNoiseAppend(noise, names);
    DropNoiseAppend(names, []);
  }

  /** Nor does anything below the fifth significant frame. */
  lemma DeepFramesIgnored(names: seq<string>, more: seq<string>)
    requires HasReal(names) && |DropNoise(names)| >= SIGNIFICANT_FRAMES
    ensures Significant(names + more) == Significant(names)
  {
    hide IsNoise;
    DropNoiseAppend(names, more);
  }

  // ---------------------------------------------------------------- the hashed bytes

  function Le32(n: nat): (b: Bytes)
    requires n < U32_LIMIT
    ensures |b| == 4
  {
    [(n % 256) as byte, (n / 256 % 256) as byte, (n / 65536 % 256) as byte, (n / 16777216) as byte]
  }

  function SignalValue(signal: Option<nat>): nat {
    match signal case Some(s) => s case None => 0
  }

  function VersionText(version: Option<string>): string {
    match version case Some(v) => v case None => ""
  }

  predicate IsU32(signal: Option<nat>) {
    SignalValue(signal) < U32_LIMIT
  }

  const PRECISE_TAG := "blankres-sig-v1\0"
  const COARSE_TAG := "blankres-sig-v1-coarse\0"

  function FrameBytes(frames: seq<string>): Bytes {
    if frames == [] then [] else FrameBytes(frames[..|frames| - 1]) + ([0] + Encode(frames[|frames| - 1]))
  }

  function HeadBytes(tag: string, executable: string, signal: Option<nat>): Bytes
    requires IsU32(signal)
  {
    Encode(tag) + (Encode(executable) + ([0] + Le32(SignalValue(signal))))
  }

  /** What `from_frames` feeds the hasher. */
  function PreciseBytes(executable: string, signal: Option<nat>, frames: seq<string>): Bytes
    requires IsU32(signal)
  {
    HeadBytes(PRECISE_TAG, executable, signal) + FrameBytes(frames)
  }

  /** What `coarse` feeds the hasher. */
  function CoarseBytes(executable: string, signal: Option<nat>, version: Option<string>): Bytes
    requires IsU32(signal)
  {
    HeadBytes(COARSE_TAG, executable, signal) + ([0] + Encode(VersionText(version)))
  }

  datatype Signature = Signature(hash: string, precise: bool, frames: seq<string>)

  function CoarseOf(digest: Bytes -> string, executable: string, signal: Option<nat>, version: Option<string>): Signature
    requires IsU32(signal)
  {
    Signature(digest(CoarseBytes(executable, signal, version)), false, [])
  }

  /** The signature of a trace. */
  function SignatureOf(digest: Bytes -> string, frames: seq<Frame>, signal: Option<nat>, executable: string): Signature
    requires IsU32(signal)
  {
    var significant := Significant(NormalizedAll(frames));
    if significant == [] then CoarseOf(digest, executable, signal, None)
    else Signature(digest(PreciseBytes(executable, signal, significant)), true, significant)
  }

  /** An incremental hasher: what it has been fed so far. */
  class Hasher {
    const digest: Bytes -> string
    var fed: Bytes

    constructor (digest: Bytes -> string)
      ensures this.digest == digest && fed == []
    {
      this.digest := digest;
      fed := [];
    }

    method Update(bytes: Bytes)
      modifies this
      ensures fed == old(fed) + bytes
    {
      fed := fed + bytes;
    }

    method Finalize() returns (hash: string)
      ensures hash == digest(fed)
    {
      return digest(fed);
    }
  }

  method Coarse(digest: Bytes -> string, executable: string, signal: Option<nat>, version: Option<string>) returns (r: Signature)
    requires IsU32(signal)
    ensures r == CoarseOf(digest, executable, signal, version)
  {
    hide Encode, Le32;
    var hasher := new Hasher(digest);
    hasher.Update(Encode(COARSE_TAG));
    hasher.Update(Encode(executable));
    hasher.Update([0]);
    hasher.Update(Le32(SignalValue(signal)));
    hasher.Update([0]);
    hasher.Update(Encode(VersionText(version)));
    assert hasher.fed == CoarseBytes(executable, signal, version);
    var hash := hasher.Finalize();
    return Signature(hash, false, []);
  }

  method FromFrames(digest: Bytes -> string, frames: seq<Frame>, signal: Option<nat>, executable: string) returns (r: Signature)
    requires IsU32(signal)
    ensures r == SignatureOf(digest, frames, signal, executable)
  {
    hide Encode, Le32, Significant, NormalizedAll, CoarseBytes;
    var significant := Significant(NormalizedAll(frames));
    if significant == [] {
      r := Coarse(digest, executable, signal, None);
      return;
    }
    var hasher := new Hasher(digest);
    hasher.Update(Encode(PRECISE_TAG));
    hasher.Update(Encode(executable));
    hasher.Update([0]);
    hasher.Update(Le32(SignalValue(signal)));
    assert hasher.fed == HeadBytes(PRECISE_TAG, executable, signal) + FrameBytes(significant[..0]);
    for i := 0 to |significant|
      invariant fresh(hasher) && hasher.digest == digest
      invariant hasher.fed == HeadBytes(PRECISE_TAG, executable, signal) + FrameBytes(significant[..i])
    {
      assert significant[..i + 1][..i] == significant[..i];
      hasher.Update([0]);
      hasher.Update(Encode(significant[i]));
    }
    assert significant[..|significant|] == significant;
    var hash := hasher.Finalize();
    return Signature(hash, true, significant);
  }

  // ---------------------------------------------------------------- the bytes determine their source

  lemma ZeroEnds(a: Bytes, b: Bytes, x: Bytes, y: Bytes)
    requires NoZero(b) && a + x == b + y && (x == [] || x[0] == 0)
    ensures |b| <= |a|
  {
    var s := a + x;
    assert forall i :: 0 <= i < |b| ==> s[i] == b[i];
    assert |a| < |s| ==> s[|a|] == x[0];
  }

  /** Two zero-free strings that end at a zero, or at the end, end at the same place. */
  lemma CutAtZero(a: Bytes, b: Bytes, x: Bytes, y: Bytes)
    requires NoZero(a) && NoZero(b) && a + x == b + y
    requires (x == [] || x[0] == 0) && (y == [] || y[0] == 0)
    ensures a == b && x == y
  {
    ZeroEnds(a, b, x, y);
    ZeroEnds(b, a, y, x);
    var s := a + x;
    assert a == s[..|a|] && b == s[..|b|];
    assert x == s[|a|..] && y == s[|b|..];
  }

  predicate AllNulFree(frames: seq<string>) {
    forall i :: 0 <= i < |frames| ==> NulFree(frames[i])
  }

  lemma LastZero(a: Bytes, b: Bytes, x: Bytes, y: Bytes)
    requires NoZero(y) && a + ([0] + x) == b + ([0] + y)
    ensures |a| <= |b|
  {
    var s := b + ([0] + y);
    assert s[|a|] == (a + ([0] + x))[|a|] == 0;
    assert forall i :: |b| < i < |s| ==> s[i] == y[i - |b| - 1];
  }

  /** The last frame and what comes before it, from the bytes. */
  lemma CutLast(a: Bytes, b: Bytes, x: Bytes, y: Bytes)
    requires NoZero(x) && NoZero(y) && a + ([0] + x) == b + ([0] + y)
    ensures a == b && x == y
  {
    LastZero(a, b, x, y);
    LastZero(b, a, y, x);
    var s := a + ([0] + x);
    assert a == s[..|a|] && b == s[..|b|];
    assert x == s[|a| + 1..] && y == s[|b| + 1..];
  }

  lemma {:induction false} FrameBytesInjective(f: seq<string>, g: seq<string>)
    requires AllNulFree(f) && AllNulFree(g) && FrameBytes(f) == FrameBytes(g)
    ensures f == g
  {
    if f != [] && g != [] {
      var m, n := |f| - 1, |g| - 1;
      EncodeNoZero(f[m]);
      EncodeNoZero(g[n]);
      CutLast(FrameBytes(f[..m]), FrameBytes(g[..n]), Encode(f[m]), Encode(g[n]));
      EncodeInjective(f[m], g[n]);
      FrameBytesInjective(f[..m], g[..n]);
      assert f == f[..m] + [f[m]] && g == g[..n] + [g[n]];
    }
  }

  lemma Le32Digits(n: nat)
    ensures n == n % 256 + 256 * (n / 256 % 256) + 65536 * (n / 65536 % 256) + 16777216 * (n / 16777216)
  {
    assert n == n / 256 * 256 + n % 256;
    assert n / 256 == n / 65536 * 256 + n / 256 % 256;
    assert n / 65536 == n / 16777216 * 256 + n / 65536 % 256;
  }

  function FromLe32(b: Bytes): int
    requires |b| == 4
  {
    b[0] as int + 256 * (b[1] as int) + 65536 * (b[2] as int) + 16777216 * (b[3] as int)
  }

  lemma Le32RoundTrip(n: nat)
    requires n < U32_LIMIT
    ensures FromLe32(Le32(n)) == n
  {
    Le32Digits(n);
  }

  /** Executable, signal and whatever follows, from the bytes after the tag. */
  lemma HeadInjective(tag: string, e: string, f: string, s: Option<nat>, t: Option<nat>, x: Bytes, y: Bytes)
    requires NulFree(e) && NulFree(f) && IsU32(s) && IsU32(t)
    requires HeadBytes(tag, e, s) + x == HeadBytes(tag, f, t) + y
    ensures e == f && SignalValue(s) == SignalValue(t) && x == y
  {
    hide Encode, Le32, NulFree;
    var i, j := Le32(SignalValue(s)), Le32(SignalValue(t));
    var u, v := [0] + i + x, [0] + j + y;
    AfterTag(Encode(tag), Encode(e), [0] + i, x);
    AfterTag(Encode(tag), Encode(f), [0] + j, y);
    EncodeNoZero(e);
    EncodeNoZero(f);
    CutAtZero(Encode(e), Encode(f), u, v);
    EncodeInjective(e, f);
    assert i == u[1..5] && j == v[1..5];
    Le32RoundTrip(SignalValue(s));
    Le32RoundTrip(SignalValue(t));
    assert x == u[5..] && y == v[5..];
  }

  lemma AfterTag(tag: Bytes, a: Bytes, b: Bytes, x: Bytes)
    ensures (tag + (a + b) + x)[|tag|..] == a + (b + x)
  {
  }

  /** Precise encodings are equal exactly when executable, signal (none counted as 0) and significant
      frames are. */
  lemma PreciseInjective(e: string, f: string, s: Option<nat>, t: Option<nat>, frames: seq<string>, others: seq<string>)
    requires NulFree(e) && NulFree(f) && IsU32(s) && IsU32(t) && AllNulFree(frames) && AllNulFree(others)
    ensures PreciseBytes(e, s, frames) == PreciseBytes(f, t, others)
      <==> e == f && SignalValue(s) == SignalValue(t) && frames == others
  {
    if PreciseBytes(e, s, frames) == PreciseBytes(f, t, others) {
      HeadInjective(PRECISE_TAG, e, f, s, t, FrameBytes(frames), FrameBytes(others));
      FrameBytesInjective(frames, others);
    }
  }

  /** Coarse encodings are equal exactly when executable, signal and package version (none counted as
      empty) are. */
  lemma CoarseInjective(e: string, f: string, s: Option<nat>, t: Option<nat>, v: Option<string>, w: Option<string>)
    requires NulFree(e) && NulFree(f) && IsU32(s) && IsU32(t)
    ensures CoarseBytes(e, s, v) == CoarseBytes(f, t, w)
      <==> e == f && SignalValue(s) == SignalValue(t) && VersionText(v) == VersionText(w)
  {
    hide Encode, Le32;
    if CoarseBytes(e, s, v) == CoarseBytes(f, t, w) {
      var x, y := [0] + Encode(VersionText(v)), [0] + Encode(VersionText(w));
      HeadInjective(COARSE_TAG, e, f, s, t, x, y);
      assert Encode(VersionText(v)) == x[1..] && Encode(VersionText(w)) == y[1..];
      EncodeInjective(VersionText(v), VersionText(w));
    }
  }

  predicate Ascii(s: string) {
    forall j :: 0 <= j < |s| ==> s[j] as int < 0x80
  }

  lemma TagsPart(p: string, q: string, i: nat)
    requires i < |p| && i < |q| && p[i] != q[i] && Ascii(p) && Ascii(q)
    ensures i < |Encode(p)| && i < |Encode(q)| && Encode(p)[i] != Encode(q)[i]
  {
    AsciiAt(p, i);
    AsciiAt(q, i);
  }

  /** The two tags part at their sixteenth byte, so the two kinds of encoding never meet. */
  lemma KindsApart(e: string, f: string, s: Option<nat>, t: Option<nat>, frames: seq<string>, v: Option<string>)
    requires IsU32(s) && IsU32(t)
    ensures PreciseBytes(e, s, frames) != CoarseBytes(f, t, v)
  {
    hide Encode, Le32, FrameBytes;
    TagsPart(PRECISE_TAG, COARSE_TAG, 15);
    assert PreciseBytes(e, s, frames)[15] == Encode(PRECISE_TAG)[15];
    assert CoarseBytes(f, t, v)[15] == Encode(COARSE_TAG)[15];
  }

  lemma {:induction false} AsciiAt(s: string, i: nat)
    requires i < |s| && Ascii(s)
    ensures i < |Encode(s)| && Encode(s)[i] as int == s[i] as int
  {
    if i > 0 {
      AsciiAt(s[1..], i - 1);
    }
  }

  /** Two precise signatures with one hash come from the same executable, signal and frames, or
      exhibit a collision of the digest. */
  lemma EqualHashes(digest: Bytes -> string, a: seq<Frame>, b: seq<Frame>, s: Option<nat>, t: Option<nat>, e: string, f: string)
    requires NulFree(e) && NulFree(f) && IsU32(s) && IsU32(t)
    requires var x, y := Significant(NormalizedAll(a)), Significant(NormalizedAll(b));
      x != [] && y != [] && AllNulFree(x) && AllNulFree(y)
    requires SignatureOf(digest, a, s, e).hash == SignatureOf(digest, b, t, f).hash
    ensures (e == f && SignalValue(s) == SignalValue(t) && Significant(NormalizedAll(a)) == Significant(NormalizedAll(b)))
      || exists x, y :: x != y && digest(x) == digest(y)
  {
    var x, y := Significant(NormalizedAll(a)), Significant(NormalizedAll(b));
    PreciseInjective(e, f, s, t, x, y);
    if PreciseBytes(e, s, x) != PreciseBytes(f, t, y) {
      assert digest(PreciseBytes(e, s, x)) == digest(PreciseBytes(f, t, y));
    }
  }
}
