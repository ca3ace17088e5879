/** What the frames of a trace contribute to its signature, in terms of their symbols, modules and
    offsets: crates/blankres-report/src/signature.rs. */
module FrameNames {
  import opened Base
  import opened Text
  import opened Numerals
  import opened Utf8
  import opened Signature

  // ---------------------------------------------------------------- one frame

  /** The usable symbol of a frame: what stands before the first plus sign, without the space around it. */
  ghost predicate SymbolIs(f: Frame, base: string) {
    && f.function_.Some? && base != [] && base != "n/a"
    && exists pre, post, suffix :: SymbolText(f.function_.value, pre, base, post, suffix)
  }

  predicate SymbolText(symbol: string, pre: string, base: string, post: string, suffix: string) {
    && symbol == pre + base + post + suffix
    && Blank(pre) && Blank(post) && Trimmed(base) && Free(pre + base + post, '+')
    && (suffix == [] || suffix[0] == '+')
  }

  ghost predicate NoSymbol(f: Frame) {
    forall base :: !SymbolIs(f, base)
  }

  /** A frame known by a text alone: its symbol, else a module without an offset, else nothing at all. */
  ghost predicate Known(f: Frame, text: string) {
    || SymbolIs(f, text)
    || (NoSymbol(f) && f.module_ == Some(text) && f.moduleOffset.None?)
    || (NoSymbol(f) && f.module_.None? && text == "??")
  }

  /** A frame known by its place in a module. */
  ghost predicate Placed(f: Frame, module_: string, offset: nat) {
    NoSymbol(f) && f.module_ == Some(module_) && f.moduleOffset == Some(offset)
  }

  /** The name a frame contributes: that text in small letters, or the module in small letters and the
      offset in hexadecimal. */
  ghost predicate Contributes(f: Frame, name: string) {
    || (exists text :: Known(f, text) && Lowered(text, name))
    || (exists m, offset, small :: Placed(f, m, offset) && Lowered(m, small) && name == small + "+0x" + Hex(offset))
  }

  lemma SymbolBaseIff(f: Frame, base: string)
    ensures SymbolBase(f) == Some(base) <==> SymbolIs(f, base)
  {
    if f.function_.Some? {
      var symbol := f.function_.value;
      SplitOnceNone(symbol, '+');
      if SymbolBase(f) == Some(base) {
        var before := Before(symbol, '+');
        var pre, post := TrimShape(before);
        var suffix := symbol[|before|..];
        assert symbol == before + suffix;
        assert SymbolText(symbol, pre, base, post, suffix);
      }
      if SymbolIs(f, base) {
        var pre, post, suffix :| SymbolText(symbol, pre, base, post, suffix);
        BeforeIs(pre + base + post, suffix);
        assert symbol == (pre + base + post) + suffix;
        TrimOf(pre, base, post);
      }
    }
  }

  lemma BeforeIs(s: string, suffix: string)
    requires Free(s, '+') && (suffix == [] || suffix[0] == '+')
    ensures Before(s + suffix, '+') == s
  {
    if suffix == [] {
      assert s + suffix == s;
      SplitOnceNone(s, '+');
    } else {
      SplitOnceAt(s, suffix[1..], '+');
      assert s + ['+'] + suffix[1..] == s + suffix;
    }
  }

  /** Every frame is known by one text or placed at one offset. */
  lemma KnownOrPlaced(f: Frame)
    ensures match SymbolBase(f)
            case Some(base) => forall text :: Known(f, text) <==> text == base
            case None => NoSymbol(f)
    ensures SymbolBase(f).Some? ==> forall m, o :: !Placed(f, m, o)
  {
    forall text
      ensures SymbolBase(f) == Some(text) <==> SymbolIs(f, text)
    {
      SymbolBaseIff(f, text);
    }
    hide SymbolIs, SymbolBase;
  }

  /** The name is exactly that. */
  lemma NormalizedIff(f: Frame, name: string)
    ensures name == Normalized(f) <==> Contributes(f, name)
  {
    KnownOrPlaced(f);
    hide SymbolIs, SymbolBase, Lowered, Hex;
    match SymbolBase(f) {
      case Some(base) =>
        LoweredIff(base, name);
        assert Known(f, base);
      case None =>
        if f.module_.None? {
          LoweredIff("??", name);
          assert ToLower("??") == "??";
          assert Known(f, "??");
        } else if f.moduleOffset.None? {
          LoweredIff(f.module_.value, name);
          assert Known(f, f.module_.value);
        } else {
          var m, o := f.module_.value, f.moduleOffset.value;
          LoweredIff(m, ToLower(m));
          if small :| Lowered(m, small) && name == small + "+0x" + Hex(o) {
            LoweredIff(m, small);
          }
          if name == Normalized(f) {
            assert Placed(f, m, o) && Lowered(m, ToLower(m)) && name == ToLower(m) + "+0x" + Hex(o);
          }
        }
    }
  }

  // ---------------------------------------------------------------- two frames

  lemma HexTail(offset: nat)
    ensures Free("0x" + Hex(offset), '+')
  {
    PrintRoundTrip(offset, 16);
    assert DigitValue('+', 16).None?;
    var h := Hex(offset);
    assert forall i :: 0 <= i < |h| ==> DigitValue(h[i], 16).Some?;
    hide Hex, DigitValue;
    assert "0x"[0] != '+' && "0x"[1] != '+';
  }

  /** A place is read off the name it gives. */
  lemma PlaceNameInjective(m: string, o: nat, l: string, p: nat)
    requires m + "+0x" + Hex(o) == l + "+0x" + Hex(p)
    ensures m == l && o == p
  {
    HexTail(o);
    HexTail(p);
    PrintRoundTrip(o, 16);
    PrintRoundTrip(p, 16);
    hide Hex, DigitsValue;
    assert m + "+0x" + Hex(o) == m + ['+'] + ("0x" + Hex(o));
    assert l + "+0x" + Hex(p) == l + ['+'] + ("0x" + Hex(p));
    SplitLastAt(m, "0x" + Hex(o), '+');
    SplitLastAt(l, "0x" + Hex(p), '+');
    assert Hex(o) == ("0x" + Hex(o))[2..] && Hex(p) == ("0x" + Hex(p))[2..];
  }

  /** Two frames are told apart by the signature exactly when none of these holds. */
  ghost predicate Alike(f: Frame, g: Frame) {
    || (exists s, t :: Known(f, s) && Known(g, t) && SameLetters(s, t))
    || (exists m, l, o :: Placed(f, m, o) && Placed(g, l, o) && SameLetters(m, l))
    || Mimics(f, g) || Mimics(g, f)
  }

  /** The one way in which a text is taken for a place: a module without an offset whose name is spelled
      like a module with one. */
  ghost predicate Mimics(f: Frame, g: Frame) {
    exists m, o, t :: Placed(f, m, o) && Known(g, t) && ToLower(t) == ToLower(m) + "+0x" + Hex(o)
  }

  /** What is known of a frame, one way or the other. */
  lemma Kinds(f: Frame)
    ensures (exists text :: Known(f, text) && Normalized(f) == ToLower(text))
      || (exists m, o :: Placed(f, m, o) && Normalized(f) == ToLower(m) + "+0x" + Hex(o))
    ensures forall text :: Known(f, text) ==> Normalized(f) == ToLower(text)
    ensures forall m, o :: Placed(f, m, o) ==> Normalized(f) == ToLower(m) + "+0x" + Hex(o)
  {
    KnownOrPlaced(f);
    hide SymbolIs, SymbolBase, Hex;
    assert ToLower("??") == "??";
    match SymbolBase(f) {
      case Some(base) => assert Known(f, base);
      case None =>
        if f.module_.None? {
          assert Known(f, "??");
        } else if f.moduleOffset.None? {
          assert Known(f, f.module_.value);
        } else {
          assert Placed(f, f.module_.value, f.moduleOffset.value);
        }
    }
  }

  lemma AlikeSame(f: Frame, g: Frame)
    requires Alike(f, g)
    ensures Normalized(f) == Normalized(g)
  {
    Kinds(f);
    Kinds(g);
    hide Known, Placed, Normalized, ToLower, SameLetters, Hex;
    if s, t :| Known(f, s) && Known(g, t) && SameLetters(s, t) {
      SameLettersIff(s, t);
    } else if m, l, o :| Placed(f, m, o) && Placed(g, l, o) && SameLetters(m, l) {
      SameLettersIff(m, l);
    }
  }

  /** Two frames contribute the same name exactly when they are known by the same text, or placed at the
      same offset of the same module, both up to the case of letters, or one mimics the other. */
  lemma SameNameIff(f: Frame, g: Frame)
    ensures Normalized(f) == Normalized(g) <==> Alike(f, g)
  {
    if Alike(f, g) {
      AlikeSame(f, g);
    }
    if Normalized(f) == Normalized(g) {
      Kinds(f);
      Kinds(g);
      hide Known, Placed, Normalized, ToLower, SameLetters, Hex;
      if s :| Known(f, s) {
        if t :| Known(g, t) {
          SameLettersIff(s, t);
        } else {
          var l, p :| Placed(g, l, p);
          assert Mimics(g, f);
        }
      } else {
        var m, o :| Placed(f, m, o);
        if t :| Known(g, t) {
          assert Mimics(f, g);
        } else {
          var l, p :| Placed(g, l, p);
          PlaceNameInjective(ToLower(m), o, ToLower(l), p);
          SameLettersIff(m, l);
        }
      }
    }
  }

  // ---------------------------------------------------------------- a trace

  /** The names of the machinery that a crash runs through on its way to the reporter. */
  predicate Noise(name: string) {
    || "__pthread_kill" <= name || "pthread_kill" <= name || "raise" <= name || "abort" <= name
    || "__libc_message" <= name || "__gi_raise" <= name || "__gi_abort" <= name || "__assert_fail" <= name
    || "__stack_chk_fail" <= name || "gsignal" <= name
  }

  lemma NoiseIff(name: string)
    ensures IsNoise(name) <==> Noise(name)
  {
    if Noise(name) {
      assert NOISE_PREFIXES[0] == "__pthread_kill" && NOISE_PREFIXES[1] == "pthread_kill" && NOISE_PREFIXES[2] == "raise"
          && NOISE_PREFIXES[3] == "abort" && NOISE_PREFIXES[4] == "__libc_message" && NOISE_PREFIXES[5] == "__gi_raise"
          && NOISE_PREFIXES[6] == "__gi_abort" && NOISE_PREFIXES[7] == "__assert_fail"
          && NOISE_PREFIXES[8] == "__stack_chk_fail" && NOISE_PREFIXES[9] == "gsignal";
    }
  }

  /** A frame whose name is noise. */
  ghost predicate Noisy(f: Frame) {
    exists name :: Contributes(f, name) && Noise(name)
  }

  lemma NoisyIff(f: Frame)
    ensures Noisy(f) <==> IsNoise(Normalized(f))
  {
    NoiseIff(Normalized(f));
    NormalizedIff(f, Normalized(f));
    if name :| Contributes(f, name) && Noise(name) {
      NormalizedIff(f, name);
    }
    hide Normalized, Contributes, IsNoise, Noise;
  }

  lemma {:induction false} DropNoiseAt(names: seq<string>) returns (k: nat)
    ensures k <= |names| && DropNoise(names) == names[k..]
    ensures forall j :: 0 <= j < k ==> IsNoise(names[j])
    ensures k < |names| ==> !IsNoise(names[k])
  {
    hide IsNoise;
    if names != [] && IsNoise(names[0]) {
      var n := DropNoiseAt(names[1..]);
      k := n + 1;
      assert names[1..][n..] == names[k..];
      assert forall j :: 0 < j < k ==> names[j] == names[1..][j - 1];
    } else {
      k := 0;
    }
  }

  /** The first frame that counts: the first one that is not noise, or the very first if all are. */
  ghost predicate From(frames: seq<Frame>, k: nat) {
    && k < |frames|
    && (forall j :: 0 <= j < k ==> Noisy(frames[j]))
    && (!Noisy(frames[k]) || (k == 0 && forall j :: 0 <= j < |frames| ==> Noisy(frames[j])))
  }

  /** The frames that count: five from there, or what there is. */
  function FirstFive(frames: seq<Frame>, k: nat): (r: seq<Frame>)
    requires k <= |frames|
  {
    if |frames| - k < 5 then frames[k..] else frames[k..k + 5]
  }

  lemma SignificantAre(frames: seq<Frame>) returns (k: nat)
    requires frames != []
    ensures From(frames, k) && Significant(NormalizedAll(frames)) == NormalizedAll(FirstFive(frames, k))
  {
    hide IsNoise, Noisy, Normalized;
    var all := NormalizedAll(frames);
    var n := DropNoiseAt(all);
    k := if n == |frames| then 0 else n;
    forall j | 0 <= j < |frames|
      ensures Noisy(frames[j]) <==> IsNoise(all[j])
    {
      NoisyIff(frames[j]);
    }
    assert all[0..] == all;
    assert n == |frames| ==> all[n..] == [];
    hide DropNoise;
    assert Significant(all) == Take(all[k..], 5);
  }

  lemma FromUnique(frames: seq<Frame>, k: nat, l: nat)
    requires From(frames, k) && From(frames, l)
    ensures k == l
  {
    hide Noisy;
  }

  /** The signature of a trace names its frames from the first that is not noise, five at most, each by what
      it contributes, and hashes executable, signal and those names. */
  lemma NamesOfTrace(digest: Bytes -> string, frames: seq<Frame>, signal: Option<nat>, executable: string, k: nat)
    requires IsU32(signal) && From(frames, k)
    ensures var r := SignatureOf(digest, frames, signal, executable);
      && r.precise && AllContribute(FirstFive(frames, k), r.frames)
      && r.hash == digest(PreciseBytes(executable, signal, r.frames))
  {
    var l := SignificantAre(frames);
    FromUnique(frames, k, l);
    AllNormalized(FirstFive(frames, k));
    assert NormalizedAll(FirstFive(frames, k)) != [];
    hide From, NormalizedAll, Significant, PreciseBytes, AllContribute;
  }

  ghost predicate AllContribute(frames: seq<Frame>, names: seq<string>) {
    |names| == |frames| && forall i :: 0 <= i < |frames| ==> Contributes(frames[i], names[i])
  }

  lemma AllNormalized(frames: seq<Frame>)
    ensures AllContribute(frames, NormalizedAll(frames))
  {
    hide Normalized, Contributes;
    forall i | 0 <= i < |frames|
      ensures Contributes(frames[i], NormalizedAll(frames)[i])
    {
      NormalizedIff(frames[i], Normalized(frames[i]));
    }
  }

  /** Without frames the signature is the coarse one, without a version. */
  lemma NamesOfNothing(digest: Bytes -> string, signal: Option<nat>, executable: string)
    requires IsU32(signal)
    ensures var r := SignatureOf(digest, [], signal, executable);
      !r.precise && r.frames == [] && r.hash == digest(CoarseBytes(executable, signal, None))
  {
    hide CoarseBytes;
  }

  ghost predicate AllAlike(a: seq<Frame>, b: seq<Frame>) {
    |a| == |b| && forall i :: 0 <= i < |a| ==> Alike(a[i], b[i])
  }

  lemma NormalizedAlike(a: seq<Frame>, b: seq<Frame>)
    ensures NormalizedAll(a) == NormalizedAll(b) <==> AllAlike(a, b)
  {
    hide Normalized, Alike;
    forall i | 0 <= i < |a| && i < |b|
      ensures Normalized(a[i]) == Normalized(b[i]) <==> Alike(a[i], b[i])
    {
      SameNameIff(a[i], b[i]);
    }
    var x, y := NormalizedAll(a), NormalizedAll(b);
    assert forall i :: 0 <= i < |a| ==> x[i] == Normalized(a[i]);
    assert forall i :: 0 <= i < |b| ==> y[i] == Normalized(b[i]);
    hide NormalizedAll;
    if x == y {
      assert |a| == |b|;
    }
  }

  /** Two traces have the same significant names exactly when equally many frames count and those are alike
      one by one: same symbols up to case and offset suffix, or same modules up to case and same offsets. */
  lemma SameNamesIff(digest: Bytes -> string, a: seq<Frame>, b: seq<Frame>, s: Option<nat>, t: Option<nat>,
                     e: string, f: string, k: nat, l: nat)
    requires IsU32(s) && IsU32(t) && From(a, k) && From(b, l)
    ensures SignatureOf(digest, a, s, e).frames == SignatureOf(digest, b, t, f).frames
      <==> AllAlike(FirstFive(a, k), FirstFive(b, l))
  {
    var k' := SignificantAre(a);
    var l' := SignificantAre(b);
    FromUnique(a, k, k');
    FromUnique(b, l, l');
    NormalizedAlike(FirstFive(a, k), FirstFive(b, l));
    FramesOf(digest, a, s, e);
    FramesOf(digest, b, t, f);
    hide From, FirstFive, NormalizedAll, Significant, AllAlike, SignatureOf;
  }

  lemma FramesOf(digest: Bytes -> string, frames: seq<Frame>, signal: Option<nat>, executable: string)
    requires IsU32(signal)
    ensures SignatureOf(digest, frames, signal, executable).frames == Significant(NormalizedAll(frames))
  {
    hide Significant, NormalizedAll, PreciseBytes, CoarseBytes;
  }

  // ---------------------------------------------------------------- the hashed bytes

  /** A number written with its lowest byte first. */
  predicate LittleEndian(b: Bytes, n: nat) {
    |b| == 4 && n == b[0] as int + 0x100 * b[1] as int + 0x1_0000 * b[2] as int + 0x100_0000 * b[3] as int
  }

  lemma Le32Is(n: nat)
    requires n < U32_LIMIT
    ensures LittleEndian(Le32(n), n)
  {
  }

  /** Each name after a zero byte. */
  function Listed(names: seq<string>): Bytes {
    if names == [] then [] else [0] + Encode(names[0]) + Listed(names[1..])
  }

  lemma {:induction false} ListedIs(names: seq<string>)
    ensures FrameBytes(names) == Listed(names)
  {
    hide Encode;
    ListedSplit(names, |names|);
    assert names[..|names|] == names && names[|names|..] == [];
  }

  lemma {:induction false} ListedSplit(names: seq<string>, i: nat)
    requires i <= |names|
    ensures FrameBytes(names[..i]) + Listed(names[i..]) == Listed(names)
  {
    hide Encode;
    if i == 0 {
      assert names[..0] == [] && names[0..] == names;
    } else {
      ListedSplit(names, i - 1);
      assert names[..i][..i - 1] == names[..i - 1] && names[i - 1..][1..] == names[i..];
      assert FrameBytes(names[..i]) == FrameBytes(names[..i - 1]) + ([0] + Encode(names[i - 1]));
      assert Listed(names[i - 1..]) == [0] + Encode(names[i - 1]) + Listed(names[i..]);
    }
  }

  /** What is hashed, byte by byte. */
  lemma PreciseLayout(executable: string, signal: Option<nat>, names: seq<string>) returns (number: Bytes)
    requires IsU32(signal)
    ensures LittleEndian(number, if signal.Some? then signal.value else 0)
    ensures PreciseBytes(executable, signal, names)
      == (Encode("blankres-sig-v1\0") + (Encode(executable) + ([0] + number))) + Listed(names)
  {
    number := Le32(SignalValue(signal));
    Le32Is(SignalValue(signal));
    ListedIs(names);
    hide Encode, Le32, FrameBytes, Listed;
  }

  lemma CoarseLayout(executable: string, signal: Option<nat>, version: Option<string>) returns (number: Bytes)
    requires IsU32(signal)
    ensures LittleEndian(number, if signal.Some? then signal.value else 0)
    ensures CoarseBytes(executable, signal, version)
      == (Encode("blankres-sig-v1-coarse\0") + (Encode(executable) + ([0] + number)))
         + ([0] + Encode(if version.Some? then version.value else ""))
  {
    number := Le32(SignalValue(signal));
    Le32Is(SignalValue(signal));
    hide Encode, Le32;
  }
}
