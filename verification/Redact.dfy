/** Scrubbing of command lines: crates/blankres-report/src/redact.rs. */
module Redact {
  import opened Base
  import opened Text

  const SECRET_MARKERS := [
    "password", "passwd", "secret", "token", "api_key", "apikey", "auth", "credential",
    "private_key", "session", "cookie", "bearer"]

  const REDACTED := "<redacted>"

  predicate IsSecretName(name: string) {
    exists i :: 0 <= i < |SECRET_MARKERS| && Contains(ToLower(name), SECRET_MARKERS[i])
  }

  /** The name of a `name=value` argument whose name is secret. */
  function SecretAssignment(arg: string): Option<string> {
    match SplitOnce(arg, '=')
    case Some(p) => if IsSecretName(p.0) then Some(p.0) else None
    case None => None
  }

  /** What one argument becomes; `redact` says that the flag before it announced a secret. */
  function Shown(arg: string, redact: bool): string {
    if redact then REDACTED
    else
      match SecretAssignment(arg)
      case Some(name) => name + "=" + REDACTED
      case None => arg
  }

  /** Whether the argument announces that the next one is a secret. */
  predicate Announces(arg: string, redact: bool) {
    !redact && SecretAssignment(arg).None? && arg != [] && arg[0] == '-' && IsSecretName(arg)
  }

  function Scrubbed(argv: seq<string>, redact: bool): seq<string> {
    if argv == [] then []
    else [Shown(argv[0], redact)] + Scrubbed(argv[1..], Announces(argv[0], redact))
  }

  lemma ScrubbedStep(argv: seq<string>, i: nat, redact: bool)
    requires i < |argv|
    ensures Scrubbed(argv[i..], redact) == [Shown(argv[i], redact)] + Scrubbed(argv[i + 1..], Announces(argv[i], redact))
  {
    assert argv[i..][1..] == argv[i + 1..];
  }

  method ScrubCommandLine(argv: seq<string>) returns (out: seq<string>)
    ensures out == Scrubbed(argv, false)
  {
    hide IsSecretName, SplitOnce;
    out := [];
    var redactNext := false;
    assert argv[0..] == argv;
    for i := 0 to |argv|
      invariant out + Scrubbed(argv[i..], redactNext) == Scrubbed(argv, false)
    {
      var arg := argv[i];
      ScrubbedStep(argv, i, redactNext);
      if redactNext {
        out := out + [REDACTED];
        redactNext := false;
        continue;
      }
      var parts := SplitOnce(arg, '=');
      if parts.Some? && IsSecretName(parts.value.0) {
        out := out + [parts.value.0 + "=" + REDACTED];
      } else {
        if arg != [] && arg[0] == '-' && IsSecretName(arg) {
          redactNext := true;
        }
        out := out + [arg];
      }
    }
  }

  /** One output argument for every input argument. */
  lemma {:induction false} LengthKept(argv: seq<string>, redact: bool)
    ensures |Scrubbed(argv, redact)| == |argv|
  {
    if argv != [] {
      LengthKept(argv[1..], Announces(argv[0], redact));
    }
  }

  /** Two arguments that may differ only in a secret. */
  predicate MayDiffer(x: string, y: string, redact: bool) {
    redact || x == y || (SecretAssignment(x).Some? && SecretAssignment(x) == SecretAssignment(y))
  }

  /** Two command lines that differ only in values announced by a secret flag, or in what follows the
      first equals sign of a secret-named argument. */
  predicate SameButSecrets(a: seq<string>, b: seq<string>, redact: bool) {
    && (a == [] <==> b == [])
    && (a != [] && b != [] ==>
          MayDiffer(a[0], b[0], redact) && SameButSecrets(a[1..], b[1..], Announces(a[0], redact)))
  }

  /** A scrubbed assignment is still an assignment of that name. */
  lemma AssignmentShown(arg: string)
    requires SecretAssignment(arg).Some?
    ensures SecretAssignment(Shown(arg, false)) == SecretAssignment(arg)
  {
    SplitOnceNone(arg, '=');
    var name := SecretAssignment(arg).value;
    SplitOnceAt(name, REDACTED, '=');
    assert name + "=" + REDACTED == name + ['='] + REDACTED;
  }

  lemma ShownEqualIff(x: string, y: string, redact: bool)
    ensures Shown(x, redact) == Shown(y, redact) <==> MayDiffer(x, y, redact)
    ensures MayDiffer(x, y, redact) ==> Announces(x, redact) == Announces(y, redact)
  {
    if !redact {
      if SecretAssignment(x).Some? {
        AssignmentShown(x);
      }
      if SecretAssignment(y).Some? {
        AssignmentShown(y);
      }
    }
  }

  /** Scrubbing hides the secrets and nothing else: two command lines scrub to the same output exactly
      when they differ only in secrets. */
  lemma {:induction false} ScrubbedEqualIff(a: seq<string>, b: seq<string>, redact: bool)
    ensures Scrubbed(a, redact) == Scrubbed(b, redact) <==> SameButSecrets(a, b, redact)
  {
    if a != [] && b != [] {
      ShownEqualIff(a[0], b[0], redact);
      ScrubbedEqualIff(a[1..], b[1..], Announces(a[0], redact));
      assert Scrubbed(a, redact)[1..] == Scrubbed(a[1..], Announces(a[0], redact));
      assert Scrubbed(b, redact)[1..] == Scrubbed(b[1..], Announces(b[0], redact));
    }
  }

  lemma {:induction false} ScrubbingTwice(argv: seq<string>, redact: bool)
    ensures Scrubbed(Scrubbed(argv, redact), redact) == Scrubbed(argv, redact)
  {
    if argv != [] {
      var arg := argv[0];
      if !redact && SecretAssignment(arg).Some? {
        AssignmentShown(arg);
      }
      var once := Scrubbed(argv, redact);
      assert once[1..] == Scrubbed(argv[1..], Announces(arg, redact));
      ScrubbingTwice(argv[1..], Announces(arg, redact));
    }
  }

  // ---------------------------------------------------------------- what counts as a secret

  /** One of the twelve markers, in any case. */
  predicate Marks(w: string) {
    || Lowered(w, "password") || Lowered(w, "passwd") || Lowered(w, "secret") || Lowered(w, "token")
    || Lowered(w, "api_key") || Lowered(w, "apikey") || Lowered(w, "auth") || Lowered(w, "credential")
    || Lowered(w, "private_key") || Lowered(w, "session") || Lowered(w, "cookie") || Lowered(w, "bearer")
  }

  lemma MarksIff(w: string)
    ensures Marks(w) <==> exists i :: 0 <= i < |SECRET_MARKERS| && Lowered(w, SECRET_MARKERS[i])
  {
    hide Lowered;
    if Marks(w) {
      assert forall m :: Lowered(w, m) && m in SECRET_MARKERS ==> exists i :: 0 <= i < |SECRET_MARKERS| && Lowered(w, SECRET_MARKERS[i]);
      assert SECRET_MARKERS[0] == "password" && SECRET_MARKERS[1] == "passwd" && SECRET_MARKERS[2] == "secret"
          && SECRET_MARKERS[3] == "token" && SECRET_MARKERS[4] == "api_key" && SECRET_MARKERS[5] == "apikey"
          && SECRET_MARKERS[6] == "auth" && SECRET_MARKERS[7] == "credential" && SECRET_MARKERS[8] == "private_key"
          && SECRET_MARKERS[9] == "session" && SECRET_MARKERS[10] == "cookie" && SECRET_MARKERS[11] == "bearer";
    }
  }

  /** A marker occurs somewhere in the text. */
  ghost predicate HoldsMarker(s: string) {
    exists a, w, b :: s == a + w + b && Marks(w)
  }

  lemma LoweredParts(a: string, w: string, b: string)
    ensures ToLower(a + w + b) == ToLower(a) + ToLower(w) + ToLower(b)
  {
  }

  lemma LoweredSlice(s: string, n: nat, m: nat)
    requires n <= m <= |s|
    ensures ToLower(s[n..m]) == ToLower(s)[n..m]
  {
  }

  lemma ContainedMarks(name: string, marker: string) returns (a: string, w: string, b: string)
    requires Contains(ToLower(name), marker)
    ensures name == a + w + b && Lowered(w, marker)
  {
    ContainsIff(ToLower(name), marker);
    hide Contains;
    var x, y :| ToLower(name) == x + marker + y;
    var n, m := |x|, |x| + |marker|;
    LoweredSlice(name, n, m);
    assert (x + marker + y)[n..m] == marker;
    hide ToLower;
    a, w, b := name[..n], name[n..m], name[m..];
    assert name == a + w + b;
    LoweredIff(w, marker);
  }

  lemma MarkedContains(a: string, w: string, b: string, marker: string)
    requires Lowered(w, marker)
    ensures Contains(ToLower(a + w + b), marker)
  {
    LoweredIff(w, marker);
    LoweredParts(a, w, b);
    ContainsIff(ToLower(a + w + b), marker);
    hide Contains, Lowered;
  }

  /** A name is secret exactly when a marker occurs in it, in whatever case. */
  lemma SecretIff(name: string)
    ensures IsSecretName(name) <==> HoldsMarker(name)
  {
    hide Marks, Contains, Lowered, ToLower;
    if IsSecretName(name) {
      var i :| 0 <= i < |SECRET_MARKERS| && Contains(ToLower(name), SECRET_MARKERS[i]);
      var a, w, b := ContainedMarks(name, SECRET_MARKERS[i]);
      MarksIff(w);
    }
    if a, w, b :| name == a + w + b && Marks(w) {
      MarksIff(w);
      var i :| 0 <= i < |SECRET_MARKERS| && Lowered(w, SECRET_MARKERS[i]);
      MarkedContains(a, w, b, SECRET_MARKERS[i]);
    }
  }

  /** Whether the argument after these is taken for the value of a secret flag. */
  function Flagged(argv: seq<string>, redact: bool): bool {
    if argv == [] then redact else Flagged(argv[1..], Announces(argv[0], redact))
  }

  lemma ScrubbedCons(arg: string, rest: seq<string>, redact: bool)
    ensures Scrubbed([arg] + rest, redact) == [Shown(arg, redact)] + Scrubbed(rest, Announces(arg, redact))
    ensures Flagged([arg] + rest, redact) == Flagged(rest, Announces(arg, redact))
  {
    hide Shown, Announces;
    assert ([arg] + rest)[1..] == rest;
  }

  lemma ScrubbedNil(redact: bool)
    ensures Scrubbed([], redact) == [] && Flagged([], redact) == redact
  {
  }

  lemma {:induction false} ScrubbedAppend(a: seq<string>, b: seq<string>, redact: bool)
    ensures Scrubbed(a + b, redact) == Scrubbed(a, redact) + Scrubbed(b, Flagged(a, redact))
  {
    hide Scrubbed, Flagged, Shown, Announces;
    if a == [] {
      ScrubbedNil(redact);
      assert a + b == b;
    } else {
      var arg, rest := a[0], a[1..];
      assert a == [arg] + rest;
      ScrubbedAppend(rest, b, Announces(arg, redact));
      ScrubbedCons(arg, rest, redact);
      ScrubbedCons(arg, rest + b, redact);
      assert a + b == [arg] + (rest + b);
    }
  }

  /** Only an argument that starts with a dash announces. */
  lemma {:induction false} FlaggedByDash(argv: seq<string>, redact: bool)
    requires argv != [] && Flagged(argv, redact)
    ensures argv[|argv| - 1] != [] && argv[|argv| - 1][0] == '-'
  {
    hide IsSecretName, SecretAssignment;
    if |argv| > 1 {
      FlaggedByDash(argv[1..], Announces(argv[0], redact));
    } else {
      assert argv[1..] == [];
    }
  }

  /** The argument has a name with a marker in it, an equals sign, and a value. */
  lemma MarkedAssignment(name: string, v: string, redact: bool)
    requires HoldsMarker(name) && Free(name, '=')
    ensures Shown(name + "=" + v, redact) == if redact then "<redacted>" else name + "=<redacted>"
    ensures !Announces(name + "=" + v, redact)
  {
    SecretIff(name);
    hide IsSecretName, HoldsMarker;
    SplitOnceAt(name, v, '=');
    assert name + ['='] + v == name + "=" + v;
    assert name + "=" + REDACTED == name + "=<redacted>";
  }

  /** Wherever it stands, the value of an argument whose name holds a marker, in any case and with
      anything around it, never reaches the output. */
  lemma AssignmentHidden(before: seq<string>, name: string, v: string, w: string, after: seq<string>)
    requires HoldsMarker(name) && Free(name, '=')
    ensures Scrubbed(before + [name + "=" + v] + after, false) == Scrubbed(before + [name + "=" + w] + after, false)
    ensures var out := Scrubbed(before + [name + "=" + v] + after, false);
      && |out| == |before| + 1 + |after|
      && (out[|before|] == name + "=<redacted>" || (before != [] && out[|before|] == "<redacted>"))
  {
    LengthKept(before, false);
    LengthKept(before + [name + "=" + v] + after, false);
    Between(before, name + "=" + v, after);
    Between(before, name + "=" + w, after);
    MarkedAssignment(name, v, Flagged(before, false));
    MarkedAssignment(name, w, Flagged(before, false));
    hide HoldsMarker, Shown, Announces, Scrubbed;
  }

  /** One argument in the middle. */
  lemma Between(before: seq<string>, arg: string, after: seq<string>)
    ensures var redact := Flagged(before, false);
      Scrubbed(before + [arg] + after, false)
      == Scrubbed(before, false) + [Shown(arg, redact)] + Scrubbed(after, Announces(arg, redact))
  {
    hide Scrubbed, Flagged, Shown, Announces;
    ScrubbedAppend(before, [arg] + after, false);
    ScrubbedCons(arg, after, Flagged(before, false));
    assert before + [arg] + after == before + ([arg] + after);
  }

  /** A flag that holds a marker, and no equals sign, before which no flag is waiting for its value. */
  lemma MarkedFlag(flag: string)
    requires HoldsMarker(flag) && Free(flag, '=') && flag != [] && flag[0] == '-'
    ensures Shown(flag, false) == flag && Announces(flag, false)
  {
    SecretIff(flag);
    hide IsSecretName, HoldsMarker;
    SplitOnceNone(flag, '=');
  }

  /** A flag that holds a marker, and the argument after it: that value never reaches the output, unless
      the flag itself was taken for the value of a flag before it. */
  lemma FlagHides(before: seq<string>, flag: string, v: string, w: string, after: seq<string>)
    requires HoldsMarker(flag) && Free(flag, '=') && flag != [] && flag[0] == '-' && !Flagged(before, false)
    ensures Scrubbed(before + [flag, v] + after, false) == Scrubbed(before + [flag, w] + after, false)
    ensures var out := Scrubbed(before + [flag, v] + after, false);
      |out| == |before| + 2 + |after| && out[|before|] == flag && out[|before| + 1] == "<redacted>"
  {
    FlagShown(before, flag, v, after);
    FlagShown(before, flag, w, after);
    LengthKept(before, false);
    LengthKept(before + [flag, v] + after, false);
    hide HoldsMarker, Scrubbed, Flagged;
  }

  lemma FlagShown(before: seq<string>, flag: string, v: string, after: seq<string>)
    requires HoldsMarker(flag) && Free(flag, '=') && flag != [] && flag[0] == '-' && !Flagged(before, false)
    ensures Scrubbed(before + [flag, v] + after, false) == Scrubbed(before, false) + [flag, "<redacted>"] + Scrubbed(after, false)
  {
    hide HoldsMarker, IsSecretName, SecretAssignment, Flagged;
    MarkedFlag(flag);
    Between(before, flag, [v] + after);
    assert before + [flag, v] + after == before + [flag] + ([v] + after);
    ScrubbedStep([v] + after, 0, true);
    assert ([v] + after)[0..] == [v] + after && ([v] + after)[1..] == after;
    assert Scrubbed(before, false) + [flag] + (["<redacted>"] + Scrubbed(after, false))
        == Scrubbed(before, false) + [flag, "<redacted>"] + Scrubbed(after, false);
  }

  /** In particular when nothing with a dash stands before the flag. */
  lemma FlagHidesPlainly(before: seq<string>, flag: string, v: string, w: string, after: seq<string>)
    requires HoldsMarker(flag) && Free(flag, '=') && flag != [] && flag[0] == '-'
    requires before == [] || before[|before| - 1] == [] || before[|before| - 1][0] != '-'
    ensures Scrubbed(before + [flag, v] + after, false) == Scrubbed(before + [flag, w] + after, false)
    ensures var out := Scrubbed(before + [flag, v] + after, false);
      |out| == |before| + 2 + |after| && out[|before|] == flag && out[|before| + 1] == "<redacted>"
  {
    if before != [] && Flagged(before, false) {
      FlaggedByDash(before, false);
    }
    FlagHides(before, flag, v, w, after);
    hide HoldsMarker, Scrubbed;
  }

  /** When the value after a secret flag stays hidden, whatever it is: exactly when the flag is not taken
      for a value itself. After another secret flag the value is shown. */
  lemma FlagHidesIff(before: seq<string>, flag: string, after: seq<string>)
    requires HoldsMarker(flag) && Free(flag, '=') && flag != [] && flag[0] == '-'
    ensures (forall v, w :: Scrubbed(before + [flag, v] + after, false) == Scrubbed(before + [flag, w] + after, false))
      <==> !Flagged(before, false)
  {
    if !Flagged(before, false) {
      forall v, w
        ensures Scrubbed(before + [flag, v] + after, false) == Scrubbed(before + [flag, w] + after, false)
      {
        FlagHides(before, flag, v, w, after);
      }
    } else {
      FlagSwallowed(before, flag, "a", after);
      FlagSwallowed(before, flag, "b", after);
      LengthKept(before, false);
      hide HoldsMarker, Scrubbed, Flagged, Shown, Announces;
      var x, y := Scrubbed(before + [flag, "a"] + after, false), Scrubbed(before + [flag, "b"] + after, false);
      assert x[|before| + 1] == "a" && y[|before| + 1] == "b";
    }
  }

  lemma FlagSwallowed(before: seq<string>, flag: string, v: string, after: seq<string>)
    requires Flagged(before, false) && v != [] && Free(v, '=')
    ensures Scrubbed(before + [flag, v] + after, false)
      == Scrubbed(before, false) + ["<redacted>", v] + Scrubbed(after, Announces(v, false))
  {
    Between(before, flag, [v] + after);
    SplitOnceNone(v, '=');
    hide IsSecretName, Flagged;
    assert before + [flag, v] + after == before + [flag] + ([v] + after);
    ScrubbedStep([v] + after, 0, false);
    assert ([v] + after)[0..] == [v] + after && ([v] + after)[1..] == after;
    assert Scrubbed(before, false) + ["<redacted>"] + ([v] + Scrubbed(after, Announces(v, false)))
        == Scrubbed(before, false) + ["<redacted>", v] + Scrubbed(after, Announces(v, false));
  }

  /** And nothing else is touched: an argument without a marker stays as it is, and so does what follows it. */
  lemma PlainKept(before: seq<string>, arg: string, after: seq<string>)
    requires !HoldsMarker(arg) && !Flagged(before, false)
    ensures Scrubbed(before + [arg] + after, false) == Scrubbed(before, false) + [arg] + Scrubbed(after, false)
  {
    Between(before, arg, after);
    PlainShown(arg);
    hide HoldsMarker, Flagged, Scrubbed, Shown, Announces;
  }

  lemma PlainShown(arg: string)
    requires !HoldsMarker(arg)
    ensures Shown(arg, false) == arg && !Announces(arg, false)
  {
    hide IsSecretName, HoldsMarker;
    SecretIff(arg);
    SplitOnceNone(arg, '=');
    if SplitOnce(arg, '=').Some? {
      var p := SplitOnce(arg, '=').value;
      SecretIff(p.0);
      MarkerGrows(p.0, ['='] + p.1);
      assert arg == p.0 + (['='] + p.1);
    }
  }

  lemma MarkerGrows(s: string, t: string)
    ensures HoldsMarker(s) ==> HoldsMarker(s + t)
  {
    hide Marks;
    if a, w, b :| s == a + w + b && Marks(w) {
      assert s + t == a + w + (b + t);
    }
  }

  // ---------------------------------------------------------------- the block form

  predicate Separates(c: char) {
    c == '\0' || c == ' '
  }

  /** Split at NULs and spaces. */
  function Fields(block: string): (fields: seq<string>)
    ensures |fields| > 0
  {
    if block == [] then [[]]
    else
      var rest := Fields(block[1..]);
      if Separates(block[0]) then [[]] + rest else [[block[0]] + rest[0]] + rest[1..]
  }

  function NonEmpty(fields: seq<string>): seq<string> {
    if fields == [] then [] else (if fields[0] == [] then [] else [fields[0]]) + NonEmpty(fields[1..])
  }

  function ScrubBlock(block: string): seq<string> {
    Scrubbed(NonEmpty(Fields(block)), false)
  }

  /** A text in which each argument is ended by the given character. */
  function Block(argv: seq<string>, ends: seq<char>): string
    requires |ends| == |argv|
  {
    if argv == [] then [] else argv[0] + [ends[0]] + Block(argv[1..], ends[1..])
  }

  lemma {:induction false} FieldsAt(arg: string, end: char, block: string)
    requires end == '\0' || end == ' '
    requires forall i :: 0 <= i < |arg| ==> arg[i] != '\0' && arg[i] != ' '
    ensures Fields(arg + [end] + block) == [arg] + Fields(block)
  {
    var s := arg + [end] + block;
    if arg == [] {
      assert s[1..] == block;
    } else {
      FieldsAt(arg[1..], end, block);
      assert s[1..] == arg[1..] + [end] + block;
      assert [arg[0]] + arg[1..] == arg;
    }
  }

  /** Non-empty arguments without NULs and spaces, each ended by a NUL, as the kernel keeps them, or by a
      space: the text scrubs as the command line does. */
  lemma {:induction false} BlockScrubs(argv: seq<string>, ends: seq<char>)
    requires |ends| == |argv| && forall i :: 0 <= i < |ends| ==> ends[i] == '\0' || ends[i] == ' '
    requires forall i :: 0 <= i < |argv| ==>
      argv[i] != [] && forall j :: 0 <= j < |argv[i]| ==> argv[i][j] != '\0' && argv[i][j] != ' '
    ensures NonEmpty(Fields(Block(argv, ends))) == argv
    ensures ScrubBlock(Block(argv, ends)) == Scrubbed(argv, false)
  {
    hide Scrubbed;
    if argv != [] {
      FieldsAt(argv[0], ends[0], Block(argv[1..], ends[1..]));
      BlockScrubs(argv[1..], ends[1..]);
      var fields := Fields(Block(argv, ends));
      assert fields[1..] == Fields(Block(argv[1..], ends[1..]));
      assert argv == [argv[0]] + argv[1..];
    }
  }
}
