/** Package verification on files as dpkg writes them: what the lists and checksum files of
    /var/lib/dpkg/info say, and what crates/blankres-collect/src/pkg.rs makes of it. */
module ShippedPackages {
  import opened Base
  import opened Text
  import opened Ordering
  import opened Packages

  // ---------------------------------------------------------------- plain paths

  predicate CleanPiece(piece: string) {
    piece != "" && piece != "." && piece != ".."
  }

  /** A relative path spelled plainly: names between single slashes, on one line, with no space around it. */
  predicate CleanPath(rel: string) {
    && Trimmed(rel) && Free(rel, '\n')
    && forall i :: 0 <= i < |SplitAll(rel, '/')| ==> CleanPiece(SplitAll(rel, '/')[i])
  }

  function Normals(pieces: seq<string>): Key {
    seq(|pieces|, i requires 0 <= i < |pieces| => Normal(pieces[i]))
  }

  lemma {:induction false} InnerNormals(pieces: seq<string>)
    requires forall i :: 0 <= i < |pieces| ==> CleanPiece(pieces[i])
    ensures Inner(pieces) == Normals(pieces)
  {
    if pieces != [] {
      InnerNormals(pieces[1..]);
      assert CleanPiece(pieces[0]);
      assert Normals(pieces) == [Normal(pieces[0])] + Normals(pieces[1..]);
    }
  }

  /** What a plain absolute path denotes: the root and its names in order. */
  lemma PathIs(rel: string)
    requires CleanPath(rel)
    ensures Components("/" + rel) == [RootDir] + Normals(SplitAll(rel, '/'))
  {
    SplitAllAt([], rel, '/');
    assert [] + ['/'] + rel == "/" + rel;
    InnerNormals(SplitAll(rel, '/'));
    hide CleanPath;
    assert ([[]] + SplitAll(rel, '/'))[1..] == SplitAll(rel, '/');
    assert Inner([[]] + SplitAll(rel, '/')) == Inner(SplitAll(rel, '/'));
  }

  /** Plain paths denote the same only if they are the same. */
  lemma PathsDiffer(a: string, b: string)
    requires CleanPath(a) && CleanPath(b) && Components("/" + a) == Components("/" + b)
    ensures a == b
  {
    PathIs(a);
    PathIs(b);
    JoinSplit(a, '/');
    JoinSplit(b, '/');
    var x, y := SplitAll(a, '/'), SplitAll(b, '/');
    hide CleanPath, Components, SplitAll, Join;
    assert Normals(x) == ([RootDir] + Normals(x))[1..] == ([RootDir] + Normals(y))[1..] == Normals(y);
    assert |x| == |Normals(x)| == |Normals(y)| == |y|;
    forall i | 0 <= i < |x|
      ensures x[i] == y[i]
    {
      assert Normals(x)[i] == Normal(x[i]) && Normals(y)[i] == Normal(y[i]);
    }
    assert x == y;
  }

  /** What one piece between slashes adds: nothing when it is empty or a dot, else a component. */
  function Adds(piece: string): Key {
    if piece == "" || piece == "." then [] else [if piece == ".." then ParentDir else Normal(piece)]
  }

  lemma InnerCons(piece: string, rest: seq<string>)
    ensures Inner([piece] + rest) == Adds(piece) + Inner(rest)
  {
    assert ([piece] + rest)[1..] == rest;
  }

  lemma {:induction false} InnerAppend(a: seq<string>, b: seq<string>)
    ensures Inner(a + b) == Inner(a) + Inner(b)
  {
    hide Inner, Adds;
    if a == [] {
      assert a + b == b;
      InnerNil();
    } else {
      InnerAppend(a[1..], b);
      InnerCons(a[0], a[1..]);
      InnerCons(a[0], a[1..] + b);
      assert a == [a[0]] + a[1..];
      Regroup(a[0], a[1..], b);
      assert Adds(a[0]) + (Inner(a[1..]) + Inner(b)) == (Adds(a[0]) + Inner(a[1..])) + Inner(b);
    }
  }

  lemma InnerNil()
    ensures Inner([]) == []
  {
  }

  /** A piece that grows at its front. */
  function Grown(x: char, pieces: seq<string>): seq<string>
    requires pieces != []
  {
    [[x] + pieces[0]] + pieces[1..]
  }

  lemma SplitAllCons(x: char, s: string, c: char)
    ensures SplitAll([x] + s, c) == if x == c then [[]] + SplitAll(s, c) else Grown(x, SplitAll(s, c))
  {
    assert ([x] + s)[1..] == s;
  }

  lemma GrownAppend(x: char, a: seq<string>, b: seq<string>)
    requires a != []
    ensures Grown(x, a + b) == Grown(x, a) + b
  {
    assert (a + b)[1..] == a[1..] + b;
  }

  lemma SplitAllNil(c: char)
    ensures SplitAll([], c) == [[]]
  {
  }

  lemma {:induction false} SplitAllConcat(a: string, b: string, c: char)
    ensures SplitAll(a + ([c] + b), c) == SplitAll(a, c) + SplitAll(b, c)
  {
    hide SplitAll, Grown;
    SplitAllCons(c, b, c);
    if a == [] {
      SplitAllNil(c);
      assert a + ([c] + b) == [c] + b;
    } else {
      var x, rest := a[0], a[1..];
      SplitAllConcat(rest, b, c);
      SplitAllCons(x, rest, c);
      SplitAllCons(x, rest + ([c] + b), c);
      GrownAppend(x, SplitAll(rest, c), SplitAll(b, c));
      assert a == [x] + rest;
      Regroup(x, rest, [c] + b);
      Regroup([], SplitAll(rest, c), SplitAll(b, c));
    }
  }

  lemma Regroup<T>(x: T, a: seq<T>, b: seq<T>)
    ensures [x] + (a + b) == ([x] + a) + b
  {
  }

  /** What comes after a slash adds its own components. */
  lemma Below(a: string, b: string)
    requires a != []
    ensures Components(a + "/" + b) == Components(a) + Inner(SplitAll(b, '/'))
  {
    SplitAllConcat(a, b, '/');
    hide Inner, SplitAll;
    assert a + "/" + b == a + (['/'] + b);
    var x, y := SplitAll(a, '/'), SplitAll(b, '/');
    InnerAppend(x, y);
    assert (x + y)[0] == x[0];
    Regroup(RootDir, Inner(x), Inner(y));
    Regroup(CurDir, Inner(x), Inner(y));
  }

  /** A piece between two slashes. */
  lemma Piece(a: string, piece: string, b: string)
    requires a != [] && Free(piece, '/')
    ensures Components(a + "/" + piece + "/" + b) == Components(a) + Adds(piece) + Inner(SplitAll(b, '/'))
    ensures piece == "" || piece == "." ==> Components(a + "/" + piece + "/" + b) == Components(a + "/" + b)
  {
    hide Components, SplitAll, Inner;
    SplitAllFree(piece, '/');
    OnePiece(piece);
    Below(a, b);
    Below(a, piece);
    var p := a + "/" + piece;
    assert p[0] == a[0];
    Below(p, b);
    var x, y := Components(a), Inner(SplitAll(b, '/'));
    assert x + [] + y == x + y;
  }

  lemma OnePiece(piece: string)
    ensures Inner([piece]) == Adds(piece)
  {
    assert [piece][1..] == [];
  }

  /** A dot at the front is a component of its own. */
  lemma LeadingDot(rel: string)
    requires CleanPath(rel)
    ensures Components("." + "/" + rel) == [CurDir] + Normals(SplitAll(rel, '/'))
    ensures Components(rel) == Normals(SplitAll(rel, '/'))
  {
    RelativeIs(rel);
    InnerNormals(SplitAll(rel, '/'));
    Below(".", rel);
    JustDot();
    hide Components, SplitAll, Inner, CleanPath, Normals;
  }

  lemma JustDot()
    ensures Components(".") == [CurDir]
  {
    SplitAllFree(".", '/');
    OnePiece(".");
  }

  lemma RelativeIs(rel: string)
    requires CleanPath(rel)
    ensures Components(rel) == Inner(SplitAll(rel, '/'))
  {
    JoinSplit(rel, '/');
    var pieces := SplitAll(rel, '/');
    assert CleanPiece(pieces[0]) && Free(pieces[0], '/');
    hide SplitAll;
  }

  /** The order of two plain paths: where they part, the shorter name or the name that comes first. */
  lemma {:induction false} NormalsOrder(a: seq<string>, b: seq<string>)
    ensures KeyOrder()(Normals(a), Normals(b)) <==>
      b != [] && (a == [] || StrLt(a[0], b[0]) || (a[0] == b[0] && KeyOrder()(Normals(a[1..]), Normals(b[1..]))))
  {
    hide StrLt;
    if a != [] && b != [] {
      assert Normals(a)[1..] == Normals(a[1..]) && Normals(b)[1..] == Normals(b[1..]);
    }
  }

  /** Of unequal kinds, the root comes first, then one dot, two dots, and names last. */
  lemma KindsOrder(name: string)
    ensures ComponentLt(RootDir, CurDir) && ComponentLt(CurDir, ParentDir) && ComponentLt(ParentDir, Normal(name))
  {
  }

  // ---------------------------------------------------------------- checksum files

  /** A line of a checksum file. */
  datatype Sum = Sum(digest: string, rel: string)

  predicate CleanSum(s: Sum) {
    !Contains(s.digest + " ", "  ") && Free(s.digest, '\n') && CleanPath(s.rel)
  }

  function SumLine(s: Sum): string {
    s.digest + "  " + s.rel
  }

  function SumLines(sums: seq<Sum>): seq<string> {
    seq(|sums|, i requires 0 <= i < |sums| => SumLine(sums[i]))
  }

  /** The line is cut where the digest ends. */
  lemma {:induction false} DoubleAt(digest: string, rel: string)
    requires !Contains(digest + " ", "  ")
    ensures SplitDouble(digest + "  " + rel) == Some((digest, rel))
  {
    var s := digest + "  " + rel;
    if digest == [] {
      assert s == "  " + rel;
    } else {
      assert (digest + " ")[1..] == digest[1..] + " " && s[1..] == digest[1..] + "  " + rel;
      DoubleAt(digest[1..], rel);
      assert !("  " <= digest + " ");
      assert s[0] == (digest + " ")[0] && s[1] == (digest + " ")[1];
      assert [digest[0]] + digest[1..] == digest;
    }
  }

  lemma CleanHead(rel: string)
    requires CleanPath(rel)
    ensures rel != [] && rel != "." && Trim(rel) == rel
  {
    var pieces := SplitAll(rel, '/');
    JoinSplit(rel, '/');
    assert CleanPiece(pieces[0]);
    TrimOf([], rel, []);
    assert [] + rel + [] == rel;
    hide SplitAll, Trim;
  }

  lemma SumLineReads(s: Sum)
    requires CleanSum(s)
    ensures SumEntry(SumLine(s)) == [Entry(Components("/" + s.rel), s.digest)]
    ensures CleanLine(SumLine(s))
  {
    DoubleAt(s.digest, s.rel);
    CleanHead(s.rel);
    hide Components, Contains, SplitDouble, Trim;
    var line := SumLine(s);
    assert line[|line| - 1] == s.rel[|s.rel| - 1];
  }

  lemma {:induction false} SumEntriesAre(sums: seq<Sum>)
    requires forall i :: 0 <= i < |sums| ==> CleanSum(sums[i])
    ensures var entries := SumEntries(SumLines(sums));
      && |entries| == |sums|
      && forall i :: 0 <= i < |sums| ==> entries[i] == Entry(Components("/" + sums[i].rel), sums[i].digest)
  {
    hide CleanSum, Components, SumEntry, SumLine;
    if sums != [] {
      var n := |sums| - 1;
      SumEntriesAre(sums[..n]);
      SumLineReads(sums[n]);
      assert SumLines(sums)[..n] == SumLines(sums[..n]);
    }
  }

  /** The checksum file of the package, under the plain name or else the one with the architecture. */
  ghost function SumFile(w: World, package: string): Option<string> {
    if w.text(package + ".md5sums").Some? then w.text(package + ".md5sums") else w.text(package + ":amd64.md5sums")
  }

  /** These are the checksums on file; a package without such a file has none. */
  ghost predicate SumsWritten(w: World, package: string, sums: seq<Sum>) {
    && (forall i :: 0 <= i < |sums| ==> CleanSum(sums[i]))
    && (SumFile(w, package) == Some(Unlines(SumLines(sums))) || (SumFile(w, package).None? && sums == []))
  }

  /** The last line for that path. */
  ghost predicate LastSum(sums: seq<Sum>, rel: string, digest: string) {
    exists j :: 0 <= j < |sums| && sums[j] == Sum(digest, rel) && forall k :: j < k < |sums| ==> sums[k].rel != rel
  }

  lemma SumTextIs(w: World, package: string, sums: seq<Sum>)
    requires SumsWritten(w, package, sums)
    ensures SumText(w, package).Some? ==> Lines(SumText(w, package).value) == SumLines(sums)
    ensures SumText(w, package).None? ==> sums == []
  {
    forall i | 0 <= i < |sums|
      ensures CleanLine(SumLines(sums)[i])
    {
      SumLineReads(sums[i]);
    }
    LinesUnlines(SumLines(sums));
    hide CleanSum, SumLine, Lines, Unlines;
  }

  /** The digest a package records for a path is the one on the last line of its checksum file for that
      path, and there is none when no line is. */
  lemma RecordedWritten(w: World, package: string, sums: seq<Sum>, rel: string)
    requires SumsWritten(w, package, sums) && CleanPath(rel)
    ensures forall digest :: Recorded(w, package, Components("/" + rel)) == Some(digest) <==> LastSum(sums, rel, digest)
  {
    SumTextIs(w, package, sums);
    SumEntriesAre(sums);
    forall i | 0 <= i < |sums|
      ensures Components("/" + sums[i].rel) == Components("/" + rel) <==> sums[i].rel == rel
    {
      if Components("/" + sums[i].rel) == Components("/" + rel) {
        PathsDiffer(sums[i].rel, rel);
      }
    }
    LastOf(sums, SumEntries(SumLines(sums)), rel);
    hide SumsWritten, CleanPath, Components, SumLine, SumEntries, LastFor, LastSum, SumText;
  }

  lemma {:induction false} LastOf(sums: seq<Sum>, entries: seq<Entry<string>>, rel: string)
    requires |entries| == |sums|
    requires forall i :: 0 <= i < |sums| ==> entries[i] == Entry(Components("/" + sums[i].rel), sums[i].digest)
    requires forall i :: 0 <= i < |sums| ==> (Components("/" + sums[i].rel) == Components("/" + rel) <==> sums[i].rel == rel)
    ensures forall digest :: LastFor(entries, Components("/" + rel)) == Some(digest) <==> LastSum(sums, rel, digest)
  {
    hide Components;
    var key := Components("/" + rel);
    if sums == [] {
    } else if sums[|sums| - 1].rel == rel {
      var n := |sums| - 1;
      assert LastFor(entries, key) == Some(sums[n].digest);
      forall digest
        ensures LastSum(sums, rel, digest) <==> digest == sums[n].digest
      {
        if digest == sums[n].digest {
          assert sums[n] == Sum(digest, rel);
        }
      }
    } else {
      var n := |sums| - 1;
      LastOf(sums[..n], entries[..n], rel);
      forall digest
        ensures LastSum(sums, rel, digest) <==> LastSum(sums[..n], rel, digest)
      {
        if j :| 0 <= j < |sums| && sums[j] == Sum(digest, rel) && forall k :: j < k < |sums| ==> sums[k].rel != rel {
          assert sums[..n][j] == Sum(digest, rel);
        }
        if j :| 0 <= j < n && sums[..n][j] == Sum(digest, rel) && forall k :: j < k < n ==> sums[..n][k].rel != rel {
          assert sums[j] == Sum(digest, rel);
          assert forall k :: j < k < |sums| ==> k == n || sums[k] == sums[..n][k];
        }
      }
    }
  }

  // ---------------------------------------------------------------- list files

  /** A package as it is installed: its name, the architecture in the name of its list file (with the colon,
      or nothing), the files it owns, and its checksums. */
  datatype Package = Package(name: string, arch: string, files: seq<string>, sums: seq<Sum>)

  predicate CleanPackage(p: Package) {
    && Free(p.name, ':') && (p.arch == "" || p.arch[0] == ':')
    && forall i :: 0 <= i < |p.files| ==> CleanPath(p.files[i])
  }

  function ListName(p: Package): string {
    p.name + p.arch + ".list"
  }

  /** The list file begins with the root itself, which is no path of the package. */
  function ListLines(p: Package): seq<string> {
    ["/."] + seq(|p.files|, i requires 0 <= i < |p.files| => "/" + p.files[i])
  }

  /** The list files of the packages are the only ones that can be read, and their checksum files are there. */
  ghost predicate Installed(w: World, packages: seq<Package>) {
    && (forall i :: 0 <= i < |packages| ==>
          && CleanPackage(packages[i]) && SumsWritten(w, packages[i].name, packages[i].sums)
          && ListName(packages[i]) in w.names && w.text(ListName(packages[i])) == Some(Unlines(ListLines(packages[i]))))
    && (forall name :: name in w.names && ".list" <= Ending(name) && w.text(name).Some? ==>
          exists i :: 0 <= i < |packages| && name == ListName(packages[i]))
  }

  /** The last five characters. */
  function Ending(name: string): string {
    if |name| < 5 then name else name[|name| - 5..]
  }

  lemma ListPackageIs(p: Package)
    requires CleanPackage(p)
    ensures ListPackage(ListName(p)) == Some(p.name)
  {
    var name := ListName(p);
    var stem := p.name + p.arch;
    assert name[|stem|..] == ".list" && name[..|stem|] == stem;
    if p.arch == "" {
      assert stem == p.name;
      SplitOnceNone(p.name, ':');
    } else {
      SplitOnceAt(p.name, p.arch[1..], ':');
      assert stem == p.name + [':'] + p.arch[1..];
    }
  }

  lemma {:induction false} LineEntriesAre(lines: seq<string>, package: string, e: Entry<string>)
    ensures e in LineEntries(lines, package) <==> exists i :: 0 <= i < |lines| && e in LineEntry(lines[i], package)
  {
    hide LineEntry;
    if lines != [] {
      var n := |lines| - 1;
      LineEntriesAre(lines[..n], package, e);
      if i :| 0 <= i < n && e in LineEntry(lines[..n][i], package) {
        assert e in LineEntry(lines[i], package);
      }
      if i :| 0 <= i < |lines| && e in LineEntry(lines[i], package) {
        assert i < n ==> e in LineEntry(lines[..n][i], package);
      }
    }
  }

  lemma {:induction false} ListEntriesAre(w: World, names: seq<string>, e: Entry<string>)
    ensures e in ListEntries(w, names) <==> exists i :: 0 <= i < |names| && e in FileEntries(w, names[i])
  {
    hide FileEntries;
    if names != [] {
      var n := |names| - 1;
      ListEntriesAre(w, names[..n], e);
      if i :| 0 <= i < n && e in FileEntries(w, names[..n][i]) {
        assert e in FileEntries(w, names[i]);
      }
      if i :| 0 <= i < |names| && e in FileEntries(w, names[i]) {
        assert i < n ==> e in FileEntries(w, names[..n][i]);
      }
    }
  }

  lemma FileLine(rel: string, package: string)
    requires CleanPath(rel)
    ensures LineEntry("/" + rel, package) == [Entry(Components("/" + rel), package)] && CleanLine("/" + rel)
  {
    CleanHead(rel);
    var line := "/" + rel;
    assert line[|line| - 1] == rel[|rel| - 1] && line[0] == '/' && Trimmed(line);
    TrimOf([], line, []);
    assert [] + line + [] == line;
    assert line[1..] == rel && "/."[1..] == ".";
    hide Trim, Components, CleanPath;
  }

  lemma RootLine(package: string)
    ensures LineEntry("/.", package) == [] && CleanLine("/.")
  {
    TrimOf([], "/.", []);
    assert [] + "/." + [] == "/.";
    hide Trim;
  }

  lemma ListLineIs(p: Package, i: nat)
    requires CleanPackage(p) && i < |ListLines(p)|
    ensures CleanLine(ListLines(p)[i])
    ensures i == 0 ==> LineEntry(ListLines(p)[i], p.name) == []
    ensures i > 0 ==> LineEntry(ListLines(p)[i], p.name) == [Entry(Components("/" + p.files[i - 1]), p.name)]
  {
    if i == 0 {
      RootLine(p.name);
    } else {
      FileLine(p.files[i - 1], p.name);
      hide LineEntry, Components, CleanPath;
    }
  }

  lemma FileEntriesIs(w: World, p: Package)
    requires CleanPackage(p) && w.text(ListName(p)) == Some(Unlines(ListLines(p)))
    ensures FileEntries(w, ListName(p)) == LineEntries(ListLines(p), p.name)
  {
    ListPackageIs(p);
    forall i | 0 <= i < |ListLines(p)|
      ensures CleanLine(ListLines(p)[i])
    {
      ListLineIs(p, i);
    }
    LinesUnlines(ListLines(p));
    hide CleanPath, Lines, Unlines, ListPackage, ListLines, LineEntries;
  }

  lemma ListFileIs(w: World, p: Package, e: Entry<string>)
    requires CleanPackage(p) && w.text(ListName(p)) == Some(Unlines(ListLines(p)))
    ensures e in FileEntries(w, ListName(p)) <==>
      exists i :: 0 <= i < |p.files| && e == Entry(Components("/" + p.files[i]), p.name)
  {
    FileEntriesIs(w, p);
    var lines := ListLines(p);
    LineEntriesAre(lines, p.name, e);
    assert |lines| == |p.files| + 1;
    hide CleanPackage, Components, LineEntry, LineEntries, FileEntries, Unlines, ListLines, ListName;
    if e in FileEntries(w, ListName(p)) {
      var i :| 0 <= i < |lines| && e in LineEntry(lines[i], p.name);
      ListLineIs(p, i);
      assert e == Entry(Components("/" + p.files[i - 1]), p.name);
    }
    if i :| 0 <= i < |p.files| && e == Entry(Components("/" + p.files[i]), p.name) {
      ListLineIs(p, i + 1);
      assert e in LineEntry(lines[i + 1], p.name);
    }
  }

  /** A file that no other package claims. */
  ghost predicate Claims(packages: seq<Package>, name: string, rel: string) {
    && (exists i :: 0 <= i < |packages| && packages[i].name == name && rel in packages[i].files)
    && (forall i :: 0 <= i < |packages| && rel in packages[i].files ==> packages[i].name == name)
  }

  ghost predicate Unclaimed(packages: seq<Package>, rel: string) {
    forall i :: 0 <= i < |packages| ==> rel !in packages[i].files
  }

  lemma ListingHas(w: World, name: string)
    ensures name in Listing(w) <==> name in w.names
  {
    StrTotal();
    TotalIsWeak(NameOrder());
    SortSorts(NameOrder(), w.names);
    hide Sort;
    assert name in Listing(w) <==> name in multiset(Listing(w));
    assert name in w.names <==> name in multiset(w.names);
  }

  lemma ListPackageEnds(name: string)
    ensures ListPackage(name).Some? <==> ".list" <= Ending(name)
  {
    var n := |name| - 5;
    if ".list" <= Ending(name) {
      assert |Ending(name)| == 5;
      assert name[n..] == ".list";
    }
  }

  /** Line `j` of package `i` is that entry. */
  predicate LineOf(packages: seq<Package>, i: int, j: int, e: Entry<string>) {
    && 0 <= i < |packages| && 0 <= j < |packages[i].files|
    && e == Entry(Components("/" + packages[i].files[j]), packages[i].name)
  }

  /** What the lists say about a path, over all packages. */
  lemma EntriesInstalled(w: World, packages: seq<Package>, e: Entry<string>)
    requires Installed(w, packages)
    ensures e in ListEntries(w, Listing(w)) <==> exists i, j :: LineOf(packages, i, j, e)
  {
    var names := Listing(w);
    ListEntriesAre(w, names, e);
    hide Listing, SumsWritten, CleanPackage, Components, FileEntries, ListEntries, ListLines, Unlines;
    if e in ListEntries(w, names) {
      var n :| 0 <= n < |names| && e in FileEntries(w, names[n]);
      ReadableList(w, names[n], e);
      ListingHas(w, names[n]);
      var i :| 0 <= i < |packages| && names[n] == ListName(packages[i]);
      ListFileIs(w, packages[i], e);
      var j :| 0 <= j < |packages[i].files| && e == Entry(Components("/" + packages[i].files[j]), packages[i].name);
      assert LineOf(packages, i, j, e);
    }
    if i, j :| LineOf(packages, i, j, e) {
      ListingHas(w, ListName(packages[i]));
      ListFileIs(w, packages[i], e);
      var n :| 0 <= n < |names| && names[n] == ListName(packages[i]);
      assert e in FileEntries(w, names[n]);
    }
  }

  lemma ReadableList(w: World, name: string, e: Entry<string>)
    requires e in FileEntries(w, name)
    ensures ".list" <= Ending(name) && w.text(name).Some?
  {
    ListPackageEnds(name);
    hide ListPackage, LineEntries, Lines;
  }

  lemma {:induction false} LastForOnly(entries: seq<Entry<string>>, key: Key, value: string)
    requires forall e :: e in entries && e.key == key ==> e.value == value
    ensures LastFor(entries, key) == if Entry(key, value) in entries then Some(value) else None
  {
    if entries != [] {
      var n := |entries| - 1;
      LastForOnly(entries[..n], key, value);
      assert entries[n] in entries && forall e :: e in entries <==> e in entries[..n] || e == entries[n];
    }
  }

  /** The owner of a file is the package that lists it, and nobody when none does. */
  lemma OwnerInstalled(w: World, packages: seq<Package>, name: string, rel: string)
    requires Installed(w, packages) && CleanPath(rel)
    ensures Claims(packages, name, rel) ==> Owner(w, Components("/" + rel)) == Some(name)
    ensures Unclaimed(packages, rel) ==> Owner(w, Components("/" + rel)) == None
  {
    var key := Components("/" + rel);
    var entries := ListEntries(w, Listing(w));
    if Claims(packages, name, rel) || Unclaimed(packages, rel) {
      forall e | e in entries && e.key == key
        ensures Claims(packages, name, rel) && e.value == name
      {
        EntriesInstalled(w, packages, e);
        Listed(w, packages, e, rel);
      }
      LastForOnly(entries, key, name);
      EntriesInstalled(w, packages, Entry(key, name));
      hide Installed, CleanPath, Components, ListEntries, Listing, LastFor;
      if Claims(packages, name, rel) {
        var i :| 0 <= i < |packages| && packages[i].name == name && rel in packages[i].files;
        var j :| 0 <= j < |packages[i].files| && packages[i].files[j] == rel;
        assert LineOf(packages, i, j, Entry(key, name));
      }
    }
  }

  /** An entry for a plain path is a line for that very path. */
  lemma Listed(w: World, packages: seq<Package>, e: Entry<string>, rel: string)
    requires Installed(w, packages) && CleanPath(rel) && e.key == Components("/" + rel)
    requires exists i, j :: LineOf(packages, i, j, e)
    ensures exists i :: 0 <= i < |packages| && rel in packages[i].files && e.value == packages[i].name
  {
    var i, j :| LineOf(packages, i, j, e);
    assert CleanPackage(packages[i]);
    hide Installed, Components, CleanPath;
    PathsDiffer(packages[i].files[j], rel);
  }

  // ---------------------------------------------------------------- verification

  /** The package's last checksum for the file is not that of the bytes on disk. */
  ghost predicate Tampered(w: World, packages: seq<Package>, name: string, rel: string) {
    && Claims(packages, name, rel) && w.bytes("/" + rel).Some?
    && exists i, digest :: 0 <= i < |packages| && packages[i].name == name
         && LastSum(packages[i].sums, rel, digest) && w.md5(w.bytes("/" + rel).value) != digest
  }

  /** On an installed system, a file differs from its package exactly when it was tampered with. */
  lemma DiffersInstalled(w: World, packages: seq<Package>, owner: string, name: string, rel: string)
    requires Installed(w, packages) && CleanPath(rel)
    requires Claims(packages, owner, rel) || Unclaimed(packages, rel)
    ensures Differs(w, "/" + rel, name) <==> Tampered(w, packages, name, rel)
  {
    OwnerInstalled(w, packages, owner, rel);
    OwnerInstalled(w, packages, name, rel);
    hide Owner, Components, CleanPath;
    if Claims(packages, name, rel) {
      var i :| 0 <= i < |packages| && packages[i].name == name && rel in packages[i].files;
      forall k | 0 <= k < |packages| && packages[k].name == name
        ensures forall digest ::
          Recorded(w, name, Components("/" + rel)) == Some(digest) <==> LastSum(packages[k].sums, rel, digest)
      {
        RecordedWritten(w, name, packages[k].sums, rel);
      }
      hide Installed, Recorded, LastSum;
    } else {
      hide Installed, Recorded;
      assert Claims(packages, owner, rel) ==> owner != name;
    }
  }

  /** Whatever verification finds, for paths given as plain absolute ones: a file that one package claims is
      reported for that package, once for every time it was given, exactly when it was tampered with; it is
      reported for no other, and a file that no package claims is not reported at all. */
  lemma VerifyInstalled(w: World, packages: seq<Package>, paths: seq<string>, modified: seq<ModifiedFile>,
                        owner: string, name: string, rel: string)
    requires Installed(w, packages) && Verified(w, paths, modified) && CleanPath(rel)
    requires Claims(packages, owner, rel) || Unclaimed(packages, rel)
    ensures multiset(modified)[ModifiedFile("/" + rel, name)]
      == if Tampered(w, packages, name, rel) then multiset(paths)["/" + rel] else 0
  {
    DiffersInstalled(w, packages, owner, name, rel);
    hide Installed, CleanPath, Claims, Unclaimed, Tampered, Differs;
  }
}
