/** Which package owns a path, and which of the given files differ from what the package recorded.
    crates/blankres-collect/src/pkg.rs. */
module Packages {
  import opened Base
  import opened Text
  import opened Ordering
  import opened Stability

  // ---------------------------------------------------------------- paths

  /** A path component, in the order of the constructors. */
  datatype Component = RootDir | CurDir | ParentDir | Normal(name: string)

  type Key = seq<Component>

  function Rank(c: Component): nat {
    match c case RootDir => 0 case CurDir => 1 case ParentDir => 2 case Normal(_) => 3
  }

  predicate ComponentLt(a: Component, b: Component) {
    Rank(a) < Rank(b) || (a.Normal? && b.Normal? && StrLt(a.name, b.name))
  }

  function ComponentOrder(): (Component, Component) -> bool {
    (a, b) => ComponentLt(a, b)
  }

  /** Empty pieces and dots carry nothing. */
  function Inner(pieces: seq<string>): Key {
    if pieces == [] then []
    else if pieces[0] == "" || pieces[0] == "." then Inner(pieces[1..])
    else [if pieces[0] == ".." then ParentDir else Normal(pieces[0])] + Inner(pieces[1..])
  }

  /** What a spelling of a path denotes: equality, hashing and order all go by this. */
  function Components(path: string): Key {
    var pieces := SplitAll(path, '/');
    if path != [] && path[0] == '/' then [RootDir] + Inner(pieces)
    else if pieces[0] == "." then [CurDir] + Inner(pieces)
    else Inner(pieces)
  }

  function KeyOrder(): (Key, Key) -> bool {
    Lex(ComponentOrder())
  }

  lemma KeyOrderTotal()
    ensures StrictTotal(KeyOrder())
  {
    StrTotal();
    assert StrictTotal(ComponentOrder()) by {
      hide StrLt;
      assert forall a, b :: ComponentOrder()(a, b) <==> ComponentLt(a, b);
      forall a, b | a != b
        ensures ComponentLt(a, b) || ComponentLt(b, a)
      {
        assert Rank(a) == Rank(b) ==> a.Normal? && b.Normal? && a.name != b.name;
      }
    }
    LexStrictTotal(ComponentOrder());
  }

  // ---------------------------------------------------------------- the last entry for a key

  datatype Entry<V> = Entry(key: Key, value: V)

  /** The value of the last entry for the key. */
  function LastFor<V>(entries: seq<Entry<V>>, key: Key): Option<V> {
    if entries == [] then None
    else if entries[|entries| - 1].key == key then Some(entries[|entries| - 1].value)
    else LastFor(entries[..|entries| - 1], key)
  }

  lemma {:induction false} LastForIs<V>(entries: seq<Entry<V>>, key: Key, i: nat)
    requires i < |entries| && entries[i].key == key
    requires forall j :: i < j < |entries| ==> entries[j].key != key
    ensures LastFor(entries, key) == Some(entries[i].value)
  {
    if i < |entries| - 1 {
      LastForIs(entries[..|entries| - 1], key, i);
    }
  }

  lemma {:induction false} LastForNone<V>(entries: seq<Entry<V>>, key: Key)
    requires forall j :: 0 <= j < |entries| ==> entries[j].key != key
    ensures LastFor(entries, key) == None
  {
    if entries != [] {
      LastForNone(entries[..|entries| - 1], key);
    }
  }

  function Lookup<V>(m: map<Key, V>, key: Key): Option<V> {
    if key in m then Some(m[key]) else None
  }

  /** The map holds exactly the last entry for every key. */
  ghost predicate Holds<V(!new)>(m: map<Key, V>, entries: seq<Entry<V>>) {
    forall key :: Lookup(m, key) == LastFor(entries, key)
  }

  lemma HoldsPut<V(!new)>(m: map<Key, V>, entries: seq<Entry<V>>, e: Entry<V>)
    requires Holds(m, entries)
    ensures Holds(m[e.key := e.value], entries + [e])
  {
    forall key
      ensures Lookup(m[e.key := e.value], key) == LastFor(entries + [e], key)
    {
      assert (entries + [e])[..|entries|] == entries;
      assert Lookup(m, key) == LastFor(entries, key);
    }
  }

  // ---------------------------------------------------------------- the package database

  /** What the file system holds: the names under the info directory, the text of each of those files
      and the bytes of every other file (absent when unreadable), and the digest in use. */
  datatype World = World(
    names: seq<string>,
    text: string -> Option<string>,
    bytes: string -> Option<Bytes>,
    md5: Bytes -> string)

  const LIST_SUFFIX := ".list"

  /** The package a list file belongs to. */
  function ListPackage(name: string): Option<string> {
    var n := |name| - |LIST_SUFFIX|;
    if n >= 0 && name[n..] == LIST_SUFFIX then Some(Before(name[..n], ':')) else None
  }

  function LineEntry(line: string, package: string): seq<Entry<string>> {
    var path := Trim(line);
    if path == "" || path == "/." then [] else [Entry(Components(path), package)]
  }

  function LineEntries(lines: seq<string>, package: string): seq<Entry<string>> {
    if lines == [] then []
    else LineEntries(lines[..|lines| - 1], package) + LineEntry(lines[|lines| - 1], package)
  }

  /** The paths one list file names. */
  function FileEntries(w: World, name: string): seq<Entry<string>> {
    match ListPackage(name)
    case None => []
    case Some(package) =>
      match w.text(name)
      case None => []
      case Some(text) => LineEntries(Lines(text), package)
  }

  /** Every line of every list file, in reading order. */
  function ListEntries(w: World, names: seq<string>): seq<Entry<string>> {
    if names == [] then []
    else ListEntries(w, names[..|names| - 1]) + FileEntries(w, names[|names| - 1])
  }

  function NameOrder(): (string, string) -> bool {
    Lex(CharLt())
  }

  /** The directory listing is read in name order. */
  function Listing(w: World): seq<string> {
    Sort(NameOrder(), w.names)
  }

  /** The owner of a path: the package of the last list line that names it. */
  function Owner(w: World, key: Key): Option<string> {
    LastFor(ListEntries(w, Listing(w)), key)
  }

  lemma HoldsNothing<V(!new)>()
    ensures Holds<V>(map[], [])
  {
  }

  lemma HoldsEverywhere<V(!new)>(m: map<Key, V>, entries: seq<Entry<V>>)
    requires Holds(m, entries)
    ensures forall key :: Lookup(m, key) == LastFor(entries, key)
  {
  }

  lemma LinesGrow(before: seq<Entry<string>>, lines: seq<string>, j: nat, package: string)
    requires j < |lines|
    ensures before + LineEntries(lines[..j + 1], package)
      == (before + LineEntries(lines[..j], package)) + LineEntry(lines[j], package)
  {
    hide LineEntry;
    assert lines[..j + 1][..j] == lines[..j];
  }

  lemma FilesGrow(w: World, names: seq<string>, i: nat)
    requires i < |names|
    ensures ListEntries(w, names[..i + 1]) == ListEntries(w, names[..i]) + FileEntries(w, names[i])
  {
    assert names[..i + 1][..i] == names[..i];
  }

  /** The index, built by reading every list file once. */
  method Build(w: World) returns (paths: map<Key, string>)
    ensures forall key :: Lookup(paths, key) == Owner(w, key)
  {
    HoldsNothing<string>();
    paths := map[];
    var names := Listing(w);
    assert ListEntries(w, names[..0]) == [];
    hide Trim, Lines, Components, Sort, Lookup, Holds, LastFor, ListPackage, ListEntries;
    for i := 0 to |names|
      invariant Holds(paths, ListEntries(w, names[..i]))
    {
      ghost var before := ListEntries(w, names[..i]);
      FilesGrow(w, names, i);
      var package := ListPackage(names[i]);
      var text := w.text(names[i]);
      if package.None? || text.None? {
        assert before + [] == before;
        continue;
      }
      var lines := Lines(text.value);
      assert before + LineEntries(lines[..0], package.value) == before;
      hide LineEntries;
      for j := 0 to |lines|
        invariant Holds(paths, before + LineEntries(lines[..j], package.value))
      {
        ghost var sofar := before + LineEntries(lines[..j], package.value);
        LinesGrow(before, lines, j, package.value);
        var line := Trim(lines[j]);
        if line == "" || line == "/." {
          assert sofar + [] == sofar;
          continue;
        }
        HoldsPut(paths, sofar, Entry(Components(line), package.value));
        paths := paths[Components(line) := package.value];
      }
      assert lines[..|lines|] == lines;
    }
    assert names[..|names|] == names;
    HoldsEverywhere(paths, ListEntries(w, names));
  }

  /** The order in which the system enumerates the directory does not matter. */
  lemma OwnerOfAnyListing(w: World, names: seq<string>, key: Key)
    requires multiset(names) == multiset(w.names)
    ensures Owner(w.(names := names), key) == Owner(w, key)
  {
    StrTotal();
    TotalIsWeak(NameOrder());
    SortSorts(NameOrder(), names);
    SortSorts(NameOrder(), w.names);
    SortedUnique(NameOrder(), Sort(NameOrder(), names), Sort(NameOrder(), w.names));
    ListEntriesAgree(w, w.(names := names), Listing(w));
  }

  lemma {:induction false} ListEntriesAgree(v: World, w: World, names: seq<string>)
    requires v.text == w.text
    ensures ListEntries(v, names) == ListEntries(w, names)
  {
    if names != [] {
      ListEntriesAgree(v, w, names[..|names| - 1]);
    }
  }

  // ---------------------------------------------------------------- recorded checksums

  /** Split at the first pair of spaces. */
  function SplitDouble(line: string): Option<(string, string)> {
    if "  " <= line then Some(([], line[2..]))
    else if line == [] then None
    else
      match SplitDouble(line[1..])
      case None => None
      case Some(p) => Some(([line[0]] + p.0, p.1))
  }

  function SumEntry(line: string): seq<Entry<string>> {
    match SplitDouble(line)
    case None => []
    case Some(p) => [Entry(Components("/" + Trim(p.1)), p.0)]
  }

  function SumEntries(lines: seq<string>): seq<Entry<string>> {
    if lines == [] then [] else SumEntries(lines[..|lines| - 1]) + SumEntry(lines[|lines| - 1])
  }

  /** The checksum file of a package: the plain name, or else the one with the architecture. */
  function SumText(w: World, package: string): Option<string> {
    match w.text(package + ".md5sums")
    case Some(text) => Some(text)
    case None => w.text(package + ":amd64.md5sums")
  }

  /** The digest the package records for a path: that of the last line naming it. */
  function Recorded(w: World, package: string, key: Key): Option<string> {
    match SumText(w, package)
    case None => None
    case Some(text) => LastFor(SumEntries(Lines(text)), key)
  }

  lemma SumsGrow(lines: seq<string>, j: nat)
    requires j < |lines|
    ensures SumEntries(lines[..j + 1]) == SumEntries(lines[..j]) + SumEntry(lines[j])
  {
    assert lines[..j + 1][..j] == lines[..j];
  }

  method Md5Sums(w: World, package: string) returns (sums: map<Key, string>)
    ensures forall key :: Lookup(sums, key) == Recorded(w, package, key)
  {
    sums := map[];
    HoldsNothing<string>();
    assert SumEntries([]) == [];
    hide Trim, Lines, Components, SplitDouble, Lookup, Holds, LastFor, SumEntries;
    var candidates := [package + ".md5sums", package + ":amd64.md5sums"];
    for c := 0 to 2
      invariant sums == map[]
      invariant c > 0 ==> w.text(candidates[0]).None?
      invariant c > 1 ==> w.text(candidates[1]).None?
    {
      var text := w.text(candidates[c]);
      if text.Some? {
        assert SumText(w, package) == text;
        var lines := Lines(text.value);
        assert lines[..0] == [];
        for j := 0 to |lines|
          invariant Holds(sums, SumEntries(lines[..j]))
        {
          SumsGrow(lines, j);
          var split := SplitDouble(lines[j]);
          if split.Some? {
            var key := Components("/" + Trim(split.value.1));
            HoldsPut(sums, SumEntries(lines[..j]), Entry(key, split.value.0));
            sums := sums[key := split.value.0];
          } else {
            assert SumEntries(lines[..j]) + [] == SumEntries(lines[..j]);
          }
        }
        assert lines[..|lines|] == lines;
        HoldsEverywhere(sums, SumEntries(lines));
        return;
      }
    }
    HoldsEverywhere<string>(sums, []);
    NothingRecorded(w, package);
  }

  lemma NothingRecorded(w: World, package: string)
    requires SumText(w, package).None?
    ensures forall key :: Recorded(w, package, key) == LastFor<string>([], key)
  {
  }

  // ---------------------------------------------------------------- verification

  datatype ModifiedFile = ModifiedFile(path: string, package: string)

  /** The finding about one path of a package, if any: a recorded digest, readable bytes, and a
      different digest. */
  function Finding(w: World, path: string, package: string): seq<ModifiedFile> {
    match Recorded(w, package, Components(path))
    case None => []
    case Some(expected) =>
      match w.bytes(path)
      case None => []
      case Some(bytes) => if w.md5(bytes) != expected then [ModifiedFile(path, package)] else []
  }

  /** The finding about a path, by its owner in the index. */
  function Judged(w: World, index: map<Key, string>, path: string): seq<ModifiedFile> {
    match Lookup(index, Components(path))
    case None => []
    case Some(package) => Finding(w, path, package)
  }

  /** The check made path by path, in the given order. */
  function Naive(w: World, index: map<Key, string>, paths: seq<string>): seq<ModifiedFile> {
    if paths == [] then []
    else Naive(w, index, paths[..|paths| - 1]) + Judged(w, index, paths[|paths| - 1])
  }

  function PathKey(): ModifiedFile -> Key {
    (m: ModifiedFile) => Components(m.path)
  }

  function ByPath(): (ModifiedFile, ModifiedFile) -> bool {
    By(KeyOrder(), PathKey())
  }

  /** The given paths that a package owns, in the given order. */
  function Group(index: map<Key, string>, paths: seq<string>, package: string): seq<string> {
    if paths == [] then []
    else
      var path := paths[|paths| - 1];
      Group(index, paths[..|paths| - 1], package)
      + if Lookup(index, Components(path)) == Some(package) then [path] else []
  }

  function Findings(w: World, paths: seq<string>, package: string): seq<ModifiedFile> {
    if paths == [] then []
    else Findings(w, paths[..|paths| - 1], package) + Finding(w, paths[|paths| - 1], package)
  }

  lemma {:induction false} FindingsAppend(w: World, a: seq<string>, b: seq<string>, package: string)
    ensures Findings(w, a + b, package) == Findings(w, a, package) + Findings(w, b, package)
  {
    hide Finding;
    if b == [] {
      assert a + b == a;
    } else {
      FindingsAppend(w, a, b[..|b| - 1], package);
      assert (a + b)[..|a + b| - 1] == a + b[..|b| - 1];
    }
  }

  lemma FindingKey(w: World, path: string, package: string, key: Key)
    ensures Of(Finding(w, path, package), PathKey(), key) == if Components(path) == key then Finding(w, path, package) else []
  {
    hide Components, Recorded;
    var found := Finding(w, path, package);
    assert found == [] || found == [ModifiedFile(path, package)];
  }

  lemma OneFinding(w: World, path: string, package: string)
    ensures Findings(w, [path], package) == Finding(w, path, package)
  {
    hide Finding;
    assert [path][..0] == [];
    assert [] + Finding(w, path, package) == Finding(w, path, package);
  }

  /** One package's findings are, key by key, those of the naive check. */
  lemma {:induction false} GroupAgrees(w: World, index: map<Key, string>, paths: seq<string>, package: string, key: Key)
    ensures Of(Findings(w, Group(index, paths, package), package), PathKey(), key)
      == if Lookup(index, key) == Some(package) then Of(Naive(w, index, paths), PathKey(), key) else []
  {
    hide Finding, Components, Lookup, Of;
    if paths != [] {
      var front, path := paths[..|paths| - 1], paths[|paths| - 1];
      GroupAgrees(w, index, front, package, key);
      var owner := Lookup(index, Components(path));
      var mine := if owner == Some(package) then [path] else [];
      FindingsAppend(w, Group(index, front, package), mine, package);
      OfAppend(Findings(w, Group(index, front, package), package), Findings(w, mine, package), PathKey(), key);
      OfAppend(Naive(w, index, front), Judged(w, index, path), PathKey(), key);
      OneFinding(w, path, package);
      OfNothing(PathKey(), key);
      if owner.Some? {
        FindingKey(w, path, owner.value, key);
      }
      hide Findings, PathKey;
      assert Group(index, paths, package) == Group(index, front, package) + mine;
      assert Naive(w, index, paths) == Naive(w, index, front) + Judged(w, index, path);
    } else {
      OfNothing(PathKey(), key);
    }
  }

  lemma OfNothing(f: ModifiedFile -> Key, key: Key)
    ensures Of([], f, key) == []
  {
  }

  lemma {:induction false} NoOwner(w: World, index: map<Key, string>, paths: seq<string>, key: Key)
    requires Lookup(index, key).None?
    ensures Of(Naive(w, index, paths), PathKey(), key) == []
  {
    hide Finding, Components, Lookup, Of, PathKey;
    OfNothing(PathKey(), key);
    if paths != [] {
      var front, path := paths[..|paths| - 1], paths[|paths| - 1];
      NoOwner(w, index, front, key);
      OfAppend(Naive(w, index, front), Judged(w, index, path), PathKey(), key);
      var owner := Lookup(index, Components(path));
      if owner.Some? {
        FindingKey(w, path, owner.value, key);
      }
    }
  }

  lemma {:induction false} FindingsNone(w: World, paths: seq<string>, package: string)
    requires forall key :: Recorded(w, package, key).None?
    ensures Findings(w, paths, package) == []
  {
    hide Recorded;
    if paths != [] {
      FindingsNone(w, paths[..|paths| - 1], package);
    }
  }

  function GroupIn(groups: map<string, seq<string>>, package: string): seq<string> {
    if package in groups then groups[package] else []
  }

  ghost predicate Grouped(groups: map<string, seq<string>>, index: map<Key, string>, paths: seq<string>) {
    forall package :: GroupIn(groups, package) == Group(index, paths, package)
  }

  /** What has been found once the packages of `done` are finished. */
  ghost predicate FoundFor(modified: seq<ModifiedFile>, done: set<string>, w: World, index: map<Key, string>, paths: seq<string>) {
    forall key :: Of(modified, PathKey(), key)
      == if Lookup(index, key).Some? && Lookup(index, key).value in done then Of(Naive(w, index, paths), PathKey(), key) else []
  }

  method GroupByPackage(index: map<Key, string>, paths: seq<string>) returns (groups: map<string, seq<string>>)
    ensures Grouped(groups, index, paths)
  {
    hide Components, Lookup;
    groups := map[];
    for i := 0 to |paths|
      invariant Grouped(groups, index, paths[..i])
    {
      assert paths[..i + 1][..i] == paths[..i];
      ghost var before := groups;
      var owner := Lookup(index, Components(paths[i]));
      if owner.Some? {
        groups := groups[owner.value := GroupIn(groups, owner.value) + [paths[i]]];
      }
      forall package
        ensures GroupIn(groups, package) == Group(index, paths[..i + 1], package)
      {
        assert GroupIn(before, package) == Group(index, paths[..i], package);
        assert owner != Some(package) ==> Group(index, paths[..i], package) + [] == GroupIn(groups, package);
      }
    }
    assert paths[..|paths|] == paths;
  }

  /** The findings of one package, appended to those there already. */
  method CheckGroup(w: World, package: string, group: seq<string>, before: seq<ModifiedFile>) returns (modified: seq<ModifiedFile>)
    ensures modified == before + Findings(w, group, package)
  {
    modified := before;
    var sums := Md5Sums(w, package);
    hide Components, Recorded;
    if sums == map[] {
      FindingsNone(w, group, package);
      return;
    }
    for j := 0 to |group|
      invariant modified == before + Findings(w, group[..j], package)
    {
      assert group[..j + 1][..j] == group[..j];
      var expected := Lookup(sums, Components(group[j]));
      if expected.None? {
        continue;
      }
      var bytes := w.bytes(group[j]);
      if bytes.None? {
        continue;
      }
      if w.md5(bytes.value) != expected.value {
        modified := modified + [ModifiedFile(group[j], package)];
      }
    }
    assert group[..|group|] == group;
  }

  lemma FoundStep(modified: seq<ModifiedFile>, done: set<string>, w: World, index: map<Key, string>, paths: seq<string>, package: string)
    requires FoundFor(modified, done, w, index, paths) && package !in done
    ensures FoundFor(modified + Findings(w, Group(index, paths, package), package), done + {package}, w, index, paths)
  {
    hide Of, PathKey, Group, Findings, Naive, Lookup;
    var more := Findings(w, Group(index, paths, package), package);
    forall key
      ensures Of(modified + more, PathKey(), key)
        == if Lookup(index, key).Some? && Lookup(index, key).value in done + {package}
          then Of(Naive(w, index, paths), PathKey(), key) else []
    {
      OfAppend(modified, more, PathKey(), key);
      GroupAgrees(w, index, paths, package, key);
      assert Of(modified, PathKey(), key)
        == if Lookup(index, key).Some? && Lookup(index, key).value in done then Of(Naive(w, index, paths), PathKey(), key) else [];
    }
  }

  /** Once every package with a group is finished, everything is found. */
  lemma FoundAll(modified: seq<ModifiedFile>, groups: map<string, seq<string>>, w: World, index: map<Key, string>, paths: seq<string>)
    requires Grouped(groups, index, paths) && FoundFor(modified, groups.Keys, w, index, paths)
    ensures forall key :: Of(modified, PathKey(), key) == Of(Naive(w, index, paths), PathKey(), key)
  {
    hide Of, PathKey, Group, Naive, Lookup;
    forall key
      ensures Of(modified, PathKey(), key) == Of(Naive(w, index, paths), PathKey(), key)
    {
      var owner := Lookup(index, key);
      OfNothing(PathKey(), key);
      if owner.None? {
        NoOwner(w, index, paths, key);
      } else if owner.value !in groups {
        assert GroupIn(groups, owner.value) == [];
        GroupAgrees(w, index, paths, owner.value, key);
      }
      assert Of(modified, PathKey(), key)
        == if owner.Some? && owner.value in groups.Keys then Of(Naive(w, index, paths), PathKey(), key) else [];
    }
  }

  /** The grouped check. Whatever order the packages are visited in, it finds what the naive check finds,
      in path order; findings about one path, given twice, stay in the given order. */
  method Verify(w: World, index: map<Key, string>, paths: seq<string>) returns (modified: seq<ModifiedFile>)
    ensures modified == Sort(ByPath(), Naive(w, index, paths))
  {
    var groups := GroupByPackage(index, paths);
    modified := [];
    var remaining := groups.Keys;
    FoundNothing(w, index, paths);
    assert groups.Keys - remaining == {};
    hide FoundFor, Grouped, Of, Naive, Sort, Findings;
    while remaining != {}
      invariant remaining <= groups.Keys
      invariant FoundFor(modified, groups.Keys - remaining, w, index, paths)
      decreases |remaining|
    {
      var package :| package in remaining;
      GroupIs(groups, index, paths, package);
      ghost var before := modified;
      modified := CheckGroup(w, package, groups[package], modified);
      FoundStep(before, groups.Keys - remaining, w, index, paths, package);
      assert groups.Keys - (remaining - {package}) == (groups.Keys - remaining) + {package};
      remaining := remaining - {package};
    }
    assert groups.Keys - remaining == groups.Keys;
    FoundAll(modified, groups, w, index, paths);
    KeyOrderTotal();
    SortAgree(KeyOrder(), PathKey(), modified, Naive(w, index, paths));
    modified := Sort(ByPath(), modified);
  }

  lemma GroupIs(groups: map<string, seq<string>>, index: map<Key, string>, paths: seq<string>, package: string)
    requires Grouped(groups, index, paths) && package in groups
    ensures groups[package] == Group(index, paths, package)
  {
    assert GroupIn(groups, package) == Group(index, paths, package);
  }

  lemma FoundNothing(w: World, index: map<Key, string>, paths: seq<string>)
    ensures FoundFor([], {}, w, index, paths)
  {
  }

  /** A file differs from its package: it is owned, the owner records a digest, and the readable bytes
      have another. */
  ghost predicate Differs(w: World, path: string, package: string) {
    && Owner(w, Components(path)) == Some(package)
    && Recorded(w, package, Components(path)).Some?
    && w.bytes(path).Some?
    && w.md5(w.bytes(path).value) != Recorded(w, package, Components(path)).value
  }

  /** How often a finding occurs: as often as its path was given, if the file differs, and else never. */
  lemma {:induction false} NaiveCounts(w: World, index: map<Key, string>, paths: seq<string>, path: string, package: string)
    requires forall key :: Lookup(index, key) == Owner(w, key)
    ensures multiset(Naive(w, index, paths))[ModifiedFile(path, package)]
      == if Differs(w, path, package) then multiset(paths)[path] else 0
  {
    hide Judged, Differs, Lookup, Owner;
    if paths != [] {
      var front, last := paths[..|paths| - 1], paths[|paths| - 1];
      NaiveCounts(w, index, front, path, package);
      JudgedCounts(w, index, last, path, package);
      assert paths == front + [last];
      assert Naive(w, index, paths) == Naive(w, index, front) + Judged(w, index, last);
      hide Naive;
    }
  }

  lemma JudgedCounts(w: World, index: map<Key, string>, last: string, path: string, package: string)
    requires forall key :: Lookup(index, key) == Owner(w, key)
    ensures multiset(Judged(w, index, last))[ModifiedFile(path, package)]
      == if last == path && Differs(w, path, package) then 1 else 0
  {
    hide Components, Recorded, Owner;
    assert Lookup(index, Components(last)) == Owner(w, Components(last));
  }

  /** Sorted by path, with each differing file once for every time it was given. */
  ghost predicate Verified(w: World, paths: seq<string>, modified: seq<ModifiedFile>) {
    && Sorted(ByPath(), modified)
    && forall path, package ::
         (multiset(modified)[ModifiedFile(path, package)] == if Differs(w, path, package) then multiset(paths)[path] else 0)
  }

  /** The check with a fresh index. */
  method VerifyFresh(w: World, paths: seq<string>) returns (modified: seq<ModifiedFile>)
    ensures Verified(w, paths, modified)
  {
    var index := Build(w);
    modified := Verify(w, index, paths);
    KeyOrderTotal();
    ByIsWeak(KeyOrder(), PathKey());
    SortSorts(ByPath(), Naive(w, index, paths));
    hide Differs, Naive, Sort;
    forall path, package
      ensures multiset(modified)[ModifiedFile(path, package)] == if Differs(w, path, package) then multiset(paths)[path] else 0
    {
      NaiveCounts(w, index, paths, path, package);
    }
  }
}
