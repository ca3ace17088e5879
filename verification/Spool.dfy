/** The bounded, drop-oldest spool of unsent events: crates/blankres-daemon/src/spool.rs. */
module Spool {
  import opened Base
  import opened Events
  import opened Ordering
  import opened Numerals
  import Text

  const MAX_SPOOLED := 256

  /** What a spool file holds: an event, or bytes that do not parse as one. */
  datatype File = Readable(event: CrashEvent) | Corrupt

  type Files = map<string, File>

  /** `{timestamp}-{first 16 characters of the hash}.json` */
  function FileName(event: CrashEvent): string {
    Dec(event.timestamp) + ("-" + Prefix(event.signature) + ".json")
  }

  function Prefix(hash: string): string {
    hash[..Min(16, |hash|)]
  }

  /** The extension test of `drain_list`: a dot file without a stem has no extension. */
  predicate IsJson(name: string) {
    |name| > 5 && name[|name| - 5..] == ".json"
  }

  // ---------------------------------------------------------------- the directory as a value

  /** The oldest name of a non-empty directory. */
  ghost predicate Oldest(name: string, files: Files) {
    name in files && forall n :: n in files ==> n == name || StrLt(name, n)
  }

  lemma {:induction false} OldestExists(files: Files)
    requires files != map[]
    ensures exists name :: Oldest(name, files)
    decreases |files|
  {
    StrTotal();
    var name :| name in files;
    var rest := files - {name};
    assert forall n :: n in files && n != name ==> n in rest;
    if rest == map[] {
      assert Oldest(name, files);
    } else {
      OldestExists(rest);
      var m :| Oldest(m, rest);
      if StrLt(name, m) {
        assert forall n :: n in rest ==> StrLt(name, n);
        assert Oldest(name, files);
      } else {
        assert StrLt(m, name);
        assert Oldest(m, files);
      }
    }
  }

  ghost function OldestOf(files: Files): (name: string)
    requires files != map[]
    ensures Oldest(name, files)
  {
    OldestExists(files);
    var name :| Oldest(name, files);
    name
  }

  lemma OldestUnique(files: Files, m: string, n: string)
    requires Oldest(m, files) && Oldest(n, files)
    ensures m == n
  {
    StrTotal();
    assert m != n ==> StrLt(m, n) && StrLt(n, m);
  }

  /** Drop the oldest until fewer than the cap remain. */
  ghost function Trimmed(files: Files): (r: Files)
    ensures |r| < MAX_SPOOLED
    decreases |files|
  {
    if |files| < MAX_SPOOLED then files else Trimmed(files - {OldestOf(files)})
  }

  /** The directory after `push`. */
  ghost function Pushed(files: Files, event: CrashEvent): Files {
    Trimmed(files)[FileName(event) := Readable(event)]
  }

  /** The directory after a push, however its write ended: the file is overwritten in place, and a torn
      write leaves a file that does not parse, whatever was there before. */
  ghost function Written(files: Files, event: CrashEvent, write: Overwrite): Files {
    match write
    case Done => Pushed(files, event)
    case Untouched => Trimmed(files)
    case Torn => Trimmed(files)[FileName(event) := Corrupt]
  }

  lemma TrimmedUnfold(files: Files, oldest: string)
    ensures |files| < MAX_SPOOLED ==> Trimmed(files) == files
    ensures |files| >= MAX_SPOOLED && Oldest(oldest, files) ==> Trimmed(files) == Trimmed(files - {oldest})
  {
    if |files| >= MAX_SPOOLED && Oldest(oldest, files) {
      OldestUnique(files, oldest, OldestOf(files));
    }
  }

  lemma {:induction false} TrimmedKeeps(files: Files)
    ensures forall n :: n in Trimmed(files) ==> n in files && Trimmed(files)[n] == files[n]
    ensures |files| < MAX_SPOOLED ==> Trimmed(files) == files
    decreases |files|
  {
    if |files| >= MAX_SPOOLED {
      TrimmedKeeps(files - {OldestOf(files)});
    }
  }

  /** Never more than the cap, whatever the directory held before. */
  lemma PushedWithinCap(files: Files, event: CrashEvent, write: Overwrite)
    ensures |Written(files, event, write)| <= 256
  {
    var trimmed := Trimmed(files);
    assert trimmed.Keys + {FileName(event)} == trimmed[FileName(event) := Corrupt].Keys;
    assert write.Done? ==> Written(files, event, write).Keys == trimmed.Keys + {FileName(event)};
    assert write.Torn? ==> Written(files, event, write).Keys == trimmed.Keys + {FileName(event)};
  }

  // ---------------------------------------------------------------- the directory in place

  /** A listing of the given names, oldest first. */
  ghost predicate Listing(names: seq<string>, keys: set<string>) {
    && (forall i, j :: 0 <= i < j < |names| ==> StrLt(names[i], names[j]))
    && (set n | n in names) == keys
  }

  /** The names a caller asks for. */
  ghost function Listed(files: Files, jsonOnly: bool): set<string> {
    set n | n in files && (jsonOnly ==> IsJson(n))
  }

  lemma ListedAll(files: Files)
    ensures Listed(files, false) == files.Keys
  {
  }

  /** A listing holds its names, each once. */
  lemma ListingIndex(names: seq<string>, keys: set<string>)
    requires Listing(names, keys)
    ensures forall i :: 0 <= i < |names| ==> names[i] in keys && names[i] !in names[..i]
    ensures forall n :: n in keys ==> exists i :: 0 <= i < |names| && names[i] == n
  {
    StrTotal();
    assert forall i :: 0 <= i < |names| ==> names[i] in (set n | n in names);
  }

  /** `trim` with the sorted listing at hand: the first `i` names removed. */
  ghost function Dropped(files: Files, names: seq<string>, i: nat): Files
    requires i <= |names|
  {
    if i == 0 then files else Dropped(files, names, i - 1) - {names[i - 1]}
  }

  lemma DroppedFirst(files: Files, names: seq<string>, i: nat)
    requires i <= |names|
    ensures i == 0 ==> Dropped(files, names, i) == files
    ensures i < |names| ==> Dropped(files, names, i + 1) == Dropped(files, names, i) - {names[i]}
  {
  }

  lemma {:induction false} DroppedListing(files: Files, names: seq<string>, i: nat)
    requires Listing(names, files.Keys) && i <= |names|
    ensures Listing(names[i..], Dropped(files, names, i).Keys)
    ensures |Dropped(files, names, i)| == |names| - i
    ensures i > 0 && |names| - i >= MAX_SPOOLED - 1 ==> Trimmed(Dropped(files, names, i)) == Trimmed(Dropped(files, names, i - 1))
  {
    hide Trimmed, Oldest, Listing;
    if i == 0 {
      assert names[0..] == names;
      ListingSize(names, files.Keys);
    } else {
      DroppedListing(files, names, i - 1);
      var before := Dropped(files, names, i - 1);
      ListingHead(names[i - 1..], before);
      assert names[i - 1..][0] == names[i - 1] && names[i - 1..][1..] == names[i..];
      TrimmedUnfold(before, names[i - 1]);
      ListingSize(names[i..], Dropped(files, names, i).Keys);
    }
  }

  lemma {:induction false} DroppedSame(files: Files, names: seq<string>, i: nat)
    requires Listing(names, files.Keys) && i <= |names| - MAX_SPOOLED + 1
    ensures Trimmed(Dropped(files, names, i)) == Trimmed(files)
  {
    hide Trimmed, Listing;
    if i > 0 {
      DroppedSame(files, names, i - 1);
      DroppedListing(files, names, i);
    }
  }

  lemma TrimIsDropping(files: Files, names: seq<string>)
    requires Listing(names, files.Keys) && |files| >= MAX_SPOOLED
    ensures |names| == |files|
    ensures Dropped(files, names, |names| - MAX_SPOOLED + 1) == Trimmed(files)
  {
    hide Trimmed, Listing, Dropped;
    ListingSize(names, files.Keys);
    var count := |names| - MAX_SPOOLED + 1;
    DroppedListing(files, names, count);
    DroppedSame(files, names, count);
    TrimmedUnfold(Dropped(files, names, count), "");
  }

  /** The events of the first `i` names that parse. */
  ghost function ReadAll(files: Files, names: seq<string>, i: nat): seq<(string, CrashEvent)>
    requires i <= |names| && forall j :: 0 <= j < |names| ==> names[j] in files
  {
    if i == 0 then []
    else
      ReadAll(files, names, i - 1)
      + (match files[names[i - 1]] case Readable(event) => [(names[i - 1], event)] case Corrupt => [])
  }

  /** The directory once the first `i` names have been read. */
  ghost function WithoutCorrupt(files: Files, names: seq<string>, i: nat): Files
    requires i <= |names| && forall j :: 0 <= j < |names| ==> names[j] in files
  {
    if i == 0 then files
    else
      var before := WithoutCorrupt(files, names, i - 1);
      if files[names[i - 1]].Corrupt? then before - {names[i - 1]} else before
  }

  /** What `drain_list` leaves in place. */
  ghost function Readables(files: Files): Files {
    map n | n in files && (IsJson(n) ==> files[n].Readable?) :: files[n]
  }

  lemma {:induction false} WithoutCorruptKeeps(files: Files, names: seq<string>, i: nat, name: string)
    requires i <= |names| && forall j :: 0 <= j < |names| ==> names[j] in files
    ensures name in WithoutCorrupt(files, names, i) <==> name in files && !(name in names[..i] && files[name].Corrupt?)
    ensures name in WithoutCorrupt(files, names, i) ==> WithoutCorrupt(files, names, i)[name] == files[name]
  {
    if i > 0 {
      WithoutCorruptKeeps(files, names, i - 1, name);
      assert names[..i] == names[..i - 1] + [names[i - 1]];
    }
  }

  lemma WithoutCorruptIsReadables(files: Files, names: seq<string>)
    requires Listing(names, Listed(files, true))
    requires forall j :: 0 <= j < |names| ==> names[j] in files
    ensures WithoutCorrupt(files, names, |names|) == Readables(files)
  {
    ListingIndex(names, Listed(files, true));
    assert names[..|names|] == names;
    forall n
      ensures n in WithoutCorrupt(files, names, |names|) <==> n in Readables(files)
      ensures n in Readables(files) ==> WithoutCorrupt(files, names, |names|)[n] == files[n]
    {
      WithoutCorruptKeeps(files, names, |names|, n);
      assert n in names <==> n in Listed(files, true);
    }
  }

  lemma {:induction false} ReadAllMeaning(files: Files, names: seq<string>, i: nat)
    requires i <= |names| && Listing(names, Listed(files, true))
    requires forall j :: 0 <= j < |names| ==> names[j] in files
    ensures var out := ReadAll(files, names, i);
      && (forall k :: 0 <= k < |out| ==> out[k].0 in names[..i] && files[out[k].0] == Readable(out[k].1))
      && (forall j, k :: 0 <= j < k < |out| ==> StrLt(out[j].0, out[k].0))
      && (forall j :: 0 <= j < i && files[names[j]].Readable? ==> (names[j], files[names[j]].event) in out)
  {
    hide IsJson, StrLt;
    if i > 0 {
      ReadAllMeaning(files, names, i - 1);
      assert names[..i] == names[..i - 1] + [names[i - 1]];
      var before := ReadAll(files, names, i - 1);
      forall k | 0 <= k < |before|
        ensures StrLt(before[k].0, names[i - 1])
      {
        var j :| 0 <= j < i - 1 && names[j] == before[k].0;
      }
    }
  }

  lemma ReadAllDrains(files: Files, names: seq<string>)
    requires Listing(names, Listed(files, true))
    requires forall j :: 0 <= j < |names| ==> names[j] in files
    ensures Drained(ReadAll(files, names, |names|), files)
  {
    ReadAllMeaning(files, names, |names|);
    ListingIndex(names, Listed(files, true));
    var out := ReadAll(files, names, |names|);
    forall n | n in files && IsJson(n) && files[n].Readable?
      ensures exists k :: 0 <= k < |out| && out[k].0 == n
    {
      assert n in Listed(files, true);
      var j :| 0 <= j < |names| && names[j] == n;
      assert (n, files[n].event) in out;
    }
  }

  class Spool {
    var files: Files

    constructor ()
      ensures files == map[]
    {
      files := map[];
    }

    /** The names of the directory in whatever order it yields them, then sorted. */
    method SortedNames(jsonOnly: bool) returns (names: seq<string>)
      ensures Listing(names, Listed(files, jsonOnly))
    {
      var found: seq<string> := [];
      var left := files.Keys;
      while left != {}
        invariant left <= files.Keys
        invariant forall i :: 0 <= i < |found| ==> found[i] in files && (jsonOnly ==> IsJson(found[i])) && found[i] !in left
        invariant forall n :: n in Listed(files, jsonOnly) ==> n in left || n in found
        invariant forall i, j :: 0 <= i < j < |found| ==> found[i] != found[j]
        decreases left
      {
        var name :| name in left;
        left := left - {name};
        if !jsonOnly || IsJson(name) {
          found := found + [name];
        }
      }
      names := Sort(Lex(CharLt()), found);
      SortedDistinct(found);
      assert forall n :: n in found <==> n in Listed(files, jsonOnly);
    }

    /** Make room for one more file. */
    method Trim()
      modifies this
      ensures files == Trimmed(old(files))
    {
      TrimmedUnfold(files, "");
      hide Trimmed, Listing, Listed, Dropped;
      if |files| < MAX_SPOOLED {
        return;
      }
      var names := SortedNames(false);
      ghost var all := files;
      ListedAll(all);
      TrimIsDropping(all, names);
      DroppedFirst(all, names, 0);
      for i := 0 to |names| - MAX_SPOOLED + 1
        invariant files == Dropped(all, names, i)
      {
        DroppedFirst(all, names, i);
        files := files - {names[i]};
      }
    }

    /** File an event, whether or not older ones had to go for it. `write` is how the file system lets it end. */
    method Push(event: CrashEvent, write: Overwrite) returns (ok: bool)
      modifies this
      ensures ok == write.Done?
      ensures files == Written(old(files), event, write)
    {
      Trim();
      match write {
        case Done => files := files[FileName(event) := Readable(event)];
        case Untouched =>
        case Torn => files := files[FileName(event) := Corrupt];
      }
      return write.Done?;
    }

    /** The readable events in name order; files that do not parse are removed. */
    method DrainList() returns (out: seq<(string, CrashEvent)>)
      modifies this
      ensures Drained(out, old(files))
      ensures files == Readables(old(files))
    {
      var names := SortedNames(true);
      ghost var all := files;
      ListingIndex(names, Listed(all, true));
      out := [];
      for i := 0 to |names|
        invariant out == ReadAll(all, names, i)
        invariant files == WithoutCorrupt(all, names, i)
      {
        var name := names[i];
        WithoutCorruptKeeps(all, names, i, name);
        match files[name] {
          case Readable(event) => out := out + [(name, event)];
          case Corrupt => files := files - {name};
        }
      }
      ReadAllDrains(all, names);
      WithoutCorruptIsReadables(all, names);
    }
  }

  /** `out` lists exactly the readable spool files, oldest first. */
  ghost predicate Drained(out: seq<(string, CrashEvent)>, files: Files) {
    && (forall j, k :: 0 <= j < k < |out| ==> StrLt(out[j].0, out[k].0))
    && (forall k :: 0 <= k < |out| ==> IsJson(out[k].0) && out[k].0 in files && files[out[k].0] == Readable(out[k].1))
    && (forall n :: n in files && IsJson(n) && files[n].Readable? ==> exists k :: 0 <= k < |out| && out[k].0 == n)
  }

  lemma SortedDistinct(found: seq<string>)
    requires forall i, j :: 0 <= i < j < |found| ==> found[i] != found[j]
    ensures var names := Sort(Lex(CharLt()), found);
      && (forall i, j :: 0 <= i < j < |names| ==> StrLt(names[i], names[j]))
      && (set n | n in names) == (set n | n in found)
  {
    StrTotal();
    var lt := Lex(CharLt());
    TotalIsWeak(lt);
    SortSorts(lt, found);
    var names := Sort(lt, found);
    DistinctMultiset(found);
    forall n
      ensures n in names <==> n in found
    {
      assert n in names <==> n in multiset(names);
      assert n in found <==> n in multiset(found);
    }
    forall i, j | 0 <= i < j < |names|
      ensures StrLt(names[i], names[j])
    {
      assert multiset(names)[names[i]] <= 1;
      TwiceInMultiset(names, i, j);
      assert !lt(names[j], names[i]);
      assert lt(names[i], names[j]);
    }
  }

  lemma {:induction false} DistinctMultiset(s: seq<string>)
    requires forall i, j :: 0 <= i < j < |s| ==> s[i] != s[j]
    ensures forall x :: multiset(s)[x] <= 1
  {
    if s != [] {
      DistinctMultiset(s[1..]);
      assert s == [s[0]] + s[1..];
      assert s[0] !in s[1..];
    }
  }

  lemma TwiceInMultiset(s: seq<string>, i: nat, j: nat)
    requires i < j < |s|
    ensures s[i] == s[j] ==> multiset(s)[s[i]] >= 2
  {
    assert s == s[..j] + [s[j]] + s[j + 1..];
    assert s[..j][i] == s[i];
    assert s[i] in multiset(s[..j]);
  }

  lemma {:induction false} ListingSize(names: seq<string>, keys: set<string>)
    requires Listing(names, keys)
    ensures |names| == |keys|
  {
    if names == [] {
      assert keys == {};
    } else {
      StrTotal();
      var rest := keys - {names[0]};
      assert forall i :: 0 < i < |names| ==> StrLt(names[0], names[i]);
      assert names[0] !in names[1..];
      assert names[0] in names;
      assert names == [names[0]] + names[1..];
      assert (set n | n in names[1..]) == rest;
      ListingSize(names[1..], rest);
    }
  }

  lemma ListingHead(names: seq<string>, files: Files)
    requires Listing(names, files.Keys) && names != []
    ensures Oldest(names[0], files)
    ensures Listing(names[1..], (files - {names[0]}).Keys)
  {
    StrIrreflexive(names[0]);
    hide StrLt;
    assert names[0] in (set n | n in names);
    forall n | n in files
      ensures n == names[0] || (n in names[1..] && StrLt(names[0], n))
    {
      assert n in (set m | m in names);
      var i :| 0 <= i < |names| && names[i] == n;
      assert i > 0 ==> names[1..][i - 1] == n;
    }
    forall n | n in names[1..]
      ensures n in files && n != names[0]
    {
      var i :| 0 <= i < |names[1..]| && names[1..][i] == n;
      assert names[i + 1] == n && n in (set m | m in names);
    }
    assert (set n | n in names[1..]) == files.Keys - {names[0]};
  }

  // ---------------------------------------------------------------- the last 256 events

  /** A spool file with its name. */
  type Entry = (string, CrashEvent)

  function EntryOf(event: CrashEvent): Entry {
    (FileName(event), event)
  }

  function Entries(events: seq<CrashEvent>): seq<Entry> {
    seq(|events|, i requires 0 <= i < |events| => EntryOf(events[i]))
  }

  ghost predicate Ascending(entries: seq<Entry>) {
    forall i, j :: 0 <= i < j < |entries| ==> StrLt(entries[i].0, entries[j].0)
  }

  /** Events whose file names come in order, each after the one before. */
  ghost predicate Increasing(events: seq<CrashEvent>) {
    Ascending(Entries(events))
  }

  /** An empty spool after pushing some events in order. */
  ghost function PushAll(events: seq<CrashEvent>): Files {
    if events == [] then map[] else Pushed(PushAll(events[..|events| - 1]), events[|events| - 1])
  }

  ghost function Filed(entries: seq<Entry>): Files {
    if entries == [] then map[]
    else var last := entries[|entries| - 1]; Filed(entries[..|entries| - 1])[last.0 := Readable(last.1)]
  }

  function Newest<T>(s: seq<T>): seq<T> {
    s[|s| - Min(|s|, MAX_SPOOLED)..]
  }

  ghost predicate Holds(files: Files, entry: Entry) {
    entry.0 in files && files[entry.0] == Readable(entry.1)
  }

  lemma {:induction false} FiledNames(entries: seq<Entry>, n: string)
    ensures n in Filed(entries) <==> exists i :: 0 <= i < |entries| && entries[i].0 == n
  {
    if entries != [] {
      var last := |entries| - 1;
      FiledNames(entries[..last], n);
      if n in Filed(entries[..last]) {
        var i :| 0 <= i < last && entries[..last][i].0 == n;
        assert entries[i].0 == n;
      }
      if i :| 0 <= i < |entries| && entries[i].0 == n {
        assert i == last || entries[..last][i].0 == n;
      }
    }
  }

  lemma {:induction false} FiledMeaning(entries: seq<Entry>)
    requires Ascending(entries)
    ensures forall i :: 0 <= i < |entries| ==> Holds(Filed(entries), entries[i])
    ensures |Filed(entries)| == |entries|
  {
    hide StrLt;
    if entries != [] {
      StrTotal();
      var last := |entries| - 1;
      var init := entries[..last];
      FiledMeaning(init);
      FiledNames(init, entries[last].0);
      assert entries[last].0 !in Filed(init);
      assert Filed(entries).Keys == Filed(init).Keys + {entries[last].0};
      forall i | 0 <= i < |entries|
        ensures Holds(Filed(entries), entries[i])
      {
        assert i < last ==> Holds(Filed(init), init[i]);
      }
    }
  }

  /** Without its oldest entry. */
  lemma {:induction false} FiledTail(entries: seq<Entry>)
    requires Ascending(entries) && entries != []
    ensures Filed(entries) - {entries[0].0} == Filed(entries[1..])
  {
    hide StrLt;
    if |entries| > 1 {
      StrTotal();
      var last := |entries| - 1;
      FiledTail(entries[..last]);
      assert entries[..last][1..] == entries[1..][..last - 1];
      assert entries[1..][last - 1] == entries[last];
    }
  }

  lemma FiledOldest(entries: seq<Entry>)
    requires Ascending(entries) && entries != []
    ensures Oldest(entries[0].0, Filed(entries))
  {
    hide StrLt;
    forall n | n in Filed(entries)
      ensures n == entries[0].0 || StrLt(entries[0].0, n)
    {
      FiledNames(entries, n);
    }
    FiledNames(entries, entries[0].0);
  }

  lemma FiledAppend(entries: seq<Entry>, e: Entry)
    ensures Filed(entries + [e]) == Filed(entries)[e.0 := Readable(e.1)]
  {
    assert (entries + [e])[..|entries|] == entries;
  }

  /** A push into a spool with room. */
  lemma PushRoom(window: seq<Entry>, event: CrashEvent)
    requires Ascending(window) && |window| < MAX_SPOOLED
    ensures Pushed(Filed(window), event) == Filed(window + [EntryOf(event)])
  {
    FiledMeaning(window);
    TrimmedUnfold(Filed(window), "");
    FiledAppend(window, EntryOf(event));
    hide Trimmed, Filed, Ascending, FileName;
  }

  /** A push into a full spool drops the oldest. */
  lemma PushFull(window: seq<Entry>, event: CrashEvent)
    requires Ascending(window) && |window| == MAX_SPOOLED
    ensures Pushed(Filed(window), event) == Filed(window[1..] + [EntryOf(event)])
  {
    FiledMeaning(window);
    FiledTail(window);
    FiledOldest(window);
    TrimmedUnfold(Filed(window), window[0].0);
    PushRoom(window[1..], event);
    TrimmedUnfold(Filed(window[1..]), "");
    FiledMeaning(window[1..]);
    hide Trimmed, Filed, Oldest, FileName;
  }

  /** Pushed in order, the spool holds exactly the last 256 events. */
  lemma {:induction false} SpoolHoldsNewest(events: seq<CrashEvent>)
    requires Increasing(events)
    ensures PushAll(events) == Filed(Newest(Entries(events)))
  {
    hide StrLt, Pushed, FileName, Filed;
    if events != [] {
      var last := |events| - 1;
      var all := Entries(events);
      assert Entries(events[..last]) == all[..last];
      SpoolHoldsNewest(events[..last]);
      var window := Newest(all[..last]);
      assert Ascending(window);
      NewestStep(all);
      if |window| == MAX_SPOOLED {
        PushFull(window, events[last]);
      } else {
        PushRoom(window, events[last]);
      }
    } else {
      FiledNothing();
    }
  }

  lemma FiledNothing()
    ensures Filed([]) == map[] && PushAll([]) == map[]
  {
  }

  lemma NewestStep(all: seq<Entry>)
    requires all != []
    ensures var window, last := Newest(all[..|all| - 1]), all[|all| - 1];
      && |window| <= MAX_SPOOLED
      && Newest(all) == (if |window| == MAX_SPOOLED then window[1..] else window) + [last]
  {
    var n := |all|;
    assert Newest(all) == all[n - Min(n, MAX_SPOOLED)..];
    assert Newest(all[..n - 1]) == all[n - 1 - Min(n - 1, MAX_SPOOLED)..n - 1];
    hide Newest;
  }

  /** And a drain of it lists them oldest first. */
  lemma DrainInOrder(entries: seq<Entry>, out: seq<Entry>)
    requires Ascending(entries) && forall i :: 0 <= i < |entries| ==> IsJson(entries[i].0)
    requires Drained(out, Filed(entries))
    ensures out == entries
  {
    hide StrLt, IsJson, Filed, Listing, Ascending;
    FiledMeaning(entries);
    var files := Filed(entries);
    FiledAll(entries);
    assert forall n :: n in files ==> IsJson(n);
    NamesListing(entries, files.Keys);
    DrainedListing(out, files);
    ListingUnique(NamesOf(entries), NamesOf(out), files.Keys);
    assert |out| == |NamesOf(out)| == |NamesOf(entries)|;
    forall i | 0 <= i < |entries|
      ensures out[i] == entries[i]
    {
      assert NamesOf(out)[i] == NamesOf(entries)[i];
      assert Holds(files, entries[i]);
    }
  }

  lemma FiledAll(entries: seq<Entry>)
    requires Ascending(entries)
    ensures forall n :: n in Filed(entries) ==> Filed(entries)[n].Readable? && exists i :: 0 <= i < |entries| && entries[i].0 == n
  {
    FiledMeaning(entries);
    hide StrLt;
    forall n | n in Filed(entries)
      ensures Filed(entries)[n].Readable? && exists i :: 0 <= i < |entries| && entries[i].0 == n
    {
      FiledNames(entries, n);
      var i :| 0 <= i < |entries| && entries[i].0 == n;
      assert Holds(Filed(entries), entries[i]);
    }
  }

  lemma DrainedListing(out: seq<Entry>, files: Files)
    requires Drained(out, files) && forall n :: n in files ==> IsJson(n) && files[n].Readable?
    ensures Listing(NamesOf(out), files.Keys)
  {
    hide StrLt, IsJson;
    NamesListing(out, files.Keys);
  }

  function NamesOf(entries: seq<Entry>): seq<string> {
    seq(|entries|, i requires 0 <= i < |entries| => entries[i].0)
  }

  lemma NamesListing(entries: seq<Entry>, keys: set<string>)
    requires Ascending(entries)
    requires forall i :: 0 <= i < |entries| ==> entries[i].0 in keys
    requires forall n :: n in keys ==> exists i :: 0 <= i < |entries| && entries[i].0 == n
    ensures Listing(NamesOf(entries), keys)
  {
    var names := NamesOf(entries);
    forall n
      ensures n in names <==> n in keys
    {
      if n in keys {
        var i :| 0 <= i < |entries| && entries[i].0 == n;
        assert names[i] == n;
      }
    }
  }

  lemma {:induction false} ListingUnique(a: seq<string>, b: seq<string>, keys: set<string>)
    requires Listing(a, keys) && Listing(b, keys)
    ensures a == b
  {
    ListingSize(a, keys);
    ListingSize(b, keys);
    if a != [] {
      var files: Files := map k | k in keys :: Corrupt;
      assert files.Keys == keys;
      ListingHead(a, files);
      ListingHead(b, files);
      OldestUnique(files, a[0], b[0]);
      ListingUnique(a[1..], b[1..], keys - {a[0]});
      assert a == [a[0]] + a[1..] && b == [b[0]] + b[1..];
    }
  }

  /** The path of a spool file sorts by time: file names follow (timestamp, hash prefix) whenever the
      timestamps print equally wide and the hashes are full length. */
  lemma NamesFollowTime(a: CrashEvent, b: CrashEvent)
    requires |Dec(a.timestamp)| == |Dec(b.timestamp)|
    requires |a.signature| >= 16 && |b.signature| >= 16
    ensures StrLt(FileName(a), FileName(b)) <==>
      a.timestamp < b.timestamp || (a.timestamp == b.timestamp && StrLt(Prefix(a.signature), Prefix(b.signature)))
    ensures IsJson(FileName(a))
  {
    StrTotal();
    EqualWidthOrder(a.timestamp, b.timestamp);
    var x, y := "-" + Prefix(a.signature) + ".json", "-" + Prefix(b.signature) + ".json";
    LexAppend(CharLt(), Dec(a.timestamp), Dec(b.timestamp), x, y);
    LexAppend(CharLt(), "-" + Prefix(a.signature), "-" + Prefix(b.signature), ".json", ".json");
    LexAppend(CharLt(), "-", "-", Prefix(a.signature), Prefix(b.signature));
    assert FileName(a)[|FileName(a)| - 5..] == ".json";
  }

  /** What follows the timestamp in a name. */
  function Rest(event: CrashEvent): string {
    "-" + Prefix(event.signature) + ".json"
  }

  /** A hyphen sorts before every digit. */
  lemma HyphenFirst(x: string, digits: string, y: string)
    requires digits != [] && digits[0] > '-'
    ensures StrLt("-" + x, digits + y)
  {
    assert ("-" + x)[0] == '-' && (digits + y)[0] == digits[0];
  }

  lemma DigitsAfterHyphen(n: nat, i: nat)
    requires i < |Dec(n)|
    ensures Dec(n)[i] > '-'
  {
    PrintRoundTrip(n, 10);
    assert DigitValue(Dec(n)[i], 10).Some?;
  }

  /** When the first timestamp prints narrower, names compare as it compares with the second one cut to
      the same width. */
  lemma NamesAcrossWidths(a: CrashEvent, b: CrashEvent)
    requires |Dec(a.timestamp)| < |Dec(b.timestamp)|
    ensures StrLt(FileName(a), FileName(b))
      <==> a.timestamp <= DropDigits(b.timestamp, |Dec(b.timestamp)| - |Dec(a.timestamp)|)
    ensures StrLt(FileName(b), FileName(a)) <==> !StrLt(FileName(a), FileName(b))
  {
    var n, k := |Dec(a.timestamp)|, |Dec(b.timestamp)| - |Dec(a.timestamp)|;
    var cut := DropDigits(b.timestamp, k);
    LeadingDigits(b.timestamp, k);
    EqualWidthOrder(a.timestamp, cut);
    DigitsAfterHyphen(b.timestamp, n);
    StrTotal();
    hide StrLt, Print, Dec, DropDigits;
    var digits := Dec(b.timestamp)[n..];
    assert Dec(b.timestamp) == Dec(cut) + digits;
    assert FileName(b) == Dec(cut) + (digits + Rest(b)) && FileName(a) == Dec(a.timestamp) + Rest(a);
    HyphenFirst(Prefix(a.signature) + ".json", digits, Rest(b));
    assert "-" + (Prefix(a.signature) + ".json") == Rest(a);
    StrLtAppend(Dec(a.timestamp), Dec(cut), Rest(a), digits + Rest(b));
    assert FileName(a)[n] == '-' && FileName(b)[n] == digits[0];
  }

  lemma StrLtAppend(a: string, b: string, x: string, y: string)
    requires |a| == |b|
    ensures StrLt(a + x, b + y) <==> StrLt(a, b) || (a == b && StrLt(x, y))
  {
    StrTotal();
    LexAppend(CharLt(), a, b, x, y);
  }

  /** So a machine that booted with its clock near the epoch, one day into 1970, files a crash behind one
      of the year 2025: the older crash is listed last and dropped last. */
  lemma WidthMatters(a: CrashEvent, b: CrashEvent)
    requires a.timestamp == 86400 && b.timestamp == 1757000000
    ensures StrLt(FileName(b), FileName(a))
  {
    TwoWidths();
    NamesAcrossWidths(a, b);
  }

  lemma TwoWidths()
    ensures |Dec(86400)| == 5 && |Dec(1757000000)| == 10 && DropDigits(1757000000, 5) == 17570
  {
    DecWidth(86400);
    DecWidth(1757000000);
    hide Dec, Print;
  }

  // ---------------------------------------------------------------- the refinement as a whole

  /** Events in order of time, and of hash prefix within a second. */
  ghost predicate InKeyOrder(events: seq<CrashEvent>) {
    forall i, j | 0 <= i < j < |events| :: KeyLt(events[i], events[j])
  }

  predicate KeyLt(a: CrashEvent, b: CrashEvent) {
    a.timestamp < b.timestamp || (a.timestamp == b.timestamp && StrLt(Prefix(a.signature), Prefix(b.signature)))
  }

  /** Full-length hashes, and timestamps that print equally wide. */
  ghost predicate EqualWidths(events: seq<CrashEvent>) {
    && (forall i | 0 <= i < |events| :: |events[i].signature| >= 16)
    && (forall i, j | 0 <= i < j < |events| :: |Dec(events[i].timestamp)| == |Dec(events[j].timestamp)|)
  }

  lemma JsonName(event: CrashEvent)
    ensures IsJson(FileName(event))
  {
    assert FileName(event)[|FileName(event)| - 5..] == ".json";
  }

  /** Pushed in order, the spool holds exactly the last 256 events, and every drain lists exactly those,
      oldest first. */
  lemma SpoolRefinement(events: seq<CrashEvent>, out: seq<Entry>)
    requires InKeyOrder(events) && EqualWidths(events)
    ensures PushAll(events) == Filed(Newest(Entries(events)))
    ensures Drained(out, PushAll(events)) ==> out == Newest(Entries(events))
  {
    hide StrLt, Print, PushAll, Filed, Drained, IsJson, FileName;
    forall i, j | 0 <= i < j < |events|
      ensures StrLt(FileName(events[i]), FileName(events[j]))
    {
      NamesFollowTime(events[i], events[j]);
      assert KeyLt(events[i], events[j]);
    }
    SpoolHoldsNewest(events);
    var last := Newest(Entries(events));
    assert Ascending(last);
    forall i | 0 <= i < |last|
      ensures IsJson(last[i].0)
    {
      JsonName(events[|events| - |last| + i]);
    }
    if Drained(out, PushAll(events)) {
      DrainInOrder(last, out);
    }
  }

  // ---------------------------------------------------------------- the numbers and names themselves

  /** The newest are the last 256. */
  lemma NewestIs<T>(s: seq<T>)
    ensures Newest(s) == s[if |s| <= 256 then 0 else |s| - 256..]
  {
  }

  /** A name with the extension and something before it. */
  lemma JsonIff(name: string)
    ensures IsJson(name) <==> exists stem :: stem != [] && name == stem + ".json"
  {
    if IsJson(name) {
      assert name == name[..|name| - 5] + ".json";
    }
    if stem :| stem != [] && name == stem + ".json" {
      assert name[|name| - 5..] == ".json";
    }
  }

  /** The first sixteen characters of a hash. */
  function Sixteen(hash: string): string {
    if |hash| < 16 then hash else hash[..16]
  }

  lemma FileNameIs(event: CrashEvent)
    ensures FileName(event) == Dec(event.timestamp) + (['-'] + (Sixteen(event.signature) + ".json"))
  {
    hide Print;
    assert "-" + Prefix(event.signature) + ".json" == ['-'] + (Sixteen(event.signature) + ".json");
  }

  /** Two events have one file exactly when they are of one second and their hashes agree in sixteen characters. */
  lemma SameFileIff(a: CrashEvent, b: CrashEvent)
    ensures FileName(a) == FileName(b) <==> a.timestamp == b.timestamp && Sixteen(a.signature) == Sixteen(b.signature)
  {
    FileNameIs(a);
    FileNameIs(b);
    PrintRoundTrip(a.timestamp, 10);
    PrintRoundTrip(b.timestamp, 10);
    NoHyphen(a.timestamp);
    NoHyphen(b.timestamp);
    hide Dec, FileName, DigitsValue;
    var x, y := Sixteen(a.signature) + ".json", Sixteen(b.signature) + ".json";
    if FileName(a) == FileName(b) {
      Text.SplitOnceAt(Dec(a.timestamp), x, '-');
      Text.SplitOnceAt(Dec(b.timestamp), y, '-');
      assert Dec(a.timestamp) + ['-'] + x == FileName(a) && Dec(b.timestamp) + ['-'] + y == FileName(b);
      assert Sixteen(a.signature) == x[..|x| - 5] && Sixteen(b.signature) == y[..|y| - 5];
    }
  }

  lemma NoHyphen(n: nat)
    ensures Text.Free(Dec(n), '-')
  {
    forall i | 0 <= i < |Dec(n)|
      ensures Dec(n)[i] != '-'
    {
      DigitsAfterHyphen(n, i);
    }
  }
}
