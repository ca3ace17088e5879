/** Kernel oops coalescing: the kernel arm of the loop in crates/blankres-daemon/src/main.rs, and
    `OopsBuilder` in crates/blankres-daemon/src/oops.rs. */
module Oops {
  import opened Base
  import opened Text

  const COALESCE_WINDOW_SECS := 10

  const OOPS_MARKERS := [
    "Oops:", "kernel BUG at", "BUG: unable to handle", "BUG: kernel NULL pointer dereference",
    "general protection fault", "Unable to handle kernel", "kernel panic", "Kernel panic"]

  /** The line holds one of the markers, anywhere. */
  predicate StartsOops(line: string) {
    exists i :: 0 <= i < |OOPS_MARKERS| && Contains(line, OOPS_MARKERS[i])
  }

  datatype Entry = Entry(timestamp: nat, message: string)

  /** A finished oops as it is sent: when it started, and its lines. */
  datatype Group = Group(startedAt: nat, lines: seq<string>)

  /** An oops whose end has not been seen yet. */
  class OopsBuilder {
    const startedAt: nat
    var lines: seq<string>

    constructor (startedAt: nat, first: string)
      ensures this.startedAt == startedAt && lines == [first]
    {
      this.startedAt := startedAt;
      lines := [first];
    }

    method Push(line: string)
      modifies this
      ensures lines == old(lines) + [line]
    {
      lines := lines + [line];
    }

    predicate Accepts(now: nat) {
      Within(startedAt, now)
    }

    function Finished(): Group
      reads this
    {
      Group(startedAt, lines)
    }
  }

  predicate Within(startedAt: nat, now: nat) {
    SaturatingSub(now, startedAt) <= COALESCE_WINDOW_SECS
  }

  // ---------------------------------------------------------------- what coalescing means

  /** A block of consecutive entries `from .. to`. */
  datatype Block = Block(from: nat, to: nat)

  function Messages(stream: seq<Entry>): seq<string> {
    seq(|stream|, i requires 0 <= i < |stream| => stream[i].message)
  }

  /** A block starts at a marker line and takes every following entry within the window, up to the
      first that is not. */
  ghost predicate IsOops(stream: seq<Entry>, b: Block) {
    && b.from < b.to <= |stream|
    && StartsOops(stream[b.from].message)
    && (forall k :: b.from < k < b.to ==> Within(stream[b.from].timestamp, stream[k].timestamp))
    && (b.to < |stream| ==> !Within(stream[b.from].timestamp, stream[b.to].timestamp))
  }

  ghost predicate Covered(blocks: seq<Block>, k: int) {
    exists b :: 0 <= b < |blocks| && blocks[b].from <= k < blocks[b].to
  }

  /** The blocks of a stream: in order, disjoint, maximal, and leaving out no marker line. */
  ghost predicate Coalesced(stream: seq<Entry>, blocks: seq<Block>) {
    && (forall b :: 0 <= b < |blocks| ==> IsOops(stream, blocks[b]))
    && (forall b, c :: 0 <= b < c < |blocks| ==> blocks[b].to <= blocks[c].from)
    && (forall k :: 0 <= k < |stream| && StartsOops(stream[k].message) ==> Covered(blocks, k))
  }

  function GroupOf(stream: seq<Entry>, b: Block): Group
    requires b.from < b.to <= |stream|
  {
    Group(stream[b.from].timestamp, Messages(stream[b.from..b.to]))
  }

  function GroupsOf(stream: seq<Entry>, blocks: seq<Block>): seq<Group>
    requires forall b :: 0 <= b < |blocks| ==> blocks[b].from < blocks[b].to <= |stream|
  {
    seq(|blocks|, b requires 0 <= b < |blocks| => GroupOf(stream, blocks[b]))
  }

  // ---------------------------------------------------------------- the loop

  /** What has been seen so far: the finished blocks, and where an open one began. */
  ghost predicate SoFar(stream: seq<Entry>, n: nat, blocks: seq<Block>, open: Option<nat>) {
    && n <= |stream|
    && (forall b :: 0 <= b < |blocks| ==> IsOops(stream, blocks[b]) && blocks[b].to < |stream| && blocks[b].to <= n)
    && (forall b, c :: 0 <= b < c < |blocks| ==> blocks[b].to <= blocks[c].from)
    && (open.Some? ==>
          && open.value < n
          && StartsOops(stream[open.value].message)
          && (forall k :: open.value < k < n ==> Within(stream[open.value].timestamp, stream[k].timestamp))
          && (forall b :: 0 <= b < |blocks| ==> blocks[b].to <= open.value))
    && (forall k :: 0 <= k < n && StartsOops(stream[k].message) ==>
          Covered(blocks, k) || (open.Some? && open.value <= k))
  }

  lemma CoveredMore(blocks: seq<Block>, b: Block)
    ensures forall k :: Covered(blocks, k) ==> Covered(blocks + [b], k)
    ensures forall k :: b.from <= k < b.to ==> Covered(blocks + [b], k)
  {
    forall k | Covered(blocks, k)
      ensures Covered(blocks + [b], k)
    {
      var c :| 0 <= c < |blocks| && blocks[c].from <= k < blocks[c].to;
      assert (blocks + [b])[c] == blocks[c];
    }
    assert (blocks + [b])[|blocks|] == b;
  }

  /** The open block ends at an entry outside its window. */
  lemma Flush(stream: seq<Entry>, n: nat, blocks: seq<Block>, start: nat)
    requires SoFar(stream, n, blocks, Some(start)) && n < |stream|
    requires !Within(stream[start].timestamp, stream[n].timestamp)
    ensures SoFar(stream, n, blocks + [Block(start, n)], None)
  {
    hide StartsOops, Within;
    CoveredMore(blocks, Block(start, n));
    hide Covered;
  }

  /** An entry within the window of the open block joins it. */
  lemma Join(stream: seq<Entry>, n: nat, blocks: seq<Block>, start: nat)
    requires SoFar(stream, n, blocks, Some(start)) && n < |stream|
    requires Within(stream[start].timestamp, stream[n].timestamp)
    ensures SoFar(stream, n + 1, blocks, Some(start))
  {
  }

  /** Outside every block a marker line opens one, and any other line is passed over. */
  lemma Start(stream: seq<Entry>, n: nat, blocks: seq<Block>)
    requires SoFar(stream, n, blocks, None) && n < |stream|
    ensures SoFar(stream, n + 1, blocks, if StartsOops(stream[n].message) then Some(n) else None)
  {
  }

  lemma Done(stream: seq<Entry>, blocks: seq<Block>, open: Option<nat>)
    requires SoFar(stream, |stream|, blocks, open)
    ensures open.Some? ==> Coalesced(stream, blocks + [Block(open.value, |stream|)])
    ensures open.None? ==> Coalesced(stream, blocks)
  {
    hide StartsOops, Within;
    if open.Some? {
      CoveredMore(blocks, Block(open.value, |stream|));
      hide Covered;
    }
  }

  /** The groups are those of a coalescing of the stream; there is only one (`GroupsUnique`). */
  ghost predicate AreGroups(stream: seq<Entry>, groups: seq<Group>) {
    exists blocks :: Coalesced(stream, blocks) && groups == GroupsOf(stream, blocks)
  }

  /** Group a finite stream of kernel lines, and flush what is open when it ends. */
  method Coalesce(stream: seq<Entry>) returns (groups: seq<Group>)
    ensures AreGroups(stream, groups)
  {
    groups := [];
    ghost var blocks: seq<Block> := [];
    var oops: OopsBuilder? := null;
    ghost var open: Option<nat> := None;
    hide StartsOops, IsOops, Covered, Coalesced, AreGroups;
    for n := 0 to |stream|
      invariant SoFar(stream, n, blocks, open)
      invariant forall b :: 0 <= b < |blocks| ==> blocks[b].from < blocks[b].to <= |stream|
      invariant groups == GroupsOf(stream, blocks)
      invariant open.Some? <==> oops != null
      invariant oops != null ==> fresh(oops)
      invariant oops != null ==> oops.Finished() == GroupOf(stream, Block(open.value, n))
    {
      var entry := stream[n];
      var line := entry.message;
      if oops != null && oops.Accepts(entry.timestamp) {
        oops.Push(line);
        Join(stream, n, blocks, open.value);
        assert stream[open.value..n + 1] == stream[open.value..n] + [entry];
      } else {
        if oops != null {
          groups := groups + [oops.Finished()];
          Flush(stream, n, blocks, open.value);
          blocks := blocks + [Block(open.value, n)];
          oops := null;
          open := None;
        }
        Start(stream, n, blocks);
        if StartsOops(line) {
          oops := new OopsBuilder(entry.timestamp, line);
          open := Some(n);
          assert stream[n..n + 1] == [entry];
        }
      }
    }
    Done(stream, blocks, open);
    if oops != null {
      groups := groups + [oops.Finished()];
      blocks := blocks + [Block(open.value, |stream|)];
    }
    assert forall b :: 0 <= b < |blocks| ==> blocks[b].from < blocks[b].to <= |stream|;
    AreGroupsOf(stream, blocks, groups);
  }

  lemma AreGroupsOf(stream: seq<Entry>, blocks: seq<Block>, groups: seq<Group>)
    requires Coalesced(stream, blocks) && groups == GroupsOf(stream, blocks)
    ensures AreGroups(stream, groups)
  {
  }

  // ---------------------------------------------------------------- the meaning is unique

  /** Every marker line lies in exactly one block, and lines outside all blocks are not markers. */
  lemma MarkersOnce(stream: seq<Entry>, blocks: seq<Block>, k: nat, b: nat, c: nat)
    requires Coalesced(stream, blocks) && k < |stream|
    requires b < |blocks| && c < |blocks| && blocks[b].from <= k < blocks[b].to && blocks[c].from <= k < blocks[c].to
    ensures b == c
  {
  }

  lemma SameEnd(stream: seq<Entry>, a: Block, b: Block)
    requires IsOops(stream, a) && IsOops(stream, b) && a.from == b.from
    ensures a == b
  {
  }

  /** Of two block lists that agree so far, the next block starts at the same entry. */
  lemma NextStart(stream: seq<Entry>, x: seq<Block>, y: seq<Block>, i: nat)
    requires Coalesced(stream, x) && Coalesced(stream, y)
    requires i < |x| && i <= |y| && x[..i] == y[..i]
    ensures i < |y| && y[i].from <= x[i].from
  {
    var k := x[i].from;
    forall j | 0 <= j < i
      ensures y[j].to <= k
    {
      assert x[..i][j] == y[..i][j];
    }
    assert IsOops(stream, x[i]);
    assert Covered(y, k);
    hide Coalesced, IsOops;
    var b :| 0 <= b < |y| && y[b].from <= k < y[b].to;
    BlocksOrdered(stream, y, i, b);
  }

  lemma BlocksOrdered(stream: seq<Entry>, y: seq<Block>, i: nat, b: nat)
    requires Coalesced(stream, y) && i <= b < |y|
    ensures y[i].from <= y[b].from
  {
    BlockOf(stream, y, i);
    BlocksApart(stream, y, i, b);
    hide Coalesced, IsOops;
  }

  lemma BlocksApart(stream: seq<Entry>, y: seq<Block>, i: nat, b: nat)
    requires Coalesced(stream, y) && i <= b < |y|
    ensures i < b ==> y[i].to <= y[b].from
  {
    hide IsOops, StartsOops, Covered;
  }

  lemma BlockOf(stream: seq<Entry>, y: seq<Block>, i: nat)
    requires Coalesced(stream, y) && i < |y|
    ensures IsOops(stream, y[i]) && y[i].from < y[i].to
  {
    hide StartsOops, Covered;
  }

  /** A stream has one coalescing: the declarative description leaves no choice. */
  lemma {:induction false} CoalescedUnique(stream: seq<Entry>, x: seq<Block>, y: seq<Block>, i: nat)
    requires Coalesced(stream, x) && Coalesced(stream, y)
    requires i <= |x| && i <= |y| && x[..i] == y[..i]
    ensures x == y
    decreases |x| - i
  {
    hide Coalesced, IsOops, StartsOops, Covered;
    if i < |x| {
      NextStart(stream, x, y, i);
      NextStart(stream, y, x, i);
      BlockOf(stream, x, i);
      BlockOf(stream, y, i);
      SameEnd(stream, x[i], y[i]);
      assert x[..i + 1] == x[..i] + [x[i]] && y[..i + 1] == y[..i] + [y[i]];
      CoalescedUnique(stream, x, y, i + 1);
    } else if i < |y| {
      NextStart(stream, y, x, i);
    } else {
      assert x == x[..i] && y == y[..i];
    }
  }

  /** So a stream has one list of groups. */
  lemma GroupsUnique(stream: seq<Entry>, g: seq<Group>, h: seq<Group>)
    requires AreGroups(stream, g) && AreGroups(stream, h)
    ensures g == h
  {
    var x :| Coalesced(stream, x) && g == GroupsOf(stream, x);
    var y :| Coalesced(stream, y) && h == GroupsOf(stream, y);
    hide Coalesced;
    CoalescedUnique(stream, x, y, 0);
  }

  // ---------------------------------------------------------------- the lines and the window themselves

  /** The texts the kernel begins an oops with. */
  predicate Marker(m: string) {
    || m == "Oops:" || m == "kernel BUG at" || m == "BUG: unable to handle" || m == "BUG: kernel NULL pointer dereference"
    || m == "general protection fault" || m == "Unable to handle kernel" || m == "kernel panic" || m == "Kernel panic"
  }

  lemma MarkerIff(m: string)
    ensures Marker(m) <==> m in OOPS_MARKERS
  {
    assert OOPS_MARKERS[0] == "Oops:" && OOPS_MARKERS[1] == "kernel BUG at" && OOPS_MARKERS[2] == "BUG: unable to handle"
        && OOPS_MARKERS[3] == "BUG: kernel NULL pointer dereference" && OOPS_MARKERS[4] == "general protection fault"
        && OOPS_MARKERS[5] == "Unable to handle kernel" && OOPS_MARKERS[6] == "kernel panic" && OOPS_MARKERS[7] == "Kernel panic";
  }

  /** A line starts an oops exactly when one of those texts stands anywhere in it. */
  lemma StartsOopsIff(line: string)
    ensures StartsOops(line) <==> exists a, m, b :: line == a + m + b && Marker(m)
  {
    hide Contains, Marker;
    if StartsOops(line) {
      var i :| 0 <= i < |OOPS_MARKERS| && Contains(line, OOPS_MARKERS[i]);
      ContainsIff(line, OOPS_MARKERS[i]);
      MarkerIff(OOPS_MARKERS[i]);
    }
    if a, m, b :| line == a + m + b && Marker(m) {
      MarkerIff(m);
      ContainsIff(line, m);
      var i :| 0 <= i < |OOPS_MARKERS| && OOPS_MARKERS[i] == m;
    }
  }

  /** An oops takes in what is logged up to ten seconds after it started, and everything dated earlier. */
  lemma WithinIff(startedAt: nat, now: nat)
    ensures Within(startedAt, now) <==> now <= startedAt + 10
  {
  }
}
