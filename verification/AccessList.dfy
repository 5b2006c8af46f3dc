/** The IP access list: `cfgNet` of config.go builds it, netAccessLevel.go reads it. */
module AccessList {
  import opened Options
  import opened Cidr

  const ACCESS_LEVEL_NONE := 0

  /** One AccessRights line: text that is no CIDR block is logged and skipped. */
  datatype Line = Malformed | Rights(ip: Ip, len: nat, level: int)

  datatype Entry = Entry(subnet: Subnet, level: int)

  predicate Covers(list: seq<Entry>, ip: Ip) {
    exists i :: 0 <= i < |list| && Contains(list[i].subnet, ip)
  }

  // ----- what one line does -----

  function Lower(e: Entry, ip: Ip, level: int): Entry {
    if Contains(e.subnet, ip) && level < e.level then Entry(e.subnet, level) else e
  }

  function LowerAll(list: seq<Entry>, ip: Ip, level: int): (r: seq<Entry>)
    ensures |r| == |list|
    ensures forall i :: 0 <= i < |list| ==> r[i] == Lower(list[i], ip, level)
  {
    if list == [] then [] else [Lower(list[0], ip, level)] + LowerAll(list[1..], ip, level)
  }

  function AddLine(list: seq<Entry>, line: Line): seq<Entry> {
    match line
    case Malformed => list
    case Rights(ip, len, level) =>
      if Covers(list, ip) then LowerAll(list, ip, level) else list + [Entry(SubnetOf(ip, len), level)]
  }

  function Build(lines: seq<Line>): seq<Entry> {
    if lines == [] then [] else AddLine(Build(lines[..|lines| - 1]), lines[|lines| - 1])
  }

  /** The first entry that contains the address. */
  function FirstMatch(list: seq<Entry>, ip: Ip): (r: Option<nat>)
    ensures r.Some? ==> r.value < |list| && Contains(list[r.value].subnet, ip)
                        && forall j :: 0 <= j < r.value ==> !Contains(list[j].subnet, ip)
    ensures r == None ==> !Covers(list, ip)
  {
    if list == [] then None
    else if Contains(list[0].subnet, ip) then Some(0)
    else
      var rest := FirstMatch(list[1..], ip);
      assert forall i :: 1 <= i < |list| ==> list[i] == list[1..][i - 1];
      if rest == None then None else Some(rest.value + 1)
  }

  /** The level of a host; text that is no address matches nothing. */
  function LevelOf(list: seq<Entry>, host: Option<Ip>): int {
    match host
    case None => ACCESS_LEVEL_NONE
    case Some(ip) =>
      var at := FirstMatch(list, ip);
      if at.Some? then list[at.value].level else ACCESS_LEVEL_NONE
  }

  // ----- first match is longest match -----

  /** Where two blocks of the list overlap, the earlier one has the longer prefix. */
  ghost predicate NarrowFirst(list: seq<Entry>) {
    forall i, j, x :: 0 <= i < j < |list| && Contains(list[i].subnet, x) && Contains(list[j].subnet, x)
                      ==> list[i].subnet.len > list[j].subnet.len
  }

  lemma AddLineKeepsNarrowFirst(list: seq<Entry>, line: Line)
    requires NarrowFirst(list)
    ensures NarrowFirst(AddLine(list, line))
  {
    if line.Rights? && !Covers(list, line.ip) {
      var s := SubnetOf(line.ip, line.len);
      forall i, x | 0 <= i < |list| && Contains(list[i].subnet, x) && Contains(s, x)
        ensures list[i].subnet.len > s.len
      {
        if list[i].subnet.len <= s.len {
          NestedOrDisjoint(list[i].subnet, s, x, line.ip);
          assert false;
        }
      }
    }
  }

  lemma {:induction false} BuildIsNarrowFirst(lines: seq<Line>)
    ensures NarrowFirst(Build(lines))
  {
    if lines != [] {
      BuildIsNarrowFirst(lines[..|lines| - 1]);
      AddLineKeepsNarrowFirst(Build(lines[..|lines| - 1]), lines[|lines| - 1]);
    }
  }

  /** For every list of lines, the entry that the first-match scan finds is the one entry with the
      longest prefix among all that contain the host. */
  lemma FirstMatchIsLongestPrefix(lines: seq<Line>, ip: Ip, i: nat)
    requires i < |Build(lines)|
    ensures FirstMatch(Build(lines), ip) == Some(i) <==>
            Contains(Build(lines)[i].subnet, ip)
            && forall j :: 0 <= j < |Build(lines)| && j != i && Contains(Build(lines)[j].subnet, ip)
                           ==> Build(lines)[j].subnet.len < Build(lines)[i].subnet.len
  {
    var list := Build(lines);
    BuildIsNarrowFirst(lines);
    var at := FirstMatch(list, ip);
    if at.Some? && at.value < i && Contains(list[i].subnet, ip) {
      assert list[at.value].subnet.len > list[i].subnet.len;
    }
  }

  // ----- the level of an entry -----

  /** For each entry, the number of the line that created it. */
  ghost function Origins(lines: seq<Line>): seq<nat> {
    if lines == [] then []
    else
      var n := |lines| - 1;
      var before := Origins(lines[..n]);
      if lines[n].Rights? && !Covers(Build(lines[..n]), lines[n].ip) then before + [n] else before
  }

  /** Line `k` counts for the entry created by line `o`: it comes no earlier and its address falls
      inside. */
  ghost predicate Counts(lines: seq<Line>, o: nat, subnet: Subnet, k: nat) {
    o <= k < |lines| && lines[k].Rights? && Contains(subnet, lines[k].ip)
  }

  ghost predicate IsLowest(lines: seq<Line>, o: nat, e: Entry) {
    (exists k: nat :: Counts(lines, o, e.subnet, k) && lines[k].level == e.level)
    && forall k: nat :: Counts(lines, o, e.subnet, k) ==> e.level <= lines[k].level
  }

  ghost predicate EntryOk(lines: seq<Line>, o: nat, e: Entry) {
    o < |lines| && lines[o].Rights? && e.subnet == SubnetOf(lines[o].ip, lines[o].len) && IsLowest(lines, o, e)
  }

  lemma LastLineLowers(lines: seq<Line>, o: nat, e: Entry)
    requires |lines| > 0 && EntryOk(lines[..|lines| - 1], o, e)
    ensures var last := lines[|lines| - 1];
            EntryOk(lines, o, if last.Rights? then Lower(e, last.ip, last.level) else e)
  {
    var n := |lines| - 1;
    var before, last := lines[..n], lines[n];
    var e' := if last.Rights? then Lower(e, last.ip, last.level) else e;
    var w: nat :| Counts(before, o, e.subnet, w) && before[w].level == e.level;
    assert Counts(lines, o, e.subnet, w);
    forall k: nat | Counts(lines, o, e'.subnet, k)
      ensures e'.level <= lines[k].level
    {
      if k < n {
        assert Counts(before, o, e.subnet, k);
      }
    }
    if e' != e {
      assert Counts(lines, o, e'.subnet, n);
    } else {
      assert lines[w].level == e'.level;
    }
  }

  lemma FreshLineEntry(lines: seq<Line>)
    requires |lines| > 0 && lines[|lines| - 1].Rights?
    ensures var n: nat := |lines| - 1;
            EntryOk(lines, n, Entry(SubnetOf(lines[n].ip, lines[n].len), lines[n].level))
  {
  }

  /** Every entry is the block of the line that created it, at the lowest level of all lines from
      that one on whose address falls inside it. */
  lemma {:induction false} LevelsAreLowest(lines: seq<Line>)
    ensures |Origins(lines)| == |Build(lines)|
    ensures forall i :: 0 <= i < |Build(lines)| ==> EntryOk(lines, Origins(lines)[i], Build(lines)[i])
  {
    if lines != [] {
      var n := |lines| - 1;
      var before := lines[..n];
      LevelsAreLowest(before);
      var earlier, last := Build(before), lines[n];
      forall i | 0 <= i < |earlier|
        ensures EntryOk(lines, Origins(before)[i],
                        if last.Rights? then Lower(earlier[i], last.ip, last.level) else earlier[i])
      {
        LastLineLowers(lines, Origins(before)[i], earlier[i]);
      }
      if last.Rights? {
        FreshLineEntry(lines);
        if !Covers(earlier, last.ip) {
          assert forall i :: 0 <= i < |earlier| ==> Lower(earlier[i], last.ip, last.level) == earlier[i];
        }
      }
    }
  }

  /** What a host is granted: nothing when no entry contains it; otherwise the lowest level among
      the line that made the longest matching block and the later lines that fall inside it. */
  lemma GrantedLevel(lines: seq<Line>, ip: Ip)
    ensures var list := Build(lines);
            var granted := LevelOf(list, Some(ip));
            if !Covers(list, ip) then granted == 0
            else exists i :: 0 <= i < |list| && Contains(list[i].subnet, ip) && granted == list[i].level
                             && |Origins(lines)| == |list| && EntryOk(lines, Origins(lines)[i], list[i])
                             && forall j :: 0 <= j < |list| && j != i && Contains(list[j].subnet, ip)
                                            ==> list[j].subnet.len < list[i].subnet.len
  {
    var list := Build(lines);
    var at := FirstMatch(list, ip);
    if at.Some? {
      assert Contains(list[at.value].subnet, ip);
      FirstMatchIsLongestPrefix(lines, ip, at.value);
      LevelsAreLowest(lines);
    }
  }

  // ----- more lines -----

  lemma FirstMatchIs(list: seq<Entry>, ip: Ip, i: nat)
    requires i < |list| && Contains(list[i].subnet, ip)
    requires forall j :: 0 <= j < i ==> !Contains(list[j].subnet, ip)
    ensures FirstMatch(list, ip) == Some(i)
  {
    var at := FirstMatch(list, ip);
    assert Covers(list, ip);
    assert !(at.value < i) && !(i < at.value);
  }

  lemma AddLineKeepsBlocks(list: seq<Entry>, line: Line, i: nat)
    requires i < |list|
    ensures i < |AddLine(list, line)| && AddLine(list, line)[i].subnet == list[i].subnet
    ensures AddLine(list, line)[i].level <= list[i].level
  {
  }

  lemma AddLineKeepsMatch(list: seq<Entry>, line: Line, ip: Ip)
    requires FirstMatch(list, ip).Some?
    ensures FirstMatch(AddLine(list, line), ip) == FirstMatch(list, ip)
    ensures var i := FirstMatch(list, ip).value;
            AddLine(list, line)[i].subnet == list[i].subnet && AddLine(list, line)[i].level <= list[i].level
  {
    var i := FirstMatch(list, ip).value;
    var more := AddLine(list, line);
    AddLineKeepsBlocks(list, line, i);
    forall j | 0 <= j < i
      ensures !Contains(more[j].subnet, ip)
    {
      AddLineKeepsBlocks(list, line, j);
    }
    FirstMatchIs(more, ip, i);
  }

  lemma BuildOneMore(lines: seq<Line>, more: seq<Line>)
    requires more != []
    ensures Build(lines + more) == AddLine(Build(lines + more[..|more| - 1]), more[|more| - 1])
  {
    SplitLast(lines, more);
  }

  lemma SplitLast(lines: seq<Line>, more: seq<Line>)
    requires more != []
    ensures var all := lines + more;
            all != [] && all[..|all| - 1] == lines + more[..|more| - 1] && all[|all| - 1] == more[|more| - 1]
  {
  }

  /** Lines added at the end never move a covered host to another block, never raise its level and
      never uncover it. */
  lemma {:induction false} MoreLinesNeverRaise(lines: seq<Line>, more: seq<Line>, ip: Ip)
    requires FirstMatch(Build(lines), ip).Some?
    ensures FirstMatch(Build(lines + more), ip) == FirstMatch(Build(lines), ip)
    ensures LevelOf(Build(lines + more), Some(ip)) <= LevelOf(Build(lines), Some(ip))
    decreases |more|
  {
    if more == [] {
      assert lines + more == lines;
    } else {
      var init := more[..|more| - 1];
      MoreLinesNeverRaise(lines, init, ip);
      BuildOneMore(lines, more);
      AddLineKeepsMatch(Build(lines + init), more[|more| - 1], ip);
    }
  }

  // ----- coverage -----

  /** The reference notion of coverage, on the lines alone: a host is covered when it lies in the
      block of a line whose own address the lines before it left uncovered. */
  ghost predicate CoveredByLines(lines: seq<Line>, ip: Ip) {
    lines != [] &&
    var n := |lines| - 1;
    CoveredByLines(lines[..n], ip)
    || (lines[n].Rights? && Contains(SubnetOf(lines[n].ip, lines[n].len), ip)
        && !CoveredByLines(lines[..n], lines[n].ip))
  }

  /** The list covers exactly that, whatever the levels: a line whose address an earlier kept line
      already covers adds nothing, however wide its block. */
  lemma {:induction false} CoverageIsExact(lines: seq<Line>, ip: Ip)
    ensures Covers(Build(lines), ip) <==> CoveredByLines(lines, ip)
    decreases |lines|
  {
    if lines != [] {
      var n := |lines| - 1;
      var before, last := lines[..n], lines[n];
      CoverageIsExact(before, ip);
      var was, now := Build(before), Build(lines);
      assert forall i :: 0 <= i < |was| ==> now[i].subnet == was[i].subnet;
      if last.Rights? {
        CoverageIsExact(before, last.ip);
        if !Covers(was, last.ip) {
          assert now[n - n + |was|].subnet == SubnetOf(last.ip, last.len);
        }
      }
      if Covers(was, ip) {
        var i :| 0 <= i < |was| && Contains(was[i].subnet, ip);
        assert Contains(now[i].subnet, ip);
      }
    }
  }

  /** So a line whose address is covered adds no coverage at all, however wide its block. */
  lemma CoveredAddressAddsNothing(lines: seq<Line>, ip: Ip, len: nat, level: int, host: Ip)
    requires Covers(Build(lines), ip)
    ensures Covers(Build(lines + [Rights(ip, len, level)]), host) <==> Covers(Build(lines), host)
  {
    var all := lines + [Rights(ip, len, level)];
    assert all[..|all| - 1] == lines && all[|all| - 1] == Rights(ip, len, level);
    CoverageIsExact(all, host);
    CoverageIsExact(lines, host);
    CoverageIsExact(lines, ip);
  }

  /** The host lies in the block of some line. */
  ghost predicate InSomeBlock(lines: seq<Line>, host: Ip) {
    exists k :: 0 <= k < |lines| && lines[k].Rights? && Contains(SubnetOf(lines[k].ip, lines[k].len), host)
  }

  /** The list covers the whole block, decided on its entries alone: one of them holds the block, or the
      list covers both halves. */
  predicate Filled(list: seq<Entry>, n: Subnet)
    decreases Width(n.family) - n.len
  {
    if n.len >= Width(n.family) then Covers(list, Ip(n.family, n.base))
    else (exists i :: 0 <= i < |list| && list[i].subnet.len <= n.len
                      && Contains(list[i].subnet, Ip(n.family, n.base)))
         || (Filled(list, LowerHalf(n)) && Filled(list, UpperHalf(n)))
  }

  lemma {:induction false} FilledCovers(list: seq<Entry>, n: Subnet, x: Ip)
    requires IsBlock(n) && Filled(list, n) && Contains(n, x)
    ensures Covers(list, x)
    decreases Width(n.family) - n.len
  {
    var base := Ip(n.family, n.base);
    if n.len >= Width(n.family) {
      BlockIsRange(n, x);
      assert x == base;
    } else if i :| 0 <= i < |list| && list[i].subnet.len <= n.len && Contains(list[i].subnet, base) {
      NestedOrDisjoint(list[i].subnet, n, base, x);
    } else {
      HalvesAreBlocks(n);
      BlockIsItsHalves(n, x);
      if Contains(LowerHalf(n), x) {
        FilledCovers(list, LowerHalf(n), x);
      } else {
        FilledCovers(list, UpperHalf(n), x);
      }
    }
  }

  lemma {:induction false} CoveredIsFilled(list: seq<Entry>, n: Subnet)
    requires IsBlock(n) && forall x :: Contains(n, x) ==> Covers(list, x)
    ensures Filled(list, n)
    decreases Width(n.family) - n.len
  {
    if n.len >= Width(n.family) {
      assert Contains(n, Ip(n.family, n.base));
    } else {
      HalvesAreBlocks(n);
      forall x | Contains(LowerHalf(n), x) || Contains(UpperHalf(n), x)
        ensures Covers(list, x)
      {
        BlockIsItsHalves(n, x);
      }
      CoveredIsFilled(list, LowerHalf(n));
      CoveredIsFilled(list, UpperHalf(n));
    }
  }

  /** That decides coverage: a block is filled exactly when each of its addresses is covered. */
  lemma FilledExactlyWhenCovered(list: seq<Entry>, n: Subnet)
    requires IsBlock(n)
    ensures Filled(list, n) <==> forall x :: Contains(n, x) ==> Covers(list, x)
  {
    if Filled(list, n) {
      forall x | Contains(n, x)
        ensures Covers(list, x)
      {
        FilledCovers(list, n, x);
      }
    } else if forall x :: Contains(n, x) ==> Covers(list, x) {
      CoveredIsFilled(list, n);
    }
  }

  lemma {:induction false} CoveredLiesInSomeBlock(lines: seq<Line>, host: Ip)
    requires CoveredByLines(lines, host)
    ensures InSomeBlock(lines, host)
    decreases |lines|
  {
    InSomeBlockStep(lines, host);
    if CoveredByLines(lines[..|lines| - 1], host) {
      CoveredLiesInSomeBlock(lines[..|lines| - 1], host);
    }
  }

  /** Coverage is the union of the lines' blocks exactly when the list that they build fills each of
      them. */
  lemma UnionExactlyWhen(lines: seq<Line>)
    ensures (forall host :: Covers(Build(lines), host) <==> InSomeBlock(lines, host)) <==>
            forall k :: 0 <= k < |lines| && lines[k].Rights? ==>
              Filled(Build(lines), SubnetOf(lines[k].ip, lines[k].len))
  {
    var list := Build(lines);
    forall host | Covers(list, host)
      ensures InSomeBlock(lines, host)
    {
      CoverageIsExact(lines, host);
      CoveredLiesInSomeBlock(lines, host);
    }
    forall k | 0 <= k < |lines| && lines[k].Rights?
      ensures var n := SubnetOf(lines[k].ip, lines[k].len);
              Filled(list, n) <==> forall x :: Contains(n, x) ==> Covers(list, x)
    {
      SubnetIsBlock(lines[k].ip, lines[k].len);
      FilledExactlyWhenCovered(list, SubnetOf(lines[k].ip, lines[k].len));
    }
    assert forall k, x :: 0 <= k < |lines| && lines[k].Rights? && Contains(SubnetOf(lines[k].ip, lines[k].len), x)
                          ==> InSomeBlock(lines, x);
  }

  /** No line's address lies in the block of an earlier line with a longer prefix. */
  ghost predicate WideLinesFirst(lines: seq<Line>) {
    forall i, j :: 0 <= i < j < |lines| && lines[i].Rights? && lines[j].Rights?
                   && Contains(SubnetOf(lines[i].ip, lines[i].len), lines[j].ip)
                   ==> lines[i].len <= lines[j].len
  }

  lemma WideLinesFirstPrefix(lines: seq<Line>, n: nat)
    requires n <= |lines| && WideLinesFirst(lines)
    ensures WideLinesFirst(lines[..n])
  {
    assert forall i :: 0 <= i < n ==> lines[..n][i] == lines[i];
  }

  lemma InSomeBlockStep(lines: seq<Line>, host: Ip)
    requires lines != []
    ensures var n := |lines| - 1;
            InSomeBlock(lines, host) <==>
            InSomeBlock(lines[..n], host) || (lines[n].Rights? && Contains(SubnetOf(lines[n].ip, lines[n].len), host))
  {
    var n := |lines| - 1;
    if InSomeBlock(lines[..n], host) {
      var k :| 0 <= k < n && lines[..n][k].Rights? && Contains(SubnetOf(lines[..n][k].ip, lines[..n][k].len), host);
      assert lines[k] == lines[..n][k];
    }
    if InSomeBlock(lines, host) {
      var k :| 0 <= k < |lines| && lines[k].Rights? && Contains(SubnetOf(lines[k].ip, lines[k].len), host);
      if k < n {
        assert lines[..n][k] == lines[k];
      }
    }
  }

  /** Then coverage is the union of the lines' blocks. */
  lemma {:induction false} WideLinesFirstCoverAll(lines: seq<Line>, host: Ip)
    requires WideLinesFirst(lines)
    ensures CoveredByLines(lines, host) <==> InSomeBlock(lines, host)
    decreases |lines|
  {
    if lines != [] {
      var n := |lines| - 1;
      var before, last := lines[..n], lines[n];
      WideLinesFirstPrefix(lines, n);
      WideLinesFirstCoverAll(before, host);
      InSomeBlockStep(lines, host);
      if last.Rights? && Contains(SubnetOf(last.ip, last.len), host) && CoveredByLines(before, last.ip) {
        WideLinesFirstCoverAll(before, last.ip);
        var k :| 0 <= k < n && before[k].Rights? && Contains(SubnetOf(before[k].ip, before[k].len), last.ip);
        assert lines[k].len <= lines[n].len;
        NestedOrDisjoint(SubnetOf(before[k].ip, before[k].len), SubnetOf(last.ip, last.len), last.ip, host);
        assert InSomeBlock(before, host);
      }
    }
  }

  /** In particular with the wider of two overlapping lines first. */
  lemma UnionWhenWideLinesFirst(lines: seq<Line>, host: Ip)
    requires WideLinesFirst(lines)
    ensures Covers(Build(lines), host) <==> InSomeBlock(lines, host)
  {
    CoverageIsExact(lines, host);
    WideLinesFirstCoverAll(lines, host);
  }

  /** Otherwise coverage need not be the union: 10.9.9.9 lies in the block of the second line and
      has no rights, because that line's address lies in the first line's block. */
  lemma WideBlockIsDropped()
    ensures var ip := Ip(V4, 0x0A01_0203);
            var lines := [Rights(ip, 24, 1), Rights(ip, 8, 2)];
            var host := Ip(V4, 0x0A09_0909);
            Contains(SubnetOf(ip, 8), host) && LevelOf(Build(lines), Some(host)) == ACCESS_LEVEL_NONE
  {
    var ip := Ip(V4, 0x0A01_0203);
    var lines := [Rights(ip, 24, 1), Rights(ip, 8, 2)];
    var host := Ip(V4, 0x0A09_0909);
    assert Pow2(8) == 256;
    assert Pow2(16) == 65536 && Pow2(24) == 16777216 by { Pow2Split(8, 16); Pow2Split(8, 24); }
    assert lines[..1] == [lines[0]] && [lines[0]][..0] == [];
    assert Build([lines[0]]) == [Entry(SubnetOf(ip, 24), 1)];
    var list := Build(lines);
    assert list == [Entry(SubnetOf(ip, 24), 1)] by {
      assert Contains([Entry(SubnetOf(ip, 24), 1)][0].subnet, ip);
      assert LowerAll([Entry(SubnetOf(ip, 24), 1)], ip, 2) == [Entry(SubnetOf(ip, 24), 1)];
    }
  }

  lemma BuildNext(lines: seq<Line>, i: nat)
    requires i < |lines|
    ensures Build(lines[..i + 1]) == AddLine(Build(lines[..i]), lines[i])
  {
    assert lines[..i + 1][..i] == lines[..i];
  }

  // ----- the objects -----

  class AccessNet {
    var level: int
    const subnet: Subnet

    constructor (level: int, subnet: Subnet)
      ensures this.level == level && this.subnet == subnet
    {
      this.level, this.subnet := level, subnet;
    }
  }

  class NetConfig {
    var netAccessList: seq<AccessNet>

    ghost predicate Valid()
      reads this
    {
      forall i, j :: 0 <= i < j < |netAccessList| ==> netAccessList[i] != netAccessList[j]
    }

    /** The list as values. */
    ghost function View(): (r: seq<Entry>)
      reads this, netAccessList
      ensures |r| == |netAccessList|
      ensures forall i :: 0 <= i < |r| ==> r[i] == Entry(netAccessList[i].subnet, netAccessList[i].level)
    {
      seq(|netAccessList|, i requires 0 <= i < |netAccessList| reads this, netAccessList =>
        Entry(netAccessList[i].subnet, netAccessList[i].level))
    }

    /** One AccessRights line: lower every block that holds its address, or append its block. */
    method AddRights(ip: Ip, len: nat, level: int)
      requires Valid()
      modifies this, netAccessList
      ensures Valid() && View() == AddLine(old(View()), Rights(ip, len, level))
      ensures netAccessList == old(netAccessList)
              || (|netAccessList| == |old(netAccessList)| + 1
                  && netAccessList[..|old(netAccessList)|] == old(netAccessList)
                  && fresh(netAccessList[|old(netAccessList)|]))
    {
      ghost var was := View();
      var newNet := true;
      for i := 0 to |netAccessList|
        invariant netAccessList == old(netAccessList)
        invariant newNet <==> forall j :: 0 <= j < i ==> !Contains(was[j].subnet, ip)
        invariant forall j :: 0 <= j < i ==> netAccessList[j].level == Lower(was[j], ip, level).level
        invariant forall j :: i <= j < |netAccessList| ==> netAccessList[j].level == was[j].level
      {
        if Contains(netAccessList[i].subnet, ip) {
          newNet := false;
          if level < netAccessList[i].level {
            netAccessList[i].level := level;
          }
        }
      }
      assert newNet <==> !Covers(was, ip);
      if newNet {
        var n := new AccessNet(level, SubnetOf(ip, len));
        netAccessList := netAccessList + [n];
      }
    }

    /** The access control part of `cfgNet`: the list is rebuilt from the lines. */
    method Rebuild(lines: seq<Line>)
      modifies this
      ensures Valid() && View() == Build(lines)
      ensures fresh(netAccessList)
    {
      netAccessList := [];
      for i := 0 to |lines|
        invariant Valid() && fresh(netAccessList)
        invariant View() == Build(lines[..i])
      {
        BuildNext(lines, i);
        if lines[i].Rights? {
          AddRights(lines[i].ip, lines[i].len, lines[i].level);
        }
      }
      assert lines[..|lines|] == lines;
    }

    /** `getAccessLevel`: the scan with early return. */
    method GetAccessLevel(host: Option<Ip>) returns (level: int)
      ensures level == LevelOf(View(), host)
      ensures host == None || !Covers(View(), host.value) ==> level == 0
    {
      for i := 0 to |netAccessList|
        invariant host.Some? ==> forall j :: 0 <= j < i ==> !Contains(netAccessList[j].subnet, host.value)
      {
        if host.Some? && Contains(netAccessList[i].subnet, host.value) {
          return netAccessList[i].level;
        }
      }
      return ACCESS_LEVEL_NONE;
    }
  }
}
