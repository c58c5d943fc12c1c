/** The folder hierarchy of a mailbox: the recursive, paged walk that collects every
    folder below "root", the two indexes built from it, and the two path tests the
    copier uses to filter discovered items. */
module Hierarchy {
  import opened Common
  import opened Numbers
  import opened ExchangeTypes

  // ------------------------------------------------------------ the server

  /** What `findFolderAsync(parent, "Shallow", …)` lists for each parent folder id. */
  type Mailbox = map<string, seq<Folder>>

  const PageSize: nat := 50
  const RootFolderId: string := "root"
  const IpmRootName: string := "msgfolderroot"
  const ContactsName: string := "contacts"
  const MissingFolderPathMessage: string := "Cannot read properties of undefined (reading 'folderPath')"

  function Children(mb: Mailbox, parent: string): seq<Folder> {
    if parent in mb then mb[parent] else []
  }

  function Min(a: int, b: int): int {
    if a <= b then a else b
  }

  /** The page the server returns for a shallow FindFolder at `offset`: up to
      `PageSize` children, the last page being the first one that is not full. */
  function ServerPage(mb: Mailbox, parent: string, offset: nat): (r: FindFolderResponse)
    requires offset <= |Children(mb, parent)|
  {
    var page := Children(mb, parent)[offset..Min(offset + PageSize, |Children(mb, parent)|)];
    NewFindFolderResponse.(
      folders := page,
      includesLastItemInRange := |page| < PageSize,
      indexedPagingOffset := Num(offset + |page|))
  }

  // ------------------------------------------------------- the recursive walk

  /** `folder.childFolderCount > 0`; an absent count (`undefined`) compares false. */
  predicate Expandable(f: Folder) {
    f.childFolderCount.Some? && f.childFolderCount.value > 0
  }

  function RankOf(rank: map<string, nat>, id: string): nat {
    if id in rank then rank[id] else 0
  }

  /** The folder ids form a tree: an expandable child ranks below its parent. Without
      this the walk does not terminate. */
  ghost predicate Ranked(mb: Mailbox, rank: map<string, nat>) {
    forall p, k :: p in mb && 0 <= k < |mb[p]| && Expandable(mb[p][k]) ==>
      RankOf(rank, mb[p][k].folderId) < RankOf(rank, p)
  }

  function ItemRank(rank: map<string, nat>, f: Folder): nat {
    if Expandable(f) then RankOf(rank, f.folderId) + 1 else 0
  }

  function MaxRank(rank: map<string, nat>, xs: seq<Folder>): nat {
    if xs == [] then 0
    else
      var rest := MaxRank(rank, xs[1..]);
      if ItemRank(rank, xs[0]) > rest then ItemRank(rank, xs[0]) else rest
  }

  lemma {:induction false} MaxRankAppend(rank: map<string, nat>, a: seq<Folder>, b: seq<Folder>)
    ensures MaxRank(rank, a + b) == if MaxRank(rank, a) > MaxRank(rank, b) then MaxRank(rank, a) else MaxRank(rank, b)
    decreases |a|
  {
    if a != [] {
      assert (a + b)[0] == a[0];
      assert (a + b)[1..] == a[1..] + b;
      MaxRankAppend(rank, a[1..], b);
    } else {
      assert a + b == b;
    }
  }

  lemma {:induction false} MaxRankAt(rank: map<string, nat>, xs: seq<Folder>, k: int)
    requires 0 <= k < |xs|
    ensures ItemRank(rank, xs[k]) <= MaxRank(rank, xs)
    decreases |xs|
  {
    if k > 0 {
      MaxRankAt(rank, xs[1..], k - 1);
    }
  }

  lemma {:induction false} MaxRankBound(rank: map<string, nat>, xs: seq<Folder>, b: nat)
    requires forall k :: 0 <= k < |xs| ==> ItemRank(rank, xs[k]) <= b
    ensures MaxRank(rank, xs) <= b
    decreases |xs|
  {
    if xs != [] {
      MaxRankBound(rank, xs[1..], b);
    }
  }

  lemma MaxRankChildren(mb: Mailbox, rank: map<string, nat>, parent: string)
    requires Ranked(mb, rank)
    ensures MaxRank(rank, Children(mb, parent)) <= RankOf(rank, parent)
  {
    MaxRankBound(rank, Children(mb, parent), RankOf(rank, parent));
  }

  /** What `getAllChildFoldersRecursive(parent)` returns: the children, followed by
      what the `for … of` loop appends while it walks the growing array. */
  ghost function AllChildFolders(mb: Mailbox, rank: map<string, nat>, parent: string): (r: seq<Folder>)
    requires Ranked(mb, rank)
    ensures MaxRank(rank, r) <= RankOf(rank, parent)
    decreases RankOf(rank, parent), 2, 0
  {
    MaxRankChildren(mb, rank, parent);
    var children := Children(mb, parent);
    var appended := Appended(mb, rank, children);
    MaxRankAppend(rank, children, appended);
    children + appended
  }

  /** Everything the loop appends once it has reached the unvisited run `xs`: the
      children lists of the expandable folders in `xs`, then what visiting those
      appended folders appends in turn. */
  ghost function Appended(mb: Mailbox, rank: map<string, nat>, xs: seq<Folder>): (r: seq<Folder>)
    requires Ranked(mb, rank)
    ensures MaxRank(rank, xs) == 0 ==> r == []
    ensures MaxRank(rank, xs) > 0 ==> MaxRank(rank, r) < MaxRank(rank, xs)
    decreases MaxRank(rank, xs), 1, 0
  {
    if MaxRank(rank, xs) == 0 then []
    else
      var round := Round(mb, rank, xs);
      var later := Appended(mb, rank, round);
      MaxRankAppend(rank, round, later);
      round + later
  }

  /** One visit of each folder of `xs`: the recursive result of every expandable one. */
  ghost function Round(mb: Mailbox, rank: map<string, nat>, xs: seq<Folder>): (r: seq<Folder>)
    requires Ranked(mb, rank)
    ensures MaxRank(rank, xs) == 0 ==> r == []
    ensures MaxRank(rank, xs) > 0 ==> MaxRank(rank, r) < MaxRank(rank, xs)
    decreases MaxRank(rank, xs), 0, |xs|
  {
    if xs == [] then []
    else
      var head := if Expandable(xs[0]) then AllChildFolders(mb, rank, xs[0].folderId) else [];
      var tail := Round(mb, rank, xs[1..]);
      MaxRankAppend(rank, head, tail);
      head + tail
  }

  lemma {:induction false} RoundAppend(mb: Mailbox, rank: map<string, nat>, a: seq<Folder>, b: seq<Folder>)
    requires Ranked(mb, rank)
    ensures Round(mb, rank, a + b) == Round(mb, rank, a) + Round(mb, rank, b)
    decreases |a|
  {
    if a != [] {
      assert (a + b)[0] == a[0];
      assert (a + b)[1..] == a[1..] + b;
      RoundUnfold(mb, rank, a + b);
      RoundUnfold(mb, rank, a);
      RoundAppend(mb, rank, a[1..], b);
      Assoc(RoundHead(mb, rank, a[0]), Round(mb, rank, a[1..]), Round(mb, rank, b));
    } else {
      assert a + b == b;
    }
  }

  /** What visiting the single folder `x` appends. */
  ghost function RoundHead(mb: Mailbox, rank: map<string, nat>, x: Folder): seq<Folder>
    requires Ranked(mb, rank)
  {
    if Expandable(x) then AllChildFolders(mb, rank, x.folderId) else []
  }

  lemma RoundUnfold(mb: Mailbox, rank: map<string, nat>, xs: seq<Folder>)
    requires Ranked(mb, rank) && xs != []
    ensures Round(mb, rank, xs) == RoundHead(mb, rank, xs[0]) + Round(mb, rank, xs[1..])
  {
  }

  lemma RoundSingle(mb: Mailbox, rank: map<string, nat>, x: Folder)
    requires Ranked(mb, rank)
    ensures Round(mb, rank, [x]) == if Expandable(x) then AllChildFolders(mb, rank, x.folderId) else []
  {
    assert [x][1..] == [];
  }

  lemma AppendedUnfold(mb: Mailbox, rank: map<string, nat>, xs: seq<Folder>)
    requires Ranked(mb, rank) && MaxRank(rank, xs) > 0
    ensures Appended(mb, rank, xs) == Round(mb, rank, xs) + Appended(mb, rank, Round(mb, rank, xs))
  {
  }

  /** Visiting the run `a` before the rest `b`: what `a`'s folders append goes to the
      end of the array and is visited after `b`. */
  lemma {:induction false} AppendedSplit(mb: Mailbox, rank: map<string, nat>, a: seq<Folder>, b: seq<Folder>)
    requires Ranked(mb, rank)
    ensures Appended(mb, rank, a + b) == Round(mb, rank, a) + Appended(mb, rank, b + Round(mb, rank, a))
    decreases MaxRank(rank, a + b)
  {
    MaxRankAppend(rank, a, b);
    var fa, fb := Round(mb, rank, a), Round(mb, rank, b);
    RoundAppend(mb, rank, a, b);
    MaxRankAppend(rank, b, fa);
    if MaxRank(rank, a + b) == 0 {
      assert b + fa == b;
    } else if MaxRank(rank, b + fa) == 0 {
      AppendedSplitFlat(mb, rank, a, b);
    } else {
      MaxRankAppend(rank, fa, fb);
      AppendedSplit(mb, rank, fa, fb);
      AppendedSplitStep(mb, rank, a, b);
    }
  }

  /** The case where nothing appended by `a` needs a further visit. */
  lemma AppendedSplitFlat(mb: Mailbox, rank: map<string, nat>, a: seq<Folder>, b: seq<Folder>)
    requires Ranked(mb, rank)
    requires MaxRank(rank, a + b) > 0 && MaxRank(rank, b + Round(mb, rank, a)) == 0
    requires Round(mb, rank, a + b) == Round(mb, rank, a) + Round(mb, rank, b)
    ensures Appended(mb, rank, a + b) == Round(mb, rank, a) + Appended(mb, rank, b + Round(mb, rank, a))
  {
    var fa, fb := Round(mb, rank, a), Round(mb, rank, b);
    MaxRankAppend(rank, b, fa);
    assert fb == [] && Appended(mb, rank, fa) == [];
    assert fa + fb == fa;
    AppendedUnfold(mb, rank, a + b);
    assert fa + [] == fa;
  }

  /** The inductive case, given the statement for the runs `Round(a)` and `Round(b)`. */
  lemma AppendedSplitStep(mb: Mailbox, rank: map<string, nat>, a: seq<Folder>, b: seq<Folder>)
    requires Ranked(mb, rank)
    requires MaxRank(rank, a + b) > 0 && MaxRank(rank, b + Round(mb, rank, a)) > 0
    requires Round(mb, rank, a + b) == Round(mb, rank, a) + Round(mb, rank, b)
    requires var fa, fb := Round(mb, rank, a), Round(mb, rank, b);
      Appended(mb, rank, fa + fb) == Round(mb, rank, fa) + Appended(mb, rank, fb + Round(mb, rank, fa))
    ensures Appended(mb, rank, a + b) == Round(mb, rank, a) + Appended(mb, rank, b + Round(mb, rank, a))
  {
    var fa, fb := Round(mb, rank, a), Round(mb, rank, b);
    var ffa := Round(mb, rank, fa);
    var rest := Appended(mb, rank, fb + ffa);
    AppendedUnfold(mb, rank, a + b);
    RoundAppend(mb, rank, b, fa);
    AppendedUnfold(mb, rank, b + fa);
    assert Appended(mb, rank, b + fa) == fb + ffa + rest;
    Regroup(fa, fb, ffa, rest);
  }

  lemma Regroup<T>(a: seq<T>, b: seq<T>, c: seq<T>, d: seq<T>)
    ensures a + b + (c + d) == a + (b + c + d)
  {
  }

  /** A folder without a positive child count is never descended into, so when no
      listed folder has one (the EWS parser never sets the count) the walk returns the
      direct children only. */
  lemma ShallowWithoutCounts(mb: Mailbox, rank: map<string, nat>, parent: string)
    requires Ranked(mb, rank)
    requires forall k :: 0 <= k < |Children(mb, parent)| ==> !Expandable(Children(mb, parent)[k])
    ensures AllChildFolders(mb, rank, parent) == Children(mb, parent)
  {
    MaxRankBound(rank, Children(mb, parent), 0);
    assert Children(mb, parent) + [] == Children(mb, parent);
  }

  /** The mailbox root → A → B → C → D, with its ranks. */
  function NestedMailbox(a: Folder, b: Folder, c: Folder, d: Folder): Mailbox {
    map[RootFolderId := [a], "A" := [b], "B" := [c], "C" := [d]]
  }

  const NestedRank: map<string, nat> := map[RootFolderId := 4, "A" := 3, "B" := 2, "C" := 1]

  predicate NestedFolders(a: Folder, b: Folder, c: Folder, d: Folder) {
    a.folderId == "A" && b.folderId == "B" && c.folderId == "C" && d.folderId == "D"
    && a.childFolderCount == Some(1) && b.childFolderCount == Some(1)
    && c.childFolderCount == Some(1) && d.childFolderCount == Some(0)
  }

  lemma NestedRanked(a: Folder, b: Folder, c: Folder, d: Folder)
    requires NestedFolders(a, b, c, d)
    ensures Ranked(NestedMailbox(a, b, c, d), NestedRank)
  {
  }

  /** One visit of a single folder, given its subtree. */
  lemma RoundOne(mb: Mailbox, rank: map<string, nat>, x: Folder, sub: seq<Folder>)
    requires Ranked(mb, rank) && Expandable(x)
    requires AllChildFolders(mb, rank, x.folderId) == sub
    ensures Round(mb, rank, [x]) == sub
  {
    RoundSingle(mb, rank, x);
  }

  lemma RoundOfThree(mb: Mailbox, rank: map<string, nat>, p: seq<Folder>, q: seq<Folder>, r: seq<Folder>)
    requires Ranked(mb, rank)
    ensures Round(mb, rank, p + q + r) == Round(mb, rank, p) + Round(mb, rank, q) + Round(mb, rank, r)
  {
    RoundAppend(mb, rank, p, q);
    RoundAppend(mb, rank, p + q, r);
  }

  /** What a run with an expandable folder appends, given its first round and what
      that round appends. */
  lemma AppendedOf(mb: Mailbox, rank: map<string, nat>, xs: seq<Folder>, round: seq<Folder>, later: seq<Folder>)
    requires Ranked(mb, rank) && MaxRank(rank, xs) > 0
    requires Round(mb, rank, xs) == round && Appended(mb, rank, round) == later
    ensures Appended(mb, rank, xs) == round + later
  {
    AppendedUnfold(mb, rank, xs);
  }

  /** The walk below `parent`, given its children and what they append. */
  lemma AllChildOf(mb: Mailbox, rank: map<string, nat>, parent: string, children: seq<Folder>, later: seq<Folder>)
    requires Ranked(mb, rank)
    requires Children(mb, parent) == children && Appended(mb, rank, children) == later
    ensures AllChildFolders(mb, rank, parent) == children + later
  {
  }

  /** Below C: its one child D, which is not expanded. */
  lemma NestedWalkC(a: Folder, b: Folder, c: Folder, d: Folder)
    requires NestedFolders(a, b, c, d)
    ensures Ranked(NestedMailbox(a, b, c, d), NestedRank)
    ensures AllChildFolders(NestedMailbox(a, b, c, d), NestedRank, "C") == [d]
    ensures Round(NestedMailbox(a, b, c, d), NestedRank, [d]) == []
    ensures Appended(NestedMailbox(a, b, c, d), NestedRank, [d]) == []
  {
    var mb := NestedMailbox(a, b, c, d);
    NestedRanked(a, b, c, d);
    RoundSingle(mb, NestedRank, d);
    assert MaxRank(NestedRank, [d]) == 0;
    AllChildOf(mb, NestedRank, "C", [d], []);
    assert [d] + [] == [d];
  }

  /** Below B: C, then D; the run C, D appends D once more. */
  lemma NestedWalkB(a: Folder, b: Folder, c: Folder, d: Folder)
    requires NestedFolders(a, b, c, d)
    ensures Ranked(NestedMailbox(a, b, c, d), NestedRank)
    ensures AllChildFolders(NestedMailbox(a, b, c, d), NestedRank, "B") == [c, d]
    ensures Round(NestedMailbox(a, b, c, d), NestedRank, [c, d]) == [d]
    ensures Appended(NestedMailbox(a, b, c, d), NestedRank, [c, d]) == [d]
  {
    var mb := NestedMailbox(a, b, c, d);
    NestedWalkC(a, b, c, d);
    RoundOne(mb, NestedRank, c, [d]);
    assert MaxRank(NestedRank, [c]) == 2;
    AppendedOf(mb, NestedRank, [c], [d], []);
    assert [d] + [] == [d];
    AllChildOf(mb, NestedRank, "B", [c], [d]);
    RoundOfThree(mb, NestedRank, [c], [d], []);
    assert [c] + [d] + [] == [c, d];
    assert Round(mb, NestedRank, []) == [];
    assert MaxRank(NestedRank, [c, d]) == 2;
    AppendedOf(mb, NestedRank, [c, d], [d], []);
  }

  /** Below A: B, C, D, D; the run B, C, D, D appends C, D, D, D. */
  lemma NestedWalkA(a: Folder, b: Folder, c: Folder, d: Folder)
    requires NestedFolders(a, b, c, d)
    ensures Ranked(NestedMailbox(a, b, c, d), NestedRank)
    ensures AllChildFolders(NestedMailbox(a, b, c, d), NestedRank, "A") == [b, c, d, d]
    ensures Appended(NestedMailbox(a, b, c, d), NestedRank, [b, c, d, d]) == [c, d, d, d]
  {
    var mb := NestedMailbox(a, b, c, d);
    NestedWalkB(a, b, c, d);
    RoundOne(mb, NestedRank, b, [c, d]);
    assert MaxRank(NestedRank, [b]) == 3;
    AppendedOf(mb, NestedRank, [b], [c, d], [d]);
    assert [c, d] + [d] == [c, d, d];
    AllChildOf(mb, NestedRank, "A", [b], [c, d, d]);
    assert [b] + [c, d, d] == [b, c, d, d];
    NestedWalkARun(a, b, c, d);
  }

  /** The run B, C, D, D: one round gives C, D, D, whose round gives one more D. */
  lemma NestedWalkARun(a: Folder, b: Folder, c: Folder, d: Folder)
    requires NestedFolders(a, b, c, d)
    ensures Ranked(NestedMailbox(a, b, c, d), NestedRank)
    ensures Appended(NestedMailbox(a, b, c, d), NestedRank, [b, c, d, d]) == [c, d, d, d]
  {
    var mb := NestedMailbox(a, b, c, d);
    NestedWalkB(a, b, c, d);
    RoundOne(mb, NestedRank, b, [c, d]);
    RoundOfThree(mb, NestedRank, [b], [c, d], [d]);
    assert [b] + [c, d] + [d] == [b, c, d, d];
    assert [c, d] + [d] + [] == [c, d, d];
    RoundOfThree(mb, NestedRank, [c, d], [d], []);
    assert [c, d] + [d] + [] == [c, d, d];
    assert [d] + [] + [] == [d];
    assert MaxRank(NestedRank, [c, d, d]) == 2;
    AppendedOf(mb, NestedRank, [c, d, d], [d], []);
    assert MaxRank(NestedRank, [b, c, d, d]) == 3;
    AppendedOf(mb, NestedRank, [b, c, d, d], [c, d, d], [d]);
    assert [c, d, d] + [d] == [c, d, d, d];
  }

  /** The `for … of` loop visits the folders it has appended, so from the third level
      down a folder is listed more than once, and the number of copies grows with
      depth: for root → A → B → C → D the walk lists C twice and D five times. */
  lemma NestedFoldersRepeat(a: Folder, b: Folder, c: Folder, d: Folder)
    requires NestedFolders(a, b, c, d)
    ensures Ranked(NestedMailbox(a, b, c, d), NestedRank)
    ensures AllChildFolders(NestedMailbox(a, b, c, d), NestedRank, RootFolderId) == [a, b, c, d, d, c, d, d, d]
  {
    var mb := NestedMailbox(a, b, c, d);
    NestedWalkA(a, b, c, d);
    RoundOne(mb, NestedRank, a, [b, c, d, d]);
    assert MaxRank(NestedRank, [a]) == 4;
    AppendedOf(mb, NestedRank, [a], [b, c, d, d], [c, d, d, d]);
    assert [b, c, d, d] + [c, d, d, d] == [b, c, d, d, c, d, d, d];
    AllChildOf(mb, NestedRank, RootFolderId, [a], [b, c, d, d, c, d, d, d]);
    assert [a] + [b, c, d, d, c, d, d, d] == [a, b, c, d, d, c, d, d, d];
  }

  /** One iteration of the `for … of` loop keeps the loop's account of the final
      array: the visited folder's subtree goes to the end of the array. */
  lemma VisitStep(mb: Mailbox, rank: map<string, nat>, arr: seq<Folder>, i: int, childFolders: seq<Folder>)
    requires Ranked(mb, rank) && 0 <= i < |arr|
    requires childFolders == if Expandable(arr[i]) then AllChildFolders(mb, rank, arr[i].folderId) else []
    ensures arr + childFolders + Appended(mb, rank, (arr + childFolders)[i + 1..]) ==
      arr + Appended(mb, rank, arr[i..])
  {
    var rest := arr[i + 1..];
    assert arr[i..] == [arr[i]] + rest;
    VisitAppended(mb, rank, arr[i], rest, childFolders);
    assert (arr + childFolders)[i + 1..] == rest + childFolders;
    Assoc(arr, childFolders, Appended(mb, rank, rest + childFolders));
  }

  /** Visiting the folder `x` in front of the run `rest`. */
  lemma VisitAppended(mb: Mailbox, rank: map<string, nat>, x: Folder, rest: seq<Folder>, childFolders: seq<Folder>)
    requires Ranked(mb, rank)
    requires childFolders == if Expandable(x) then AllChildFolders(mb, rank, x.folderId) else []
    ensures Appended(mb, rank, [x] + rest) == childFolders + Appended(mb, rank, rest + childFolders)
  {
    AppendedSplit(mb, rank, [x], rest);
    RoundSingle(mb, rank, x);
  }

  /** A folder the loop reaches lies below `parent`, so it ranks below it. */
  lemma VisitRank(mb: Mailbox, rank: map<string, nat>, parent: string, arr: seq<Folder>, rest: seq<Folder>, i: int)
    requires Ranked(mb, rank) && 0 <= i < |arr|
    requires arr + rest == AllChildFolders(mb, rank, parent)
    requires Expandable(arr[i])
    ensures RankOf(rank, arr[i].folderId) < RankOf(rank, parent)
  {
    var total := AllChildFolders(mb, rank, parent);
    assert total[i] == arr[i];
    MaxRankAt(rank, total, i);
  }

  /** The loop's account of the walk below `parent`: the array built so far, followed
      by everything still to be appended for its unvisited run from `i`, is the whole walk. */
  ghost predicate Frontier(mb: Mailbox, rank: map<string, nat>, parent: string, arr: seq<Folder>, i: nat) {
    Ranked(mb, rank) && i <= |arr| && arr + Appended(mb, rank, arr[i..]) == AllChildFolders(mb, rank, parent)
  }

  /** Before the loop the array holds the children and nothing is visited. */
  lemma FrontierStart(mb: Mailbox, rank: map<string, nat>, parent: string)
    requires Ranked(mb, rank)
    ensures Frontier(mb, rank, parent, Children(mb, parent), 0)
  {
    assert Children(mb, parent)[0..] == Children(mb, parent);
  }

  /** One iteration keeps the account, and the walk is at least as long as the array. */
  lemma FrontierStep(mb: Mailbox, rank: map<string, nat>, parent: string, arr: seq<Folder>, i: nat, childFolders: seq<Folder>)
    requires Frontier(mb, rank, parent, arr, i) && i < |arr|
    requires childFolders == if Expandable(arr[i]) then AllChildFolders(mb, rank, arr[i].folderId) else []
    ensures Frontier(mb, rank, parent, arr + childFolders, i + 1)
    ensures i < |AllChildFolders(mb, rank, parent)|
  {
    VisitStep(mb, rank, arr, i, childFolders);
  }

  /** Once every folder is visited the array is the whole walk. */
  lemma FrontierEnd(mb: Mailbox, rank: map<string, nat>, parent: string, arr: seq<Folder>)
    requires Frontier(mb, rank, parent, arr, |arr|)
    ensures arr == AllChildFolders(mb, rank, parent)
  {
    assert arr[|arr|..] == [];
    assert arr + [] == arr;
  }

  // -------------------------------------------------------------- indexes

  /** `index[key(f)] = f` for each folder in turn: a later folder replaces an earlier
      one with the same key. */
  function IndexByShortId(index: map<string, Folder>, fs: seq<Folder>): (r: map<string, Folder>)
    ensures forall k :: k in r <==> k in index || exists j :: 0 <= j < |fs| && fs[j].shortFolderId == k
  {
    if fs == [] then index
    else
      var last := fs[|fs| - 1];
      var prev := IndexByShortId(index, fs[..|fs| - 1]);
      assert forall j :: 0 <= j < |fs| - 1 ==> fs[..|fs| - 1][j] == fs[j];
      prev[last.shortFolderId := last]
  }

  /** Only folders with a distinguished id (neither `null` nor "") are indexed. */
  function IndexByDistinguishedId(index: map<string, Folder>, fs: seq<Folder>): (r: map<string, Folder>)
    ensures forall k :: k in r <==> (k in index ||
      exists j :: 0 <= j < |fs| && Truthy(fs[j].distinguishedFolderId) && fs[j].distinguishedFolderId.value == k)
  {
    if fs == [] then index
    else
      var last := fs[|fs| - 1];
      var prev := IndexByDistinguishedId(index, fs[..|fs| - 1]);
      assert forall j :: 0 <= j < |fs| - 1 ==> fs[..|fs| - 1][j] == fs[j];
      if Truthy(last.distinguishedFolderId) then prev[last.distinguishedFolderId.value := last] else prev
  }

  /** Indexing one more folder. */
  lemma IndexStep(index: map<string, Folder>, dIndex: map<string, Folder>, fs: seq<Folder>, i: int)
    requires 0 <= i < |fs|
    ensures IndexByShortId(index, fs[..i + 1]) == IndexByShortId(index, fs[..i])[fs[i].shortFolderId := fs[i]]
    ensures IndexByDistinguishedId(dIndex, fs[..i + 1]) ==
      var prev := IndexByDistinguishedId(dIndex, fs[..i]);
      if Truthy(fs[i].distinguishedFolderId) then prev[fs[i].distinguishedFolderId.value := fs[i]] else prev
  {
    assert fs[..i + 1][..i] == fs[..i] && fs[..i + 1][i] == fs[i];
  }

  /** The short-id index holds the last folder with each short id. */
  lemma {:induction false} ShortIdIndexLast(index: map<string, Folder>, fs: seq<Folder>, j: int)
    requires 0 <= j < |fs|
    requires forall i :: j < i < |fs| ==> fs[i].shortFolderId != fs[j].shortFolderId
    ensures IndexByShortId(index, fs)[fs[j].shortFolderId] == fs[j]
    decreases |fs|
  {
    if j < |fs| - 1 {
      var pre := fs[..|fs| - 1];
      assert forall i :: j < i < |pre| ==> pre[i] == fs[i];
      ShortIdIndexLast(index, pre, j);
    }
  }

  /** The distinguished-id index holds the last folder with each distinguished id. */
  lemma {:induction false} DistinguishedIndexLast(index: map<string, Folder>, fs: seq<Folder>, j: int)
    requires 0 <= j < |fs| && Truthy(fs[j].distinguishedFolderId)
    requires forall i :: j < i < |fs| ==> fs[i].distinguishedFolderId != fs[j].distinguishedFolderId
    ensures IndexByDistinguishedId(index, fs)[fs[j].distinguishedFolderId.value] == fs[j]
    decreases |fs|
  {
    if j < |fs| - 1 {
      var pre := fs[..|fs| - 1];
      assert forall i :: j < i < |pre| ==> pre[i] == fs[i];
      DistinguishedIndexLast(index, pre, j);
    }
  }

  // ---------------------------------------------------------------- the class

  class FolderHierarchy {
    /** The service the hierarchy lists folders from. */
    const mailbox: Mailbox
    var folders: seq<Folder>
    var shortFolderIdIndex: map<string, Folder>
    var distinguishedFolderIdIndex: map<string, Folder>

    /** `new FolderHierarchy(service, folders)`: the indexes start empty whatever
        `folders` holds; only `initialize` fills them. */
    constructor(mailbox: Mailbox, folders: seq<Folder>)
      ensures this.mailbox == mailbox && this.folders == folders
      ensures shortFolderIdIndex == map[] && distinguishedFolderIdIndex == map[]
    {
      this.mailbox := mailbox;
      this.folders := folders;
      shortFolderIdIndex := map[];
      distinguishedFolderIdIndex := map[];
    }

    /** The `do … while (!includesLastItemInRange)` loop: pages of `PageSize` at
        offsets 0, 50, 100, … until a page is not full. */
    method FetchAllChildren(parent: string) returns (result: seq<Folder>, offsets: seq<nat>)
      ensures result == Children(mailbox, parent)
      ensures |offsets| == |Children(mailbox, parent)| / PageSize + 1
      ensures forall j :: 0 <= j < |offsets| ==> offsets[j] == PageSize * j
    {
      var all := Children(mailbox, parent);
      result := [];
      offsets := [];
      var offset: nat := 0;
      var done := false;
      while !done
        invariant offset <= |all| && result == all[..offset]
        invariant forall j :: 0 <= j < |offsets| ==> offsets[j] == PageSize * j
        invariant !done ==> offset == PageSize * |offsets|
        invariant done ==> offset == |all| && |offsets| == |all| / PageSize + 1
        decreases |all| - offset + (if done then 0 else 1)
      {
        offsets := offsets + [offset];
        var resp := ServerPage(mailbox, parent, offset);
        assert all[..offset] + resp.folders == all[..offset + |resp.folders|];
        result := result + resp.folders;
        offset := offset + |resp.folders|;
        done := resp.includesLastItemInRange;
      }
      assert all[..|all|] == all;
    }

    /** `getAllChildFoldersRecursive`: `rank` witnesses that the listed folder ids form
        a tree. */
    method GetAllChildFoldersRecursive(parent: string, ghost rank: map<string, nat>) returns (result: seq<Folder>)
      requires Ranked(mailbox, rank)
      ensures result == AllChildFolders(mailbox, rank, parent)
      decreases RankOf(rank, parent)
    {
      var offsets;
      result, offsets := FetchAllChildren(parent);
      FrontierStart(mailbox, rank, parent);
      var i := 0;
      while i < |result|
        invariant Frontier(mailbox, rank, parent, result, i)
        decreases |AllChildFolders(mailbox, rank, parent)| - i
      {
        var folder := result[i];
        var childFolders: seq<Folder> := [];
        if Expandable(folder) {
          VisitRank(mailbox, rank, parent, result, Appended(mailbox, rank, result[i..]), i);
          childFolders := GetAllChildFoldersRecursive(folder.folderId, rank);
        }
        FrontierStep(mailbox, rank, parent, result, i, childFolders);
        result := result + childFolders;
        i := i + 1;
      }
      FrontierEnd(mailbox, rank, parent, result);
    }

    /** `initialize`: every folder below "root" is appended and indexed in order. */
    method Initialize(ghost rank: map<string, nat>)
      requires Ranked(mailbox, rank)
      modifies this
      ensures folders == old(folders) + AllChildFolders(mailbox, rank, RootFolderId)
      ensures shortFolderIdIndex == IndexByShortId(old(shortFolderIdIndex), AllChildFolders(mailbox, rank, RootFolderId))
      ensures distinguishedFolderIdIndex ==
        IndexByDistinguishedId(old(distinguishedFolderIdIndex), AllChildFolders(mailbox, rank, RootFolderId))
    {
      var found := GetAllChildFoldersRecursive(RootFolderId, rank);
      AddFolders(found);
    }

    /** The indexing loop of `initialize`: each folder is appended to the list and
        entered in both indexes. */
    method AddFolders(found: seq<Folder>)
      modifies this
      ensures folders == old(folders) + found
      ensures shortFolderIdIndex == IndexByShortId(old(shortFolderIdIndex), found)
      ensures distinguishedFolderIdIndex == IndexByDistinguishedId(old(distinguishedFolderIdIndex), found)
    {
      for i := 0 to |found|
        invariant folders == old(folders) + found[..i]
        invariant shortFolderIdIndex == IndexByShortId(old(shortFolderIdIndex), found[..i])
        invariant distinguishedFolderIdIndex == IndexByDistinguishedId(old(distinguishedFolderIdIndex), found[..i])
      {
        var folder := found[i];
        IndexStep(old(shortFolderIdIndex), old(distinguishedFolderIdIndex), found, i);
        assert found[..i + 1] == found[..i] + [folder];
        folders := folders + [folder];
        shortFolderIdIndex := shortFolderIdIndex[folder.shortFolderId := folder];
        if Truthy(folder.distinguishedFolderId) {
          distinguishedFolderIdIndex := distinguishedFolderIdIndex[folder.distinguishedFolderId.value := folder];
        }
      }
      assert found[..|found|] == found;
    }

    /** `isFromIpmSubtree`: an empty or unknown short id counts as IPM; otherwise the
        folder's path must start with that of "msgfolderroot", whose absence from the
        index makes the property read throw. */
    function IsFromIpmSubtree(shortFolderId: string): (r: Result<bool>)
      reads this
      ensures r.Err? <==> (shortFolderId != "" && shortFolderId in shortFolderIdIndex
        && IpmRootName !in distinguishedFolderIdIndex)
      ensures r.Err? ==> r.error == TypeError(MissingFolderPathMessage)
      ensures shortFolderId == "" || shortFolderId !in shortFolderIdIndex ==> r == Ok(true)
      ensures shortFolderId != "" && shortFolderId in shortFolderIdIndex && IpmRootName in distinguishedFolderIdIndex ==>
        r == Ok(StartsWith(shortFolderIdIndex[shortFolderId].folderPath, distinguishedFolderIdIndex[IpmRootName].folderPath))
    {
      if shortFolderId == "" then Ok(true)
      else if shortFolderId !in shortFolderIdIndex then Ok(true)
      else if IpmRootName !in distinguishedFolderIdIndex then Err(TypeError(MissingFolderPathMessage))
      else Ok(StartsWith(shortFolderIdIndex[shortFolderId].folderPath, distinguishedFolderIdIndex[IpmRootName].folderPath))
    }

    /** `isContactsSubfolder`: an empty or unknown short id is not one; otherwise the
        folder's path must start with the path of "contacts" followed by "/". */
    function IsContactsSubfolder(shortFolderId: string): (r: Result<bool>)
      reads this
      ensures r.Err? <==> (shortFolderId != "" && shortFolderId in shortFolderIdIndex
        && ContactsName !in distinguishedFolderIdIndex)
      ensures r.Err? ==> r.error == TypeError(MissingFolderPathMessage)
      ensures shortFolderId == "" || shortFolderId !in shortFolderIdIndex ==> r == Ok(false)
      ensures shortFolderId != "" && shortFolderId in shortFolderIdIndex && ContactsName in distinguishedFolderIdIndex ==>
        r == Ok(StartsWith(shortFolderIdIndex[shortFolderId].folderPath, distinguishedFolderIdIndex[ContactsName].folderPath + "/"))
    {
      if shortFolderId == "" then Ok(false)
      else if shortFolderId !in shortFolderIdIndex then Ok(false)
      else if ContactsName !in distinguishedFolderIdIndex then Err(TypeError(MissingFolderPathMessage))
      else Ok(StartsWith(shortFolderIdIndex[shortFolderId].folderPath, distinguishedFolderIdIndex[ContactsName].folderPath + "/"))
    }

    /** A hierarchy whose indexes are empty (one built by the constructor and never
        initialized) lets every short id through both tests. */
    lemma UnindexedAcceptsAll(shortFolderId: string)
      requires shortFolderIdIndex == map[]
      ensures IsFromIpmSubtree(shortFolderId) == Ok(true)
      ensures IsContactsSubfolder(shortFolderId) == Ok(false)
    {
    }

    /** The Contacts folder itself is not its own subfolder, while a folder one level
        below it is. */
    lemma ContactsFolderItself(shortFolderId: string, name: string)
      requires shortFolderId != "" && shortFolderId in shortFolderIdIndex
      requires ContactsName in distinguishedFolderIdIndex
      ensures shortFolderIdIndex[shortFolderId].folderPath == distinguishedFolderIdIndex[ContactsName].folderPath ==>
        IsContactsSubfolder(shortFolderId) == Ok(false)
      ensures shortFolderIdIndex[shortFolderId].folderPath == distinguishedFolderIdIndex[ContactsName].folderPath + "/" + name ==>
        IsContactsSubfolder(shortFolderId) == Ok(true)
    {
      var p := distinguishedFolderIdIndex[ContactsName].folderPath;
      assert (p + "/" + name)[..|p + "/"|] == p + "/";
    }

    /** The tests compare text prefixes, not path components: a sibling of the IPM root
        whose name extends the root's name counts as IPM. */
    lemma IpmTestIsTextual(shortFolderId: string, suffix: string)
      requires shortFolderId != "" && shortFolderId in shortFolderIdIndex
      requires IpmRootName in distinguishedFolderIdIndex
      requires shortFolderIdIndex[shortFolderId].folderPath == distinguishedFolderIdIndex[IpmRootName].folderPath + suffix
      ensures IsFromIpmSubtree(shortFolderId) == Ok(true)
    {
      var p := distinguishedFolderIdIndex[IpmRootName].folderPath;
      assert (p + suffix)[..|p|] == p;
    }

    /** An indexed folder whose path does not begin with the IPM root's path is
        rejected; its path being shorter than the root's is one way. */
    lemma OutsideIpmRejected(shortFolderId: string)
      requires shortFolderId != "" && shortFolderId in shortFolderIdIndex
      requires IpmRootName in distinguishedFolderIdIndex
      requires |shortFolderIdIndex[shortFolderId].folderPath| < |distinguishedFolderIdIndex[IpmRootName].folderPath|
      ensures IsFromIpmSubtree(shortFolderId) == Ok(false)
    {
    }

    /** A Contacts subfolder lies in the IPM subtree when Contacts does. */
    lemma ContactsSubfolderIsIpm(shortFolderId: string)
      requires IsContactsSubfolder(shortFolderId) == Ok(true)
      requires IpmRootName in distinguishedFolderIdIndex
      requires StartsWith(distinguishedFolderIdIndex[ContactsName].folderPath,
        distinguishedFolderIdIndex[IpmRootName].folderPath)
      ensures IsFromIpmSubtree(shortFolderId) == Ok(true)
    {
      var path := shortFolderIdIndex[shortFolderId].folderPath;
      var contacts := distinguishedFolderIdIndex[ContactsName].folderPath;
      var root := distinguishedFolderIdIndex[IpmRootName].folderPath;
      assert path[..|root|] == path[..|contacts + "/"|][..|root|];
      assert (contacts + "/")[..|root|] == contacts[..|root|];
    }
  }
}
