/** The migration-history validator of packages/db/src/validate-migration-history.ts, as a function of the
    journal, the directory listing and the snapshots. */
module MigrationHistory {
  import opened Wrappers

  datatype Entry = Entry(idx: int, time: int, tag: string)

  datatype Snapshot = Snapshot(file: string, id: string, prevId: string)

  datatype Error =
    | TagsDiffer
    | WrongPosition
    | NotLater
    | DuplicateIds
    | MissingParent
    | MultipleChildren
    | Cycle
    | Unreachable
    | EmptyJournal
    | MissingSnapshot

  function Root(): string {
    "00000000-0000-0000-0000-000000000000"
  }
  const SQL := ".sql"

  // ---------------------------------------------------------------- what a consistent history is

  predicate EndsWith(s: string, suffix: string) {
    |suffix| <= |s| && s[|s| - |suffix|..] == suffix
  }

  function SqlTagsTo(files: seq<string>, n: nat): seq<string>
    requires n <= |files|
  {
    if n == 0 then []
    else SqlTagsTo(files, n - 1) + if EndsWith(files[n - 1], SQL) then [files[n - 1][..|files[n - 1]| - |SQL|]] else []
  }

  function Tags(entries: seq<Entry>): (r: seq<string>)
    ensures |r| == |entries|
  {
    seq(|entries|, i requires 0 <= i < |entries| => entries[i].tag)
  }

  /** Entries are numbered from zero and strictly later one after the other. */
  predicate InSequence(entries: seq<Entry>, n: nat)
    requires n <= |entries|
  {
    forall i :: 0 <= i < n ==> entries[i].idx == i && (i > 0 ==> entries[i - 1].time < entries[i].time)
  }

  predicate DistinctFiles(snapshots: seq<Snapshot>) {
    forall i, j :: 0 <= i < j < |snapshots| ==> snapshots[i].file != snapshots[j].file
  }

  predicate UniqueIds(snapshots: seq<Snapshot>) {
    forall i, j :: 0 <= i < |snapshots| && 0 <= j < |snapshots| && snapshots[i].id == snapshots[j].id ==> i == j
  }

  predicate UniqueParents(snapshots: seq<Snapshot>) {
    forall i, j :: 0 <= i < |snapshots| && 0 <= j < |snapshots| && snapshots[i].prevId == snapshots[j].prevId ==> i == j
  }

  /** `order` lists all snapshots, starting at the root, each the child of the one before. */
  predicate IsChain(snapshots: seq<Snapshot>, order: seq<Snapshot>) {
    && multiset(order) == multiset(snapshots) && UniqueIds(order)
    && forall i :: 0 <= i < |order| ==> Linked(order, i)
  }

  predicate Linked(order: seq<Snapshot>, i: nat)
    requires i < |order|
  {
    order[i].id != Root() && order[i].prevId == if i == 0 then Root() else order[i - 1].id
  }

  /** The snapshots form one chain from the root that covers them all. */
  ghost predicate Linear(snapshots: seq<Snapshot>) {
    exists order :: IsChain(snapshots, order)
  }

  function BeforeUnderscore(tag: string): (r: string)
    ensures r <= tag && '_' !in r && (|r| < |tag| ==> tag[|r|] == '_')
  {
    if |tag| == 0 || tag[0] == '_' then [] else [tag[0]] + BeforeUnderscore(tag[1..])
  }

  predicate HasFile(snapshots: seq<Snapshot>, file: string) {
    exists i :: 0 <= i < |snapshots| && snapshots[i].file == file
  }

  function ExpectedSnapshot(entries: seq<Entry>): string
    requires |entries| > 0
  {
    BeforeUnderscore(entries[|entries| - 1].tag) + "_snapshot.json"
  }

  ghost predicate Consistent(entries: seq<Entry>, files: seq<string>, snapshots: seq<Snapshot>) {
    && multiset(SqlTagsTo(files, |files|)) == multiset(Tags(entries))
    && InSequence(entries, |entries|) && Linear(snapshots)
    && |entries| > 0 && HasFile(snapshots, ExpectedSnapshot(entries))
  }

  /** The tags of the listing are the names of the .sql files, each as often as the file is listed. */
  lemma {:induction false} TagsOfListing(files: seq<string>, n: nat, tag: string)
    requires n <= |files|
    ensures multiset(SqlTagsTo(files, n))[tag] == multiset(files[..n])[tag + ".sql"]
  {
    if n > 0 {
      var file := files[n - 1];
      TagsOfListing(files, n - 1, tag);
      assert files[..n] == files[..n - 1] + [file];
      if EndsWith(file, SQL) {
        assert file == file[..|file| - |SQL|] + ".sql";
        assert file == tag + ".sql" ==> file[..|file| - |SQL|] == tag;
      } else {
        assert EndsWith(tag + ".sql", SQL);
      }
    }
  }

  /** The last entry's tag decides which snapshot is expected: the text before its first underscore does. */
  lemma {:induction false} LastTagDecides(entries: seq<Entry>, start: string)
    requires |entries| > 0
    requires var tag := entries[|entries| - 1].tag; start <= tag && '_' !in start && (start < tag ==> tag[|start|] == '_')
    ensures ExpectedSnapshot(entries) == start + "_snapshot.json"
  {
    var tag := entries[|entries| - 1].tag;
    assert BeforeUnderscore(tag) == tag[..|BeforeUnderscore(tag)|] && start == tag[..|start|];
  }

  // ---------------------------------------------------------------- facts about chains

  lemma {:induction false} SameElement(snapshots: seq<Snapshot>, order: seq<Snapshot>, i: nat) returns (k: nat)
    requires multiset(order) == multiset(snapshots) && i < |order|
    ensures k < |snapshots| && snapshots[k] == order[i]
  {
    assert order[i] in multiset(order);
    assert order[i] in snapshots;
    k :| 0 <= k < |snapshots| && snapshots[k] == order[i];
  }

  /** In a chain no two snapshots share an id or a parent, every parent exists, and no id is the root's. */
  lemma {:induction false} ChainFacts(snapshots: seq<Snapshot>, order: seq<Snapshot>)
    requires IsChain(snapshots, order)
    ensures UniqueIds(snapshots) && UniqueParents(snapshots)
    ensures forall i :: 0 <= i < |snapshots| ==> snapshots[i].id != Root() && HasParent(snapshots, snapshots[i])
  {
    hide Root;
    forall i | 0 <= i < |snapshots|
      ensures snapshots[i].id != Root() && HasParent(snapshots, snapshots[i])
    {
      var k := SameElement(order, snapshots, i);
      assert Linked(order, k);
      if k > 0 {
        var parent := SameElement(snapshots, order, k - 1);
        assert snapshots[parent].id == snapshots[i].prevId;
      }
    }
    forall i, j | 0 <= i < |snapshots| && 0 <= j < |snapshots|
      ensures snapshots[i].id == snapshots[j].id || snapshots[i].prevId == snapshots[j].prevId ==> i == j
    {
      var a := SameElement(order, snapshots, i);
      var b := SameElement(order, snapshots, j);
      OnceInMultiset(order, a);
      if i != j {
        TwiceInMultiset(snapshots, i, j);
      }
      assert Linked(order, a) && Linked(order, b);
      assert (a > 0 ==> Linked(order, a - 1)) && (b > 0 ==> Linked(order, b - 1));
    }
  }

  predicate HasParent(snapshots: seq<Snapshot>, child: Snapshot) {
    child.prevId == Root() || exists i :: 0 <= i < |snapshots| && snapshots[i].id == child.prevId
  }

  lemma {:induction false} SameCount(a: seq<Snapshot>, b: seq<Snapshot>)
    requires multiset(a) == multiset(b)
    ensures |a| == |b|
  {
    assert |multiset(a)| == |multiset(b)|;
  }

  lemma {:induction false} TwiceInMultiset(s: seq<Snapshot>, i: nat, j: nat)
    requires i < |s| && j < |s| && i != j
    ensures s[i] == s[j] ==> multiset(s)[s[i]] >= 2
    decreases i
  {
    if j < i {
      TwiceInMultiset(s, j, i);
      return;
    }
    assert s == s[..j] + s[j..];
    assert s[..j][i] in s[..j] && s[j..][0] in s[j..];
  }

  lemma {:induction false} OnceInMultiset(s: seq<Snapshot>, i: nat)
    requires i < |s| && UniqueIds(s)
    ensures multiset(s)[s[i]] == 1
  {
    assert s == s[..i] + [s[i]] + s[i + 1..];
    assert s[i] !in s[..i];
    assert s[i] !in s[i + 1..];
  }

  // ---------------------------------------------------------------- the walk

  /** The places of snapshots met when walking from the root to children. */
  predicate Walked(snapshots: seq<Snapshot>, walk: seq<nat>) {
    && (forall i :: 0 <= i < |walk| ==> walk[i] < |snapshots|)
    && (forall i :: 0 <= i < |walk| ==> StepsOn(snapshots, walk, i))
    && forall i, j :: 0 <= i < j < |walk| ==> walk[i] != walk[j]
  }

  predicate StepsOn(snapshots: seq<Snapshot>, walk: seq<nat>, i: nat)
    requires i < |walk|
  {
    walk[i] < |snapshots| && snapshots[walk[i]].prevId == ParentAt(snapshots, walk, i)
  }

  function ParentAt(snapshots: seq<Snapshot>, walk: seq<nat>, i: nat): string
    requires i <= |walk|
  {
    if i == 0 || walk[i - 1] >= |snapshots| then Root() else snapshots[walk[i - 1]].id
  }

  /** A walk in a chain follows the chain. */
  lemma {:induction false} WalkFollowsChain(snapshots: seq<Snapshot>, order: seq<Snapshot>, walk: seq<nat>, n: nat)
    requires IsChain(snapshots, order) && Walked(snapshots, walk) && n <= |walk|
    ensures n <= |order| && forall i :: 0 <= i < n ==> snapshots[walk[i]] == order[i]
  {
    hide Root;
    if n > 0 {
      WalkFollowsChain(snapshots, order, walk, n - 1);
      var here := snapshots[walk[n - 1]];
      var k := SameElement(order, snapshots, walk[n - 1]);
      assert StepsOn(snapshots, walk, n - 1) && Linked(order, k);
      assert (n > 1 ==> Linked(order, n - 2)) && (k > 0 ==> Linked(order, k - 1));
    }
  }

  /** A walk that ends early shows that the snapshots are no chain. */
  lemma {:induction false} EarlyEndIsNoChain(snapshots: seq<Snapshot>, walk: seq<nat>)
    requires Walked(snapshots, walk) && |walk| < |snapshots|
    requires forall i :: 0 <= i < |snapshots| ==> snapshots[i].prevId != ParentAt(snapshots, walk, |walk|)
    ensures !Linear(snapshots)
  {
    hide Root;
    if Linear(snapshots) {
      var order :| IsChain(snapshots, order);
      SameCount(snapshots, order);
      WalkFollowsChain(snapshots, order, walk, |walk|);
      assert Linked(order, |walk|);
      var k := SameElement(snapshots, order, |walk|);
    }
  }

  /** A walk that meets every snapshot and ends shows that they are a chain. */
  lemma {:induction false} FullWalkIsChain(snapshots: seq<Snapshot>, walk: seq<nat>)
    requires Walked(snapshots, walk) && |walk| == |snapshots| && UniqueIds(snapshots) && UniqueParents(snapshots)
    requires forall i :: 0 <= i < |snapshots| ==> snapshots[i].prevId != ParentAt(snapshots, walk, |walk|)
    ensures Linear(snapshots)
  {
    hide Root;
    var order := seq(|walk|, i requires 0 <= i < |walk| => snapshots[walk[i]]);
    WalkIsPermutation(snapshots, walk, order);
    forall i | 0 <= i < |order|
      ensures Linked(order, i)
    {
      assert StepsOn(snapshots, walk, i) && StepsOn(snapshots, walk, 0);
      assert i + 1 < |walk| ==> StepsOn(snapshots, walk, i + 1);
    }
    assert IsChain(snapshots, order);
  }

  lemma {:induction false} WalkIsPermutation(snapshots: seq<Snapshot>, walk: seq<nat>, order: seq<Snapshot>)
    requires |walk| == |snapshots| == |order|
    requires forall i :: 0 <= i < |walk| ==> walk[i] < |snapshots| && order[i] == snapshots[walk[i]]
    requires forall i, j :: 0 <= i < j < |walk| ==> walk[i] != walk[j]
    ensures multiset(order) == multiset(snapshots)
    decreases |walk|
  {
    var n := |walk|;
    if n > 0 {
      var rest := snapshots[..walk[n - 1]] + snapshots[walk[n - 1] + 1..];
      var places := seq(n - 1, i requires 0 <= i < n - 1 => if walk[i] < walk[n - 1] then walk[i] else walk[i] - 1);
      assert forall i :: 0 <= i < n - 1 ==> walk[i] != walk[n - 1];
      WalkIsPermutation(rest, places, order[..n - 1]);
      assert snapshots == snapshots[..walk[n - 1]] + [snapshots[walk[n - 1]]] + snapshots[walk[n - 1] + 1..];
      assert order == order[..n - 1] + [order[n - 1]];
    }
  }

  /** Meeting a snapshot again means that the last one met has the root's id. */
  lemma {:induction false} CycleGoesThroughRoot(snapshots: seq<Snapshot>, walk: seq<nat>, again: nat)
    requires Walked(snapshots, walk) && UniqueIds(snapshots) && again in walk && again < |snapshots|
    requires snapshots[again].prevId == ParentAt(snapshots, walk, |walk|)
    ensures |walk| > 0 && snapshots[walk[|walk| - 1]].id == Root()
  {
    hide Root;
    var j :| 0 <= j < |walk| && walk[j] == again;
    assert StepsOn(snapshots, walk, j);
  }

  // ---------------------------------------------------------------- the checks

  method CheckJournal(entries: seq<Entry>) returns (r: Result<(), Error>)
    ensures r.Ok? <==> InSequence(entries, |entries|)
    ensures r.Err? ==> r.error == WrongPosition || r.error == NotLater
    ensures r.Err? ==> exists i :: 0 <= i < |entries| && InSequence(entries, i) && BreaksSequence(entries, i, r.error)
  {
    for position := 0 to |entries|
      invariant InSequence(entries, position)
    {
      if entries[position].idx != position {
        assert BreaksSequence(entries, position, WrongPosition);
        return Err(WrongPosition);
      }
      if position > 0 && entries[position].time <= entries[position - 1].time {
        assert BreaksSequence(entries, position, NotLater);
        return Err(NotLater);
      }
    }
    r := Ok(());
  }

  /** The first entry out of sequence, and what is wrong with it. */
  predicate BreaksSequence(entries: seq<Entry>, i: nat, error: Error)
    requires i < |entries|
  {
    if entries[i].idx != i then error == WrongPosition
    else error == NotLater && i > 0 && entries[i].time <= entries[i - 1].time
  }

  function IdsTo(snapshots: seq<Snapshot>, n: nat): set<string>
    requires n <= |snapshots|
  {
    set i | 0 <= i < n :: snapshots[i].id
  }

  predicate UniqueTo(snapshots: seq<Snapshot>, n: nat)
    requires n <= |snapshots|
  {
    forall i, j :: 0 <= i < n && 0 <= j < n && snapshots[i].id == snapshots[j].id ==> i == j
  }

  lemma {:induction false} IdsNext(snapshots: seq<Snapshot>, n: nat)
    requires 0 < n <= |snapshots|
    ensures IdsTo(snapshots, n) == IdsTo(snapshots, n - 1) + {snapshots[n - 1].id}
  {
  }

  lemma {:induction false} NoIds(snapshots: seq<Snapshot>)
    ensures UniqueTo(snapshots, 0) && IdsTo(snapshots, 0) == {}
  {
  }

  lemma {:induction false} UniqueNext(snapshots: seq<Snapshot>, n: nat)
    requires 0 < n <= |snapshots|
    ensures UniqueTo(snapshots, n) <==> UniqueTo(snapshots, n - 1) && snapshots[n - 1].id !in IdsTo(snapshots, n - 1)
  {
  }

  /** There are as many ids as snapshots exactly when no id occurs twice. */
  lemma {:induction false} CountIds(snapshots: seq<Snapshot>, n: nat)
    requires n <= |snapshots|
    ensures |IdsTo(snapshots, n)| <= n
    ensures |IdsTo(snapshots, n)| == n <==> UniqueTo(snapshots, n)
  {
    hide UniqueTo;
    if n == 0 {
      assert UniqueTo(snapshots, 0) && IdsTo(snapshots, 0) == {} by {
        NoIds(snapshots);
      }
    } else {
      CountIds(snapshots, n - 1);
      IdsNext(snapshots, n);
      UniqueNext(snapshots, n);
    }
  }

  method IndexById(snapshots: seq<Snapshot>) returns (byId: map<string, string>)
    ensures byId.Keys == IdsTo(snapshots, |snapshots|)
    ensures |byId| == |snapshots| <==> UniqueIds(snapshots)
  {
    byId := map[];
    for k := 0 to |snapshots|
      invariant byId.Keys == IdsTo(snapshots, k)
    {
      byId := byId[snapshots[k].id := snapshots[k].file];
    }
    CountIds(snapshots, |snapshots|);
    assert |byId| == |byId.Keys|;
  }

  /** The files of the first n snapshots with the given parent, in order. */
  function Children(snapshots: seq<Snapshot>, parent: string, n: nat): seq<string>
    requires n <= |snapshots|
  {
    if n == 0 then []
    else Children(snapshots, parent, n - 1) + if snapshots[n - 1].prevId == parent then [snapshots[n - 1].file] else []
  }

  ghost predicate Groups(snapshots: seq<Snapshot>, children: map<string, seq<string>>, n: nat)
    requires n <= |snapshots|
  {
    && (forall p :: p in children <==> |Children(snapshots, p, n)| > 0)
    && forall p :: p in children ==> children[p] == Children(snapshots, p, n)
  }

  method GroupByParent(snapshots: seq<Snapshot>, byId: map<string, string>)
    returns (r: Result<map<string, seq<string>>, Error>)
    requires byId.Keys == IdsTo(snapshots, |snapshots|)
    ensures r.Ok? <==> forall i :: 0 <= i < |snapshots| ==> HasParent(snapshots, snapshots[i])
    ensures r.Ok? ==> Groups(snapshots, r.value, |snapshots|)
    ensures r.Err? ==> r.error == MissingParent
  {
    hide Root, Groups, HasParent, IdsTo;
    var children: map<string, seq<string>> := map[];
    NoGroups(snapshots);
    for k := 0 to |snapshots|
      invariant forall i :: 0 <= i < k ==> HasParent(snapshots, snapshots[i])
      invariant Groups(snapshots, children, k)
    {
      var parent := snapshots[k].prevId;
      ParentIsIndexed(snapshots, snapshots[k]);
      if parent != Root() && parent !in byId {
        return Err(MissingParent);
      }
      GroupsNext(snapshots, children, k);
      var siblings := if parent in children then children[parent] else [];
      children := children[parent := siblings + [snapshots[k].file]];
    }
    r := Ok(children);
  }

  lemma {:induction false} ParentIsIndexed(snapshots: seq<Snapshot>, child: Snapshot)
    ensures HasParent(snapshots, child) <==> child.prevId == Root() || child.prevId in IdsTo(snapshots, |snapshots|)
  {
  }

  lemma {:induction false} NoGroups(snapshots: seq<Snapshot>)
    ensures Groups(snapshots, map[], 0)
  {
  }

  lemma {:induction false} GroupsNext(snapshots: seq<Snapshot>, children: map<string, seq<string>>, k: nat)
    requires k < |snapshots| && Groups(snapshots, children, k)
    ensures var parent := snapshots[k].prevId;
            var siblings := if parent in children then children[parent] else [];
            Groups(snapshots, children[parent := siblings + [snapshots[k].file]], k + 1)
  {
  }

  lemma {:induction false} NoChildBefore(snapshots: seq<Snapshot>, parent: string, n: nat)
    requires n <= |snapshots|
    ensures |Children(snapshots, parent, n)| == 0 <==> forall i :: 0 <= i < n ==> snapshots[i].prevId != parent
    ensures |Children(snapshots, parent, n)| > 1 ==> exists i, j :: 0 <= i < j < n && snapshots[i].prevId == parent == snapshots[j].prevId
  {
    if n > 0 {
      NoChildBefore(snapshots, parent, n - 1);
    }
  }

  lemma {:induction false} ChildrenGrow(snapshots: seq<Snapshot>, parent: string, m: nat, n: nat)
    requires m <= n <= |snapshots|
    ensures |Children(snapshots, parent, m)| <= |Children(snapshots, parent, n)|
  {
    if m < n {
      ChildrenGrow(snapshots, parent, m, n - 1);
    }
  }

  /** A parent with one child has the first file of its group. */
  lemma {:induction false} OnlyChild(snapshots: seq<Snapshot>, parent: string, n: nat) returns (k: nat)
    requires n <= |snapshots| && |Children(snapshots, parent, n)| > 0
    ensures k < n && snapshots[k].prevId == parent && snapshots[k].file == Children(snapshots, parent, n)[0]
  {
    if |Children(snapshots, parent, n - 1)| > 0 {
      k := OnlyChild(snapshots, parent, n - 1);
    } else {
      k := n - 1;
    }
  }

  /** No group has two members exactly when no two snapshots share a parent. */
  lemma {:induction false} SmallGroups(snapshots: seq<Snapshot>, children: map<string, seq<string>>)
    requires Groups(snapshots, children, |snapshots|)
    ensures (forall p :: p in children ==> |children[p]| <= 1) <==> UniqueParents(snapshots)
  {
    forall p | p in children && |children[p]| > 1
      ensures !UniqueParents(snapshots)
    {
      NoChildBefore(snapshots, p, |snapshots|);
    }
    if forall p :: p in children ==> |children[p]| <= 1 {
      forall i, j | 0 <= i < |snapshots| && 0 <= j < |snapshots| && snapshots[i].prevId == snapshots[j].prevId
        ensures i == j
      {
        var p := snapshots[i].prevId;
        NoChildBefore(snapshots, p, |snapshots|);
        TwoMakeTwo(snapshots, p, if i < j then i else j, if i < j then j else i);
      }
    }
  }

  lemma {:induction false} TwoMakeTwo(snapshots: seq<Snapshot>, parent: string, i: nat, j: nat)
    requires i <= j < |snapshots| && snapshots[i].prevId == parent == snapshots[j].prevId
    ensures i < j ==> |Children(snapshots, parent, |snapshots|)| > 1
  {
    if i < j {
      NoChildBefore(snapshots, parent, j);
      ChildrenGrow(snapshots, parent, j + 1, |snapshots|);
    }
  }

  method FindByFile(snapshots: seq<Snapshot>, file: string, ghost k: nat) returns (child: nat)
    requires k < |snapshots| && snapshots[k].file == file && DistinctFiles(snapshots)
    ensures child == k
  {
    child := 0;
    while snapshots[child].file != file
      invariant child <= k
      decreases k - child
    {
      child := child + 1;
    }
  }

  /** Follows children from the root until there is none. */
  method WalkFromRoot(snapshots: seq<Snapshot>, children: map<string, seq<string>>) returns (r: Result<(), Error>)
    requires DistinctFiles(snapshots) && UniqueIds(snapshots) && UniqueParents(snapshots)
    requires Groups(snapshots, children, |snapshots|)
    ensures r.Ok? <==> Linear(snapshots)
    ensures r.Err? ==> r.error == Cycle || r.error == Unreachable
    ensures r == Err(Cycle) ==> exists i :: 0 <= i < |snapshots| && snapshots[i].id == Root()
  {
    hide Root, IsChain, DistinctFiles;
    var reachable: set<string> := {};
    var parentId := Root();
    ghost var walk: seq<nat> := [];
    while true
      invariant Walked(snapshots, walk) && parentId == ParentAt(snapshots, walk, |walk|)
      invariant reachable == Met(snapshots, walk)
      decreases |snapshots| - |walk|
    {
      if parentId !in children {
        break;
      }
      ghost var k := OnlyChild(snapshots, parentId, |snapshots|);
      var child := FindByFile(snapshots, children[parentId][0], k);
      if snapshots[child].id in reachable {
        MetAgain(snapshots, walk, child);
        return Err(Cycle);
      }
      MetNext(snapshots, walk, child);
      reachable := reachable + {snapshots[child].id};
      parentId := snapshots[child].id;
      walk := walk + [child];
    }
    MetCount(snapshots, walk);
    DistinctPlaces(walk, |snapshots|);
    NoChildBefore(snapshots, parentId, |snapshots|);
    if |reachable| != |snapshots| {
      EarlyEndIsNoChain(snapshots, walk);
      return Err(Unreachable);
    }
    FullWalkIsChain(snapshots, walk);
    r := Ok(());
  }

  function Met(snapshots: seq<Snapshot>, walk: seq<nat>): set<string> {
    set i | 0 <= i < |walk| && walk[i] < |snapshots| :: snapshots[walk[i]].id
  }

  /** An id met before belongs to a snapshot met before, and shows that the snapshots are no chain. */
  lemma {:induction false} MetAgain(snapshots: seq<Snapshot>, walk: seq<nat>, child: nat)
    requires Walked(snapshots, walk) && UniqueIds(snapshots) && child < |snapshots|
    requires snapshots[child].prevId == ParentAt(snapshots, walk, |walk|) && snapshots[child].id in Met(snapshots, walk)
    ensures !Linear(snapshots) && exists i :: 0 <= i < |snapshots| && snapshots[i].id == Root()
  {
    hide Root, IsChain;
    var i :| 0 <= i < |walk| && walk[i] < |snapshots| && snapshots[walk[i]].id == snapshots[child].id;
    assert walk[i] == child;
    CycleGoesThroughRoot(snapshots, walk, child);
    if Linear(snapshots) {
      var order :| IsChain(snapshots, order);
      ChainFacts(snapshots, order);
    }
  }

  lemma {:induction false} MetNext(snapshots: seq<Snapshot>, walk: seq<nat>, child: nat)
    requires Walked(snapshots, walk) && child < |snapshots| && snapshots[child].id !in Met(snapshots, walk)
    requires snapshots[child].prevId == ParentAt(snapshots, walk, |walk|)
    ensures Walked(snapshots, walk + [child]) && Met(snapshots, walk + [child]) == Met(snapshots, walk) + {snapshots[child].id}
    ensures ParentAt(snapshots, walk + [child], |walk| + 1) == snapshots[child].id
    ensures |walk| < |snapshots|
  {
    hide Root;
    var longer := walk + [child];
    assert forall i :: 0 <= i < |walk| ==> longer[i] == walk[i] && snapshots[walk[i]].id in Met(snapshots, walk);
    assert longer[|walk|] == child;
    forall i | 0 <= i < |walk|
      ensures StepsOn(snapshots, longer, i)
    {
      assert StepsOn(snapshots, walk, i);
    }
    assert StepsOn(snapshots, longer, |walk|);
    DistinctPlaces(longer, |snapshots|);
  }

  /** Distinct places below n are at most n. */
  lemma {:induction false} DistinctPlaces(walk: seq<nat>, n: nat)
    requires forall i :: 0 <= i < |walk| ==> walk[i] < n
    requires forall i, j :: 0 <= i < j < |walk| ==> walk[i] != walk[j]
    ensures |walk| <= n
    decreases n
  {
    if |walk| > 0 {
      assert walk[0] < n;
      if k: nat :| k < |walk| && walk[k] == n - 1 {
        var rest := walk[..k] + walk[k + 1..];
        DistinctPlaces(rest, n - 1);
      } else {
        DistinctPlaces(walk, n - 1);
      }
    }
  }

  lemma {:induction false} MetCount(snapshots: seq<Snapshot>, walk: seq<nat>)
    requires Walked(snapshots, walk) && UniqueIds(snapshots)
    ensures |Met(snapshots, walk)| == |walk|
    decreases |walk|
  {
    hide Root;
    if |walk| == 0 {
      assert Met(snapshots, walk) == {};
    } else {
      var n := |walk| - 1;
      forall i | 0 <= i < n
        ensures StepsOn(snapshots, walk[..n], i)
      {
        assert StepsOn(snapshots, walk, i);
      }
      MetCount(snapshots, walk[..n]);
      assert forall i :: 0 <= i < n ==> walk[i] != walk[n];
      assert Met(snapshots, walk) == Met(snapshots, walk[..n]) + {snapshots[walk[n]].id};
    }
  }

  // ---------------------------------------------------------------- the validator

  /** What each error of the snapshot checks says. A cycle means that some snapshot has the root's id. */
  ghost predicate ExplainsChain(snapshots: seq<Snapshot>, error: Error) {
    match error
    case DuplicateIds => !UniqueIds(snapshots)
    case MissingParent => exists i :: 0 <= i < |snapshots| && !HasParent(snapshots, snapshots[i])
    case MultipleChildren => !UniqueParents(snapshots)
    case Cycle => exists i :: 0 <= i < |snapshots| && snapshots[i].id == Root()
    case Unreachable => UniqueIds(snapshots) && UniqueParents(snapshots) && !Linear(snapshots)
    case _ => false
  }

  method ValidateSnapshots(snapshots: seq<Snapshot>) returns (r: Result<(), Error>)
    requires DistinctFiles(snapshots)
    ensures r.Ok? <==> Linear(snapshots)
    ensures r.Err? ==> ExplainsChain(snapshots, r.error)
  {
    hide Root, IsChain, DistinctFiles, UniqueIds, UniqueParents, HasParent, IdsTo, Children, Groups;
    LinearFacts(snapshots);
    var byId := IndexById(snapshots);
    if |byId| != |snapshots| {
      return Err(DuplicateIds);
    }
    var grouped := GroupByParent(snapshots, byId);
    if grouped.Err? {
      return Err(grouped.error);
    }
    SmallGroups(snapshots, grouped.value);
    if exists p :: p in grouped.value && |grouped.value[p]| > 1 {
      return Err(MultipleChildren);
    }
    r := WalkFromRoot(snapshots, grouped.value);
  }

  /** What each error says about the history. */
  ghost predicate Explains(entries: seq<Entry>, files: seq<string>, snapshots: seq<Snapshot>, error: Error) {
    match error
    case TagsDiffer => multiset(SqlTagsTo(files, |files|)) != multiset(Tags(entries))
    case WrongPosition => exists i :: 0 <= i < |entries| && InSequence(entries, i) && BreaksSequence(entries, i, WrongPosition)
    case NotLater => exists i :: 0 <= i < |entries| && InSequence(entries, i) && BreaksSequence(entries, i, NotLater)
    case EmptyJournal => |entries| == 0
    case MissingSnapshot => |entries| > 0 && !HasFile(snapshots, ExpectedSnapshot(entries))
    case _ => ExplainsChain(snapshots, error)
  }

  /** Checks the whole history: it is accepted exactly when it is consistent. */
  method Validate(entries: seq<Entry>, files: seq<string>, snapshots: seq<Snapshot>) returns (r: Result<nat, Error>)
    requires DistinctFiles(snapshots)
    ensures r.Ok? <==> Consistent(entries, files, snapshots)
    ensures r.Ok? ==> r.value == |entries|
    ensures r.Err? ==> Explains(entries, files, snapshots, r.error)
  {
    hide Root, IsChain, DistinctFiles, InSequence, UniqueIds, UniqueParents, HasParent, BreaksSequence;
    if multiset(SqlTagsTo(files, |files|)) != multiset(Tags(entries)) {
      return Err(TagsDiffer);
    }
    var journal := CheckJournal(entries);
    if journal.Err? {
      return Err(journal.error);
    }
    var chain := ValidateSnapshots(snapshots);
    if chain.Err? {
      return Err(chain.error);
    }
    if |entries| == 0 {
      return Err(EmptyJournal);
    }
    if !HasFile(snapshots, ExpectedSnapshot(entries)) {
      return Err(MissingSnapshot);
    }
    r := Ok(|entries|);
  }

  lemma {:induction false} LinearFacts(snapshots: seq<Snapshot>)
    ensures Linear(snapshots) ==> UniqueIds(snapshots) && UniqueParents(snapshots)
    ensures Linear(snapshots) ==> forall i :: 0 <= i < |snapshots| ==> HasParent(snapshots, snapshots[i])
  {
    hide Root, IsChain, UniqueIds, UniqueParents, HasParent;
    if Linear(snapshots) {
      var order :| IsChain(snapshots, order);
      ChainFacts(snapshots, order);
    }
  }

  /** The accepted order is the only one: a history has one chain or none. */
  lemma {:induction false} ChainIsUnique(snapshots: seq<Snapshot>, a: seq<Snapshot>, b: seq<Snapshot>)
    requires IsChain(snapshots, a) && IsChain(snapshots, b)
    ensures a == b
  {
    hide Root;
    SameCount(a, b);
    var walk := seq(|b|, i requires 0 <= i < |b| => i);
    forall i | 0 <= i < |b|
      ensures StepsOn(b, walk, i)
    {
      assert Linked(b, i);
    }
    WalkFollowsChain(b, a, walk, |b|);
    assert forall i :: 0 <= i < |b| ==> b[walk[i]] == a[i];
  }
}
