/**
 The dependency closure of a WIT package: the worklist that walks the registry index.
 */
module WitDeps {
  import opened Words
  import opened KeyOrder

  datatype PackageName = PackageName(namespace: Text, name: Text, version: Option<Text>)

  datatype PackageRef = PackageRef(id: Text, path: Text)

  const COLON: byte := 0x3a
  const AT: byte := 0x40
  const SLASH: byte := 0x2f

  /** What the file system holds: the parsed dependencies of a directory, and which paths are directories. */
  datatype Files = Files(parse: Text -> Option<seq<PackageName>>, isDir: Text -> bool)

  function FormatId(p: PackageName): Text {
    var base := p.namespace + [COLON] + p.name;
    if p.version.Some? then base + [AT] + p.version.value else base
  }

  /** The text of an id: `namespace:name`, and `@version` when there is a version. */
  predicate IsIdText(id: Text, p: PackageName) {
    id == p.namespace + Ascii(":") + p.name + if p.version.Some? then Ascii("@") + p.version.value else []
  }

  /** Where a byte first occurs in a text. */
  lemma {:induction false} SameCut(a: Text, b: Text, sep: byte, x: Text, y: Text)
    requires sep !in a && sep !in x && a + [sep] + b == x + [sep] + y
    ensures a == x && b == y
  {
    var s := a + [sep] + b;
    assert s[|a|] == sep && s[|x|] == sep;
    assert forall i :: 0 <= i < |a| ==> s[i] == a[i] && a[i] in a;
    assert forall i :: 0 <= i < |x| ==> s[i] == x[i] && x[i] in x;
    assert a == s[..|a|] && x == s[..|x|];
    assert b == s[|a| + 1..] && y == s[|x| + 1..];
  }

  predicate PlainName(p: PackageName) { COLON !in p.namespace && AT !in p.namespace && AT !in p.name }

  /** Ids are read as written, and tell packages apart. */
  lemma IdsTellApart(p: PackageName, q: PackageName)
    ensures IsIdText(FormatId(p), p)
    ensures PlainName(p) && PlainName(q) && FormatId(p) == FormatId(q) ==> p == q
  {
    FormattedId(p);
    var bp, bq := p.namespace + [COLON] + p.name, q.namespace + [COLON] + q.name;
    if PlainName(p) && PlainName(q) && FormatId(p) == FormatId(q) {
      assert AT !in bp && AT !in bq;
      assert p.version.Some? ==> FormatId(p)[|bp|] == AT;
      assert q.version.Some? ==> FormatId(q)[|bq|] == AT;
      if p.version.Some? {
        SameCut(bp, p.version.value, AT, bq, q.version.value);
      }
      SameCut(p.namespace, p.name, COLON, q.namespace, q.name);
    }
  }

  lemma FormattedId(p: PackageName)
    ensures IsIdText(FormatId(p), p) && forall id :: IsIdText(id, p) ==> id == FormatId(p)
  {
    assert Ascii(":") == [COLON] && Ascii("@") == [AT];
    var base := p.namespace + [COLON] + p.name;
    assert base + [] == base;
    assert p.version.Some? ==> base + [AT] + p.version.value == base + ([AT] + p.version.value);
  }

  /** A relative path is taken from the working directory, an absolute one as it is. */
  function FromHere(path: Text): Text {
    if path != [] && path[0] == SLASH then path else Ascii("./") + path
  }

  /** The index by id; a later entry replaces an earlier one. */
  function PackageMap(index: seq<PackageRef>): map<Text, PackageRef> {
    if index == [] then map[]
    else
      var n := |index| - 1;
      PackageMap(index[..n])[index[n].id := index[n]]
  }

  /** Looking an id up finds the last entry that has it. */
  lemma {:induction false} LastEntryWins(index: seq<PackageRef>, i: nat)
    requires i < |index| && forall j :: i < j < |index| ==> index[j].id != index[i].id
    ensures index[i].id in PackageMap(index) && PackageMap(index)[index[i].id] == index[i]
    decreases |index|
  {
    var n := |index| - 1;
    if i < n { LastEntryWins(index[..n], i); }
  }

  // ---------- the graph ----------

  datatype Registry = Registry(mainId: Text, mainDir: Text, index: seq<PackageRef>, files: Files)

  function DirOf(g: Registry, id: Text): Text {
    var known := PackageMap(g.index);
    if id == g.mainId then g.mainDir
    else if id in known then FromHere(known[id].path)
    else []
  }

  /** A package's directory is the path of its last index entry, below the working directory unless absolute. */
  lemma LastEntryPath(g: Registry, i: nat)
    requires i < |g.index| && forall j :: i < j < |g.index| ==> g.index[j].id != g.index[i].id
    ensures
      var e := g.index[i];
      DirOf(g, e.id) ==
        if e.id == g.mainId then g.mainDir
        else if Ascii("/") <= e.path then e.path
        else Ascii("./") + e.path
    ensures Usable(g, g.index[i].id) <==> g.files.isDir(FromHere(g.index[i].path))
  {
    LastEntryWins(g.index, i);
  }

  predicate Usable(g: Registry, id: Text) {
    var known := PackageMap(g.index);
    id in known && g.files.isDir(FromHere(known[id].path))
  }

  /** The dependencies of a package; none when it does not parse. */
  ghost predicate DependsOn(g: Registry, id: Text, dep: Text) {
    var parsed := g.files.parse(DirOf(g, id));
    parsed.Some? && exists i :: 0 <= i < |parsed.value| && IsIdText(dep, parsed.value[i])
  }

  /** A dependency the bundle takes in: indexed, with a directory, and not the main package. */
  ghost predicate Edge(g: Registry, id: Text, dep: Text) {
    DependsOn(g, id, dep) && dep != g.mainId && Usable(g, dep)
  }

  ghost predicate IsPath(g: Registry, p: seq<Text>) {
    p != [] && p[0] == g.mainId && forall k :: 0 <= k < |p| - 1 ==> Edge(g, p[k], p[k + 1])
  }

  /** Some path of parsed dependencies leads from the main package to id. */
  ghost predicate Reachable(g: Registry, id: Text) {
    exists p :: IsPath(g, p) && |p| >= 2 && p[|p| - 1] == id
  }

  ghost predicate Visited(g: Registry, id: Text) { id == g.mainId || Reachable(g, id) }

  lemma ReachMore(g: Registry, id: Text, dep: Text)
    requires Visited(g, id) && Edge(g, id, dep)
    ensures Reachable(g, dep)
  {
    hide Edge;
    var p := [g.mainId];
    if id != g.mainId { p :| IsPath(g, p) && |p| >= 2 && p[|p| - 1] == id; }
    var q := p + [dep];
    forall k | 0 <= k < |q| - 1 ensures Edge(g, q[k], q[k + 1]) {
      if k < |p| - 1 { assert Edge(g, p[k], p[k + 1]); }
    }
    assert IsPath(g, q) && q[|q| - 1] == dep;
  }

  lemma ReachedIsUsable(g: Registry, id: Text)
    requires Reachable(g, id)
    ensures id != g.mainId && Usable(g, id)
  {
    hide Usable, DependsOn;
    var p :| IsPath(g, p) && |p| >= 2 && p[|p| - 1] == id;
    assert Edge(g, p[|p| - 2], p[|p| - 1]);
  }

  /** A set that holds the main package and is closed under edges holds every reachable id. */
  lemma ClosedHoldsReachable(g: Registry, done: set<Text>, id: Text)
    requires g.mainId in done
    requires forall x, y :: x in done && Edge(g, x, y) ==> y in done
    requires Reachable(g, id)
    ensures id in done
  {
    hide Edge;
    var p :| IsPath(g, p) && |p| >= 2 && p[|p| - 1] == id;
    PathStaysIn(g, done, p, |p| - 1);
  }

  lemma {:induction false} PathStaysIn(g: Registry, done: set<Text>, p: seq<Text>, k: nat)
    requires g.mainId in done
    requires forall x, y :: x in done && Edge(g, x, y) ==> y in done
    requires IsPath(g, p) && k < |p|
    ensures p[k] in done
  {
    hide Edge;
    if k > 0 {
      PathStaysIn(g, done, p, k - 1);
      assert Edge(g, p[k - 1], p[k - 1 + 1]);
    }
  }

  // ---------- the result ----------

  type Dep = Entry<Text>

  datatype Reason = NotInIndex | DirMissing
  datatype Warning = Warning(why: Reason, from: Text, dep: Text)

  ghost function Ids(out: seq<Dep>): set<Text> { set i | 0 <= i < |out| :: out[i].key }

  ghost function Warned(ws: seq<Warning>): set<Text> { set i | 0 <= i < |ws| :: ws[i].dep }

  ghost predicate EachOnce(ws: seq<Warning>) { forall i, j :: 0 <= i < j < |ws| ==> ws[i].dep != ws[j].dep }

  /** Why a dependency of a visited package is left out. */
  ghost predicate Justified(g: Registry, w: Warning) {
    && Visited(g, w.from) && DependsOn(g, w.from, w.dep)
    && w.dep != g.mainId && !Usable(g, w.dep)
    && (w.why.NotInIndex? <==> w.dep !in PackageMap(g.index))
  }

  /** Every visited package parses. */
  ghost predicate AllParse(g: Registry) {
    forall id :: Visited(g, id) ==> g.files.parse(DirOf(g, id)).Some?
  }

  // ---------- the worklist ----------

  /** What holds of the walk; `done` are the ids popped so far. */
  ghost predicate Walk(g: Registry, out: seq<Dep>, seen: set<Text>, queue: seq<Dep>, warnings: seq<Warning>,
                       done: set<Text>)
  {
    && (forall id :: id in seen <==> id == g.mainId || id in Ids(out) || id in Warned(warnings))
    && Distinct(out) && EachOnce(warnings)
    && (forall i :: 0 <= i < |out| ==> Reachable(g, out[i].key) && out[i].value == DirOf(g, out[i].key))
    && (forall i :: 0 <= i < |warnings| ==> Justified(g, warnings[i]))
    && (forall i :: 0 <= i < |queue| ==> Visited(g, queue[i].key) && queue[i].value == DirOf(g, queue[i].key))
    && (forall id :: id == g.mainId || id in Ids(out) ==> id in done || id in Ids(queue))
    && (forall id :: id in done ==> Visited(g, id) && g.files.parse(DirOf(g, id)).Some?)
  }

  /** Every dependency of the ids in `done` has been seen. */
  ghost predicate Expanded(g: Registry, done: set<Text>, seen: set<Text>) {
    forall x, y :: x in done && DependsOn(g, x, y) ==> y in seen
  }

  lemma IdsMore(out: seq<Dep>, d: Dep)
    ensures Ids(out + [d]) == Ids(out) + {d.key}
  {
    assert forall i :: 0 <= i < |out| ==> (out + [d])[i] == out[i];
    assert (out + [d])[|out|] == d;
    forall id | id in Ids(out) ensures id in Ids(out + [d]) {
      var i :| 0 <= i < |out| && out[i].key == id;
      assert (out + [d])[i].key == id;
    }
  }

  lemma WarnedMore(ws: seq<Warning>, w: Warning)
    ensures Warned(ws + [w]) == Warned(ws) + {w.dep}
  {
    assert forall i :: 0 <= i < |ws| ==> (ws + [w])[i] == ws[i];
    assert (ws + [w])[|ws|] == w;
    forall id | id in Warned(ws) ensures id in Warned(ws + [w]) {
      var i :| 0 <= i < |ws| && ws[i].dep == id;
      assert (ws + [w])[i].dep == id;
    }
  }

  lemma KeyInIds(out: seq<Dep>, i: nat)
    requires i < |out|
    ensures out[i].key in Ids(out)
  {
  }

  /** A new usable dependency is taken in and queued. */
  lemma WalkTakes(g: Registry, out: seq<Dep>, seen: set<Text>, queue: seq<Dep>, warnings: seq<Warning>,
                  done: set<Text>, from: Text, dep: Text)
    requires Walk(g, out, seen, queue, warnings, done)
    requires from in done && DependsOn(g, from, dep) && dep !in seen && Usable(g, dep)
    ensures
      var d := Member(dep, DirOf(g, dep));
      Walk(g, out + [d], seen + {dep}, queue + [d], warnings, done)
  {
    hide Reachable, DependsOn, Usable, Justified, DirOf, Warned, Ids;
    var d := Member(dep, DirOf(g, dep));
    IdsMore(out, d);
    IdsMore(queue, d);
    ReachMore(g, from, dep);
    var more := out + [d];
    forall i, j | 0 <= i < j < |more| ensures more[i].key != more[j].key {
      KeyInIds(out, i);
    }
  }

  /** A new dependency that cannot be used is reported. */
  lemma WalkWarns(g: Registry, out: seq<Dep>, seen: set<Text>, queue: seq<Dep>, warnings: seq<Warning>,
                  done: set<Text>, w: Warning)
    requires Walk(g, out, seen, queue, warnings, done)
    requires w.from in done && w.dep !in seen && Justified(g, w)
    ensures Walk(g, out, seen + {w.dep}, queue, warnings + [w], done)
  {
    hide Reachable, Justified, DirOf, Warned, Ids;
    WarnedMore(warnings, w);
    var more := warnings + [w];
    forall i, j | 0 <= i < j < |more| ensures more[i].dep != more[j].dep {
      WarnedKey(warnings, i);
    }
  }

  lemma WarnedKey(ws: seq<Warning>, i: nat)
    requires i < |ws|
    ensures ws[i].dep in Warned(ws)
  {
  }

  lemma WalkStarts(g: Registry)
    ensures Walk(g, [], {g.mainId}, [Member(g.mainId, g.mainDir)], [], {}) && Expanded(g, {}, {g.mainId})
  {
    KeyInIds([Member(g.mainId, g.mainDir)], 0);
  }

  /** A popped package that parses is done. */
  lemma WalkPops(g: Registry, out: seq<Dep>, seen: set<Text>, queue: seq<Dep>, warnings: seq<Warning>, done: set<Text>)
    requires Walk(g, out, seen, queue, warnings, done) && queue != []
    requires g.files.parse(DirOf(g, queue[|queue| - 1].key)).Some?
    ensures Walk(g, out, seen, queue[..|queue| - 1], warnings, done + {queue[|queue| - 1].key})
  {
    hide Reachable, Justified, DirOf, Warned, Ids;
    var n := |queue| - 1;
    assert queue == queue[..n] + [queue[n]];
    IdsMore(queue[..n], queue[n]);
  }

  /** What the closure is: sorted, exactly the reachable ids, with their directories. */
  ghost predicate IsClosure(g: Registry, deps: seq<Dep>) {
    && ByteOrdered(deps)
    && (forall id :: id in Ids(deps) <==> Reachable(g, id))
    && (forall i :: 0 <= i < |deps| ==> deps[i].value == DirOf(g, deps[i].key))
  }

  /** What is reported: each dependency that is left out, once. */
  ghost predicate IsReport(g: Registry, warnings: seq<Warning>) {
    && EachOnce(warnings)
    && (forall i :: 0 <= i < |warnings| ==> Justified(g, warnings[i]))
    && (forall x, y :: Visited(g, x) && DependsOn(g, x, y) && y != g.mainId && !Usable(g, y) ==> y in Warned(warnings))
  }

  lemma WalkEnds(g: Registry, out: seq<Dep>, seen: set<Text>, warnings: seq<Warning>, done: set<Text>)
    requires Walk(g, out, seen, [], warnings, done) && Expanded(g, done, seen)
    ensures AllParse(g) && IsClosure(g, Sorted(out)) && IsReport(g, warnings)
  {
    hide Reachable, Justified, DirOf, DependsOn, Usable, Warned, Ids, Sorted;
    assert Ids([]) == {} by { NoIds(); }
    forall x, y | x in done && Edge(g, x, y) ensures y in done {
      if y in Warned(warnings) {
        var i := WarningOf(warnings, y);
        NotUsable(g, warnings[i]);
      }
    }
    forall id | Visited(g, id) ensures id in done {
      if id != g.mainId { ClosedHoldsReachable(g, done, id); }
    }
    forall id ensures id in Ids(out) <==> Reachable(g, id) {
      if Reachable(g, id) {
        ReachedIsUsable(g, id);
        ReachedIsTaken(g, out, seen, warnings, done, id);
      } else if id in Ids(out) {
        var i := EntryOf(out, id);
      }
    }
    SameIds(out);
    SortIncreasing(out);
    IncreasingIff(Sorted(out));
    SortKeeps(out);
    forall i | 0 <= i < |Sorted(out)| ensures Sorted(out)[i].value == DirOf(g, Sorted(out)[i].key) {
      var j :| 0 <= j < |out| && out[j] == Sorted(out)[i];
    }
    forall x, y | Visited(g, x) && DependsOn(g, x, y) && y != g.mainId && !Usable(g, y)
      ensures y in Warned(warnings)
    {
      if y in Ids(out) { ReachedIsUsable(g, y); }
    }
  }

  lemma ReachedIsTaken(g: Registry, out: seq<Dep>, seen: set<Text>, warnings: seq<Warning>, done: set<Text>, id: Text)
    requires Walk(g, out, seen, [], warnings, done) && Expanded(g, done, seen)
    requires Reachable(g, id) && id != g.mainId && Usable(g, id)
    requires forall x :: Visited(g, x) ==> x in done
    ensures id in Ids(out)
  {
    hide Edge, Justified, DirOf, Warned, Ids, Usable;
    var p :| IsPath(g, p) && |p| >= 2 && p[|p| - 1] == id;
    var k := |p| - 2;
    assert Edge(g, p[k], p[k + 1]);
    EdgeDepends(g, p[k], p[k + 1]);
    PathVisited(g, p, k);
    if id in Warned(warnings) {
      var i := WarningOf(warnings, id);
      NotUsable(g, warnings[i]);
    }
  }

  lemma EdgeDepends(g: Registry, x: Text, y: Text)
    requires Edge(g, x, y)
    ensures DependsOn(g, x, y)
  {
  }

  lemma PathVisited(g: Registry, p: seq<Text>, k: nat)
    requires IsPath(g, p) && k < |p|
    ensures Visited(g, p[k])
  {
    hide Edge;
    if k > 0 {
      var q := p[..k + 1];
      forall j | 0 <= j < |q| - 1 ensures Edge(g, q[j], q[j + 1]) { assert Edge(g, p[j], p[j + 1]); }
      assert IsPath(g, q) && q[|q| - 1] == p[k];
    }
  }

  lemma NoIds()
    ensures Ids([]) == {}
  {
  }

  lemma NotUsable(g: Registry, w: Warning)
    requires Justified(g, w)
    ensures !Usable(g, w.dep)
  {
  }

  lemma WarningOf(ws: seq<Warning>, id: Text) returns (i: nat)
    requires id in Warned(ws)
    ensures i < |ws| && ws[i].dep == id
  {
    i :| 0 <= i < |ws| && ws[i].dep == id;
  }

  lemma EntryOf(out: seq<Dep>, id: Text) returns (i: nat)
    requires id in Ids(out)
    ensures i < |out| && out[i].key == id
  {
    i :| 0 <= i < |out| && out[i].key == id;
  }

  lemma SameIds(out: seq<Dep>)
    ensures Ids(Sorted(out)) == Ids(out)
  {
    hide Sorted, Ids;
    SortKeeps(out);
    var s := Sorted(out);
    forall id ensures id in Ids(s) <==> id in Ids(out) {
      if id in Ids(s) {
        var i := EntryOf(s, id);
        var j :| 0 <= j < |out| && out[j] == s[i];
        KeyInIds(out, j);
      }
      if id in Ids(out) {
        var i := EntryOf(out, id);
        assert out[i] in s;
        var j :| 0 <= j < |s| && s[j] == out[i];
        KeyInIds(s, j);
      }
    }
  }

  // ---------- the code ----------

  /**
   The closure, or None when a visited package does not parse. The walk ends because each id
   is seen once and only indexed ids are queued.
   */
  method TransitiveDeps(mainId: Text, mainDir: Text, index: seq<PackageRef>, files: Files)
    returns (r: Option<seq<Dep>>, warnings: seq<Warning>)
    ensures
      var g := Registry(mainId, mainDir, index, files);
      && (r.Some? <==> AllParse(g))
      && (r.Some? ==> IsClosure(g, r.value) && IsReport(g, warnings))
  {
    hide Walk, Expanded, AllParse, IsClosure, IsReport, DependsOn, Usable, DirOf, PackageMap, Justified, Reachable;
    ghost var g := Registry(mainId, mainDir, index, files);
    var known := PackageMap(index);
    var out: seq<Dep>, seen, queue: seq<Dep> := [], {mainId}, [Member(mainId, mainDir)];
    ghost var done: set<Text> := {};
    warnings := [];
    WalkStarts(g);
    while queue != []
      invariant Walk(g, out, seen, queue, warnings, done) && Expanded(g, done, seen)
      decreases |known.Keys - seen|, |queue|
    {
      var n := |queue| - 1;
      var pkgId, pkgDir := queue[n].key, queue[n].value;
      QueuedVisited(g, out, seen, queue, warnings, done, n);
      var parsed := files.parse(pkgDir);
      if parsed.None? {
        NotAllParse(g, pkgId);
        return None, warnings;
      }
      WalkPops(g, out, seen, queue, warnings, done);
      queue := queue[..n];
      ghost var before, todo := done, known.Keys - seen;
      done := done + {pkgId};
      for i := 0 to |parsed.value|
        invariant Walk(g, out, seen, queue, warnings, done) && Expanded(g, before, seen)
        invariant forall k :: 0 <= k < i ==> FormatId(parsed.value[k]) in seen
        invariant known.Keys - seen <= todo && (known.Keys - seen == todo ==> |queue| <= n)
      {
        var depId := FormatId(parsed.value[i]);
        if depId in seen { continue; }
        DependsOnIndex(g, pkgId, i);
        ghost var was := seen;
        seen := seen + {depId};
        ExpandedGrows(g, before, was, seen);
        if depId !in known {
          WalkRejects(g, out, was, queue, warnings, done, Warning(NotInIndex, pkgId, depId));
          warnings := warnings + [Warning(NotInIndex, pkgId, depId)];
          continue;
        }
        assert depId in known.Keys - was && depId !in known.Keys - seen;
        var depDir := FromHere(known[depId].path);
        if !files.isDir(depDir) {
          WalkRejects(g, out, was, queue, warnings, done, Warning(DirMissing, pkgId, depId));
          warnings := warnings + [Warning(DirMissing, pkgId, depId)];
          continue;
        }
        WalkAccepts(g, out, was, queue, warnings, done, pkgId, depId);
        out := out + [Member(depId, depDir)];
        queue := queue + [Member(depId, depDir)];
      }
      ExpandedMore(g, before, pkgId, seen);
      SmallerSet(known.Keys - seen, todo);
    }
    WalkEnds(g, out, seen, warnings, done);
    r := Some(Sorted(out));
  }

  lemma QueuedVisited(g: Registry, out: seq<Dep>, seen: set<Text>, queue: seq<Dep>, warnings: seq<Warning>,
                      done: set<Text>, i: nat)
    requires Walk(g, out, seen, queue, warnings, done) && i < |queue|
    ensures Visited(g, queue[i].key) && queue[i].value == DirOf(g, queue[i].key)
  {
  }

  lemma NotAllParse(g: Registry, id: Text)
    requires Visited(g, id) && g.files.parse(DirOf(g, id)).None?
    ensures !AllParse(g)
  {
  }

  lemma DependsOnIndex(g: Registry, id: Text, i: nat)
    requires g.files.parse(DirOf(g, id)).Some? && i < |g.files.parse(DirOf(g, id)).value|
    ensures DependsOn(g, id, FormatId(g.files.parse(DirOf(g, id)).value[i]))
  {
    FormattedId(g.files.parse(DirOf(g, id)).value[i]);
  }

  lemma ExpandedGrows(g: Registry, done: set<Text>, seen: set<Text>, more: set<Text>)
    requires Expanded(g, done, seen) && seen <= more
    ensures Expanded(g, done, more)
  {
    hide DependsOn;
  }

  lemma ExpandedMore(g: Registry, done: set<Text>, id: Text, seen: set<Text>)
    requires Expanded(g, done, seen) && g.files.parse(DirOf(g, id)).Some?
    requires
      var deps := g.files.parse(DirOf(g, id)).value;
      forall k :: 0 <= k < |deps| ==> FormatId(deps[k]) in seen
    ensures Expanded(g, done + {id}, seen)
  {
    hide FormatId, IsIdText, DirOf;
    forall x, y | x in done + {id} && DependsOn(g, x, y) ensures y in seen {
      if x == id {
        var deps := g.files.parse(DirOf(g, id)).value;
        var k :| 0 <= k < |deps| && IsIdText(y, deps[k]);
        FormattedId(deps[k]);
      }
    }
  }

  lemma SmallerSet(a: set<Text>, b: set<Text>)
    requires a <= b
    ensures |a| <= |b| && (a != b ==> |a| < |b|)
  {
    assert a + (b - a) == b;
    if a != b { assert b - a != {}; }
  }

  lemma WalkRejects(g: Registry, out: seq<Dep>, seen: set<Text>, queue: seq<Dep>, warnings: seq<Warning>,
                    done: set<Text>, w: Warning)
    requires Walk(g, out, seen, queue, warnings, done)
    requires w.from in done && DependsOn(g, w.from, w.dep) && w.dep !in seen
    requires var known := PackageMap(g.index);
      if w.why.NotInIndex? then w.dep !in known else w.dep in known && !g.files.isDir(FromHere(known[w.dep].path))
    ensures Walk(g, out, seen + {w.dep}, queue, warnings + [w], done)
  {
    hide DependsOn, Reachable, PackageMap, DirOf, Ids, Warned, Distinct, EachOnce;
    assert Justified(g, w);
    WalkWarns(g, out, seen, queue, warnings, done, w);
  }

  lemma WalkAccepts(g: Registry, out: seq<Dep>, seen: set<Text>, queue: seq<Dep>, warnings: seq<Warning>,
                    done: set<Text>, from: Text, dep: Text)
    requires Walk(g, out, seen, queue, warnings, done)
    requires from in done && DependsOn(g, from, dep) && dep !in seen
    requires var known := PackageMap(g.index); dep in known && g.files.isDir(FromHere(known[dep].path))
    ensures
      var d := Member(dep, FromHere(PackageMap(g.index)[dep].path));
      Walk(g, out + [d], seen + {dep}, queue + [d], warnings, done)
  {
    hide DependsOn, Reachable, PackageMap, Ids, Warned, Distinct, EachOnce, Justified;
    assert dep != g.mainId;
    WalkTakes(g, out, seen, queue, warnings, done, from, dep);
  }
}
