/**
 * The three container scanners: a directory tree walked recursively, an
 * archive whose entries are enumerated, and the modules of the boot layer
 * whose listings are filtered. Each registers, into a `Registry`, the names
 * of its candidates that the given pattern array selects.
 */
module Scanners {
  import opened Patterns
  import opened Resources

  /**
   * A file-system node below a classpath directory. `listable` is false when
   * listing the directory fails (the listing comes back as null).
   */
  datatype Node =
    | File(name: string)
    | Dir(name: string, listable: bool, children: seq<Node>)

  /** An archive: whether it can be opened, and its entry names in order. */
  datatype Jar = Jar(openable: bool, entries: seq<string>)

  /**
   * A module of the boot layer: whether it can be opened and listed, its
   * listing, and the listed names for which opening yields nothing.
   */
  datatype Module = Module(openable: bool, listing: seq<string>, absent: set<string>)

  /**
   * A classpath element, named by its path: a directory (which may fail to
   * list) with the nodes it lists, or anything else, which is read as an
   * archive.
   */
  datatype Element =
    | Directory(path: string, listable: bool, children: seq<Node>)
    | Archive(path: string, jar: Jar)

  /** The tree a classpath directory's walk starts at: the directory itself. */
  function Tree(e: Element): (n: Node)
    requires e.Directory?
    ensures n.Dir? && n.listable == e.listable && n.children == e.children
  {
    Dir(e.path, e.listable, e.children)
  }

  /** The distinct names in a registration log. */
  function Elems(s: seq<string>): set<string>
  {
    set x | x in s
  }

  // ---------------------------------------------------------------------
  // Relative paths
  // ---------------------------------------------------------------------

  /** The path of a child named `name` below the relative path `rel`. */
  function Join(rel: string, name: string): string
  {
    if rel == "" then name else rel + "/" + name
  }

  /**
   * A child of the walk's root is tested under its bare name; below that,
   * under the parent's path, a single '/', then its name.
   */
  lemma JoinParts(rel: string, name: string)
    ensures rel == "" ==> Join(rel, name) == name
    ensures rel != "" ==> var r := Join(rel, name);
              |r| == |rel| + 1 + |name| && r[..|rel|] == rel && r[|rel|] == '/' && r[|rel| + 1..] == name
  {
  }

  /** The path the directory walk builds for the segments `segs` below `rel`. */
  function Extend(rel: string, segs: seq<string>): (r: string)
    ensures segs == [] ==> r == rel
    ensures |rel| <= |r| && r[..|rel|] == rel
    decreases |segs|
  {
    if segs == [] then rel
    else
      var next := Join(rel, segs[0]);
      JoinParts(rel, segs[0]);
      var r := Extend(next, segs[1..]);
      assert r[..|rel|] == r[..|next|][..|rel|];
      r
  }

  /** Reference definition: segment names separated by single '/'. */
  function JoinPath(segs: seq<string>): string
    decreases |segs|
  {
    if |segs| == 0 then ""
    else if |segs| == 1 then segs[0]
    else segs[0] + "/" + JoinPath(segs[1..])
  }

  /** A name a directory listing can produce: non-empty, without a separator. */
  predicate Segment(name: string)
  {
    name != "" && '/' !in name
  }

  /** Every node below `n` carries a name a directory listing can produce. */
  predicate WellNamed(n: Node)
  {
    match n
    case File(_) => true
    case Dir(_, _, cs) => forall i :: 0 <= i < |cs| ==> Segment(cs[i].name) && WellNamed(cs[i])
  }

  /** Joining twice below `rel` is joining once with the two names separated by '/'. */
  lemma JoinTwice(rel: string, a: string, b: string)
    requires a != ""
    ensures Join(Join(rel, a), b) == Join(rel, a + "/" + b)
  {
    if rel != "" {
      assert Join(Join(rel, a), b) == rel + "/" + (a + "/" + b);
    }
  }

  lemma {:induction false} ExtendJoins(rel: string, segs: seq<string>)
    requires |segs| > 0
    requires forall i :: 0 <= i < |segs| ==> segs[i] != ""
    ensures Extend(rel, segs) == Join(rel, JoinPath(segs))
    decreases |segs|
  {
    if |segs| > 1 {
      ExtendJoins(Join(rel, segs[0]), segs[1..]);
      JoinTwice(rel, segs[0], JoinPath(segs[1..]));
    }
  }

  /**
   * Starting the walk at the root with the empty path yields the segments
   * below the root joined by '/': the root contributes nothing, and when the
   * first segment is a real name the path has no leading '/'.
   */
  lemma RootPath(segs: seq<string>)
    requires forall i :: 0 <= i < |segs| ==> Segment(segs[i])
    ensures Extend("", segs) == JoinPath(segs)
    ensures segs != [] ==> |JoinPath(segs)| > 0 && JoinPath(segs)[0] != '/'
  {
    if segs != [] {
      ExtendJoins("", segs);
      assert segs[0][0] in segs[0];
      assert JoinPath(segs)[0] == segs[0][0];
    }
  }

  // ---------------------------------------------------------------------
  // Directory trees
  // ---------------------------------------------------------------------

  /**
   * The segment sequences, below `n`, of the files under `n`. A directory
   * that does not list has none: the walk never sees its children.
   */
  function Leaves(n: Node): set<seq<string>>
    decreases n
  {
    match n
    case File(_) => {[]}
    case Dir(_, listable, cs) => if listable then LeavesIn(cs) else {}
  }

  /** The segment sequences of the files under the nodes `cs`, each headed by its node's name. */
  function LeavesIn(cs: seq<Node>): set<seq<string>>
    decreases cs
  {
    if cs == [] then {}
    else
      var last := cs[|cs| - 1];
      LeavesIn(cs[..|cs| - 1]) + (set s | s in Leaves(last) :: [last.name] + s)
  }

  /** No directory at or below `n` fails to list. */
  predicate DirsListable(n: Node)
  {
    match n
    case File(_) => true
    case Dir(_, listable, cs) => listable && forall i :: 0 <= i < |cs| ==> DirsListable(cs[i])
  }

  /**
   * The walk's paths, starting from `rel`, of the directories at or below `n`
   * whose listing fails (the walk never goes below such a directory).
   */
  function Unlistable(n: Node, rel: string): set<string>
    decreases n
  {
    match n
    case File(_) => {}
    case Dir(_, listable, cs) => if listable then UnlistableIn(cs, rel) else {rel}
  }

  /** `Unlistable` for the nodes `cs` listed in a directory whose path is `rel`. */
  function UnlistableIn(cs: seq<Node>, rel: string): set<string>
    decreases cs
  {
    if cs == [] then {}
    else
      var last := cs[|cs| - 1];
      UnlistableIn(cs[..|cs| - 1], rel) + Unlistable(last, Join(rel, last.name))
  }

  /** A walk can fail at some directory exactly when some directory does not list. */
  lemma {:induction false} UnlistableEmpty(n: Node, rel: string)
    ensures DirsListable(n) <==> Unlistable(n, rel) == {}
    decreases n
  {
    match n
    case File(_) =>
    case Dir(_, listable, cs) =>
      if listable {
        UnlistableInEmpty(cs, rel);
      }
  }

  lemma {:induction false} UnlistableInEmpty(cs: seq<Node>, rel: string)
    ensures (forall i :: 0 <= i < |cs| ==> DirsListable(cs[i])) <==> UnlistableIn(cs, rel) == {}
    decreases cs
  {
    if cs != [] {
      var init := cs[..|cs| - 1];
      var last := cs[|cs| - 1];
      UnlistableInEmpty(init, rel);
      UnlistableEmpty(last, Join(rel, last.name));
      if forall i :: 0 <= i < |cs| ==> DirsListable(cs[i]) {
        assert forall i :: 0 <= i < |init| ==> DirsListable(init[i]) by {
          forall i | 0 <= i < |init| ensures DirsListable(init[i]) {
            assert init[i] == cs[i];
          }
        }
      } else {
        var i :| 0 <= i < |cs| && !DirsListable(cs[i]);
        if i < |init| {
          assert init[i] == cs[i];
        }
      }
    }
  }

  /** The failing directories under one child are failing directories of the listing. */
  lemma {:induction false} UnlistableInMember(cs: seq<Node>, i: nat, rel: string)
    requires i < |cs|
    ensures Unlistable(cs[i], Join(rel, cs[i].name)) <= UnlistableIn(cs, rel)
    decreases |cs|
  {
    if i < |cs| - 1 {
      var init := cs[..|cs| - 1];
      UnlistableInMember(init, i, rel);
      assert init[i] == cs[i];
    }
  }

  /** The walk's paths, starting from `rel`, of the files under `n` that `pats` selects. */
  function DirHits(eng: Engine, pats: seq<string>, n: Node, rel: string): set<string>
  {
    set s | s in Leaves(n) && Matches(eng, pats, Extend(rel, s)) :: Extend(rel, s)
  }

  /** `DirHits` for the nodes `cs` listed in a directory whose path is `rel`. */
  function ChildHits(eng: Engine, pats: seq<string>, cs: seq<Node>, rel: string): set<string>
  {
    set s | s in LeavesIn(cs) && Matches(eng, pats, Extend(rel, s)) :: Extend(rel, s)
  }

  lemma LeavesInPrefix(cs: seq<Node>, i: nat)
    requires i <= |cs|
    ensures LeavesIn(cs[..i]) <= LeavesIn(cs)
    decreases |cs| - i
  {
    if i < |cs| {
      LeavesInPrefix(cs, i + 1);
      assert cs[..i + 1][..i] == cs[..i];
    } else {
      assert cs[..i] == cs;
    }
  }

  /** Scanning one more child adds exactly that child's hits. */
  lemma ChildHitsSnoc(eng: Engine, pats: seq<string>, cs: seq<Node>, i: nat, rel: string)
    requires i < |cs|
    ensures ChildHits(eng, pats, cs[..i + 1], rel)
         == ChildHits(eng, pats, cs[..i], rel) + DirHits(eng, pats, cs[i], Join(rel, cs[i].name))
  {
    var c := cs[i];
    assert cs[..i + 1][..i] == cs[..i];
    assert LeavesIn(cs[..i + 1]) == LeavesIn(cs[..i]) + (set s | s in Leaves(c) :: [c.name] + s);
    forall s | s in Leaves(c)
      ensures Extend(rel, [c.name] + s) == Extend(Join(rel, c.name), s)
    {
      assert ([c.name] + s)[1..] == s;
    }
    var lhs := ChildHits(eng, pats, cs[..i + 1], rel);
    var rhs := ChildHits(eng, pats, cs[..i], rel) + DirHits(eng, pats, c, Join(rel, c.name));
    forall x | x in rhs ensures x in lhs {
      if x !in ChildHits(eng, pats, cs[..i], rel) {
        var s :| s in Leaves(c) && Matches(eng, pats, Extend(Join(rel, c.name), s)) && x == Extend(Join(rel, c.name), s);
        assert [c.name] + s in LeavesIn(cs[..i + 1]);
      }
    }
  }

  lemma ChildHitsPrefix(eng: Engine, pats: seq<string>, cs: seq<Node>, i: nat, rel: string)
    requires i <= |cs|
    ensures ChildHits(eng, pats, cs[..i], rel) <= ChildHits(eng, pats, cs, rel)
  {
    LeavesInPrefix(cs, i);
  }

  /**
   * Walks the tree `n`, whose path relative to the classpath directory is
   * `rel`, registering every file whose path the patterns select. Fails
   * exactly when some directory in the tree cannot be listed, naming the
   * directory, one that does not list, at which it stopped; on failure only selected file
   * paths have been registered.
   */
  method ScanDirectory(eng: Engine, pats: seq<string>, n: Node, rel: string, reg: Registry) returns (failed: Option<string>)
    modifies reg
    decreases n
    ensures failed.None? <==> DirsListable(n)
    ensures failed.Some? ==> failed.value in Unlistable(n, rel)
    ensures old(reg.log) <= reg.log
    ensures Elems(reg.log[|old(reg.log)|..]) <= DirHits(eng, pats, n, rel)
    ensures failed.None? ==> Elems(reg.log[|old(reg.log)|..]) == DirHits(eng, pats, n, rel)
  {
    ghost var start := |reg.log|;
    match n
    case File(name) =>
      FileHits(eng, pats, name, rel);
      if Matches(eng, pats, rel) {
        reg.Register(rel);
        assert reg.log[start..] == [rel];
      } else {
        assert reg.log[start..] == [];
      }
      failed := None;
    case Dir(_, listable, cs) =>
      if !listable {
        assert reg.log[start..] == [];
        return Some(rel);
      }
      assert Leaves(n) == LeavesIn(cs);
      assert DirHits(eng, pats, n, rel) == ChildHits(eng, pats, cs, rel);
      var i := 0;
      while i < |cs|
        invariant 0 <= i <= |cs|
        invariant old(reg.log) <= reg.log && start == |old(reg.log)|
        invariant Elems(reg.log[start..]) == ChildHits(eng, pats, cs[..i], rel)
        invariant forall j :: 0 <= j < i ==> DirsListable(cs[j])
      {
        ghost var before := reg.log;
        var child := cs[i];
        var childFailed := ScanDirectory(eng, pats, child, Join(rel, child.name), reg);
        assert reg.log[start..] == before[start..] + reg.log[|before|..];
        ChildStep(eng, pats, cs, i, rel, before[start..], reg.log[|before|..], childFailed.None?);
        if childFailed.Some? {
          UnlistableInMember(cs, i, rel);
          return childFailed;
        }
        i := i + 1;
      }
      assert cs[..i] == cs;
      failed := None;
  }

  lemma FileHits(eng: Engine, pats: seq<string>, name: string, rel: string)
    ensures DirHits(eng, pats, File(name), rel) == if Matches(eng, pats, rel) then {rel} else {}
  {
    assert Leaves(File(name)) == {[]};
  }

  lemma ElemsConcat(a: seq<string>, b: seq<string>)
    ensures Elems(a + b) == Elems(a) + Elems(b)
  {
  }

  /** The walk's bookkeeping after scanning the child `cs[i]` of a directory. */
  lemma ChildStep(eng: Engine, pats: seq<string>, cs: seq<Node>, i: nat, rel: string,
                  prior: seq<string>, added: seq<string>, childOk: bool)
    requires i < |cs|
    requires Elems(prior) == ChildHits(eng, pats, cs[..i], rel)
    requires Elems(added) <= DirHits(eng, pats, cs[i], Join(rel, cs[i].name))
    requires childOk ==> Elems(added) == DirHits(eng, pats, cs[i], Join(rel, cs[i].name))
    ensures Elems(prior + added) <= ChildHits(eng, pats, cs, rel)
    ensures childOk ==> Elems(prior + added) == ChildHits(eng, pats, cs[..i + 1], rel)
  {
    ChildHitsSnoc(eng, pats, cs, i, rel);
    ChildHitsPrefix(eng, pats, cs, i + 1, rel);
    ElemsConcat(prior, added);
  }

  // ---------------------------------------------------------------------
  // Archives
  // ---------------------------------------------------------------------

  /** Which archive entries are registered: no directory markers, and selected by `pats`. */
  function JarSelector(eng: Engine, pats: seq<string>): string -> bool
  {
    name => !EndsWithSlash(name) && Matches(eng, pats, name)
  }

  /**
   * Enumerates the entries of `jar` in order, skipping directory markers and
   * registering each remaining entry, under its own name, when `pats`
   * selects it. Fails, registering nothing, when the archive cannot be opened.
   */
  method ScanJar(eng: Engine, pats: seq<string>, jar: Jar, reg: Registry) returns (ok: bool)
    modifies reg
    ensures ok == jar.openable
    ensures reg.log == old(reg.log) + (if ok then Keep(jar.entries, JarSelector(eng, pats)) else [])
  {
    if !jar.openable {
      return false;
    }
    var en := jar.entries;
    var i := 0;
    while i < |en|
      invariant 0 <= i <= |en|
      invariant reg.log == old(reg.log) + Keep(en[..i], JarSelector(eng, pats))
    {
      var name := en[i];
      KeepSnoc(en, i, JarSelector(eng, pats));
      assert JarSelector(eng, pats)(name) == (!EndsWithSlash(name) && Matches(eng, pats, name));
      if EndsWithSlash(name) {
        // a directory marker is never registered
      } else if Matches(eng, pats, name) {
        reg.Register(name);
      }
      i := i + 1;
    }
    assert en[..i] == en;
    ok := true;
  }

  // ---------------------------------------------------------------------
  // Modules
  // ---------------------------------------------------------------------

  /** Names selected by `pats`. */
  function PatternSelector(eng: Engine, pats: seq<string>): string -> bool
  {
    name => Matches(eng, pats, name)
  }

  /** Names that can be opened in module `m`. */
  function PresentIn(m: Module): string -> bool
  {
    name => name !in m.absent
  }

  /** What scanning one module registers: its selected listing, minus names that open to nothing. */
  function ModuleSelected(eng: Engine, pats: seq<string>, m: Module): (r: seq<string>)
    ensures |r| <= |m.listing|
  {
    Keep(Keep(m.listing, PatternSelector(eng, pats)), PresentIn(m))
  }

  /** What scanning the modules `ms` in order registers. */
  function ModulesSelected(eng: Engine, pats: seq<string>, ms: seq<Module>): seq<string>
    decreases |ms|
  {
    if ms == [] then []
    else ModulesSelected(eng, pats, ms[..|ms| - 1]) + ModuleSelected(eng, pats, ms[|ms| - 1])
  }

  /**
   * Scans one module that opened: its listing is filtered by `pats`, then
   * every selected name that opens is registered, in listing order.
   */
  method ScanModule(eng: Engine, pats: seq<string>, m: Module, reg: Registry)
    modifies reg
    ensures reg.log == old(reg.log) + ModuleSelected(eng, pats, m)
  {
    var resources := Keep(m.listing, PatternSelector(eng, pats));
    var j := 0;
    while j < |resources|
      invariant 0 <= j <= |resources|
      invariant reg.log == old(reg.log) + Keep(resources[..j], PresentIn(m))
    {
      KeepSnoc(resources, j, PresentIn(m));
      if resources[j] !in m.absent {
        reg.Register(resources[j]);
      }
      j := j + 1;
    }
    assert resources[..j] == resources;
  }

  lemma ModulesSelectedSnoc(eng: Engine, pats: seq<string>, ms: seq<Module>, i: nat)
    requires i < |ms|
    ensures ModulesSelected(eng, pats, ms[..i + 1]) == ModulesSelected(eng, pats, ms[..i]) + ModuleSelected(eng, pats, ms[i])
  {
    assert ms[..i + 1][..i] == ms[..i];
  }

  /** Appending what one more module registers extends the log of the modules before it. */
  lemma ModuleStep(eng: Engine, pats: seq<string>, ms: seq<Module>, i: nat, before: seq<string>, mid: seq<string>, after: seq<string>)
    requires i < |ms|
    requires mid == before + ModulesSelected(eng, pats, ms[..i])
    requires after == mid + ModuleSelected(eng, pats, ms[i])
    ensures after == before + ModulesSelected(eng, pats, ms[..i + 1])
  {
    ModulesSelectedSnoc(eng, pats, ms, i);
  }

  /**
   * Scans the modules of the boot layer in order. A module that cannot be
   * opened aborts the scan; everything registered until then stays
   * registered. `stop` is the index of that module, or the number of
   * modules when all of them open.
   */
  method FindResourcesInModules(eng: Engine, pats: seq<string>, ms: seq<Module>, reg: Registry)
    returns (ok: bool, ghost stop: nat)
    modifies reg
    ensures stop <= |ms| && (ok <==> stop == |ms|)
    ensures forall j :: 0 <= j < stop ==> ms[j].openable
    ensures stop < |ms| ==> !ms[stop].openable
    ensures reg.log == old(reg.log) + ModulesSelected(eng, pats, ms[..stop])
  {
    var i := 0;
    while i < |ms|
      invariant 0 <= i <= |ms|
      invariant forall j :: 0 <= j < i ==> ms[j].openable
      invariant reg.log == old(reg.log) + ModulesSelected(eng, pats, ms[..i])
    {
      var m := ms[i];
      if !m.openable {
        return false, i;
      }
      ghost var mid := reg.log;
      ScanModule(eng, pats, m, reg);
      ModuleStep(eng, pats, ms, i, old(reg.log), mid, reg.log);
      i := i + 1;
    }
    return true, i;
  }

  // ---------------------------------------------------------------------
  // Candidates and what a scan selects from them
  // ---------------------------------------------------------------------

  /** The candidates among `cands` that the pattern array `pats` selects. */
  function Selected(eng: Engine, pats: seq<string>, cands: set<string>): set<string>
  {
    set x | x in cands && Matches(eng, pats, x)
  }

  /**
   * The names a classpath element offers for matching: the walk's paths of
   * the files of a directory tree (none below a directory that does not
   * list), or the entries of an archive that opens that are not directory
   * markers.
   */
  function Candidates(e: Element): set<string>
  {
    match e
    case Directory(_, _, _) => set s | s in Leaves(Tree(e)) :: Extend("", s)
    case Archive(_, jar) => if jar.openable then set x | x in jar.entries && !EndsWithSlash(x) else {}
  }

  /** Every segment sequence of the files under `cs` starts with the name of one of `cs`. */
  lemma {:induction false} LeavesInMember(cs: seq<Node>, s: seq<string>)
    requires s in LeavesIn(cs)
    ensures exists j, t :: 0 <= j < |cs| && t in Leaves(cs[j]) && s == [cs[j].name] + t
    decreases |cs|
  {
    var init := cs[..|cs| - 1];
    var last := cs[|cs| - 1];
    if s in LeavesIn(init) {
      LeavesInMember(init, s);
      var j, t :| 0 <= j < |init| && t in Leaves(init[j]) && s == [init[j].name] + t;
      assert init[j] == cs[j];
    } else {
      var t :| t in Leaves(last) && s == [last.name] + t;
      assert 0 <= |cs| - 1 < |cs| && t in Leaves(cs[|cs| - 1]) && s == [cs[|cs| - 1].name] + t;
    }
  }

  /** In a tree whose names a listing can produce, every file's segments are such names. */
  lemma {:induction false} LeafSegments(n: Node, s: seq<string>)
    requires WellNamed(n) && s in Leaves(n)
    ensures forall i :: 0 <= i < |s| ==> Segment(s[i])
    decreases n
  {
    match n
    case File(_) =>
    case Dir(_, _, cs) =>
      LeavesInMember(cs, s);
      var j, t :| 0 <= j < |cs| && t in Leaves(cs[j]) && s == [cs[j].name] + t;
      LeafSegments(cs[j], t);
      forall i | 0 <= i < |s| ensures Segment(s[i]) {
        if i > 0 {
          assert s[i] == t[i - 1];
        }
      }
  }

  /**
   * The path under which a directory scan tests and registers a file is its
   * segment names below the classpath directory joined by '/': the
   * directory's own name is not part of it, it is never empty, and it has no
   * leading '/'.
   */
  lemma DirectoryPaths(e: Element)
    requires e.Directory? && WellNamed(Tree(e))
    ensures forall s :: s in Leaves(Tree(e)) ==>
              s != [] && Extend("", s) == JoinPath(s) && |JoinPath(s)| > 0 && JoinPath(s)[0] != '/'
    ensures "" !in Candidates(e)
  {
    forall s | s in Leaves(Tree(e))
      ensures s != [] && Extend("", s) == JoinPath(s) && |JoinPath(s)| > 0 && JoinPath(s)[0] != '/'
    {
      LeavesInMember(e.children, s);
      LeafSegments(Tree(e), s);
      RootPath(s);
    }
  }

  /** Scanning `e` cannot fail. */
  predicate Readable(e: Element)
  {
    match e
    case Directory(_, _, _) => DirsListable(Tree(e))
    case Archive(_, jar) => jar.openable
  }

  /**
   * The failures scanning `e` can abort with: a directory that does not
   * list, named by the element and its path below it, or an archive that
   * does not open, named by the element.
   */
  predicate FailsWith(e: Element, f: Failure)
  {
    match e
    case Directory(path, _, _) =>
      f.DirectoryUnreadable? && f.element == path && f.dir in Unlistable(Tree(e), "")
    case Archive(path, jar) => !jar.openable && f == ClasspathElementUnreadable(path)
  }

  /** An element has a failure to abort with exactly when it is not readable. */
  lemma FailsWithUnreadable(e: Element)
    ensures !Readable(e) <==> exists f :: FailsWith(e, f)
  {
    match e
    case Directory(path, _, _) =>
      UnlistableEmpty(Tree(e), "");
      if !Readable(e) {
        var d :| d in Unlistable(Tree(e), "");
        assert FailsWith(e, DirectoryUnreadable(path, d));
      }
    case Archive(path, _) =>
      if !Readable(e) {
        assert FailsWith(e, ClasspathElementUnreadable(path));
      }
  }

  /**
   * The names the modules `ms` offer: listed by a module that opens, and not
   * opening to nothing.
   */
  function ModuleCandidates(ms: seq<Module>): set<string>
  {
    set k, x | 0 <= k < |ms| && ms[k].openable && x in ms[k].listing && x !in ms[k].absent :: x
  }

  lemma DirHitsSelected(eng: Engine, pats: seq<string>, e: Element)
    requires e.Directory?
    ensures DirHits(eng, pats, Tree(e), "") == Selected(eng, pats, Candidates(e))
  {
  }

  /** The modules of a prefix of the boot layer offer no name the whole layer does not. */
  lemma ModuleCandidatesPrefix(ms: seq<Module>, k: nat)
    requires k <= |ms|
    ensures ModuleCandidates(ms[..k]) <= ModuleCandidates(ms)
  {
    forall x | x in ModuleCandidates(ms[..k]) ensures x in ModuleCandidates(ms) {
      var j :| 0 <= j < k && ms[..k][j].openable && x in ms[..k][j].listing && x !in ms[..k][j].absent;
      assert ms[..k][j] == ms[j];
    }
  }

  /** One module's scan registers exactly its listed, present names that `pats` selects. */
  lemma ModuleSelectedMembers(eng: Engine, pats: seq<string>, m: Module)
    ensures forall x :: x in ModuleSelected(eng, pats, m) <==> x in m.listing && x !in m.absent && Matches(eng, pats, x)
  {
    KeepMembers(m.listing, PatternSelector(eng, pats));
    KeepMembers(Keep(m.listing, PatternSelector(eng, pats)), PresentIn(m));
  }

  /** The registered module names are the selected module candidates. */
  lemma {:induction false} ModulesSelectedElems(eng: Engine, pats: seq<string>, ms: seq<Module>)
    requires forall k :: 0 <= k < |ms| ==> ms[k].openable
    ensures Elems(ModulesSelected(eng, pats, ms)) == Selected(eng, pats, ModuleCandidates(ms))
    decreases |ms|
  {
    if ms != [] {
      var init := ms[..|ms| - 1];
      var m := ms[|ms| - 1];
      assert forall k :: 0 <= k < |init| ==> init[k] == ms[k];
      ModulesSelectedElems(eng, pats, init);
      var sel := ModuleSelected(eng, pats, m);
      assert Elems(ModulesSelected(eng, pats, ms)) == Elems(ModulesSelected(eng, pats, init)) + Elems(sel);
      ModuleSelectedMembers(eng, pats, m);
      forall x | x in ModuleCandidates(ms)
        ensures x in ModuleCandidates(init) || (x in m.listing && x !in m.absent)
      {
        var k :| 0 <= k < |ms| && ms[k].openable && x in ms[k].listing && x !in ms[k].absent;
        if k < |ms| - 1 {
          assert ms[k] == init[k];
        }
      }
      forall x | x in ModuleCandidates(init) ensures x in ModuleCandidates(ms) {
        var k :| 0 <= k < |init| && init[k].openable && x in init[k].listing && x !in init[k].absent;
        assert init[k] == ms[k];
      }
    }
  }

  /**
   * Scans one classpath element with `pats`, dispatching on its kind: a
   * directory is walked from itself with the empty relative path, anything
   * else is read as an archive. Fails exactly when the element is not
   * readable, naming the element (and, for a directory, the path below it
   * that does not list); on success the new registrations are exactly the selected
   * candidates, and on failure they are among them.
   */
  method ScanElement(eng: Engine, pats: seq<string>, e: Element, reg: Registry) returns (err: Option<Failure>)
    modifies reg
    ensures err.None? <==> Readable(e)
    ensures err.Some? ==> FailsWith(e, err.value)
    ensures old(reg.log) <= reg.log
    ensures Elems(reg.log[|old(reg.log)|..]) <= Selected(eng, pats, Candidates(e))
    ensures err.None? ==> Elems(reg.log[|old(reg.log)|..]) == Selected(eng, pats, Candidates(e))
  {
    match e
    case Directory(path, _, _) =>
      var failed := ScanDirectory(eng, pats, Tree(e), "", reg);
      DirHitsSelected(eng, pats, e);
      err := if failed.Some? then Some(DirectoryUnreadable(path, failed.value)) else None;
    case Archive(path, jar) =>
      var ok := ScanJar(eng, pats, jar, reg);
      assert reg.log[|old(reg.log)|..] == if ok then Keep(jar.entries, JarSelector(eng, pats)) else [];
      KeepMembers(jar.entries, JarSelector(eng, pats));
      err := if ok then None else Some(ClasspathElementUnreadable(path));
  }
}
