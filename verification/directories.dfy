/** The current directory: sys_chdir of sys/syscall.c over the tree of sys/tarfs.c. */
module Directories {
  import opened Paths
  import opened TarTree
  import opened Archive

  /** A directory with permissions 755. */
  predicate Enterable(f: TarFile) { f.fileType == DIRTYPE && f.filePerm == 493 }

  /** The node with this path, -1 when there is none. */
  ghost function NodeAt(nodes: seq<TarFile>, path: seq<string>): (r: int)
    requires TreeOk(nodes)
    ensures -1 <= r < |nodes|
    ensures Names(nodes, path, r)
  {
    if exists n: nat :: n < |nodes| && PathOf(nodes, n) == path then
      var n: nat :| n < |nodes| && PathOf(nodes, n) == path; n
    else -1
  }

  function ParentOf(nodes: seq<TarFile>, n: nat): (p: nat)
    requires n < |nodes|
  {
    if nodes[n].parent >= 0 then nodes[n].parent else n
  }

  /** Where one component leads from node `n`, -1 when it cannot be entered. */
  ghost function Enter(nodes: seq<TarFile>, n: nat, comp: string): (r: int)
    requires TreeOk(nodes) && n < |nodes|
    ensures -1 <= r < |nodes|
  {
    if comp == ".." then
      assert ParentOf(nodes, n) < |nodes|;
      if Enterable(nodes[ParentOf(nodes, n)]) then ParentOf(nodes, n) else -1
    else if comp == "." then n
    else
      var m := NodeAt(nodes, PathOf(nodes, n) + [comp]);
      if m != -1 && Enterable(nodes[m]) then m else -1
  }

  /** Components entered one after the other. */
  ghost function Walk(nodes: seq<TarFile>, n: nat, comps: seq<string>): (r: int)
    requires TreeOk(nodes) && n < |nodes|
    ensures -1 <= r < |nodes|
  {
    if comps == [] then n
    else
      var m := Walk(nodes, n, comps[..|comps| - 1]);
      if m == -1 then -1 else Enter(nodes, m, comps[|comps| - 1])
  }

  // ---------- what a walk means, on paths alone ----------

  function Move(path: seq<string>, comp: string): seq<string> {
    if comp == ".." then (if path == [] then [] else path[..|path| - 1])
    else if comp == "." then path
    else path + [comp]
  }

  /** A path with "." and ".." worked off against it. */
  function Normalize(path: seq<string>, comps: seq<string>): seq<string> {
    if comps == [] then path else Move(Normalize(path, comps[..|comps| - 1]), comps[|comps| - 1])
  }

  ghost predicate EnterableAt(nodes: seq<TarFile>, path: seq<string>)
    requires TreeOk(nodes)
  {
    var m := NodeAt(nodes, path);
    m != -1 && Enterable(nodes[m])
  }

  /** One step of a walk is one step of the normalisation. */
  lemma EnterMoves(nodes: seq<TarFile>, n: nat, comp: string)
    requires TreeOk(nodes) && n < |nodes| && Enterable(nodes[n])
    ensures Enter(nodes, n, comp) != -1 <==> EnterableAt(nodes, Move(PathOf(nodes, n), comp))
    ensures Enter(nodes, n, comp) != -1 ==> Enter(nodes, n, comp) == NodeAt(nodes, Move(PathOf(nodes, n), comp))
  {
    var path := PathOf(nodes, n);
    if comp == ".." {
      assert path == [] || path[..|path| - 1] == PathOf(nodes, nodes[n].parent);
      NamesUnique(nodes, Move(path, comp), ParentOf(nodes, n), NodeAt(nodes, Move(path, comp)));
    } else if comp == "." {
      NamesUnique(nodes, path, n, NodeAt(nodes, path));
    }
  }

  lemma EnterIsEnterable(nodes: seq<TarFile>, n: nat, comp: string)
    requires TreeOk(nodes) && n < |nodes| && Enterable(nodes[n])
    ensures Enter(nodes, n, comp) != -1 ==> Enterable(nodes[Enter(nodes, n, comp)])
  {
  }

  /** A walk succeeds exactly when every normalised prefix is a directory with permissions 755,
      and it ends at the directory of the normalised path. */
  lemma {:induction false} WalkIsNormalize(nodes: seq<TarFile>, n: nat, comps: seq<string>)
    requires TreeOk(nodes) && n < |nodes| && Enterable(nodes[n])
    ensures var m := Walk(nodes, n, comps);
      m != -1 <==> forall k :: 0 <= k <= |comps| ==> EnterableAt(nodes, Normalize(PathOf(nodes, n), comps[..k]))
    ensures var m := Walk(nodes, n, comps);
      m != -1 ==> Enterable(nodes[m]) && PathOf(nodes, m) == Normalize(PathOf(nodes, n), comps)
  {
    var path := PathOf(nodes, n);
    if comps == [] {
      NamesUnique(nodes, path, n, NodeAt(nodes, path));
    } else {
      var most, comp := comps[..|comps| - 1], comps[|comps| - 1];
      WalkIsNormalize(nodes, n, most);
      var m := Walk(nodes, n, most);
      hide TreeOk, PathOf, Enterable, Walk, Move, Enter;
      forall k | 0 <= k < |comps| ensures comps[..k] == most[..k] {}
      assert comps[..|comps|] == comps && most[..|most|] == most;
      WalkLast(nodes, n, comps);
      NormalizeLast(path, comps);
      if m != -1 {
        EnterMoves(nodes, m, comp);
        EnterIsEnterable(nodes, m, comp);
        NodeAtPath(nodes, Normalize(path, comps));
      }
    }
  }

  lemma NormalizeLast(path: seq<string>, comps: seq<string>)
    requires comps != []
    ensures Normalize(path, comps) == Move(Normalize(path, comps[..|comps| - 1]), comps[|comps| - 1])
  {
  }

  lemma WalkLast(nodes: seq<TarFile>, n: nat, comps: seq<string>)
    requires TreeOk(nodes) && n < |nodes| && comps != []
    ensures var m := Walk(nodes, n, comps[..|comps| - 1]);
      Walk(nodes, n, comps) == if m == -1 then -1 else Enter(nodes, m, comps[|comps| - 1])
  {
  }

  lemma NodeAtPath(nodes: seq<TarFile>, path: seq<string>)
    requires TreeOk(nodes)
    ensures NodeAt(nodes, path) != -1 ==> PathOf(nodes, NodeAt(nodes, path)) == path
  {
  }

  // ---------- sys_chdir ----------

  /** `cwd` is the path of node `n`, which is a directory. */
  ghost predicate Here(nodes: seq<TarFile>, cwd: string, n: int) {
    0 <= n < |nodes| && cwd == nodes[n].filePath && Enterable(nodes[n])
  }

  /** The node a change of directory leads to, -1 when it fails. */
  ghost function Target(nodes: seq<TarFile>, n: nat, path: string): int
    requires TreeOk(nodes) && n < |nodes| && path != []
  {
    Walk(nodes, if path[0] == SLASH then ROOT else n, PathComponents(path))
  }

  function PathComponents(path: string): seq<string>
    requires path != []
  {
    if path[0] == SLASH then Absolute(path) else Components(path)
  }

  /** The components sys_chdir hands to lookUpForFile are not empty. */
  predicate PathOk(path: string) {
    path != [] && forall k :: 0 <= k < |PathComponents(path)| ==> PathComponents(path)[k] != []
  }

  class Pcb {
    var cwd: string

    constructor ()
      ensures cwd == "/"
    {
      cwd := "/";
    }

    /** One component: the next node, or -1 with cwd not yet put back. */
    method ChangeOne(nodes: seq<TarFile>, blocks: seq<Block>, cur: nat, comp: string) returns (r: int)
      requires IndexOk(nodes, blocks, Indexed(blocks, 0)) && Here(nodes, cwd, cur)
      requires comp != [] && NoSlash(comp)
      modifies this
      ensures r == Enter(nodes, cur, comp)
      ensures r != -1 && comp != "." ==> nodes[r].fileType == 5 && nodes[r].filePerm == 493
      ensures if r != -1 then Here(nodes, cwd, r) else cwd == old(cwd)
    {
      hide IndexOk, TreeOk, PathOf, Names, Indexed;
      IndexTree(nodes, blocks, Indexed(blocks, 0));
      if comp == ".." {
        r := cur;
        ParentInTree(nodes, cur);
        if nodes[r].parent != -1 {
          r := nodes[r].parent;
        }
        if nodes[r].fileType != DIRTYPE || nodes[r].filePerm != 493 {
          return -1;
        }
        cwd := nodes[r].filePath;
      } else if comp == "." {
        r := cur;
      } else {
        OwnPath(nodes, blocks, Indexed(blocks, 0), "/", cur);
        CwdStarts(nodes, blocks, cwd, cur);
        r := LookUpForFile(nodes, cwd, comp);
        OneName(nodes, blocks, cwd, cur, comp);
        NamesUnique(nodes, PathOf(nodes, cur) + [comp], r, NodeAt(nodes, PathOf(nodes, cur) + [comp]));
        if r == -1 {
          return;
        }
        if nodes[r].fileType != DIRTYPE || nodes[r].filePerm != 493 {
          return -1;
        }
        cwd := nodes[r].filePath;
      }
    }

    /** sys_chdir: success leads to the target, failure changes nothing. */
    method Chdir(nodes: seq<TarFile>, blocks: seq<Block>, path: string, ghost n: nat) returns (r: int)
      requires IndexOk(nodes, blocks, Indexed(blocks, 0)) && TreeOk(nodes) && Here(nodes, cwd, n) && PathOk(path)
      modifies this
      ensures r == if Target(nodes, n, path) != -1 then 0 else -1
      ensures r == 0 ==> Here(nodes, cwd, Target(nodes, n, path))
      ensures r == -1 ==> cwd == old(cwd)
      ensures r == 0 ==>
        exists m :: 0 <= m < |nodes| && cwd == nodes[m].filePath && nodes[m].fileType == 5 && nodes[m].filePerm == 493
    {
      HereIff(nodes);
      hide IndexOk, TreeOk, PathOf, Indexed, Components, Here, Names, Walk, Enter;
      CwdStarts(nodes, blocks, cwd, n);
      SpecialPaths(nodes, n);
      CwdIs(nodes, cwd, n);
      if path == ".." {
        var file := LookUpForFile(nodes, cwd, cwd);
        CwdFound(nodes, blocks, cwd, n, file);
        r := ChangeOne(nodes, blocks, file, path);
        return if r == -1 then -1 else 0;
      } else if path == "." {
        return 0;
      } else if |path| == 1 && path[0] == SLASH {
        RootHere(nodes, blocks);
        cwd := nodes[ROOT].filePath;
        return 0;
      }
      var curDir, cur, rest: string := cwd, ROOT, path;
      if path[0] == SLASH {
        rest := path[1..];
        RootHere(nodes, blocks);
      } else {
        var file := LookUpForFile(nodes, curDir, curDir);
        CwdFound(nodes, blocks, cwd, n, file);
        cur := file;
      }
      var parts, count := ParseFileName(rest);
      var comps := parts[..count];
      assert comps == PathComponents(path);
      cwd := nodes[cur].filePath;
      r := ChangeAll(nodes, blocks, cur, comps, rest);
      if r == -1 {
        cwd := curDir;
      } else {
        r := 0;
      }
    }

    /** The loop of sys_chdir. */
    method ChangeAll(nodes: seq<TarFile>, blocks: seq<Block>, start: nat, comps: seq<string>,
        ghost path: string) returns (r: int)
      requires IndexOk(nodes, blocks, Indexed(blocks, 0)) && TreeOk(nodes) && Here(nodes, cwd, start)
      requires path != [] && comps == Components(path) && forall k :: 0 <= k < |comps| ==> comps[k] != []
      modifies this
      ensures r == Walk(nodes, start, comps)
      ensures r != -1 ==> Here(nodes, cwd, r)
    {
      r := start;
      var i := 0;
      while i < |comps|
        invariant 0 <= i <= |comps| && Here(nodes, cwd, r) && r == Walk(nodes, start, comps[..i])
      {
        hide IndexOk, TreeOk, PathOf, Indexed, Components, Here, Walk, Enter, NoSlash;
        HereInTree(nodes, cwd, r);
        ComponentNoSlash(path, i);
        var more := comps[..i + 1];
        assert more[..i] == comps[..i];
        WalkLast(nodes, start, more);
        r := ChangeOne(nodes, blocks, r, comps[i]);
        if r == -1 {
          WalkFails(nodes, start, comps, i + 1);
          return;
        }
        i := i + 1;
      }
      assert comps[..i] == comps;
    }
  }

  lemma HereIff(nodes: seq<TarFile>)
    ensures forall cwd: string, n: int :: Here(nodes, cwd, n) <==>
      0 <= n < |nodes| && cwd == nodes[n].filePath && nodes[n].fileType == 5 && nodes[n].filePerm == 493
  {
  }

  /** Where one component leads, by the fields of the nodes: ".." to the parent, from the root to the root, a name to
      the child with this name, and each only to a directory (type 5) with permissions 755. */
  lemma EnterIff(nodes: seq<TarFile>, n: nat, comp: string, m: nat)
    requires TreeOk(nodes) && n < |nodes| && m < |nodes|
    ensures comp == ".." ==>
      (Enter(nodes, n, comp) == m <==>
        && nodes[m].fileType == 5 && nodes[m].filePerm == 493
        && m == if nodes[n].parent >= 0 then nodes[n].parent else n)
    ensures comp == "." ==> Enter(nodes, n, comp) == n
    ensures comp != ".." && comp != "." ==>
      (Enter(nodes, n, comp) == m <==>
        && nodes[m].fileType == 5 && nodes[m].filePerm == 493
        && m != ROOT && nodes[m].parent == n && nodes[m].fileName == comp)
  {
    var path := PathOf(nodes, n) + [comp];
    if m != ROOT && nodes[m].parent == n && nodes[m].fileName == comp {
      NamesUnique(nodes, path, m, NodeAt(nodes, path));
    }
    if PathOf(nodes, m) == path {
      var up := PathOf(nodes, nodes[m].parent);
      assert up == path[..|path| - 1] == PathOf(nodes, n);
      PathInjective(nodes, nodes[m].parent, n);
      assert nodes[m].fileName == path[|path| - 1];
    }
  }

  /** What normalising does: dots go, a name and the ".." behind it go, and above the root is the root. */
  lemma NormalizeIs(path: seq<string>, comps: seq<string>, name: string)
    requires name != "." && name != ".."
    ensures Normalize(path, comps + ["."]) == Normalize(path, comps)
    ensures Normalize(path, comps + [name]) == Normalize(path, comps) + [name]
    ensures Normalize(path, comps + [name, ".."]) == Normalize(path, comps)
    ensures Normalize([], [".."]) == []
  {
    NormalizeMore(path, comps, ".");
    NormalizeMore(path, comps, name);
    NormalizeMore(path, comps + [name], "..");
    assert comps + [name, ".."] == comps + [name] + [".."];
    NormalizeMore([], [], "..");
    assert [] + [".."] == [".."];
    hide Normalize;
    assert (Normalize(path, comps) + [name])[..|Normalize(path, comps)|] == Normalize(path, comps);
    assert Normalize([], []) == [] by { NormalizeNothing(); }
  }

  lemma NormalizeNothing()
    ensures Normalize([], []) == []
  {
  }

  lemma NormalizeMore(path: seq<string>, comps: seq<string>, comp: string)
    ensures Normalize(path, comps + [comp]) == Move(Normalize(path, comps), comp)
  {
    assert (comps + [comp])[..|comps|] == comps;
  }

  lemma CwdIs(nodes: seq<TarFile>, cwd: string, n: int)
    requires Here(nodes, cwd, n)
    ensures 0 <= n < |nodes| && cwd == nodes[n].filePath
  {
  }

  lemma HereInTree(nodes: seq<TarFile>, cwd: string, n: int)
    requires Here(nodes, cwd, n)
    ensures 0 <= n < |nodes|
  {
  }

  lemma ParentInTree(nodes: seq<TarFile>, n: nat)
    requires TreeOk(nodes) && n < |nodes|
    ensures -1 <= nodes[n].parent < |nodes| && ParentOf(nodes, n) < |nodes|
  {
  }

  lemma RootHere(nodes: seq<TarFile>, blocks: seq<Block>)
    requires IndexOk(nodes, blocks, Indexed(blocks, 0))
    ensures |nodes| > 0 && Here(nodes, nodes[ROOT].filePath, ROOT)
  {
  }

  lemma CwdStarts(nodes: seq<TarFile>, blocks: seq<Block>, cwd: string, n: nat)
    requires IndexOk(nodes, blocks, Indexed(blocks, 0)) && Here(nodes, cwd, n)
    ensures n < |nodes| && cwd != [] && cwd[0] == SLASH
  {
    hide TreeOk, IndexOk;
    FilePathStarts(nodes, blocks, Indexed(blocks, 0), n);
  }

  /** Looking up the current directory finds its node. */
  lemma CwdFound(nodes: seq<TarFile>, blocks: seq<Block>, cwd: string, n: nat, file: int)
    requires IndexOk(nodes, blocks, Indexed(blocks, 0)) && TreeOk(nodes) && Here(nodes, cwd, n)
    requires cwd != [] && cwd[0] == SLASH && Names(nodes, Resolve(cwd, cwd), file)
    ensures file == n
  {
    hide TreeOk, IndexOk, Names, Resolve;
    OwnPath(nodes, blocks, Indexed(blocks, 0), cwd, n);
    NamesUnique(nodes, Resolve(cwd, cwd), n, file);
  }

  /** A single name is looked up below the current directory. */
  lemma OneName(nodes: seq<TarFile>, blocks: seq<Block>, cwd: string, n: nat, comp: string)
    requires IndexOk(nodes, blocks, Indexed(blocks, 0)) && Here(nodes, cwd, n) && TreeOk(nodes)
    requires cwd != [] && cwd[0] == SLASH && comp != [] && NoSlash(comp)
    ensures Resolve(cwd, comp) == PathOf(nodes, n) + [comp]
  {
    hide TreeOk, IndexOk, Names, Absolute;
    OwnPath(nodes, blocks, Indexed(blocks, 0), cwd, n);
    SplitName(comp);
  }

  lemma ComponentNoSlash(path: string, i: nat)
    requires path != [] && i < |Components(path)|
    ensures NoSlash(Components(path)[i])
  {
    PiecesNoSlash(path, i);
  }

  lemma {:induction false} WalkFails(nodes: seq<TarFile>, n: nat, comps: seq<string>, k: nat)
    requires TreeOk(nodes) && n < |nodes| && k <= |comps| && Walk(nodes, n, comps[..k]) == -1
    ensures Walk(nodes, n, comps) == -1
    decreases |comps|
  {
    if k < |comps| {
      assert comps[..|comps| - 1][..k] == comps[..k];
      WalkFails(nodes, n, comps[..|comps| - 1], k);
    } else {
      assert comps[..k] == comps;
    }
  }

  /** The three paths that sys_chdir treats on their own. */
  lemma SpecialPaths(nodes: seq<TarFile>, n: nat)
    requires TreeOk(nodes) && n < |nodes|
    ensures Target(nodes, n, "..") == Enter(nodes, n, "..") && Target(nodes, n, ".") == n &&
      Target(nodes, n, "/") == ROOT
  {
    hide TreeOk, PathOf, Enter, Split;
    SplitName("..");
    SplitName(".");
    WalkOne(nodes, n, "..");
    WalkOne(nodes, n, ".");
    DotStays(nodes, n);
  }

  lemma WalkOne(nodes: seq<TarFile>, n: nat, comp: string)
    requires TreeOk(nodes) && n < |nodes|
    ensures Walk(nodes, n, [comp]) == Enter(nodes, n, comp)
  {
    hide TreeOk, PathOf, Enter;
    assert [comp][..0] == [];
    assert Walk(nodes, n, []) == n;
  }

  lemma DotStays(nodes: seq<TarFile>, n: nat)
    requires TreeOk(nodes) && n < |nodes|
    ensures Enter(nodes, n, ".") == n
  {
  }

  // ---------- runs ----------

  /** A sequence of calls: the current node before each call and after the last. */
  ghost predicate IsRun(nodes: seq<TarFile>, run: seq<nat>, paths: seq<string>)
    requires TreeOk(nodes)
  {
    && |run| == |paths| + 1 && run[0] == ROOT
    && forall i :: 0 <= i < |paths| ==> IsStep(nodes, run[i], paths[i], run[i + 1])
  }

  /** One call of sys_chdir. */
  ghost predicate IsStep(nodes: seq<TarFile>, n: nat, path: string, n': nat)
    requires TreeOk(nodes)
  {
    && n < |nodes| && PathOk(path)
    && n' == if Target(nodes, n, path) != -1 then Target(nodes, n, path) else n
  }

  /** The directory a call leads to by path arithmetic alone. */
  function Goal(path: seq<string>, name: string): seq<string>
    requires name != []
  {
    if name[0] == SLASH then Normalize([], Absolute(name)) else Normalize(path, Components(name))
  }

  /** After any calls the current directory is an enterable directory, and every call either
      stayed where it was or went to the directory of the normalised path. */
  lemma {:induction false} RunStaysInDirectories(nodes: seq<TarFile>, run: seq<nat>, paths: seq<string>, i: nat)
    requires TreeOk(nodes) && Enterable(nodes[ROOT]) && IsRun(nodes, run, paths) && i <= |paths|
    ensures run[i] < |nodes| && Enterable(nodes[run[i]])
    ensures i > 0 ==> run[i - 1] < |nodes| && paths[i - 1] != []
    ensures i > 0 ==> run[i] == run[i - 1] || PathOf(nodes, run[i]) == Goal(PathOf(nodes, run[i - 1]), paths[i - 1])
  {
    if i > 0 {
      RunStaysInDirectories(nodes, run, paths, i - 1);
      hide TreeOk, Walk, Normalize, PathOf, Components, Enterable, Absolute;
      var n, path := run[i - 1], paths[i - 1];
      assert IsStep(nodes, n, path, run[i - 1 + 1]);
      RootPath(nodes);
      if path[0] == SLASH {
        WalkIsNormalize(nodes, ROOT, Absolute(path));
      } else {
        WalkIsNormalize(nodes, n, Components(path));
      }
    }
  }

  lemma RootPath(nodes: seq<TarFile>)
    requires TreeOk(nodes)
    ensures |nodes| > 0 && PathOf(nodes, ROOT) == []
  {
  }

  /** What a relative lookup finds after a change of directory without dots is what the joined path named before. */
  lemma ChdirThenLookUp(nodes: seq<TarFile>, blocks: seq<Block>, n: nat, cwd: string, path: string, cwd': string,
      file: string)
    requires IndexOk(nodes, blocks, Indexed(blocks, 0)) && TreeOk(nodes) && Here(nodes, cwd, n)
    requires PathOk(path) && path[0] != SLASH && Target(nodes, n, path) != -1
    requires Here(nodes, cwd', Target(nodes, n, path)) && file != [] && file[0] != SLASH
    requires forall k :: 0 <= k < |Components(path)| ==> Components(path)[k] != "." && Components(path)[k] != ".."
    ensures cwd != [] && cwd[0] == SLASH && cwd' != [] && cwd'[0] == SLASH
    ensures Resolve(cwd', file) == Resolve(cwd, Join(path, file))
  {
    hide IndexOk, TreeOk, Indexed, Components, Walk, PathOf, Normalize, Resolve, Join, Names;
    var m, comps := Target(nodes, n, path), Components(path);
    CwdStarts(nodes, blocks, cwd, n);
    CwdStarts(nodes, blocks, cwd', m);
    WalkIsNormalize(nodes, n, comps);
    NoDots(PathOf(nodes, n), comps);
    CwdPath(nodes, blocks, cwd, n);
    CwdPath(nodes, blocks, cwd', m);
    JoinResolves(cwd, path, cwd', file);
  }

  lemma CwdPath(nodes: seq<TarFile>, blocks: seq<Block>, cwd: string, n: nat)
    requires IndexOk(nodes, blocks, Indexed(blocks, 0)) && Here(nodes, cwd, n) && TreeOk(nodes)
    requires cwd != [] && cwd[0] == SLASH
    ensures Absolute(cwd) == PathOf(nodes, n)
  {
    hide TreeOk, IndexOk, Names, Absolute;
    OwnPath(nodes, blocks, Indexed(blocks, 0), cwd, n);
  }

  lemma JoinResolves(cwd: string, path: string, cwd': string, file: string)
    requires cwd != [] && cwd[0] == SLASH && cwd' != [] && cwd'[0] == SLASH
    requires path != [] && path[0] != SLASH && file != [] && file[0] != SLASH
    requires Absolute(cwd') == Absolute(cwd) + Components(path)
    ensures Resolve(cwd', file) == Resolve(cwd, Join(path, file))
  {
    hide Absolute, Components;
    ComponentsJoin(path, file);
  }

  lemma {:induction false} NoDots(path: seq<string>, comps: seq<string>)
    requires forall k :: 0 <= k < |comps| ==> comps[k] != "." && comps[k] != ".."
    ensures Normalize(path, comps) == path + comps
  {
    if comps != [] {
      NoDots(path, comps[..|comps| - 1]);
      assert comps == comps[..|comps| - 1] + [comps[|comps| - 1]];
    }
  }

  /** Changing to a normalised path and to the path itself agree when both succeed. */
  lemma SameDirectory(nodes: seq<TarFile>, n: nat, a: string, b: string)
    requires TreeOk(nodes) && n < |nodes| && Enterable(nodes[n]) && Enterable(nodes[ROOT]) && a != [] && b != []
    requires Target(nodes, n, a) != -1 && Target(nodes, n, b) != -1
    requires a[0] != SLASH && b[0] != SLASH
    ensures Target(nodes, n, a) == Target(nodes, n, b) <==>
      Normalize(PathOf(nodes, n), Components(a)) == Normalize(PathOf(nodes, n), Components(b))
  {
    WalkIsNormalize(nodes, n, Components(a));
    WalkIsNormalize(nodes, n, Components(b));
    if Normalize(PathOf(nodes, n), Components(a)) == Normalize(PathOf(nodes, n), Components(b)) {
      PathInjective(nodes, Target(nodes, n, a), Target(nodes, n, b));
    }
  }
}
