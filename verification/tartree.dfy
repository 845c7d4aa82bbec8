/** The first-child/next-sibling tree of sys/tarfs.c, in an array of nodes as tar_file_alloc hands them out. */
module TarTree {
  import opened Paths

  /** struct tar_file; links are indices, -1 for NULL. */
  datatype TarFile = TarFile(next: int, child: int, parent: int, fileName: string, filePath: string,
                             start: nat, fileType: nat, filePerm: nat)

  const DIRTYPE: nat := 5
  const ROOT: nat := 0

  /** The least node from `k` on whose parent is `p`. */
  function FirstFrom(nodes: seq<TarFile>, p: int, k: nat): int
    decreases |nodes| - k
  {
    if k >= |nodes| then -1 else if nodes[k].parent == p then k else FirstFrom(nodes, p, k + 1)
  }

  lemma {:induction false} FirstFromIs(nodes: seq<TarFile>, p: int, k: nat)
    ensures var m := FirstFrom(nodes, p, k); (m == -1 || (k <= m < |nodes| && nodes[m].parent == p))
    ensures var m := FirstFrom(nodes, p, k);
      forall j :: k <= j < |nodes| && nodes[j].parent == p ==> m != -1 && m <= j
    decreases |nodes| - k
  {
    if k < |nodes| && nodes[k].parent != p {
      FirstFromIs(nodes, p, k + 1);
    }
  }

  /** Children are linked in the order they were added. */
  ghost predicate LinksOk(nodes: seq<TarFile>) {
    && (forall n :: 0 <= n < |nodes| ==> nodes[n].child == FirstFrom(nodes, n, 0))
    && (forall n :: 0 < n < |nodes| ==> nodes[n].next == FirstFrom(nodes, nodes[n].parent, n + 1))
  }

  ghost predicate TreeOk(nodes: seq<TarFile>) {
    && |nodes| >= 1 && nodes[ROOT].parent == -1
    && (forall n :: 0 < n < |nodes| ==> 0 <= nodes[n].parent < n && nodes[n].fileName != [])
    && (forall a, b :: 0 < a < b < |nodes| && nodes[a].parent == nodes[b].parent ==>
      nodes[a].fileName != nodes[b].fileName)
    && LinksOk(nodes)
  }

  /** The names on the way from the root to node `n`. */
  ghost function PathOf(nodes: seq<TarFile>, n: nat): seq<string>
    requires TreeOk(nodes) && n < |nodes|
  {
    if n == ROOT then [] else PathOf(nodes, nodes[n].parent) + [nodes[n].fileName]
  }

  /** Different nodes have different paths. */
  lemma {:induction false} PathInjective(nodes: seq<TarFile>, a: nat, b: nat)
    requires TreeOk(nodes) && a < |nodes| && b < |nodes| && PathOf(nodes, a) == PathOf(nodes, b)
    ensures a == b
  {
    if a != ROOT && b != ROOT {
      var p, q := PathOf(nodes, nodes[a].parent), PathOf(nodes, nodes[b].parent);
      assert p == PathOf(nodes, a)[..|p|] && q == PathOf(nodes, b)[..|q|];
      PathInjective(nodes, nodes[a].parent, nodes[b].parent);
    }
  }

  /** Node `r` is what `path` names, -1 when nothing has that path. */
  ghost predicate Names(nodes: seq<TarFile>, path: seq<string>, r: int)
    requires TreeOk(nodes)
  {
    if r == -1 then forall n: nat :: n < |nodes| ==> PathOf(nodes, n) != path
    else 0 <= r < |nodes| && PathOf(nodes, r) == path
  }

  lemma NamesUnique(nodes: seq<TarFile>, path: seq<string>, a: int, b: int)
    requires TreeOk(nodes) && Names(nodes, path, a) && Names(nodes, path, b)
    ensures a == b
  {
    if a != -1 && b != -1 {
      PathInjective(nodes, a, b);
    }
  }

  /** A prefix of an existing path exists. */
  lemma {:induction false} PrefixExists(nodes: seq<TarFile>, n: nat, path: seq<string>)
    requires TreeOk(nodes) && n < |nodes| && path <= PathOf(nodes, n)
    ensures exists m: nat :: m < |nodes| && PathOf(nodes, m) == path
  {
    if path != PathOf(nodes, n) {
      PrefixExists(nodes, nodes[n].parent, path);
    }
  }

  /** The sibling search all lookups share. */
  method FindChild(nodes: seq<TarFile>, p: nat, name: string) returns (cur: int)
    requires TreeOk(nodes) && p < |nodes|
    ensures Names(nodes, PathOf(nodes, p) + [name], cur)
    ensures cur != -1 ==> cur > 0 && nodes[cur].parent == p
  {
    hide PathOf, Names, FirstFrom;
    TreeParts(nodes, p);
    cur := nodes[p].child;
    FirstFromIs(nodes, p, 0);
    while cur != -1 && nodes[cur].fileName != name
      invariant cur == -1 || (0 < cur < |nodes| && nodes[cur].parent == p)
      invariant forall j :: 0 < j < |nodes| && nodes[j].parent == p && (cur == -1 || j < cur) ==>
        nodes[j].fileName != name
      decreases if cur == -1 then 0 else |nodes| - cur
    {
      NextChild(nodes, p, cur);
      cur := nodes[cur].next;
    }
    if cur == -1 {
      NoChild(nodes, p, name);
    } else {
      ChildPath(nodes, p, cur);
    }
  }

  lemma TreeParts(nodes: seq<TarFile>, p: nat)
    requires TreeOk(nodes) && p < |nodes|
    ensures nodes[p].child == FirstFrom(nodes, p, 0) && nodes[0].parent != p
  {
  }

  /** The next sibling is the next node with the same parent. */
  lemma NextChild(nodes: seq<TarFile>, p: nat, cur: int)
    requires TreeOk(nodes) && 0 < cur < |nodes| && nodes[cur].parent == p
    ensures var m := nodes[cur].next; m == -1 || (cur < m < |nodes| && nodes[m].parent == p)
    ensures var m := nodes[cur].next;
      forall j :: cur < j < |nodes| && nodes[j].parent == p ==> m != -1 && m <= j
  {
    hide FirstFrom;
    FirstFromIs(nodes, p, cur + 1);
  }

  lemma NoChild(nodes: seq<TarFile>, p: nat, name: string)
    requires TreeOk(nodes) && p < |nodes|
    requires forall j :: 0 < j < |nodes| && nodes[j].parent == p ==> nodes[j].fileName != name
    ensures Names(nodes, PathOf(nodes, p) + [name], -1)
  {
    forall n: nat | n < |nodes| ensures PathOf(nodes, n) != PathOf(nodes, p) + [name] {
      if n != ROOT && PathOf(nodes, n) == PathOf(nodes, p) + [name] {
        var q := PathOf(nodes, nodes[n].parent);
        assert q == PathOf(nodes, n)[..|q|];
        PathInjective(nodes, nodes[n].parent, p);
      }
    }
  }

  lemma ChildPath(nodes: seq<TarFile>, p: nat, n: nat)
    requires TreeOk(nodes) && p < |nodes| && 0 < n < |nodes| && nodes[n].parent == p
    ensures Names(nodes, PathOf(nodes, p) + [nodes[n].fileName], n)
  {
  }

  lemma NextName(nodes: seq<TarFile>, start: nat, comps: seq<string>, i: nat, p: nat, cur: int)
    requires TreeOk(nodes) && start < |nodes| && p < |nodes| && i < |comps|
    requires PathOf(nodes, p) == PathOf(nodes, start) + comps[..i]
    requires Names(nodes, PathOf(nodes, p) + [comps[i]], cur)
    ensures if cur == -1 then Names(nodes, PathOf(nodes, start) + comps, -1)
            else 0 <= cur < |nodes| && PathOf(nodes, cur) == PathOf(nodes, start) + comps[..i + 1]
  {
    hide TreeOk, PathOf;
    var path := PathOf(nodes, start) + comps[..i + 1];
    assert PathOf(nodes, p) + [comps[i]] == path;
    if cur == -1 {
      assert path + comps[i + 1..] == PathOf(nodes, start) + comps;
      NoDescendants(nodes, path, comps[i + 1..]);
    }
  }

  /** The descending loops of lookUpForFile. */
  method Descend(nodes: seq<TarFile>, start: nat, comps: seq<string>) returns (cur: int)
    requires TreeOk(nodes) && start < |nodes|
    ensures Names(nodes, PathOf(nodes, start) + comps, cur)
  {
    cur := start;
    var i := 0;
    assert PathOf(nodes, start) + comps[..0] == PathOf(nodes, start);
    while i < |comps|
      invariant 0 <= i <= |comps| && 0 <= cur < |nodes| && PathOf(nodes, cur) == PathOf(nodes, start) + comps[..i]
    {
      hide TreeOk, PathOf, Names;
      var p := cur;
      cur := FindChild(nodes, p, comps[i]);
      NextName(nodes, start, comps, i, p, cur);
      if cur == -1 {
        return;
      }
      i := i + 1;
    }
    assert comps[..i] == comps;
  }

  // ---------- lookUpForFile ----------

  /** The components that an absolute path, with its leading slash, spells. */
  function Absolute(path: string): seq<string>
    requires path != [] && path[0] == SLASH
  {
    if |path| == 1 then [] else Components(path[1..])
  }

  /** The components a path spells from the current directory. */
  function Resolve(cwd: string, path: string): seq<string>
    requires cwd != [] && cwd[0] == SLASH && path != []
  {
    if path[0] == SLASH then Absolute(path) else Absolute(cwd) + Components(path)
  }

  /** lookUpForFile. */
  method LookUpForFile(nodes: seq<TarFile>, cwd: string, filePath: string) returns (r: int)
    requires TreeOk(nodes) && cwd != [] && cwd[0] == SLASH && filePath != []
    ensures Names(nodes, Resolve(cwd, filePath), r)
  {
    if |filePath| == 1 && filePath[0] == SLASH {
      return ROOT;
    }
    var isRelativePath, rest := true, filePath;
    if filePath[0] == SLASH {
      isRelativePath := false;
      rest := filePath[1..];
    }
    var parts, count := ParseFileName(rest);
    if isRelativePath {
      var curNode: int := ROOT;
      if |cwd| == 1 {
      } else {
        var dirs, c := ParseFileName(cwd[1..]);
        curNode := Descend(nodes, ROOT, dirs[..c]);
        assert PathOf(nodes, ROOT) + dirs[..c] == Absolute(cwd);
        if curNode == -1 {
          NoDescendants(nodes, Absolute(cwd), Components(filePath));
          return -1;
        }
      }
      r := Descend(nodes, curNode, parts[..count]);
    } else {
      r := Descend(nodes, ROOT, parts[..count]);
      assert PathOf(nodes, ROOT) + parts[..count] == Absolute(filePath);
    }
  }

  lemma NoDescendants(nodes: seq<TarFile>, path: seq<string>, more: seq<string>)
    requires TreeOk(nodes) && Names(nodes, path, -1)
    ensures Names(nodes, path + more, -1)
  {
    forall n: nat | n < |nodes| ensures PathOf(nodes, n) != path + more {
      if PathOf(nodes, n) == path + more {
        PrefixExists(nodes, n, path);
      }
    }
  }

  /** A relative lookup is the absolute lookup of the current directory joined with the path. */
  lemma RelativeIsJoined(cwd: string, path: string)
    requires cwd != [] && cwd[0] == SLASH && path != [] && path[0] != SLASH
    ensures Resolve(cwd, path) == Resolve(cwd, Join(cwd, path))
  {
    hide Components;
    if |cwd| == 1 {
      assert Join(cwd, path)[1..] == path;
    } else {
      ComponentsJoin(cwd[1..], path);
      assert Join(cwd, path)[1..] == Join(cwd[1..], path);
    }
  }
}
