/** The ustar archive (ustar Interchange Format, EXTENDED DESCRIPTION of pax, IEEE Std 1003.1),
    its index tree and the linear scan over it (sys/tarfs.c). */
module Archive {
  import opened Paths
  import opened TarTree
  import opened Octal

  /** One 512-byte block, read as a header; what a data block shows in these fields is arbitrary. */
  datatype Block = Block(name: string, size: string, mode: string, typeflag: string)

  function FileSize(b: Block): nat { OctalOf(AtoiValue(b.size)) }

  /** Blocks from one header to the next. */
  function Stride(b: Block): nat { 1 + AlignFileUp(FileSize(b)) / 512 }

  /** The headers the archive walk meets from block `at` on. */
  function Headers(blocks: seq<Block>, at: nat): seq<nat>
    decreases |blocks| - at
  {
    if at >= |blocks| || blocks[at].name == [] then [] else [at] + Headers(blocks, at + Stride(blocks[at]))
  }

  /** Those that are indexed: up to and including lib/libc.a. */
  function Indexed(blocks: seq<Block>, at: nat): seq<nat>
    decreases |blocks| - at
  {
    if at >= |blocks| || blocks[at].name == [] then []
    else if blocks[at].name == "lib/libc.a" then [at]
    else [at] + Indexed(blocks, at + Stride(blocks[at]))
  }

  // ---------- well-formed archives ----------

  /** A file: its header and the number of data blocks its size takes. */
  datatype Entry = Entry(header: Block, data: seq<Block>)

  /** A size field has at most 11 octal digits, and the data fills the blocks that so many bytes take. */
  predicate EntryOk(e: Entry) {
    && e.header.name != [] && AllOctal(e.header.size) && |e.header.size| <= 11
    && |e.data| == (Value(e.header.size, 8) + 511) / 512
  }

  /** The blocks of a list of files, ended by a block with an empty name or by the end of the archive. */
  function Layout(entries: seq<Entry>): seq<Block> {
    if entries == [] then [] else Layout(entries[..|entries| - 1]) + LastBlocks(entries[|entries| - 1])
  }

  function LastBlocks(e: Entry): seq<Block> { [e.header] + e.data }

  /** Where each file's header lies. */
  function Positions(entries: seq<Entry>): seq<nat> {
    if entries == [] then []
    else Positions(entries[..|entries| - 1]) + [|Layout(entries[..|entries| - 1])|]
  }

  lemma StrideIsEntry(e: Entry)
    requires EntryOk(e)
    ensures Stride(e.header) == |LastBlocks(e)|
  {
    hide AtoiValue, OctalOf, Value;
    FieldValue(e.header.size);
  }

  /** The walk of a well-formed archive meets exactly the files' headers, in order, and stops. */
  lemma WalkVisitsHeaders(entries: seq<Entry>, blocks: seq<Block>)
    requires forall i :: 0 <= i < |entries| ==> EntryOk(entries[i])
    requires Layout(entries) <= blocks
    requires |blocks| == |Layout(entries)| || blocks[|Layout(entries)|].name == []
    ensures Headers(blocks, 0) == Positions(entries)
  {
    PositionsAt(entries, 0);
    WalkVisits(entries, 0, blocks);
    assert entries[..0] == [];
  }

  lemma {:induction false} WalkVisits(entries: seq<Entry>, k: nat, blocks: seq<Block>)
    requires k <= |entries| && forall i :: 0 <= i < |entries| ==> EntryOk(entries[i])
    requires Layout(entries) <= blocks && |Positions(entries)| == |entries|
    requires |blocks| == |Layout(entries)| || blocks[|Layout(entries)|].name == []
    ensures Headers(blocks, |Layout(entries[..k])|) == Positions(entries)[k..]
    decreases |entries| - k
  {
    hide Headers, FileSize, Stride, LastBlocks;
    if k < |entries| {
      WalkVisits(entries, k + 1, blocks);
      LayoutAt(entries, k);
      PositionsAt(entries, k);
      StrideIsEntry(entries[k]);
      hide Layout, Positions;
      var at, e := |Layout(entries[..k])|, entries[k];
      HeaderOf(e);
      assert Layout(entries[..k + 1])[at] == e.header;
      assert blocks[at] == e.header;
      HeadersStep(blocks, at);
      assert Positions(entries)[k..] == [Positions(entries)[k]] + Positions(entries)[k + 1..];
    } else {
      assert entries[..k] == entries;
      HeadersStep(blocks, |Layout(entries)|);
    }
  }

  lemma HeaderOf(e: Entry)
    requires EntryOk(e)
    ensures |LastBlocks(e)| >= 1 && LastBlocks(e)[0] == e.header && e.header.name != []
  {
  }

  lemma HeadersStep(blocks: seq<Block>, at: nat)
    ensures Headers(blocks, at) ==
      if at >= |blocks| || blocks[at].name == [] then [] else [at] + Headers(blocks, at + Stride(blocks[at]))
  {
  }

  lemma {:induction false} PositionsAt(entries: seq<Entry>, k: nat)
    requires k <= |entries|
    ensures |Positions(entries)| == |entries|
    ensures k < |entries| ==> Positions(entries)[k] == |Layout(entries[..k])|
  {
    if entries != [] {
      var n := |entries| - 1;
      if k < n {
        PositionsAt(entries[..n], k);
        assert entries[..n][..k] == entries[..k];
      } else {
        PositionsAt(entries[..n], 0);
      }
    }
  }

  lemma {:induction false} LayoutAt(entries: seq<Entry>, k: nat)
    requires k < |entries|
    ensures Layout(entries[..k + 1]) == Layout(entries[..k]) + LastBlocks(entries[k])
    ensures Layout(entries[..k + 1]) <= Layout(entries)
    decreases |entries| - k
  {
    assert entries[..k + 1][..k] == entries[..k];
    if k + 1 < |entries| {
      LayoutAt(entries, k + 1);
    } else {
      assert entries[..k + 1] == entries;
    }
  }

  // ---------- building the tree ----------

  predicate IndexedEntry(blocks: seq<Block>, h: nat) {
    h < |blocks| && blocks[h].name != []
  }

  /** The components of a header's name. */
  function PathAt(blocks: seq<Block>, h: nat): seq<string> {
    if IndexedEntry(blocks, h) then Components(blocks[h].name) else []
  }

  /** What the source relies on: names without empty components, parents before children,
      no two entries with one path, and no more nodes than num_tar_files. */
  ghost predicate ArchiveOk(blocks: seq<Block>, hs: seq<nat>) {
    && |hs| < 100
    && (forall i :: 0 <= i < |hs| ==> IndexedEntry(blocks, hs[i]) && NamesNonEmpty(PathAt(blocks, hs[i])))
    && (forall i :: 0 <= i < |hs| ==> HasParent(blocks, hs, i))
    && (forall i, j :: 0 <= i < j < |hs| ==> PathAt(blocks, hs[i]) != PathAt(blocks, hs[j]))
  }

  predicate NamesNonEmpty(path: seq<string>) {
    path != [] && forall k :: 0 <= k < |path| ==> path[k] != []
  }

  ghost predicate HasParent(blocks: seq<Block>, hs: seq<nat>, i: nat)
    requires i < |hs|
  {
    var path := PathAt(blocks, hs[i]);
    |path| == 1 || exists j :: 0 <= j < i && |path| >= 1 && PathAt(blocks, hs[j]) == path[..|path| - 1]
  }

  /** The node made for the header at block `h`. */
  function NodeFor(blocks: seq<Block>, h: nat, parent: int): TarFile
    requires IndexedEntry(blocks, h)
  {
    var b := blocks[h];
    var path := PathAt(blocks, h);
    TarFile(-1, -1, parent, if path == [] then [] else path[|path| - 1], [SLASH] + b.name,
            512 * (h + 1), AtoiValue(b.typeflag), OctalOf(AtoiValue(b.mode)))
  }

  /** Node `n` belongs to header `h`, whatever its links. */
  ghost predicate NodeIs(nodes: seq<TarFile>, n: nat, blocks: seq<Block>, h: nat)
    requires TreeOk(nodes) && n < |nodes| && IndexedEntry(blocks, h)
  {
    && nodes[n].(next := -1, child := -1) == NodeFor(blocks, h, nodes[n].parent)
    && PathOf(nodes, n) == PathAt(blocks, h)
  }

  /** The tree after the first headers: node `i + 1` is header `i`. */
  ghost predicate IndexOk(nodes: seq<TarFile>, blocks: seq<Block>, hs: seq<nat>) {
    && TreeOk(nodes) && |nodes| == |hs| + 1
    && nodes[ROOT].filePath == [SLASH] && nodes[ROOT].fileType == DIRTYPE && nodes[ROOT].filePerm == 493
    && (forall i :: 0 <= i < |hs| ==> IndexedEntry(blocks, hs[i]) && NodeIs(nodes, i + 1, blocks, hs[i]))
  }

  /** `nodes'` is `nodes` with only links changed, and one more node. */
  ghost predicate Appended(nodes: seq<TarFile>, nodes': seq<TarFile>, node: TarFile) {
    && |nodes'| == |nodes| + 1 && nodes'[|nodes|] == node
    && (forall n :: 0 <= n < |nodes| ==> nodes'[n].(next := -1, child := -1) == nodes[n].(next := -1, child := -1))
  }

  lemma SameFields(nodes: seq<TarFile>, nodes': seq<TarFile>, node: TarFile, n: nat)
    requires Appended(nodes, nodes', node) && n < |nodes|
    ensures nodes'[n].parent == nodes[n].parent && nodes'[n].fileName == nodes[n].fileName
  {
    var a, b := nodes[n].(next := -1, child := -1), nodes'[n].(next := -1, child := -1);
    assert a == b && a.parent == nodes[n].parent && b.parent == nodes'[n].parent;
    assert a.fileName == nodes[n].fileName && b.fileName == nodes'[n].fileName;
  }

  lemma {:induction false} FirstFromAppended(nodes: seq<TarFile>, nodes': seq<TarFile>, node: TarFile, p: int, k: nat)
    requires Appended(nodes, nodes', node) && k <= |nodes|
    ensures FirstFrom(nodes', p, k) ==
      if FirstFrom(nodes, p, k) != -1 then FirstFrom(nodes, p, k) else if node.parent == p then |nodes| else -1
    decreases |nodes| - k
  {
    if k < |nodes| {
      SameFields(nodes, nodes', node, k);
      if nodes[k].parent != p {
        FirstFromAppended(nodes, nodes', node, p, k + 1);
      }
    } else {
      assert FirstFrom(nodes', p, k + 1) == -1;
    }
  }

  lemma {:induction false} PathAppended(nodes: seq<TarFile>, nodes': seq<TarFile>, node: TarFile, n: nat)
    requires TreeOk(nodes) && TreeOk(nodes') && Appended(nodes, nodes', node) && n < |nodes|
    ensures PathOf(nodes', n) == PathOf(nodes, n)
  {
    SameFields(nodes, nodes', node, n);
    if n != ROOT {
      PathAppended(nodes, nodes', node, nodes[n].parent);
    }
  }

  /** Which links the insertion has to set: the parent's child when it had none, else its last child's next. */
  ghost predicate Relinked(nodes: seq<TarFile>, nodes': seq<TarFile>, p: nat) {
    && |nodes'| == |nodes| + 1 && p < |nodes|
    && (forall n :: 0 <= n < |nodes| ==>
          nodes'[n].child == if n == p && nodes[p].child == -1 then |nodes| else nodes[n].child)
    && (forall n :: 0 < n < |nodes| ==>
          nodes'[n].next == if nodes[n].parent == p && nodes[n].next == -1 then |nodes| else nodes[n].next)
  }

  lemma AppendKeeps(nodes: seq<TarFile>, nodes': seq<TarFile>, node: TarFile)
    requires TreeOk(nodes) && Appended(nodes, nodes', node) && 0 <= node.parent < |nodes|
    requires Relinked(nodes, nodes', node.parent) && node.next == -1 && node.child == -1 && node.fileName != []
    requires forall n :: 0 < n < |nodes| && nodes[n].parent == node.parent ==> nodes[n].fileName != node.fileName
    ensures TreeOk(nodes')
    ensures PathOf(nodes', |nodes|) == PathOf(nodes, node.parent) + [node.fileName]
    ensures forall n: nat :: n < |nodes| ==> PathOf(nodes', n) == PathOf(nodes, n)
  {
    hide FirstFrom, LinksOk;
    forall n: nat | n < |nodes| ensures nodes'[n].parent == nodes[n].parent && nodes'[n].fileName == nodes[n].fileName {
      SameFields(nodes, nodes', node, n);
    }
    AppendLinks(nodes, nodes', node);
    assert TreeOk(nodes');
    hide TreeOk, Appended, Relinked;
    forall n: nat | n < |nodes| ensures PathOf(nodes', n) == PathOf(nodes, n) {
      PathAppended(nodes, nodes', node, n);
    }
  }

  lemma AppendLinks(nodes: seq<TarFile>, nodes': seq<TarFile>, node: TarFile)
    requires TreeOk(nodes) && Appended(nodes, nodes', node) && 0 <= node.parent < |nodes|
    requires Relinked(nodes, nodes', node.parent) && node.next == -1 && node.child == -1
    ensures LinksOk(nodes')
  {
    hide FirstFrom;
    forall n: nat | n < |nodes'| ensures nodes'[n].child == FirstFrom(nodes', n, 0) {
      FirstFromAppended(nodes, nodes', node, n, 0);
      FirstFromIs(nodes, n, 0);
    }
    forall n: nat | 0 < n < |nodes'| ensures nodes'[n].next == FirstFrom(nodes', nodes'[n].parent, n + 1) {
      if n < |nodes| {
        SameFields(nodes, nodes', node, n);
        FirstFromAppended(nodes, nodes', node, nodes[n].parent, n + 1);
      } else {
        FirstFromIs(nodes', node.parent, n + 1);
      }
    }
  }

  /** Insertion as the last child. */
  method Insert(nodes: seq<TarFile>, node: TarFile) returns (nodes': seq<TarFile>)
    requires TreeOk(nodes) && 0 <= node.parent < |nodes|
    ensures Appended(nodes, nodes', node) && Relinked(nodes, nodes', node.parent)
  {
    hide TreeOk, FirstFrom, Appended, Relinked;
    var p := node.parent;
    TreeParts(nodes, p);
    FirstFromIs(nodes, p, 0);
    if nodes[p].child == -1 {
      nodes' := nodes[p := nodes[p].(child := |nodes|)] + [node];
      FirstChild(nodes, nodes', node);
    } else {
      var tail := nodes[p].child;
      while nodes[tail].next != -1
        invariant 0 < tail < |nodes| && nodes[tail].parent == p
        decreases |nodes| - tail
      {
        NextChild(nodes, p, tail);
        tail := nodes[tail].next;
      }
      nodes' := nodes[tail := nodes[tail].(next := |nodes|)] + [node];
      LastChild(nodes, nodes', node, tail);
    }
  }

  /** What the insertion under a parent without children changes. */
  lemma FirstChild(nodes: seq<TarFile>, nodes': seq<TarFile>, node: TarFile)
    requires TreeOk(nodes) && 0 <= node.parent < |nodes| && nodes[node.parent].child == -1
    requires nodes' == nodes[node.parent := nodes[node.parent].(child := |nodes|)] + [node]
    ensures Appended(nodes, nodes', node) && Relinked(nodes, nodes', node.parent)
  {
    FirstFromIs(nodes, node.parent, 0);
  }

  lemma LastChild(nodes: seq<TarFile>, nodes': seq<TarFile>, node: TarFile, tail: nat)
    requires TreeOk(nodes) && 0 <= node.parent < |nodes| && nodes[node.parent].child != -1
    requires 0 < tail < |nodes| && nodes[tail].parent == node.parent && nodes[tail].next == -1
    requires nodes' == nodes[tail := nodes[tail].(next := |nodes|)] + [node]
    ensures Appended(nodes, nodes', node) && Relinked(nodes, nodes', node.parent)
  {
    OnlyTail(nodes, node.parent, tail);
    hide TreeOk;
  }

  /** The last child is the only one without a next sibling. */
  lemma OnlyTail(nodes: seq<TarFile>, p: nat, tail: nat)
    requires TreeOk(nodes) && 0 < tail < |nodes| && nodes[tail].parent == p && nodes[tail].next == -1
    ensures forall n :: 0 < n < |nodes| && nodes[n].parent == p && nodes[n].next == -1 ==> n == tail
  {
    forall n: nat | 0 < n < |nodes| && nodes[n].parent == p && nodes[n].next == -1 ensures n == tail {
      FirstFromIs(nodes, p, n + 1);
      FirstFromIs(nodes, p, tail + 1);
    }
  }

  /** The next walk position is where the list of headers goes on. */
  lemma IndexedStep(blocks: seq<Block>, at: nat)
    ensures Indexed(blocks, at) ==
      if !IndexedEntry(blocks, at) then []
      else if blocks[at].name == "lib/libc.a" then [at]
      else [at] + Indexed(blocks, at + Stride(blocks[at]))
  {
  }

  /** The parent found for a header is the node of its directory part. */
  lemma ParentIs(nodes: seq<TarFile>, blocks: seq<Block>, hs: seq<nat>, i: nat)
    requires ArchiveOk(blocks, hs) && i < |hs| && IndexOk(nodes, blocks, hs[..i])
    ensures var path := PathAt(blocks, hs[i]);
      |path| >= 1 && !Names(nodes, path[..|path| - 1], -1)
  {
    hide TreeOk, PathOf, PathAt, IndexedEntry, NodeFor, NamesNonEmpty;
    var path := PathAt(blocks, hs[i]);
    assert HasParent(blocks, hs, i);
    NamedSome(blocks, hs, i);
    IndexTree(nodes, blocks, hs[..i]);
    if |path| == 1 {
      RootNamed(nodes);
      assert PathOf(nodes, ROOT) == path[..0];
    } else {
      var j :| 0 <= j < i && PathAt(blocks, hs[j]) == path[..|path| - 1];
      assert hs[..i][j] == hs[j];
      assert NodeIs(nodes, j + 1, blocks, hs[j]);
      assert PathOf(nodes, j + 1) == path[..|path| - 1];
    }
  }

  lemma RootNamed(nodes: seq<TarFile>)
    requires TreeOk(nodes)
    ensures PathOf(nodes, ROOT) == []
  {
  }

  lemma NamedSome(blocks: seq<Block>, hs: seq<nat>, i: nat)
    requires ArchiveOk(blocks, hs) && i < |hs|
    ensures PathAt(blocks, hs[i]) != []
  {
    hide PathAt;
    assert NamesNonEmpty(PathAt(blocks, hs[i]));
  }

  /** No sibling has the new name yet. */
  lemma NewName(nodes: seq<TarFile>, blocks: seq<Block>, hs: seq<nat>, i: nat, p: nat, n: nat)
    requires ArchiveOk(blocks, hs) && i < |hs| && IndexOk(nodes, blocks, hs[..i])
    requires p < |nodes| && var path := PathAt(blocks, hs[i]); |path| >= 1 && PathOf(nodes, p) == path[..|path| - 1]
    requires 0 < n < |nodes| && nodes[n].parent == p
    ensures nodes[n].fileName != PathAt(blocks, hs[i])[|PathAt(blocks, hs[i])| - 1]
  {
    hide FirstFrom, LinksOk, NodeFor, HasParent, NamesNonEmpty, IndexedEntry, PathAt;
    var before, path := hs[..i], PathAt(blocks, hs[i]);
    assert before[n - 1] == hs[n - 1];
    assert IndexedEntry(blocks, before[n - 1]) && NodeIs(nodes, n - 1 + 1, blocks, before[n - 1]);
    hide IndexOk, ArchiveOk, TreeOk;
    assert PathOf(nodes, n) == path[..|path| - 1] + [nodes[n].fileName];
    assert path == path[..|path| - 1] + [path[|path| - 1]];
    assert PathAt(blocks, hs[n - 1]) != path;
  }

  lemma NodeForFields(blocks: seq<Block>, h: nat, p: nat)
    requires IndexedEntry(blocks, h)
    ensures var node := NodeFor(blocks, h, p); node.next == -1 && node.child == -1 && node.parent == p
    ensures PathAt(blocks, h) != [] ==>
      NodeFor(blocks, h, p).fileName == PathAt(blocks, h)[|PathAt(blocks, h)| - 1]
  {
  }

  /** One turn of setupHeirarchyOfTarfs keeps the index. */
  lemma IndexGrows(nodes: seq<TarFile>, nodes': seq<TarFile>, blocks: seq<Block>, hs: seq<nat>, i: nat, p: nat)
    requires ArchiveOk(blocks, hs) && i < |hs| && IndexOk(nodes, blocks, hs[..i])
    requires p < |nodes| && var path := PathAt(blocks, hs[i]); |path| >= 1 && PathOf(nodes, p) == path[..|path| - 1]
    requires IndexedEntry(blocks, hs[i]) && Appended(nodes, nodes', NodeFor(blocks, hs[i], p))
    requires Relinked(nodes, nodes', p)
    ensures IndexOk(nodes', blocks, hs[..i + 1])
  {
    hide FirstFrom, LinksOk, Relinked, NodeFor, HasParent, NodeIs, Appended, PathAt, PathOf, NamesNonEmpty;
    var node, path := NodeFor(blocks, hs[i], p), PathAt(blocks, hs[i]);
    NodeForFields(blocks, hs[i], p);
    NamedLast(path);
    forall n: nat | 0 < n < |nodes| && nodes[n].parent == p ensures nodes[n].fileName != node.fileName {
      NewName(nodes, blocks, hs, i, p, n);
    }
    AppendKeeps(nodes, nodes', node);
    AppendedSize(nodes, nodes', node);
    RootKept(nodes, nodes', node);
    hide TreeOk;
    var hs' := hs[..i + 1];
    forall j | 0 <= j < |hs'| ensures IndexedEntry(blocks, hs'[j]) && NodeIs(nodes', j + 1, blocks, hs'[j]) {
      if j < i {
        assert hs[..i][j] == hs'[j];
        NodeKept(nodes, nodes', node, j + 1, blocks, hs'[j]);
      } else {
        NewNodeIs(nodes', |nodes|, blocks, hs[i], p);
      }
    }
  }

  lemma NamedLast(path: seq<string>)
    requires NamesNonEmpty(path)
    ensures path != [] && path[|path| - 1] != [] && path == path[..|path| - 1] + [path[|path| - 1]]
  {
  }

  lemma AppendedSize(nodes: seq<TarFile>, nodes': seq<TarFile>, node: TarFile)
    requires Appended(nodes, nodes', node)
    ensures |nodes'| == |nodes| + 1 && nodes'[|nodes|] == node
  {
  }

  lemma NewNodeIs(nodes: seq<TarFile>, n: nat, blocks: seq<Block>, h: nat, p: nat)
    requires TreeOk(nodes) && n < |nodes| && IndexedEntry(blocks, h) && nodes[n] == NodeFor(blocks, h, p)
    requires PathOf(nodes, n) == PathAt(blocks, h)
    ensures NodeIs(nodes, n, blocks, h)
  {
  }

  lemma NodeKept(nodes: seq<TarFile>, nodes': seq<TarFile>, node: TarFile, n: nat, blocks: seq<Block>, h: nat)
    requires TreeOk(nodes) && TreeOk(nodes') && Appended(nodes, nodes', node) && n < |nodes| && IndexedEntry(blocks, h)
    requires NodeIs(nodes, n, blocks, h)
    ensures NodeIs(nodes', n, blocks, h)
  {
    SameFields(nodes, nodes', node, n);
    PathAppended(nodes, nodes', node, n);
  }

  lemma RootKept(nodes: seq<TarFile>, nodes': seq<TarFile>, node: TarFile)
    requires Appended(nodes, nodes', node) && |nodes| > 0
    ensures nodes'[ROOT].filePath == nodes[ROOT].filePath && nodes'[ROOT].fileType == nodes[ROOT].fileType
    ensures nodes'[ROOT].filePerm == nodes[ROOT].filePerm
  {
    var a, b := nodes[ROOT].(next := -1, child := -1), nodes'[ROOT].(next := -1, child := -1);
    assert a == b && a.filePath == nodes[ROOT].filePath && b.filePath == nodes'[ROOT].filePath;
    assert a.fileType == nodes[ROOT].fileType && b.fileType == nodes'[ROOT].fileType;
    assert a.filePerm == nodes[ROOT].filePerm && b.filePerm == nodes'[ROOT].filePerm;
  }

  /** The part of setupHeirarchyOfTarfs that makes the node for one header and links it. */
  method AddNode(nodes: seq<TarFile>, blocks: seq<Block>, at: nat, ghost hs: seq<nat>, ghost i: nat)
      returns (nodes': seq<TarFile>)
    requires ArchiveOk(blocks, hs) && i < |hs| && hs[i] == at && IndexedEntry(blocks, at)
    requires IndexOk(nodes, blocks, hs[..i])
    ensures IndexOk(nodes', blocks, hs[..i + 1])
  {
    hide IndexOk, ArchiveOk, TreeOk, Names, NodeFor, Appended, Relinked, PathOf, OctalOf, AtoiValue, Components;
    var header := blocks[at];
    var parts, count := ParseFileName(header.name);
    ParentIs(nodes, blocks, hs, i);
    IndexTree(nodes, blocks, hs[..i]);
    var parent := Descend(nodes, ROOT, parts[..count - 1]);
    ParentFound(nodes, blocks, hs, i, parent, parts, count);
    var mode := Atoi(header.mode);
    var fileType := Atoi(header.typeflag);
    var filePerm := ConvertOctalToDecimal(mode);
    var node := TarFile(-1, -1, parent, parts[count - 1], "/" + header.name, 512 * (at + 1), fileType, filePerm);
    NodeIsFor(blocks, at, parent, node, parts[..count]);
    nodes' := Insert(nodes, node);
    IndexGrows(nodes, nodes', blocks, hs, i, parent);
  }

  method RootNode() returns (nodes: seq<TarFile>)
    ensures nodes == [TarFile(-1, -1, -1, "/", "/", 0, DIRTYPE, 493)]
  {
    hide *;
    var mode := Atoi("755");
    RootMode();
    var perm := ConvertOctalToDecimal(mode);
    nodes := [TarFile(-1, -1, -1, "/", "/", 0, DIRTYPE, perm)];
  }

  /** The steps both walks take over a file. */
  method Skip(header: Block) returns (stride: nat)
    ensures stride == Stride(header)
  {
    hide AtoiValue, OctalOf, AlignFileUp;
    var size := Atoi(header.size);
    var fileSize := ConvertOctalToDecimal(size);
    if fileSize == 0 {
      stride := 1;
      NoContent();
    } else {
      stride := 1 + AlignFileUp(fileSize) / 512;
    }
  }

  lemma NoContent()
    ensures AlignFileUp(0) == 0
  {
  }

  /** setupHeirarchyOfTarfs: node `i + 1` is the `i`-th indexed header, with its path, name and start. */
  method SetupHierarchy(blocks: seq<Block>) returns (nodes: seq<TarFile>)
    requires ArchiveOk(blocks, Indexed(blocks, 0))
    ensures IndexOk(nodes, blocks, Indexed(blocks, 0))
  {
    hide *;
    nodes := RootNode();
    ghost var hs := Indexed(blocks, 0);
    ghost var i := 0;
    var at := 0;
    RootAlone(nodes, blocks);
    assert hs[..0] == [] && hs[0..] == hs;
    IndexedStep(blocks, at);
    while at < |blocks| && blocks[at].name != ""
      invariant 0 <= i <= |hs| && IndexOk(nodes, blocks, hs[..i]) && hs[i..] == Indexed(blocks, at)
      decreases |blocks| - at
    {
      IndexedStep(blocks, at);
      EntryAt(blocks, at);
      assert hs[i] == hs[i..][0] == at;
      nodes := AddNode(nodes, blocks, at, hs, i);
      assert hs[i + 1..] == hs[i..][1..];
      i := i + 1;
      if blocks[at].name == "lib/libc.a" {
        assert i == |hs|;
        break;
      }
      var stride := Skip(blocks[at]);
      at := at + stride;
    }
    IndexedStep(blocks, at);
    EntryAt(blocks, at);
    assert i == |hs| && hs[..i] == hs;
  }

  lemma RootAlone(nodes: seq<TarFile>, blocks: seq<Block>)
    requires nodes == [TarFile(-1, -1, -1, "/", "/", 0, DIRTYPE, 493)]
    ensures IndexOk(nodes, blocks, [])
  {
  }

  lemma EntryAt(blocks: seq<Block>, at: nat)
    ensures IndexedEntry(blocks, at) <==> at < |blocks| && blocks[at].name != ""
  {
  }

  lemma RootMode()
    ensures OctalOf(AtoiValue("755")) == 493
  {
    assert Value("", 8) == 0 && ""[..] == "";
    assert "755"[..2] == "75" && "75"[..1] == "7" && "7"[..0] == "";
    assert Value("755", 8) == 493;
    FieldValue("755");
  }

  /** The fields of the node for the i-th indexed header, over the header's own. */
  lemma IndexedNode(nodes: seq<TarFile>, blocks: seq<Block>, i: nat)
    requires IndexOk(nodes, blocks, Indexed(blocks, 0)) && i < |Indexed(blocks, 0)|
    ensures Indexed(blocks, 0)[i] < |blocks| && blocks[Indexed(blocks, 0)[i]].name != [] && i + 1 < |nodes|
    ensures var b, f := blocks[Indexed(blocks, 0)[i]], nodes[i + 1];
      && f.filePath == "/" + b.name && f.start == 512 * Indexed(blocks, 0)[i] + 512
      && PathOf(nodes, i + 1) == Components(b.name)
      && (b.typeflag == "0" ==> f.fileType == 0) && (b.typeflag == "5" ==> f.fileType == 5)
      && (AllOctal(b.mode) && |b.mode| <= 19 ==> f.filePerm == Value(b.mode, 8))
  {
    hide Indexed, TreeOk, PathOf, AtoiValue, OctalOf, Value, Components;
    var h := Indexed(blocks, 0)[i];
    assert NodeIs(nodes, i + 1, blocks, h);
    var a := nodes[i + 1].(next := -1, child := -1);
    assert a == NodeFor(blocks, h, nodes[i + 1].parent);
    assert nodes[i + 1].filePath == a.filePath && nodes[i + 1].start == a.start;
    assert nodes[i + 1].fileType == a.fileType && nodes[i + 1].filePerm == a.filePerm;
    if AllOctal(blocks[h].mode) && |blocks[h].mode| <= 19 {
      FieldValue(blocks[h].mode);
    }
    TypeFlags();
  }

  lemma TypeFlags()
    ensures AtoiValue("0") == 0 && AtoiValue("5") == 5
  {
    assert "0"[..0] == "" && "5"[..0] == "";
    assert Value("0", 10) == 0 && Value("5", 10) == 5;
  }

  lemma IndexTree(nodes: seq<TarFile>, blocks: seq<Block>, hs: seq<nat>)
    requires IndexOk(nodes, blocks, hs)
    ensures TreeOk(nodes) && 0 < |nodes|
  {
  }

  lemma ParentFound(nodes: seq<TarFile>, blocks: seq<Block>, hs: seq<nat>, i: nat, parent: int, parts: seq<string>,
      count: nat)
    requires TreeOk(nodes) && i < |hs| && 1 <= count <= |parts| && parts[..count] == PathAt(blocks, hs[i])
    requires !Names(nodes, parts[..count][..count - 1], -1)
    requires Names(nodes, PathOf(nodes, ROOT) + parts[..count - 1], parent)
    ensures 0 <= parent < |nodes| && PathOf(nodes, parent) == parts[..count][..count - 1]
  {
    assert PathOf(nodes, ROOT) + parts[..count - 1] == parts[..count][..count - 1];
  }

  lemma NodeIsFor(blocks: seq<Block>, h: nat, parent: nat, node: TarFile, path: seq<string>)
    requires IndexedEntry(blocks, h) && path == PathAt(blocks, h) && path != []
    requires node == TarFile(-1, -1, parent, path[|path| - 1], "/" + blocks[h].name, 512 * (h + 1),
                             AtoiValue(blocks[h].typeflag), OctalOf(AtoiValue(blocks[h].mode)))
    ensures node == NodeFor(blocks, h, parent)
  {
  }

  // ---------- the linear scan ----------

  /** The first header on the walk with this name, as the address of its content. */
  ghost predicate FirstNamed(blocks: seq<Block>, name: string, r: int) {
    var hs := Headers(blocks, 0);
    if r == -1 then forall k :: 0 <= k < |hs| ==> !HasName(blocks, hs[k], name)
    else exists k :: 0 <= k < |hs| && IsFirst(blocks, hs, k, name) && r == 512 * (hs[k] + 1)
  }

  predicate HasName(blocks: seq<Block>, h: nat, name: string) { h < |blocks| && blocks[h].name == name }

  ghost predicate IsFirst(blocks: seq<Block>, hs: seq<nat>, k: nat, name: string) {
    k < |hs| && HasName(blocks, hs[k], name) && forall j :: 0 <= j < k ==> !HasName(blocks, hs[j], name)
  }

  /** The loop of getFile. */
  method Scan(blocks: seq<Block>, name: string) returns (r: int)
    ensures FirstNamed(blocks, name, r)
    ensures var hs := Headers(blocks, 0);
      r == -1 ==> forall k :: 0 <= k < |hs| && hs[k] < |blocks| ==> blocks[hs[k]].name != name
    ensures var hs := Headers(blocks, 0);
      r != -1 ==>
        exists k :: 0 <= k < |hs| && hs[k] < |blocks| && blocks[hs[k]].name == name && r == 512 * hs[k] + 512
          && forall j :: 0 <= j < k && hs[j] < |blocks| ==> blocks[hs[j]].name != name
  {
    hide *;
    var at := 0;
    ghost var hs := Headers(blocks, 0);
    ghost var i := 0;
    assert hs[0..] == hs;
    while at < |blocks|
      invariant 0 <= i <= |hs| && hs[i..] == Headers(blocks, at)
      invariant forall j :: 0 <= j < i ==> !HasName(blocks, hs[j], name)
      decreases |blocks| - at
    {
      HeadersStep(blocks, at);
      if blocks[at].name == "" {
        NotNamed(blocks, hs, name);
        FirstNamedIs(blocks, name, -1);
        return -1;
      }
      assert hs[i] == hs[i..][0] == at;
      if name == blocks[at].name {
        NamedFirst(blocks, hs, i, name);
        FirstNamedIs(blocks, name, 512 * (at + 1));
        return 512 * (at + 1);
      }
      assert hs[i + 1..] == hs[i..][1..];
      HasNameIs(blocks, at, name);
      i := i + 1;
      var stride := Skip(blocks[at]);
      at := at + stride;
    }
    HeadersStep(blocks, at);
    assert i == |hs|;
    NotNamed(blocks, hs, name);
    FirstNamedIs(blocks, name, -1);
    return -1;
  }

  lemma FirstNamedIs(blocks: seq<Block>, name: string, r: int)
    requires FirstNamed(blocks, name, r)
    ensures var hs := Headers(blocks, 0);
      r == -1 ==> forall k :: 0 <= k < |hs| && hs[k] < |blocks| ==> blocks[hs[k]].name != name
    ensures var hs := Headers(blocks, 0);
      r != -1 ==>
        exists k :: 0 <= k < |hs| && hs[k] < |blocks| && blocks[hs[k]].name == name && r == 512 * hs[k] + 512
          && forall j :: 0 <= j < k && hs[j] < |blocks| ==> blocks[hs[j]].name != name
  {
    hide Headers;
    var hs := Headers(blocks, 0);
    if r == -1 {
      assert forall k :: 0 <= k < |hs| ==> !HasName(blocks, hs[k], name);
    } else {
      var k :| 0 <= k < |hs| && IsFirst(blocks, hs, k, name) && r == 512 * (hs[k] + 1);
      assert forall j :: 0 <= j < k ==> !HasName(blocks, hs[j], name);
      assert hs[k] < |blocks| && blocks[hs[k]].name == name;
    }
  }

  lemma HasNameIs(blocks: seq<Block>, h: nat, name: string)
    requires h < |blocks|
    ensures HasName(blocks, h, name) <==> blocks[h].name == name
  {
  }

  lemma NotNamed(blocks: seq<Block>, hs: seq<nat>, name: string)
    requires hs == Headers(blocks, 0) && forall j :: 0 <= j < |hs| ==> !HasName(blocks, hs[j], name)
    ensures FirstNamed(blocks, name, -1)
  {
  }

  lemma NamedFirst(blocks: seq<Block>, hs: seq<nat>, i: nat, name: string)
    requires hs == Headers(blocks, 0) && i < |hs| && hs[i] < |blocks| && blocks[hs[i]].name == name
    requires forall j :: 0 <= j < i ==> !HasName(blocks, hs[j], name)
    ensures FirstNamed(blocks, name, 512 * (hs[i] + 1))
  {
    hide Headers;
    assert IsFirst(blocks, hs, i, name);
  }

  /** getFile: the address of the content, -1 for NULL. */
  method GetFile(nodes: seq<TarFile>, blocks: seq<Block>, cwd: string, fileName: string) returns (r: int)
    requires ArchiveOk(blocks, Indexed(blocks, 0)) && IndexOk(nodes, blocks, Indexed(blocks, 0))
    requires cwd != [] && cwd[0] == SLASH && fileName != []
    ensures Names(nodes, Resolve(cwd, fileName), -1) ==> r == -1
    ensures forall n: nat :: n < |nodes| && PathOf(nodes, n) == Resolve(cwd, fileName) ==>
      r == if n == ROOT then -1 else nodes[n].start
  {
    hide *;
    IndexTree(nodes, blocks, Indexed(blocks, 0));
    var file := LookUpForFile(nodes, cwd, fileName);
    NamesNode(nodes, Resolve(cwd, fileName), file);
    if file == -1 {
      return -1;
    }
    FilePathStarts(nodes, blocks, Indexed(blocks, 0), file);
    var name := nodes[file].filePath[1..];
    r := Scan(blocks, name);
    ScanAgrees(nodes, blocks, file, r);
  }

  lemma NamesNode(nodes: seq<TarFile>, path: seq<string>, r: int)
    requires TreeOk(nodes) && Names(nodes, path, r)
    ensures r == -1 || 0 <= r < |nodes|
    ensures r != -1 ==> !Names(nodes, path, -1)
    ensures forall n: nat :: n < |nodes| && PathOf(nodes, n) == path ==> n == r
  {
    forall n: nat | n < |nodes| && PathOf(nodes, n) == path ensures n == r {
      NamesUnique(nodes, path, n, r);
    }
  }

  lemma FilePathStarts(nodes: seq<TarFile>, blocks: seq<Block>, hs: seq<nat>, n: nat)
    requires IndexOk(nodes, blocks, hs) && n < |nodes|
    ensures nodes[n].filePath != [] && nodes[n].filePath[0] == SLASH
    ensures n == ROOT ==> nodes[n].filePath == "/"
    ensures n > 0 ==> IndexedEntry(blocks, hs[n - 1]) && PathOf(nodes, n) == PathAt(blocks, hs[n - 1])
    ensures n > 0 ==> nodes[n].filePath[1..] == blocks[hs[n - 1]].name && nodes[n].start == 512 * (hs[n - 1] + 1)
  {
    hide TreeOk, PathOf;
    if n > 0 {
      assert NodeIs(nodes, n, blocks, hs[n - 1]);
      var a, b := nodes[n].(next := -1, child := -1), NodeFor(blocks, hs[n - 1], nodes[n].parent);
      assert a == b && a.filePath == nodes[n].filePath && a.start == nodes[n].start;
    }
  }

  /** The indexed headers are the first ones the walk meets. */
  lemma {:induction false} IndexedIsPrefix(blocks: seq<Block>, at: nat)
    ensures Indexed(blocks, at) <= Headers(blocks, at)
    decreases |blocks| - at
  {
    IndexedStep(blocks, at);
    HeadersStep(blocks, at);
    StridePositive(blocks);
    hide Indexed, Headers, Stride;
    if IndexedEntry(blocks, at) && blocks[at].name != "lib/libc.a" {
      IndexedIsPrefix(blocks, at + Stride(blocks[at]));
    }
  }

  /** They are those up to the first one with the name lib/libc.a, or all when there is none. */
  lemma {:induction false} IndexedIs(blocks: seq<Block>, at: nat)
    ensures var hs, all := Indexed(blocks, at), Headers(blocks, at);
      && hs <= all
      && (forall k :: 0 <= k < |hs| - 1 ==> hs[k] < |blocks| && blocks[hs[k]].name != "lib/libc.a")
      && (|hs| < |all| ==>
           hs != [] && hs[|hs| - 1] < |blocks| && blocks[hs[|hs| - 1]].name == "lib/libc.a")
    decreases |blocks| - at
  {
    IndexedIsPrefix(blocks, at);
    IndexedStep(blocks, at);
    HeadersStep(blocks, at);
    StridePositive(blocks);
    hide Indexed, Headers, Stride;
    if IndexedEntry(blocks, at) && blocks[at].name != "lib/libc.a" {
      IndexedIs(blocks, at + Stride(blocks[at]));
    }
  }

  lemma StridePositive(blocks: seq<Block>)
    ensures forall h: nat :: h < |blocks| ==> Stride(blocks[h]) >= 1
  {
  }

  lemma {:induction false} HeadersNamed(blocks: seq<Block>, at: nat, k: nat)
    requires k < |Headers(blocks, at)|
    ensures IndexedEntry(blocks, Headers(blocks, at)[k])
    decreases |blocks| - at
  {
    hide Stride;
    if k > 0 {
      HeadersNamed(blocks, at + Stride(blocks[at]), k - 1);
    }
  }

  /** The scan for a node's name ends at that node's content. */
  lemma ScanAgrees(nodes: seq<TarFile>, blocks: seq<Block>, n: nat, r: int)
    requires ArchiveOk(blocks, Indexed(blocks, 0)) && IndexOk(nodes, blocks, Indexed(blocks, 0)) && n < |nodes|
    requires nodes[n].filePath != [] && FirstNamed(blocks, nodes[n].filePath[1..], r)
    ensures r == if n == ROOT then -1 else nodes[n].start
  {
    hide IndexOk, ArchiveOk, TreeOk, PathOf, Indexed, Headers, FirstNamed, Components;
    var hs := Indexed(blocks, 0);
    FilePathStarts(nodes, blocks, hs, n);
    IndexSize(nodes, blocks, hs);
    if n == ROOT {
      assert nodes[n].filePath[1..] == "";
      NoneEmpty(blocks, r);
    } else {
      FirstIs(blocks, hs, n - 1, nodes[n].filePath[1..], r);
    }
  }

  lemma NoneEmpty(blocks: seq<Block>, r: int)
    requires FirstNamed(blocks, "", r)
    ensures r == -1
  {
    var all := Headers(blocks, 0);
    forall k | 0 <= k < |all| ensures !HasName(blocks, all[k], "") {
      HeadersNamed(blocks, 0, k);
    }
  }

  /** The first header with an indexed header's name is that header. */
  lemma FirstIs(blocks: seq<Block>, hs: seq<nat>, i: nat, name: string, r: int)
    requires hs == Indexed(blocks, 0) && ArchiveOk(blocks, hs) && i < |hs|
    requires IndexedEntry(blocks, hs[i]) && name == blocks[hs[i]].name && FirstNamed(blocks, name, r)
    ensures r == 512 * (hs[i] + 1)
  {
    hide Headers, Indexed, PathAt, HasParent, NamesNonEmpty, IndexedEntry;
    var all := Headers(blocks, 0);
    IndexedIsPrefix(blocks, 0);
    assert all[i] == hs[i];
    InBounds(blocks, hs[i]);
    assert HasName(blocks, all[i], name);
    assert r != -1;
    var k :| 0 <= k < |all| && IsFirst(blocks, all, k, name) && r == 512 * (all[k] + 1);
    assert k <= i && all[k] == hs[k];
    SameNameSamePath(blocks, hs[k], hs[i]);
  }

  lemma InBounds(blocks: seq<Block>, h: nat)
    requires IndexedEntry(blocks, h)
    ensures h < |blocks|
  {
  }

  lemma SameNameSamePath(blocks: seq<Block>, a: nat, b: nat)
    requires a < |blocks| && b < |blocks| && blocks[a].name == blocks[b].name
    ensures PathAt(blocks, a) == PathAt(blocks, b)
  {
  }

  lemma IndexSize(nodes: seq<TarFile>, blocks: seq<Block>, hs: seq<nat>)
    requires IndexOk(nodes, blocks, hs)
    ensures |nodes| == |hs| + 1
  {
  }

  /** Looking up a node's own path finds that node, from any current directory. */
  lemma OwnPath(nodes: seq<TarFile>, blocks: seq<Block>, hs: seq<nat>, cwd: string, n: nat)
    requires IndexOk(nodes, blocks, hs) && n < |nodes| && cwd != [] && cwd[0] == SLASH
    ensures nodes[n].filePath != [] && Resolve(cwd, nodes[n].filePath) == PathOf(nodes, n)
    ensures Names(nodes, Resolve(cwd, nodes[n].filePath), n)
  {
    hide TreeOk, Components;
    FilePathStarts(nodes, blocks, hs, n);
  }
}
