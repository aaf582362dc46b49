/** The snapshot's file enumerator: a depth-first, pre-order walk over the
    directory tree, driven by a stack of open directory listings. The tree is
    a value: each directory's listing is the sequence of entries `read_dir`
    returns for it, in that order, with the failures it can meet in place. */
module Source {
  import opened Wrappers
  import opened Text

  datatype FileType = RegularFile | Directory | Symlink | Other

  /** The part of `std::fs::Metadata` the backup reads. `modified` is `None`
      where the platform cannot report it. */
  datatype Metadata = Metadata(fileType: FileType, modified: Option<int>, uid: U32, gid: U32, mode: U32)

  /** One item of a directory listing. `BadEntry` is an error the listing
      returned in place of an entry. An `Entry` whose metadata cannot be read
      has `meta == None`; a directory that cannot be opened is `Unlistable`. */
  datatype Node =
    | BadEntry
    | Entry(name: string, meta: Option<Metadata>, listing: Listing)

  datatype Listing = Listed(children: seq<Node>) | Unlistable

  /** A path relative to the snapshot's base directory, one name per level. */
  type Path = seq<string>

  datatype WalkError =
    | ListError(dir: Path)          // the listing of `dir` returned an error
    | MetadataError(path: Path)     // `metadata()` failed
    | ReadDirError(path: Path)      // `read_dir` of a directory failed

  /** What the iterator yields: `Result<(PathBuf, Metadata), Error>`. */
  type Item = Result<(Path, Metadata), WalkError>

  /** The walk enters this entry: a directory whose metadata and listing could be read. */
  predicate Descends(n: Node) {
    n.Entry? && n.meta.Some? && n.meta.value.fileType == Directory && n.listing.Listed?
  }

  /** What the enumerator reports for an entry at `path`: its failure, or the
      entry itself when it is a file, a symlink or a listable directory;
      nothing for any other kind of entry. */
  function NodeItem(path: Path, n: Node): (r: Option<Item>)
    requires n.Entry?
    ensures r.None? <==> n.meta.Some? && n.meta.value.fileType == Other
    ensures n.meta.None? ==> r == Some(Failure(MetadataError(path)))
    ensures n.meta.Some? && n.meta.value.fileType != Other && n.meta.value.fileType != Directory ==>
      r == Some(Success((path, n.meta.value)))
    ensures n.meta.Some? && n.meta.value.fileType == Directory ==>
      r == if Descends(n) then Some(Success((path, n.meta.value))) else Some(Failure(ReadDirError(path)))
  {
    match n.meta
    case None => Some(Failure(MetadataError(path)))
    case Some(m) =>
      match m.fileType
      case RegularFile => Some(Success((path, m)))
      case Symlink => Some(Success((path, m)))
      case Directory => if n.listing.Listed? then Some(Success((path, m))) else Some(Failure(ReadDirError(path)))
      case Other => None
  }

  function ItemList(o: Option<Item>): seq<Item> {
    if o.Some? then [o.value] else []
  }

  /** The items of one entry of `dir` in walk order: the entry, then, for a
      directory, everything below it. */
  function WalkNode(dir: Path, n: Node): (r: seq<Item>)
    ensures forall it :: it in r && it.Success? ==> it.value.1.fileType != Other
    decreases n, 1
  {
    match n
    case BadEntry => [Failure(ListError(dir))]
    case Entry(name, _, listing) =>
      ItemList(NodeItem(dir + [name], n))
        + (if Descends(n) then WalkSeq(dir + [name], listing.children) else [])
  }

  /** The items of the entries `nodes` of `dir`, one entry after another. */
  function WalkSeq(dir: Path, nodes: seq<Node>): (r: seq<Item>)
    ensures forall it :: it in r && it.Success? ==> it.value.1.fileType != Other
    decreases nodes, 0
  {
    if nodes == [] then [] else WalkNode(dir, nodes[0]) + WalkSeq(dir, nodes[1..])
  }

  // ---------------------------------------------------------------------------
  // What the walk yields
  // ---------------------------------------------------------------------------

  /** The names of the entries of a listing. */
  ghost function Names(nodes: seq<Node>): set<string> {
    set i | 0 <= i < |nodes| && nodes[i].Entry? :: nodes[i].name
  }

  /** No two entries of any one listing share a name, as in a real directory tree. */
  ghost predicate UniqueNames(nodes: seq<Node>)
    decreases nodes
  {
    && (forall i, j :: 0 <= i < j < |nodes| && nodes[i].Entry? && nodes[j].Entry? ==> nodes[i].name != nodes[j].name)
    && (forall i :: 0 <= i < |nodes| && Descends(nodes[i]) ==> UniqueNames(nodes[i].listing.children))
  }

  /** `n` is the entry that `path` names, starting from the listing `nodes`
      and going down through directories the walk enters. */
  ghost predicate At(nodes: seq<Node>, path: Path, n: Node)
    decreases nodes, 0
  {
    nodes != [] && (AtNode(nodes[0], path, n) || At(nodes[1..], path, n))
  }

  ghost predicate AtNode(x: Node, path: Path, n: Node)
    decreases x, 1
  {
    && x.Entry?
    && |path| >= 1
    && path[0] == x.name
    && if |path| == 1 then x == n else Descends(x) && At(x.listing.children, path[1..], n)
  }

  lemma UniqueTail(nodes: seq<Node>)
    requires nodes != [] && UniqueNames(nodes)
    ensures UniqueNames(nodes[1..])
    ensures nodes[0].Entry? ==> nodes[0].name !in Names(nodes[1..])
  {
    var tail := nodes[1..];
    forall i | 0 <= i < |tail| && Descends(tail[i])
      ensures UniqueNames(tail[i].listing.children)
    {
      assert tail[i] == nodes[i + 1];
    }
    if nodes[0].Entry? {
      forall i | 0 <= i < |tail| && tail[i].Entry?
        ensures tail[i].name != nodes[0].name
      {
        assert tail[i] == nodes[i + 1];
      }
    }
  }

  lemma {:induction false} AtName(nodes: seq<Node>, path: Path, n: Node)
    requires At(nodes, path, n)
    ensures |path| >= 1 && path[0] in Names(nodes) && n.Entry?
    decreases nodes
  {
    if AtNode(nodes[0], path, n) {
      if |path| > 1 {
        AtName(nodes[0].listing.children, path[1..], n);
      }
    } else {
      AtName(nodes[1..], path, n);
      var i :| 0 <= i < |nodes[1..]| && nodes[1..][i].Entry? && nodes[1..][i].name == path[0];
      assert nodes[i + 1] == nodes[1..][i];
    }
  }

  /** In a tree with unique names a path names at most one entry. */
  lemma {:induction false} AtUnique(nodes: seq<Node>, path: Path, a: Node, b: Node)
    requires UniqueNames(nodes) && At(nodes, path, a) && At(nodes, path, b)
    ensures a == b
    decreases nodes
  {
    UniqueTail(nodes);
    var x := nodes[0];
    if AtNode(x, path, a) && AtNode(x, path, b) {
      if |path| > 1 {
        AtUnique(x.listing.children, path[1..], a, b);
      }
    } else if AtNode(x, path, a) {
      AtName(nodes[1..], path, b);
    } else if AtNode(x, path, b) {
      AtName(nodes[1..], path, a);
    } else {
      AtUnique(nodes[1..], path, a, b);
    }
  }

  /** Every proper prefix of a path that names an entry names a directory the walk enters. */
  lemma {:induction false} AtAncestor(nodes: seq<Node>, q: Path, n: Node, k: nat)
    requires At(nodes, q, n) && 1 <= k < |q|
    ensures exists d :: At(nodes, q[..k], d) && Descends(d)
    decreases nodes
  {
    var x := nodes[0];
    if AtNode(x, q, n) {
      var children := x.listing.children;
      if k == 1 {
        assert AtNode(x, q[..1], x);
      } else {
        AtAncestor(children, q[1..], n, k - 1);
        var d :| At(children, q[1..][..k - 1], d) && Descends(d);
        assert q[..k][1..] == q[1..][..k - 1];
        assert AtNode(x, q[..k], d);
      }
    } else {
      AtAncestor(nodes[1..], q, n, k);
      var d :| At(nodes[1..], q[..k], d) && Descends(d);
      assert At(nodes, q[..k], d);
    }
  }

  /** Completeness: every entry of the tree is reported, at its path. */
  lemma {:induction false} WalkComplete(dir: Path, nodes: seq<Node>, path: Path, n: Node)
    requires n.Entry? && At(nodes, path, n) && NodeItem(dir + path, n).Some?
    ensures NodeItem(dir + path, n).value in WalkSeq(dir, nodes)
    decreases nodes, 0
  {
    if AtNode(nodes[0], path, n) {
      WalkNodeComplete(dir, nodes[0], path, n);
    } else {
      WalkComplete(dir, nodes[1..], path, n);
    }
  }

  lemma {:induction false} WalkNodeComplete(dir: Path, x: Node, path: Path, n: Node)
    requires n.Entry? && AtNode(x, path, n) && NodeItem(dir + path, n).Some?
    ensures NodeItem(dir + path, n).value in WalkNode(dir, x)
    decreases x, 1
  {
    if |path| == 1 {
      assert dir + path == dir + [x.name];
    } else {
      assert dir + [x.name] + path[1..] == dir + path;
      WalkComplete(dir + [x.name], x.listing.children, path[1..], n);
    }
  }

  /** Soundness: everything reported, apart from a failed listing, is the
      report for some entry of the tree at its path. */
  lemma {:induction false} WalkSound(dir: Path, nodes: seq<Node>, it: Item)
    requires it in WalkSeq(dir, nodes) && !(it.Failure? && it.error.ListError?)
    ensures exists path: Path, n: Node :: n.Entry? && At(nodes, path, n) && NodeItem(dir + path, n) == Some(it)
    decreases nodes, 0
  {
    if it in WalkNode(dir, nodes[0]) {
      WalkNodeSound(dir, nodes[0], it);
    } else {
      WalkSound(dir, nodes[1..], it);
      var path: Path, n: Node :| n.Entry? && At(nodes[1..], path, n) && NodeItem(dir + path, n) == Some(it);
      assert At(nodes, path, n);
    }
  }

  lemma {:induction false} WalkNodeSound(dir: Path, x: Node, it: Item)
    requires it in WalkNode(dir, x) && !(it.Failure? && it.error.ListError?)
    ensures exists path: Path, n: Node :: n.Entry? && AtNode(x, path, n) && NodeItem(dir + path, n) == Some(it)
    decreases x, 1
  {
    if x.Entry? {
      var here := dir + [x.name];
      assert AtNode(x, [x.name], x);
      if Descends(x) && it in WalkSeq(here, x.listing.children) {
        WalkSound(here, x.listing.children, it);
        var path: Path, n: Node :| n.Entry? && At(x.listing.children, path, n) && NodeItem(here + path, n) == Some(it);
        AtName(x.listing.children, path, n);
        assert ([x.name] + path)[1..] == path;
        assert dir + ([x.name] + path) == here + path;
        assert AtNode(x, [x.name] + path, n);
      } else {
        assert it in ItemList(NodeItem(here, x));
      }
    }
  }

  lemma NodeItemPath(path: Path, n: Node, q: Path, m: Metadata)
    requires n.Entry? && NodeItem(path, n) == Some(Success((q, m)))
    ensures q == path && n.meta == Some(m) && m.fileType != Other
  {
  }

  /** Every reported path lies below `dir`, under one of the listing's names. */
  lemma {:induction false} WalkPaths(dir: Path, nodes: seq<Node>)
    ensures forall it :: it in WalkSeq(dir, nodes) && it.Success? ==>
      |it.value.0| > |dir| && it.value.0[..|dir|] == dir && it.value.0[|dir|] in Names(nodes)
    decreases nodes, 0
  {
    if nodes != [] {
      WalkNodePaths(dir, nodes[0]);
      WalkPaths(dir, nodes[1..]);
      forall it | it in WalkSeq(dir, nodes[1..]) && it.Success?
        ensures it.value.0[|dir|] in Names(nodes)
      {
        var i :| 0 <= i < |nodes[1..]| && nodes[1..][i].Entry? && nodes[1..][i].name == it.value.0[|dir|];
        assert nodes[i + 1] == nodes[1..][i];
      }
      if nodes[0].Entry? {
        assert nodes[0].name in Names(nodes);
      }
    }
  }

  lemma {:induction false} WalkNodePaths(dir: Path, x: Node)
    ensures forall it :: it in WalkNode(dir, x) && it.Success? ==>
      x.Entry? && |it.value.0| > |dir| && it.value.0[..|dir| + 1] == dir + [x.name]
    decreases x, 1
  {
    if x.Entry? {
      var here := dir + [x.name];
      if Descends(x) {
        WalkPaths(here, x.listing.children);
        forall it | it in WalkSeq(here, x.listing.children) && it.Success?
          ensures it.value.0[..|dir| + 1] == here
        {
          assert it.value.0[..|dir| + 1] == it.value.0[..|here|];
        }
      }
    }
  }

  /** No path is reported twice. */
  ghost predicate DistinctPaths(items: seq<Item>) {
    forall i, j :: 0 <= i < j < |items| && items[i].Success? && items[j].Success? ==>
      items[i].value.0 != items[j].value.0
  }

  lemma DistinctConcat(a: seq<Item>, b: seq<Item>)
    requires DistinctPaths(a) && DistinctPaths(b)
    requires forall x, y :: x in a && y in b && x.Success? && y.Success? ==> x.value.0 != y.value.0
    ensures DistinctPaths(a + b)
  {
    var c := a + b;
    forall i, j | 0 <= i < j < |c| && c[i].Success? && c[j].Success?
      ensures c[i].value.0 != c[j].value.0
    {
      if j < |a| {
        assert c[i] == a[i] && c[j] == a[j];
      } else if i >= |a| {
        assert c[i] == b[i - |a|] && c[j] == b[j - |a|];
      } else {
        assert c[i] in a && c[j] in b;
      }
    }
  }

  /** With unique names in every listing, the walk reports each path at most once. */
  lemma {:induction false} WalkDistinct(dir: Path, nodes: seq<Node>)
    requires UniqueNames(nodes)
    ensures DistinctPaths(WalkSeq(dir, nodes))
    decreases nodes, 0
  {
    if nodes != [] {
      var x := nodes[0];
      UniqueTail(nodes);
      if Descends(x) {
        assert UniqueNames(x.listing.children);
      }
      WalkNodeDistinct(dir, x);
      WalkDistinct(dir, nodes[1..]);
      WalkNodePaths(dir, x);
      WalkPaths(dir, nodes[1..]);
      forall a, b | a in WalkNode(dir, x) && b in WalkSeq(dir, nodes[1..]) && a.Success? && b.Success?
        ensures a.value.0 != b.value.0
      {
        assert a.value.0[|dir|] == (dir + [x.name])[|dir|];
      }
      DistinctConcat(WalkNode(dir, x), WalkSeq(dir, nodes[1..]));
    }
  }

  lemma {:induction false} WalkNodeDistinct(dir: Path, x: Node)
    requires Descends(x) ==> UniqueNames(x.listing.children)
    ensures DistinctPaths(WalkNode(dir, x))
    decreases x, 1
  {
    if x.Entry? && Descends(x) {
      var here := dir + [x.name];
      var below := WalkSeq(here, x.listing.children);
      WalkDistinct(here, x.listing.children);
      WalkPaths(here, x.listing.children);
      DistinctConcat(ItemList(NodeItem(here, x)), below);
    }
  }

  /** Item `i` reports the directory that holds the entry item `j` reports. */
  ghost predicate ReportsParent(items: seq<Item>, i: int, j: int) {
    && 0 <= i < j < |items|
    && items[i].Success? && items[i].value.1.fileType == Directory
    && items[j].Success? && |items[j].value.0| > 0
    && items[i].value.0 == items[j].value.0[..|items[j].value.0| - 1]
  }

  /** Every reported entry more than one level below `dir` comes after the
      report of its parent directory. */
  ghost predicate ParentsFirst(dir: Path, items: seq<Item>) {
    forall j :: 0 <= j < |items| && items[j].Success? && |items[j].value.0| > |dir| + 1 ==>
      exists i :: ReportsParent(items, i, j)
  }

  lemma ParentsFirstConcat(dir: Path, a: seq<Item>, b: seq<Item>)
    requires ParentsFirst(dir, a) && ParentsFirst(dir, b)
    ensures ParentsFirst(dir, a + b)
  {
    var c := a + b;
    forall j | 0 <= j < |c| && c[j].Success? && |c[j].value.0| > |dir| + 1
      ensures exists i :: ReportsParent(c, i, j)
    {
      if j < |a| {
        assert c[j] == a[j];
        var i :| ReportsParent(a, i, j);
        assert c[i] == a[i];
        assert ReportsParent(c, i, j);
      } else {
        var j' := j - |a|;
        assert c[j] == b[j'];
        var i :| ReportsParent(b, i, j');
        assert c[i + |a|] == b[i];
        assert ReportsParent(c, i + |a|, j);
      }
    }
  }

  /** Every item of `below` reports a path strictly inside `here`. */
  ghost predicate Inside(here: Path, below: seq<Item>) {
    forall it :: it in below && it.Success? ==> |it.value.0| > |here| && it.value.0[..|here|] == here
  }

  /** A directory's report followed by reports from inside it keeps parents first. */
  lemma ParentsFirstCons(dir: Path, here: Path, head: Item, below: seq<Item>)
    requires |here| == |dir| + 1
    requires head.Success? && head.value.0 == here && head.value.1.fileType == Directory
    requires ParentsFirst(here, below) && Inside(here, below)
    ensures ParentsFirst(dir, [head] + below)
  {
    var items := [head] + below;
    forall j | 0 <= j < |items| && items[j].Success? && |items[j].value.0| > |dir| + 1
      ensures exists i :: ReportsParent(items, i, j)
    {
      assert items[1..] == below;
      ParentInside(here, items, j);
    }
  }

  lemma ParentInside(here: Path, items: seq<Item>, j: nat)
    requires items != [] && items[0].Success? && items[0].value.0 == here
    requires items[0].value.1.fileType == Directory
    requires ParentsFirst(here, items[1..]) && Inside(here, items[1..])
    requires 0 < j < |items| && items[j].Success?
    ensures exists i :: ReportsParent(items, i, j)
  {
    var below := items[1..];
    var q := items[j].value.0;
    assert items[j] == below[j - 1];
    assert below[j - 1] in below;
    if |q| == |here| + 1 {
      assert q[..|q| - 1] == q[..|here|];
      assert ReportsParent(items, 0, j);
    } else {
      var i :| ReportsParent(below, i, j - 1);
      assert items[i + 1] == below[i];
      assert ReportsParent(items, i + 1, j);
    }
  }

  /** Pre-order: a directory is reported before anything inside it. */
  lemma {:induction false} WalkPreOrder(dir: Path, nodes: seq<Node>)
    ensures ParentsFirst(dir, WalkSeq(dir, nodes))
    decreases nodes, 0
  {
    if nodes != [] {
      WalkNodePreOrder(dir, nodes[0]);
      WalkPreOrder(dir, nodes[1..]);
      ParentsFirstConcat(dir, WalkNode(dir, nodes[0]), WalkSeq(dir, nodes[1..]));
    }
  }

  lemma {:induction false} WalkNodePreOrder(dir: Path, x: Node)
    ensures ParentsFirst(dir, WalkNode(dir, x))
    decreases x, 1
  {
    if Descends(x) {
      var here := dir + [x.name];
      ReportedBefore(dir, x);
      WalkPreOrder(here, x.listing.children);
      WalkPaths(here, x.listing.children);
      ParentsFirstCons(dir, here, Success((here, x.meta.value)), WalkSeq(here, x.listing.children));
    }
  }

  /** Nothing is reported below an entry the walk does not enter: a file, a
      symlink (never followed), an unreadable or unlistable directory. */
  lemma NothingBelowLeaf(nodes: seq<Node>, p: Path, s: Node, q: Path, m: Metadata)
    requires UniqueNames(nodes)
    requires At(nodes, p, s) && !Descends(s)
    requires Success((q, m)) in WalkSeq([], nodes)
    ensures !(|p| < |q| && q[..|p|] == p)
  {
    WalkSound([], nodes, Success((q, m)));
    var path: Path, n: Node :| n.Entry? && At(nodes, path, n) && NodeItem([] + path, n) == Some(Success((q, m)));
    assert [] + path == path;
    NodeItemPath(path, n, q, m);
    AtName(nodes, p, s);
    if |p| < |q| && q[..|p|] == p {
      AtAncestor(nodes, q, n, |p|);
      var d :| At(nodes, q[..|p|], d) && Descends(d);
      AtUnique(nodes, p, s, d);
    }
  }

  // ---------------------------------------------------------------------------
  // The enumerator
  // ---------------------------------------------------------------------------

  /** An open `ReadDir`: the directory and the entries it has not returned yet. */
  datatype Cursor = Cursor(dir: Path, nodes: seq<Node>)

  function Pending(c: Cursor): seq<Item> {
    WalkSeq(c.dir, c.nodes)
  }

  /** What the suspended listings still hold, the innermost (top of stack) first. */
  function Stacked(stack: seq<Cursor>): seq<Item> {
    if stack == [] then [] else Pending(stack[|stack| - 1]) + Stacked(stack[..|stack| - 1])
  }

  lemma Yielded(before: seq<Item>, x: Item, after: seq<Item>)
    requires before == [x] + after
    ensures before != [] && before[0] == x && before[1..] == after
  {
  }

  lemma PendingFirst(c: Cursor)
    requires c.nodes != []
    ensures Pending(c) == WalkNode(c.dir, c.nodes[0]) + Pending(c.(nodes := c.nodes[1..]))
  {
  }

  lemma StackedPush(stack: seq<Cursor>, c: Cursor)
    ensures Stacked(stack + [c]) == Pending(c) + Stacked(stack)
  {
    assert (stack + [c])[..|stack|] == stack;
  }

  /** The items of one entry, case by case, as `next_file` produces them:
      an entry reported alone ... */
  lemma ReportedAlone(dir: Path, n: Node, x: Item)
    requires n.Entry? && !Descends(n) && NodeItem(dir + [n.name], n) == Some(x)
    ensures WalkNode(dir, n) == [x]
  {
  }

  /** ... a directory reported before everything below it ... */
  lemma ReportedBefore(dir: Path, n: Node)
    requires Descends(n)
    ensures WalkNode(dir, n) == [Success((dir + [n.name], n.meta.value))] + WalkSeq(dir + [n.name], n.listing.children)
  {
  }

  /** ... and an entry of another kind not reported at all. */
  lemma NotReported(dir: Path, n: Node)
    requires n.Entry? && n.meta.Some? && n.meta.value.fileType == Other
    ensures WalkNode(dir, n) == []
  {
  }

  function Unread(stack: seq<Cursor>): nat {
    if stack == [] then 0 else |stack[|stack| - 1].nodes| + Unread(stack[..|stack| - 1])
  }

  /** `Files`: the listing being read and the stack of the listings of the
      directories above it. */
  class Files {
    var current: Cursor
    var stack: seq<Cursor>

    /** Everything the enumerator has yet to yield, in order. */
    function Remaining(): seq<Item>
      reads this
    {
      Pending(current) + Stacked(stack)
    }

    /** `Files::new` once the base directory has been listed. */
    constructor (root: seq<Node>)
      ensures current == Cursor([], root) && stack == []
      ensures Remaining() == WalkSeq([], root)
    {
      current := Cursor([], root);
      stack := [];
    }

    /** `Files::new`: fails when the base directory cannot be listed. */
    static method Open(root: Listing) returns (r: Result<Files, WalkError>)
      ensures root.Unlistable? ==> r == Failure(ReadDirError([]))
      ensures root.Listed? ==> r.Success? && fresh(r.value) && r.value.Remaining() == WalkSeq([], root.children)
    {
      if root.Unlistable? {
        return Failure(ReadDirError([]));
      }
      var files := new Files(root.children);
      return Success(files);
    }

    /** `next_file`: yields the next item of the walk, or `None` once every
        listing, the current one and the suspended ones, is exhausted. */
    method NextFile() returns (item: Option<Item>)
      modifies this
      ensures old(Remaining()) == [] ==> item == None && Remaining() == []
      ensures old(Remaining()) != [] ==> item == Some(old(Remaining())[0]) && Remaining() == old(Remaining())[1..]
    {
      while true
        invariant Remaining() == old(Remaining())
        decreases Unvisited()
      {
        if current.nodes == [] && stack == [] {
          return None;
        }
        item := Advance();
        if item.Some? {
          Yielded(old(Remaining()), item.value, Remaining());
          return;
        }
      }
    }

    /** The listings and entries `next_file` has yet to go through. */
    function Unvisited(): nat
      reads this
    {
      |current.nodes| + Unread(stack) + |stack|
    }

    /** One pass of `next_file`'s loop: an exhausted listing gives way to the
        one suspended above it; otherwise its next entry is visited. A pass
        that reports nothing brings the loop closer to its end. */
    method Advance() returns (item: Option<Item>)
      requires current.nodes != [] || stack != []
      modifies this
      ensures ItemList(item) + Remaining() == old(Remaining())
      ensures item.None? ==> Unvisited() < old(Unvisited())
    {
      if current.nodes == [] {
        current := stack[|stack| - 1];
        stack := stack[..|stack| - 1];
        return None;
      }
      var entry := current.nodes[0];
      var dir := current.dir;
      PendingFirst(current);
      current := current.(nodes := current.nodes[1..]);
      item := Visit(dir, entry);
    }

    /** The rest of a pass of `next_file`'s loop once the listing of `dir`
        gave `entry`: the report for it, and for a directory the switch to
        its listing, with the current one suspended on the stack. Nothing is
        reported, and nothing changes, for an entry of any other kind. */
    method Visit(dir: Path, entry: Node) returns (item: Option<Item>)
      modifies this
      ensures ItemList(item) + Remaining() == WalkNode(dir, entry) + old(Remaining())
      ensures entry.Entry? ==> item == NodeItem(dir + [entry.name], entry)
      ensures item.None? ==> current == old(current) && stack == old(stack)
    {
      match entry
      case BadEntry =>
        return Some(Failure(ListError(dir)));
      case Entry(name, meta, listing) =>
        var path := dir + [name];
        if meta.None? {
          item := Some(Failure(MetadataError(path)));
          ReportedAlone(dir, entry, item.value);
          return;
        }
        var m := meta.value;
        if m.fileType == RegularFile || m.fileType == Symlink {
          item := Some(Success((path, m)));
          ReportedAlone(dir, entry, item.value);
          return;
        }
        if m.fileType == Directory {
          if listing.Unlistable? {
            item := Some(Failure(ReadDirError(path)));
            ReportedAlone(dir, entry, item.value);
            return;
          }
          ReportedBefore(dir, entry);
          var parent := current;
          StackedPush(stack, parent);
          current := Cursor(path, listing.children);
          stack := stack + [parent];
          return Some(Success((path, m)));
        }
        NotReported(dir, entry);
        return None;
    }

    /** `Iterator::next`. */
    method Next() returns (item: Option<Item>)
      modifies this
      ensures old(Remaining()) == [] ==> item == None && Remaining() == []
      ensures old(Remaining()) != [] ==> item == Some(old(Remaining())[0]) && Remaining() == old(Remaining())[1..]
    {
      item := NextFile();
    }
  }
}
