/** Path resolution (kernel/fs/vfs.c, resolve_from and its wrappers): component by component through a graph of
    vnodes, over mounts and symbolic links. */
module Resolve {
  import opened Vfs
  import opened Components

  const SYMLINK_MAX := 8
  const PATH_MAX := 256

  datatype Kind = Dir | Reg | Lnk | Other

  /** A vnode. `mounted` is what is mounted on it, `depth` how many file systems are stacked above it; `target` is
      the text of a link. A file system without lookup or readlink has the operation missing. */
  datatype Node = Node(kind: Kind, lookup: bool, entries: map<string, nat>, mounted: int, depth: nat, readlink: bool,
      target: string)

  datatype Graph = Graph(nodes: seq<Node>, root: nat) {
    /** Entries and mounts lead to vnodes, and no mount stack runs in a circle. */
    ghost predicate Valid() {
      && root < |nodes|
      && (forall v, n {:trigger nodes[v].entries[n]} :: 0 <= v < |nodes| && n in nodes[v].entries ==>
          nodes[v].entries[n] < |nodes|)
      && (forall v {:trigger nodes[v]} :: 0 <= v < |nodes| && nodes[v].mounted >= 0 ==>
          nodes[v].mounted < |nodes| && nodes[nodes[v].mounted].depth < nodes[v].depth)
    }
  }

  datatype Result = None | Found(v: nat, leaf: string)

  /** cross_mount: what is on top of the stack of mounts. */
  function Cross(g: Graph, v: nat): (r: nat)
    requires g.Valid() && v < |g.nodes|
    ensures r < |g.nodes| && g.nodes[r].mounted < 0
    decreases g.nodes[v].depth
  {
    if g.nodes[v].mounted >= 0 then Cross(g, g.nodes[v].mounted) else v
  }

  /** The loop of cross_mount. */
  method CrossMount(g: Graph, v: nat) returns (r: nat)
    requires g.Valid() && v < |g.nodes|
    ensures r == Cross(g, v)
  {
    r := v;
    while g.nodes[r].mounted >= 0
      invariant r < |g.nodes| && Cross(g, r) == Cross(g, v)
      decreases g.nodes[r].depth
    {
      r := g.nodes[r].mounted;
    }
  }

  // ------------------------------------------------------------ the walk

  /** What readlink into a buffer of PATH_MAX gives. */
  function LinkText(n: Node): string {
    if |n.target| > PATH_MAX - 1 then n.target[..PATH_MAX - 1] else n.target
  }

  /** Resolving components from `cur`, the way of resolve_from: for the parent, or for the vnode itself with or
      without following a link in the last place. */
  function Walk(g: Graph, cur: nat, cs: seq<string>, wantParent: bool, follow: bool, depth: nat): (r: Result)
    requires g.Valid() && cur < |g.nodes|
    ensures r.Found? ==> r.v < |g.nodes|
    decreases SYMLINK_MAX + 1 - depth, |cs|, 1
  {
    if depth > SYMLINK_MAX then None
    else if cs == [] then (if wantParent && g.nodes[cur].kind != Dir then None else Found(cur, ""))
    else if |cs| == 1 && wantParent then (if g.nodes[cur].kind == Dir then Found(cur, cs[0]) else None)
    else if g.nodes[cur].kind != Dir || !g.nodes[cur].lookup then None
    else if cs[0] == "." then Walk(g, cur, cs[1..], wantParent, follow, depth)
    else
      var r := Enter(g, cur, cs[0], |cs| > 1 || follow, depth, |cs|);
      if r == None then None else Walk(g, r.v, cs[1..], wantParent, follow, depth)
  }

  /** One component: looked up, taken over mounts, and followed if it is a link that has to be. */
  function Enter(g: Graph, cur: nat, name: string, follow: bool, depth: nat, ghost n: nat): (r: Result)
    requires g.Valid() && cur < |g.nodes| && depth <= SYMLINK_MAX
    ensures r.Found? ==> r.v < |g.nodes|
    decreases SYMLINK_MAX + 1 - depth, n, 0
  {
    if name !in g.nodes[cur].entries then None
    else
      var child := Cross(g, g.nodes[cur].entries[name]);
      if g.nodes[child].kind != Lnk || !follow then Found(child, "")
      else if !g.nodes[child].readlink || LinkText(g.nodes[child]) == "" then None
      else
        var tgt := LinkText(g.nodes[child]);
        Walk(g, if tgt[0] == '/' then Cross(g, g.root) else cur, Comps(tgt, 0), false, true, depth + 1)
  }

  /** Looking one component up, and following it if it is a link. */
  method Step(g: Graph, cur: nat, name: string, follow: bool, depth: nat, ghost n: nat) returns (r: Result)
    requires g.Valid() && cur < |g.nodes| && depth <= SYMLINK_MAX
    ensures r == Enter(g, cur, name, follow, depth, n)
    decreases SYMLINK_MAX + 1 - depth, 0
  {
    if name !in g.nodes[cur].entries { return None; }
    var child := CrossMount(g, g.nodes[cur].entries[name]);
    if g.nodes[child].kind != Lnk || !follow { return Found(child, ""); }
    var tgt := LinkText(g.nodes[child]);
    if !g.nodes[child].readlink || tgt == "" { return None; }
    var root := CrossMount(g, g.root);
    r := ResolveFrom(g, if tgt[0] == '/' then root else cur, tgt, false, true, depth + 1);
  }

  /** resolve_from as the code has it: a cursor over the characters of the path, and recursion for links. */
  method ResolveFrom(g: Graph, start: nat, path: string, wantParent: bool, follow: bool, depth: nat) returns (r: Result)
    requires g.Valid() && start < |g.nodes|
    ensures r == Walk(g, start, Comps(path, 0), wantParent, follow, depth)
    decreases SYMLINK_MAX + 1 - depth, 1
  {
    if depth > SYMLINK_MAX { return None; }
    var cur: nat, p: nat := start, 0;
    while p < |path|
      invariant p <= |path| && cur < |g.nodes|
      invariant Walk(g, cur, Comps(path, p), wantParent, follow, depth) ==
          Walk(g, start, Comps(path, 0), wantParent, follow, depth)
      decreases |path| - p
    {
      ghost var cs := Comps(path, p);
      var st, e := Scan(path, p);
      if st == |path| { break; }
      var name := Cut(path[st..e]);
      var last := Past(path, e) == |path|;
      assert cs[0] == name && cs[1..] == Comps(path, e) && (last <==> |cs| == 1);
      p := e;
      if last && wantParent { return if g.nodes[cur].kind == Dir then Found(cur, name) else None; }
      if g.nodes[cur].kind != Dir || !g.nodes[cur].lookup { return None; }
      if name != "." {
        r := Step(g, cur, name, !last || follow, depth, |cs|);
        if r == None { return; }
        cur := r.v;
      }
    }
    r := if wantParent && g.nodes[cur].kind != Dir then None else Found(cur, "");
  }

  // ------------------------------------------------------------ what resolution gives

  /** vfs_resolve, vfs_resolve_nofollow and vfs_resolve_parent. */
  function Top(g: Graph, path: string, wantParent: bool, follow: bool): Result
    requires g.Valid()
  {
    if !wantParent && path == "/" then Found(Cross(g, g.root), "")
    else if path == "" || path[0] != '/' then None
    else Walk(g, Cross(g, g.root), Comps(path, 0), wantParent, follow, 0)
  }

  /** Following all the way never ends on a link, starting from something that is none. */
  lemma {:induction false} NeverLink(g: Graph, cur: nat, cs: seq<string>, depth: nat)
    requires g.Valid() && cur < |g.nodes| && g.nodes[cur].kind != Lnk && g.nodes[Cross(g, g.root)].kind != Lnk
    ensures var r := Walk(g, cur, cs, false, true, depth); r.Found? ==> g.nodes[r.v].kind != Lnk
    decreases SYMLINK_MAX + 1 - depth, |cs|
  {
    if depth <= SYMLINK_MAX && cs != [] && g.nodes[cur].kind == Dir && g.nodes[cur].lookup {
      if cs[0] == "." {
        NeverLink(g, cur, cs[1..], depth);
      } else {
        var r := Enter(g, cur, cs[0], true, depth, |cs|);
        EnterNeverLink(g, cur, cs[0], depth, |cs|);
        if r.Found? { NeverLink(g, r.v, cs[1..], depth); }
      }
    }
  }

  /** A link entered is its text resolved. */
  lemma LinkEntered(g: Graph, dir: nat, name: string, text: string, from: nat, depth: nat, n: nat)
    requires g.Valid() && dir < |g.nodes| && depth <= SYMLINK_MAX
    requires name in g.nodes[dir].entries && var l := g.nodes[Cross(g, g.nodes[dir].entries[name])];
      l.kind == Lnk && l.readlink && text == LinkText(l) && text != ""
    requires from == if text[0] == '/' then Cross(g, g.root) else dir
    ensures Enter(g, dir, name, true, depth, n) == Walk(g, from, Comps(text, 0), false, true, depth + 1)
  {
  }

  lemma {:induction false} EnterNeverLink(g: Graph, cur: nat, name: string, depth: nat, n: nat)
    requires g.Valid() && cur < |g.nodes| && depth <= SYMLINK_MAX && g.nodes[cur].kind != Lnk &&
        g.nodes[Cross(g, g.root)].kind != Lnk
    ensures var r := Enter(g, cur, name, true, depth, n); r.Found? ==> g.nodes[r.v].kind != Lnk
    decreases SYMLINK_MAX + 1 - depth, -1
  {
    if name in g.nodes[cur].entries {
      var l := g.nodes[Cross(g, g.nodes[cur].entries[name])];
      var tgt := LinkText(l);
      if l.kind == Lnk && l.readlink && tgt != "" {
        var from := if tgt[0] == '/' then Cross(g, g.root) else cur;
        LinkEntered(g, cur, name, tgt, from, depth, n);
        NeverLink(g, from, Comps(tgt, 0), depth + 1);
      }
    }
  }

  /** The leaf of a parent, looked up in it and taken over mounts. */
  function LeafIn(g: Graph, parent: Result): Result
    requires g.Valid() && (parent.Found? ==> parent.v < |g.nodes|)
  {
    if parent == None || !g.nodes[parent.v].lookup || parent.leaf !in g.nodes[parent.v].entries then None
    else Found(Cross(g, g.nodes[parent.v].entries[parent.leaf]), "")
  }

  /** Resolving without following the last link is looking up the leaf in the parent, for leaves other than the
      empty one and ".". */
  lemma {:induction false} LeafOfParent(g: Graph, cur: nat, cs: seq<string>, follow: bool, depth: nat)
    requires g.Valid() && cur < |g.nodes| && cs != [] && cs[|cs| - 1] != "."
    ensures Walk(g, cur, cs, false, false, depth) == LeafIn(g, Walk(g, cur, cs, true, follow, depth))
    decreases |cs|
  {
    if depth <= SYMLINK_MAX && |cs| > 1 && g.nodes[cur].kind == Dir && g.nodes[cur].lookup {
      assert cs[1..][|cs[1..]| - 1] == cs[|cs| - 1];
      if cs[0] == "." {
        LeafOfParent(g, cur, cs[1..], follow, depth);
      } else {
        var r := Enter(g, cur, cs[0], true, depth, |cs|);
        if r.Found? { LeafOfParent(g, r.v, cs[1..], follow, depth); }
      }
    }
  }

  /** With the last leaf "." they agree exactly if the directory has an entry of that name, for itself. */
  lemma DotLeaf(g: Graph, cur: nat, follow: bool, depth: nat)
    requires g.Valid() && cur < |g.nodes| && depth <= SYMLINK_MAX && g.nodes[cur].kind == Dir && g.nodes[cur].lookup
    ensures var es := g.nodes[cur].entries;
      Walk(g, cur, ["."], false, false, depth) == LeafIn(g, Walk(g, cur, ["."], true, follow, depth)) <==>
      "." in es && Cross(g, es["."]) == cur
  {
    assert ["."][1..] == [];
  }

  // ------------------------------------------------------------ leaves

  /** The leaf of a parent is the last component. */
  lemma {:induction false} LeafIsLast(g: Graph, cur: nat, cs: seq<string>, follow: bool, depth: nat)
    requires g.Valid() && cur < |g.nodes| && Walk(g, cur, cs, true, follow, depth).Found?
    ensures Walk(g, cur, cs, true, follow, depth).leaf == if cs == [] then "" else cs[|cs| - 1]
    decreases |cs|
  {
    if |cs| > 1 {
      if cs[0] == "." {
        LeafIsLast(g, cur, cs[1..], follow, depth);
      } else {
        LeafIsLast(g, Enter(g, cur, cs[0], true, depth, |cs|).v, cs[1..], follow, depth);
      }
    }
  }

  /** Whatever the path, the leaf that a file system is given to create, rename or unlink fits a name buffer. */
  lemma LeafFits(g: Graph, path: string)
    requires g.Valid() && Top(g, path, true, true).Found?
    ensures |Top(g, path, true, true).leaf| <= NAME_MAX
  {
    var cs := Comps(path, 0);
    LeafIsLast(g, Cross(g, g.root), cs, true, 0);
    if cs != [] { CompsFit(path, 0, |cs| - 1); }
  }

  /** What resolves with links still to spend resolves to the same with more of them. */
  lemma {:induction false} DepthMonotone(g: Graph, cur: nat, cs: seq<string>, wantParent: bool, follow: bool, d: nat,
      e: nat)
    requires g.Valid() && cur < |g.nodes| && e <= d && Walk(g, cur, cs, wantParent, follow, d).Found?
    ensures Walk(g, cur, cs, wantParent, follow, e) == Walk(g, cur, cs, wantParent, follow, d)
    decreases SYMLINK_MAX + 1 - d, |cs|
  {
    if cs != [] && !(|cs| == 1 && wantParent) {
      if cs[0] == "." {
        DepthMonotone(g, cur, cs[1..], wantParent, follow, d, e);
      } else {
        EnterMonotone(g, cur, cs[0], |cs| > 1 || follow, d, e, |cs|);
        DepthMonotone(g, Enter(g, cur, cs[0], |cs| > 1 || follow, d, |cs|).v, cs[1..], wantParent, follow, d, e);
      }
    }
  }

  lemma {:induction false} EnterMonotone(g: Graph, cur: nat, name: string, follow: bool, d: nat, e: nat, n: nat)
    requires g.Valid() && cur < |g.nodes| && e <= d <= SYMLINK_MAX && Enter(g, cur, name, follow, d, n).Found?
    ensures Enter(g, cur, name, follow, e, n) == Enter(g, cur, name, follow, d, n)
    decreases SYMLINK_MAX + 1 - d, -1
  {
    var child := Cross(g, g.nodes[cur].entries[name]);
    if g.nodes[child].kind == Lnk && follow {
      var tgt := LinkText(g.nodes[child]);
      DepthMonotone(g, if tgt[0] == '/' then Cross(g, g.root) else cur, Comps(tgt, 0), false, true, d + 1, e + 1);
    }
  }

  /** A link that leads back to itself is given up, however many links have been followed. */
  lemma {:induction false} SelfLoop(g: Graph, cur: nat, name: string, depth: nat)
    requires g.Valid() && cur < |g.nodes| && name in g.nodes[cur].entries && name != "."
    requires var l := g.nodes[Cross(g, g.nodes[cur].entries[name])];
        l.kind == Lnk && LinkText(l) != "" && LinkText(l)[0] != '/' && Comps(LinkText(l), 0) == [name]
    ensures Walk(g, cur, [name], false, true, depth) == None
    decreases SYMLINK_MAX + 1 - depth
  {
    if depth <= SYMLINK_MAX { SelfLoop(g, cur, name, depth + 1); }
  }

  /** So for every path: vfs_resolve never returns a link, and resolving without following agrees with
      vfs_resolve_parent and a lookup. */
  lemma Resolved(g: Graph, path: string)
    requires g.Valid() && g.nodes[Cross(g, g.root)].kind == Dir
    ensures var r := Top(g, path, false, true); r.Found? ==> g.nodes[r.v].kind != Lnk
    ensures var cs := Comps(path, 0);
      cs != [] && cs[|cs| - 1] != "." ==> Top(g, path, false, false) == LeafIn(g, Top(g, path, true, true))
  {
    var cs := Comps(path, 0);
    NeverLink(g, Cross(g, g.root), cs, 0);
    if cs != [] && cs[|cs| - 1] != "." { LeafOfParent(g, Cross(g, g.root), cs, true, 0); }
  }

  // ------------------------------------------------------------ a path after a path

  /** What resolves from a directory that `a` leads to. */
  lemma {:induction false} WalkJoin(g: Graph, cur: nat, a: seq<string>, b: seq<string>, depth: nat)
    requires g.Valid() && cur < |g.nodes|
    ensures var r := Walk(g, cur, a, false, true, depth);
      Walk(g, cur, a + b, false, true, depth) == if r.Found? then Walk(g, r.v, b, false, true, depth) else None
    decreases |a|
  {
    if a == [] {
      assert a + b == b;
    } else if depth <= SYMLINK_MAX && g.nodes[cur].kind == Dir && g.nodes[cur].lookup {
      assert (a + b)[0] == a[0] && (a + b)[1..] == a[1..] + b;
      if a[0] == "." {
        WalkJoin(g, cur, a[1..], b, depth);
      } else {
        var r := Enter(g, cur, a[0], true, depth, |a|);
        EnterSame(g, cur, a[0], depth, |a|, |a + b|);
        if r.Found? { WalkJoin(g, r.v, a[1..], b, depth); }
      }
    }
  }

  lemma EnterSame(g: Graph, cur: nat, name: string, depth: nat, n: nat, m: nat)
    requires g.Valid() && cur < |g.nodes| && depth <= SYMLINK_MAX
    ensures Enter(g, cur, name, true, depth, n) == Enter(g, cur, name, true, depth, m)
  {
  }

  /** Resolving a path after a path is resolving it from where the first one leads. */
  lemma PathAfterPath(g: Graph, p: string, q: string)
    requires g.Valid() && p != "" && p[0] == '/'
    ensures var r := Top(g, p, false, true);
      Top(g, p + "/" + q, false, true) == if r.Found? then Walk(g, r.v, Comps(q, 0), false, true, 0) else None
  {
    CompsJoin(p, q);
    WalkJoin(g, Cross(g, g.root), Comps(p, 0), Comps(q, 0), 0);
  }

  /** Where the text of a link leads: from the root if it begins with a separator, and otherwise from the directory that
      holds the link. */
  function There(dir: string, text: string): string {
    if text != "" && text[0] == '/' then text else dir + "/" + text
  }

  /** A link in the directory that path `p` leads to. */
  ghost predicate LinkIn(g: Graph, p: string, name: string, dir: nat, text: string)
    requires g.Valid()
  {
    && p != "" && p[0] == '/' && Top(g, p, false, true) == Found(dir, "") && dir < |g.nodes|
    && g.nodes[dir].kind == Dir && g.nodes[dir].lookup && Single(name) && name != "." && name in g.nodes[dir].entries
    && var l := g.nodes[Cross(g, g.nodes[dir].entries[name])];
    l.kind == Lnk && l.readlink && text == LinkText(l) && text != ""
  }

  /** "/" leads to the root, or to what is mounted on it; "." stays; a name leads to what it stands for in the
      directory, or to what is mounted on that, unless it is a link. */
  lemma EntryLeads(g: Graph, p: string, name: string, dir: nat)
    requires g.Valid() && p != "" && p[0] == '/' && Single(name)
    requires Top(g, p, false, true) == Found(dir, "") && dir < |g.nodes|
    ensures Top(g, "/", false, true) == Found(Cross(g, g.root), "")
    ensures var r, n := Top(g, p + "/" + name, false, true), g.nodes[dir];
      if n.kind != Dir || !n.lookup then r == None
      else if name == "." then r == Found(dir, "")
      else if name !in n.entries then r == None
      else g.nodes[Cross(g, n.entries[name])].kind != Lnk ==> r == Found(Cross(g, n.entries[name]), "")
  {
    PathAfterPath(g, p, name);
    SingleComp(name);
    assert [name][1..] == [] && Comps("/", 0) == [];
  }

  /** Resolving the path of a link gives what resolving its text gives, from the root or from the link's directory; with
      one link less to spend on the way, which decides only whether it is given up. */
  lemma LinkLeads(g: Graph, p: string, name: string, dir: nat, text: string)
    requires g.Valid() && LinkIn(g, p, name, dir, text)
    ensures var link := Top(g, p + "/" + name, false, true);
      && (link.Found? ==> Top(g, There(p, text), false, true) == link)
      && link == Walk(g, if text[0] == '/' then Cross(g, g.root) else dir, Comps(text, 0), false, true, 1)
  {
    var from := if text[0] == '/' then Cross(g, g.root) else dir;
    PathAfterPath(g, p, name);
    SingleComp(name);
    LinkStep(g, dir, name, text, from);
    if text[0] != '/' { PathAfterPath(g, p, text); }
    if Walk(g, from, Comps(text, 0), false, true, 1).Found? {
      DepthMonotone(g, from, Comps(text, 0), false, true, 1, 0);
    }
    if text == "/" { assert Comps(text, 0) == []; }
  }

  lemma LinkStep(g: Graph, dir: nat, name: string, text: string, from: nat)
    requires g.Valid() && dir < |g.nodes| && g.nodes[dir].kind == Dir && g.nodes[dir].lookup && name != "."
    requires name in g.nodes[dir].entries && var l := g.nodes[Cross(g, g.nodes[dir].entries[name])];
      l.kind == Lnk && l.readlink && text == LinkText(l) && text != ""
    requires from == if text[0] == '/' then Cross(g, g.root) else dir
    ensures Walk(g, dir, [name], false, true, 0) == Walk(g, from, Comps(text, 0), false, true, 1)
  {
    var cs := Comps(text, 0);
    LinkEntered(g, dir, name, text, from, 0, 1);
    if Walk(g, from, cs, false, true, 1).Found? { NoLeaf(g, from, cs, true, 1); }
    OneStep(g, dir, name);
  }

  lemma OneStep(g: Graph, dir: nat, name: string)
    requires g.Valid() && dir < |g.nodes| && g.nodes[dir].kind == Dir && g.nodes[dir].lookup && name != "."
    ensures var r := Enter(g, dir, name, true, 0, 1);
      Walk(g, dir, [name], false, true, 0) == (if r.Found? then Walk(g, r.v, [], false, true, 0) else r)
  {
    assert [name][1..] == [];
  }

  lemma {:induction false} NoLeaf(g: Graph, cur: nat, cs: seq<string>, follow: bool, depth: nat)
    requires g.Valid() && cur < |g.nodes| && Walk(g, cur, cs, false, follow, depth).Found?
    ensures Walk(g, cur, cs, false, follow, depth).leaf == ""
    decreases |cs|
  {
    if cs != [] {
      if cs[0] == "." {
        NoLeaf(g, cur, cs[1..], follow, depth);
      } else {
        NoLeaf(g, Enter(g, cur, cs[0], |cs| > 1 || follow, depth, |cs|).v, cs[1..], follow, depth);
      }
    }
  }
}
