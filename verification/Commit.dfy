/** The image store: committing a container's writable layer, and mounting what was committed.

    A commit copies the upper layer entry by entry. The copy is not exact: directories and devices
    lose the permission bits of the umask, FIFOs and sockets are skipped, a symlink's extended
    attributes stay behind, and the root directory is not copied but made anew. `Faithful` is the
    exact condition under which none of that shows. */
module Commit {
  import opened Overlay
  import opened Wrappers
  import LayerText

  // ---------------------------------------------------------------- what a copy keeps

  /** The bits of 0755. */
  const ROOT_MODE: Perm := {0, 2, 3, 5, 6, 7, 8}

  /** The root directory of a layer as the store makes it. */
  function NewRoot(umask: Perm): Entry { Directory(ROOT_MODE - umask, map[]) }

  function CopiedEntry(e: Entry, umask: Perm): Entry {
    match e
    case Directory(perm, xattrs) => Directory(perm - umask, xattrs)
    case Device(kind, rdev, perm, xattrs) => Device(kind, rdev, perm - umask, xattrs)
    case Symlink(target, _) => Symlink(target, map[])
    case _ => e
  }

  function RootedCopy(src: Layer, umask: Perm, root: Entry): Layer {
    map p | p in src && !src[p].Other? :: if p == [] then root else CopiedEntry(src[p], umask)
  }

  function CopiedLayer(src: Layer, umask: Perm): Layer { RootedCopy(src, umask, NewRoot(umask)) }

  /** A layer has a root directory, and every entry sits in a directory. */
  ghost predicate IsTree(l: Layer) { WellFormed(l) && [] in l }

  /** Checked entry by entry against the view below the upper layer; `root` is the root directory
      that will be seen in the end. */
  predicate FaithfulAt(view: Layer, upper: Layer, umask: Perm, root: Entry, p: Path)
    requires p in upper
  {
    if p == [] then Shown(upper[p]) == Shown(root)
    else
      match upper[p]
      case Directory(perm, _) => perm !! umask
      case Device(_, _, perm, _) => Whiteout(upper[p]) || perm !! umask
      case Symlink(_, xattrs) => Visible(xattrs) == map[]
      case Regular(_, _, _) => true
      case Other(_) => p in view && view[p] == upper[p] && !Covered(upper, p)
  }

  predicate Faithful(view: Layer, upper: Layer, umask: Perm, root: Entry) {
    forall p :: p in upper ==> FaithfulAt(view, upper, umask, root, p)
  }

  lemma CopyWellFormed(src: Layer, umask: Perm)
    requires IsTree(src)
    ensures IsTree(CopiedLayer(src, umask))
  {
    var copy := CopiedLayer(src, umask);
    assert Housed(src, []);
    forall p | p in copy ensures Housed(copy, p) {
      assert Housed(src, p);
    }
  }

  lemma CopyHidesAlike(e: Entry, umask: Perm)
    requires !e.Other?
    ensures Hides(CopiedEntry(e, umask)) == Hides(e)
    ensures Whiteout(CopiedEntry(e, umask)) == Whiteout(e)
  {}

  /** Below a skipped FIFO or socket the copy no longer covers, but there a faithful view has
      nothing to show. */
  lemma CopyCoversAlike(view: Layer, upper: Layer, umask: Perm, root: Entry, p: Path)
    requires WellFormed(view) && p in view && Faithful(view, upper, umask, root)
    ensures Covered(RootedCopy(upper, umask, root), p) <==> Covered(upper, p)
  {
    var copy := RootedCopy(upper, umask, root);
    forall k | 0 < k < |p|
      ensures p[..k] in copy && Hides(copy[p[..k]]) <==> p[..k] in upper && Hides(upper[p[..k]])
    {
      if p[..k] in upper {
        assert FaithfulAt(view, upper, umask, root, p[..k]);
        PrefixPresent(view, p, k);
        if !upper[p[..k]].Other? {
          CopyHidesAlike(upper[p[..k]], umask);
        }
      }
    }
  }

  lemma CopyOfFaithful(view: Layer, upper: Layer, umask: Perm, root: Entry)
    requires WellFormed(view) && IsTree(upper) && Faithful(view, upper, umask, root) && root.Directory?
    ensures Overlaid(view, RootedCopy(upper, umask, root)) == Overlaid(view, upper)
  {
    var copy := RootedCopy(upper, umask, root);
    var a, b := Overlaid(view, copy), Overlaid(view, upper);
    assert Housed(upper, []);
    forall p ensures Get(a, p) == Get(b, p) {
      if p in upper {
        assert FaithfulAt(view, upper, umask, root, p);
        if upper[p].Other? {
          CopyCoversAlike(view, upper, umask, root, p);
        } else {
          CopyHidesAlike(upper[p], umask);
          assert forall s: Perm :: s !! umask ==> s - umask == s;
        }
      } else if p in view {
        CopyCoversAlike(view, upper, umask, root, p);
      }
    }
    GetsDetermine(a, b);
  }

  lemma GetsDetermine(a: Layer, b: Layer)
    requires forall p :: Get(a, p) == Get(b, p)
    ensures a == b
  {
    forall p ensures p in a <==> p in b {
      assert Get(a, p) == Get(b, p);
    }
    forall p | p in a ensures a[p] == b[p] {
      assert Get(a, p) == Get(b, p);
    }
  }

  lemma UnfaithfulShows(view: Layer, upper: Layer, umask: Perm, root: Entry, p: Path)
    requires IsTree(upper) && root.Directory? && p in upper && !FaithfulAt(view, upper, umask, root, p)
    ensures Get(Overlaid(view, RootedCopy(upper, umask, root)), p) != Get(Overlaid(view, upper), p)
  {
    var copy := RootedCopy(upper, umask, root);
    assert Housed(upper, []);
    if p != [] {
      match upper[p]
      case Other(_) =>
        assert p !in copy;
        forall k | 0 < k < |p| && p[..k] in upper ensures p[..k] in copy {
          PrefixPresent(upper, p, k);
        }
        assert Covered(copy, p) <==> Covered(upper, p) by {
          forall k | 0 < k < |p| && p[..k] in copy ensures Hides(copy[p[..k]]) == Hides(upper[p[..k]]) {
            CopyHidesAlike(upper[p[..k]], umask);
          }
        }
      case Directory(perm, _) =>
        assert perm - umask != perm;
      case Device(_, _, perm, _) =>
        assert perm - umask != perm;
      case Symlink(_, _) =>
      case Regular(_, _, _) =>
    }
  }

  lemma CopyShowsTheSameTree(view: Layer, upper: Layer, umask: Perm, root: Entry)
    requires WellFormed(view) && IsTree(upper) && root.Directory?
    ensures Overlaid(view, RootedCopy(upper, umask, root)) == Overlaid(view, upper)
        <==> Faithful(view, upper, umask, root)
  {
    if Faithful(view, upper, umask, root) {
      CopyOfFaithful(view, upper, umask, root);
    } else {
      var p :| p in upper && !FaithfulAt(view, upper, umask, root, p);
      UnfaithfulShows(view, upper, umask, root, p);
    }
  }

  /** The copy of an upper layer shows the same tree over the same layers exactly when the upper
      layer is faithful to copying. */
  lemma CommitShowsTheSameTree(view: Layer, upper: Layer, umask: Perm)
    requires WellFormed(view) && IsTree(upper)
    ensures Overlaid(view, CopiedLayer(upper, umask)) == Overlaid(view, upper)
        <==> Faithful(view, upper, umask, NewRoot(umask))
  {
    CopyShowsTheSameTree(view, upper, umask, NewRoot(umask));
  }

  /** A new container over the committed layer sees its own root directory, and below it the copy. */
  lemma RemountKeepsAllButTheRoot(view: Layer, upper: Layer, umask: Perm, root: Entry)
    requires IsTree(upper) && root.Directory?
    ensures Overlaid(Overlaid(view, CopiedLayer(upper, umask)), map[[] := root])
        == Overlaid(view, RootedCopy(upper, umask, root))
  {
    var copy, rooted := CopiedLayer(upper, umask), RootedCopy(upper, umask, root);
    assert Housed(upper, []);
    FreshUpper(Overlaid(view, copy), root);
    var a, b := Overlaid(Overlaid(view, copy), map[[] := root]), Overlaid(view, rooted);
    forall p ensures Get(a, p) == Get(b, p) {
      assert Covered(copy, p) <==> Covered(rooted, p) by {
        assert forall k :: 0 < k < |p| && p[..k] in copy ==> copy[p[..k]] == rooted[p[..k]];
      }
    }
    GetsDetermine(a, b);
  }

  /** With the usual umask a world-writable directory comes back from a commit without its group
      and world write bits. */
  lemma UmaskNarrowsDirectories()
    ensures
      var upper: Layer := map[[] := NewRoot({1, 4}), ["tmp"] := Directory({0, 1, 2, 3, 4, 5, 6, 7, 8}, map[])];
      && IsTree(upper)
      && !Faithful(map[], upper, {1, 4}, NewRoot({1, 4}))
      && Get(Overlaid(map[], CopiedLayer(upper, {1, 4})), ["tmp"]) == Some(Directory({0, 2, 3, 5, 6, 7, 8}, map[]))
      && Get(Overlaid(map[], CopiedLayer(upper, {1, 4})), []) == Some(Directory({0, 2, 3, 5, 6, 7, 8}, map[]))
  {
    var upper: Layer := map[[] := NewRoot({1, 4}), ["tmp"] := Directory({0, 1, 2, 3, 4, 5, 6, 7, 8}, map[])];
    assert ["tmp"][..0] == [];
    assert ["tmp"] in upper && !FaithfulAt(map[], upper, {1, 4}, NewRoot({1, 4}), ["tmp"]) by {
      assert 1 in {1, 4};
    }
    assert {0, 1, 2, 3, 4, 5, 6, 7, 8} - {1, 4} == {0, 2, 3, 5, 6, 7, 8};
    assert ROOT_MODE - {1, 4} == {0, 2, 3, 5, 6, 7, 8};
    var none: Xattrs := map[];
    assert Visible(none) == none;
  }

  /** A container that closed its root directory to others finds it open again. */
  lemma RootIsNotCommitted(view: Layer, umask: Perm)
    requires 0 !in umask
    ensures
      var upper: Layer := map[[] := Directory({6, 7, 8}, map[])];
      && IsTree(upper) && !Faithful(view, upper, umask, NewRoot(umask))
      && Get(Overlaid(view, CopiedLayer(upper, umask)), []) != Get(Overlaid(view, upper), [])
  {
    var upper: Layer := map[[] := Directory({6, 7, 8}, map[])];
    assert 0 in ROOT_MODE - umask && 0 !in {6, 7, 8};
    assert !FaithfulAt(view, upper, umask, NewRoot(umask), []);
    UnfaithfulShows(view, upper, umask, NewRoot(umask), []);
  }

  // ---------------------------------------------------------------- mounting a stack

  type Layers = map<string, Layer>

  /** The directory below which the store keeps an image's layers. */
  function LayerPath(root: string, id: string): string {
    root + "/layers/" + id
  }

  function LayerId(root: string, path: string): string {
    if |path| >= |LayerPath(root, "")| then path[|LayerPath(root, "")|..] else path
  }

  function Paths(root: string, ids: seq<string>): seq<string> {
    seq(|ids|, i requires 0 <= i < |ids| => LayerPath(root, ids[i]))
  }

  predicate AllPresent(layers: Layers, ids: seq<string>) {
    forall id :: id in ids ==> id in layers
  }

  predicate AllMountable(root: string, ids: seq<string>) {
    forall id :: id in ids ==> LayerText.Mountable(LayerPath(root, id))
  }

  function Stack(layers: Layers, ids: seq<string>): (r: seq<Layer>)
    requires AllPresent(layers, ids)
    ensures |r| == |ids| && forall i :: 0 <= i < |ids| ==> r[i] == layers[ids[i]]
  {
    if ids == [] then [] else Stack(layers, ids[..|ids| - 1]) + [layers[ids[|ids| - 1]]]
  }

  /** What a container sees: its upper layer over the fold of its image's layers. */
  function View(layers: Layers, ids: seq<string>, upper: Layer): Layer
    requires AllPresent(layers, ids)
  {
    Overlaid(Fold(Stack(layers, ids)), upper)
  }

  function LayerIds(root: string, paths: seq<string>): seq<string> {
    seq(|paths|, i requires 0 <= i < |paths| => LayerId(root, paths[i]))
  }

  /** What the kernel makes of an option string: the layers at the paths it names, leftmost topmost,
      under the container's upper layer. It reads one page of the string. A mount that names no upper
      directory is a read-only one of the layers alone. */
  function Mounted(layers: Layers, root: string, upper: Layer, upperPath: string, workPath: string,
      options: string): Option<Layer> {
    match LayerText.ParseOptions(LayerText.Page(options))
    case Malformed => None
    case Options(spec) =>
      var ids := LayerIds(root, spec.lower);
      if !AllPresent(layers, ids) then None
      else
        var below := Fold(TopFirst(Stack(layers, ids)));
        if spec.upper == "" then Some(below)
        else if spec.upper == upperPath && spec.work == workPath then Some(Overlaid(below, upper))
        else None
  }

  /** The text that Mount passes to the kernel. */
  function MountText(root: string, ids: seq<string>, upperPath: string, workPath: string): string {
    LayerText.OptionText(LayerText.Reversed(Paths(root, ids)), upperPath, workPath)
  }

  predicate FitsPage(text: string) { LayerText.ByteLength(text) <= LayerText.MAX_OPTIONS }

  lemma PathsMountable(root: string, ids: seq<string>)
    ensures AllMountable(root, ids) <==> forall p :: p in Paths(root, ids) ==> LayerText.Mountable(p)
  {
    var paths := Paths(root, ids);
    if AllMountable(root, ids) {
      forall p | p in paths ensures LayerText.Mountable(p) {
        var i :| 0 <= i < |paths| && paths[i] == p;
        assert ids[i] in ids;
      }
    } else {
      var id :| id in ids && !LayerText.Mountable(LayerPath(root, id));
      var i :| 0 <= i < |ids| && ids[i] == id;
      assert paths[i] in paths;
    }
  }

  /** A mount whose options fit into a page shows the fold of its stack, base first, however the option
      string spells it. */
  lemma MountShowsTheStack(layers: Layers, root: string, ids: seq<string>, upper: Layer, upperPath: string,
      workPath: string)
    requires ids != [] && AllPresent(layers, ids) && AllMountable(root, ids)
    requires upperPath != "" && ',' !in upperPath && workPath != "" && ',' !in workPath
    requires FitsPage(MountText(root, ids, upperPath, workPath))
    ensures Mounted(layers, root, upper, upperPath, workPath, MountText(root, ids, upperPath, workPath))
        == Some(View(layers, ids, upper))
  {
    hide LayerText.ParseOptions, LayerText.OptionText, LayerText.Page, LayerText.ByteLength;
    hide Fold, Stack, AllPresent, LayerIds, Paths, AllMountable;
    PathsMountable(root, ids);
    NamesComeBack(layers, root, ids);
    LayerText.PageRoundTrip(Paths(root, ids), upperPath, workPath);
  }

  /** The paths in the option string lead back to the stack. */
  lemma NamesComeBack(layers: Layers, root: string, ids: seq<string>)
    requires AllPresent(layers, ids)
    ensures |Paths(root, ids)| == |ids|
    ensures
      var named := LayerIds(root, LayerText.Reversed(Paths(root, ids)));
      AllPresent(layers, named) && TopFirst(Stack(layers, named)) == Stack(layers, ids)
  {
    var paths := Paths(root, ids);
    var named := LayerIds(root, LayerText.Reversed(paths));
    forall i | 0 <= i < |named| ensures named[i] == ids[|ids| - 1 - i] {
      LayerPathInjective(root, ids[|ids| - 1 - i]);
    }
    assert forall i :: 0 <= i < |ids| ==> ids[i] in ids;
    assert AllPresent(layers, named);
    assert TopFirst(Stack(layers, named)) == Stack(layers, ids);
  }

  lemma LayerPathInjective(root: string, id: string)
    ensures LayerId(root, LayerPath(root, id)) == id
  {}

  /** Mounting the image a commit records shows the old container's tree exactly when the copied
      layer was faithful to copying. `mountUmask` is that of the later mount. */
  lemma CommittedImageView(layers: Layers, base: seq<string>, layerId: string, upper: Layer, umask: Perm,
      mountUmask: Perm)
    requires AllPresent(layers, base) && layerId !in layers && IsTree(upper)
    requires forall id :: id in layers ==> IsTree(layers[id])
    ensures
      var after := layers[layerId := CopiedLayer(upper, umask)];
      && AllPresent(after, base + [layerId])
      && (View(after, base + [layerId], map[[] := NewRoot(mountUmask)]) == View(layers, base, upper)
          <==> Faithful(Fold(Stack(layers, base)), upper, umask, NewRoot(mountUmask)))
  {
    var after := layers[layerId := CopiedLayer(upper, umask)];
    var stack := Stack(layers, base);
    assert AllPresent(after, base + [layerId]);
    assert (base + [layerId])[..|base|] == base;
    SameStack(layers, after, base);
    assert Stack(after, base + [layerId])[..|base|] == stack;
    assert forall i :: 0 <= i < |base| ==> base[i] in base;
    FoldWellFormed(stack);
    RemountKeepsAllButTheRoot(Fold(stack), upper, umask, NewRoot(mountUmask));
    CopyShowsTheSameTree(Fold(stack), upper, umask, NewRoot(mountUmask));
  }

  lemma {:induction false} SameStack(layers: Layers, after: Layers, ids: seq<string>)
    requires AllPresent(layers, ids) && AllPresent(after, ids)
    requires forall id :: id in ids ==> layers[id] == after[id]
    ensures Stack(layers, ids) == Stack(after, ids)
  {
    assert forall i :: 0 <= i < |ids| ==> ids[i] in ids;
  }

  // ---------------------------------------------------------------- the store

  /** An order in which filepath.Walk may visit a tree: everything once, directories before what
      they hold. */
  ghost predicate IsWalk(src: Layer, order: seq<Path>) {
    && (forall i :: 0 <= i < |order| ==> order[i] in src)
    && (forall p :: p in src ==> p in order)
    && (forall j :: 0 <= j < |order| && |order[j]| > 0 ==> order[j][..|order[j]| - 1] in order[..j])
  }

  predicate NamesAllowed(e: Entry) {
    e.Other? || ("" !in e.xattrs && forall n :: n in e.xattrs ==> '\0' !in n)
  }

  ghost predicate AllNamesAllowed(l: Layer) {
    forall p :: p in l ==> NamesAllowed(l[p])
  }

  /** The copy after the given nodes have been visited. The root directory is there from the start. */
  function CopiedSoFar(src: Layer, done: seq<Path>, umask: Perm): Layer {
    if done == [] then map[[] := NewRoot(umask)]
    else
      var before, p := CopiedSoFar(src, done[..|done| - 1], umask), done[|done| - 1];
      if p == [] || p !in src || src[p].Other? then before else before[p := CopiedEntry(src[p], umask)]
  }

  lemma CopiedOneMore(src: Layer, done: seq<Path>, p: Path, umask: Perm)
    requires p in src
    ensures CopiedSoFar(src, done + [p], umask) ==
              if p == [] || src[p].Other? then CopiedSoFar(src, done, umask)
              else CopiedSoFar(src, done, umask)[p := CopiedEntry(src[p], umask)]
  {
    assert (done + [p])[..|done|] == done;
  }

  lemma {:induction false} CopiedAt(src: Layer, done: seq<Path>, umask: Perm, p: Path)
    ensures Get(CopiedSoFar(src, done, umask), p) ==
              if p == [] then Some(NewRoot(umask))
              else if p in done && p in src && !src[p].Other? then Some(CopiedEntry(src[p], umask)) else None
  {
    if done != [] {
      CopiedAt(src, done[..|done| - 1], umask, p);
      assert done == done[..|done| - 1] + [done[|done| - 1]];
    }
  }

  predicate HasParent(l: Layer, p: Path) {
    p == [] || (p[..|p| - 1] in l && l[p[..|p| - 1]].Directory?)
  }

  lemma ParentCopied(src: Layer, order: seq<Path>, i: nat, umask: Perm)
    requires IsTree(src) && IsWalk(src, order) && i < |order|
    ensures HasParent(CopiedSoFar(src, order[..i], umask), order[i])
  {
    if order[i] != [] {
      assert Housed(src, order[i]);
      CopiedAt(src, order[..i], umask, order[i][..|order[i]| - 1]);
    }
  }

  lemma CopiedAll(src: Layer, order: seq<Path>, umask: Perm)
    requires IsTree(src) && IsWalk(src, order)
    ensures CopiedSoFar(src, order, umask) == CopiedLayer(src, umask)
  {
    assert Housed(src, []);
    forall p ensures Get(CopiedSoFar(src, order, umask), p) == Get(CopiedLayer(src, umask), p) {
      CopiedAt(src, order, umask, p);
    }
    GetsDetermine(CopiedSoFar(src, order, umask), CopiedLayer(src, umask));
  }

  datatype NodeCopy = Skipped | Made(entry: Entry)

  /** llistxattr: the attribute names, each with a terminator, in some order. */
  method ListXattrs(xattrs: Xattrs) returns (buf: string, ghost names: seq<string>)
    requires "" !in xattrs
    ensures buf == LayerText.Terminated(names) && "" !in names && forall n :: n in names <==> n in xattrs
  {
    buf, names := "", [];
    var todo := xattrs.Keys;
    while todo != {}
      invariant todo <= xattrs.Keys
      invariant buf == LayerText.Terminated(names) && "" !in names
      invariant forall n :: n in names <==> n in xattrs.Keys - todo
    {
      var n :| n in todo;
      assert (names + [n])[..|names|] == names;
      buf, names := buf + n + ['\0'], names + [n];
      todo := todo - {n};
    }
  }

  method CopyListed(xattrs: Xattrs, names: seq<string>) returns (copy: Xattrs)
    requires forall n :: n in names ==> n in xattrs
    ensures copy == map n | n in names :: xattrs[n]
  {
    copy := map[];
    for i := 0 to |names|
      invariant copy == map n | n in names[..i] :: xattrs[n]
    {
      assert names[..i + 1] == names[..i] + [names[i]];
      copy := copy[names[i] := xattrs[names[i]]];
    }
    assert names[..|names|] == names;
  }

  method CopyXattrs(xattrs: Xattrs) returns (copy: Xattrs)
    requires "" !in xattrs && forall n :: n in xattrs ==> '\0' !in n
    ensures copy == xattrs
  {
    var buf, listed := ListXattrs(xattrs);
    var names := LayerText.SplitNullTerminated(buf);
    assert buf + "" == buf;
    LayerText.NamesRoundTrip(listed, "");
    copy := CopyListed(xattrs, names);
  }

  method CopyNode(e: Entry, umask: Perm) returns (c: NodeCopy)
    requires NamesAllowed(e)
    ensures c == if e.Other? then Skipped else Made(CopiedEntry(e, umask))
  {
    match e {
      case Directory(perm, xattrs) =>
        var copied := CopyXattrs(xattrs);
        c := Made(Directory(perm - umask, copied));
      case Symlink(target, _) =>
        c := Made(Symlink(target, map[]));
      case Device(kind, rdev, perm, xattrs) =>
        var copied := CopyXattrs(xattrs);
        c := Made(Device(kind, rdev, perm - umask, copied));
      case Regular(perm, xattrs, content) =>
        var copied := CopyXattrs(xattrs);
        c := Made(Regular(perm, copied, content));
      case Other(_) =>
        c := Skipped;
    }
  }

  /** The visit of one node. `failing` are the nodes at which the walk, or a call that reads or makes
      them, fails; among them are devices whose numbers cannot be read. */
  method VisitNode(dst: Layer, src: Layer, p: Path, umask: Perm, failing: set<Path>) returns (ok: bool, after: Layer)
    requires p in src && NamesAllowed(src[p]) && HasParent(dst, p)
    ensures ok <==> p !in failing
    ensures ok ==> after == if p == [] || src[p].Other? then dst else dst[p := CopiedEntry(src[p], umask)]
  {
    if p in failing {
      return false, dst;
    }
    if p == [] {
      return true, dst;
    }
    var c := CopyNode(src[p], umask);
    match c {
      case Skipped => return true, dst;
      case Made(entry) => return true, dst[p := entry];
    }
  }

  lemma Visited(src: Layer, order: seq<Path>, i: nat)
    requires AllNamesAllowed(src) && IsWalk(src, order) && i < |order|
    ensures order[i] in src && NamesAllowed(src[order[i]])
  {}

  /** By the time a node is visited, its parent is a directory of the copy. */
  lemma NextNode(src: Layer, order: seq<Path>, i: nat, umask: Perm)
    requires IsTree(src) && AllNamesAllowed(src) && IsWalk(src, order) && i < |order|
    ensures order[i] in src && NamesAllowed(src[order[i]]) && HasParent(CopiedSoFar(src, order[..i], umask), order[i])
    ensures CopiedSoFar(src, order[..i + 1], umask) ==
              if order[i] == [] || src[order[i]].Other? then CopiedSoFar(src, order[..i], umask)
              else CopiedSoFar(src, order[..i], umask)[order[i] := CopiedEntry(src[order[i]], umask)]
  {
    hide IsWalk, IsTree, AllNamesAllowed, NamesAllowed, CopiedSoFar, HasParent;
    Visited(src, order, i);
    ParentCopied(src, order, i, umask);
    assert order[..i + 1] == order[..i] + [order[i]];
    CopiedOneMore(src, order[..i], order[i], umask);
  }

  lemma NoneFails(src: Layer, order: seq<Path>, failing: set<Path>)
    requires IsWalk(src, order)
    ensures src.Keys !! failing <==> forall k :: 0 <= k < |order| ==> order[k] !in failing
  {}

  /** Replicates a tree node by node; it fails exactly if some node does. */
  method CopyTree(src: Layer, order: seq<Path>, umask: Perm, failing: set<Path>) returns (ok: bool, dst: Layer)
    requires IsTree(src) && AllNamesAllowed(src) && IsWalk(src, order)
    ensures ok <==> src.Keys !! failing
    ensures ok ==> dst == CopiedLayer(src, umask)
  {
    hide CopiedSoFar, IsTree, AllNamesAllowed, IsWalk, NamesAllowed, HasParent, CopiedLayer;
    NoneFails(src, order, failing);
    dst := map[[] := NewRoot(umask)];
    NothingCopied(src, umask);
    for i := 0 to |order|
      invariant dst == CopiedSoFar(src, order[..i], umask)
      invariant forall k :: 0 <= k < i ==> order[k] !in failing
    {
      NextNode(src, order, i, umask);
      ok, dst := VisitNode(dst, src, order[i], umask, failing);
      if !ok {
        return;
      }
    }
    assert order[..|order|] == order;
    CopiedAll(src, order, umask);
    return true, dst;
  }

  lemma NothingCopied(src: Layer, umask: Perm)
    ensures CopiedSoFar(src, [], umask) == map[[] := NewRoot(umask)]
  {}

  /** How writing an image file fails: before the old text is gone, or after some characters. */
  datatype WriteFault = NoWriteFault | NotOpened | CutAfter(n: nat)

  function Cut(text: string, n: nat): string { if n < |text| then text[..n] else text }

  datatype CommitFaults = CommitFaults(noLayerDir: bool, failing: set<Path>, write: WriteFault)

  datatype MountFault = NoMountFault | NoUpper | NoOtherDir | NotMounted

  class Store {
    const root: string
    var layers: Layers
    var images: map<string, string>
    var uppers: map<string, Layer>

    ghost predicate Valid()
      reads this
    {
      && (forall id :: id in layers ==> IsTree(layers[id]))
      && (forall c :: c in uppers ==> IsTree(uppers[c]) && AllNamesAllowed(uppers[c]))
    }

    function UpperPath(container: string): string { root + "/containers/" + container + "/upper" }

    function WorkPath(container: string): string { root + "/containers/" + container + "/work" }

    /** The file is truncated and then written, so a write that fails in between leaves a part. */
    method PutImage(name: string, stack: seq<string>, fault: WriteFault) returns (ok: bool)
      modifies this`images
      ensures ok <==> fault.NoWriteFault?
      ensures images == match fault
                        case NoWriteFault => old(images)[name := LayerText.ImageText(stack)]
                        case NotOpened => old(images)
                        case CutAfter(n) => old(images)[name := Cut(LayerText.ImageText(stack), n)]
    {
      if fault.NotOpened? {
        return false;
      }
      images := images[name := ""];
      var text := LayerText.Join(stack, '\n') + "\n";
      var written := if fault.CutAfter? && fault.n < |text| then fault.n else |text|;
      images := images[name := text[..written]];
      assert text[..|text|] == text;
      ok := fault.NoWriteFault?;
    }

    /** Snapshots a container's upper layer as the fresh layer `layerId` and records an image with
        it on top. A commit that fails leaves the layers as they were, and every image but the one it
        was to record; of that one, a failed write leaves the part that was written. */
    method Commit(container: string, image: string, base: seq<string>, layerId: string, order: seq<Path>,
                  umask: Perm, faults: CommitFaults) returns (ok: bool)
      requires Valid() && layerId !in layers
      requires container in uppers ==> IsWalk(uppers[container], order)
      modifies this`layers, this`images
      ensures Valid()
      ensures ok <==> CopyWorks(uppers, container, faults) && faults.write.NoWriteFault?
      ensures layers == if ok then old(layers)[layerId := CopiedLayer(uppers[container], umask)] else old(layers)
      ensures images == var text := LayerText.ImageText(base + [layerId]);
                        if ok then old(images)[image := text]
                        else if CopyWorks(uppers, container, faults) && faults.write.CutAfter?
                        then old(images)[image := Cut(text, faults.write.n)]
                        else old(images)
    {
      hide IsTree, AllNamesAllowed, IsWalk, CopiedLayer, Cut, LayerText.ImageText;
      if container !in uppers || faults.noLayerDir {
        return false;
      }
      var dst;
      ok, dst := CopyTree(uppers[container], order, umask, faults.failing);
      layers := layers[layerId := dst];
      if ok {
        ok := PutImage(image, base + [layerId], faults.write);
      }
      if !ok {
        layers := layers - {layerId};
        assert layers == old(layers);
        return;
      }
      CopyWellFormed(uppers[container], umask);
    }

    /** Commit as it is written: copying asserts a type for device numbers that FileInfo.Sys does not
        return, so the walk fails at every device. It succeeds exactly when there is no device and
        nothing else fails. */
    method CommitAsWritten(container: string, image: string, base: seq<string>, layerId: string, order: seq<Path>,
                           umask: Perm, faults: CommitFaults) returns (ok: bool)
      requires Valid() && layerId !in layers
      requires container in uppers ==> IsWalk(uppers[container], order)
      modifies this`layers, this`images
      ensures Valid()
      ensures ok <==> CopyWorks(uppers, container, faults) && NoDevices(uppers[container]) && faults.write.NoWriteFault?
      ensures layers == if ok then old(layers)[layerId := CopiedLayer(uppers[container], umask)] else old(layers)
      ensures container in uppers && !NoDevices(uppers[container]) ==> images == old(images)
    {
      var devices := if container in uppers then Devices(uppers[container]) else {};
      if container in uppers {
        DevicesFail(uppers, container, faults);
      }
      ok := Commit(container, image, base, layerId, order, umask, faults.(failing := faults.failing + devices));
    }

    /** So no container that deleted a file of its image can be committed: the deletion is a device in
        its upper layer. */
    method DeletionCannotBeCommitted(container: string, image: string, base: seq<string>, layerId: string,
                                     order: seq<Path>, umask: Perm, faults: CommitFaults, deleted: Path)
      returns (ok: bool)
      requires Valid() && layerId !in layers && container in uppers && IsWalk(uppers[container], order)
      requires deleted in uppers[container] && Whiteout(uppers[container][deleted])
      modifies this`layers, this`images
      ensures !ok && layers == old(layers) && images == old(images)
    {
      assert !NoDevices(uppers[container]);
      ok := CommitAsWritten(container, image, base, layerId, order, umask, faults);
    }

    /** Builds the option string of a mount and mounts it. A stack is refused when it is empty, misses
        a layer or holds a path with a delimiter; by then the container's directories already exist. */
    method Mount(container: string, ids: seq<string>, umask: Perm, fault: MountFault) returns (r: Result<string>)
      modifies this`uppers
      ensures uppers == if ids == [] || fault.NoUpper? || container in old(uppers) then old(uppers)
                        else old(uppers)[container := map[[] := NewRoot(umask)]]
      ensures r.Ok? <==> ids != [] && AllPresent(layers, ids) && AllMountable(root, ids) && fault.NoMountFault?
      ensures r.Ok? ==> r.value == MountText(root, ids, UpperPath(container), WorkPath(container))
      ensures r.Ok? && |ids| == 1 ==>
                r.value == "lowerdir=" + (root + "/layers/" + ids[0])
                  + ",upperdir=" + (root + "/containers/" + container + "/upper")
                  + ",workdir=" + (root + "/containers/" + container + "/work")
    {
      if ids == [] {
        return Err("no layers to mount");
      }
      if fault.NoUpper? {
        return Err("create upper");
      }
      if container !in uppers {
        uppers := uppers[container := map[[] := NewRoot(umask)]];
      }
      if fault.NoOtherDir? {
        return Err("create work or merged");
      }
      var paths: seq<string> := [];
      for i := 0 to |ids|
        invariant paths == Paths(root, ids)[..i]
        invariant forall k :: 0 <= k < i ==> ids[k] in layers
      {
        if ids[i] !in layers {
          assert ids[i] in ids;
          return Err("layer missing");
        }
        paths := paths + [LayerPath(root, ids[i])];
      }
      assert paths == Paths(root, ids);
      PathsMountable(root, ids);
      r := LayerText.OverlayOptions(paths, UpperPath(container), WorkPath(container));
      if fault.NotMounted? {
        r := Err("mount overlay");
      }
    }
  }

  predicate NoDevices(l: Layer) { forall p :: p in l ==> !l[p].Device? }

  function Devices(l: Layer): set<Path> { set p | p in l && l[p].Device? }

  lemma DevicesFail(uppers: map<string, Layer>, container: string, faults: CommitFaults)
    requires container in uppers
    ensures CopyWorks(uppers, container, faults.(failing := faults.failing + Devices(uppers[container])))
            <==> CopyWorks(uppers, container, faults) && NoDevices(uppers[container])
  {
    var upper := uppers[container];
    assert upper.Keys !! Devices(upper) <==> NoDevices(upper) by {
      assert forall p :: p in upper && upper[p].Device? ==> p in upper.Keys * Devices(upper);
    }
    assert upper.Keys !! (faults.failing + Devices(upper)) <==>
             upper.Keys !! faults.failing && upper.Keys !! Devices(upper);
  }

  /** The simplest such layer, over an image with the file: it deletes `etc`, a copy of it would be
      faithful, and its copying fails. */
  lemma OneDeletion(view: Layer, umask: Perm, etc: Entry)
    ensures
      var upper: Layer := map[[] := NewRoot(umask), ["etc"] := Device(CharDevice, 0, {}, map[])];
      && IsTree(upper) && Faithful(view, upper, umask, NewRoot(umask))
      && ["etc"] !in Overlaid(view[["etc"] := etc], upper) && !NoDevices(upper)
      && !CopyWorks(map["c" := upper], "c", CommitFaults(false, Devices(upper), NoWriteFault))
  {
    var upper: Layer := map[[] := NewRoot(umask), ["etc"] := Device(CharDevice, 0, {}, map[])];
    assert ["etc"][..0] == [];
    assert ["etc"] in upper && ["etc"] in Devices(upper);
    DevicesFail(map["c" := upper], "c", CommitFaults(false, {}, NoWriteFault));
  }

  /** The part of a commit before the image is recorded. */
  predicate CopyWorks(uppers: map<string, Layer>, container: string, faults: CommitFaults) {
    container in uppers && !faults.noLayerDir && uppers[container].Keys !! faults.failing
  }

  /** Commit a stopped container and start another from the image: the image file gives back the
      old stack with the new layer on top, the mount succeeds, and what it shows is the old
      container's tree exactly when the upper layer was faithful to copying. */
  method CommitAndRemount(s: Store, container: string, image: string, base: seq<string>, layerId: string,
                          order: seq<Path>, umask: Perm, faults: CommitFaults, next: string, mountUmask: Perm)
    returns (ok: bool, ghost seen: Option<Layer>)
    requires s.Valid() && container in s.uppers && next !in s.uppers && IsWalk(s.uppers[container], order)
    requires base != [] && AllPresent(s.layers, base) && layerId !in s.layers
    requires forall id :: id in base + [layerId] ==> LayerText.PlainId(id)
    requires AllMountable(s.root, base + [layerId]) && ',' !in s.UpperPath(next) && ',' !in s.WorkPath(next)
    modifies s
    ensures ok <==> CopyWorks(old(s.uppers), container, faults) && faults.write.NoWriteFault?
    ensures ok && FitsPage(MountText(s.root, base + [layerId], s.UpperPath(next), s.WorkPath(next))) ==>
              seen.Some?
              && (seen.value == old(View(s.layers, base, s.uppers[container]))
                  <==> Faithful(old(Fold(Stack(s.layers, base))), old(s.uppers[container]), umask, NewRoot(mountUmask)))
  {
    hide Faithful, Mounted, View, MountText, FitsPage, IsTree, AllNamesAllowed, IsWalk, CopiedLayer;
    ghost var before, upper := s.layers, s.uppers[container];
    seen := None;
    ok := s.Commit(container, image, base, layerId, order, umask, faults);
    if ok {
      LayerText.ImageRoundTrip(base + [layerId]);
      var listing := LayerText.ImageLayers(s.images[image]);
      CommittedImageView(before, base, layerId, upper, umask, mountUmask);
      var text := s.Mount(next, listing.layers, mountUmask, NoMountFault);
      seen := Mounted(s.layers, s.root, s.uppers[next], s.UpperPath(next), s.WorkPath(next), text.value);
      if FitsPage(text.value) {
        assert s.UpperPath(next) != "" && s.WorkPath(next) != "";
        MountShowsTheStack(s.layers, s.root, listing.layers, s.uppers[next], s.UpperPath(next), s.WorkPath(next));
      }
    }
  }
}
