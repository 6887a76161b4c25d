/** What an overlay mount shows: layers as trees of entries, the kernel's lookup from the topmost
    layer down, and the bottom-up fold it agrees with. */
module Overlay {
  import opened Wrappers

  type Path = seq<string>
  type Perm = set<nat>
  type Xattrs = map<string, string>

  datatype DeviceKind = CharDevice | BlockDevice

  datatype Entry =
    | Directory(perm: Perm, xattrs: Xattrs)
    | Regular(perm: Perm, xattrs: Xattrs, content: string)
    | Symlink(target: string, xattrs: Xattrs)
    | Device(kind: DeviceKind, rdev: nat, perm: Perm, xattrs: Xattrs)
    | Other(perm: Perm) // a FIFO or a socket

  /** A layer, or a merged view: its entries by path, the root directory at the empty path. */
  type Layer = map<Path, Entry>

  /** Overlayfs keeps attributes of this prefix to itself: no mount shows them. */
  const PRIVATE := "trusted.overlay."
  const OPAQUE := "trusted.overlay.opaque"

  function Visible(xattrs: Xattrs): Xattrs {
    map n | n in xattrs && !(PRIVATE <= n) :: xattrs[n]
  }

  predicate Housed(l: Layer, p: Path) {
    if p == [] then p in l && l[p].Directory? else p[..|p| - 1] in l && l[p[..|p| - 1]].Directory?
  }

  /** Every entry sits in a directory of the same tree. */
  ghost predicate WellFormed(l: Layer) {
    forall p {:trigger Housed(l, p)} :: p in l ==> Housed(l, p)
  }

  /** A character device numbered 0:0 stands for a deletion. */
  predicate Whiteout(e: Entry) {
    e.Device? && e.kind == CharDevice && e.rdev == 0
  }

  predicate Opaque(e: Entry) {
    e.Directory? && OPAQUE in e.xattrs && e.xattrs[OPAQUE] == "y"
  }

  /** Nothing of the layers below shows under this entry. */
  predicate Hides(e: Entry) {
    !e.Directory? || Opaque(e)
  }

  function Shown(e: Entry): Entry {
    if e.Other? then e else e.(xattrs := Visible(e.xattrs))
  }

  /** Some proper ancestor of p in the layer hides what lies below the layer. */
  predicate Covered(l: Layer, p: Path) {
    exists k :: 0 < k < |p| && p[..k] in l && Hides(l[p[..k]])
  }

  function Get(view: Layer, p: Path): Option<Entry> {
    if p in view then Some(view[p]) else None
  }

  // ---------------------------------------------------------------- bottom-up fold

  /** One layer put on top of a view. */
  function Overlaid(view: Layer, l: Layer): Layer {
    map p | p in view.Keys + l.Keys && (if p in l then !Whiteout(l[p]) else !Covered(l, p)) ::
      if p in l then Shown(l[p]) else view[p]
  }

  /** The view of a stack of layers, base first. */
  function Fold(layers: seq<Layer>): Layer {
    if layers == [] then map[]
    else Overlaid(Fold(layers[..|layers| - 1]), layers[|layers| - 1])
  }

  ghost predicate AllWellFormed(layers: seq<Layer>) {
    forall i :: 0 <= i < |layers| ==> WellFormed(layers[i])
  }

  ghost predicate AllRooted(layers: seq<Layer>) {
    forall i :: 0 <= i < |layers| ==> [] in layers[i]
  }

  lemma CoveredBelow(l: Layer, p: Path)
    requires |p| > 1 && Covered(l, p[..|p| - 1])
    ensures Covered(l, p)
  {
    var q := p[..|p| - 1];
    var k :| 0 < k < |q| && q[..k] in l && Hides(l[q[..k]]);
    assert p[..k] == q[..k];
  }

  lemma OverlaidWellFormed(view: Layer, l: Layer)
    requires WellFormed(view) && WellFormed(l)
    ensures WellFormed(Overlaid(view, l))
  {
    var v := Overlaid(view, l);
    forall p | p in v ensures Housed(v, p) {
      assert p in l ==> Housed(l, p);
      assert p in view ==> Housed(view, p);
      assert ([] in l ==> Housed(l, [])) && p[..0] == [];
      if |p| > 1 && p !in l && Covered(l, p[..|p| - 1]) {
        CoveredBelow(l, p);
      }
    }
  }

  lemma {:induction false} FoldWellFormed(layers: seq<Layer>)
    requires AllWellFormed(layers)
    ensures WellFormed(Fold(layers))
  {
    if layers != [] {
      FoldWellFormed(layers[..|layers| - 1]);
      OverlaidWellFormed(Fold(layers[..|layers| - 1]), layers[|layers| - 1]);
    }
  }

  /** A writable layer that holds nothing but its root gives the view its root directory, and adds
      nothing else. */
  lemma FreshUpper(view: Layer, root: Entry)
    requires root.Directory?
    ensures Overlaid(view, map[[] := root]) == view[[] := Shown(root)]
  {
    var upper: Layer := map[[] := root];
    assert forall p: Path, k :: 0 < k < |p| ==> p[..k] !in upper;
  }

  // ---------------------------------------------------------------- the kernel's lookup

  /** The outcome of looking one name up in a stack of directories: nothing, a single entry, or a
      directory merged from the layers that contribute to it, topmost first. */
  datatype Found = Absent | Leaf(entry: Entry) | Merged(dirs: seq<Layer>)

  function Step(stack: seq<Layer>, p: Path): (f: Found)
    ensures f.Merged? ==> |f.dirs| > 0 && p in f.dirs[0]
  {
    if stack == [] then Absent
    else if p !in stack[0] then Step(stack[1..], p)
    else
      var e := stack[0][p];
      if Whiteout(e) then Absent
      else if !e.Directory? then Leaf(e)
      else if Opaque(e) then Merged([stack[0]])
      else
        var below := Step(stack[1..], p);
        Merged([stack[0]] + if below.Merged? then below.dirs else [])
  }

  /** The first k names of p, resolved one after the other from the roots of the stack. */
  function Walk(stack: seq<Layer>, p: Path, k: nat): (f: Found)
    requires k <= |p|
    ensures k > 0 && f.Merged? ==> |f.dirs| > 0 && p[..k] in f.dirs[0]
  {
    if k == 0 then Merged(stack)
    else
      var parent := Walk(stack, p, k - 1);
      if parent.Merged? then Step(parent.dirs, p[..k]) else Absent
  }

  /** What is found at a path; a directory merged from several layers shows the topmost one's entry. */
  function Lookup(stack: seq<Layer>, p: Path): Option<Entry> {
    match Walk(stack, p, |p|)
    case Absent => None
    case Leaf(e) => Some(Shown(e))
    case Merged(dirs) => if dirs != [] && p in dirs[0] then Some(Shown(dirs[0][p])) else None
  }

  // ---------------------------------------------------------------- they agree

  /** The fold at one path, layer by layer from the top. */
  function At(stack: seq<Layer>, p: Path): Option<Entry> {
    if stack == [] then None
    else if p in stack[0] then (if Whiteout(stack[0][p]) then None else Some(Shown(stack[0][p])))
    else if Covered(stack[0], p) then None
    else At(stack[1..], p)
  }

  function TopFirst(layers: seq<Layer>): (r: seq<Layer>)
    ensures |r| == |layers| && forall i :: 0 <= i < |layers| ==> r[i] == layers[|layers| - 1 - i]
  {
    seq(|layers|, i requires 0 <= i < |layers| => layers[|layers| - 1 - i])
  }

  lemma {:induction false} FoldAt(layers: seq<Layer>, p: Path)
    ensures Get(Fold(layers), p) == At(TopFirst(layers), p)
  {
    if layers != [] {
      FoldAt(layers[..|layers| - 1], p);
      assert TopFirst(layers)[1..] == TopFirst(layers[..|layers| - 1]);
    }
  }

  ghost predicate Extends(q: Path, p: Path, k: nat)
    requires k <= |p|
  {
    |q| > k && q[..k] == p[..k]
  }

  /** All but the last of the directories merged at p[..k] let the lower layers through, and each
      of them really has that directory. */
  ghost predicate OpenDown(dirs: seq<Layer>, p: Path, k: nat)
    requires k <= |p|
  {
    && AllWellFormed(dirs)
    && (forall i :: 0 <= i < |dirs| - 1 ==> Transparent(dirs[i], p, k))
  }

  ghost predicate Transparent(l: Layer, p: Path, k: nat)
    requires k <= |p|
  {
    forall j :: 0 < j <= k && p[..j] in l ==> !Hides(l[p[..j]])
  }

  lemma {:induction false} PrefixPresent(l: Layer, q: Path, k: nat)
    requires WellFormed(l) && q in l && k < |q|
    ensures q[..k] in l && l[q[..k]].Directory?
    decreases |q|
  {
    assert Housed(l, q);
    if k < |q| - 1 {
      PrefixPresent(l, q[..|q| - 1], k);
      assert q[..|q| - 1][..k] == q[..k];
    }
  }

  lemma AbsentBelow(l: Layer, q: Path, k: nat, j: nat)
    requires WellFormed(l) && 0 < k <= j <= |q| && q[..k] !in l
    ensures q[..j] !in l
  {
    if q[..j] in l && k < j {
      assert q[..j][..k] == q[..k];
      PrefixPresent(l, q[..j], k);
    }
  }

  /** Where a layer lacks the k-th name and is transparent above it, it neither has nor covers
      anything beneath. */
  lemma PassesThrough(l: Layer, p: Path, k: nat, q: Path)
    requires WellFormed(l) && 0 < k <= |p| && p[..k] !in l && Transparent(l, p, k - 1)
    requires q == p[..k] || Extends(q, p, k)
    ensures q !in l && !Covered(l, q)
  {
    assert q[..k] == p[..k] && q[..|q|] == q;
    AbsentBelow(l, q, k, |q|);
    forall j | 0 < j < |q| && q[..j] in l ensures !Hides(l[q[..j]]) {
      if j < k {
        assert q[..j] == q[..k][..j] == p[..j];
      } else {
        AbsentBelow(l, q, k, j);
      }
    }
  }

  /** One step of the kernel's lookup loses nothing of the fold: at the name itself, and at every
      path below it. */
  lemma {:induction false} StepAgrees(dirs: seq<Layer>, p: Path, k: nat, q: Path)
    requires 0 < k <= |p| && OpenDown(dirs, p, k - 1)
    requires q == p[..k] || Extends(q, p, k)
    ensures
      var f := Step(dirs, p[..k]);
      && (f.Merged? ==> OpenDown(f.dirs, p, k))
      && At(dirs, q) ==
           match f
           case Absent => None
           case Leaf(e) => if q == p[..k] then Some(Shown(e)) else None
           case Merged(ds) => if q == p[..k] then Some(Shown(ds[0][q])) else At(ds, q)
    decreases |dirs|
  {
    if dirs != [] {
      var top, rest, name := dirs[0], dirs[1..], p[..k];
      assert OpenDown(rest, p, k - 1);
      if name !in top {
        if rest != [] {
          PassesThrough(top, p, k, q);
        } else if q in top {
          PrefixPresent(top, q, k);
        }
        StepAgrees(rest, p, k, q);
      } else {
        var e := top[name];
        if q != name {
          assert q[..k] == name;
          if q in top {
            PrefixPresent(top, q, k);
          }
          assert Hides(e) ==> Covered(top, q);
        }
        if !Hides(e) {
          StepAgrees(rest, p, k, q);
          var f := Step(dirs, name);
          assert f.dirs[1..] == if Step(rest, name).Merged? then Step(rest, name).dirs else [];
          assert forall i :: 0 < i < |f.dirs| ==> f.dirs[i] == f.dirs[1..][i - 1];
          if rest != [] {
            assert Transparent(top, p, k);
          }
        }
      }
    }
  }

  lemma {:induction false} WalkAgrees(stack: seq<Layer>, p: Path, k: nat, q: Path)
    requires AllWellFormed(stack) && k <= |p|
    requires Extends(q, p, k) || (k > 0 && q == p[..k])
    ensures
      var f := Walk(stack, p, k);
      && (f.Merged? ==> OpenDown(f.dirs, p, k))
      && At(stack, q) ==
           match f
           case Absent => None
           case Leaf(e) => if q == p[..k] then Some(Shown(e)) else None
           case Merged(ds) => if q == p[..k] then Some(Shown(ds[0][q])) else At(ds, q)
    decreases k
  {
    if k > 0 {
      assert q[..k] == p[..k] && q[..k][..k - 1] == p[..k - 1];
      assert q[..k - 1] == p[..k - 1];
      WalkAgrees(stack, p, k - 1, q);
      var f := Walk(stack, p, k - 1);
      if f.Merged? {
        StepAgrees(f.dirs, p, k, q);
      }
    }
  }

  /** Looking a path up name by name from the topmost layer down, as the kernel does, finds exactly
      what laying the layers over one another from the base up leaves there. */
  lemma LookupIsFold(layers: seq<Layer>, p: Path)
    requires AllWellFormed(layers) && AllRooted(layers)
    ensures Lookup(TopFirst(layers), p) == Get(Fold(layers), p)
  {
    FoldAt(layers, p);
    assert p[..|p|] == p;
    if p != [] {
      WalkAgrees(TopFirst(layers), p, |p|, p);
    } else if layers != [] {
      assert [] in TopFirst(layers)[0] && Housed(TopFirst(layers)[0], []);
    }
  }

  // ---------------------------------------------------------------- what a layer does to those below

  /** One more layer on top: where it has an entry, that is seen without overlayfs's own attributes,
      unless it is a character device numbered 0; below an entry that is no directory, and below a
      directory marked opaque, nothing of the other layers is seen; and all the rest is as before. */
  lemma TopLayerDecides(layers: seq<Layer>, top: Layer, p: Path)
    ensures p in top && top[p].Device? && top[p].kind == CharDevice && top[p].rdev == 0 ==> p !in Fold(layers + [top])
    ensures p in top && !(top[p].Device? && top[p].kind == CharDevice && top[p].rdev == 0) ==>
              Get(Fold(layers + [top]), p) == Some(
                if top[p].Other? then top[p]
                else top[p].(xattrs := map n | n in top[p].xattrs && !("trusted.overlay." <= n) :: top[p].xattrs[n]))
    ensures p !in top && (exists k :: 0 < k < |p| && HidesBelow(top, p[..k])) ==> p !in Fold(layers + [top])
    ensures p !in top && (forall k :: 0 < k < |p| ==> !HidesBelow(top, p[..k])) ==>
              Get(Fold(layers + [top]), p) == Get(Fold(layers), p)
  {
    assert (layers + [top])[..|layers|] == layers;
    if k :| 0 < k < |p| && HidesBelow(top, p[..k]) {
      assert p[..k] in top && Hides(top[p[..k]]);
    }
  }

  predicate HidesBelow(l: Layer, p: Path) {
    p in l
      && (l[p].Directory? ==> "trusted.overlay.opaque" in l[p].xattrs && l[p].xattrs["trusted.overlay.opaque"] == "y")
  }

  /** The same of what the kernel finds: below a deletion, a file or an opaque directory of the topmost
      layer there is only what that layer has there itself. */
  lemma NothingShowsThrough(layers: seq<Layer>, top: Layer, p: Path, k: nat)
    requires AllWellFormed(layers + [top]) && AllRooted(layers + [top])
    requires 0 < k < |p| && HidesBelow(top, p[..k]) && p !in top
    ensures Lookup([top] + TopFirst(layers), p) == None
  {
    TopLayerDecides(layers, top, p);
    LookupIsFold(layers + [top], p);
    assert TopFirst(layers + [top]) == [top] + TopFirst(layers);
  }
}
