/** Path containment: `safeJoin` compares cleaned texts with trailing separators, and that is meant to
    be containment of paths. Everything here is lexical. */
module SafeJoin {
  import opened LayerText
  import opened Wrappers

  // ---------------------------------------------------------------- cleaning a path

  predicate IsAbs(path: string) { path != "" && path[0] == '/' }

  /** One component after the ones kept so far. */
  function Step(rooted: bool, kept: seq<string>, part: string): seq<string> {
    if part == "" || part == "." then kept
    else if part == ".." && kept != [] && kept[|kept| - 1] != ".." then kept[..|kept| - 1]
    else if part == ".." && rooted then kept
    else kept + [part]
  }

  function Walk(rooted: bool, kept: seq<string>, parts: seq<string>): seq<string>
    decreases |parts|
  {
    if parts == [] then kept else Walk(rooted, Step(rooted, kept, parts[0]), parts[1..])
  }

  /** The components of a path once "." and ".." are resolved, as far as they can be. */
  function Places(path: string): seq<string> { Walk(IsAbs(path), [], Split(path, '/')) }

  function Render(rooted: bool, places: seq<string>): string {
    if rooted then "/" + Join(places, '/')
    else if places == [] then "."
    else Join(places, '/')
  }

  /** filepath.Clean on a system whose separator is a slash. */
  function Clean(path: string): string { Render(IsAbs(path), Places(path)) }

  /** filepath.Join of two elements. */
  function JoinPath(a: string, b: string): string {
    if a != "" then Clean(a + "/" + b) else if b != "" then Clean(b) else ""
  }

  /** Where the name leads from the destination. */
  function Led(dest: string, name: string): seq<string> { Walk(IsAbs(dest), Places(dest), Split(name, '/')) }

  /** A path lies at another or below it. Components beyond the other's must not climb out again. */
  predicate Contained(dest: seq<string>, place: seq<string>) {
    dest <= place && (|place| > |dest| ==> place[|dest|] != "..")
  }

  /** The destination ends in a name, and not in "..". */
  predicate EndsInName(dest: string) {
    dest != "" && Places(dest) != [] && Places(dest)[|Places(dest)| - 1] != ".."
  }

  predicate Accepts(dest: string, name: string) {
    Clean(dest) + "/" <= Clean(JoinPath(dest, name)) + "/"
  }

  /** A name is accepted exactly when it leads to the destination or below it, and then the result is
      that place. Where the destination resolves to nothing, only the destination itself is accepted. */
  method SafeJoin(dest: string, name: string) returns (target: Option<string>)
    ensures EndsInName(dest) ==> (target.Some? <==> Contained(Places(dest), Led(dest, name)))
    ensures dest != "" && Places(dest) == [] ==> (target.Some? <==> Led(dest, name) == [])
    ensures dest != "" && target.Some? ==> target.value == Render(IsAbs(dest), Led(dest, name))
  {
    var joined := JoinPath(dest, name);
    var cleanDest := Clean(dest) + "/";
    if dest != "" {
      AcceptsIsPrefix(dest, name);
    }
    if EndsInName(dest) {
      AcceptsIsContainment(dest, name);
    }
    if !(cleanDest <= Clean(joined) + "/") {
      return None;
    }
    target := Some(joined);
  }

  // ---------------------------------------------------------------- what a cleaned path is

  predicate Part(part: string) { part != "" && part != "." && '/' !in part }

  predicate Plain(part: string) { Part(part) && part != ".." }

  predicate AllParts(parts: seq<string>) { forall i :: 0 <= i < |parts| ==> Part(parts[i]) }

  /** Nothing is left to resolve: ".." stands only at the front of a relative path. */
  predicate Normal(rooted: bool, places: seq<string>) {
    && AllParts(places)
    && (rooted ==> ".." !in places)
    && (forall i, j :: 0 <= i < j < |places| && places[j] == ".." ==> places[i] == "..")
  }

  lemma {:induction false} WalkIsNormal(rooted: bool, kept: seq<string>, parts: seq<string>)
    requires Normal(rooted, kept) && forall p :: p in parts ==> '/' !in p
    ensures Normal(rooted, Walk(rooted, kept, parts))
    decreases |parts|
  {
    if parts != [] {
      WalkIsNormal(rooted, Step(rooted, kept, parts[0]), parts[1..]);
    }
  }

  lemma {:induction false} WalkKeepsNormal(rooted: bool, kept: seq<string>, parts: seq<string>)
    requires Normal(rooted, kept + parts)
    ensures Walk(rooted, kept, parts) == kept + parts
    decreases |parts|
  {
    if parts != [] {
      var all := kept + parts;
      assert all[|kept|] == parts[0] && Part(parts[0]);
      assert kept != [] ==> all[|kept| - 1] == kept[|kept| - 1];
      assert (kept + [parts[0]]) + parts[1..] == all;
      WalkKeepsNormal(rooted, kept + [parts[0]], parts[1..]);
    }
  }

  lemma {:induction false} WalkInTwo(rooted: bool, kept: seq<string>, a: seq<string>, b: seq<string>)
    ensures Walk(rooted, kept, a + b) == Walk(rooted, Walk(rooted, kept, a), b)
    decreases |a|
  {
    if a == [] {
      assert a + b == b;
    } else {
      assert (a + b)[1..] == a[1..] + b;
      WalkInTwo(rooted, Step(rooted, kept, a[0]), a[1..], b);
    }
  }

  lemma JoinStarts(places: seq<string>)
    requires places != [] && AllParts(places)
    ensures Join(places, '/') != "" && Join(places, '/')[0] == places[0][0] != '/'
  {
    assert Part(places[0]);
  }

  /** The text of resolved components resolves to them. */
  lemma RenderIsFixed(rooted: bool, places: seq<string>)
    requires Normal(rooted, places)
    ensures IsAbs(Render(rooted, places)) == rooted && Places(Render(rooted, places)) == places
  {
    var rest := Join(places, '/');
    WalkKeepsNormal(rooted, [], places);
    assert [] + places == places;
    if places != [] {
      JoinStarts(places);
      SplitJoin(places, '/');
    } else {
      SplitWhole(".", '/');
      SplitWhole("", '/');
    }
    if rooted {
      SplitAtFirst("", rest, '/');
      assert "" + ['/'] + rest == Render(rooted, places);
      assert ([""] + Split(rest, '/'))[1..] == Split(rest, '/');
      assert Walk(true, [], [""] + Split(rest, '/')) == Walk(true, [], Split(rest, '/'));
    }
  }

  lemma CleanIsFixed(path: string)
    ensures Normal(IsAbs(path), Places(path)) && Places(Clean(path)) == Places(path)
        && IsAbs(Clean(path)) == IsAbs(path)
  {
    WalkIsNormal(IsAbs(path), [], Split(path, '/'));
    RenderIsFixed(IsAbs(path), Places(path));
  }

  // ---------------------------------------------------------------- prefixes of texts

  /** Every component with a separator behind it. */
  function Slashed(places: seq<string>): string {
    if places == [] then "" else places[0] + "/" + Slashed(places[1..])
  }

  lemma {:induction false} JoinSlashed(places: seq<string>)
    requires places != []
    ensures Join(places, '/') + "/" == Slashed(places)
  {
    if |places| == 1 {
      assert Slashed(places) == places[0] + "/" + Slashed([]) == places[0] + "/";
    } else {
      JoinSlashed(places[1..]);
      assert Join(places, '/') + "/" == places[0] + "/" + (Join(places[1..], '/') + "/");
    }
  }

  lemma FirstSeparator(x: string, r: string, y: string, s: string)
    requires '/' !in x && '/' !in y
    ensures x + "/" + r <= y + "/" + s <==> x == y && r <= s
  {
    var a, b := x + "/" + r, y + "/" + s;
    assert forall i :: 0 <= i < |x| ==> a[i] == x[i] != '/';
    assert forall i :: 0 <= i < |y| ==> b[i] == y[i] != '/';
    assert a[|x|] == '/' && b[|y|] == '/';
    assert r == a[|x| + 1..] && s == b[|y| + 1..];
    if a <= b {
      assert a[|x|] == b[|x|];
      assert |x| == |y|;
      assert x == a[..|x|] && y == b[..|y|];
    }
    if x == y && r <= s {
      assert b == a + s[|r|..];
    }
  }

  predicate NoSlashes(parts: seq<string>) { forall i :: 0 <= i < |parts| ==> '/' !in parts[i] }

  /** With separators behind the components, a prefix of the text is a prefix of the path. */
  lemma {:induction false} PrefixesAgree(a: seq<string>, b: seq<string>)
    requires NoSlashes(a) && NoSlashes(b)
    ensures Slashed(a) <= Slashed(b) <==> a <= b
  {
    if a != [] && b != [] {
      assert '/' !in a[0] && '/' !in b[0];
      FirstSeparator(a[0], Slashed(a[1..]), b[0], Slashed(b[1..]));
      PrefixesAgree(a[1..], b[1..]);
      assert a == [a[0]] + a[1..] && b == [b[0]] + b[1..];
    }
  }

  /** What a path without components is rendered as. */
  function Padded(rooted: bool, places: seq<string>): seq<string> {
    if places != [] then places else [if rooted then "" else "."]
  }

  lemma RenderSlashed(rooted: bool, places: seq<string>)
    ensures Render(rooted, places) + "/" == (if rooted then "/" else "") + Slashed(Padded(rooted, places))
  {
    var padded := Padded(rooted, places);
    JoinSlashed(padded);
    assert "/" + Join(places, '/') + "/" == "/" + (Join(places, '/') + "/");
    assert "" + Slashed(padded) == Slashed(padded);
  }

  lemma PaddedPrefix(rooted: bool, a: seq<string>, b: seq<string>)
    requires AllParts(a) && AllParts(b)
    ensures Padded(rooted, a) <= Padded(rooted, b) <==> if a == [] then b == [] else a <= b
  {
    assert (a != [] ==> Part(a[0])) && (b != [] ==> Part(b[0]));
  }

  lemma BehindPrefix(front: string, x: string, y: string)
    ensures front + x <= front + y <==> x <= y
  {
    assert (front + x)[|front|..] == x && (front + y)[|front|..] == y;
    if x <= y {
      assert front + y == (front + x) + y[|x|..];
    }
  }

  lemma RenderPrefix(rooted: bool, a: seq<string>, b: seq<string>)
    requires AllParts(a) && AllParts(b)
    ensures Render(rooted, a) + "/" <= Render(rooted, b) + "/" <==> if a == [] then b == [] else a <= b
  {
    hide Render, Slashed;
    RenderSlashed(rooted, a);
    RenderSlashed(rooted, b);
    var pa, pb := Padded(rooted, a), Padded(rooted, b);
    BehindPrefix(if rooted then "/" else "", Slashed(pa), Slashed(pb));
    assert NoSlashes(pa) && NoSlashes(pb) by {
      assert forall i :: 0 <= i < |a| ==> Part(a[i]);
      assert forall i :: 0 <= i < |b| ==> Part(b[i]);
    }
    PrefixesAgree(pa, pb);
    PaddedPrefix(rooted, a, b);
  }

  // ---------------------------------------------------------------- containment

  lemma ExtendedAfter(a: seq<string>, b: seq<string>, c: char)
    requires |b| >= 1
    ensures Extended(a + b, c, '/') == a + Extended(b, c, '/')
  {
    assert (a + b)[..|a + b| - 1] == a + b[..|b| - 1];
  }

  lemma {:induction false} SplitsApart(a: string, b: string)
    ensures Split(a + "/" + b, '/') == Split(a, '/') + Split(b, '/')
    decreases |b|
  {
    hide Extended;
    if b == "" {
      SplitSnoc(a, '/', '/');
      assert a + "/" + b == a + ['/'];
      ExtendedAtSeparator(Split(a, '/'), '/');
    } else {
      var init, c := b[..|b| - 1], b[|b| - 1];
      SplitsApart(a, init);
      assert a + "/" + b == (a + "/" + init) + [c];
      SplitSnoc(a + "/" + init, c, '/');
      ExtendedAfter(Split(a, '/'), Split(init, '/'), c);
    }
  }

  lemma JoinLeads(dest: string, name: string)
    requires dest != ""
    ensures Places(dest + "/" + name) == Led(dest, name) && IsAbs(dest + "/" + name) == IsAbs(dest)
  {
    SplitsApart(dest, name);
    WalkInTwo(IsAbs(dest), [], Split(dest, '/'), Split(name, '/'));
  }

  /** The text test is a test on components, for absolute and relative destinations alike. */
  lemma AcceptsIsPrefix(dest: string, name: string)
    requires dest != ""
    ensures Accepts(dest, name) <==> if Places(dest) == [] then Led(dest, name) == []
        else Places(dest) <= Led(dest, name)
    ensures JoinPath(dest, name) == Render(IsAbs(dest), Led(dest, name)) && Normal(IsAbs(dest), Led(dest, name))
  {
    hide Walk, Normal, Render;
    var joined := dest + "/" + name;
    JoinLeads(dest, name);
    CleanIsFixed(dest);
    CleanIsFixed(joined);
    CleanIsFixed(Clean(joined));
    NormalParts(IsAbs(dest), Places(dest));
    NormalParts(IsAbs(dest), Led(dest, name));
    RenderPrefix(IsAbs(dest), Places(dest), Led(dest, name));
  }

  lemma NormalParts(rooted: bool, places: seq<string>)
    requires Normal(rooted, places)
    ensures AllParts(places)
  {}

  /** A name is accepted if and only if it leads to the destination or below it, for every destination
      that ends in a name. */
  lemma AcceptsIsContainment(dest: string, name: string)
    requires EndsInName(dest)
    ensures Accepts(dest, name) <==> Contained(Places(dest), Led(dest, name))
  {
    AcceptsIsPrefix(dest, name);
    var d, t := Places(dest), Led(dest, name);
    if d <= t && |t| > |d| {
      assert t[|d| - 1] == d[|d| - 1] != "..";
    }
  }

  lemma WalkOne(rooted: bool, kept: seq<string>, part: string)
    ensures Walk(rooted, kept, [part]) == Step(rooted, kept, part)
  {
    assert [part][1..] == [];
  }

  lemma ClimbsOut(dest: string)
    requires dest != "" && Places(dest) != [] && !EndsInName(dest)
    ensures Led(dest, "..") == Places(dest) + [".."]
  {
    hide Places, Walk, Split, Clean;
    var d := Places(dest);
    CleanIsFixed(dest);
    assert d[|d| - 1] == ".." && d[|d| - 1] in d;
    SplitWhole("..", '/');
    WalkOne(IsAbs(dest), d, "..");
  }

  /** And only for those: out of a destination that ends in "..", one more ".." is accepted. */
  lemma ContainmentNeedsAName(dest: string)
    requires dest != "" && Places(dest) != []
    ensures (forall name :: Accepts(dest, name) ==> Contained(Places(dest), Led(dest, name))) <==> EndsInName(dest)
  {
    hide Accepts, Places, Led;
    if EndsInName(dest) {
      forall name | Accepts(dest, name) ensures Contained(Places(dest), Led(dest, name)) {
        AcceptsIsContainment(dest, name);
      }
    } else {
      ClimbsOut(dest);
      AcceptsIsPrefix(dest, "..");
      assert Accepts(dest, "..") && !Contained(Places(dest), Led(dest, ".."));
    }
  }

  /** The directory that an import extracts to. */
  function LayerDir(root: string, id: string): string { JoinPath(JoinPath(root, "layers"), id) }

  lemma NameComesLast(dir: string, id: string)
    requires Plain(id)
    ensures
      var path := if dir != "" then dir + "/" + id else id;
      Places(path) == (if dir != "" then Places(dir) else []) + [id]
  {
    hide Walk, Places;
    SplitWhole(id, '/');
    if dir != "" {
      JoinLeads(dir, id);
      WalkOne(IsAbs(dir), Places(dir), id);
    } else {
      assert Places(id) == Walk(IsAbs(id), [], Split(id, '/')) by { PlacesIs(id); }
      WalkOne(IsAbs(id), [], id);
    }
  }

  lemma PlacesIs(path: string)
    ensures Places(path) == Walk(IsAbs(path), [], Split(path, '/'))
  {}

  lemma OneMoreName(dir: string, id: string)
    requires Plain(id)
    ensures EndsInName(JoinPath(dir, id))
  {
    hide Walk, Places, Split;
    var path := if dir != "" then dir + "/" + id else id;
    NameComesLast(dir, id);
    CleanIsFixed(path);
    NotEmpty(IsAbs(path), Places(path));
  }

  lemma NotEmpty(rooted: bool, places: seq<string>)
    requires places != [] && Normal(rooted, places)
    ensures Render(rooted, places) != ""
  {
    JoinStarts(places);
  }

  /** Whatever the data root, absolute or relative, an archive entry is accepted by an import if and
      only if it leads to the layer's directory or below it. */
  lemma ImportsStayInside(root: string, id: string, name: string)
    requires Plain(id)
    ensures Accepts(LayerDir(root, id), name) <==> Contained(Places(LayerDir(root, id)), Led(LayerDir(root, id), name))
  {
    OneMoreName(JoinPath(root, "layers"), id);
    AcceptsIsContainment(LayerDir(root, id), name);
  }

  // ---------------------------------------------------------------- names that climb and descend

  function Ups(k: nat): (ups: seq<string>)
    ensures |ups| == k && forall i :: 0 <= i < k ==> ups[i] == ".."
  {
    if k == 0 then [] else [".."] + Ups(k - 1)
  }

  predicate AllPlain(parts: seq<string>) { forall i :: 0 <= i < |parts| ==> Plain(parts[i]) }

  lemma {:induction false} WalkUps(kept: seq<string>, k: nat)
    requires AllPlain(kept)
    ensures Walk(true, kept, Ups(k)) == kept[..if k <= |kept| then |kept| - k else 0]
    decreases k
  {
    if k > 0 {
      assert Ups(k)[1..] == Ups(k - 1);
      if kept != [] {
        assert Plain(kept[|kept| - 1]);
        WalkUps(kept[..|kept| - 1], k - 1);
      } else {
        WalkUps(kept, k - 1);
      }
    }
  }

  lemma PlainIsNormal(parts: seq<string>)
    requires AllPlain(parts)
    ensures Normal(true, parts) && forall p :: p in parts ==> '/' !in p
  {
    assert forall i :: 0 <= i < |parts| ==> Plain(parts[i]);
  }

  lemma PlacesOfDir(dir: seq<string>)
    requires AllPlain(dir)
    ensures Places("/" + Join(dir, '/')) == dir && IsAbs("/" + Join(dir, '/'))
  {
    hide Join, Places;
    PlainIsNormal(dir);
    RenderIsFixed(true, dir);
  }

  /** A name that climbs k directories and then descends, from an absolute directory: the place it leads
      to, and that it is accepted exactly if that place still has the whole directory in front. */
  lemma ClimbAndDescend(dir: seq<string>, k: nat, down: seq<string>)
    requires dir != [] && AllPlain(dir) && AllPlain(down) && Ups(k) + down != []
    ensures
      var dest, name := "/" + Join(dir, '/'), Join(Ups(k) + down, '/');
      var place := dir[..if k <= |dir| then |dir| - k else 0] + down;
      && JoinPath(dest, name) == "/" + Join(place, '/')
      && (Accepts(dest, name) <==> dir <= place)
  {
    hide Join, Places, Walk, Split, Normal, Accepts, JoinPath;
    var dest, parts := "/" + Join(dir, '/'), Ups(k) + down;
    var place := dir[..if k <= |dir| then |dir| - k else 0] + down;
    PlacesOfDir(dir);
    PlainIsNormal(down);
    SplitJoin(parts, '/');
    WalkInTwo(true, dir, Ups(k), down);
    WalkUps(dir, k);
    PlainIsNormal(place);
    WalkKeepsNormal(true, dir[..if k <= |dir| then |dir| - k else 0], down);
    AcceptsIsPrefix(dest, Join(parts, '/'));
  }

  /** Empty components and single dots change nothing, wherever they stand. */
  lemma DotsAreNothing(rooted: bool, kept: seq<string>, a: seq<string>, part: string, b: seq<string>)
    requires part == "" || part == "."
    ensures Walk(rooted, kept, a + [part] + b) == Walk(rooted, kept, a + b)
  {
    WalkInTwo(rooted, kept, a + [part], b);
    WalkInTwo(rooted, kept, a, [part]);
    WalkInTwo(rooted, kept, a, b);
    WalkOne(rooted, Walk(rooted, kept, a), part);
  }
}
