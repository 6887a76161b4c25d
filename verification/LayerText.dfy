/** The two text encodings of a layer stack and the list encoding of extended attributes:
    the image file (one id a line, base first), the overlayfs option string (topmost first),
    and the NUL-terminated names llistxattr returns. */
module LayerText {
  import opened Wrappers

  // ---------------------------------------------------------------- splitting and joining

  function Join(parts: seq<string>, sep: char): string {
    if |parts| == 0 then ""
    else if |parts| == 1 then parts[0]
    else parts[0] + [sep] + Join(parts[1..], sep)
  }

  /** The parts after one more character: a separator opens a new part. */
  function Extended(parts: seq<string>, c: char, sep: char): (r: seq<string>)
    requires |parts| >= 1
  {
    if c == sep then parts + [""]
    else parts[..|parts| - 1] + [parts[|parts| - 1] + [c]]
  }

  function Split(s: string, sep: char): (parts: seq<string>)
    ensures |parts| >= 1
    ensures forall p :: p in parts ==> sep !in p
  {
    if s == "" then [""] else Extended(Split(s[..|s| - 1], sep), s[|s| - 1], sep)
  }

  lemma SplitSnoc(s: string, c: char, sep: char)
    ensures Split(s + [c], sep) == Extended(Split(s, sep), c, sep)
  {
    assert (s + [c])[..|s|] == s;
  }

  lemma ExtendedLast(front: seq<string>, last: string, c: char, sep: char)
    requires c != sep
    ensures Extended(front + [last], c, sep) == front + [last + [c]]
  {
    assert (front + [last])[..|front|] == front;
  }

  lemma ExtendedAtSeparator(parts: seq<string>, sep: char)
    requires |parts| >= 1
    ensures Extended(parts, sep, sep) == parts + [""]
  {}

  lemma {:induction false} SplitAppend(s: string, tail: string, sep: char)
    requires sep !in tail
    ensures
      var parts := Split(s, sep);
      Split(s + tail, sep) == parts[..|parts| - 1] + [parts[|parts| - 1] + tail]
    decreases |tail|
  {
    hide Split, Extended;
    var parts := Split(s, sep);
    var front, last := parts[..|parts| - 1], parts[|parts| - 1];
    if tail == "" {
      assert s + tail == s && last + tail == last && front + [last] == parts;
    } else {
      var init, c := tail[..|tail| - 1], tail[|tail| - 1];
      SplitAppend(s, init, sep);
      assert s + tail == (s + init) + [c];
      SplitSnoc(s + init, c, sep);
      ExtendedLast(front, last + init, c, sep);
      assert last + tail == (last + init) + [c];
    }
  }

  lemma SplitWhole(s: string, sep: char)
    requires sep !in s
    ensures Split(s, sep) == [s]
  {
    SplitAppend("", s, sep);
    assert "" + s == s;
  }

  lemma ExtendedBehind(a: string, parts: seq<string>, c: char, sep: char)
    requires |parts| >= 1
    ensures Extended([a] + parts, c, sep) == [a] + Extended(parts, c, sep)
  {
    assert ([a] + parts)[..|parts|] == [a] + parts[..|parts| - 1];
  }

  lemma {:induction false} SplitAtFirst(a: string, rest: string, sep: char)
    requires sep !in a
    ensures Split(a + [sep] + rest, sep) == [a] + Split(rest, sep)
    decreases |rest|
  {
    if rest == "" {
      SplitWhole(a, sep);
      SplitSnoc(a, sep, sep);
      assert a + [sep] + rest == a + [sep];
    } else {
      var init, c := rest[..|rest| - 1], rest[|rest| - 1];
      SplitAtFirst(a, init, sep);
      assert a + [sep] + rest == (a + [sep] + init) + [c];
      SplitSnoc(a + [sep] + init, c, sep);
      ExtendedBehind(a, Split(init, sep), c, sep);
    }
  }

  lemma {:induction false} SplitJoin(parts: seq<string>, sep: char)
    requires |parts| >= 1 && forall p :: p in parts ==> sep !in p
    ensures Split(Join(parts, sep), sep) == parts
  {
    if |parts| == 1 {
      SplitWhole(parts[0], sep);
      assert parts == [parts[0]];
    } else {
      SplitJoin(parts[1..], sep);
      SplitAtFirst(parts[0], Join(parts[1..], sep), sep);
    }
  }

  lemma {:induction false} JoinAvoids(parts: seq<string>, sep: char, c: char)
    requires c != sep && forall p :: p in parts ==> c !in p
    ensures c !in Join(parts, sep)
  {
    if |parts| > 1 {
      JoinAvoids(parts[1..], sep, c);
    }
  }

  // A text cut short, with a first part that has no separator.

  lemma CutInFirst(first: string, rest: string, n: nat, sep: char)
    requires n <= |first| && sep !in first
    ensures (first + [sep] + rest)[..n] == first[..n] && Split(first[..n], sep) == [first[..n]]
  {
    assert forall i :: 0 <= i < n ==> first[..n][i] == first[i];
    SplitWhole(first[..n], sep);
  }

  lemma CutBehindFirst(first: string, rest: string, n: nat, sep: char)
    requires |first| < n <= |first| + 1 + |rest| && sep !in first
    ensures Split((first + [sep] + rest)[..n], sep) == [first] + Split(rest[..n - |first| - 1], sep)
  {
    var tail := rest[..n - |first| - 1];
    assert (first + [sep] + rest)[..n] == first + [sep] + tail;
    SplitAtFirst(first, tail, sep);
  }

  // ---------------------------------------------------------------- the overlayfs option string

  function Reversed<T>(s: seq<T>): (r: seq<T>)
    ensures |r| == |s| && forall i :: 0 <= i < |s| ==> r[i] == s[|s| - 1 - i]
  {
    seq(|s|, i requires 0 <= i < |s| => s[|s| - 1 - i])
  }

  const LOWER := "lowerdir="
  const UPPER := "upperdir="
  const WORK := "workdir="

  function OptionText(lower: seq<string>, upper: string, work: string): string {
    LOWER + Join(lower, ':') + "," + UPPER + upper + "," + WORK + work
  }

  predicate Mountable(path: string) {
    ':' !in path && ',' !in path
  }

  /** Layer paths come base first; the option string names the topmost first. */
  method OverlayOptions(layerPaths: seq<string>, upper: string, work: string) returns (r: Result<string>)
    ensures r.Err? <==> exists p :: p in layerPaths && (':' in p || ',' in p)
    ensures r.Ok? ==> r.value == OptionText(Reversed(layerPaths), upper, work)
    ensures r.Ok? ==>
              r.value == "lowerdir=" + Join(Reversed(layerPaths), ':') + ",upperdir=" + upper + ",workdir=" + work
    ensures r.Ok? && |layerPaths| == 2 ==>
        r.value == "lowerdir=" + layerPaths[1] + ":" + layerPaths[0] + ",upperdir=" + upper + ",workdir=" + work
  {
    var lower: seq<string> := [];
    var i := |layerPaths|;
    while i > 0
      invariant 0 <= i <= |layerPaths|
      invariant lower == Reversed(layerPaths)[..|layerPaths| - i]
      invariant forall k :: i <= k < |layerPaths| ==> Mountable(layerPaths[k])
    {
      i := i - 1;
      var p := layerPaths[i];
      if ':' in p || ',' in p {
        assert p in layerPaths && !Mountable(p);
        return Err("layer path contains a delimiter overlayfs cannot escape");
      }
      lower := lower + [p];
    }
    assert lower == Reversed(layerPaths);
    OptionTextIs(lower, upper, work);
    if |lower| == 2 {
      JoinTwo(lower, ':');
    }
    return Ok(OptionText(lower, upper, work));
  }

  lemma KeysBehindCommas()
    ensures "," + "upperdir=" == ",upperdir=" && "," + "workdir=" == ",workdir="
  {}

  lemma OptionTextIs(lower: seq<string>, upper: string, work: string)
    ensures OptionText(lower, upper, work)
        == "lowerdir=" + Join(lower, ':') + ",upperdir=" + upper + ",workdir=" + work
  {
    hide Join;
    KeysBehindCommas();
    Regroup("lowerdir=" + Join(lower, ':'), ",", "upperdir=", upper, "workdir=", work);
  }

  lemma JoinTwo(parts: seq<string>, sep: char)
    requires |parts| == 2
    ensures Join(parts, sep) == parts[0] + [sep] + parts[1]
  {
    assert parts[1..] == [parts[1]] && Join([parts[1]], sep) == parts[1];
  }

  lemma Regroup(a: string, comma: string, b: string, upper: string, c: string, work: string)
    ensures a + comma + b + upper + comma + c + work == a + (comma + b) + upper + (comma + c) + work
  {}

  datatype MountSpec = MountSpec(lower: seq<string>, upper: string, work: string)
  datatype Parsed = Malformed | Options(spec: MountSpec)

  predicate HasPrefix(s: string, prefix: string) {
    |prefix| <= |s| && s[..|prefix|] == prefix
  }

  /** How the option string is read back: fields end at commas, lower directories at colons, a
      later field of the same name wins and an unknown field is an error. */
  function ParseFields(fields: seq<string>, acc: MountSpec): (r: Parsed)
    decreases |fields|
  {
    if fields == [] then Options(acc)
    else
      var f := fields[0];
      if HasPrefix(f, "lowerdir=") then ParseFields(fields[1..], acc.(lower := Split(f[9..], ':')))
      else if HasPrefix(f, "upperdir=") then ParseFields(fields[1..], acc.(upper := f[9..]))
      else if HasPrefix(f, "workdir=") then ParseFields(fields[1..], acc.(work := f[8..]))
      else Malformed
  }

  function ParseOptions(text: string): Parsed {
    ParseFields(Split(text, ','), MountSpec([], "", ""))
  }

  lemma {:induction false} ParsedFieldsHaveNoComma(fields: seq<string>, acc: MountSpec)
    requires (forall f :: f in fields ==> ',' !in f) && ',' !in acc.upper && ',' !in acc.work
    ensures ParseFields(fields, acc).Options? ==>
              ',' !in ParseFields(fields, acc).spec.upper && ',' !in ParseFields(fields, acc).spec.work
    decreases |fields|
  {
    if fields != [] {
      var f := fields[0];
      assert f in fields;
      assert forall g :: g in fields[1..] ==> g in fields;
      assert forall k :: 0 <= k <= |f| ==> ',' !in f[k..];
      if HasPrefix(f, LOWER) {
        ParsedFieldsHaveNoComma(fields[1..], acc.(lower := Split(f[|LOWER|..], ':')));
      } else if HasPrefix(f, UPPER) {
        ParsedFieldsHaveNoComma(fields[1..], acc.(upper := f[|UPPER|..]));
      } else if HasPrefix(f, WORK) {
        ParsedFieldsHaveNoComma(fields[1..], acc.(work := f[|WORK|..]));
      }
    }
  }

  lemma ThreeFields(a: string, b: string, c: string)
    requires ',' !in a && ',' !in b && ',' !in c
    ensures Split(a + [','] + (b + [','] + c), ',') == [a, b, c]
  {
    SplitAtFirst(a, b + [','] + c, ',');
    SplitAtFirst(b, c, ',');
    SplitWhole(c, ',');
  }

  /** No key holds a comma, and no two of them start alike. */
  lemma Keys()
    ensures ',' !in LOWER && ',' !in UPPER && ',' !in WORK
    ensures LOWER[0] == 'l' && UPPER[0] == 'u' && WORK[0] == 'w'
  {}

  lemma Field(key: string, value: string, other: string)
    requires key != "" && other != "" && key[0] != other[0]
    ensures HasPrefix(key + value, key) && (key + value)[|key|..] == value
    ensures !HasPrefix(key + value, other)
  {
    assert (key + value)[0] == key[0];
  }

  lemma ParseThree(a: string, b: string, c: string, lower: seq<string>, upper: string, work: string)
    requires HasPrefix(a, LOWER) && HasPrefix(b, UPPER) && HasPrefix(c, WORK)
    requires !HasPrefix(b, LOWER) && !HasPrefix(c, LOWER) && !HasPrefix(c, UPPER)
    requires Split(a[|LOWER|..], ':') == lower && b[|UPPER|..] == upper && c[|WORK|..] == work
    ensures ParseFields([a, b, c], MountSpec([], "", "")) == Options(MountSpec(lower, upper, work))
  {
    assert [a, b, c][1..] == [b, c] && [b, c][1..] == [c] && [c][1..] == [];
    var s0, s1, s2, s3 := MountSpec([], "", ""), MountSpec(lower, "", ""), MountSpec(lower, upper, ""),
      MountSpec(lower, upper, work);
    assert ParseFields([], s3) == Options(s3);
    assert ParseFields([c], s2) == ParseFields([], s3);
    assert ParseFields([b, c], s1) == ParseFields([c], s2);
    assert ParseFields([a, b, c], s0) == ParseFields([b, c], s1);
  }

  /** The option string gives back the stack, topmost first, with its upper and work directories,
      exactly when those two, which the source does not inspect, are free of commas. */
  lemma OptionsRoundTrip(layerPaths: seq<string>, upper: string, work: string)
    requires |layerPaths| >= 1 && forall p :: p in layerPaths ==> Mountable(p)
    ensures ParseOptions(OptionText(Reversed(layerPaths), upper, work))
              == Options(MountSpec(Reversed(layerPaths), upper, work))
            <==> ',' !in upper && ',' !in work
  {
    var lower := Reversed(layerPaths);
    if ',' !in upper && ',' !in work {
      assert forall p :: p in lower ==> p in layerPaths;
      var a, b, c := LOWER + Join(lower, ':'), UPPER + upper, WORK + work;
      Keys();
      JoinAvoids(lower, ':', ',');
      ThreeFields(a, b, c);
      assert OptionText(lower, upper, work) == a + [','] + (b + [','] + c);
      Field(LOWER, Join(lower, ':'), UPPER);
      Field(UPPER, upper, LOWER);
      Field(WORK, work, LOWER);
      Field(WORK, work, UPPER);
      SplitJoin(lower, ':');
      ParseThree(a, b, c, lower, upper, work);
    } else {
      ParsedFieldsHaveNoComma(Split(OptionText(lower, upper, work), ','), MountSpec([], "", ""));
    }
  }

  // ---------------------------------------------------------------- what mount(2) reads of it

  /** Length in UTF-8 bytes. */
  function ByteLength(s: string): nat {
    if s == "" then 0
    else (if s[0] < '\U{80}' then 1 else if s[0] < '\U{800}' then 2 else if s[0] < '\U{10000}' then 3 else 4)
         + ByteLength(s[1..])
  }

  /** For plain text that is its length. */
  lemma {:induction false} AsciiIsOneByte(s: string)
    requires forall i :: 0 <= i < |s| ==> s[i] < '\U{80}'
    ensures ByteLength(s) == |s|
  {
    if s != "" {
      AsciiIsOneByte(s[1..]);
    }
  }

  /** One page, less the terminating NUL. */
  const MAX_OPTIONS: nat := 4095

  lemma {:induction false} LongerByOne(s: string)
    requires s != ""
    ensures ByteLength(s[..|s| - 1]) < ByteLength(s)
  {
    if |s| > 1 {
      LongerByOne(s[1..]);
      assert s[1..][..|s| - 2] == s[..|s| - 1][1..];
    }
  }

  /** The kernel copies one page of the options and drops the rest. */
  function Page(text: string): (page: string)
    ensures page <= text && ByteLength(page) <= MAX_OPTIONS
    ensures page == text <==> ByteLength(text) <= MAX_OPTIONS
    decreases |text|
  {
    if ByteLength(text) <= MAX_OPTIONS then text else Page(text[..|text| - 1])
  }

  /** A joined text cut short ends in a part that was cut, or in a whole part that is not the last. */
  lemma {:induction false} CutJoin(parts: seq<string>, sep: char, n: nat) returns (k: nat, part: string)
    requires parts != [] && n < |Join(parts, sep)| && forall p :: p in parts ==> sep !in p
    ensures k < |parts| && part <= parts[k] && Split(Join(parts, sep)[..n], sep) == parts[..k] + [part]
    ensures k == |parts| - 1 ==> part != parts[k]
  {
    hide Split;
    var first, rest := parts[0], parts[1..];
    assert first in parts && forall p :: p in rest ==> p in parts;
    if |parts| == 1 || n <= |first| {
      k, part := 0, first[..n];
      CutInFirst(first, if |parts| == 1 then "" else Join(rest, sep), n, sep);
      assert Join(parts, sep)[..n] == part && parts[..0] + [part] == [part];
    } else {
      var j: nat;
      j, part := CutJoin(rest, sep, n - |first| - 1);
      k := j + 1;
      CutBehindFirst(first, Join(rest, sep), n, sep);
      assert [first] + (rest[..j] + [part]) == parts[..k] + [part];
    }
  }

  lemma {:induction false} WorkUntouched(fields: seq<string>, acc: MountSpec)
    requires forall f :: f in fields ==> !HasPrefix(f, WORK)
    ensures ParseFields(fields, acc).Options? ==> ParseFields(fields, acc).spec.work == acc.work
    decreases |fields|
  {
    if fields != [] {
      var f := fields[0];
      assert f in fields && forall g :: g in fields[1..] ==> g in fields;
      if HasPrefix(f, LOWER) {
        WorkUntouched(fields[1..], acc.(lower := Split(f[|LOWER|..], ':')));
      } else if HasPrefix(f, UPPER) {
        WorkUntouched(fields[1..], acc.(upper := f[|UPPER|..]));
      }
    }
  }

  lemma {:induction false} WorkFromLast(front: seq<string>, last: string, acc: MountSpec)
    requires last == "" || last[0] == 'w'
    ensures
      var r := ParseFields(front + [last], acc);
      r.Options? ==> HasPrefix(last, WORK) && r.spec.work == last[|WORK|..]
    decreases |front|
  {
    Keys();
    if front == [] {
      assert ([] + [last])[1..] == [];
    } else {
      var f := front[0];
      assert (front + [last])[1..] == front[1..] + [last];
      if HasPrefix(f, LOWER) {
        WorkFromLast(front[1..], last, acc.(lower := Split(f[|LOWER|..], ':')));
      } else if HasPrefix(f, UPPER) {
        WorkFromLast(front[1..], last, acc.(upper := f[|UPPER|..]));
      } else if HasPrefix(f, WORK) {
        WorkFromLast(front[1..], last, acc.(work := f[|WORK|..]));
      }
    }
  }

  /** Of a text whose end is missing, the work directory is not read back. */
  lemma CutOptionsLoseWork(lower: string, upper: string, work: string, n: nat)
    requires work != "" && ',' !in lower && ',' !in upper && ',' !in work
    requires n < |Join([LOWER + lower, UPPER + upper, WORK + work], ',')|
    ensures
      var r := ParseOptions(Join([LOWER + lower, UPPER + upper, WORK + work], ',')[..n]);
      r.Options? ==> r.spec.work != work
  {
    hide Join, Split, ParseFields;
    Keys();
    var parts := [LOWER + lower, UPPER + upper, WORK + work];
    assert (LOWER + lower)[0] == 'l' && (UPPER + upper)[0] == 'u' && (WORK + work)[0] == 'w';
    var k, part := CutJoin(parts, ',', n);
    var init := MountSpec([], "", "");
    if k < 2 {
      forall f | f in parts[..k] + [part] ensures !HasPrefix(f, WORK) {
        assert f == part || f == parts[0];
      }
      WorkUntouched(parts[..k] + [part], init);
    } else {
      WorkFromLast(parts[..k], part, init);
      assert (WORK + work)[|WORK|..] == work;
      assert |part| < |WORK + work|;
    }
  }

  lemma OptionTextJoined(lower: seq<string>, upper: string, work: string)
    ensures OptionText(lower, upper, work) == Join([LOWER + Join(lower, ':'), UPPER + upper, WORK + work], ',')
  {
    var a, b, c := LOWER + Join(lower, ':'), UPPER + upper, WORK + work;
    assert [a, b, c][1..] == [b, c] && [b, c][1..] == [c];
    assert Join([b, c], ',') == b + [','] + c;
    assert OptionText(lower, upper, work) == a + [','] + (b + [','] + c);
  }

  /** What the kernel reads back is the stack exactly when upper and work are free of commas and the
      whole text fits its page. */
  lemma PageRoundTrip(layerPaths: seq<string>, upper: string, work: string)
    requires |layerPaths| >= 1 && work != "" && forall p :: p in layerPaths ==> Mountable(p)
    ensures
      var text := OptionText(Reversed(layerPaths), upper, work);
      ParseOptions(Page(text)) == Options(MountSpec(Reversed(layerPaths), upper, work))
      <==> ',' !in upper && ',' !in work && ByteLength(text) <= 4095
  {
    hide OptionText, Join, Split, ParseFields;
    var lower := Reversed(layerPaths);
    var text := OptionText(lower, upper, work);
    OptionsRoundTrip(layerPaths, upper, work);
    if ',' in upper || ',' in work {
      ParsedFieldsHaveNoComma(Split(Page(text), ','), MountSpec([], "", ""));
    } else if ByteLength(text) > MAX_OPTIONS {
      assert forall p :: p in lower ==> p in layerPaths;
      JoinAvoids(lower, ':', ',');
      OptionTextJoined(lower, upper, work);
      assert Page(text) == text[..|Page(text)|];
      CutOptionsLoseWork(Join(lower, ':'), upper, work, |Page(text)|);
    }
  }

  // ---------------------------------------------------------------- the image file

  const MAX_LINE: nat := 65536

  function ImageText(layers: seq<string>): string {
    Join(layers, '\n') + "\n"
  }

  /** The lines of a file: what follows the last newline is a line only if it is not empty. */
  function Lines(text: string): seq<string> {
    var parts := Split(text, '\n');
    if parts[|parts| - 1] == "" then parts[..|parts| - 1] else parts
  }

  function DropCR(line: string): string {
    if line != "" && line[|line| - 1] == '\r' then line[..|line| - 1] else line
  }

  datatype Listing = Listing(layers: seq<string>, tooLong: bool)

  /** The layers a file's lines stand for: trimmed, blanks and comments skipped, and cut off at a
      line the scanner cannot hold. */
  function ReadLayers(lines: seq<string>): Listing {
    if lines == [] then Listing([], false)
    else
      var before, line := ReadLayers(lines[..|lines| - 1]), lines[|lines| - 1];
      if before.tooLong then before
      else if ByteLength(line) >= MAX_LINE then Listing(before.layers, true)
      else
        var l := TrimSpace(DropCR(line));
        if l != "" && l[0] != '#' then Listing(before.layers + [l], false) else before
  }

  method ImageLayers(text: string) returns (r: Listing)
    ensures r == ReadLayers(Lines(text))
  {
    var lines := Lines(text);
    var layers: seq<string> := [];
    for i := 0 to |lines|
      invariant ReadLayers(lines[..i]) == Listing(layers, false)
    {
      assert lines[..i + 1][..i] == lines[..i];
      if ByteLength(lines[i]) >= MAX_LINE {
        StaysTooLong(lines, i + 1);
        return Listing(layers, true);
      }
      var l := TrimSpace(DropCR(lines[i]));
      if l != "" && l[0] != '#' {
        layers := layers + [l];
      }
    }
    assert lines[..|lines|] == lines;
    return Listing(layers, false);
  }

  lemma {:induction false} StaysTooLong(lines: seq<string>, i: nat)
    requires i <= |lines| && ReadLayers(lines[..i]).tooLong
    ensures ReadLayers(lines) == ReadLayers(lines[..i])
    decreases |lines| - i
  {
    if i < |lines| {
      assert lines[..i + 1][..i] == lines[..i];
      StaysTooLong(lines, i + 1);
    } else {
      assert lines[..i] == lines;
    }
  }

  /** What a layer id must look like to survive the image file. */
  predicate PlainId(id: string) {
    && id != "" && id[0] != '#' && !IsSpace(id[0]) && !IsSpace(id[|id| - 1])
    && '\n' !in id && ByteLength(id) < 65536
  }

  lemma ImageTextLines(layers: seq<string>)
    requires forall l :: l in layers ==> '\n' !in l
    ensures Lines(ImageText(layers)) == if layers == [] then [""] else layers
  {
    if layers == [] {
      assert ImageText(layers) == "" + ['\n'] + "";
      SplitAtFirst("", "", '\n');
    } else {
      assert Join(layers, '\n') + "\n" == Join(layers, '\n') + ['\n'];
      SplitSnoc(Join(layers, '\n'), '\n', '\n');
      SplitJoin(layers, '\n');
    }
  }

  lemma {:induction false} ReadPlain(lines: seq<string>)
    requires forall l :: l in lines ==> '\n' !in l && PlainId(l)
    ensures ReadLayers(lines) == Listing(lines, false)
  {
    if lines != [] {
      var init, last := lines[..|lines| - 1], lines[|lines| - 1];
      ReadPlain(init);
      assert PlainId(last) && IsSpace('\r');
      assert DropCR(last) == last && TrimSpace(last) == last;
      assert init + [last] == lines;
    }
  }

  /** Recording a stack and reading it back gives the same stack exactly when every id is plain. */
  lemma ImageRoundTrip(layers: seq<string>)
    ensures ReadLayers(Lines(ImageText(layers))) == Listing(layers, false)
            <==> forall l :: l in layers ==> PlainId(l)
  {
    if forall l :: l in layers ==> PlainId(l) {
      ImageTextLines(layers);
      if layers == [] {
        assert ReadLayers([""][..0]) == Listing([], false);
      } else {
        ReadPlain(layers);
      }
    } else if ReadLayers(Lines(ImageText(layers))) == Listing(layers, false) {
      var lines := Lines(ImageText(layers));
      ReadLayersAreClean(lines);
      ImageTextLines(layers);
      ReadLinesFit(lines);
      assert false;
    }
  }

  lemma {:induction false} ReadLayersAreClean(lines: seq<string>)
    requires forall l :: l in lines ==> '\n' !in l
    ensures forall l :: l in ReadLayers(lines).layers ==>
              l != "" && l[0] != '#' && !IsSpace(l[0]) && !IsSpace(l[|l| - 1]) && '\n' !in l
  {
    if lines != [] {
      ReadLayersAreClean(lines[..|lines| - 1]);
      var l := TrimSpace(DropCR(lines[|lines| - 1]));
      assert '\n' !in lines[|lines| - 1] && '\n' !in l;
    }
  }

  lemma {:induction false} ReadLinesFit(lines: seq<string>)
    requires !ReadLayers(lines).tooLong
    ensures forall l :: l in lines ==> ByteLength(l) < MAX_LINE
  {
    if lines != [] {
      ReadLinesFit(lines[..|lines| - 1]);
      assert lines == lines[..|lines| - 1] + [lines[|lines| - 1]];
    }
  }

  lemma TrimmedLine(a: string, id: string, b: string)
    requires Blank(a) && Blank(b) && (id != "" ==> !IsSpace(id[0]) && !IsSpace(id[|id| - 1]))
    ensures TrimSpace(DropCR(a + id + b)) == id
  {
    hide TrimSpace;
    var line := a + id + b;
    TrimOf(a, id, b);
    assert IsSpace('\r');
    if b != "" {
      assert line[..|line| - 1] == a + id + b[..|b| - 1];
      TrimOf(a, id, b[..|b| - 1]);
    } else if id == "" && a != "" {
      assert line[..|line| - 1] == a[..|a| - 1] + id + b;
      TrimOf(a[..|a| - 1], id, b);
    } else if id != "" {
      assert line[|line| - 1] == id[|id| - 1];
    }
  }

  /** White space around an id does not matter; blank lines and comments stand for nothing; and a line of
      65536 bytes ends the reading. */
  lemma LineIsRead(lines: seq<string>, a: string, id: string, b: string)
    requires !ReadLayers(lines).tooLong && Blank(a) && Blank(b)
    requires id != "" ==> !IsSpace(id[0]) && !IsSpace(id[|id| - 1])
    ensures ReadLayers(lines + [a + id + b]) ==
        if ByteLength(a + id + b) >= 65536 then Listing(ReadLayers(lines).layers, true)
        else if id == "" || id[0] == '#' then ReadLayers(lines)
        else Listing(ReadLayers(lines).layers + [id], false)
  {
    hide DropCR, TrimSpace, ByteLength, Blank;
    assert (lines + [a + id + b])[..|lines|] == lines;
    TrimmedLine(a, id, b);
  }

  // ---------------------------------------------------------------- an image file cut short

  /** Every id with a newline behind it. */
  function Lined(layers: seq<string>): string {
    if layers == [] then "" else layers[0] + "\n" + Lined(layers[1..])
  }

  lemma {:induction false} ImageTextLined(layers: seq<string>)
    requires layers != []
    ensures ImageText(layers) == Lined(layers)
  {
    if |layers| > 1 {
      ImageTextLined(layers[1..]);
      assert ImageText(layers) == layers[0] + "\n" + ImageText(layers[1..]);
    } else {
      assert Lined(layers) == layers[0] + "\n" + Lined([]) == layers[0] + "\n";
    }
  }

  /** What is left of an id that was being written. */
  predicate Fragment(layers: seq<string>, k: nat, part: string) {
    k <= |layers| && if k < |layers| then part <= layers[k] else part == ""
  }

  lemma {:induction false} CutLines(layers: seq<string>, n: nat) returns (k: nat, part: string)
    requires n <= |Lined(layers)| && forall l :: l in layers ==> '\n' !in l
    ensures Fragment(layers, k, part) && Split(Lined(layers)[..n], '\n') == layers[..k] + [part]
  {
    hide Split;
    if layers == [] {
      k, part := 0, "";
      CutInFirst("", "", 0, '\n');
      assert Lined(layers)[..n] == ""[..0] == "" && layers[..0] + [""] == [""];
    } else {
      var first, rest := layers[0], layers[1..];
      assert first in layers && forall l :: l in rest ==> l in layers;
      if n <= |first| {
        k, part := 0, first[..n];
        CutInFirst(first, Lined(rest), n, '\n');
        assert layers[..0] + [part] == [part];
      } else {
        var j: nat;
        j, part := CutLines(rest, n - |first| - 1);
        k := j + 1;
        CutBehindFirst(first, Lined(rest), n, '\n');
        assert [first] + (rest[..j] + [part]) == layers[..k] + [part];
      }
    }
  }

  lemma {:induction false} TrimKeepsFront(s: string)
    requires s != "" && !IsSpace(s[0])
    ensures TrimSpace(s) != "" && TrimSpace(s) <= s
    decreases |s|
  {
    if IsSpace(s[|s| - 1]) {
      assert |s| > 1;
      TrimKeepsFront(s[..|s| - 1]);
    }
  }

  lemma {:induction false} PrefixIsShorter(part: string, whole: string)
    requires part <= whole
    ensures ByteLength(part) <= ByteLength(whole)
    decreases |part|
  {
    if part != "" {
      PrefixIsShorter(part[1..], whole[1..]);
    }
  }

  lemma FragmentRead(part: string, id: string)
    requires PlainId(id) && part <= id && part != ""
    ensures var l := TrimSpace(DropCR(part)); ByteLength(part) < MAX_LINE && l != "" && l[0] != '#' && l <= id
  {
    assert part[0] == id[0] && IsSpace('\r');
    PrefixIsShorter(part, id);
    TrimKeepsFront(DropCR(part));
  }

  /** A stack, or a stack whose last id lost its end. */
  predicate ShorterStack(read: seq<string>, layers: seq<string>) {
    || (|read| <= |layers| && read == layers[..|read|])
    || (0 < |read| <= |layers| && read[..|read| - 1] == layers[..|read| - 1]
        && read[|read| - 1] != "" && read[|read| - 1] <= layers[|read| - 1])
  }

  /** An image file whose writing was cut off anywhere is read without an error, as a shorter stack;
      the last id of it may have lost its end. */
  lemma CutImageReadsShorter(layers: seq<string>, n: nat)
    requires layers != [] && (forall l :: l in layers ==> PlainId(l)) && n <= |ImageText(layers)|
    ensures
      var r := ReadLayers(Lines(ImageText(layers)[..n]));
      !r.tooLong && ShorterStack(r.layers, layers)
  {
    ImageTextLined(layers);
    var k, part := CutLines(layers, n);
    var whole := layers[..k];
    assert forall l :: l in whole ==> l in layers;
    ReadPlain(whole);
    assert (whole + [part])[..k] == whole;
    if part != "" {
      assert layers[k] in layers;
      FragmentRead(part, layers[k]);
      assert (whole + [TrimSpace(DropCR(part))])[..k] == whole;
    }
  }

  // ---------------------------------------------------------------- NUL-terminated names

  function NonEmpty(parts: seq<string>): seq<string> {
    if parts == [] then []
    else
      var rest := NonEmpty(parts[..|parts| - 1]);
      if parts[|parts| - 1] == "" then rest else rest + [parts[|parts| - 1]]
  }

  /** The terminated, non-empty names in a buffer. */
  function Names(b: string): seq<string> {
    var parts := Split(b, '\0');
    NonEmpty(parts[..|parts| - 1])
  }

  lemma NonEmptySnoc(parts: seq<string>, part: string)
    ensures NonEmpty(parts + [part]) == NonEmpty(parts) + if part == "" then [] else [part]
  {
    assert (parts + [part])[..|parts|] == parts;
  }

  /** One more byte either ends the open name or lengthens it. */
  lemma NameStep(b: string, i: nat, start: nat, closed: seq<string>)
    requires start <= i < |b| && Split(b[..i], '\0') == closed + [b[start..i]]
    ensures Split(b[..i + 1], '\0') ==
              if b[i] == '\0' then closed + [b[start..i]] + [b[i + 1..i + 1]] else closed + [b[start..i + 1]]
  {
    hide Split, Extended;
    assert b[..i + 1] == b[..i] + [b[i]];
    SplitSnoc(b[..i], b[i], '\0');
    assert b[start..i + 1] == b[start..i] + [b[i]] && b[i + 1..i + 1] == "";
    if b[i] == '\0' {
      ExtendedAtSeparator(closed + [b[start..i]], '\0');
    } else {
      ExtendedLast(closed, b[start..i], b[i], '\0');
    }
  }

  lemma NoNames()
    ensures Split("", '\0') == [""] && NonEmpty([]) == []
  {}

  method SplitNullTerminated(b: string) returns (out: seq<string>)
    ensures out == Names(b)
  {
    hide Split, NonEmpty;
    NoNames();
    out := [];
    var start := 0;
    ghost var closed: seq<string> := [];
    assert b[..0] == "" == b[0..0] && closed + [""] == [""];
    for i := 0 to |b|
      invariant 0 <= start <= i && out == NonEmpty(closed)
      invariant Split(b[..i], '\0') == closed + [b[start..i]]
    {
      NameStep(b, i, start, closed);
      if b[i] == '\0' {
        NonEmptySnoc(closed, b[start..i]);
        closed := closed + [b[start..i]];
        if i > start {
          out := out + [b[start..i]];
        }
        start := i + 1;
      }
    }
    assert b[..|b|] == b;
    assert (closed + [b[start..]])[..|closed|] == closed;
  }

  function Terminated(names: seq<string>): string {
    if names == [] then "" else Terminated(names[..|names| - 1]) + names[|names| - 1] + ['\0']
  }

  lemma {:induction false} SplitTerminated(names: seq<string>)
    requires forall n :: n in names ==> '\0' !in n
    ensures Split(Terminated(names), '\0') == names + [""]
  {
    hide Split, Extended;
    if names == [] {
      NoNames();
      assert [] + [""] == [""];
    } else {
      var init, last := names[..|names| - 1], names[|names| - 1];
      SplitTerminated(init);
      SplitAppend(Terminated(init), last, '\0');
      assert (init + [""])[..|init|] == init && "" + last == last && init + [last] == names;
      SplitSnoc(Terminated(init) + last, '\0', '\0');
      ExtendedAtSeparator(names, '\0');
    }
  }

  lemma {:induction false} NonEmptyKeeps(names: seq<string>)
    requires "" !in names
    ensures NonEmpty(names) == names
  {
    if names != [] {
      NonEmptyKeeps(names[..|names| - 1]);
      assert names[|names| - 1] in names;
    }
  }

  /** The attribute names the kernel lists come back as listed; a cut-off tail is ignored. */
  lemma NamesRoundTrip(names: seq<string>, tail: string)
    requires "" !in names && forall n :: n in names ==> '\0' !in n
    requires '\0' !in tail
    ensures Names(Terminated(names) + tail) == names
  {
    SplitTerminated(names);
    SplitAppend(Terminated(names), tail, '\0');
    assert (names + [""])[..|names|] == names;
    assert (names + [tail])[..|names|] == names;
    assert "" + tail == tail;
    NonEmptyKeeps(names);
  }
}
