/** Capability reduction: what `DropCapabilities` does to the five sets of a thread, and what any later
    program can make of them. The kernel follows capabilities(7), within one user namespace. */
module Capabilities {
  import opened Wrappers

  type Cap = nat

  const CAP_SETPCAP: Cap := 8

  /** effective, permitted, inheritable, bounding, ambient. */
  datatype Sets = Sets(eff: set<Cap>, per: set<Cap>, inh: set<Cap>, bnd: set<Cap>, amb: set<Cap>)

  predicate Within(s: Sets, keep: set<Cap>) {
    s.eff <= keep && s.per <= keep && s.inh <= keep && s.bnd <= keep && s.amb <= keep
  }

  // ---------------------------------------------------------------- the kernel

  datatype Errno = Success | EPERM | EINVAL

  function Valid(caps: set<Cap>, max: Cap): set<Cap> { set c | c in caps && c <= max }

  /** PR_CAPBSET_DROP. Without CAP_SETPCAP it is EPERM, whatever the bounding set holds. */
  function DropBounding(s: Sets, max: Cap, c: Cap): (Sets, Errno) {
    if CAP_SETPCAP !in s.eff then (s, EPERM)
    else if c > max then (s, EINVAL)
    else (s.(bnd := s.bnd - {c}), Success)
  }

  predicate MayCapset(s: Sets, eff: set<Cap>, per: set<Cap>, inh: set<Cap>) {
    && (CAP_SETPCAP in s.eff || inh <= s.inh + s.per)
    && inh <= s.inh + s.bnd && per <= s.per && eff <= per
  }

  function Capset(s: Sets, eff: set<Cap>, per: set<Cap>, inh: set<Cap>): (Sets, Errno) {
    if MayCapset(s, eff, per, inh) then (Sets(eff, per, inh, s.bnd, s.amb * (per * inh)), Success) else (s, EPERM)
  }

  function RaiseAmbient(s: Sets, max: Cap, c: Cap): (Sets, Errno) {
    if c > max then (s, EINVAL)
    else if c !in s.per || c !in s.inh then (s, EPERM)
    else (s.(amb := s.amb + {c}), Success)
  }

  /** A file's capability sets, and whether executing it counts as privileged. For a root user the
      kernel takes them to be full. */
  datatype File = File(per: set<Cap>, inh: set<Cap>, eff: bool, privileged: bool)

  function Execve(s: Sets, f: File): Sets {
    var amb := if f.privileged then {} else s.amb;
    var per := (s.inh * f.inh) + (f.per * s.bnd) + amb;
    Sets(if f.eff then per else amb, per, s.inh, s.bnd, amb)
  }

  /** What a thread can do to its sets from here on. Changes of uid clear sets, or set effective to
      permitted. */
  datatype Action =
    | Exec(f: File) | SetCaps(eff: set<Cap>, per: set<Cap>, inh: set<Cap>) | DropOne(c: Cap)
    | Raise(c: Cap) | Lower(c: Cap) | ClearAmbient | ChangeIds(eff: set<Cap>, per: set<Cap>, amb: set<Cap>)

  function Do(s: Sets, max: Cap, act: Action): Sets {
    match act
    case Exec(f) => Execve(s, f)
    case SetCaps(eff, per, inh) => Capset(s, eff, per, inh).0
    case DropOne(c) => DropBounding(s, max, c).0
    case Raise(c) => RaiseAmbient(s, max, c).0
    case Lower(c) => s.(amb := s.amb - {c})
    case ClearAmbient => s.(amb := {})
    case ChangeIds(eff, per, amb) =>
      if eff <= per <= s.per && amb <= s.amb then s.(eff := eff, per := per, amb := amb) else s
  }

  function After(s: Sets, max: Cap, acts: seq<Action>): Sets
    decreases |acts|
  {
    if acts == [] then s else After(Do(s, max, acts[0]), max, acts[1..])
  }

  /** The ceiling: what lies within `keep` stays there, whatever is executed and whatever is asked of
      the kernel. */
  lemma {:induction false} CeilingHolds(s: Sets, max: Cap, acts: seq<Action>, keep: set<Cap>)
    requires Within(s, keep)
    ensures Within(After(s, max, acts), keep)
    decreases |acts|
  {
    if acts != [] {
      CeilingHolds(Do(s, max, acts[0]), max, acts[1..], keep);
    }
  }

  /** The bounding set is what makes it a ceiling: of a thread whose other sets lie within `keep`, no
      program gets more if and only if the bounding set does too. */
  lemma BoundingIsTheCeiling(s: Sets, max: Cap, keep: set<Cap>)
    requires s.eff <= keep && s.per <= keep && s.inh <= keep && s.amb <= keep
    ensures (forall acts :: After(s, max, acts).per <= keep) <==> s.bnd <= keep
  {
    if s.bnd <= keep {
      forall acts ensures After(s, max, acts).per <= keep {
        CeilingHolds(s, max, acts, keep);
      }
    } else {
      var rootFile := File(s.bnd, {}, true, true);
      var acts := [Exec(rootFile)];
      assert acts[1..] == [];
      assert After(s, max, acts) == Execve(s, rootFile);
      assert s.bnd <= After(s, max, acts).per;
    }
  }

  // ---------------------------------------------------------------- two 32-bit words

  predicate Bit(word: nat, k: nat) {
    if k == 0 then word % 2 == 1 else Bit(word / 2, k - 1)
  }

  /** word | 1 << k */
  function OrBit(word: nat, k: nat): nat {
    if k == 0 then (if word % 2 == 1 then word else word + 1) else word % 2 + 2 * OrBit(word / 2, k - 1)
  }

  lemma {:induction false} OrBitSetsOne(word: nat, k: nat, j: nat)
    ensures Bit(OrBit(word, k), j) <==> j == k || Bit(word, j)
  {
    if k > 0 {
      var rest := OrBit(word / 2, k - 1);
      assert (word % 2 + 2 * rest) / 2 == rest;
      if j > 0 {
        OrBitSetsOne(word / 2, k - 1, j - 1);
      }
    }
  }

  /** The word keeps its width. */
  lemma {:induction false} OrBitFits(word: nat, k: nat, width: nat)
    requires word < Pow2(width) && k < width
    ensures OrBit(word, k) < Pow2(width)
  {
    var half := Pow2(width - 1);
    assert Pow2(width) == 2 * half && word / 2 < half;
    if k > 0 {
      OrBitFits(word / 2, k - 1, width - 1);
      var rest := OrBit(word / 2, k - 1);
      assert rest < half && OrBit(word, k) == word % 2 + 2 * rest;
    } else {
      assert word % 2 != 1 ==> word == 2 * (word / 2);
    }
  }

  lemma {:induction false} ZeroHasNoBits(k: nat)
    ensures !Bit(0, k)
  {
    if k > 0 {
      ZeroHasNoBits(k - 1);
    }
  }

  /** The k-th bit is the one of 1 << k. */
  lemma {:induction false} BitOfPower(j: nat, k: nat)
    ensures Bit(Pow2(j), k) <==> j == k
  {
    if j > 0 && k > 0 {
      BitOfPower(j - 1, k - 1);
    } else if k > 0 {
      ZeroHasNoBits(k - 1);
    }
  }

  type Words = s: seq<nat> | |s| == 2 witness [0, 0]

  /** What the kernel reads out of the two words. */
  function Decoded(words: Words): set<Cap> {
    set c | 0 <= c < 64 && Bit(words[c / 32], c % 32)
  }

  predicate Fits(words: Words) { words[0] < Pow2(32) && words[1] < Pow2(32) }

  lemma OneMoreBit(words: Words, c: Cap)
    requires c < 64 && Fits(words)
    ensures
      var more := words[c / 32 := OrBit(words[c / 32], c % 32)];
      Fits(more) && Decoded(more) == Decoded(words) + {c}
  {
    hide OrBit, Bit, Pow2;
    var more := words[c / 32 := OrBit(words[c / 32], c % 32)];
    OrBitFits(words[c / 32], c % 32, 32);
    forall d: nat | d < 64 ensures d in Decoded(more) <==> d == c || d in Decoded(words) {
      OrBitSetsOne(words[c / 32], c % 32, d % 32);
      assert d / 32 == c / 32 && d % 32 == c % 32 ==> d == c;
    }
  }

  lemma NoBits()
    ensures Fits([0, 0]) && Decoded([0, 0]) == {}
  {
    forall c: nat | c < 64 ensures !Bit([0, 0][c / 32], c % 32) { ZeroHasNoBits(c % 32); }
  }

  /** Every capability number below 64 goes to one bit of the two words, and decodes to itself. */
  method Encode(wanted: set<Cap>) returns (mask: Words)
    requires forall c :: c in wanted ==> c < 64
    ensures Decoded(mask) == wanted && Fits(mask)
    ensures forall c: nat :: c < 32 ==> (c in wanted <==> Bit(mask[0], c))
    ensures forall c: nat :: 32 <= c < 64 ==> (c in wanted <==> Bit(mask[1], c - 32))
  {
    hide Decoded, Fits, OrBit;
    mask := [0, 0];
    NoBits();
    var todo := wanted;
    while todo != {}
      invariant todo <= wanted && Decoded(mask) == wanted - todo && Fits(mask)
    {
      var c :| c in todo;
      OneMoreBit(mask, c);
      mask := mask[c / 32 := OrBit(mask[c / 32], c % 32)];
      todo := todo - {c};
    }
    WhereBitsAre(mask);
  }

  lemma WhereBitsAre(words: Words)
    ensures forall c: nat :: c < 32 ==> (c in Decoded(words) <==> Bit(words[0], c))
    ensures forall c: nat :: 32 <= c < 64 ==> (c in Decoded(words) <==> Bit(words[1], c - 32))
  {
    hide Bit;
    forall c: nat | c < 64 ensures c in Decoded(words) <==> Bit(words[c / 32], c % 32) {}
  }

  // ---------------------------------------------------------------- names

  function Upper(c: char): char { if 'a' <= c <= 'z' then c - 'a' + 'A' else c }

  function ToUpper(s: string): (r: string)
    ensures |r| == |s| && forall i :: 0 <= i < |s| ==> r[i] == Upper(s[i])
  {
    seq(|s|, i requires 0 <= i < |s| => Upper(s[i]))
  }

  function Normal(name: string): string {
    var n := ToUpper(TrimSpace(name));
    if "CAP_" <= n then n else "CAP_" + n
  }

  /** `table` is the map from upper-case names with their prefix to numbers. */
  function Lookup(table: map<string, Cap>, name: string): Option<Cap> {
    if Normal(name) in table then Some(table[Normal(name)]) else None
  }

  lemma NormalOfTrimmed(name: string)
    requires name != "" && !IsSpace(name[0]) && !IsSpace(name[|name| - 1])
    ensures Normal(name) == if "CAP_" <= ToUpper(name) then ToUpper(name) else "CAP_" + ToUpper(name)
  {
    assert TrimSpace(name) == name;
  }

  /** Writing a name with its prefix or in lower case makes no difference. */
  lemma PrefixAndCaseDoNotMatter(table: map<string, Cap>, prefix: string, name: string)
    requires prefix == "CAP_" || prefix == "cap_"
    requires name != "" && !IsSpace(name[0]) && !IsSpace(name[|name| - 1]) && !("CAP_" <= ToUpper(name))
    ensures Lookup(table, prefix + name) == Lookup(table, name)
  {
    hide Normal;
    NormalOfTrimmed(prefix + name);
    NormalOfTrimmed(name);
    assert ToUpper(prefix + name) == "CAP_" + ToUpper(name);
  }

  /** How the table's keys are written. */
  predicate Canonical(key: string) {
    "CAP_" <= key && forall i :: 0 <= i < |key| ==> !IsSpace(key[i]) && !('a' <= key[i] <= 'z')
  }

  /** The same word, with any of its letters in lower case. */
  predicate SameWord(word: string, key: string) {
    && |word| == |key|
    && forall i :: 0 <= i < |key| ==>
         word[i] == key[i] || ('A' <= key[i] <= 'Z' && word[i] as int == key[i] as int + 32)
  }

  /** White space, the key in letters of any case, with its prefix or without, and white space. */
  ghost predicate Spells(name: string, key: string) {
    exists a, word, b :: Blank(a) && Blank(b) && name == a + word + b && Writes(word, key)
  }

  predicate Writes(word: string, key: string) {
    SameWord(word, key) || (4 <= |key| && SameWord(word, key[4..]) && !("CAP_" <= key[4..]))
  }

  lemma SameWordIsUpper(word: string, key: string)
    requires forall i :: 0 <= i < |key| ==> !('a' <= key[i] <= 'z')
    ensures SameWord(word, key) <==> ToUpper(word) == key
  {
    assert |word| == |key| && ToUpper(word) != key ==> exists i :: 0 <= i < |key| && ToUpper(word)[i] != key[i];
  }

  /** A trimmed word is written for the key that it is normalized to, and for no other. */
  lemma WritesIsNormal(word: string, key: string)
    requires Canonical(key)
    ensures Writes(word, key) <==> key == if "CAP_" <= ToUpper(word) then ToUpper(word) else "CAP_" + ToUpper(word)
  {
    SameWordIsUpper(word, key);
    SameWordIsUpper(word, key[4..]);
    assert key == "CAP_" + key[4..];
    assert ("CAP_" + ToUpper(word))[4..] == ToUpper(word);
  }

  lemma WordIsBare(word: string, key: string)
    requires Canonical(key) && Writes(word, key) && word != ""
    ensures !IsSpace(word[0]) && !IsSpace(word[|word| - 1])
  {
    assert SameWord(word, key) || SameWord(word, key[4..]);
    assert forall i :: 0 <= i < |key[4..]| ==> key[4..][i] == key[i + 4];
  }

  lemma SpellsIsNormal(name: string, key: string)
    requires Canonical(key)
    ensures Spells(name, key) <==> Normal(name) == key
  {
    hide Writes, Canonical;
    var i, j := TrimSplits(name);
    assert name == name[..i] + name[i..j] + name[j..];
    WritesIsNormal(TrimSpace(name), key);
    forall a, word, b | Blank(a) && Blank(b) && name == a + word + b && Writes(word, key)
      ensures Normal(name) == key
    {
      WritesIsNormal(word, key);
      if word != "" {
        WordIsBare(word, key);
      }
      TrimOf(a, word, b);
    }
  }

  ghost predicate Denotes(table: map<string, Cap>, name: string, c: Cap) {
    exists key :: key in table && table[key] == c && Spells(name, key)
  }

  ghost predicate Spelled(table: map<string, Cap>, name: string) { exists key :: key in table && Spells(name, key) }

  /** With keys as the source writes them, a name is looked up to a number exactly if it spells a key
      with that number, and every name has at most one. */
  lemma LookupIsExact(table: map<string, Cap>, name: string)
    requires forall key :: key in table ==> Canonical(key)
    ensures forall c: Cap :: Lookup(table, name) == Some(c) <==> Denotes(table, name, c)
    ensures Lookup(table, name).Some? <==> Spelled(table, name)
  {
    hide Normal, Spells, Canonical;
    forall key | key in table ensures Spells(name, key) <==> Normal(name) == key {
      SpellsIsNormal(name, key);
    }
    assert Normal(name) in table ==> Spells(name, Normal(name));
  }

  lemma KeySpellsItself(key: string)
    ensures Spells(key, key)
  {
    assert Blank("") && key == "" + key + "" && Writes(key, key);
  }

  /** Every spelling of a name gives the number of its key. */
  lemma SpellingDoesNotMatter(table: map<string, Cap>, key: string, name: string)
    requires (forall key :: key in table ==> Canonical(key)) && key in table && Spells(name, key)
    ensures Lookup(table, name) == Some(table[key]) == Lookup(table, key)
  {
    LookupIsExact(table, name);
    LookupIsExact(table, key);
    KeySpellsItself(key);
    assert Denotes(table, name, table[key]) && Denotes(table, key, table[key]);
  }

  // ---------------------------------------------------------------- the drop

  datatype Answer = Dropped | UnknownName(name: string) | CapsetDenied

  /** The bounding set once everything but `wanted` up to `last` has been dropped, or, without
      CAP_SETPCAP, has not. */
  function BoundingLeft(s: Sets, wanted: set<Cap>, last: Cap): set<Cap> {
    if 8 in s.eff then set c | c in s.bnd && (c in wanted || c > last) else s.bnd
  }

  /** The four sets that are reduced to the ones wanted. */
  function Reduced(wanted: set<Cap>, max: Cap, bnd: set<Cap>): Sets {
    var valid := Valid(wanted, max);
    Sets(valid, valid, valid, bnd, valid)
  }

  predicate AllKnown(table: map<string, Cap>, keep: seq<string>) {
    forall i :: 0 <= i < |keep| ==> Lookup(table, keep[i]).Some?
  }

  /** The numbers of the names. */
  function Numbers(table: map<string, Cap>, keep: seq<string>): set<Cap>
    requires AllKnown(table, keep)
  {
    set i | 0 <= i < |keep| :: Lookup(table, keep[i]).value
  }

  lemma NumbersFit(table: map<string, Cap>, keep: seq<string>)
    requires AllKnown(table, keep) && forall name :: name in table ==> table[name] < 64
    ensures forall c :: c in Numbers(table, keep) ==> c < 64
  {
    hide Normal;
  }

  /** The numbers are those of the keys that the names spell. */
  lemma NumbersAreDenoted(table: map<string, Cap>, keep: seq<string>)
    requires forall key :: key in table ==> Canonical(key)
    ensures AllKnown(table, keep) <==>
              forall i :: 0 <= i < |keep| ==> Spelled(table, keep[i])
    ensures AllKnown(table, keep) ==>
              forall c: Cap :: c in Numbers(table, keep) <==> exists i :: 0 <= i < |keep| && Denotes(table, keep[i], c)
  {
    hide Lookup, Spells, Spelled, Canonical, Denotes;
    forall i | 0 <= i < |keep|
      ensures Lookup(table, keep[i]).Some? <==> Spelled(table, keep[i])
      ensures forall c: Cap :: Lookup(table, keep[i]) == Some(c) <==> Denotes(table, keep[i], c)
    {
      LookupIsExact(table, keep[i]);
    }
  }

  /** Names that are keys themselves give the numbers of the table. */
  lemma KeysDenoteThemselves(table: map<string, Cap>, keep: seq<string>)
    requires (forall key :: key in table ==> Canonical(key)) && forall i :: 0 <= i < |keep| ==> keep[i] in table
    ensures AllKnown(table, keep) && Numbers(table, keep) == set i | 0 <= i < |keep| :: table[keep[i]]
  {
    hide Lookup, Spells, Canonical;
    forall i | 0 <= i < |keep| ensures Lookup(table, keep[i]) == Some(table[keep[i]]) {
      KeySpellsItself(keep[i]);
      SpellingDoesNotMatter(table, keep[i], keep[i]);
    }
  }

  method Resolve(table: map<string, Cap>, keep: seq<string>) returns (caps: Option<set<Cap>>, unknown: string)
    ensures caps.Some? <==> AllKnown(table, keep)
    ensures caps.Some? ==> caps.value == Numbers(table, keep)
    ensures caps.None? ==> unknown in keep && Lookup(table, unknown).None?
  {
    hide Lookup;
    var wanted: set<Cap> := {};
    for i := 0 to |keep|
      invariant forall k :: 0 <= k < i ==> Lookup(table, keep[k]).Some?
      invariant wanted == set k | 0 <= k < i :: Lookup(table, keep[k]).value
    {
      var c := Lookup(table, keep[i]);
      if c.None? {
        return None, keep[i];
      }
      wanted := wanted + {c.value};
    }
    return Some(wanted), "";
  }

  class Thread {
    const max: Cap  // the kernel's highest capability
    var sets: Sets

    constructor (max: Cap, sets: Sets)
      ensures this.max == max && this.sets == sets
    {
      this.max, this.sets := max, sets;
    }

    /** `last` is what reading cap_last_cap came back with. An EPERM from the bounding drop is passed
        over, so without CAP_SETPCAP the bounding set is silently kept. */
    method DropCapabilities(table: map<string, Cap>, keep: seq<string>, last: Cap) returns (r: Answer)
      requires forall name :: name in table ==> table[name] < 64
      requires forall c :: c in sets.bnd ==> c <= max
      modifies this`sets
      ensures r.UnknownName? <==> !AllKnown(table, keep)
      ensures r.UnknownName? ==> sets == old(sets) && r.name in keep && Lookup(table, r.name).None?
      ensures (forall key :: key in table ==> Canonical(key)) ==>
                && (r.UnknownName? <==> exists i :: 0 <= i < |keep| && !Spelled(table, keep[i]))
                && (r.Dropped? ==> forall c: Cap ::
                        c in sets.per <==> c <= max && exists i :: 0 <= i < |keep| && Denotes(table, keep[i], c))
      ensures (forall key :: key in table ==> Canonical(key)) && (forall i :: 0 <= i < |keep| ==> keep[i] in table) ==>
                && !r.UnknownName?
                && (r.Dropped? ==> sets.per == Valid(set i | 0 <= i < |keep| :: table[keep[i]], max))
      ensures r.Dropped? ==> sets.eff == sets.per == sets.inh == sets.amb
      ensures !r.UnknownName? ==>
                var wanted := Numbers(table, keep);
                && sets.bnd == BoundingLeft(old(sets), wanted, last)
                && (r.Dropped? <==>
                      Valid(wanted, max) <= old(sets).per && Valid(wanted, max) <= old(sets).inh + old(sets).bnd)
                && sets == if r.Dropped? then Reduced(wanted, max, sets.bnd) else old(sets).(amb := {}, bnd := sets.bnd)
    {
      hide Lookup, Spelled, Denotes, Canonical, Numbers;
      if forall key :: key in table ==> Canonical(key) {
        NumbersAreDenoted(table, keep);
        if forall i :: 0 <= i < |keep| ==> keep[i] in table {
          KeysDenoteThemselves(table, keep);
        }
      }
      var caps, unknown := Resolve(table, keep);
      if caps.None? {
        return UnknownName(unknown);
      }
      var wanted := caps.value;
      NumbersFit(table, keep);
      sets := sets.(amb := {});
      ShrinkBounding(wanted, last);
      r := SetTo(wanted);
    }

    /** capset with the two words, and then the ambient set. */
    method SetTo(wanted: set<Cap>) returns (r: Answer)
      requires (forall c :: c in wanted ==> c < 64) && sets.amb == {}
      modifies this`sets
      ensures r.Dropped? || r.CapsetDenied?
      ensures var valid := Valid(wanted, max); r.Dropped? <==> MayCapset(old(sets), valid, valid, valid)
      ensures sets == if r.Dropped? then Reduced(wanted, max, old(sets).bnd) else old(sets)
    {
      var mask := Encode(wanted);
      var decoded := Valid(Decoded(mask), max);
      var (after, errno) := Capset(sets, decoded, decoded, decoded);
      if errno != Success {
        return CapsetDenied;
      }
      sets := after;
      RaiseAll(wanted);
      r := Dropped;
    }

    method ShrinkBounding(wanted: set<Cap>, last: Cap)
      requires forall c :: c in sets.bnd ==> c <= max
      modifies this`sets
      ensures sets == old(sets).(bnd := BoundingLeft(old(sets), wanted, last))
    {
      var c: Cap := 0;
      while c <= last
        invariant c <= last + 1
        invariant sets == old(sets).(bnd := sets.bnd)
        invariant CAP_SETPCAP !in sets.eff ==> sets.bnd == old(sets).bnd
        invariant CAP_SETPCAP in sets.eff ==> sets.bnd == set d | d in old(sets).bnd && (d in wanted || d >= c)
      {
        if c !in wanted {
          var (after, errno) := DropBounding(sets, max, c);  // EINVAL and EPERM are passed over
          sets := after;
        }
        c := c + 1;
      }
    }

    method RaiseAll(wanted: set<Cap>)
      requires sets.per == sets.inh == Valid(wanted, max) && sets.amb == {}
      modifies this`sets
      ensures sets == old(sets).(amb := Valid(wanted, max))
    {
      var todo := wanted;
      while todo != {}
        invariant todo <= wanted
        invariant sets == old(sets).(amb := Valid(wanted - todo, max))
      {
        var c :| c in todo;
        var (after, errno) := RaiseAmbient(sets, max, c);
        sets := after;
        todo := todo - {c};
      }
    }
  }

  /** What the ambient set is raised for: programs without file capabilities, run by any user but
      root, keep all four sets as the drop left them, however many of them follow one another. */
  lemma {:induction false} OrdinaryProgramsKeepThem(wanted: set<Cap>, max: Cap, bnd: set<Cap>, acts: seq<Action>)
    requires forall i :: 0 <= i < |acts| ==> acts[i] == Exec(File({}, {}, false, false))
    ensures After(Reduced(wanted, max, bnd), max, acts) == Reduced(wanted, max, bnd)
    decreases |acts|
  {
    if acts != [] {
      var kept := Reduced(wanted, max, bnd);
      assert Execve(kept, File({}, {}, false, false)).per == kept.per;
      OrdinaryProgramsKeepThem(wanted, max, bnd, acts[1..]);
    }
  }

  /** After a drop that succeeded, everything lies within what was asked for, for good, exactly if the
      drop could reach all of the bounding set: CAP_SETPCAP was effective and nothing was left beyond
      the last capability it was told of, or there was nothing to drop. */
  lemma DropIsFinal(before: Sets, after: Sets, wanted: set<Cap>, last: Cap, max: Cap)
    requires after == Reduced(wanted, max, BoundingLeft(before, wanted, last))
    requires forall c :: c in before.bnd ==> c <= max
    ensures (forall acts :: Within(After(after, max, acts), wanted)) <==>
              forall c :: c in before.bnd && c !in wanted ==> 8 in before.eff && c <= last
    ensures 8 in before.eff && last == max ==> forall acts :: Within(After(after, max, acts), wanted)
  {
    if after.bnd <= wanted {
      forall acts ensures Within(After(after, max, acts), wanted) {
        CeilingHolds(after, max, acts, wanted);
      }
    } else {
      assert After(after, max, []) == after;
    }
  }
}
