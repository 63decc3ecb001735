/** Segment identifiers as text, the file names built from them, and the
    sorted listing a reader starts from (tcslog/src/segid.rs, util.rs). */
module Names {
  import opened Bytes

  const STR_LEN: nat := 19

  // ------------------------------------------------------- one hex digit

  function HexDigit(d: nat): (c: char)
    requires d < 16
  {
    if d < 10 then '0' + d as char else 'a' + (d - 10) as char
  }

  predicate IsHex(c: char) { '0' <= c <= '9' || 'a' <= c <= 'f' }

  function HexValue(c: char): (d: nat)
    requires IsHex(c)
    ensures d < 16
  {
    if c <= '9' then (c - '0') as nat else (c - 'a') as nat + 10
  }

  lemma HexInverse(c: char, d: nat)
    requires IsHex(c) && d < 16
    ensures HexDigit(HexValue(c)) == c && IsHex(HexDigit(d)) && HexValue(HexDigit(d)) == d
  {
  }

  // ---------------------------------------------------------- the text form

  /** Four lower-case hexadecimal digits, most significant first. */
  function Group(v: nat): (s: string)
    requires v < 0x1_0000
    ensures |s| == 4
  {
    [HexDigit(v / 4096), HexDigit(v / 256 % 16), HexDigit(v / 16 % 16), HexDigit(v % 16)]
  }

  predicate IsGroup(s: string) {
    |s| == 4 && IsHex(s[0]) && IsHex(s[1]) && IsHex(s[2]) && IsHex(s[3])
  }

  function GroupValue(s: string): (v: nat)
    requires IsGroup(s)
    ensures v < 0x1_0000
  {
    ((HexValue(s[0]) * 16 + HexValue(s[1])) * 16 + HexValue(s[2])) * 16 + HexValue(s[3])
  }

  lemma NibblesOf(v: nat)
    ensures v == v / 16 * 16 + v % 16 && v / 16 == v / 256 * 16 + v / 16 % 16 && v / 256 == v / 4096 * 16 + v / 256 % 16
  {
    assert v / 16 / 16 == v / 256;
    assert v / 256 / 16 == v / 4096;
  }

  lemma GroupSpells(v: nat)
    requires v < 0x1_0000
    ensures IsGroup(Group(v)) && GroupValue(Group(v)) == v
  {
    hide HexDigit;
    hide HexValue;
    hide IsHex;
    NibblesOf(v);
    HexInverse('0', v / 4096);
    HexInverse('0', v / 256 % 16);
    HexInverse('0', v / 16 % 16);
    HexInverse('0', v % 16);
  }

  lemma Nibbles(a: nat, b: nat, c: nat, d: nat, v: nat)
    requires a < 16 && b < 16 && c < 16 && d < 16 && v == ((a * 16 + b) * 16 + c) * 16 + d
    ensures v < 0x1_0000 && v / 4096 == a && v / 256 % 16 == b && v / 16 % 16 == c && v % 16 == d
  {
    assert v / 16 == (a * 16 + b) * 16 + c;
    assert v / 256 == a * 16 + b;
    assert v / 4096 == a;
  }

  lemma GroupUnique(s: string)
    requires IsGroup(s)
    ensures Group(GroupValue(s)) == s
  {
    hide HexDigit;
    hide HexValue;
    Nibbles(HexValue(s[0]), HexValue(s[1]), HexValue(s[2]), HexValue(s[3]), GroupValue(s));
    HexInverse(s[0], 0);
    HexInverse(s[1], 0);
    HexInverse(s[2], 0);
    HexInverse(s[3], 0);
  }

  datatype Words = Words(g0: nat, g1: nat, g2: nat, g3: nat) {
    predicate Valid() { g0 < 0x1_0000 && g1 < 0x1_0000 && g2 < 0x1_0000 && g3 < 0x1_0000 }

    function Value(): nat { ((g0 * 0x1_0000 + g1) * 0x1_0000 + g2) * 0x1_0000 + g3 }

    function Join(): (s: string)
      requires Valid()
      ensures |s| == STR_LEN
    {
      Group(g0) + "-" + Group(g1) + "-" + Group(g2) + "-" + Group(g3)
    }
  }

  /** The four 16-bit parts an identifier is printed in. */
  function WordsOf(id: u64): (w: Words)
    ensures w.Valid()
  {
    Words(id / 0x1_0000_0000_0000, id / 0x1_0000_0000 % 0x1_0000, id / 0x1_0000 % 0x1_0000, id % 0x1_0000)
  }

  lemma WordsInverse(w: Words)
    requires w.Valid()
    ensures w.Value() < U64_LIMIT && WordsOf(w.Value()) == w
  {
    var v := w.Value();
    assert v / 0x1_0000 == (w.g0 * 0x1_0000 + w.g1) * 0x1_0000 + w.g2;
    assert v / 0x1_0000_0000 == w.g0 * 0x1_0000 + w.g1;
    assert v / 0x1_0000_0000_0000 == w.g0;
  }

  lemma WordsValue(id: u64)
    ensures WordsOf(id).Value() == id
  {
    assert id / 0x1_0000_0000 == id / 0x1_0000_0000_0000 * 0x1_0000 + id / 0x1_0000_0000 % 0x1_0000;
    assert id / 0x1_0000 == id / 0x1_0000_0000 * 0x1_0000 + id / 0x1_0000 % 0x1_0000;
  }

  function Text(id: u64): (s: string)
    ensures |s| == STR_LEN
  {
    WordsOf(id).Join()
  }

  predicate IsDash(i: nat) { i % 5 == 4 }

  /** The form `parse` accepts. */
  predicate Canonical(text: string) {
    |text| == STR_LEN
    && forall i :: 0 <= i < STR_LEN ==> if IsDash(i) then text[i] == '-' else IsHex(text[i])
  }

  /** The number the first n characters of a canonical text spell. */
  function ValueOf(text: string, n: nat): nat
    requires Canonical(text) && n <= STR_LEN
  {
    if n == 0 then 0
    else if IsDash(n - 1) then ValueOf(text, n - 1)
    else 16 * ValueOf(text, n - 1) + HexValue(text[n - 1])
  }

  lemma ValueOfGroup(text: string, p: nat)
    requires Canonical(text) && p % 5 == 0 && p + 4 <= STR_LEN
    ensures IsGroup(text[p..p + 4])
    ensures ValueOf(text, p + 4) == 0x1_0000 * ValueOf(text, p) + GroupValue(text[p..p + 4])
    ensures p + 5 <= STR_LEN ==> ValueOf(text, p + 5) == ValueOf(text, p + 4)
  {
    hide HexValue;
    assert ValueOf(text, p + 1) == 16 * ValueOf(text, p) + HexValue(text[p]);
    assert ValueOf(text, p + 2) == 16 * ValueOf(text, p + 1) + HexValue(text[p + 1]);
    assert ValueOf(text, p + 3) == 16 * ValueOf(text, p + 2) + HexValue(text[p + 2]);
    assert ValueOf(text, p + 4) == 16 * ValueOf(text, p + 3) + HexValue(text[p + 3]);
  }

  lemma ValueOfNone(text: string)
    requires Canonical(text)
    ensures ValueOf(text, 0) == 0
  {
  }

  /** A canonical text spells the number made of its four groups. */
  lemma SpellsGroups(text: string)
    requires Canonical(text)
    ensures IsGroup(text[0..4]) && IsGroup(text[5..9]) && IsGroup(text[10..14]) && IsGroup(text[15..19])
    ensures ValueOf(text, STR_LEN)
         == Words(GroupValue(text[0..4]), GroupValue(text[5..9]), GroupValue(text[10..14]),
                  GroupValue(text[15..19])).Value()
  {
    hide ValueOf;
    hide GroupValue;
    ValueOfGroup(text, 0);
    ValueOfGroup(text, 5);
    ValueOfGroup(text, 10);
    ValueOfGroup(text, 15);
    ValueOfNone(text);
  }

  /** Every identifier's text is canonical and spells that identifier. */
  lemma TextSpells(id: u64)
    ensures Canonical(Text(id)) && ValueOf(Text(id), STR_LEN) == id
  {
    hide Group;
    hide GroupValue;
    hide ValueOf;
    var w := WordsOf(id);
    var text := Text(id);
    GroupSpells(w.g0);
    GroupSpells(w.g1);
    GroupSpells(w.g2);
    GroupSpells(w.g3);
    assert text[0..4] == Group(w.g0) && text[5..9] == Group(w.g1);
    assert text[10..14] == Group(w.g2) && text[15..19] == Group(w.g3);
    assert Canonical(text) by {
      forall i | 0 <= i < STR_LEN
        ensures if IsDash(i) then text[i] == '-' else IsHex(text[i])
      {
        if i < 4 { assert text[i] == text[0..4][i]; }
        else if 5 <= i < 9 { assert text[i] == text[5..9][i - 5]; }
        else if 10 <= i < 14 { assert text[i] == text[10..14][i - 10]; }
        else if 15 <= i { assert text[i] == text[15..19][i - 15]; }
      }
    }
    SpellsGroups(text);
    WordsValue(id);
  }

  /** Every canonical text is the text of the identifier it spells. */
  lemma TextUnique(text: string)
    requires Canonical(text)
    ensures ValueOf(text, STR_LEN) < U64_LIMIT && Text(ValueOf(text, STR_LEN)) == text
  {
    hide Group;
    hide GroupValue;
    hide ValueOf;
    SpellsGroups(text);
    GroupUnique(text[0..4]);
    GroupUnique(text[5..9]);
    GroupUnique(text[10..14]);
    GroupUnique(text[15..19]);
    var w := Words(GroupValue(text[0..4]), GroupValue(text[5..9]), GroupValue(text[10..14]), GroupValue(text[15..19]));
    WordsInverse(w);
    assert w.Join() == text[0..4] + "-" + text[5..9] + "-" + text[10..14] + "-" + text[15..19];
  }

  ghost predicate CanonicalUpTo(text: string, n: nat) {
    n <= |text| && forall i :: 0 <= i < n ==> if IsDash(i) then text[i] == '-' else IsHex(text[i])
  }

  lemma ValueStep(text: string, n: nat)
    requires Canonical(text) && n < STR_LEN
    ensures ValueOf(text, n + 1)
         == if IsDash(n) then ValueOf(text, n) else 16 * ValueOf(text, n) + HexValue(text[n])
  {
  }

  /** `SegId::parse`: the loop over the characters, with the wrap-around of a
      64-bit shift written out. */
  method Parse(text: string) returns (r: Option<u64>)
    ensures r.Some? <==> Canonical(text)
    ensures r.Some? ==> r.value == ValueOf(text, STR_LEN) && Text(r.value) == text
  {
    hide Text;
    hide ValueOf;
    hide HexValue;
    hide Pow16;
    if |text| != STR_LEN {
      return None;
    }
    var value: u64 := 0;
    var i := 0;
    if Canonical(text) { ValueOfNone(text); }
    Pow16One();
    while i < |text|
      invariant 0 <= i <= |text|
      invariant CanonicalUpTo(text, i)
      invariant value < Pow16(i - i / 5)
      invariant Canonical(text) ==> value == ValueOf(text, i)
    {
      var c := text[i];
      if Canonical(text) { ValueStep(text, i); }
      if i % 5 == 4 {
        if c != '-' {
          return None;
        }
        i := i + 1;
        continue;
      }
      if !IsHex(c) {
        return None;
      }
      Pow16Fits(i - i / 5);
      value := value * 16 % U64_LIMIT + HexValue(c);
      i := i + 1;
    }
    TextUnique(text);
    return Some(value);
  }

  lemma Pow16One()
    ensures Pow16(0) == 1
  {
  }

  ghost function Pow16(n: nat): nat {
    if n == 0 then 1 else 16 * Pow16(n - 1)
  }

  lemma Pow16Fits(n: nat)
    requires n <= 15
    ensures Pow16(n) * 16 <= U64_LIMIT && Pow16(n + 1) == 16 * Pow16(n)
    decreases 15 - n
  {
    if n == 15 {
      assert Pow16(4) == 0x1_0000;
      assert Pow16(8) == 0x1_0000 * Pow16(4);
      assert Pow16(12) == 0x1_0000 * Pow16(8);
      assert Pow16(16) == 0x1_0000 * Pow16(12);
    } else {
      Pow16Fits(n + 1);
    }
  }

  // --------------------------------------------------------------- order

  /** Text order: the order of the characters at the first difference. */
  ghost predicate TextLess(a: string, b: string) {
    exists k :: 0 <= k < |a| && k < |b| && a[..k] == b[..k] && a[k] < b[k]
  }

  lemma LessInFront(a: string, b: string, x: string, y: string)
    requires TextLess(a, b)
    ensures TextLess(a + x, b + y)
  {
    var k :| 0 <= k < |a| && k < |b| && a[..k] == b[..k] && a[k] < b[k];
    assert (a + x)[..k] == a[..k] && (b + y)[..k] == b[..k];
    assert (a + x)[k] == a[k] && (b + y)[k] == b[k];
  }

  lemma LessBehind(front: string, a: string, b: string)
    requires TextLess(a, b)
    ensures TextLess(front + a, front + b)
  {
    var k :| 0 <= k < |a| && k < |b| && a[..k] == b[..k] && a[k] < b[k];
    var n := |front| + k;
    assert (front + a)[..n] == front + a[..k] && (front + b)[..n] == front + b[..k];
    assert (front + a)[n] == a[k] && (front + b)[n] == b[k];
  }

  lemma DigitLess(d: nat, e: nat)
    requires d < e < 16
    ensures HexDigit(d) < HexDigit(e)
  {
  }

  lemma GroupLess(v: nat, w: nat)
    requires v < w < 0x1_0000
    ensures TextLess(Group(v), Group(w))
  {
    hide HexDigit;
    var a, b := Group(v), Group(w);
    NibblesOf(v);
    NibblesOf(w);
    if v / 4096 != w / 4096 {
      DigitLess(v / 4096, w / 4096);
      assert a[..0] == b[..0];
    } else if v / 256 != w / 256 {
      DigitLess(v / 256 % 16, w / 256 % 16);
      assert a[..1] == b[..1];
    } else if v / 16 != w / 16 {
      DigitLess(v / 16 % 16, w / 16 % 16);
      assert a[..2] == b[..2];
    } else {
      DigitLess(v % 16, w % 16);
      assert a[..3] == b[..3];
    }
  }

  lemma NotBoth(a: string, b: string)
    requires TextLess(a, b)
    ensures a != b && !TextLess(b, a)
  {
    var k :| 0 <= k < |a| && k < |b| && a[..k] == b[..k] && a[k] < b[k];
    forall j | 0 <= j < |a| && j < |b|
      ensures b[..j] == a[..j] ==> !(b[j] < a[j])
    {
      Agree(a, b, k, j);
      Agree(a, b, j, k);
    }
  }

  lemma Agree(a: string, b: string, n: nat, i: nat)
    requires n <= |a| && n <= |b| && i < |a| && i < |b|
    ensures i < n && a[..n] == b[..n] ==> a[i] == b[i]
  {
    if i < n { assert a[i] == a[..n][i] && b[i] == b[..n][i]; }
  }

  /** Names sort as text in the order of their identifiers. */
  lemma TextOrder(id: u64, other: u64)
    ensures id < other <==> TextLess(Text(id), Text(other))
  {
    if id < other {
      TextIncreases(id, other);
    } else if other < id {
      TextIncreases(other, id);
      NotBoth(Text(other), Text(id));
    } else if TextLess(Text(id), Text(id)) {
      NotBoth(Text(id), Text(id));
    }
  }

  lemma TextIncreases(id: u64, other: u64)
    requires id < other
    ensures TextLess(Text(id), Text(other))
  {
    hide Group;
    hide TextLess;
    WordsValue(id);
    WordsValue(other);
    var v, w := WordsOf(id), WordsOf(other);
    var a, b := Group(v.g3), Group(w.g3);
    WordLess(v.g2, w.g2, a, b);
    var a1, b1 := Group(v.g2) + ("-" + a), Group(w.g2) + ("-" + b);
    WordLess(v.g1, w.g1, a1, b1);
    var a2, b2 := Group(v.g1) + ("-" + a1), Group(w.g1) + ("-" + b1);
    WordLess(v.g0, w.g0, a2, b2);
    if v.g0 == w.g0 && v.g1 == w.g1 && v.g2 == w.g2 { GroupLess(v.g3, w.g3); }
    assert v.Join() == Group(v.g0) + ("-" + a2);
    assert w.Join() == Group(w.g0) + ("-" + b2);
  }

  lemma WordLess(g: nat, h: nat, a: string, b: string)
    requires g < 0x1_0000 && h < 0x1_0000
    ensures g < h || (g == h && TextLess(a, b)) ==> TextLess(Group(g) + ("-" + a), Group(h) + ("-" + b))
  {
    hide Group;
    hide TextLess;
    if g < h {
      GroupLess(g, h);
      LessInFront(Group(g), Group(h), "-" + a, "-" + b);
    } else if g == h && TextLess(a, b) {
      LessBehind("-", a, b);
      LessBehind(Group(g), "-" + a, "-" + b);
    }
  }

  // ----------------------------------------------------------- file names

  function BuildName(prefix: string, id: u64, suffix: string): string {
    prefix + Text(id) + suffix
  }

  /** Extracts the identifier from a file name, or nothing for a name that
      is not one of this log's. */
  method IdFromName(name: string, prefix: string, suffix: string) returns (r: Option<u64>)
    ensures r.Some? ==> name == BuildName(prefix, r.value, suffix)
    ensures r.None? ==> forall id: u64 :: name != BuildName(prefix, id, suffix)
  {
    if |name| != |prefix| + STR_LEN + |suffix| || !(prefix <= name) || name[|name| - |suffix|..] != suffix {
      forall id: u64 ensures name != BuildName(prefix, id, suffix) {
        var built := BuildName(prefix, id, suffix);
        assert built[|built| - |suffix|..] == suffix;
      }
      return None;
    }
    var body := name[|prefix|..|name| - |suffix|];
    r := Parse(body);
    assert name == prefix + body + suffix;
    if r.None? {
      forall id: u64 ensures name != BuildName(prefix, id, suffix) {
        TextSpells(id);
        var built := BuildName(prefix, id, suffix);
        assert built[|prefix|..|built| - |suffix|] == Text(id);
      }
    }
  }

  lemma NameInjective(prefix: string, suffix: string, id: u64, other: u64)
    requires BuildName(prefix, id, suffix) == BuildName(prefix, other, suffix)
    ensures id == other
  {
    var name := BuildName(prefix, id, suffix);
    assert name[|prefix|..|prefix| + STR_LEN] == Text(id);
    assert name[|prefix|..|prefix| + STR_LEN] == Text(other);
    TextSpells(id);
    TextSpells(other);
  }

  // --------------------------------------------------------------- listing

  predicate Sorted(ids: seq<u64>) {
    forall i, j :: 0 <= i < j < |ids| ==> ids[i] < ids[j]
  }

  function Insert(ids: seq<u64>, id: u64): (r: seq<u64>)
    requires Sorted(ids) && id !in ids
    ensures Sorted(r) && forall x :: x in r <==> x in ids || x == id
  {
    if ids == [] then [id]
    else if id < ids[0] then [id] + ids
    else
      var rest := Insert(ids[1..], id);
      assert forall x :: x in ids <==> x == ids[0] || x in ids[1..];
      assert forall i :: 0 <= i < |rest| ==> rest[i] in rest;
      [ids[0]] + rest
  }

  /** Lists a log's segment files, oldest first, from the names a directory
      holds, in whatever order they are enumerated. */
  method ScanSegmentIds(entries: seq<string>, prefix: string, suffix: string) returns (ids: seq<u64>)
    requires forall i, j :: 0 <= i < j < |entries| ==> entries[i] != entries[j]
    ensures Sorted(ids)
    ensures forall id: u64 :: id in ids <==> BuildName(prefix, id, suffix) in entries
  {
    var found := [];
    var i := 0;
    while i < |entries|
      invariant 0 <= i <= |entries|
      invariant Sorted(found)
      invariant forall id: u64 :: id in found <==> BuildName(prefix, id, suffix) in entries[..i]
    {
      var id := IdFromName(entries[i], prefix, suffix);
      if id.Some? {
        assert BuildName(prefix, id.value, suffix) !in entries[..i];
        forall x: u64 | BuildName(prefix, x, suffix) == entries[i] ensures x == id.value {
          NameInjective(prefix, suffix, x, id.value);
        }
        found := Insert(found, id.value);
      }
      assert entries[..i + 1] == entries[..i] + [entries[i]];
      i := i + 1;
    }
    assert entries[..i] == entries;
    return found;
  }
}
