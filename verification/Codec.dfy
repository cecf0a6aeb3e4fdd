/** The binary dictionary of dictionarySystem.cpp: WriteBinaryEntry and ReadBinaryEntry, and the
  * stream of entries between the bucket count and the date stamp. */
module Codec {
  import opened Threads
  import Lexicon

  type Byte = b: nat | b < 256

  type Text = seq<Byte>

  // ----- Numbers and strings ----------------------------------------------------------------

  function Pow256(k: nat): (r: nat)
    ensures r > 0
  {
    if k == 0 then 1 else 256 * Pow256(k - 1)
  }

  /** Write8 to Write64: the low byte first. */
  function WriteNumber(n: nat, k: nat): (s: seq<Byte>)
    ensures |s| == k
  {
    if k == 0 then [] else [n % 256] + WriteNumber(n / 256, k - 1)
  }

  /** Read8 to Read64. */
  function ReadNumber(s: seq<Byte>, k: nat): (nat, seq<Byte>)
    decreases k
  {
    if k == 0 then (0, s)
    else if s == [] then (0, [])
    else
      var (n, rest) := ReadNumber(s[1..], k - 1);
      (s[0] + 256 * n, rest)
  }

  lemma {:induction false} NumberBack(n: nat, k: nat, rest: seq<Byte>)
    requires n < Pow256(k)
    ensures ReadNumber(WriteNumber(n, k) + rest, k) == (n, rest)
    decreases k
  {
    if k > 0 {
      var s := WriteNumber(n, k) + rest;
      assert s[1..] == WriteNumber(n / 256, k - 1) + rest;
      NumberBack(n / 256, k - 1, rest);
    } else {
      assert [] + rest == rest;
    }
  }

  /** "n >> 8 * i". */
  function Shifted(n: nat, i: nat): nat { if i == 0 then n else Shifted(n / 256, i - 1) }

  /** Of a number, the bytes written are its digits to the base 256, the low one first. */
  lemma {:induction false} NumberLayout(n: nat, k: nat, i: nat)
    requires i < k
    ensures WriteNumber(n, k)[i] == Shifted(n, i) % 256
    decreases k
  {
    if i > 0 { NumberLayout(n / 256, k - 1, i - 1); }
  }

  /** WriteString: an absent or empty string is a zero length alone. */
  function WriteString(t: Option<Text>): seq<Byte> {
    if t.None? || t.value == [] then WriteNumber(0, 2) else WriteNumber(|t.value|, 2) + (t.value + [0])
  }

  /** ReadString. */
  function ReadString(s: seq<Byte>): (Option<Text>, seq<Byte>) {
    var (len, rest) := ReadNumber(s, 2);
    if len == 0 then (None, rest)
    else if |rest| <= len then (None, [])
    else (Some(rest[..len]), rest[len + 1..])
  }

  predicate Fits(t: Option<Text>) { t.Some? ==> 0 < |t.value| < 65536 }

  lemma StringBack(t: Option<Text>, rest: seq<Byte>)
    requires Fits(t)
    ensures ReadString(WriteString(t) + rest) == (t, rest)
  {
    hide WriteNumber, ReadNumber;
    assert Pow256(2) == 65536;
    if t.Some? {
      var body := t.value + [0] + rest;
      assert WriteString(t) + rest == WriteNumber(|t.value|, 2) + body;
      NumberBack(|t.value|, 2, body);
      assert body[..|t.value|] == t.value && body[|t.value| + 1..] == rest;
    } else {
      NumberBack(0, 2, rest);
    }
  }

  /** A string is its length, the low byte first, its characters and a zero; none, or an empty one, is two
    * zeros. */
  lemma StringLayout(t: Text)
    requires |t| < 65536
    ensures WriteString(None) == WriteString(Some([])) == [0, 0]
    ensures t != [] ==> WriteString(Some(t)) == [|t| % 256, |t| / 256] + t + [0]
  {
    var s := WriteNumber(|t|, 2);
    NumberLayout(|t|, 2, 0);
    NumberLayout(|t|, 2, 1);
    assert Shifted(|t|, 1) == Shifted(|t| / 256, 0);
    assert s == [|t| % 256, |t| / 256];
    assert WriteNumber(0, 2) == [0, 0];
  }

  // ----- Entries ----------------------------------------------------------------------------

  // The places of three one-bit flags: 0x10000000, 0x800 and 0x0400000000000000.
  const DEFINES: nat := 28
  const HAS_SUBSTITUTE: nat := 11
  const CONDITIONAL_IDIOM: nat := 58

  /** Whether "bits & (1 << i)". */
  predicate Flag(bits: nat, i: nat)
    decreases i
  {
    if i == 0 then bits % 2 == 1 else Flag(bits / 2, i - 1)
  }

  /** A WORDENTRY of the base dictionary, as far as it is saved. An entry without a word is a free
    * bucket. A gloss is its index and its text, as GetGlossIndex and GetGloss take them out of the
    * number kept for it. */
  datatype Entry =
    | Free
    | Entry(word: Text, hash: nat, properties: nat, systemFlags: nat, parseBits: nat, internalBits: nat, inferMark: nat,
            next: nat, idiom: Option<Text>, header: nat, tense: nat, plural: nat, comparison: nat,
            meanings: seq<nat>, glosses: seq<(nat, Option<Text>)>)

  /** GetGlossCount answers 0 for names, substitutes and conditional idioms. */
  predicate MayGloss(e: Entry)
    requires e.Entry? && e.word != []
  {
    && e.word[0] != '~' as int && e.word[0] != '^' as int && e.word[0] != '$' as int
    && !Flag(e.internalBits, HAS_SUBSTITUTE) && !Flag(e.systemFlags, CONDITIONAL_IDIOM)
  }

  /** A meaning that is null is written, but ends the program that reads it. */
  predicate HasNullMeaning(e: Entry) { e.Entry? && 0 in e.meanings }

  predicate AllBelow(s: seq<nat>, limit: nat) { forall i :: 0 <= i < |s| ==> s[i] < limit }

  predicate GlossesFit(g: seq<(nat, Option<Text>)>) { forall i :: 0 <= i < |g| ==> g[i].0 < 256 && Fits(g[i].1) }

  /** An entry the format can hold: numbers within their widths, texts that are not empty, the
    * hash that of the word, and in use only what the flags of the entry say is in use. */
  predicate Valid(e: Entry, hashit: Text -> nat) {
    e.Free? ||
    (&& 0 < |e.word| < 65536 && e.hash == hashit(e.word)
     && e.properties < Pow256(8) && e.systemFlags < Pow256(8) && e.parseBits < Pow256(4)
     && e.internalBits < Pow256(4) && e.inferMark < Pow256(4) && (!Flag(e.internalBits, DEFINES) ==> e.inferMark == 0)
     && e.next < Pow256(3) && e.header < 256
     && Fits(e.idiom) && (!Flag(e.systemFlags, CONDITIONAL_IDIOM) ==> e.idiom == None)
     && e.tense < Pow256(4) && e.plural < Pow256(4) && e.comparison < Pow256(4)
     && |e.meanings| < 256 && AllBelow(e.meanings, Pow256(4))
     && |e.glosses| < 256 && GlossesFit(e.glosses) && (!MayGloss(e) ==> e.glosses == []))
  }

  // ----- Writing ----------------------------------------------------------------------------

  function Pow2(k: nat): nat { if k == 0 then 1 else 2 * Pow2(k - 1) }

  /** The number with these bits, the lowest first. */
  function Pack(bits: seq<bool>): (n: nat)
    ensures n < Pow2(|bits|)
    decreases |bits|
  {
    if bits == [] then 0 else (if bits[0] then 1 else 0) + 2 * Pack(bits[1..])
  }

  /** What follows in an entry, in the order of the bits that say so. */
  function PartList(e: Entry): (r: seq<bool>)
    requires e.Entry?
    ensures |r| == 8
  {
    [e.header != 0, e.tense != 0, e.plural != 0, e.comparison != 0, e.meanings != [], e.glosses != [],
     e.systemFlags != 0 || e.properties != 0 || e.parseBits != 0, e.internalBits != 0]
  }

  function Parts(e: Entry): Byte
    requires e.Entry?
  {
    assert Pow2(8) == 256;
    Pack(PartList(e))
  }

  function WriteIf(b: bool, n: nat, k: nat): seq<Byte> { if b then WriteNumber(n, k) else [] }

  function WriteMeanings(m: seq<nat>): seq<Byte> {
    if m == [] then [] else WriteNumber(m[0], 4) + WriteMeanings(m[1..])
  }

  function WriteGlosses(g: seq<(nat, Option<Text>)>): seq<Byte> {
    if g == [] then [] else WriteNumber(g[0].0, 1) + (WriteString(g[0].1) + WriteGlosses(g[1..]))
  }

  const END: seq<Byte> := ['0' as int]

  // The body of an entry, from each of its parts on.

  function FromGlosses(e: Entry): seq<Byte> requires e.Entry? {
    (if e.glosses != [] then WriteNumber(|e.glosses|, 1) + WriteGlosses(e.glosses) else []) + END
  }

  function FromMeanings(e: Entry): seq<Byte> requires e.Entry? {
    (if e.meanings != [] then WriteNumber(|e.meanings|, 1) + WriteMeanings(e.meanings) else []) + FromGlosses(e)
  }

  function FromForms(e: Entry): seq<Byte> requires e.Entry? {
    WriteIf(e.tense != 0, e.tense, 4) + (WriteIf(e.plural != 0, e.plural, 4)
    + (WriteIf(e.comparison != 0, e.comparison, 4) + FromMeanings(e)))
  }

  function FromIdiom(e: Entry): seq<Byte> requires e.Entry? {
    (if Flag(e.systemFlags, CONDITIONAL_IDIOM) then WriteString(e.idiom) else [])
    + (WriteIf(e.header != 0, e.header, 1) + FromForms(e))
  }

  function FromNext(e: Entry): seq<Byte> requires e.Entry? { WriteNumber(e.next, 3) + FromIdiom(e) }

  function FromInternal(e: Entry): seq<Byte> requires e.Entry? {
    WriteIf(e.internalBits != 0, e.internalBits, 4)
    + (WriteIf(Flag(e.internalBits, DEFINES), e.inferMark, 4) + FromNext(e))
  }

  function FromFlags(e: Entry): seq<Byte> requires e.Entry? {
    var any := e.systemFlags != 0 || e.properties != 0 || e.parseBits != 0;
    WriteIf(any, e.properties, 8) + (WriteIf(any, e.systemFlags, 8) + (WriteIf(any, e.parseBits, 4) + FromInternal(e)))
  }

  function Body(e: Entry): seq<Byte> {
    if e.Free? then WriteString(None) else WriteString(Some(e.word)) + (WriteNumber(Parts(e), 1) + FromFlags(e))
  }

  /** The length in front of an entry, its own two bytes included, high byte first. */
  function WriteEntry(e: Entry): seq<Byte> {
    var len := |Body(e)| + 2;
    [(len / 256) % 256, len % 256] + Body(e)
  }

  // ----- Glosses in memory --------------------------------------------------------------------

  const PLACES: nat := 0x1000000

  /** The string arena while a dictionary is read: how much of it is in use, and the texts put into it,
    * at offsets from its top. `other` is what is found at an offset where none of them starts. */
  datatype Arena = Arena(used: nat, texts: map<nat, Text>, other: nat -> Text)

  /** AllocateString of a text that was read, and String2Index of its place; 0 for none. */
  function Put(a: Arena, t: Option<Text>): (r: (nat, Arena))
    ensures r.1.used >= a.used && r.1.other == a.other
    ensures if t.None? then r == (0, a) else r.0 == r.1.used > a.used && r.1.texts == a.texts[r.0 := t.value]
  {
    if t.None? then (0, a)
    else
      var place := Lexicon.Allocate(a.used, |t.value| + 1, 1);
      (place, a.(used := place, texts := a.texts[place := t.value]))
  }

  /** AllocateString of a list of numbers with its count in front. */
  function PutList(a: Arena, n: nat): (r: Arena)
    ensures r == a.(used := r.used) && r.used >= a.used
  {
    a.(used := Lexicon.Allocate(a.used, 4 * (n + 1), 16))
  }

  /** How much of the arena a text takes: its characters and a zero, in whole words; and a list of numbers: four
    * bytes each and four for the count, and what gets it to a multiple of 16. */
  lemma PutIs(a: Arena, t: Text, n: nat)
    ensures Put(a, Some(t)).1.used == a.used + (|t| + 1 + 3) / 4 * 4
    ensures var r := PutList(a, n); r.used % 16 == 0 && a.used + 4 * (n + 1) <= r.used < a.used + 4 * (n + 1) + 16
  {
    hide Lexicon.RoundUp;
    Lexicon.AllocateIs(a.used, |t| + 1, 1);
    Lexicon.AllocateIs(a.used, 4 * (n + 1), 16);
  }

  /** Index2String. */
  function Found(a: Arena, place: nat): Option<Text> {
    if place == 0 then None else if place in a.texts then Some(a.texts[place]) else Some(a.other(place))
  }

  /** The lowest `k` bits of "a | b". */
  function Or(a: nat, b: nat, k: nat): (r: nat)
    ensures r < Pow2(k)
  {
    if k == 0 then 0 else (if a % 2 == 1 || b % 2 == 1 then 1 else 0) + 2 * Or(a / 2, b / 2, k - 1)
  }

  /** "String2Index(string) | (index << 24)": the index has the high byte of the number, and so have the
    * high bits of the place. */
  function GlossNumber(index: nat, place: nat): nat { place % PLACES + PLACES * Or(place / PLACES, index, 8) }

  /** A gloss as the program sees it: GlossIndex, and the text at the low 24 bits. */
  function Shown(a: Arena, number: nat): (nat, Option<Text>) { (number / PLACES, Found(a, number % PLACES)) }

  function AllShown(a: Arena, numbers: seq<nat>): (r: seq<(nat, Option<Text>)>)
    ensures |r| == |numbers|
  {
    seq(|numbers|, i requires 0 <= i < |numbers| => Shown(a, numbers[i]))
  }

  lemma {:induction false} OrNone(b: nat, k: nat)
    requires b < Pow2(k)
    ensures Or(0, b, k) == b
    decreases k
  {
    if k > 0 { OrNone(b / 2, k - 1); }
  }

  /** The number of a gloss names its index and the place of its text if and only if the place is below
    * 2^24. */
  lemma GlossNumberIff(index: nat, place: nat)
    requires index < 256
    ensures GlossNumber(index, place) / PLACES == index && GlossNumber(index, place) % PLACES == place <==> place < PLACES
    ensures GlossNumber(index, place) / PLACES == Or(place / PLACES, index, 8)
    ensures GlossNumber(index, place) % PLACES == place % PLACES
  {
    assert Pow2(8) == 256;
    if place < PLACES {
      assert place / PLACES == 0;
      OrNone(index, 8);
    }
  }

  /** A gloss with a text is seen as it was put if and only if its place is below 2^24, or else the index
    * has every high bit of the place already and the same text is found at the low bits of it. */
  lemma GlossShownIff(a: Arena, index: nat, place: nat, text: Text)
    requires index < 256 && place > 0 && Found(a, place) == Some(text)
    ensures Shown(a, GlossNumber(index, place)) == (index, Some(text)) <==>
            place < PLACES || (Or(place / PLACES, index, 8) == index && Found(a, place % PLACES) == Some(text))
  {
    GlossNumberIff(index, place);
  }

  // ----- Reading ----------------------------------------------------------------------------

  function ReadIf(b: bool, s: seq<Byte>, k: nat): (nat, seq<Byte>) { if b then ReadNumber(s, k) else (0, s) }

  function ReadMeanings(s: seq<Byte>, n: nat): (seq<nat>, seq<Byte>)
    decreases n
  {
    if n == 0 then ([], s)
    else
      var (m, s1) := ReadNumber(s, 4);
      var (rest, s2) := ReadMeanings(s1, n - 1);
      ([m] + rest, s2)
  }

  /** The numbers kept for the glosses of an entry, what is left of the body, and the arena with their
    * texts. */
  function ReadGlosses(s: seq<Byte>, n: nat, a: Arena): (seq<nat>, seq<Byte>, Arena)
    decreases n
  {
    if n == 0 then ([], s, a)
    else
      var (index, s1) := ReadNumber(s, 1);
      var (text, s2) := ReadString(s1);
      var (place, a1) := Put(a, text);
      var (rest, s3, a2) := ReadGlosses(s2, n - 1, a1);
      ([GlossNumber(index, place)] + rest, s3, a2)
  }

  /** The flags, as far as the links: what the first half of an entry gives. */
  datatype Front = Front(properties: nat, systemFlags: nat, parseBits: nat, internalBits: nat, inferMark: nat, next: nat,
                         idiom: Option<Text>, rest: seq<Byte>)

  function ReadFront(parts: nat, s: seq<Byte>): Front {
    var (properties, s2) := ReadIf(Flag(parts, 6), s, 8);
    var (systemFlags, s3) := ReadIf(Flag(parts, 6), s2, 8);
    var (parseBits, s4) := ReadIf(Flag(parts, 6), s3, 4);
    var (internalBits, s5) := ReadIf(Flag(parts, 7), s4, 4);
    var (inferMark, s6) := ReadIf(Flag(internalBits, DEFINES), s5, 4);
    var (next, s7) := ReadNumber(s6, 3);
    var (idiom, s8) := if Flag(systemFlags, CONDITIONAL_IDIOM) then ReadString(s7) else (None, s7);
    Front(properties, systemFlags, parseBits, internalBits, inferMark, next, idiom, s8)
  }

  datatype Forms = Forms(header: nat, tense: nat, plural: nat, comparison: nat, rest: seq<Byte>)

  function ReadForms(parts: nat, s: seq<Byte>): Forms {
    var (header, s1) := ReadIf(Flag(parts, 0), s, 1);
    var (tense, s2) := ReadIf(Flag(parts, 1), s1, 4);
    var (plural, s3) := ReadIf(Flag(parts, 2), s2, 4);
    var (comparison, s4) := ReadIf(Flag(parts, 3), s3, 4);
    Forms(header, tense, plural, comparison, s4)
  }

  function ListIf(b: bool, a: Arena, n: nat): Arena { if b then PutList(a, n) else a }

  datatype Tail = Tail(meanings: seq<nat>, numbers: seq<nat>, rest: seq<Byte>, arena: Arena)

  function ReadTail(parts: nat, s: seq<Byte>, a: Arena): Tail {
    var (meaningCount, s1) := ReadIf(Flag(parts, 4), s, 1);
    var (meanings, s2) := ReadMeanings(s1, meaningCount);
    var (glossCount, s3) := ReadIf(Flag(parts, 5), s2, 1);
    var a1 := ListIf(Flag(parts, 5), ListIf(Flag(parts, 4), a, meaningCount), glossCount);
    var (numbers, s4, a2) := ReadGlosses(s3, glossCount, a1);
    Tail(meanings, numbers, s4, a2)
  }

  /** An entry in memory: its glosses are seen through the numbers kept for them. */
  datatype Loaded = Loaded(entry: Entry, numbers: seq<nat>, arena: Arena)

  function Built(name: Text, hash: nat, f: Front, g: Forms, l: Tail): Loaded {
    Loaded(Entry(name, hash, f.properties, f.systemFlags, f.parseBits, f.internalBits, f.inferMark,
               f.next, f.idiom, g.header, g.tense, g.plural, g.comparison, l.meanings, AllShown(l.arena, l.numbers)),
         l.numbers, l.arena)
  }

  /** An entry as ReadBinaryEntry builds it from its body; None where it exits: at a null meaning,
    * or where the body does not end as it should. */
  function ReadBody(s: seq<Byte>, hashit: Text -> nat, a: Arena): Option<Loaded> {
    var (name, s0) := ReadString(s);
    if name.None? then Some(Loaded(Free, [], a))
    else
      var (parts, s1) := ReadNumber(s0, 1);
      var f := ReadFront(parts, s1);
      var g := ReadForms(parts, f.rest);
      var l := ReadTail(parts, g.rest, Put(Put(a, name).1, f.idiom).1);
      if 0 in l.meanings || ReadNumber(l.rest, 1).0 != '0' as int then None
      else Some(Built(name.value, hashit(name.value), f, g, l))
  }

  /** What one call of ReadBinaryEntry finds on the stream: the end mark, an entry and the rest,
    * or a stream it cannot read. */
  datatype Taken = AtEnd(rest: seq<Byte>) | Next(read: Loaded, rest: seq<Byte>) | Bad

  function ReadEntry(s: seq<Byte>, hashit: Text -> nat, a: Arena): Taken {
    if |s| < 2 then Bad
    else if s[0] == 0 && s[1] == 0 then AtEnd(s[2..])
    else
      var len := s[0] as int * 256 + s[1] as int;
      if len < 2 || |s| < len then Bad
      else
        var e := ReadBody(s[2..len], hashit, a);
        if e.None? then Bad else Next(e.value, s[len..])
  }

  // ----- Reading back what was written --------------------------------------------------------

  lemma {:induction false} PackSays(bits: seq<bool>, i: nat)
    requires i < |bits|
    ensures Flag(Pack(bits), i) <==> bits[i]
    decreases i
  {
    if i > 0 { PackSays(bits[1..], i - 1); }
  }

  lemma PartsSay(e: Entry)
    requires e.Entry?
    ensures forall i :: 0 <= i < 8 ==> (Flag(Parts(e), i) <==> PartList(e)[i])
  {
    forall i | 0 <= i < 8 ensures Flag(Parts(e), i) <==> PartList(e)[i] { PackSays(PartList(e), i); }
  }

  lemma IfBack(b: bool, n: nat, k: nat, rest: seq<Byte>)
    requires n < Pow256(k)
    ensures ReadIf(b, WriteIf(b, n, k) + rest, k) == (if b then n else 0, rest)
  {
    hide WriteNumber, ReadNumber, Pow256;
    if b { NumberBack(n, k, rest); } else { assert [] + rest == rest; }
  }

  lemma {:induction false} MeaningsBack(m: seq<nat>, rest: seq<Byte>)
    requires AllBelow(m, Pow256(4))
    ensures ReadMeanings(WriteMeanings(m) + rest, |m|) == (m, rest)
    decreases |m|
  {
    hide WriteNumber, ReadNumber, Pow256;
    if m == [] {
      assert [] + rest == rest;
    } else {
      assert WriteMeanings(m) + rest == WriteNumber(m[0], 4) + (WriteMeanings(m[1..]) + rest);
      NumberBack(m[0], 4, WriteMeanings(m[1..]) + rest);
      MeaningsBack(m[1..], rest);
      assert [m[0]] + m[1..] == m;
    }
  }

  /** Where the texts of glosses are put, one after the other; 0 for a gloss without one. */
  function Places(g: seq<(nat, Option<Text>)>, a: Arena): (r: seq<nat>)
    ensures |r| == |g|
    decreases |g|
  {
    if g == [] then [] else [Put(a, g[0].1).0] + Places(g[1..], Put(a, g[0].1).1)
  }

  function PutAll(g: seq<(nat, Option<Text>)>, a: Arena): Arena
    decreases |g|
  {
    if g == [] then a else PutAll(g[1..], Put(a, g[0].1).1)
  }

  function Numbers(g: seq<(nat, Option<Text>)>, places: seq<nat>): (r: seq<nat>)
    requires |places| == |g|
    ensures |r| == |g|
  {
    seq(|g|, i requires 0 <= i < |g| => GlossNumber(g[i].0, places[i]))
  }

  /** Only texts at places not yet in use were added. */
  ghost predicate Grows(a: Arena, b: Arena) {
    && a.used <= b.used && b.other == a.other
    && (forall p: nat :: p <= a.used ==> (p in b.texts <==> p in a.texts) && (p in a.texts ==> b.texts[p] == a.texts[p]))
  }

  lemma GrowsTrans(a: Arena, b: Arena, c: Arena)
    requires Grows(a, b) && Grows(b, c)
    ensures Grows(a, c)
  {
  }

  lemma PutGrows(a: Arena, t: Option<Text>, n: nat, b: bool)
    ensures Grows(a, Put(a, t).1) && Grows(a, ListIf(b, a, n))
  {
    hide Lexicon.Allocate;
  }

  lemma {:induction false} PutAllGrows(g: seq<(nat, Option<Text>)>, a: Arena)
    ensures Grows(a, PutAll(g, a))
    decreases |g|
  {
    hide Grows, Put;
    if g == [] {
      GrowsRefl(a);
    } else {
      PutGrows(a, g[0].1, 0, false);
      PutAllGrows(g[1..], Put(a, g[0].1).1);
      GrowsTrans(a, Put(a, g[0].1).1, PutAll(g, a));
    }
  }

  lemma GrowsRefl(a: Arena)
    ensures Grows(a, a)
  {
  }

  /** Each text is found at its place afterwards. */
  lemma {:induction false} PutAllFound(g: seq<(nat, Option<Text>)>, a: Arena, i: nat)
    requires i < |g|
    ensures Places(g, a)[i] <= PutAll(g, a).used && Found(PutAll(g, a), Places(g, a)[i]) == g[i].1
    ensures g[i].1.Some? <==> Places(g, a)[i] > 0
    decreases |g|
  {
    hide Lexicon.Allocate;
    var a1 := Put(a, g[0].1).1;
    PutAllGrows(g[1..], a1);
    if i > 0 { PutAllFound(g[1..], a1, i - 1); }
  }

  /** Later texts change nothing about the glosses seen before. */
  lemma ShownStays(a: Arena, b: Arena, numbers: seq<nat>)
    requires Grows(a, b) && forall i :: 0 <= i < |numbers| ==> numbers[i] % PLACES <= a.used
    ensures AllShown(b, numbers) == AllShown(a, numbers)
  {
    assert forall i :: 0 <= i < |numbers| ==> Shown(b, numbers[i]) == Shown(a, numbers[i]);
  }

  lemma {:induction false} GlossesBack(g: seq<(nat, Option<Text>)>, rest: seq<Byte>, a: Arena)
    requires GlossesFit(g)
    ensures ReadGlosses(WriteGlosses(g) + rest, |g|, a) == (Numbers(g, Places(g, a)), rest, PutAll(g, a))
    decreases |g|
  {
    hide WriteNumber, ReadNumber, WriteString, ReadString, GlossNumber, Put;
    if g == [] {
      assert [] + rest == rest;
    } else {
      var s2 := WriteGlosses(g[1..]) + rest;
      assert WriteGlosses(g) + rest == WriteNumber(g[0].0, 1) + (WriteString(g[0].1) + s2);
      assert Pow256(1) == 256;
      NumberBack(g[0].0, 1, WriteString(g[0].1) + s2);
      StringBack(g[0].1, s2);
      var (place, a1) := Put(a, g[0].1);
      GlossesBack(g[1..], rest, a1);
      assert Numbers(g, Places(g, a)) == [GlossNumber(g[0].0, place)] + Numbers(g[1..], Places(g[1..], a1));
    }
  }

  lemma FrontBack(e: Entry, hashit: Text -> nat)
    requires e.Entry? && Valid(e, hashit)
    ensures ReadFront(Parts(e), FromFlags(e)) ==
            Front(e.properties, e.systemFlags, e.parseBits, e.internalBits, e.inferMark, e.next, e.idiom,
                  WriteIf(e.header != 0, e.header, 1) + FromForms(e))
  {
    hide WriteNumber, ReadNumber, WriteIf, ReadIf, WriteString, ReadString, Parts, FromForms, Pow256, Flag, GlossesFit, MayGloss;
    PartsSay(e);
    var any := e.systemFlags != 0 || e.properties != 0 || e.parseBits != 0;
    IfBack(any, e.properties, 8, WriteIf(any, e.systemFlags, 8) + (WriteIf(any, e.parseBits, 4) + FromInternal(e)));
    IfBack(any, e.systemFlags, 8, WriteIf(any, e.parseBits, 4) + FromInternal(e));
    IfBack(any, e.parseBits, 4, FromInternal(e));
    IfBack(e.internalBits != 0, e.internalBits, 4, WriteIf(Flag(e.internalBits, DEFINES), e.inferMark, 4) + FromNext(e));
    IfBack(Flag(e.internalBits, DEFINES), e.inferMark, 4, FromNext(e));
    NumberBack(e.next, 3, FromIdiom(e));
    var rest := WriteIf(e.header != 0, e.header, 1) + FromForms(e);
    StringBack(e.idiom, rest);
    assert [] + rest == rest;
  }

  lemma FormsBack(e: Entry, hashit: Text -> nat)
    requires e.Entry? && Valid(e, hashit)
    ensures ReadForms(Parts(e), WriteIf(e.header != 0, e.header, 1) + FromForms(e)) ==
            Forms(e.header, e.tense, e.plural, e.comparison, FromMeanings(e))
  {
    hide WriteNumber, ReadNumber, WriteIf, ReadIf, Parts, FromMeanings, Pow256, Flag, GlossesFit, MayGloss, Fits;
    PartsSay(e);
    assert Pow256(1) == 256 by { OneByte(); }
    IfBack(e.header != 0, e.header, 1, FromForms(e));
    IfBack(e.tense != 0, e.tense, 4, WriteIf(e.plural != 0, e.plural, 4) + (WriteIf(e.comparison != 0, e.comparison, 4) + FromMeanings(e)));
    IfBack(e.plural != 0, e.plural, 4, WriteIf(e.comparison != 0, e.comparison, 4) + FromMeanings(e));
    IfBack(e.comparison != 0, e.comparison, 4, FromMeanings(e));
  }

  lemma OneByte()
    ensures Pow256(1) == 256
  {
  }

  /** The arena when the glosses of an entry come to be read: its word, its idiom, and its lists of
    * meanings and glosses are in it. */
  function BeforeGlosses(e: Entry, a: Arena): Arena
    requires e.Entry?
  {
    ListIf(e.glosses != [], ListIf(e.meanings != [], Put(Put(a, Some(e.word)).1, e.idiom).1, |e.meanings|), |e.glosses|)
  }

  /** Where the texts of its glosses are put when an entry is read. */
  function GlossPlaces(e: Entry, a: Arena): seq<nat> { if e.Free? then [] else Places(e.glosses, BeforeGlosses(e, a)) }

  function After(e: Entry, a: Arena): Arena { if e.Free? then a else PutAll(e.glosses, BeforeGlosses(e, a)) }

  lemma TailBack(e: Entry, hashit: Text -> nat, a: Arena)
    requires e.Entry? && Valid(e, hashit)
    ensures ReadTail(Parts(e), FromMeanings(e), Put(Put(a, Some(e.word)).1, e.idiom).1) ==
            Tail(e.meanings, Numbers(e.glosses, GlossPlaces(e, a)), END, After(e, a))
  {
    hide WriteNumber, ReadNumber, WriteIf, Parts, Pow256, Flag, GlossesFit, MayGloss, Fits, AllBelow, WriteMeanings, WriteGlosses, ReadMeanings, ReadGlosses,
         ListIf, Put, GlossNumber, PutAll, Places;
    PartsSay(e);
    assert Pow256(1) == 256 by { OneByte(); }
    var g := FromGlosses(e);
    if e.meanings != [] {
      assert FromMeanings(e) == WriteNumber(|e.meanings|, 1) + (WriteMeanings(e.meanings) + g);
      NumberBack(|e.meanings|, 1, WriteMeanings(e.meanings) + g);
      MeaningsBack(e.meanings, g);
    } else {
      assert FromMeanings(e) == g;
      assert ReadMeanings(g, 0) == ([], g) by { NoMeanings(g); }
    }
    var a1 := BeforeGlosses(e, a);
    if e.glosses != [] {
      assert g == WriteNumber(|e.glosses|, 1) + (WriteGlosses(e.glosses) + END);
      NumberBack(|e.glosses|, 1, WriteGlosses(e.glosses) + END);
      GlossesBack(e.glosses, END, a1);
    } else {
      assert g == END;
      NoGlosses(END, a1);
    }
  }

  lemma NoMeanings(s: seq<Byte>)
    ensures ReadMeanings(s, 0) == ([], s)
  {
  }

  lemma NoGlosses(s: seq<Byte>, a: Arena)
    ensures ReadGlosses(s, 0, a) == ([], s, a) && Places([], a) == [] && PutAll([], a) == a
  {
  }

  /** An entry as it is in memory once read: as it was written, but for its glosses. */
  function InMemory(e: Entry, a: Arena): Loaded {
    if e.Free? then Loaded(Free, [], a)
    else
      var numbers := Numbers(e.glosses, GlossPlaces(e, a));
      Loaded(e.(glosses := AllShown(After(e, a), numbers)), numbers, After(e, a))
  }

  /** Reading the body of an entry gives the entry back, every optional part included, its glosses seen
    * through their numbers, if and only if it has no null meaning; otherwise the reader exits. */
  lemma BodyRead(e: Entry, hashit: Text -> nat, a: Arena)
    requires Valid(e, hashit)
    ensures ReadBody(Body(e), hashit, a) == if HasNullMeaning(e) then None else Some(InMemory(e, a))
  {
    hide WriteNumber, ReadNumber, WriteString, ReadString, Parts, FromFlags, FromForms, FromMeanings, WriteIf, ReadFront, ReadForms, ReadTail, Pow256, Flag, GlossesFit, MayGloss,
         Put, PutAll, GlossPlaces, After, AllShown, Numbers;
    if e.Free? {
      StringBack(None, []);
      assert Body(e) == WriteString(None) + [];
    } else {
      StringBack(Some(e.word), WriteNumber(Parts(e), 1) + FromFlags(e));
      assert Pow256(1) == 256 by { OneByte(); }
      NumberBack(Parts(e), 1, FromFlags(e));
      FrontBack(e, hashit);
      FormsBack(e, hashit);
      PlacesLength(e, a);
      TailBack(e, hashit, a);
      EndMark();
    }
  }

  lemma PlacesLength(e: Entry, a: Arena)
    ensures e.Entry? ==> |GlossPlaces(e, a)| == |e.glosses|
  {
  }

  lemma EndMark()
    ensures ReadNumber(END, 1).0 == '0' as int
  {
  }

  /** The texts of all glosses are put below 2^24 when the entry is read into this arena. */
  predicate GlossesBelow(e: Entry, a: Arena) { AllBelow(GlossPlaces(e, a), PLACES) }

  /** The entry is back: as it was written, and each gloss with a text seen at the place where that was
    * put. */
  ghost predicate Back(e: Entry, r: Loaded, a: Arena) {
    && r.entry == e && |r.numbers| == |GlossPlaces(e, a)|
    && forall i :: 0 <= i < |r.numbers| ==> r.numbers[i] % PLACES == GlossPlaces(e, a)[i]
  }

  lemma InMemoryIff(e: Entry, hashit: Text -> nat, a: Arena)
    requires Valid(e, hashit)
    ensures Back(e, InMemory(e, a), a) <==> GlossesBelow(e, a)
  {
    hide BeforeGlosses, GlossNumber, Shown, Found, Flag, Pow256, MayGloss, Fits;
    if e.Entry? {
      var places, b := GlossPlaces(e, a), BeforeGlosses(e, a);
      forall i | 0 <= i < |e.glosses|
        ensures GlossNumber(e.glosses[i].0, places[i]) % PLACES == places[i] <==> places[i] < PLACES
        ensures places[i] < PLACES ==> Shown(After(e, a), GlossNumber(e.glosses[i].0, places[i])) == e.glosses[i]
      {
        GlossNumberIff(e.glosses[i].0, places[i]);
        GlossBack(e.glosses, b, i);
      }
      if GlossesBelow(e, a) { assert AllShown(After(e, a), Numbers(e.glosses, places)) == e.glosses; }
    }
  }

  lemma GlossBack(g: seq<(nat, Option<Text>)>, a: Arena, i: nat)
    requires i < |g| && g[i].0 < 256
    ensures Places(g, a)[i] < PLACES ==> Shown(PutAll(g, a), GlossNumber(g[i].0, Places(g, a)[i])) == g[i]
  {
    hide GlossNumber, Found;
    GlossNumberIff(g[i].0, Places(g, a)[i]);
    PutAllFound(g, a, i);
  }

  /** The body of an entry reads back if and only if it has no null meaning and the texts of its glosses
    * are put below 2^24. */
  lemma BodyBackIff(e: Entry, hashit: Text -> nat, a: Arena)
    requires Valid(e, hashit)
    ensures var r := ReadBody(Body(e), hashit, a);
            && (r.None? <==> HasNullMeaning(e))
            && (r.Some? && Back(e, r.value, a) <==> !HasNullMeaning(e) && GlossesBelow(e, a))
  {
    hide Body, ReadBody, Valid, InMemory, Back, GlossesBelow;
    BodyRead(e, hashit, a);
    InMemoryIff(e, hashit, a);
  }

  /** An entry on the stream is read back, and not taken for the end mark, if and only if its length
    * fits the two bytes in front of it, it has no null meaning, and the texts of its glosses are put below
    * 2^24. */
  lemma EntryBackIff(e: Entry, hashit: Text -> nat, rest: seq<Byte>, a: Arena)
    requires Valid(e, hashit)
    ensures var f := ReadEntry(WriteEntry(e) + rest, hashit, a);
            && (f.Next? && f.rest == rest && Back(e, f.read, a) <==> |Body(e)| + 2 < 65536 && !HasNullMeaning(e) && GlossesBelow(e, a))
            && (|Body(e)| + 2 < 65536 ==> f == if HasNullMeaning(e) then Bad else Next(InMemory(e, a), rest))
  {
    hide Body, Valid, ReadBody, Back, InMemory, GlossesBelow;
    var s := WriteEntry(e) + rest;
    var len := |Body(e)| + 2;
    InMemoryIff(e, hashit, a);
    if len < 65536 {
      assert s[0] as int * 256 + s[1] as int == len;
      assert s[2..len] == Body(e) && s[len..] == rest;
      BodyRead(e, hashit, a);
    }
  }

  /** The word "a" with the text "b" as its second gloss. */
  function Glossed(hash: nat): (e: Entry)
    ensures e.Entry? && |e.word| == 1 && e.idiom == None && e.meanings == [] && e.glosses == [(2, Some(['b' as int]))]
  {
    Entry(['a' as int], hash, 0, 0, 0, 0, 0, 0, None, 0, 0, 0, 0, [], [(2, Some(['b' as int]))])
  }

  /** Read when 2^24 bytes of the arena are in use, the second gloss of a word becomes its third. */
  lemma GlossAboveIsLost(hashit: Text -> nat, rest: seq<Byte>, a: Arena)
    requires a.used == PLACES - 12
    ensures var e := Glossed(hashit(['a' as int])); var f := ReadEntry(WriteEntry(e) + rest, hashit, a);
            && Valid(e, hashit) && !HasNullMeaning(e) && |Body(e)| + 2 < 65536
            && f.Next? && f.read.entry.Entry? && |f.read.entry.glosses| == 1 && f.read.entry.glosses[0].0 == 3
  {
    hide ReadEntry, WriteEntry, Glossed, Valid, Body, InMemory, Back, GlossesBelow, HasNullMeaning;
    var e := Glossed(hashit(['a' as int]));
    GlossedIsValid(hashit);
    EntryBackIff(e, hashit, rest, a);
    GlossAbove(e, a);
  }

  lemma GlossedIsValid(hashit: Text -> nat)
    ensures var e := Glossed(hashit(['a' as int])); Valid(e, hashit) && !HasNullMeaning(e) && |Body(e)| + 2 < 65536
  {
    hide WriteNumber, Flag, Parts;
    NoFlags();
    var e := Glossed(hashit(['a' as int]));
    assert GlossesFit(e.glosses);
    assert |WriteGlosses(e.glosses)| == 5 by { assert WriteGlosses(e.glosses[1..]) == []; }
  }

  lemma GlossAbove(e: Entry, a: Arena)
    requires e.Entry? && |e.word| == 1 && e.idiom == None && e.meanings == [] && e.glosses == [(2, Some(['b' as int]))] && a.used == PLACES - 12
    ensures var r := InMemory(e, a).entry; r.Entry? && |r.glosses| == 1 && r.glosses[0].0 == 3
  {
    hide GlossNumber, Found, Or;
    PlacedAbove(e, a);
    GlossNumberIff(2, PLACES + 4);
    assert Or(1, 2, 8) == 3 by { OrOne(); }
  }

  lemma PlacedAbove(e: Entry, a: Arena)
    requires e.Entry? && |e.word| == 1 && e.idiom == None && e.meanings == [] && e.glosses == [(2, Some(['b' as int]))] && a.used == PLACES - 12
    ensures GlossPlaces(e, a) == [PLACES + 4]
  {
    assert Lexicon.Allocate(a.used, 2, 1) == PLACES - 8;
    assert Lexicon.Allocate(PLACES - 8, 8, 16) == PLACES;
    assert Lexicon.Allocate(PLACES, 2, 1) == PLACES + 4;
  }

  lemma OrOne()
    ensures Or(1, 2, 8) == 3
  {
    OrNone(1, 7);
  }

  /** A short entry the writer accepts and the reader does not: the word "a" with one null meaning. */
  lemma NullMeaningIsBad(hashit: Text -> nat, rest: seq<Byte>, a: Arena)
    ensures var e := Entry(['a' as int], hashit(['a' as int]), 0, 0, 0, 0, 0, 0, None, 0, 0, 0, 0, [0], []);
            Valid(e, hashit) && |Body(e)| + 2 < 65536 && ReadEntry(WriteEntry(e) + rest, hashit, a) == Bad
  {
    var e := Entry(['a' as int], hashit(['a' as int]), 0, 0, 0, 0, 0, 0, None, 0, 0, 0, 0, [0], []);
    hide WriteNumber, ReadEntry, WriteEntry, ReadBody, Flag, Parts;
    assert Valid(e, hashit) by { NullMeaningIsValid(hashit); }
    assert |Body(e)| + 2 < 65536 by { NoFlags(); }
    EntryBackIff(e, hashit, rest, a);
  }

  lemma NullMeaningIsValid(hashit: Text -> nat)
    ensures Valid(Entry(['a' as int], hashit(['a' as int]), 0, 0, 0, 0, 0, 0, None, 0, 0, 0, 0, [0], []), hashit)
  {
    hide Flag;
    NoFlags();
  }

  lemma NoFlags()
    ensures forall i: nat :: !Flag(0, i)
  {
    forall i: nat ensures !Flag(0, i) { NoFlag(i); }
  }

  lemma {:induction false} NoFlag(i: nat)
    ensures !Flag(0, i)
  {
    if i > 0 { NoFlag(i - 1); }
  }

  // ----- The whole dictionary -----------------------------------------------------------------

  function WriteEntries(entries: seq<Entry>): seq<Byte> {
    if entries == [] then [] else WriteEntry(entries[0]) + WriteEntries(entries[1..])
  }

  /** WriteBinaryDictionary: the bucket count, the entries in index order, the end mark and the
    * date stamp. */
  function WriteDictionary(buckets: nat, entries: seq<Entry>, stamp: seq<Byte>): seq<Byte> {
    WriteNumber(buckets, 4) + (WriteEntries(entries) + ([0, 0] + stamp))
  }

  /** The loop of ReadBinaryDictionary; None where it exits. */
  function ReadEntries(s: seq<Byte>, hashit: Text -> nat, a: Arena): Option<(seq<Loaded>, seq<Byte>)>
    decreases |s|
  {
    var f := ReadEntry(s, hashit, a);
    if f.AtEnd? then Some(([], f.rest))
    else if f.Bad? || |f.rest| >= |s| then None
    else
      var r := ReadEntries(f.rest, hashit, f.read.arena);
      if r.None? then None else Some(([f.read] + r.value.0, r.value.1))
  }

  /** None if the bucket count is not the one in use, or the stream cannot be read. */
  function ReadDictionary(s: seq<Byte>, buckets: nat, hashit: Text -> nat, a: Arena): Option<(seq<Loaded>, seq<Byte>)> {
    var (size, rest) := ReadNumber(s, 4);
    if size != buckets then None else ReadEntries(rest, hashit, a)
  }

  ghost predicate AllValid(entries: seq<Entry>, hashit: Text -> nat) {
    forall i :: 0 <= i < |entries| ==> Valid(entries[i], hashit) && |Body(entries[i])| + 2 < 65536
  }

  ghost predicate NoneIsNull(entries: seq<Entry>) { forall i :: 0 <= i < |entries| ==> !HasNullMeaning(entries[i]) }

  /** The entries in memory, each read into the arena that those before it left. */
  function AllInMemory(entries: seq<Entry>, a: Arena): (r: seq<Loaded>)
    ensures |r| == |entries|
  {
    if entries == [] then [] else [InMemory(entries[0], a)] + AllInMemory(entries[1..], After(entries[0], a))
  }

  /** The arena an entry is read into: the entries before it have put their words, idioms, lists and
    * gloss texts there. */
  function ArenaAt(entries: seq<Entry>, a: Arena, i: nat): Arena
    requires i <= |entries|
  {
    if i == 0 then a else After(entries[i - 1], ArenaAt(entries, a, i - 1))
  }

  lemma {:induction false} ArenaShift(entries: seq<Entry>, a: Arena, i: nat)
    requires i < |entries|
    ensures ArenaAt(entries, a, i + 1) == ArenaAt(entries[1..], After(entries[0], a), i)
    decreases i
  {
    hide After;
    if i > 0 {
      ArenaShift(entries, a, i - 1);
      assert entries[1..][i - 1] == entries[i];
    } else {
      assert ArenaAt(entries, a, 0) == a;
    }
  }

  lemma {:induction false} AllInMemoryAt(entries: seq<Entry>, a: Arena, i: nat)
    requires i < |entries|
    ensures AllInMemory(entries, a)[i] == InMemory(entries[i], ArenaAt(entries, a, i))
    decreases i
  {
    hide After, InMemory;
    if i > 0 {
      AllInMemoryAt(entries[1..], After(entries[0], a), i - 1);
      ArenaShift(entries, a, i - 1);
    }
  }

  ghost predicate AllGlossesBelow(entries: seq<Entry>, a: Arena) {
    forall i :: 0 <= i < |entries| ==> GlossesBelow(entries[i], ArenaAt(entries, a, i))
  }

  /** Every entry is back. */
  ghost predicate AllBack(entries: seq<Entry>, loaded: seq<Loaded>, a: Arena) {
    |loaded| == |entries| && forall i :: 0 <= i < |entries| ==> Back(entries[i], loaded[i], ArenaAt(entries, a, i))
  }

  lemma {:induction false} EntriesBack(entries: seq<Entry>, hashit: Text -> nat, stamp: seq<Byte>, a: Arena)
    requires AllValid(entries, hashit)
    ensures ReadEntries(WriteEntries(entries) + ([0, 0] + stamp), hashit, a) ==
            if NoneIsNull(entries) then Some((AllInMemory(entries, a), stamp)) else None
    decreases |entries|
  {
    hide Body, Valid, ReadEntry, WriteEntry, HasNullMeaning, InMemory, After, Back, GlossesBelow;
    var end := [0, 0] + stamp;
    if entries == [] {
      assert WriteEntries(entries) + end == end;
      assert ReadEntry(end, hashit, a) == AtEnd(stamp) by { EndBack(stamp, hashit, a); }
    } else {
      var rest := WriteEntries(entries[1..]) + end;
      assert WriteEntries(entries) + end == WriteEntry(entries[0]) + rest;
      EntryBackIff(entries[0], hashit, rest, a);
      assert |WriteEntry(entries[0])| > 0 by { EntryIsLong(entries[0]); }
      EntriesBack(entries[1..], hashit, stamp, After(entries[0], a));
      ArenaOf(entries[0], a);
      assert [entries[0]] + entries[1..] == entries;
      assert NoneIsNull(entries) <==> !HasNullMeaning(entries[0]) && NoneIsNull(entries[1..]);
    }
  }

  lemma ArenaOf(e: Entry, a: Arena)
    ensures InMemory(e, a).arena == After(e, a)
  {
    hide BeforeGlosses;
  }

  lemma EndBack(stamp: seq<Byte>, hashit: Text -> nat, a: Arena)
    ensures ReadEntry([0, 0] + stamp, hashit, a) == AtEnd(stamp)
  {
  }

  lemma EntryIsLong(e: Entry)
    ensures |WriteEntry(e)| >= 2
  {
    hide Body;
  }

  /** A written dictionary is read to its end, and the stream left at the date stamp, if and only if no
    * entry has a null meaning; and every entry is back, in the same order and the free ones included, if
    * and only if besides the texts of all glosses are put below 2^24. Entries read later change nothing
    * about the glosses of an earlier one. */
  lemma DictionaryBackIff(buckets: nat, entries: seq<Entry>, hashit: Text -> nat, stamp: seq<Byte>, a: Arena)
    requires buckets < Pow256(4) && AllValid(entries, hashit)
    ensures var r := ReadDictionary(WriteDictionary(buckets, entries, stamp), buckets, hashit, a);
            && (r.Some? <==> NoneIsNull(entries))
            && (r.Some? && AllBack(entries, r.value.0, a) <==> NoneIsNull(entries) && AllGlossesBelow(entries, a))
            && (r.Some? ==> r.value.1 == stamp && |r.value.0| == |entries|
                            && forall i :: 0 <= i < |entries| ==> SeenAtEnd(r.value.0[i], ArenaAt(entries, a, |entries|)))
  {
    hide WriteNumber, ReadNumber, WriteEntries, ReadEntries, Pow256, NoneIsNull, InMemory, Back, GlossesBelow, Valid, Body, ArenaAt, SeenAtEnd;
    NumberBack(buckets, 4, WriteEntries(entries) + ([0, 0] + stamp));
    EntriesBack(entries, hashit, stamp, a);
    forall i | 0 <= i < |entries|
      ensures Back(entries[i], AllInMemory(entries, a)[i], ArenaAt(entries, a, i)) <==> GlossesBelow(entries[i], ArenaAt(entries, a, i))
      ensures SeenAtEnd(AllInMemory(entries, a)[i], ArenaAt(entries, a, |entries|))
    {
      AllInMemoryAt(entries, a, i);
      InMemoryIff(entries[i], hashit, ArenaAt(entries, a, i));
      SeenLater(entries, a, i, |entries|);
    }
  }

  /** The glosses are seen in the finished arena as when the entry was read. */
  ghost predicate SeenAtEnd(r: Loaded, end: Arena) { r.entry.Free? || AllShown(end, r.numbers) == r.entry.glosses }

  lemma {:induction false} ArenaGrows(entries: seq<Entry>, a: Arena, i: nat, j: nat)
    requires i <= j <= |entries|
    ensures Grows(ArenaAt(entries, a, i), ArenaAt(entries, a, j))
    decreases j
  {
    hide After, Grows;
    if i < j {
      ArenaGrows(entries, a, i, j - 1);
      AfterGrows(entries[j - 1], ArenaAt(entries, a, j - 1));
      GrowsTrans(ArenaAt(entries, a, i), ArenaAt(entries, a, j - 1), ArenaAt(entries, a, j));
    } else {
      GrowsRefl(ArenaAt(entries, a, i));
    }
  }

  lemma AfterGrows(e: Entry, a: Arena)
    ensures Grows(a, After(e, a))
  {
    hide Grows, Put, ListIf;
    GrowsRefl(a);
    if e.Entry? {
      var a1 := Put(a, Some(e.word)).1;
      var a2 := Put(a1, e.idiom).1;
      var a3 := ListIf(e.meanings != [], a2, |e.meanings|);
      var a4 := ListIf(e.glosses != [], a3, |e.glosses|);
      PutGrows(a, Some(e.word), 0, false);
      PutGrows(a1, e.idiom, 0, false);
      PutGrows(a2, None, |e.meanings|, e.meanings != []);
      PutGrows(a3, None, |e.glosses|, e.glosses != []);
      PutAllGrows(e.glosses, a4);
      GrowsTrans(a, a1, a2);
      GrowsTrans(a, a2, a3);
      GrowsTrans(a, a3, a4);
      GrowsTrans(a, a4, After(e, a));
    }
  }

  lemma SeenLater(entries: seq<Entry>, a: Arena, i: nat, j: nat)
    requires i < j <= |entries|
    ensures SeenAtEnd(InMemory(entries[i], ArenaAt(entries, a, i)), ArenaAt(entries, a, j))
  {
    hide ArenaAt, Grows, InMemory, SeenAtEnd, After;
    ArenaGrows(entries, a, i + 1, j);
    ArenaNext(entries, a, i);
    SeenInGrown(entries[i], ArenaAt(entries, a, i), ArenaAt(entries, a, j));
  }

  lemma SeenInGrown(e: Entry, a: Arena, end: Arena)
    requires Grows(After(e, a), end)
    ensures SeenAtEnd(InMemory(e, a), end)
  {
    hide Grows, AllShown, BeforeGlosses, Numbers, Places, PutAll;
    if e.Entry? {
      var b := BeforeGlosses(e, a);
      NumbersInUse(e.glosses, b);
      assert After(e, a) == PutAll(e.glosses, b) && GlossPlaces(e, a) == Places(e.glosses, b);
      ShownStays(PutAll(e.glosses, b), end, Numbers(e.glosses, Places(e.glosses, b)));
    }
  }

  lemma ArenaNext(entries: seq<Entry>, a: Arena, i: nat)
    requires i < |entries|
    ensures ArenaAt(entries, a, i + 1) == After(entries[i], ArenaAt(entries, a, i))
  {
  }

  lemma NumbersInUse(g: seq<(nat, Option<Text>)>, a: Arena)
    ensures var n := Numbers(g, Places(g, a)); forall i :: 0 <= i < |n| ==> n[i] % PLACES <= PutAll(g, a).used
  {
    hide Or;
    forall i | 0 <= i < |g|
      ensures GlossNumber(g[i].0, Places(g, a)[i]) % PLACES <= PutAll(g, a).used
    {
      PutAllFound(g, a, i);
      LowPlace(g[i].0, Places(g, a)[i]);
    }
  }

  lemma LowPlace(index: nat, place: nat)
    ensures GlossNumber(index, place) % PLACES == place % PLACES <= place
  {
    hide Or;
  }

  // ----- The codec as the program runs it -------------------------------------------------------

  /** The buffer and `writePtr`: `bytes` is what lies before the pointer when writing, and what
    * lies after it when reading. */
  class Cursor {
    var bytes: seq<Byte>
    var arena: Arena                 // the string arena, down to stringFree

    constructor (bytes: seq<Byte>, arena: Arena)
      ensures this.bytes == bytes && this.arena == arena
    {
      this.bytes, this.arena := bytes, arena;
    }

    /** Write8, Write16, Write24, Write32 and Write64. */
    method Write(val: nat, k: nat)
      modifies this`bytes
      ensures bytes == old(bytes) + WriteNumber(val, k)
    {
      var n, i := val, 0;
      while i < k
        invariant i <= k && bytes + WriteNumber(n, k - i) == old(bytes) + WriteNumber(val, k)
      {
        var rest := WriteNumber(n / 256, k - i - 1);
        assert bytes + ([n % 256] + rest) == (bytes + [n % 256]) + rest;
        bytes := bytes + [n % 256];
        n, i := n / 256, i + 1;
      }
    }

    method WriteText(t: Option<Text>)
      modifies this`bytes
      ensures bytes == old(bytes) + WriteString(t)
    {
      hide WriteNumber;
      if t.None? || t.value == [] {
        Write(0, 2);
      } else {
        Write(|t.value|, 2);
        bytes := bytes + (t.value + [0]);
      }
    }

    method WriteMeaningList(m: seq<nat>)
      modifies this`bytes
      ensures bytes == old(bytes) + WriteMeanings(m)
    {
      hide WriteNumber;
      var i := 0;
      while i < |m|
        invariant 0 <= i <= |m| && bytes + WriteMeanings(m[i..]) == old(bytes) + WriteMeanings(m)
      {
        assert m[i..][0] == m[i] && m[i..][1..] == m[i + 1..];
        var rest := WriteMeanings(m[i + 1..]);
        assert bytes + (WriteNumber(m[i], 4) + rest) == (bytes + WriteNumber(m[i], 4)) + rest;
        Write(m[i], 4);
        i := i + 1;
      }
    }

    method WriteGlossList(g: seq<(nat, Option<Text>)>)
      modifies this`bytes
      ensures bytes == old(bytes) + WriteGlosses(g)
    {
      hide WriteNumber, WriteString;
      var i := 0;
      while i < |g|
        invariant 0 <= i <= |g| && bytes + WriteGlosses(g[i..]) == old(bytes) + WriteGlosses(g)
      {
        assert g[i..][0] == g[i] && g[i..][1..] == g[i + 1..];
        var rest := WriteGlosses(g[i + 1..]);
        var n, t := WriteNumber(g[i].0, 1), WriteString(g[i].1);
        assert bytes + (n + (t + rest)) == ((bytes + n) + t) + rest;
        Write(g[i].0, 1);
        WriteText(g[i].1);
        i := i + 1;
      }
    }

    /** Read8, Read16, Read24, Read32 and Read64. */
    method Read(k: nat) returns (n: nat)
      modifies this`bytes
      ensures (n, bytes) == ReadNumber(old(bytes), k)
    {
      if k == 0 || bytes == [] { return 0; }
      var b := bytes[0];
      bytes := bytes[1..];
      n := Read(k - 1);
      n := b as int + 256 * n;
    }

    /** ReadString: the text goes into the string arena. */
    method ReadText() returns (t: Option<Text>, place: nat)
      modifies this
      ensures (t, bytes) == ReadString(old(bytes)) && (place, arena) == Put(old(arena), t)
    {
      hide ReadNumber, Lexicon.Allocate;
      var len := Read(2);
      if len == 0 { return None, 0; }
      if |bytes| <= len {
        bytes := [];
        return None, 0;
      }
      t := Some(bytes[..len]);
      bytes := bytes[len + 1..];
      place := Lexicon.Allocate(arena.used, len + 1, 1);
      arena := arena.(used := place, texts := arena.texts[place := t.value]);
    }

    /** Gives up at the first null meaning. */
    method ReadMeaningList(n: nat) returns (m: seq<nat>, ok: bool)
      modifies this`bytes
      ensures ok <==> 0 !in ReadMeanings(old(bytes), n).0
      ensures ok ==> (m, bytes) == ReadMeanings(old(bytes), n)
    {
      hide ReadNumber;
      m := [];
      var i := 0;
      assert [] + ReadMeanings(bytes, n).0 == ReadMeanings(bytes, n).0;
      while i < n
        invariant i <= n && 0 !in m
        invariant var (rest, s) := ReadMeanings(bytes, n - i); (m + rest, s) == ReadMeanings(old(bytes), n)
      {
        ghost var rest := ReadMeanings(ReadNumber(bytes, 4).1, n - i - 1).0;
        var meaning := Read(4);
        assert m + ([meaning] + rest) == (m + [meaning]) + rest;
        m := m + [meaning];
        if meaning == 0 {
          assert m[|m| - 1] == 0 && ReadMeanings(old(bytes), n).0 == m + rest;
          return m, false;
        }
        i := i + 1;
      }
      assert m + [] == m;
      ok := true;
    }

    method ReadGlossList(n: nat) returns (g: seq<nat>)
      modifies this
      ensures (g, bytes, arena) == ReadGlosses(old(bytes), n, old(arena))
    {
      hide ReadNumber, ReadString, GlossNumber, Put;
      g := [];
      var i := 0;
      assert [] + ReadGlosses(bytes, n, arena).0 == ReadGlosses(bytes, n, arena).0;
      while i < n
        invariant i <= n
        invariant var (rest, s, a) := ReadGlosses(bytes, n - i, arena); (g + rest, s, a) == ReadGlosses(old(bytes), n, old(arena))
      {
        ghost var s2 := ReadString(ReadNumber(bytes, 1).1);
        ghost var rest := ReadGlosses(s2.1, n - i - 1, Put(arena, s2.0).1).0;
        var index := Read(1);
        var text, place := ReadText();
        assert g + ([GlossNumber(index, place)] + rest) == (g + [GlossNumber(index, place)]) + rest;
        g := g + [GlossNumber(index, place)];
        i := i + 1;
      }
      assert g + [] == g;
    }

    method WriteOptional(b: bool, val: nat, k: nat)
      modifies this`bytes
      ensures bytes == old(bytes) + WriteIf(b, val, k)
    {
      if b { Write(val, k); }
    }

    /** WriteBinaryEntry, before the length is put in front. */
    method WriteBody(e: Entry)
      modifies this`bytes
      ensures bytes == old(bytes) + Body(e)
    {
      hide WriteNumber, WriteString, WriteIf, Parts, WriteMeanings, WriteGlosses, Flag;
      if e.Free? {
        WriteText(None);
        return;
      }
      ghost var b0 := bytes;
      WriteText(Some(e.word));
      Write(Parts(e), 1);
      ghost var b1 := bytes;
      var any := e.systemFlags != 0 || e.properties != 0 || e.parseBits != 0;
      WriteOptional(any, e.properties, 8);
      WriteOptional(any, e.systemFlags, 8);
      WriteOptional(any, e.parseBits, 4);
      ghost var b2 := bytes;
      WriteRest(e);
      assert bytes == b1 + FromFlags(e) by { Regroup(b1, WriteIf(any, e.properties, 8), WriteIf(any, e.systemFlags, 8), WriteIf(any, e.parseBits, 4), FromInternal(e)); }
      Regroup(b0, WriteString(Some(e.word)), WriteNumber(Parts(e), 1), [], FromFlags(e));
    }

    method WriteRest(e: Entry)
      requires e.Entry?
      modifies this`bytes
      ensures bytes == old(bytes) + FromInternal(e)
    {
      hide WriteNumber, WriteString, WriteIf, WriteMeanings, WriteGlosses, Flag;
      ghost var b0 := bytes;
      WriteOptional(e.internalBits != 0, e.internalBits, 4);
      WriteOptional(Flag(e.internalBits, DEFINES), e.inferMark, 4);
      Write(e.next, 3);
      ghost var b1 := bytes;
      if Flag(e.systemFlags, CONDITIONAL_IDIOM) { WriteText(e.idiom); }
      WriteOptional(e.header != 0, e.header, 1);
      ghost var b2 := bytes;
      WriteLinks(e);
      var idiom := if Flag(e.systemFlags, CONDITIONAL_IDIOM) then WriteString(e.idiom) else [];
      Regroup(b1, idiom, WriteIf(e.header != 0, e.header, 1), [], FromForms(e));
      assert bytes == b1 + FromIdiom(e);
      Regroup(b0, WriteIf(e.internalBits != 0, e.internalBits, 4), WriteIf(Flag(e.internalBits, DEFINES), e.inferMark, 4), WriteNumber(e.next, 3), FromIdiom(e));
    }

    method WriteLinks(e: Entry)
      requires e.Entry?
      modifies this`bytes
      ensures bytes == old(bytes) + FromForms(e)
    {
      hide WriteNumber, WriteString, WriteIf, WriteMeanings, WriteGlosses;
      ghost var b0 := bytes;
      WriteOptional(e.tense != 0, e.tense, 4);
      WriteOptional(e.plural != 0, e.plural, 4);
      WriteOptional(e.comparison != 0, e.comparison, 4);
      ghost var b1 := bytes;
      if e.meanings != [] {
        Write(|e.meanings|, 1);
        WriteMeaningList(e.meanings);
      }
      ghost var b2 := bytes;
      if e.glosses != [] {
        Write(|e.glosses|, 1);
        WriteGlossList(e.glosses);
      }
      bytes := bytes + END;
      assert bytes == b2 + FromGlosses(e);
      assert bytes == b1 + FromMeanings(e);
      Regroup(b0, WriteIf(e.tense != 0, e.tense, 4), WriteIf(e.plural != 0, e.plural, 4), WriteIf(e.comparison != 0, e.comparison, 4), FromMeanings(e));
    }

    method ReadOptional(b: bool, k: nat) returns (n: nat)
      modifies this`bytes
      ensures (n, bytes) == ReadIf(b, old(bytes), k)
    {
      if b { n := Read(k); } else { n := 0; }
    }

    method ReadFlags(parts: nat) returns (f: Front)
      modifies this
      ensures f == ReadFront(parts, old(bytes)) && bytes == f.rest && arena == Put(old(arena), f.idiom).1
    {
      hide ReadNumber, ReadString, ReadIf, Flag, Lexicon.Allocate;
      var properties := ReadOptional(Flag(parts, 6), 8);
      var systemFlags := ReadOptional(Flag(parts, 6), 8);
      var parseBits := ReadOptional(Flag(parts, 6), 4);
      var internalBits := ReadOptional(Flag(parts, 7), 4);
      var inferMark := ReadOptional(Flag(internalBits, DEFINES), 4);
      var next := Read(3);
      var idiom, place := None, 0;
      if Flag(systemFlags, CONDITIONAL_IDIOM) { idiom, place := ReadText(); }
      f := Front(properties, systemFlags, parseBits, internalBits, inferMark, next, idiom, bytes);
    }

    method ReadLinks(parts: nat) returns (f: Forms)
      modifies this`bytes
      ensures f == ReadForms(parts, old(bytes)) && bytes == f.rest
    {
      hide ReadNumber, ReadIf, Flag;
      var header := ReadOptional(Flag(parts, 0), 1);
      var tense := ReadOptional(Flag(parts, 1), 4);
      var plural := ReadOptional(Flag(parts, 2), 4);
      var comparison := ReadOptional(Flag(parts, 3), 4);
      f := Forms(header, tense, plural, comparison, bytes);
    }

    method ReadLists(parts: nat) returns (f: Tail, ok: bool)
      modifies this
      ensures ok <==> 0 !in ReadTail(parts, old(bytes), old(arena)).meanings
      ensures ok ==> f == ReadTail(parts, old(bytes), old(arena)) && bytes == f.rest && arena == f.arena
    {
      hide ReadNumber, ReadIf, ReadMeanings, ReadGlosses, Flag, PutList;
      var meaningCount := ReadOptional(Flag(parts, 4), 1);
      if Flag(parts, 4) { arena := PutList(arena, meaningCount); }
      var meanings;
      meanings, ok := ReadMeaningList(meaningCount);
      if !ok { return Tail([], [], [], arena), false; }
      var glossCount := ReadOptional(Flag(parts, 5), 1);
      if Flag(parts, 5) { arena := PutList(arena, glossCount); }
      var numbers := ReadGlossList(glossCount);
      f := Tail(meanings, numbers, bytes, arena);
    }

    /** ReadBinaryEntry, once the entry is in the buffer. */
    method ReadEntryBody(hashit: Text -> nat) returns (e: Option<Loaded>)
      modifies this
      ensures e == ReadBody(old(bytes), hashit, old(arena)) && (e.Some? ==> arena == e.value.arena)
    {
      hide ReadNumber, ReadString, ReadFront, ReadForms, ReadTail, Put, AllShown;
      ghost var before := arena;
      var name, place := ReadText();
      if name.None? {
        NothingPut(before);
        return Some(Loaded(Free, [], arena));
      }
      var parts := Read(1);
      var f := ReadFlags(parts);
      var g := ReadLinks(parts);
      var l, ok := ReadLists(parts);
      if !ok { return None; }
      var mark := Read(1);
      if mark != '0' as int { return None; }
      return Some(Built(name.value, hashit(name.value), f, g, l));
    }
  }

  lemma NothingPut(a: Arena)
    ensures Put(a, None) == (0, a)
  {
  }

  lemma Regroup(b: seq<Byte>, x: seq<Byte>, y: seq<Byte>, z: seq<Byte>, rest: seq<Byte>)
    ensures (((b + x) + y) + z) + rest == b + (x + (y + (z + rest)))
    ensures z == [] ==> ((b + x) + y) + rest == b + (x + (y + rest))
  {
  }
}
