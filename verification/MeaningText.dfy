/** The written form of a meaning: WriteMeaning and ReadMeaning of dictionarySystem.cpp. A
  * meaning names a word, and may go on with an index, a part of speech and a synset mark. */
module MeaningText {
  import opened Words
  import opened Lexicon
  import opened LexiconLaws
  import opened Lookup

  datatype Kind = Plain | Noun | Verb | Adjective | Adverb

  /** The four fields of a MEANING; `word` is 0 in the null meaning. */
  datatype Meaning = Meaning(word: nat, index: nat, kind: Kind, synset: bool)

  const NULL_MEANING := Meaning(0, 0, Plain, false)

  // ----- The bits of a meaning ------------------------------------------------------------------

  function KindCode(k: Kind): nat {
    match k
    case Plain => 0
    case Noun => 8
    case Verb => 4
    case Adjective => 2
    case Adverb => 1
  }

  predicate InRange(m: Meaning) { m.word < 0x100000 && m.index < 64 }

  /** 20 bits of word, 6 of index, one unused, the synset mark and four of type. */
  function Pack(m: Meaning): nat {
    m.word + 0x100000 * (m.index + 64 * (2 * ((if m.synset then 1 else 0) + 2 * KindCode(m.kind))))
  }

  /** No two meanings have the same bits. */
  lemma PackIsInjective(a: Meaning, b: Meaning)
    requires InRange(a) && InRange(b) && Pack(a) == Pack(b)
    ensures a == b
  {
    PackParts(a);
    PackParts(b);
  }

  lemma PackParts(m: Meaning)
    requires InRange(m)
    ensures m.word == Pack(m) % 0x100000 && m.index == Pack(m) / 0x100000 % 64
    ensures (if m.synset then 1 else 0) + 2 * KindCode(m.kind) == Pack(m) / 0x100000 / 64 / 2
  {
  }

  /** Where the bits of a meaning are: the word below 2^20, the index below 2^26, the synset mark at 2^27, and
    * above it a bit for each part of speech. */
  lemma PackBits(m: Meaning)
    requires InRange(m)
    ensures var n := Pack(m);
            && n % 0x100000 == m.word && n / 0x100000 % 64 == m.index && n / 0x4000000 % 2 == 0
            && (n / 0x8000000 % 2 == 1 <==> m.synset)
            && n / 0x10000000 == match m.kind case Plain => 0 case Adverb => 1 case Adjective => 2 case Verb => 4 case Noun => 8
  {
    PackParts(m);
    var high := (if m.synset then 1 else 0) + 2 * KindCode(m.kind);
    PackHigh(m.word + 0x100000 * m.index, high);
  }

  lemma PackHigh(low: nat, high: nat)
    requires low < 0x4000000
    ensures var n := low + 0x8000000 * high;
            n / 0x4000000 % 2 == 0 && n / 0x8000000 % 2 == high % 2 && n / 0x10000000 == high / 2
  {
    var n := low + 0x8000000 * high;
    PackUnused(low, high);
    PackMarked(low, high);
    PackKind(low, high % 2, high / 2);
    assert n == low + 0x8000000 * (high % 2) + 0x10000000 * (high / 2);
  }

  lemma PackUnused(low: nat, high: nat)
    requires low < 0x4000000
    ensures (low + 0x8000000 * high) / 0x4000000 == 2 * high
  {
  }

  lemma PackMarked(low: nat, high: nat)
    requires low < 0x4000000
    ensures (low + 0x8000000 * high) / 0x8000000 == high
  {
  }

  lemma PackKind(low: nat, mark: nat, kind: nat)
    requires low < 0x4000000 && mark < 2
    ensures (low + 0x8000000 * mark + 0x10000000 * kind) / 0x10000000 == kind
  {
  }

  // ----- Writing --------------------------------------------------------------------------------

  function Digit(n: nat): char
    requires n < 10
  {
    (n + '0' as int) as char
  }

  function IndexText(index: nat): string
    requires index < 64
  {
    if index > 9 then ['~', Digit(index / 10), Digit(index % 10)] else if index > 0 then ['~', Digit(index)] else ""
  }

  function KindText(k: Kind): string {
    match k
    case Plain => ""
    case Noun => "n"
    case Verb => "v"
    case Adjective => "a"
    case Adverb => "b"
  }

  /** What WriteMeaning with the part of speech puts after the word. */
  function Suffix(m: Meaning): string
    requires m.index < 64
  {
    IndexText(m.index) + (if m.kind != Plain && m.index == 0 then "~" else "") + KindText(m.kind) + (if m.synset then "z" else "")
  }

  function WriteMeaning(m: Meaning, word: string): string
    requires m.index < 64
  {
    if m.word == 0 then "deadcow" else word + Suffix(m)
  }

  /** What written meanings look like. */
  lemma WrittenForm(w: nat)
    requires w > 0
    ensures WriteMeaning(Meaning(w, 3, Plain, false), "bank") == "bank~3"
    ensures WriteMeaning(Meaning(w, 12, Verb, false), "bank") == "bank~12v"
    ensures WriteMeaning(Meaning(w, 2, Noun, true), "bank") == "bank~2nz"
    ensures WriteMeaning(Meaning(w, 0, Adjective, false), "bank") == "bank~a"
    ensures WriteMeaning(Meaning(w, 0, Adverb, true), "bank") == "bank~bz"
    ensures WriteMeaning(NULL_MEANING, "bank") == "deadcow"
  {
    assert "bank" + ("~3" + "" + "" + "") == "bank~3";
    assert "bank" + (['~', '1', '2'] + "" + "v" + "") == "bank~12v";
    assert "bank" + (['~', '2'] + "" + "n" + "z") == "bank~2nz";
    assert "bank" + ("" + "~" + "a" + "") == "bank~a";
    assert "bank" + ("" + "~" + "b" + "z") == "bank~bz";
  }

  // ----- Reading --------------------------------------------------------------------------------

  /** A character of a C string. */
  function At(s: string, i: nat): char { if i < |s| then s[i] else '\0' }

  function IndexOf(s: string, c: char): (i: nat)
    ensures i <= |s| && (i < |s| ==> s[i] == c) && c !in s[..i]
  {
    if s == "" || s[0] == c then 0 else 1 + IndexOf(s[1..], c)
  }

  predicate IsDigit(c: char) { '0' <= c <= '9' }

  function SkipDigits(s: string, i: nat): (p: nat)
    ensures p >= i
    decreases |s| - i
  {
    if i < |s| && IsDigit(s[i]) then SkipDigits(s, i + 1) else i
  }

  /** atoi of the digits from `i` on, `n` read so far. */
  function Atoi(s: string, i: nat, n: nat): nat
    decreases |s| - i
  {
    if i < |s| && IsDigit(s[i]) then Atoi(s, i + 1, 10 * n + (s[i] as int - '0' as int)) else n
  }

  function KindOf(c: char): Kind {
    if c == 'n' then Noun else if c == 'v' then Verb else if c == 'a' then Adjective else if c == 'b' then Adverb else Plain
  }

  function Look(word: string, index: nat, kind: Kind, synset: bool, find: string -> nat): Meaning {
    if word == "" || find(word) == 0 then NULL_MEANING else Meaning(find(word), index, kind, synset)
  }

  /** The part of ReadMeaning for a word with a tilde at `at`. */
  function ReadMarks(word: string, at: nat, find: string -> nat): Meaning
    requires at < |word|
  {
    var digit := IsDigit(At(word, at + 1));
    var index := if digit then Atoi(word, at + 1, 0) else 0;
    var p := SkipDigits(word, at + 1);
    var kind := if digit then KindOf(At(word, p)) else Plain;
    var synset := digit && (At(word, p) == 'z' || (At(word, p) != '\0' && At(word, p + 1) == 'z'));
    if index != 0 then Look(word[..at], index, kind, synset, find)
    else
      var last := At(word, at + 2) == '\0' || At(word, at + 2) == ' ' || At(word, at + 2) == 'z';
      var over := last && KindOf(At(word, at + 1)) != Plain;
      var kind2 := if over then KindOf(At(word, at + 1)) else kind;
      var synset2 := (!over && synset) || At(word, at + 1) == 'z' || At(word, at + 2) == 'z';
      Look(if digit || kind2 != Plain || synset2 then word[..at] else word, 0, kind2, synset2, find)
  }

  /** ReadMeaning, of a text that is not quoted; `find` is StoreWord or FindWord as asked for. */
  function ReadMeaning(text: string, find: string -> nat): Meaning {
    var word := if |text| == 2 && text[0] == '\\' then text[1..] else text;
    var at := if word != "" && word[0] != '~' then IndexOf(word, '~') else |word|;
    if at == |word| then Look(word, 0, Plain, false, find) else ReadMarks(word, at, find)
  }

  // ----- Reading back -----------------------------------------------------------------------------

  lemma {:induction false} TildeAt(w: string, suffix: string)
    requires '~' !in w && (suffix == "" || suffix[0] == '~')
    ensures IndexOf(w + suffix, '~') == |w|
    decreases |w|
  {
    if w != "" {
      assert (w + suffix)[1..] == w[1..] + suffix;
      TildeAt(w[1..], suffix);
    } else {
      assert w + suffix == suffix;
    }
  }

  lemma DigitsBack(s: string, i: nat, index: nat)
    requires 0 < index < 64 && i + |IndexText(index)| <= |s|
    requires s[i..i + |IndexText(index)|] == IndexText(index)
    requires i + |IndexText(index)| == |s| || !IsDigit(s[i + |IndexText(index)|])
    ensures IsDigit(At(s, i + 1)) && Atoi(s, i + 1, 0) == index && SkipDigits(s, i + 1) == i + |IndexText(index)|
  {
    var t := IndexText(index);
    assert s[i..i + |t|][1] == s[i + 1];
    if index > 9 {
      assert s[i..i + |t|][2] == s[i + 2];
      assert Atoi(s, i + 1, 0) == Atoi(s, i + 2, index / 10) == Atoi(s, i + 3, index);
      assert SkipDigits(s, i + 1) == SkipDigits(s, i + 2) == SkipDigits(s, i + 3);
    } else {
      assert Atoi(s, i + 1, 0) == Atoi(s, i + 2, index);
      assert SkipDigits(s, i + 1) == SkipDigits(s, i + 2);
    }
  }

  /** What follows the index or the tilde. */
  function Tail(m: Meaning): string { KindText(m.kind) + (if m.synset then "z" else "") }

  /** A word with something from a tilde on behind it is read as the word with its marks. */
  lemma MarkedReads(w: string, suffix: string, find: string -> nat)
    requires w != "" && '~' !in w && |suffix| >= 2 && suffix[0] == '~'
    ensures ReadMeaning(w + suffix, find) == ReadMarks(w + suffix, |w|, find) && (w + suffix)[..|w|] == w
  {
    hide IndexOf, ReadMarks;
    TildeAt(w, suffix);
    assert (w + suffix)[0] == w[0];
  }

  lemma IndexedBack(m: Meaning, w: string, find: string -> nat)
    requires 0 < m.index < 64 && w != "" && '~' !in w && find(w) == m.word != 0
    ensures ReadMeaning(w + Suffix(m), find) == m
  {
    hide Atoi, SkipDigits, ReadMeaning, ReadMarks, KindOf, IsDigit, Suffix, Tail, IndexText;
    var t := IndexText(m.index);
    var s := w + Suffix(m);
    SuffixParts(m, w);
    MarkedReads(w, Suffix(m), find);
    SliceMiddle(w, t, Tail(m));
    var p := |w| + |t|;
    TailReads(m, s, p);
    assert p < |s| ==> At(s, p) == s[p];
    DigitsBack(s, |w|, m.index);
    MarksAfterIndex(s, |w|, m.index, p, find);
  }

  lemma SuffixParts(m: Meaning, w: string)
    requires 0 < m.index < 64
    ensures var t := IndexText(m.index);
            && w + Suffix(m) == w + t + Tail(m)
            && |Suffix(m)| >= 2 && Suffix(m)[0] == '~'
  {
    assert Suffix(m) == IndexText(m.index) + Tail(m);
    assert w + (IndexText(m.index) + Tail(m)) == w + IndexText(m.index) + Tail(m);
  }

  lemma MarksAfterIndex(s: string, at: nat, index: nat, p: nat, find: string -> nat)
    requires at < |s| && IsDigit(At(s, at + 1)) && Atoi(s, at + 1, 0) == index != 0 && SkipDigits(s, at + 1) == p
    ensures ReadMarks(s, at, find) ==
            Look(s[..at], index, KindOf(At(s, p)), At(s, p) == 'z' || (At(s, p) != '\0' && At(s, p + 1) == 'z'), find)
  {
    hide Atoi, SkipDigits, At, KindOf, IsDigit, Look;
  }

  lemma SliceMiddle(a: string, b: string, c: string)
    ensures var s := a + b + c; var p := |a| + |b|;
            s[|a|..p] == b && forall k :: 0 <= k < |c| ==> s[p + k] == c[k]
  {
  }

  lemma TailReads(m: Meaning, s: string, p: nat)
    requires |s| == p + |Tail(m)| && forall k :: 0 <= k < |Tail(m)| ==> s[p + k] == Tail(m)[k]
    ensures KindOf(At(s, p)) == m.kind && !IsDigit(At(s, p)) && At(s, p) != ' '
    ensures m.synset <==> At(s, p) == 'z' || (At(s, p) != '\0' && At(s, p + 1) == 'z')
    ensures m.kind != Plain ==> At(s, p) != 'z' && At(s, p + 1) == if m.synset then 'z' else '\0'
  {
    var t := Tail(m);
    assert |t| > 0 ==> s[p + 0] == t[0];
    assert |t| > 1 ==> s[p + 1] == t[1];
    assert |t| <= 2;
  }

  lemma TypedBack(m: Meaning, w: string, find: string -> nat)
    requires m.index == 0 && m.kind != Plain && w != "" && '~' !in w && find(w) == m.word != 0
    ensures ReadMeaning(w + Suffix(m), find) == m
  {
    hide Atoi, SkipDigits, IndexOf, ReadMeaning, KindOf;
    var s := w + Suffix(m);
    assert Suffix(m) == "~" + Tail(m);
    MarkedReads(w, Suffix(m), find);
    SliceMiddle(w, "~", Tail(m));
    assert s == w + "~" + Tail(m);
    TailReads(m, s, |w| + 1);
  }

  lemma UntypedReads(w: string, find: string -> nat)
    requires w != "" && '~' !in w
    ensures ReadMeaning(w, find) == Look(if |w| == 2 && w[0] == '\\' then w[1..] else w, 0, Plain, false, find)
  {
    hide Atoi, SkipDigits, IndexOf;
    var x := if |w| == 2 && w[0] == '\\' then w[1..] else w;
    TildeAt(x, "");
    assert x + "" == x;
  }

  /** Reading the written form of a meaning gives it back, if and only if a synset mark does not
    * stand alone and the text is not an escaped single character. `find` tells the words of
    * different length apart and finds the word of the meaning under its own spelling. */
  lemma WrittenIsReadIff(m: Meaning, w: string, find: string -> nat)
    requires m.index < 64 && w != "" && '~' !in w && w[0] != '"' && find(w) == m.word != 0
    requires forall x :: find(x) == m.word ==> |x| == |w|
    ensures var plain := m.index == 0 && m.kind == Plain;
            ReadMeaning(WriteMeaning(m, w), find) == m <==> !(plain && m.synset) && !(plain && |w| == 2 && w[0] == '\\')
  {
    hide ReadMeaning;
    if m.index > 0 {
      IndexedBack(m, w, find);
    } else if m.kind != Plain {
      TypedBack(m, w, find);
    } else if m.synset {
      assert Suffix(m) == "z" && WriteMeaning(m, w) == w + "z";
      UntypedReads(w + "z", find);
    } else {
      assert Suffix(m) == "" && WriteMeaning(m, w) == w + "" == w;
      UntypedReads(w, find);
    }
  }

  /** With the dictionary's own lookup: FindWord finds the word of a meaning again in its own case,
    * unless it is a name always filed in lower case. */
  lemma WrittenIsFound(k: Lex, h: Hashing, m: Meaning, w: string)
    requires Lawful(k, h) && Stored(k, m.word, w) && m.index < 64 && '~' !in w && w[0] != '"' && w[0] != '\\' && !AlwaysLower(w)
    requires m.synset ==> m.index != 0 || m.kind != Plain
    ensures h.buckets > 0 && ReadMeaning(WriteMeaning(m, w), x => FindWord(k, h, x, PRIMARY)) == m
  {
    hide Lawful, Lookup.FindWord, ReadMeaning, WriteMeaning, Hashit, HasUpper, AlwaysLower, LowerChar;
    LawfulZone(k, h);
    PrimaryIsExact(k, h, w, m.word, PRIMARY);
    NotZero(k, h, m.word, w);
    forall x | FindWord(k, h, x, PRIMARY) == m.word ensures |x| == |w| { PrimaryFindsVariant(k, h, x); }
    WrittenIsReadIff(m, w, x => FindWord(k, h, x, PRIMARY));
  }

  lemma NotZero(k: Lex, h: Hashing, i: nat, w: string)
    requires Lawful(k, h) && Stored(k, i, w)
    ensures i != 0
  {
    hide Lawful;
    FindSpellingIsExact(k, h, w);
  }

  /** And StoreWord finds it always. */
  lemma WrittenIsStored(k: Lex, h: Hashing, m: Meaning, w: string)
    requires Lawful(k, h) && Stored(k, m.word, w) && m.index < 64 && '~' !in w && w[0] != '"' && w[0] != '\\'
    requires m.synset ==> m.index != 0 || m.kind != Plain
    ensures h.buckets > 0 && ZoneEnd(h) <= |k.entries|
    ensures ReadMeaning(WriteMeaning(m, w), x => if x == "" then 0 else FindSpelling(k, h, x)) == m
  {
    hide Lawful, FindSpelling, ReadMeaning, WriteMeaning, Hashit;
    LawfulZone(k, h);
    FindSpellingIsExact(k, h, w);
    forall x | x != "" && FindSpelling(k, h, x) == m.word ensures |x| == |w| { FindSpellingIsExact(k, h, x); }
    WrittenIsReadIff(m, w, x => if x == "" then 0 else FindSpelling(k, h, x));
  }
}
