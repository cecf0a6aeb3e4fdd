/** What the changes of a word come to, bit by bit: which properties, flags and headers it has
  * afterwards, and that no other word is touched. */
module LexiconEffects {
  import opened Words
  import opened Lexicon
  import opened LexiconLaws

  /** A mask of one bit. */
  predicate OneBit(b: bv64) { b != 0 && b & (b - 1) == 0 }

  /** The bits meet a mask. */
  predicate Has(bits: bv64, b: bv64) { bits & b != 0 }

  // ----- Bits -----------------------------------------------------------------------------

  lemma MeetsLeft(u: bv64, p: bv64, f: bv64, b: bv64)
    requires u == p | f && Has(p, b)
    ensures Has(u, b)
  {
  }

  lemma MeetsRight(u: bv64, p: bv64, f: bv64, b: bv64)
    requires u == p | f && Has(f, b)
    ensures Has(u, b)
  {
  }

  lemma MeetsNeither(u: bv64, p: bv64, f: bv64, b: bv64)
    requires u == p | f && !Has(p, b) && !Has(f, b)
    ensures !Has(u, b)
  {
  }

  lemma MeetsSet(u: bv64, p: bv64, f: bv64, b: bv64)
    requires u == p | f
    ensures Has(u, b) <==> Has(p, b) || Has(f, b)
  {
    hide Has;
    if Has(p, b) { MeetsLeft(u, p, f, b); } else if Has(f, b) { MeetsRight(u, p, f, b); } else { MeetsNeither(u, p, f, b); }
  }

  lemma BitOfSet(p: bv64, f: bv64, b: bv64)
    ensures Has(SetBits(p, f), b) <==> Has(p, b) || Has(f, b)
  {
    hide Has;
    MeetsSet(SetBits(p, f), p, f, b);
  }

  lemma BitWithin(p: bv64, f: bv64, b: bv64)
    requires AllBits(p, f) && Has(f, b)
    ensures Has(p, b)
  {
    assert f == p & f;
  }

  lemma MeetsKept(u: bv64, p: bv64, f: bv64, b: bv64)
    requires u == p & !f && !Has(f, b) && Has(p, b)
    ensures Has(u, b)
  {
  }

  lemma MeetsLost(u: bv64, p: bv64, f: bv64, b: bv64)
    requires u == p & !f && !Has(p, b)
    ensures !Has(u, b)
  {
  }

  lemma MeetsCleared(u: bv64, p: bv64, f: bv64, b: bv64)
    requires OneBit(b) && u == p & !f && Has(f, b)
    ensures !Has(u, b)
  {
    assert f & b == b;
  }

  lemma MeetsRest(u: bv64, p: bv64, f: bv64, b: bv64)
    requires OneBit(b) && u == p & !f
    ensures Has(u, b) <==> Has(p, b) && !Has(f, b)
  {
    hide Has, OneBit;
    if !Has(p, b) { MeetsLost(u, p, f, b); } else if Has(f, b) { MeetsCleared(u, p, f, b); } else { MeetsKept(u, p, f, b); }
  }

  lemma BitOfCleared(p: bv64, f: bv64, b: bv64)
    requires OneBit(b)
    ensures Has(ClearBits(p, f), b) <==> Has(p, b) && !Has(f, b)
  {
    hide Has, OneBit;
    MeetsRest(ClearBits(p, f), p, f, b);
  }

  lemma BitOfNone(p: bv64, f: bv64, b: bv64)
    requires !AnyBit(p, f) && Has(f, b) && OneBit(b)
    ensures !Has(p, b)
  {
    assert f & b == b;
  }

  // ----- Words ------------------------------------------------------------------------------

  /** The entries there were have the properties and flags they had, except perhaps those of `w`; and
    * an entry that is new, other than `w`, has none. */
  ghost predicate SameBitsBut(k: Lex, r: Lex, w: nat) {
    && |k.entries| <= |r.entries|
    && (forall i :: 0 <= i < |k.entries| && i != w ==>
          r.entries[i].properties == k.entries[i].properties && r.entries[i].systemFlags == k.entries[i].systemFlags)
    && (forall i :: |k.entries| <= i < |r.entries| && i != w ==> r.entries[i].properties == 0 && r.entries[i].systemFlags == 0)
  }

  /** The properties and flags of an entry; those of a word still to be stored are none. */
  function PropertiesOf(k: Lex, w: nat): bv64 { if w < |k.entries| then k.entries[w].properties else 0 }

  function FlagsOf(k: Lex, w: nat): bv64 { if w < |k.entries| then k.entries[w].systemFlags else 0 }

  ghost predicate SameBits(k: Lex, r: Lex) {
    |k.entries| <= |r.entries| && forall i: nat :: PropertiesOf(r, i) == PropertiesOf(k, i) && FlagsOf(r, i) == FlagsOf(k, i)
  }

  lemma SameBitsTrans(a: Lex, b: Lex, c: Lex)
    requires SameBits(a, b) && SameBits(b, c)
    ensures SameBits(a, c)
  {
    forall i: nat
      ensures PropertiesOf(c, i) == PropertiesOf(a, i) && FlagsOf(c, i) == FlagsOf(a, i)
    {
      assert PropertiesOf(c, i) == PropertiesOf(b, i) && FlagsOf(c, i) == FlagsOf(b, i);
    }
  }

  lemma StorePlainSameBits(k: Lex, h: Hashing, word: string)
    requires h.buckets > 0 && ZoneEnd(h) <= |k.entries| < NODE_LIMIT
    ensures SameBits(k, StorePlain(k, h, word).0)
  {
    hide Hashit, FindSpelling, GetNextNode, FiledUpper;
  }

  lemma StoreHeaderSameBits(k: Lex, h: Hashing, word: string)
    requires h.buckets > 0 && ZoneEnd(h) <= |k.entries| < NODE_LIMIT
    ensures SameBits(k, StoreHeader(k, h, word))
  {
    hide StorePlain, GetMultiwordHeader, SameBits;
    SameBitsRefl(k, k);
    var (n, first) := FirstOf(h, word);
    if n != 1 {
      StorePlainSameBits(k, h, first);
      var (k1, e) := StorePlain(k, h, first);
      if e < |k1.entries| && n > GetMultiwordHeader(k1.entries[e]) {
        HeaderSameBits(k1, e, n);
        SameBitsTrans(k, k1, StoreHeader(k, h, word));
      }
    }
  }

  lemma SameBitsRefl(a: Lex, b: Lex)
    requires a.entries == b.entries
    ensures SameBits(a, b)
  {
  }

  lemma HeaderSameBits(k: Lex, e: nat, n: nat)
    requires e < |k.entries|
    ensures SameBits(k, k.(entries := k.entries[e := SetMultiwordHeader(k.entries[e], n)]))
  {
    hide GetMultiwordHeader, GetNextNode;
  }

  lemma HeadedSameBits(k: Lex, h: Hashing, w: nat, flag: bv64)
    requires h.buckets > 0 && ZoneEnd(h) <= |k.entries| < NODE_LIMIT && w < |k.entries|
    ensures SameBits(k, Headed(k, h, w, flag))
  {
    hide StoreHeader, AnyBit, MayHead, SameBits, Allocate;
    var k1 := if w < k.locked then PreserveProperty(k, w) else k;
    SameBitsRefl(k, k1);
    StoreHeaderSameBits(k1, h, k.entries[w].word);
    SameBitsTrans(k, k1, StoreHeader(k1, h, k.entries[w].word));
  }

  lemma WithPropertiesBits(k: Lex, k2: Lex, w: nat, p: bv64)
    requires SameBits(k, k2) && w < |k2.entries|
    ensures SameBitsBut(k, WithProperties(k2, w, p), w) && FlagsOf(WithProperties(k2, w, p), w) == FlagsOf(k, w)
  {
    forall i | 0 <= i < |k2.entries|
      ensures k2.entries[i].properties == PropertiesOf(k, i) && k2.entries[i].systemFlags == FlagsOf(k, i)
    {
      assert PropertiesOf(k2, i) == PropertiesOf(k, i) && FlagsOf(k2, i) == FlagsOf(k, i);
    }
  }

  /** What became of the bits `was` by adding `flag`. */
  ghost predicate Gains(was: bv64, now: bv64, flag: bv64) {
    now == SetBits(was, flag) || (now == was && (flag == 0 || AllBits(was, flag)))
  }

  lemma GainsBit(was: bv64, now: bv64, flag: bv64, b: bv64)
    requires Gains(was, now, flag)
    ensures Has(now, b) <==> Has(was, b) || Has(flag, b)
  {
    hide SetBits, AllBits, Has;
    if now == SetBits(was, flag) {
      BitOfSet(was, flag, b);
    } else if flag == 0 {
      ZeroMeetsNone(b);
    } else if Has(flag, b) {
      BitWithin(was, flag, b);
    }
  }

  lemma ZeroMeetsNone(b: bv64)
    ensures !Has(0, b)
  {
  }

  lemma AddPropertyGains(k: Lex, h: Hashing, w: nat, flag: bv64)
    requires h.buckets > 0 && ZoneEnd(h) <= |k.entries| < NODE_LIMIT && w < |k.entries|
    ensures var r := AddProperty(k, h, w, flag);
            && SameBitsBut(k, r, w) && r.entries[w].systemFlags == k.entries[w].systemFlags
            && Gains(k.entries[w].properties, r.entries[w].properties, flag)
  {
    hide StoreHeader, AnyBit, AllBits, SetBits, PreserveProperty, MayHead;
    var was := k.entries[w].properties;
    if flag != 0 && !AllBits(was, flag) {
      HeadedSameBits(k, h, w, flag);
      var k2 := Headed(k, h, w, flag);
      assert PropertiesOf(k2, w) == PropertiesOf(k, w);
      WithPropertiesBits(k, k2, w, SetBits(was, flag));
    }
  }

  /** AddProperty: whatever mask is asked of it, the word meets it afterwards if and only if it met it
    * before or the flag does. The flags of the word and all other entries stay as they were. */
  lemma AddPropertyBits(k: Lex, h: Hashing, w: nat, flag: bv64, b: bv64)
    requires h.buckets > 0 && ZoneEnd(h) <= |k.entries| < NODE_LIMIT && w < |k.entries|
    ensures var r := AddProperty(k, h, w, flag);
            && SameBitsBut(k, r, w) && r.entries[w].systemFlags == k.entries[w].systemFlags
            && (Has(r.entries[w].properties, b) <==> Has(k.entries[w].properties, b) || Has(flag, b))
  {
    hide Has, AddProperty, Gains;
    AddPropertyGains(k, h, w, flag);
    GainsBit(k.entries[w].properties, AddProperty(k, h, w, flag).entries[w].properties, flag, b);
  }

  lemma Apart(b: bv64)
    requires OneBit(b) && b != 0x200
    ensures b & 0x200 == 0
  {
  }

  lemma ToggledOff(u: bv64, flag: bv64)
    requires u == flag ^ NOCONCEPTLIST && AnyBit(flag, NOCONCEPTLIST)
    ensures !Has(u, 0x200)
  {
  }

  lemma ToggledKept(u: bv64, flag: bv64, b: bv64)
    requires u == flag ^ NOCONCEPTLIST && b & 0x200 == 0 && Has(flag, b)
    ensures Has(u, b)
  {
  }

  lemma ToggledNew(u: bv64, flag: bv64, b: bv64)
    requires u == flag ^ NOCONCEPTLIST && b & 0x200 == 0 && !Has(flag, b)
    ensures !Has(u, b)
  {
  }

  lemma ToggledBit(u: bv64, flag: bv64, b: bv64)
    requires OneBit(b) && u == flag ^ NOCONCEPTLIST && AnyBit(flag, NOCONCEPTLIST)
    ensures Has(u, b) <==> Has(flag, b) && b != 0x200
  {
    hide Has, OneBit, AnyBit;
    if b == 0x200 { ToggledOff(u, flag); } else {
      Apart(b);
      if Has(flag, b) { ToggledKept(u, flag, b); } else { ToggledNew(u, flag, b); }
    }
  }

  lemma UnaskedBit(flag: bv64, b: bv64)
    requires !AnyBit(flag, NOCONCEPTLIST) && b == 0x200
    ensures !Has(flag, b)
  {
  }

  lemma AllowedBit(word: string, flag: bv64, b: bv64)
    requires OneBit(b)
    ensures Has(AllowedFlag(word, flag), b) <==> Has(flag, b) && (b != 0x200 || (word != "" && word[0] == '~'))
  {
    hide Has, OneBit, AnyBit;
    if AnyBit(flag, NOCONCEPTLIST) {
      if word == "" || word[0] != '~' { ToggledBit(AllowedFlag(word, flag), flag, b); }
    } else if b == 0x200 {
      UnaskedBit(flag, b);
    }
  }

  lemma FlagsGain(k: Lex, w: nat, flag: bv64)
    requires w < |k.entries|
    ensures var r := AddSystemFlag(k, w, flag);
            && |r.entries| == |k.entries| && SameBitsBut(k, r, w) && r.entries[w].properties == k.entries[w].properties
            && Gains(k.entries[w].systemFlags, r.entries[w].systemFlags, AllowedFlag(k.entries[w].word, flag))
  {
    hide SetBits, AllBits, AllowedFlag, Allocate;
    var was, f := k.entries[w].systemFlags, AllowedFlag(k.entries[w].word, flag);
    if f == was { AllOfItself(was); }
  }

  lemma AllOfItself(bits: bv64)
    ensures AllBits(bits, bits)
  {
  }

  /** AddSystemFlag: a flag is set afterwards if and only if it was or is asked for, where NOCONCEPTLIST
    * is asked for in vain of a word that is no concept. Nothing else changes. */
  lemma AddSystemFlagBits(k: Lex, w: nat, flag: bv64, b: bv64)
    requires w < |k.entries| && OneBit(b)
    ensures var r := AddSystemFlag(k, w, flag); var word := k.entries[w].word;
            && |r.entries| == |k.entries| && SameBitsBut(k, r, w) && r.entries[w].properties == k.entries[w].properties
            && (Has(r.entries[w].systemFlags, b)
                <==> Has(k.entries[w].systemFlags, b) || (Has(flag, b) && (b != 0x200 || (word != "" && word[0] == '~'))))
  {
    hide Has, OneBit, AddSystemFlag, AllowedFlag, Gains;
    FlagsGain(k, w, flag);
    GainsBit(k.entries[w].systemFlags, AddSystemFlag(k, w, flag).entries[w].systemFlags, AllowedFlag(k.entries[w].word, flag), b);
    AllowedBit(k.entries[w].word, flag, b);
  }

  /** What became of the bits `was` by removing `flags`. */
  ghost predicate Loses(was: bv64, now: bv64, flags: bv64) { now == ClearBits(was, flags) || (now == was && !AnyBit(was, flags)) }

  lemma LosesBit(was: bv64, now: bv64, flags: bv64, b: bv64)
    requires Loses(was, now, flags) && OneBit(b)
    ensures Has(now, b) <==> Has(was, b) && !Has(flags, b)
  {
    hide Has, OneBit, ClearBits, AnyBit;
    if now == ClearBits(was, flags) {
      BitOfCleared(was, flags, b);
    } else if Has(flags, b) {
      BitOfNone(was, flags, b);
    }
  }

  lemma RemovesLose(k: Lex, w: nat, flags: bv64)
    requires w < |k.entries|
    ensures var r := RemoveProperty(k, w, flags);
            && |r.entries| == |k.entries| && SameBitsBut(k, r, w) && r.entries[w].systemFlags == k.entries[w].systemFlags
            && Loses(k.entries[w].properties, r.entries[w].properties, flags)
  {
    hide ClearBits, AnyBit, Allocate;
  }

  lemma RemovesLoseFlags(k: Lex, w: nat, flags: bv64)
    requires w < |k.entries|
    ensures var r := RemoveSystemFlag(k, w, flags);
            && |r.entries| == |k.entries| && SameBitsBut(k, r, w) && r.entries[w].properties == k.entries[w].properties
            && Loses(k.entries[w].systemFlags, r.entries[w].systemFlags, flags)
  {
    hide ClearBits, AnyBit, Allocate;
  }

  /** RemoveProperty: a property is left if and only if it was there and is not to go. */
  lemma RemovePropertyBits(k: Lex, w: nat, flags: bv64, b: bv64)
    requires w < |k.entries| && OneBit(b)
    ensures var r := RemoveProperty(k, w, flags);
            && |r.entries| == |k.entries| && SameBitsBut(k, r, w) && r.entries[w].systemFlags == k.entries[w].systemFlags
            && (Has(r.entries[w].properties, b) <==> Has(k.entries[w].properties, b) && !Has(flags, b))
  {
    hide Has, OneBit, RemoveProperty, Loses;
    RemovesLose(k, w, flags);
    LosesBit(k.entries[w].properties, RemoveProperty(k, w, flags).entries[w].properties, flags, b);
  }

  /** RemoveSystemFlag, in the same way. */
  lemma RemoveSystemFlagBits(k: Lex, w: nat, flags: bv64, b: bv64)
    requires w < |k.entries| && OneBit(b)
    ensures var r := RemoveSystemFlag(k, w, flags);
            && |r.entries| == |k.entries| && SameBitsBut(k, r, w) && r.entries[w].properties == k.entries[w].properties
            && (Has(r.entries[w].systemFlags, b) <==> Has(k.entries[w].systemFlags, b) && !Has(flags, b))
  {
    hide Has, OneBit, RemoveSystemFlag, Loses;
    RemovesLoseFlags(k, w, flags);
    LosesBit(k.entries[w].systemFlags, RemoveSystemFlag(k, w, flags).entries[w].systemFlags, flags, b);
  }

  lemma OnlyBit(b: bv64)
    requires OneBit(b)
    ensures Has(0x8000_0000_0000_0000, b) <==> b == 0x8000_0000_0000_0000
  {
  }

  lemma AskedBit(properties: bv64, b: bv64)
    requires OneBit(b)
    ensures Has(ClearBits(properties, AS_IS), b) <==> Has(properties, b) && b != 0x8000_0000_0000_0000
  {
    hide Has, OneBit, ClearBits;
    BitOfCleared(properties, AS_IS, b);
    OnlyBit(b);
  }

  lemma SameBitsThen(a: Lex, b: Lex, c: Lex, w: nat)
    requires SameBits(a, b) && SameBitsBut(b, c, w)
    ensures SameBitsBut(a, c, w)
  {
    forall i | 0 <= i < |b.entries|
      ensures b.entries[i].properties == PropertiesOf(a, i) && b.entries[i].systemFlags == FlagsOf(a, i)
    {
      assert PropertiesOf(b, i) == PropertiesOf(a, i) && FlagsOf(b, i) == FlagsOf(a, i);
    }
  }

  /** StoreWord: the entry it answers has a property if and only if it had it before or the property is
    * asked for and is not the request to store the text as it is; of an empty text none is asked for.
    * All other entries stay as they were. */
  lemma StoreWordBits(k: Lex, h: Hashing, word: string, properties: bv64, b: bv64)
    requires Lawful(k, h) && |k.entries| + 1 < NODE_LIMIT && OneBit(b)
    ensures h.buckets > 0 && ZoneEnd(h) <= |k.entries|
    ensures var (r, w) := StoreWord(k, h, word, properties);
            && w < |r.entries| && SameBitsBut(k, r, w) && r.entries[w].systemFlags == FlagsOf(k, w)
            && (Has(r.entries[w].properties, b)
                <==> Has(PropertiesOf(k, w), b) || (word != "" && Has(properties, b) && b != 0x8000_0000_0000_0000))
  {
    hide Has, OneBit, Lawful, StorePlain, AddProperty, ClearBits, StoredAs, Extends, Keeps;
    LawfulZone(k, h);
    var name := StoredAs(h, word, properties);
    StorePlainKeepsLawful(k, h, name);
    StorePlainKeeps(k, h, name);
    StorePlainSameBits(k, h, name);
    var (k1, w) := StorePlain(k, h, name);
    LawfulZone(k1, h);
    assert PropertiesOf(k1, w) == PropertiesOf(k, w) && FlagsOf(k1, w) == FlagsOf(k, w);
    if word == "" {
      SameBitsThen(k, k1, k1, w);
    } else {
      var asked := ClearBits(properties, AS_IS);
      AddPropertyBits(k1, h, w, asked, b);
      AskedBit(properties, b);
      SameBitsThen(k, k1, AddProperty(k1, h, w, asked), w);
    }
  }

  // ----- Headers ----------------------------------------------------------------------------

  /** How many words a text that starts with this word may have. */
  function HeaderOf(k: Lex, i: nat): nat { if i < |k.entries| then k.entries[i].nextNode / 0x1000000 else 0 }

  lemma NewEntryHeaders(k: Lex, h: Hashing, word: string, i: nat)
    requires h.buckets > 0 && ZoneEnd(h) <= |k.entries| < NODE_LIMIT
    ensures HeaderOf(NewEntry(k, h, word).0, i) == HeaderOf(k, i)
  {
    hide Hashit, FiledUpper, SetNextNode;
    SmallHeader(GetNextNode(k.entries[Bucket(h, word)]));
    KeptHeader(k.entries[Bucket(h, word)], |k.entries|);
  }

  lemma SmallHeader(n: nat)
    requires n < NODE_LIMIT
    ensures n / 0x1000000 == 0
  {
  }

  lemma KeptHeader(e: Entry, n: nat)
    requires n < NODE_LIMIT
    ensures SetNextNode(e, n).nextNode / 0x1000000 == e.nextNode / 0x1000000
  {
    assert GetMultiwordHeader(SetNextNode(e, n)) == GetMultiwordHeader(e);
  }

  lemma StorePlainHeaders(k: Lex, h: Hashing, word: string, i: nat)
    requires h.buckets > 0 && ZoneEnd(h) <= |k.entries| < NODE_LIMIT
    ensures HeaderOf(StorePlain(k, h, word).0, i) == HeaderOf(k, i)
  {
    hide NewEntry, FindSpelling;
    NewEntryHeaders(k, h, if word == "" then "emptystring" else word, i);
  }

  /** The first word of a text of several words is stored, and heads as many words as it did before, or
    * as the text has, whichever is more, of the latter number its low byte. No other header changes. */
  lemma StoreHeaderReaches(k: Lex, h: Hashing, word: string) returns (e: nat)
    requires Lawful(k, h) && |k.entries| < NODE_LIMIT && h.burst(word).0 != 1
    ensures h.buckets > 0 && ZoneEnd(h) <= |k.entries|
    ensures var r := StoreHeader(k, h, word); var n := h.burst(word).0;
            && Holds(r, e, StoredAs(h, h.burst(word).1, 0))
            && HeaderOf(r, e) == (if n > HeaderOf(k, e) then n % 256 else HeaderOf(k, e))
            && forall i: nat :: i != e ==> HeaderOf(r, i) == HeaderOf(k, i)
  {
    hide Lawful, StorePlain, StoredAs, Extends, SetMultiwordHeader, HeaderOf;
    LawfulZone(k, h);
    var (n, first) := FirstOf(h, word);
    StorePlainKeepsLawful(k, h, first);
    e := StorePlain(k, h, first).1;
    var k1 := StorePlain(k, h, first).0;
    forall i: nat
      ensures HeaderOf(k1, i) == HeaderOf(k, i)
    {
      StorePlainHeaders(k, h, first, i);
    }
    HeaderRaised(k1, e, n);
    assert StoreHeader(k, h, word) == Raised(k1, e, n);
  }

  /** The entry at `e` heads at least `n` words. */
  function Raised(k: Lex, e: nat, n: nat): Lex
    requires e < |k.entries|
  {
    if n > GetMultiwordHeader(k.entries[e]) then k.(entries := k.entries[e := SetMultiwordHeader(k.entries[e], n)]) else k
  }

  lemma HeaderRaised(k: Lex, e: nat, n: nat)
    requires e < |k.entries|
    ensures var r := Raised(k, e, n);
            && |r.entries| == |k.entries| && r.entries[e].word == k.entries[e].word
            && HeaderOf(r, e) == (if n > HeaderOf(k, e) then n % 256 else HeaderOf(k, e))
            && forall i: nat :: i != e ==> HeaderOf(r, i) == HeaderOf(k, i)
  {
    var r := k.entries[e].(nextNode := SetMultiwordHeader(k.entries[e], n).nextNode);
    assert GetMultiwordHeader(SetMultiwordHeader(k.entries[e], n)) == n % 256;
    assert r == SetMultiwordHeader(k.entries[e], n);
  }

  /** The first time a word gets a part of speech, unless it is the name of a concept, a function or a
    * variable, its first word heads as many words as it has; at any other time no header changes. */
  lemma AddPropertyHeaders(k: Lex, h: Hashing, w: nat, flag: bv64) returns (e: nat)
    requires Lawful(k, h) && |k.entries| < NODE_LIMIT && w < |k.entries|
    ensures h.buckets > 0 && ZoneEnd(h) <= |k.entries|
    ensures var r := AddProperty(k, h, w, flag); var word := k.entries[w].word; var n := h.burst(word).0;
            if !Has(k.entries[w].properties, 0x801ffffef8780) && Has(flag, 0x801ffffef8780)
               && word != "" && word[0] != '~' && word[0] != '^' && word[0] != '$' && n != 1
            then
              && Holds(r, e, StoredAs(h, h.burst(word).1, 0))
              && HeaderOf(r, e) == (if n > HeaderOf(k, e) then n % 256 else HeaderOf(k, e))
              && forall i: nat :: i != e ==> HeaderOf(r, i) == HeaderOf(k, i)
            else
              |r.entries| == |k.entries| && forall i: nat :: HeaderOf(r, i) == HeaderOf(k, i)
  {
    hide Lawful, StoreHeader, AnyBit, Has, AllBits, SetBits, HeaderOf, StoredAs, Allocate;
    LawfulZone(k, h);
    SpeechBits(k.entries[w].properties);
    SpeechBits(flag);
    e := 0;
    var r := AddProperty(k, h, w, flag);
    var k1 := if w < k.locked then PreserveProperty(k, w) else k;
    SameHeaders(k, k1);
    if flag != 0 && !AllBits(k.entries[w].properties, flag) {
      var word := k.entries[w].word;
      HeadedKeepsLawful(k, h, w, flag);
      SameTableRefl(k, k1);
      SameTableIsLawful(k, k1, h);
      if MayHead(word) && h.burst(word).0 != 1 { e := StoreHeaderReaches(k1, h, word); }
      SameHeadersWith(Headed(k, h, w, flag), w, SetBits(Headed(k, h, w, flag).entries[w].properties, flag));
      if !AnyBit(k.entries[w].properties, PART_OF_SPEECH) && AnyBit(flag, PART_OF_SPEECH) && MayHead(word) && h.burst(word).0 != 1 {
        assert Headed(k, h, w, flag) == StoreHeader(k1, h, word);
      } else {
        if h.burst(word).0 == 1 { OneWord(k1, h, word); }
        assert Headed(k, h, w, flag) == k1;
      }
    } else {
      if flag == 0 { ZeroMeetsNone(PART_OF_SPEECH); } else if Has(flag, PART_OF_SPEECH) { BitWithin(k.entries[w].properties, flag, PART_OF_SPEECH); }
    }
  }

  lemma OneWord(k: Lex, h: Hashing, word: string)
    requires h.buckets > 0 && ZoneEnd(h) <= |k.entries| < NODE_LIMIT && h.burst(word).0 == 1
    ensures StoreHeader(k, h, word) == k
  {
  }

  lemma SpeechBits(p: bv64)
    ensures AnyBit(p, PART_OF_SPEECH) == Has(p, 0x801ffffef8780)
  {
  }

  lemma SameHeaders(a: Lex, b: Lex)
    requires a.entries == b.entries
    ensures forall i: nat :: HeaderOf(a, i) == HeaderOf(b, i)
  {
  }

  lemma SameHeadersWith(k: Lex, w: nat, p: bv64)
    requires w < |k.entries|
    ensures forall i: nat :: HeaderOf(WithProperties(k, w, p), i) == HeaderOf(k, i)
  {
  }

  // ----- Spellings --------------------------------------------------------------------------

  lemma WholeBits(p: bv64)
    ensures AnyBit(p, WHOLE) == Has(p, 0x8000_0000_000f_8000)
  {
  }

  /** Under which spelling a text is stored: as it is, if it starts with a quote, an underscore or the mark of a
    * variable, a concept or a function, or is asked for as it is or is punctuation; else with its words joined. */
  lemma StoredAsIs(h: Hashing, word: string, properties: bv64)
    ensures StoredAs(h, word, properties) ==
            if word == "" then h.join("emptystring")
            else if word[0] in {'"', '_', '`', '%', '$', '~', '^'} || Has(properties, 0x8000_0000_000f_8000) then word
            else h.join(word)
  {
    hide AnyBit, Has;
    WholeBits(properties);
  }

  /** A new word takes room in the string arena for its characters and a zero, and five bytes more once the
    * dictionary is locked, in whole words; a word that is there takes none. */
  lemma NewWordTakesRoom(k: Lex, h: Hashing, word: string)
    requires h.buckets > 0 && ZoneEnd(h) <= |k.entries| < NODE_LIMIT
    ensures var r := StorePlain(k, h, word).0; var name := if word == "" then "emptystring" else word;
            var bytes := |name| + 1 + if k.locked != 0 then 5 else 0;
            if FindSpelling(k, h, name) != 0 then r == k
            else r.used % 4 == 0 && k.used + (bytes + 3) / 4 * 4 <= r.used < k.used + (bytes + 3) / 4 * 4 + 4
  {
    hide FindSpelling, Allocate, Hashit, SetNextNode;
    var name := if word == "" then "emptystring" else word;
    AllocateIs(k.used, |name| + 1 + if k.locked != 0 then 5 else 0, 4);
  }
}
