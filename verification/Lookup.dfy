/** FindWord: looking a spelling up in its own case, in the other case, or in either. */
module Lookup {
  import opened Threads
  import opened Words
  import opened Lexicon
  import opened LexiconLaws

  /** The four bits of `caseAllowed`. */
  datatype Case = Case(primary: bool, secondary: bool, lower: bool, upper: bool)

  const PRIMARY := Case(true, false, false, false)
  const STANDARD := Case(true, true, false, false)
  const LOWER := Case(false, false, true, false)
  const UPPER := Case(false, false, false, true)

  /** The entries a walk meets that starts at the bucket `b`. */
  function Walk(k: Lex, b: nat): seq<nat> {
    if b == 0 || b >= |k.entries| then [] else [b] + Follow(k, GetNextNode(k.entries[b]))
  }

  function Follow(k: Lex, at: nat): seq<nat>
    decreases at
  {
    if at == 0 || at >= |k.entries| then []
    else [at] + if GetNextNode(k.entries[at]) < at then Follow(k, GetNextNode(k.entries[at])) else []
  }

  /** The test of both loops: hash, length and letters. */
  predicate Alike(k: Lex, h: Hashing, i: nat, word: string) {
    && i < |k.entries|
    && k.entries[i].hash == Hashit(h, word) && SameLength(k.entries[i].word, word) && SameLetters(k.entries[i].word, word)
  }

  /** The first loop: the first entry alike, but a spelling with upper case sought in its own
    * case prefers an exact match, and otherwise takes the last entry alike. */
  function Pick(k: Lex, h: Hashing, list: seq<nat>, word: string, exact: bool, almost: nat): nat
    decreases |list|
  {
    if list == [] then almost
    else if !Alike(k, h, list[0], word) then Pick(k, h, list[1..], word, exact, almost)
    else if !exact || k.entries[list[0]].word == word then list[0]
    else Pick(k, h, list[1..], word, exact, list[0])
  }

  function FindWord(k: Lex, h: Hashing, word: string, allowed: Case): nat
    requires h.buckets > 0
  {
    var low := Hashit(h, word) % h.buckets + 1;
    if word == "" then 0
    else if !allowed.lower && AlwaysLower(word) then
      if allowed == UPPER then 0 else Pick(k, h, Walk(k, low), word, false, 0)
    else
      var at := if !allowed.lower && (HasUpper(word) || allowed.upper) then low + 1 else low;
      var first := if allowed.primary || allowed.lower || allowed.upper
                   then Pick(k, h, Walk(k, at), word, HasUpper(word) && allowed != LOWER, 0) else 0;
      if first != 0 || !allowed.secondary then first
      else Pick(k, h, Walk(k, if HasUpper(word) then at - 1 else at + 1), word, false, 0)
  }

  // ----- What the walks see ----------------------------------------------------------------

  lemma {:induction false} FollowIsChain(k: Lex, h: Hashing, next: seq<nat>, at: nat)
    requires LinksOf(k, h, next) && forall i :: i in Chain(next, at) ==> ZoneEnd(h) <= i
    ensures Follow(k, at) == Chain(next, at)
    decreases at
  {
    hide GetNextNode, ZoneEnd;
    if at != 0 && at < |k.entries| {
      assert at in Chain(next, at);
      assert forall i :: i in Chain(next, next[at]) ==> i in Chain(next, at);
      FollowIsChain(k, h, next, next[at]);
    }
  }

  /** The walk from a bucket meets the bucket itself, then its entries, newest first. */
  lemma WalkIsExact(k: Lex, h: Hashing, b: nat)
    requires Lawful(k, h) && 1 <= b < ZoneEnd(h)
    ensures var c := Walk(k, b);
            && |c| > 0 && c[0] == b
            && (forall i :: i in c <==> i == b || (ZoneEnd(h) <= i < |k.entries| && HomeBucket(h, k.entries[i]) == b))
            && (forall i, j :: 1 <= i < j < |c| ==> c[i] > c[j])
  {
    hide GetNextNode, HomeBucket, EntryOk, Exact;
    var v := Buckets(k, h);
    ListsAreAbove(k, h, b);
    FollowIsChain(k, h, v.next, v.head[b]);
    ListIsExact(v, b);
    var c := Chain(v.next, v.head[b]);
    assert Walk(k, b) == [b] + c;
    forall i | ZoneEnd(h) <= i < |k.entries| && HomeBucket(h, k.entries[i]) == b
      ensures i in c
    {
      assert v.key[i] == Some(b);
    }
  }

  /** A bucket is met once. */
  lemma BucketIsMetOnce(k: Lex, h: Hashing, b: nat)
    requires Lawful(k, h) && 1 <= b < ZoneEnd(h)
    ensures var c := Walk(k, b); forall i :: 1 <= i < |c| ==> c[i] > b
  {
    hide GetNextNode, HomeBucket, EntryOk, Exact;
    var v := Buckets(k, h);
    ListsAreAbove(k, h, b);
    FollowIsChain(k, h, v.next, v.head[b]);
    var c := Chain(v.next, v.head[b]);
    assert Walk(k, b) == [b] + c;
    assert forall i :: 0 <= i < |c| ==> c[i] in c;
  }

  lemma {:induction false} PickPicks(k: Lex, h: Hashing, list: seq<nat>, word: string, exact: bool, almost: nat)
    requires 0 !in list
    ensures var r := Pick(k, h, list, word, exact, almost);
            && (r == almost || (r in list && Alike(k, h, r, word)))
            && (r == 0 ==> almost == 0 && forall i :: i in list && i != 0 ==> !Alike(k, h, i, word))
            && (exact ==> forall i :: i in list && Alike(k, h, i, word) && k.entries[i].word == word ==>
                            r in list && Alike(k, h, r, word) && k.entries[r].word == word)
    decreases |list|
  {
    hide Alike;
    if list != [] {
      PickPicks(k, h, list[1..], word, exact, almost);
      PickPicks(k, h, list[1..], word, exact, list[0]);
      assert list == [list[0]] + list[1..];
    }
  }

  /** A walk that takes the first entry alike takes the one before all others. */
  lemma {:induction false} PickFirst(k: Lex, h: Hashing, list: seq<nat>, word: string, p: nat)
    requires p < |list| && Alike(k, h, list[p], word)
    requires forall q :: 0 <= q < p ==> !Alike(k, h, list[q], word)
    ensures Pick(k, h, list, word, false, 0) == list[p]
    decreases |list|
  {
    hide Alike;
    if p > 0 { PickFirst(k, h, list[1..], word, p - 1); }
  }

  // ----- What is found ---------------------------------------------------------------------

  /** An entry whose spelling differs from `word` in case at most, and which a lookup can find. */
  ghost predicate Variant(k: Lex, i: nat, word: string) {
    word != "" && |word| < LONGEST && i < |k.entries| && SameLetters(k.entries[i].word, word)
  }

  function Low(h: Hashing, word: string): nat
    requires h.buckets > 0
  {
    Hashit(h, word) % h.buckets + 1
  }

  lemma AlikeIsVariant(k: Lex, h: Hashing, i: nat, word: string)
    requires Lawful(k, h) && word != ""
    ensures Alike(k, h, i, word) <==> Variant(k, i, word)
  {
    hide Exact, Hashit, GetNextNode, SameLength;
    if i < |k.entries| && SameLetters(k.entries[i].word, word) { SameLengthIff(k.entries[i].word, word); }
    if Variant(k, i, word) {
      assert EntryOk(k, h, i);
      SameLettersFile(h, k.entries[i].word, word);
    }
  }

  lemma VariantCase(k: Lex, h: Hashing, i: nat, word: string)
    requires Variant(k, i, word)
    ensures var e := k.entries[i];
            && Hashit(h, e.word) == Hashit(h, word) && e.word != ""
            && (AlwaysLower(word) ==> !FiledUpper(e.word))
            && (!AlwaysLower(word) ==> (FiledUpper(e.word) <==> HasUpper(e.word)))
  {
    hide HasUpper, Hashit;
    SameLettersFile(h, k.entries[i].word, word);
  }

  /** The bucket an entry is in, as the bucket itself or on its list. */
  lemma VariantPlace(k: Lex, h: Hashing, i: nat, word: string)
    requires Lawful(k, h) && Variant(k, i, word)
    ensures var e := k.entries[i]; var b := Low(h, word) + if FiledUpper(e.word) then 1 else 0;
            i != 0 && (i == b || (ZoneEnd(h) <= i && HomeBucket(h, e) == b)) && (i < ZoneEnd(h) ==> i == b)
  {
    hide Exact, Hashit, GetNextNode, HasUpper, SameLetters, FiledUpper, AlwaysLower, OneEach;
    VariantCase(k, h, i, word);
    assert EntryOk(k, h, i);
    if i >= ZoneEnd(h) { HomeIsBucket(h, k.entries[i]); }
  }

  lemma LowIsBucket(h: Hashing, word: string)
    requires h.buckets > 0
    ensures 1 <= Low(h, word) && Low(h, word) + 1 < ZoneEnd(h)
  {
    hide Hashit;
  }

  /** Which bucket an entry is met from says whether it is filed in upper case. */
  lemma VariantIsMet(k: Lex, h: Hashing, i: nat, word: string)
    requires Lawful(k, h) && Variant(k, i, word)
    ensures var e := k.entries[i]; var b := Low(h, word);
            && i != 0
            && (i in Walk(k, b) <==> !FiledUpper(e.word))
            && (i in Walk(k, b + 1) <==> FiledUpper(e.word))
            && (AlwaysLower(word) ==> !FiledUpper(e.word))
            && (!AlwaysLower(word) ==> (FiledUpper(e.word) <==> HasUpper(e.word)))
  {
    hide Lawful, Hashit, GetNextNode, HasUpper, SameLetters, FiledUpper, AlwaysLower, HomeBucket, Walk, Low, ZoneEnd;
    LawfulZone(k, h);
    LowIsBucket(h, word);
    VariantCase(k, h, i, word);
    VariantPlace(k, h, i, word);
    WalkIsExact(k, h, Low(h, word));
    WalkIsExact(k, h, Low(h, word) + 1);
  }

  lemma NoZero(k: Lex, h: Hashing, b: nat)
    requires Lawful(k, h) && 1 <= b < ZoneEnd(h)
    ensures 0 !in Walk(k, b)
  {
    hide GetNextNode, Exact, HomeBucket;
    WalkIsExact(k, h, b);
  }

  /** What one walk answers: a variant it meets, none only if it meets none, and the exact
    * spelling if asked to prefer it. */
  lemma PickMeets(k: Lex, h: Hashing, b: nat, word: string, exact: bool)
    requires Lawful(k, h) && word != "" && 1 <= b < ZoneEnd(h)
    ensures var r := Pick(k, h, Walk(k, b), word, exact, 0);
            && (r != 0 ==> r in Walk(k, b) && Variant(k, r, word))
            && (r == 0 ==> forall i: nat :: i in Walk(k, b) ==> !Variant(k, i, word))
            && (exact ==> forall i: nat :: i in Walk(k, b) && Stored(k, i, word) ==> r == i)
  {
    hide Exact, Hashit, GetNextNode, Walk, Pick, EntryOk, Alike;
    NoZero(k, h, b);
    PickPicks(k, h, Walk(k, b), word, exact, 0);
    var r := Pick(k, h, Walk(k, b), word, exact, 0);
    AlikeIsVariant(k, h, r, word);
    forall i: nat | i in Walk(k, b)
      ensures Alike(k, h, i, word) <==> Variant(k, i, word)
    {
      AlikeIsVariant(k, h, i, word);
    }
  }

  /** A lookup in its own case finds the exact spelling, for a word that is in the table and not filed in
    * lower case always, if and only if its length fits 16 bits. */
  lemma PrimaryIsExactIff(k: Lex, h: Hashing, word: string, i: nat, allowed: Case)
    requires Lawful(k, h) && Holds(k, i, word) && !AlwaysLower(word)
    requires allowed.primary && !allowed.lower && !allowed.upper
    ensures FindWord(k, h, word, allowed) == i <==> |word| < LONGEST
  {
    hide Exact, Hashit, Walk, Pick, Lawful, EntryOk;
    if |word| < LONGEST {
      PrimaryIsExact(k, h, word, i, allowed);
    } else {
      HeldIsNotZero(k, h, i, word);
      LongIsNotFound(k, h, word, allowed);
    }
  }

  lemma LongIsNotFound(k: Lex, h: Hashing, word: string, allowed: Case)
    requires Lawful(k, h) && |word| >= LONGEST && !AlwaysLower(word) && !allowed.lower && !allowed.upper
    ensures FindWord(k, h, word, allowed) == 0
  {
    hide Exact, Hashit, GetNextNode, Walk, Pick, EntryOk, Alike, HasUpper, Lawful, SameLetters;
    LawfulZone(k, h);
    var low := Low(h, word);
    forall exact: bool, b | low <= b <= low + 1
      ensures Pick(k, h, Walk(k, b), word, exact, 0) == 0
    {
      PickMeets(k, h, b, word, exact);
    }
  }

  lemma HeldIsNotZero(k: Lex, h: Hashing, i: nat, word: string)
    requires Lawful(k, h) && Holds(k, i, word)
    ensures i != 0
  {
    hide Exact, Hashit;
    assert EntryOk(k, h, i);
  }

  lemma PrimaryIsExact(k: Lex, h: Hashing, word: string, i: nat, allowed: Case)
    requires Lawful(k, h) && Stored(k, i, word) && !AlwaysLower(word)
    requires allowed.primary && !allowed.lower && !allowed.upper
    ensures FindWord(k, h, word, allowed) == i
  {
    hide Exact, Hashit, GetNextNode, Walk, Pick, EntryOk, Alike, HasUpper, Lawful;
    LawfulZone(k, h);
    var low := Low(h, word);
    var at := if HasUpper(word) then low + 1 else low;
    PickMeets(k, h, at, word, HasUpper(word));
    VariantIsMet(k, h, i, word);
    var r := Pick(k, h, Walk(k, at), word, HasUpper(word), 0);
    if !HasUpper(word) {
      VariantIsMet(k, h, r, word);
      LowerIsExact(k.entries[r].word, word);
      StoredOnce(k, h, i, r, word);
    }
  }

  /** What a lookup in its own case finds is some case variant. */
  lemma PrimaryFindsVariant(k: Lex, h: Hashing, word: string)
    requires Lawful(k, h)
    ensures h.buckets > 0
    ensures var r := FindWord(k, h, word, PRIMARY); r != 0 ==> Variant(k, r, word)
  {
    hide Exact, Hashit, GetNextNode, Walk, Pick, EntryOk, Alike, HasUpper, Lawful, SameLetters;
    LawfulZone(k, h);
    if word != "" {
      var low := Low(h, word);
      PickMeets(k, h, low, word, false);
      PickMeets(k, h, low + 1, word, true);
    }
  }

  /** The usual lookup, own case first and then the other, finds some case variant, and nothing
    * only when no variant is stored. */
  lemma StandardFindsAny(k: Lex, h: Hashing, word: string)
    requires Lawful(k, h) && word != ""
    ensures var r := FindWord(k, h, word, STANDARD);
            && (r != 0 ==> Variant(k, r, word))
            && (r == 0 <==> forall i: nat :: !Variant(k, i, word))
  {
    hide Exact, Hashit, GetNextNode, Walk, Pick, EntryOk, Alike, HasUpper, Lawful, SameLetters;
    LawfulZone(k, h);
    var low := Low(h, word);
    PickMeets(k, h, low, word, false);
    PickMeets(k, h, low + 1, word, false);
    PickMeets(k, h, low + 1, word, true);
    forall i: nat | Variant(k, i, word)
      ensures i != 0 && (i in Walk(k, low) || i in Walk(k, low + 1)) && (AlwaysLower(word) ==> i in Walk(k, low))
    {
      VariantIsMet(k, h, i, word);
    }
  }

  /** The lower-case lookup of any word finds its lower-case form if that is stored, and for a
    * word not filed in lower case always nothing else. */
  lemma LowerIsLower(k: Lex, h: Hashing, word: string)
    requires Lawful(k, h) && word != "" && !AlwaysLower(word)
    ensures var r := FindWord(k, h, word, LOWER);
            && (r != 0 ==> Variant(k, r, word) && !HasUpper(k.entries[r].word))
            && (forall i: nat :: Variant(k, i, word) && !HasUpper(k.entries[i].word) ==> r == i)
  {
    hide Exact, Hashit, GetNextNode, Walk, Pick, EntryOk, Alike, HasUpper, Lawful, SameLetters;
    LawfulZone(k, h);
    var low := Low(h, word);
    PickMeets(k, h, low, word, false);
    var r := Pick(k, h, Walk(k, low), word, false, 0);
    if r != 0 { VariantIsMet(k, h, r, word); }
    forall i: nat | Variant(k, i, word) && !HasUpper(k.entries[i].word)
      ensures r == i
    {
      VariantIsMet(k, h, i, word);
      LowerVariants(k, h, i, r, word);
    }
  }

  lemma LowerVariants(k: Lex, h: Hashing, i: nat, j: nat, word: string)
    requires Lawful(k, h) && Variant(k, i, word) && Variant(k, j, word)
    requires !HasUpper(k.entries[i].word) && !HasUpper(k.entries[j].word)
    ensures i == j
  {
    hide Exact, EntryOk;
    LowerIsExact(k.entries[i].word, k.entries[j].word);
    StoredOnce(k, h, i, j, k.entries[i].word);
  }

  // ----- Names always filed in lower case --------------------------------------------------

  /** The entry met before every other variant: the bucket's own, or else the newest. */
  ghost predicate MetFirst(k: Lex, h: Hashing, i: nat, word: string)
    requires h.buckets > 0
  {
    && Variant(k, i, word)
    && (i == Low(h, word) || forall j: nat :: Variant(k, j, word) && j != i ==> j != Low(h, word) && j < i)
  }

  lemma MetFirstIsFound(k: Lex, h: Hashing, i: nat, word: string)
    requires Lawful(k, h) && AlwaysLower(word) && MetFirst(k, h, i, word)
    ensures Pick(k, h, Walk(k, Low(h, word)), word, false, 0) == i
  {
    hide Exact, Hashit, GetNextNode, Walk, Pick, EntryOk, Alike, HasUpper, Lawful, SameLetters, AlwaysLower, FiledUpper;
    LawfulZone(k, h);
    var c := Walk(k, Low(h, word));
    WalkIsExact(k, h, Low(h, word));
    VariantIsMet(k, h, i, word);
    BucketIsMetOnce(k, h, Low(h, word));
    var p: nat :| p < |c| && c[p] == i;
    AlikeIsVariant(k, h, i, word);
    forall q | 0 <= q < p
      ensures !Alike(k, h, c[q], word)
    {
      AlikeIsVariant(k, h, c[q], word);
    }
    PickFirst(k, h, c, word, p);
  }

  /** For a name filed in lower case always, the lookup finds the exact spelling if and only if
    * it is met before every other case variant: such names are told apart by StoreWord but
    * not by FindWord. */
  lemma PrefixedIsExactIff(k: Lex, h: Hashing, word: string, i: nat, allowed: Case)
    requires Lawful(k, h) && Stored(k, i, word) && AlwaysLower(word) && allowed != UPPER && !allowed.lower
    ensures FindWord(k, h, word, allowed) == i <==> MetFirst(k, h, i, word)
  {
    hide Exact, Hashit, GetNextNode, Walk, Pick, EntryOk, Alike, HasUpper, Lawful, AlwaysLower, FiledUpper;
    LawfulZone(k, h);
    SomeIsMetFirst(k, h, word, i, |k.entries|);
    var f :| MetFirst(k, h, f, word);
    MetFirstIsFound(k, h, f, word);
    if MetFirst(k, h, i, word) { MetFirstIsFound(k, h, i, word); }
  }

  /** Of the variants below `n`, if there is one, some is met first. */
  lemma {:induction false} SomeIsMetFirst(k: Lex, h: Hashing, word: string, i: nat, n: nat)
    requires h.buckets > 0 && Variant(k, i, word) && i < n
    requires forall j: nat :: Variant(k, j, word) ==> j < n
    ensures exists f :: MetFirst(k, h, f, word)
    decreases n
  {
    hide Variant, Low;
    if Variant(k, Low(h, word), word) {
      assert MetFirst(k, h, Low(h, word), word);
    } else if Variant(k, n - 1, word) {
      assert MetFirst(k, h, n - 1, word);
    } else {
      SomeIsMetFirst(k, h, word, i, n - 1);
    }
  }

  /** An empty table, its buckets free. */
  function Empty(h: Hashing, booted: bool): Lex {
    Lex(seq(ZoneEnd(h), i => NO_ENTRY), booted, 0, map[], 0, 0, 0)
  }

  lemma EmptyIsLawful(h: Hashing, booted: bool)
    requires h.buckets > 0
    ensures Lawful(Empty(h, booted), h)
  {
    var k := Empty(h, booted);
    var v := Buckets(k, h);
    assert GetNextNode(NO_ENTRY) == 0;
    forall b | b in v.head ensures ExactAt(v, b) {
      ListingEmpty(v.key, b, |v.key|);
    }
  }

  /** Two names filed in lower case always, of the same letters in different case, get an entry
    * each once the base system is loaded; from then on a lookup of the first finds the second. */
  lemma LaterVariantShadows(k: Lex, h: Hashing, x: string, y: string)
    requires Lawful(k, h) && k.booted && |k.entries| + 1 < NODE_LIMIT
    requires AlwaysLower(x) && |x| < LONGEST && SameLetters(y, x) && x != y && forall i: nat :: !Variant(k, i, x)
    ensures var (k1, a) := StorePlain(k, h, x);
            h.buckets > 0 && ZoneEnd(h) <= |k1.entries| < NODE_LIMIT
            && var (k2, b) := StorePlain(k1, h, y);
            && Lawful(k2, h) && a != b && Stored(k2, a, x) && Stored(k2, b, y)
            && FindWord(k2, h, x, PRIMARY) == b == FindWord(k2, h, x, STANDARD)
  {
    hide Exact, Hashit, GetNextNode, Walk, Pick, FindWord, EntryOk, Lawful, StorePlain, FiledUpper, OneEach;
    StorePlainKeepsLawful(k, h, x);
    StorePlainKeeps(k, h, x);
    var (k1, a) := StorePlain(k, h, x);
    LawfulZone(k1, h);
    StorePlainKeepsLawful(k1, h, y);
    var (k2, b) := StorePlain(k1, h, y);
    assert |x| == |y| > 0;
    assert forall i: nat :: Stored(k, i, x) ==> Variant(k, i, x);
    NewestAtTop(k, h, x);
    NewestStays(k, k1, h, x, y, a);
    NewestAtTop(k1, h, y);
    SecondIsMetFirst(k, k1, k2, h, x, y, a, b);
    MetFirstIsFound(k2, h, b, x);
    PrefixedFinds(k2, h, x);
  }

  lemma PrefixedFinds(k: Lex, h: Hashing, x: string)
    requires h.buckets > 0 && AlwaysLower(x)
    ensures FindWord(k, h, x, PRIMARY) == FindWord(k, h, x, STANDARD) == Pick(k, h, Walk(k, Low(h, x)), x, false, 0)
  {
  }

  lemma NewestAtTop(k: Lex, h: Hashing, x: string)
    requires Lawful(k, h) && k.booted && |k.entries| < NODE_LIMIT && x != "" && (forall i: nat :: !Stored(k, i, x))
    ensures StorePlain(k, h, x).1 == |k.entries| && StorePlain(k, h, x).0.booted
  {
    hide Lawful, Exact, Hashit, GetNextNode, FindSpelling;
    LawfulZone(k, h);
    FindSpellingIsExact(k, h, x);
    assert !Stored(k, FindSpelling(k, h, x), x);
  }

  lemma NewestStays(k: Lex, k1: Lex, h: Hashing, x: string, y: string, a: nat)
    requires Extends(k, k1, a, x) && x != y && forall i: nat :: !Variant(k, i, x)
    requires SameLetters(y, x) && x != ""
    ensures forall i: nat :: !Stored(k1, i, y)
  {
    forall i: nat
      ensures !Stored(k1, i, y)
    {
      assert !Variant(k, i, x);
    }
  }

  lemma SecondIsMetFirst(k: Lex, k1: Lex, k2: Lex, h: Hashing, x: string, y: string, a: nat, b: nat)
    requires Lawful(k, h)
    requires SameLetters(y, x) && x != y && x != "" && |x| < LONGEST && forall i: nat :: !Variant(k, i, x)
    requires Extends(k, k1, a, x) && a == |k.entries|
    requires Extends(k1, k2, b, y) && b == |k1.entries|
    ensures a != b && Stored(k2, a, x) && MetFirst(k2, h, b, x)
  {
    hide Exact, Hashit, GetNextNode, EntryOk, Lawful, OneEach;
    LawfulZone(k, h);
    forall j: nat | Variant(k2, j, x) && j != b
      ensures j != Low(h, x) && j < b
    {
      assert j != a ==> !Variant(k, j, x);
    }
  }

  /** So two user variables that differ in case are not told apart. */
  lemma PrefixedIsNotExact()
    ensures exists k, h, i: nat, j: nat ::
              Lawful(k, h) && Stored(k, i, "$A") && Stored(k, j, "$a") && FindWord(k, h, "$A", STANDARD) == j != i
  {
    hide Lawful, StorePlain, FindWord, Stored;
    var h := Hashing((crc: nat, c: char) => 0, 1, (w: string) => (1, w), (w: string) => "_");
    var k := Empty(h, true);
    EmptyIsLawful(h, true);
    assert AlwaysLower("$A") && LowerChar('A') == 'a' == LowerChar('a') && SameLetters("$a", "$A");
    assert forall i: nat :: i < |k.entries| ==> k.entries[i].word == "";
    LaterVariantShadows(k, h, "$A", "$a");
    var (k1, a) := StorePlain(k, h, "$A");
    var (k2, b) := StorePlain(k1, h, "$a");
    assert Lawful(k2, h) && Stored(k2, a, "$A") && Stored(k2, b, "$a");
  }
}
