/** The law of the hash table, kept by storing and releasing words. */
module LexiconLaws {
  import opened Threads
  import opened Words
  import opened Lexicon

  /** The bucket lists as intrusive lists: the entries above the bucket zone, each filed under
    * its bucket. */
  ghost function Buckets(k: Lex, h: Hashing): Lists<nat>
    requires h.buckets > 0 && |k.entries| >= ZoneEnd(h)
  {
    Lists(seq(|k.entries|, i requires 0 <= i < |k.entries| =>
                if i < ZoneEnd(h) then None else Some(HomeBucket(h, k.entries[i]))),
          seq(|k.entries|, i requires 0 <= i < |k.entries| =>
                if i < ZoneEnd(h) then 0 else GetNextNode(k.entries[i])),
          map b | 1 <= b < ZoneEnd(h) :: GetNextNode(k.entries[b]))
  }

  /** An entry in use is hashed and cased as its spelling says. */
  predicate Keyed(h: Hashing, e: Entry) {
    e.hash == Hashit(h, e.word) && e.upper == FiledUpper(e.word)
  }

  ghost predicate EntryOk(k: Lex, h: Hashing, i: nat)
    requires h.buckets > 0 && i < |k.entries|
  {
    var e := k.entries[i];
    if i < ZoneEnd(h) then e.word != "" ==> Keyed(h, e) && Bucket(h, e.word) == i
    else e.word != "" && Keyed(h, e)
  }

  ghost predicate OneEach(k: Lex) {
    forall i, j :: 0 <= i < j < |k.entries| && k.entries[i].word != "" && |k.entries[i].word| < LONGEST ==>
      k.entries[i].word != k.entries[j].word
  }

  /** The law of the table: every bucket lists exactly its entries, newest first; every entry is
    * in the bucket of its spelling; no spelling whose length fits 16 bits has two entries. */
  ghost predicate Lawful(k: Lex, h: Hashing) {
    && h.buckets > 0 && ZoneEnd(h) <= |k.entries|
    && Exact(Buckets(k, h))
    && (forall i :: 0 <= i < |k.entries| ==> EntryOk(k, h, i))
    && OneEach(k)
  }

  ghost predicate Holds(k: Lex, i: nat, word: string) {
    word != "" && i < |k.entries| && k.entries[i].word == word
  }

  /** The entry of a spelling that a search can find: the searches compare the length kept in 16 bits
    * with the whole length. */
  ghost predicate Stored(k: Lex, i: nat, word: string) { Holds(k, i, word) && |word| < LONGEST }

  lemma HomeIsBucket(h: Hashing, e: Entry)
    requires h.buckets > 0 && Keyed(h, e)
    ensures HomeBucket(h, e) == Bucket(h, e.word)
  {
  }

  // ----- Finding ------------------------------------------------------------------------

  /** The links of the entries above the bucket zone. */
  ghost predicate LinksOf(k: Lex, h: Hashing, next: seq<nat>) {
    |next| == |k.entries| && forall i: nat :: ZoneEnd(h) <= i < |next| ==> next[i] == GetNextNode(k.entries[i]) < i
  }

  lemma {:induction false} FindFromFinds(k: Lex, h: Hashing, next: seq<nat>, at: nat, word: string)
    requires LinksOf(k, h, next)
    requires forall i :: i in Chain(next, at) ==> ZoneEnd(h) <= i
    ensures var r := FindFrom(k, h, at, word);
            && (r != 0 ==> r in Chain(next, at) && r < |k.entries| && Spelled(h, k.entries[r], word))
            && (r == 0 ==> forall i :: i in Chain(next, at) ==> i < |k.entries| && !Spelled(h, k.entries[i], word))
    decreases at
  {
    hide GetNextNode, Spelled, ZoneEnd;
    if at != 0 && at < |k.entries| {
      assert at in Chain(next, at);
      assert Chain(next, at) == [at] + Chain(next, next[at]);
      assert forall i :: i in Chain(next, next[at]) ==> i in Chain(next, at);
      FindFromFinds(k, h, next, next[at], word);
    }
  }

  /** An entry is on the list of the bucket of its spelling, unless it is the bucket itself. */
  lemma StoredIsListed(k: Lex, h: Hashing, i: nat, word: string)
    requires Lawful(k, h) && Stored(k, i, word)
    ensures var b := Bucket(h, word); var v := Buckets(k, h);
            b in v.head && i != 0 && (i == b || i in Chain(v.next, v.head[b]))
  {
    hide GetNextNode, Hashit, Exact;
    var b := Bucket(h, word);
    var v := Buckets(k, h);
    assert EntryOk(k, h, i);
    assert b in v.head;
    ListIsExact(v, b);
    if i >= ZoneEnd(h) {
      HomeIsBucket(h, k.entries[i]);
      assert v.key[i] == Some(b);
    }
  }

  /** The list of a bucket holds entries above the zone only. */
  lemma ListsAreAbove(k: Lex, h: Hashing, b: nat)
    requires Lawful(k, h) && 1 <= b < ZoneEnd(h)
    ensures var v := Buckets(k, h);
            && b in v.head && LinksOf(k, h, v.next)
            && forall i :: i in Chain(v.next, v.head[b]) ==> ZoneEnd(h) <= i < |k.entries| && HomeBucket(h, k.entries[i]) == b
  {
    hide GetNextNode, Hashit, HomeBucket, EntryOk;
    var v := Buckets(k, h);
    ListIsExact(v, b);
    forall i | i in Chain(v.next, v.head[b])
      ensures ZoneEnd(h) <= i < |k.entries| && HomeBucket(h, k.entries[i]) == b
    {
      assert v.key[i] == Some(b);
    }
  }

  /** StoreWord's search answers the entry of a spelling, and 0 only if there is none or it is too long. */
  lemma FindSpellingIsExact(k: Lex, h: Hashing, word: string)
    requires Lawful(k, h) && word != ""
    ensures var r := FindSpelling(k, h, word);
            && (r != 0 ==> Stored(k, r, word))
            && (forall i: nat :: Stored(k, i, word) ==> r == i && i != 0)
            && (|word| >= LONGEST ==> r == 0)
  {
    hide Exact, Hashit, GetNextNode, SameLength;
    var b := Bucket(h, word);
    var v := Buckets(k, h);
    ListsAreAbove(k, h, b);
    FindFromFinds(k, h, v.next, v.head[b], word);
    SameLengthIff(word, word);
    var r := FindSpelling(k, h, word);
    forall i: nat | Stored(k, i, word)
      ensures r == i && i != 0
    {
      StoredIsListed(k, h, i, word);
      assert EntryOk(k, h, i);
    }
  }

  // ----- Storing ------------------------------------------------------------------------

  /** Entries that differ in properties, flags and multiword header only. */
  ghost predicate SameEntry(a: Entry, b: Entry) {
    a.word == b.word && a.hash == b.hash && a.upper == b.upper && GetNextNode(a) == GetNextNode(b)
  }

  ghost predicate SameTable(a: Lex, b: Lex) {
    |a.entries| == |b.entries| && forall i :: 0 <= i < |a.entries| ==> SameEntry(a.entries[i], b.entries[i])
  }

  lemma SameTableIsLawful(a: Lex, b: Lex, h: Hashing)
    requires Lawful(a, h) && SameTable(a, b)
    ensures Lawful(b, h)
  {
    hide Exact, Hashit, GetNextNode;
    var va, vb := Buckets(a, h), Buckets(b, h);
    assert va.key == vb.key;
    assert va.next == vb.next;
    assert va.head == vb.head;
    forall i | 0 <= i < |b.entries|
      ensures EntryOk(b, h, i)
    {
      assert EntryOk(a, h, i);
    }
    forall i, j | 0 <= i < j < |b.entries| && b.entries[i].word != "" && |b.entries[i].word| < LONGEST
      ensures b.entries[i].word != b.entries[j].word
    {
      assert a.entries[i].word != "";
    }
  }

  /** Storing `word` in an entry of its own. */
  ghost predicate Extends(k: Lex, r: Lex, at: nat, word: string) {
    && |k.entries| <= |r.entries| <= |k.entries| + 1 && at < |r.entries|
    && (at < |k.entries| ==> |r.entries| == |k.entries| && k.entries[at].word == "")
    && (at >= |k.entries| ==> at == |k.entries|)
    && r.entries[at].word == word
    && forall i :: 0 <= i < |r.entries| && i != at ==> i < |k.entries| && r.entries[i].word == k.entries[i].word
  }

  lemma ExtendsKeepsOneEach(k: Lex, r: Lex, at: nat, word: string)
    requires OneEach(k) && Extends(k, r, at, word)
    requires forall i: nat :: !Stored(k, i, word)
    ensures word != "" ==> OneEach(r)
  {
    if word != "" {
      forall i, j | 0 <= i < j < |r.entries| && r.entries[i].word != "" && |r.entries[i].word| < LONGEST
        ensures r.entries[i].word != r.entries[j].word
      {
        if i == at { assert !Stored(k, j, word); }
        if j == at { assert !Stored(k, i, word); }
      }
    }
  }

  /** While the base system loads, the first word of a bucket goes into the bucket itself. */
  lemma NewInZone(k: Lex, h: Hashing, word: string)
    requires Lawful(k, h) && |k.entries| < NODE_LIMIT && word != "" && forall i: nat :: !Stored(k, i, word)
    requires !k.booted && k.entries[Bucket(h, word)].word == ""
    ensures var (r, at) := NewEntry(k, h, word);
            Lawful(r, h) && Holds(r, at, word) && at == Bucket(h, word) && Extends(k, r, at, word)
  {
    hide Exact, Hashit, GetNextNode, OneEach;
    var (r, at) := NewEntry(k, h, word);
    var va, vb := Buckets(k, h), Buckets(r, h);
    assert va.key == vb.key;
    assert va.next == vb.next;
    assert GetNextNode(r.entries[at]) == GetNextNode(k.entries[at]) by { SameNext(k.entries[at], r.entries[at]); }
    assert va.head == vb.head;
    ExtendsKeepsOneEach(k, r, at, word);
    forall i | 0 <= i < |r.entries|
      ensures EntryOk(r, h, i)
    {
      if i != at { assert EntryOk(k, h, i); }
    }
  }

  lemma SameNext(a: Entry, b: Entry)
    requires a.nextNode == b.nextNode
    ensures GetNextNode(a) == GetNextNode(b)
  {
  }

  lemma NewAbove(k: Lex, h: Hashing, word: string)
    requires Lawful(k, h) && |k.entries| < NODE_LIMIT && word != "" && forall i: nat :: !Stored(k, i, word)
    requires k.booted || k.entries[Bucket(h, word)].word != ""
    ensures var (r, at) := NewEntry(k, h, word);
            Lawful(r, h) && Holds(r, at, word) && at == |k.entries| && Extends(k, r, at, word)
  {
    hide Exact, Hashit, OneEach, Buckets;
    var (r, at) := NewEntry(k, h, word);
    NewAboveView(k, h, word);
    PushKeepsExact(Buckets(k, h), Bucket(h, word));
    ExtendsKeepsOneEach(k, r, at, word);
    forall i | 0 <= i < |r.entries|
      ensures EntryOk(r, h, i)
    {
      if i != at { assert EntryOk(k, h, i); }
    }
  }

  lemma NewAboveView(k: Lex, h: Hashing, word: string)
    requires h.buckets > 0 && ZoneEnd(h) <= |k.entries| < NODE_LIMIT
    requires k.booted || k.entries[Bucket(h, word)].word != ""
    requires GetNextNode(k.entries[Bucket(h, word)]) < NODE_LIMIT
    ensures Bucket(h, word) in Buckets(k, h).head
    ensures Buckets(NewEntry(k, h, word).0, h) == Push(Buckets(k, h), Bucket(h, word))
  {
    hide Hashit;
    var b := Bucket(h, word);
    var (r, at) := NewEntry(k, h, word);
    var va, vb := Buckets(k, h), Buckets(r, h);
    assert vb.key == va.key + [Some(b)];
    NewEntryNext(k, h, word);
    assert vb.next == va.next + [va.head[b]];
    assert vb.head == va.head[b := |k.entries|];
  }

  lemma NewEntryNext(k: Lex, h: Hashing, word: string)
    requires h.buckets > 0 && ZoneEnd(h) <= |k.entries| < NODE_LIMIT
    requires k.booted || k.entries[Bucket(h, word)].word != ""
    ensures var (r, at) := NewEntry(k, h, word); var b := Bucket(h, word);
            && at == |k.entries| && |r.entries| == at + 1
            && GetNextNode(r.entries[at]) == GetNextNode(k.entries[b])
            && GetNextNode(r.entries[b]) == at
            && forall i :: 0 <= i < at && i != b ==> r.entries[i] == k.entries[i]
  {
    hide Hashit;
  }

  /** A spelling is stored as it is, except the empty one. */
  function Name(word: string): string { if word == "" then "emptystring" else word }

  /** What storing one spelling does: the law is kept, the answer is the one entry of the
    * spelling, and no other entry changes its spelling. One too long to be found is stored anew. */
  lemma StorePlainKeepsLawful(k: Lex, h: Hashing, word: string)
    requires Lawful(k, h) && |k.entries| < NODE_LIMIT
    ensures var (r, w) := StorePlain(k, h, word);
            && Lawful(r, h) && Holds(r, w, Name(word))
            && (Stored(k, w, Name(word)) ==> r == k)
            && (!Stored(k, w, Name(word)) ==> Extends(k, r, w, Name(word)) && forall i: nat :: !Stored(k, i, Name(word)))
  {
    hide Lawful, NewEntry, Extends, FindSpelling, OneEach;
    FindSpellingIsExact(k, h, Name(word));
    LawfulZone(k, h);
    if FindSpelling(k, h, Name(word)) == 0 {
      if k.entries[Bucket(h, Name(word))].word == "" && !k.booted { NewInZone(k, h, Name(word)); } else { NewAbove(k, h, Name(word)); }
    }
  }

  lemma LawfulZone(k: Lex, h: Hashing)
    requires Lawful(k, h)
    ensures h.buckets > 0 && ZoneEnd(h) <= |k.entries|
  {
  }

  lemma HeaderIsSameTable(k: Lex, e: nat, n: nat)
    requires e < |k.entries|
    ensures SameTable(k, k.(entries := k.entries[e := SetMultiwordHeader(k.entries[e], n)]))
  {
  }

  /** The entries of `k` are those of `r` as far as they go, and what `r` has more are new. */
  ghost predicate Keeps(k: Lex, r: Lex) {
    |k.entries| <= |r.entries| && forall i :: 0 <= i < |k.entries| && k.entries[i].word != "" ==> r.entries[i].word == k.entries[i].word
  }

  lemma StorePlainKeeps(k: Lex, h: Hashing, word: string)
    requires Lawful(k, h) && |k.entries| < NODE_LIMIT
    ensures h.buckets > 0 && ZoneEnd(h) <= |k.entries|
    ensures Keeps(k, StorePlain(k, h, word).0) && |StorePlain(k, h, word).0.entries| <= |k.entries| + 1
  {
    hide Lawful, NewEntry, FindSpelling, StorePlain;
    StorePlainKeepsLawful(k, h, word);
    LawfulZone(k, h);
  }

  lemma StoreHeaderKeepsLawful(k: Lex, h: Hashing, word: string)
    requires Lawful(k, h) && |k.entries| < NODE_LIMIT
    ensures var r := StoreHeader(k, h, word); Lawful(r, h) && Keeps(k, r) && |r.entries| <= |k.entries| + 1
  {
    hide Lawful, StorePlain, SetMultiwordHeader, SameEntry;
    LawfulZone(k, h);
    var (n, first) := FirstOf(h, word);
    if n != 1 {
      StorePlainKeepsLawful(k, h, first);
      StorePlainKeeps(k, h, first);
      var (k1, e) := StorePlain(k, h, first);
      if e < |k1.entries| && n > GetMultiwordHeader(k1.entries[e]) {
        HeaderIsSameTable(k1, e, n);
        SameTableIsLawful(k1, StoreHeader(k, h, word), h);
        SameTableKeeps(k, k1, StoreHeader(k, h, word));
      }
    }
  }

  lemma SameTableKeeps(k: Lex, a: Lex, b: Lex)
    requires Keeps(k, a) && SameTable(a, b)
    ensures Keeps(k, b)
  {
  }

  lemma WithPropertiesIsSameTable(k: Lex, w: nat, p: bv64)
    requires w < |k.entries|
    ensures SameTable(k, WithProperties(k, w, p)) && SameTable(k, WithFlags(k, w, p))
  {
  }

  /** Changing properties or flags keeps the law of the table. */
  lemma FlagsKeepLawful(k: Lex, h: Hashing, w: nat, flag: bv64)
    requires Lawful(k, h) && w < |k.entries|
    ensures Lawful(AddSystemFlag(k, w, flag), h) && Lawful(RemoveSystemFlag(k, w, flag), h)
    ensures Lawful(RemoveProperty(k, w, flag), h)
  {
    hide Lawful, SameEntry, AnyBit, SetBits, ClearBits, AllowedFlag, AddSystemFlag, RemoveSystemFlag, RemoveProperty;
    FlagsAreSameTable(k, w, flag);
    SameTableIsLawful(k, AddSystemFlag(k, w, flag), h);
    SameTableIsLawful(k, RemoveSystemFlag(k, w, flag), h);
    SameTableIsLawful(k, RemoveProperty(k, w, flag), h);
  }

  lemma FlagsAreSameTable(k: Lex, w: nat, flag: bv64)
    requires w < |k.entries|
    ensures SameTable(k, AddSystemFlag(k, w, flag)) && SameTable(k, RemoveSystemFlag(k, w, flag))
    ensures SameTable(k, RemoveProperty(k, w, flag))
  {
    hide AnyBit, SetBits, ClearBits, AllowedFlag, PreserveFlags, PreserveProperty, SameEntry;
    SameTableRefl(k, k);
    var kf := if w < k.locked then PreserveFlags(k, w) else k;
    var kp := if w < k.locked then PreserveProperty(k, w) else k;
    WithPropertiesIsSameTable(kf, w, SetBits(k.entries[w].systemFlags, AllowedFlag(k.entries[w].word, flag)));
    WithPropertiesIsSameTable(kf, w, ClearBits(k.entries[w].systemFlags, flag));
    WithPropertiesIsSameTable(kp, w, ClearBits(k.entries[w].properties, flag));
  }

  /** The step of AddProperty that may store a header word. */
  function Headed(k: Lex, h: Hashing, w: nat, flag: bv64): Lex
    requires h.buckets > 0 && ZoneEnd(h) <= |k.entries| < NODE_LIMIT && w < |k.entries|
  {
    var k1 := if w < k.locked then PreserveProperty(k, w) else k;
    if !AnyBit(k.entries[w].properties, PART_OF_SPEECH) && AnyBit(flag, PART_OF_SPEECH) && MayHead(k.entries[w].word)
    then StoreHeader(k1, h, k.entries[w].word) else k1
  }

  lemma HeadedKeepsLawful(k: Lex, h: Hashing, w: nat, flag: bv64)
    requires Lawful(k, h) && |k.entries| < NODE_LIMIT && w < |k.entries|
    ensures var r := Headed(k, h, w, flag); Lawful(r, h) && Keeps(k, r) && |r.entries| <= |k.entries| + 1
  {
    hide Lawful, SameEntry, StoreHeader, AnyBit, Allocate;
    LawfulZone(k, h);
    var k1 := if w < k.locked then PreserveProperty(k, w) else k;
    SameTableRefl(k, k1);
    SameTableIsLawful(k, k1, h);
    StoreHeaderKeepsLawful(k1, h, k.entries[w].word);
  }

  lemma AddPropertyKeepsLawful(k: Lex, h: Hashing, w: nat, flag: bv64)
    requires Lawful(k, h) && |k.entries| < NODE_LIMIT && w < |k.entries|
    ensures var r := AddProperty(k, h, w, flag); Lawful(r, h) && Keeps(k, r) && |r.entries| <= |k.entries| + 1
  {
    hide Lawful, SameEntry, StoreHeader, AnyBit, AllBits, SetBits, PreserveProperty;
    LawfulZone(k, h);
    if flag != 0 && !AllBits(k.entries[w].properties, flag) {
      HeadedKeepsLawful(k, h, w, flag);
      var k2 := Headed(k, h, w, flag);
      WithPropertiesIsSameTable(k2, w, SetBits(k2.entries[w].properties, flag));
      SameTableIsLawful(k2, AddProperty(k, h, w, flag), h);
      SameTableKeeps(k, k2, AddProperty(k, h, w, flag));
    }
  }

  lemma SameTableRefl(a: Lex, b: Lex)
    requires a.entries == b.entries
    ensures SameTable(a, b)
  {
  }

  /** StoreWord keeps the law: in particular no spelling short enough for its length to fit 16 bits ever
    * has two entries. It answers the entry of the spelling, and keeps every entry there was. */
  lemma StoreWordKeepsLawful(k: Lex, h: Hashing, word: string, properties: bv64)
    requires Lawful(k, h) && |k.entries| + 1 < NODE_LIMIT
    ensures var (r, w) := StoreWord(k, h, word, properties);
            && Lawful(r, h) && Holds(r, w, StoredAs(h, word, properties)) && Keeps(k, r) && |r.entries| <= |k.entries| + 2
            && (forall i: nat :: Stored(k, i, StoredAs(h, word, properties)) ==> w == i)
  {
    hide Lawful, StorePlain, AddProperty, Extends, Keeps, ClearBits, StoredAs;
    LawfulZone(k, h);
    var name := StoredAs(h, word, properties);
    StorePlainKeepsLawful(k, h, name);
    StorePlainKeeps(k, h, name);
    var (k1, w) := StorePlain(k, h, name);
    LawfulZone(k1, h);
    KeepsRefl(k1);
    if word != "" { AddPropertyKeepsLawful(k1, h, w, ClearBits(properties, AS_IS)); }
    forall i: nat | Stored(k, i, name)
      ensures w == i
    {
      StoredStays(k, k1, i, name);
      StoredOnce(k1, h, i, w, name);
    }
    StoredStays(k1, StoreWord(k, h, word, properties).0, w, name);
    KeepsTrans(k, k1, StoreWord(k, h, word, properties).0);
  }

  /** Storing a text once more answers the same entry if and only if the length of its spelling fits 16
    * bits; else it gets a second one. */
  lemma StoredAgainIff(k: Lex, h: Hashing, word: string, properties: bv64, more: bv64)
    requires Lawful(k, h) && |k.entries| + 3 < NODE_LIMIT && AnyBit(properties, WHOLE) == AnyBit(more, WHOLE)
    ensures var (k1, w) := StoreWord(k, h, word, properties);
            && h.buckets > 0 && ZoneEnd(h) <= |k1.entries| && |k1.entries| + 1 < NODE_LIMIT
            && (StoreWord(k1, h, word, more).1 == w <==> |StoredAs(h, word, properties)| < LONGEST)
  {
    hide Lawful, StorePlain, AddProperty, Extends, Keeps, ClearBits, AnyBit;
    var name := StoredAs(h, word, properties);
    LawfulZone(k, h);
    StoreWordKeepsLawful(k, h, word, properties);
    var (k1, w) := StoreWord(k, h, word, properties);
    LawfulZone(k1, h);
    StoreWordKeepsLawful(k1, h, word, more);
    assert StoredAs(h, word, more) == name;
    if |name| < LONGEST { assert Stored(k1, w, name); }
    if |name| >= LONGEST { LongIsNew(k1, h, name, w); }
  }

  lemma LongIsNew(k: Lex, h: Hashing, name: string, w: nat)
    requires Lawful(k, h) && |k.entries| < NODE_LIMIT && Holds(k, w, name) && |name| >= LONGEST
    ensures StorePlain(k, h, name).1 != w
  {
    hide Lawful, FindSpelling, Hashit;
    LawfulZone(k, h);
    FindSpellingIsExact(k, h, name);
  }

  lemma StoredStays(k: Lex, r: Lex, i: nat, word: string)
    requires Keeps(k, r) && Holds(k, i, word)
    ensures Holds(r, i, word)
  {
  }

  lemma KeepsRefl(k: Lex)
    ensures Keeps(k, k)
  {
  }

  lemma KeepsTrans(k: Lex, a: Lex, b: Lex)
    requires Keeps(k, a) && Keeps(a, b)
    ensures Keeps(k, b)
  {
    forall i | 0 <= i < |k.entries| && k.entries[i].word != ""
      ensures b.entries[i].word == k.entries[i].word
    {
      assert a.entries[i].word != "";
    }
  }

  lemma StoredOnce(k: Lex, h: Hashing, i: nat, j: nat, word: string)
    requires Lawful(k, h) && Stored(k, i, word) && Stored(k, j, word)
    ensures i == j
  {
    hide Exact, EntryOk;
  }

  // ----- Releasing ----------------------------------------------------------------------

  /** In a lawful table the newest entry is the head of its bucket, so the check of
    * DeleteDictionaryEntry never fails, and deleting keeps the law. */
  lemma DropNewestKeepsLawful(k: Lex, h: Hashing)
    requires Lawful(k, h) && |k.entries| > ZoneEnd(h)
    ensures var d := |k.entries| - 1; var b := HomeBucket(h, k.entries[d]); b < d && GetNextNode(k.entries[b]) == d
    ensures Lawful(DropNewest(k, h), h)
  {
    hide Exact, Hashit, GetNextNode, HomeBucket;
    var d := |k.entries| - 1;
    var b := HomeBucket(h, k.entries[d]);
    var v := Buckets(k, h);
    assert v.key[d] == Some(b);
    PopKeepsExact(v);
    assert EntryOk(k, h, d);
    HomeIsBucket(h, k.entries[d]);
    assert v.head[b] == d;
    DropNewestView(k, h);
    DropNewestEntries(k, h);
    DropNewestWords(k, h);
  }

  lemma DropNewestWords(k: Lex, h: Hashing)
    requires Lawful(k, h) && |k.entries| > ZoneEnd(h)
    requires var r := DropNewest(k, h); forall i :: 0 <= i < |r.entries| ==> SameSpelling(r.entries[i], k.entries[i])
    ensures var r := DropNewest(k, h); OneEach(r) && forall i :: 0 <= i < |r.entries| ==> EntryOk(r, h, i)
  {
    hide Exact, Hashit, DropNewest;
    var r := DropNewest(k, h);
    forall i | 0 <= i < |r.entries|
      ensures EntryOk(r, h, i)
    {
      assert EntryOk(k, h, i);
    }
    forall i, j | 0 <= i < j < |r.entries| && r.entries[i].word != "" && |r.entries[i].word| < LONGEST
      ensures r.entries[i].word != r.entries[j].word
    {
      assert k.entries[i].word != "";
    }
  }

  ghost predicate SameSpelling(a: Entry, b: Entry) { a.word == b.word && a.hash == b.hash && a.upper == b.upper }

  lemma DropNewestEntries(k: Lex, h: Hashing)
    requires h.buckets > 0 && |k.entries| > ZoneEnd(h)
    ensures var r := DropNewest(k, h); forall i :: 0 <= i < |r.entries| ==> SameSpelling(r.entries[i], k.entries[i])
  {
    hide GetNextNode, HomeBucket;
  }

  lemma DropNewestView(k: Lex, h: Hashing)
    requires h.buckets > 0 && |k.entries| > ZoneEnd(h)
    requires var d := |k.entries| - 1; var b := HomeBucket(h, k.entries[d]); b < ZoneEnd(h) && GetNextNode(k.entries[b]) == d
    ensures Buckets(DropNewest(k, h), h) == Pop(Buckets(k, h))
  {
    var d := |k.entries| - 1;
    var b := HomeBucket(h, k.entries[d]);
    var r := DropNewest(k, h);
    var va, vb := Buckets(k, h), Buckets(r, h);
    DropNewestNext(k, h);
    hide GetNextNode, HomeBucket, DropNewest;
    assert vb.key == va.key[..d];
    assert vb.next == va.next[..d];
    assert vb.head == va.head[b := va.next[d]];
  }

  lemma DropNewestNext(k: Lex, h: Hashing)
    requires h.buckets > 0 && |k.entries| > ZoneEnd(h)
    requires var d := |k.entries| - 1; var b := HomeBucket(h, k.entries[d]); b < ZoneEnd(h) && GetNextNode(k.entries[b]) == d
    ensures var d := |k.entries| - 1; var b := HomeBucket(h, k.entries[d]); var r := DropNewest(k, h);
            && GetNextNode(r.entries[b]) == GetNextNode(k.entries[d])
            && SameSpelling(r.entries[b], k.entries[b])
            && forall i :: 0 <= i < d && i != b ==> r.entries[i] == k.entries[i]
  {
    hide HomeBucket;
  }
}
