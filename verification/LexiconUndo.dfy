/** Releasing the dictionary to a mark undoes, exactly, every word stored and every logged
  * property or flag change since the mark. */
module LexiconUndo {
  import opened Threads
  import opened Words
  import opened Lexicon
  import opened LexiconLaws

  /** The values the two undo logs protect: those of the locked words. */
  function LockedProperties(k: Lex): (r: seq<bv64>)
    requires k.locked <= |k.entries|
    ensures |r| == k.locked
  {
    seq(k.locked, i requires 0 <= i < k.locked => k.entries[i].properties)
  }

  function LockedFlags(k: Lex): (r: seq<bv64>)
    requires k.locked <= |k.entries|
    ensures |r| == k.locked
  {
    seq(k.locked, i requires 0 <= i < k.locked => k.entries[i].systemFlags)
  }

  /** One of the two loops of DictionaryRelease, on the protected values alone: the log and the
    * values when every record younger than the mark has been taken back. */
  function Rewind(cells: map<nat, Cell>, log: nat, mark: nat, values: seq<bv64>): (r: (nat, seq<bv64>))
    ensures |r.1| == |values| && r.0 <= log
    decreases log
  {
    if log <= mark || log !in cells || !cells[log].Redefine? then (log, values)
    else
      var c := cells[log];
      if c.next < log && c.word < |values| then Rewind(cells, c.next, mark, values[c.word := c.value]) else (log, values)
  }

  lemma {:induction false} RewindFrame(a: map<nat, Cell>, b: map<nat, Cell>, log: nat, mark: nat, values: seq<bv64>)
    requires forall c: nat :: c <= log ==> (c in a <==> c in b) && (c in a ==> a[c] == b[c])
    ensures Rewind(a, log, mark, values) == Rewind(b, log, mark, values)
    decreases log
  {
    if log > mark && log in a && a[log].Redefine? && a[log].next < log && a[log].word < |values| {
      assert a[log] == b[log];
      RewindFrame(a, b, a[log].next, mark, values[a[log].word := a[log].value]);
    }
  }

  lemma {:induction false} RewindSplit(cells: map<nat, Cell>, log: nat, low: nat, high: nat, values: seq<bv64>)
    requires low <= high && Rewind(cells, log, high, values).0 <= high
    ensures var (l, v) := Rewind(cells, log, high, values); Rewind(cells, log, low, values) == Rewind(cells, l, low, v)
    decreases log
  {
    if log > high {
      var c := cells[log];
      RewindSplit(cells, c.next, low, high, values[c.word := c.value]);
    }
  }

  /** What the code relies on: the logs and cells lie in use, and the base system is loaded. */
  ghost predicate Settled(k: Lex) {
    && k.booted && k.locked <= |k.entries|
    && k.propertyLog <= k.used && k.flagLog <= k.used
    && forall c :: c in k.cells ==> c <= k.used
  }

  ghost predicate SameCells(a: map<nat, Cell>, b: map<nat, Cell>, mark: nat) {
    forall c: nat :: c <= mark ==> (c in a <==> c in b) && (c in a ==> a[c] == b[c])
  }

  /** The entries of `a` are still there in `b`, in the same buckets and in the same order. */
  ghost predicate Persist(a: Lex, b: Lex, zone: nat) {
    && |a.entries| <= |b.entries|
    && (forall i :: 0 <= i < |a.entries| ==> SameSpelling(a.entries[i], b.entries[i]))
    && (forall i :: zone <= i < |a.entries| ==> GetNextNode(a.entries[i]) == GetNextNode(b.entries[i]))
  }

  /** Taking back what `b` has logged since `a` gives the logs and the protected values of `a`. */
  ghost predicate Rewinds(a: Lex, b: Lex)
    requires a.locked <= |a.entries| && b.locked <= |b.entries|
  {
    && Rewind(b.cells, b.propertyLog, a.used, LockedProperties(b)) == (a.propertyLog, LockedProperties(a))
    && Rewind(b.cells, b.flagLog, a.used, LockedFlags(b)) == (a.flagLog, LockedFlags(a))
  }

  /** `b` grew out of `a`: releasing `b` to the size and the strings of `a` undoes it. */
  ghost predicate Since(a: Lex, b: Lex, h: Hashing) {
    && Settled(a) && Settled(b) && a.locked == b.locked && a.used <= b.used
    && SameCells(a.cells, b.cells, a.used)
    && Persist(a, b, ZoneEnd(h))
    && Rewinds(a, b)
  }

  lemma SinceRefl(a: Lex, h: Hashing)
    requires Settled(a)
    ensures Since(a, a, h)
  {
    hide GetNextNode;
  }

  lemma PersistTrans(a: Lex, b: Lex, c: Lex, zone: nat)
    requires Persist(a, b, zone) && Persist(b, c, zone)
    ensures Persist(a, c, zone)
  {
    hide GetNextNode;
    forall i | 0 <= i < |a.entries|
      ensures SameSpelling(a.entries[i], c.entries[i]) && (zone <= i ==> GetNextNode(a.entries[i]) == GetNextNode(c.entries[i]))
    {
      assert SameSpelling(a.entries[i], b.entries[i]) && SameSpelling(b.entries[i], c.entries[i]);
    }
  }

  lemma RewindTrans(a: map<nat, Cell>, c: map<nat, Cell>, log: nat, low: nat, high: nat, mid: nat, v: seq<bv64>, w: seq<bv64>)
    requires low <= high && mid <= high && SameCells(a, c, high)
    requires Rewind(c, log, high, w) == (mid, v)
    ensures Rewind(c, log, low, w) == Rewind(a, mid, low, v)
  {
    RewindSplit(c, log, low, high, w);
    RewindFrame(a, c, mid, low, v);
  }

  lemma SinceTrans(a: Lex, b: Lex, c: Lex, h: Hashing)
    requires Since(a, b, h) && Since(b, c, h)
    ensures Since(a, c, h)
  {
    hide Persist, Rewind;
    PersistTrans(a, b, c, ZoneEnd(h));
    RewindTrans(b.cells, c.cells, c.propertyLog, a.used, b.used, b.propertyLog, LockedProperties(b), LockedProperties(c));
    RewindTrans(b.cells, c.cells, c.flagLog, a.used, b.used, b.flagLog, LockedFlags(b), LockedFlags(c));
    forall x: nat | x <= a.used
      ensures (x in a.cells <==> x in c.cells) && (x in a.cells ==> a.cells[x] == c.cells[x])
    {
      assert x <= b.used;
    }
  }

  // ----- Every operation can be undone ------------------------------------------------------

  /** Storing a spelling logs nothing and changes no property. */
  ghost predicate Quiet(a: Lex, b: Lex) {
    && b == a.(entries := b.entries, used := b.used) && a.used <= b.used
    && |a.entries| <= |b.entries|
    && forall i :: 0 <= i < |a.entries| ==> SameValues(a.entries[i], b.entries[i])
  }

  ghost predicate SameValues(a: Entry, b: Entry) { a.properties == b.properties && a.systemFlags == b.systemFlags }

  lemma QuietSince(a: Lex, b: Lex, h: Hashing)
    requires Settled(a) && Quiet(a, b) && Persist(a, b, ZoneEnd(h))
    ensures Since(a, b, h)
  {
    hide Persist;
    assert LockedProperties(a) == LockedProperties(b);
    assert LockedFlags(a) == LockedFlags(b);
  }

  lemma QuietTrans(a: Lex, b: Lex, c: Lex)
    requires Quiet(a, b) && Quiet(b, c)
    ensures Quiet(a, c)
  {
    forall i | 0 <= i < |a.entries|
      ensures SameValues(a.entries[i], c.entries[i])
    {
      assert SameValues(a.entries[i], b.entries[i]) && SameValues(b.entries[i], c.entries[i]);
    }
  }

  lemma NewEntryIsQuiet(k: Lex, h: Hashing, word: string)
    requires h.buckets > 0 && ZoneEnd(h) <= |k.entries| < NODE_LIMIT && k.booted
    ensures var r := NewEntry(k, h, word).0; Quiet(k, r) && Persist(k, r, ZoneEnd(h)) && |r.entries| == |k.entries| + 1
  {
    hide Hashit, GetNextNode, SetNextNode;
    NewEntryParts(k, h, word);
  }

  lemma NewEntryParts(k: Lex, h: Hashing, word: string)
    requires h.buckets > 0 && ZoneEnd(h) <= |k.entries| < NODE_LIMIT && k.booted
    ensures var r := NewEntry(k, h, word).0; var b := Bucket(h, word);
            && r == k.(entries := r.entries, used := r.used) && k.used <= r.used && |r.entries| == |k.entries| + 1
            && r.entries[b] == k.entries[b].(nextNode := r.entries[b].nextNode)
            && forall i :: 0 <= i < |k.entries| && i != b ==> r.entries[i] == k.entries[i]
  {
    hide Hashit, GetNextNode;
  }

  lemma StorePlainIsQuiet(k: Lex, h: Hashing, word: string)
    requires h.buckets > 0 && ZoneEnd(h) <= |k.entries| < NODE_LIMIT && k.booted
    ensures var r := StorePlain(k, h, word).0;
            Quiet(k, r) && Persist(k, r, ZoneEnd(h)) && |k.entries| <= |r.entries| <= |k.entries| + 1
  {
    hide NewEntry, FindSpelling, GetNextNode;
    NewEntryIsQuiet(k, h, Name(word));
  }

  lemma StoreHeaderIsQuiet(k: Lex, h: Hashing, word: string)
    requires h.buckets > 0 && ZoneEnd(h) <= |k.entries| < NODE_LIMIT && k.booted
    ensures var r := StoreHeader(k, h, word); Quiet(k, r) && Persist(k, r, ZoneEnd(h))
  {
    hide StorePlain, SetMultiwordHeader, GetNextNode, Quiet, Persist;
    var (n, first) := FirstOf(h, word);
    QuietRefl(k, ZoneEnd(h));
    if n != 1 {
      StorePlainIsQuiet(k, h, first);
      var (k1, e) := StorePlain(k, h, first);
      if e < |k1.entries| && n > GetMultiwordHeader(k1.entries[e]) {
        var r := StoreHeader(k, h, word);
        HeaderIsQuiet(k1, e, n, ZoneEnd(h));
        QuietTrans(k, k1, r);
        PersistTrans(k, k1, r, ZoneEnd(h));
      }
    }
  }

  lemma QuietRefl(k: Lex, zone: nat)
    ensures Quiet(k, k) && Persist(k, k, zone)
  {
    hide GetNextNode;
  }

  lemma HeaderIsQuiet(k: Lex, e: nat, n: nat, zone: nat)
    requires e < |k.entries|
    ensures var r := k.(entries := k.entries[e := SetMultiwordHeader(k.entries[e], n)]); Quiet(k, r) && Persist(k, r, zone)
  {
    hide GetNextNode;
  }

  /** A change to the properties of one word, the old value logged if the word is locked. */
  ghost predicate LogsProperty(k: Lex, r: Lex, w: nat)
    requires w < |k.entries|
  {
    && |k.entries| <= |r.entries| && k.booted == r.booted && k.locked == r.locked && k.used <= r.used
    && r.flagLog == k.flagLog
    && (forall i :: 0 <= i < |k.entries| ==> r.entries[i].systemFlags == k.entries[i].systemFlags)
    && (forall i :: 0 <= i < |k.entries| && i != w ==> r.entries[i].properties == k.entries[i].properties)
    && (if w < k.locked
        then k.used < r.propertyLog <= r.used && r.cells == k.cells[r.propertyLog := Redefine(k.propertyLog, w, k.entries[w].properties)]
        else r.propertyLog == k.propertyLog && r.cells == k.cells)
  }

  lemma LogsPropertySince(k: Lex, r: Lex, h: Hashing, w: nat)
    requires Settled(k) && w < |k.entries| && LogsProperty(k, r, w) && Persist(k, r, ZoneEnd(h))
    ensures Since(k, r, h)
  {
    hide Persist;
    var v := LockedProperties(r);
    if w < k.locked {
      assert v[w := k.entries[w].properties] == LockedProperties(k);
      assert Rewind(r.cells, r.propertyLog, k.used, v) == Rewind(r.cells, k.propertyLog, k.used, LockedProperties(k));
    } else {
      assert v == LockedProperties(k);
    }
    assert LockedFlags(r) == LockedFlags(k);
    RewindFrame(k.cells, r.cells, k.flagLog, k.used, LockedFlags(r));
  }

  ghost predicate LogsFlags(k: Lex, r: Lex, w: nat)
    requires w < |k.entries|
  {
    && |k.entries| <= |r.entries| && k.booted == r.booted && k.locked == r.locked && k.used <= r.used
    && r.propertyLog == k.propertyLog
    && (forall i :: 0 <= i < |k.entries| ==> r.entries[i].properties == k.entries[i].properties)
    && (forall i :: 0 <= i < |k.entries| && i != w ==> r.entries[i].systemFlags == k.entries[i].systemFlags)
    && (if w < k.locked
        then k.used < r.flagLog <= r.used && r.cells == k.cells[r.flagLog := Redefine(k.flagLog, w, k.entries[w].systemFlags)]
        else r.flagLog == k.flagLog && r.cells == k.cells)
  }

  lemma LogsFlagsSince(k: Lex, r: Lex, h: Hashing, w: nat)
    requires Settled(k) && w < |k.entries| && LogsFlags(k, r, w) && Persist(k, r, ZoneEnd(h))
    ensures Since(k, r, h)
  {
    hide Persist;
    var v := LockedFlags(r);
    if w < k.locked {
      assert v[w := k.entries[w].systemFlags] == LockedFlags(k);
      assert Rewind(r.cells, r.flagLog, k.used, v) == Rewind(r.cells, k.flagLog, k.used, LockedFlags(k));
    } else {
      assert v == LockedFlags(k);
    }
    assert LockedProperties(r) == LockedProperties(k);
    RewindFrame(k.cells, r.cells, k.propertyLog, k.used, LockedProperties(r));
  }

  lemma AddPropertySince(k: Lex, h: Hashing, w: nat, flag: bv64)
    requires Settled(k) && h.buckets > 0 && ZoneEnd(h) <= |k.entries| < NODE_LIMIT && w < |k.entries|
    ensures Since(k, AddProperty(k, h, w, flag), h)
  {
    hide Since, StoreHeader, AnyBit, AllBits, SetBits, Settled, LogsProperty, Persist, Quiet;
    SinceRefl(k, h);
    if flag != 0 && !AllBits(k.entries[w].properties, flag) {
      HeadedLogs(k, h, w, flag);
      LogsPropertySince(k, AddProperty(k, h, w, flag), h, w);
    }
  }

  lemma HeadedLogs(k: Lex, h: Hashing, w: nat, flag: bv64)
    requires Settled(k) && h.buckets > 0 && ZoneEnd(h) <= |k.entries| < NODE_LIMIT && w < |k.entries|
    ensures var k2 := Headed(k, h, w, flag);
            |k.entries| <= |k2.entries|
            && forall p :: LogsProperty(k, WithProperties(k2, w, p), w) && Persist(k, WithProperties(k2, w, p), ZoneEnd(h))
  {
    hide StoreHeader, AnyBit, GetNextNode, Quiet, Persist, Allocate, LogsProperty, PreserveProperty;
    var k1 := if w < k.locked then PreserveProperty(k, w) else k;
    QuietRefl(k1, ZoneEnd(h));
    StoreHeaderIsQuiet(k1, h, k.entries[w].word);
    var k2 := Headed(k, h, w, flag);
    assert Quiet(k1, k2) && Persist(k1, k2, ZoneEnd(h));
    QuietGrows(k1, k2);
    forall p
      ensures LogsProperty(k, WithProperties(k2, w, p), w) && Persist(k, WithProperties(k2, w, p), ZoneEnd(h))
    {
      PersistProperties(k1, k2, ZoneEnd(h), w, p);
      PersistFrame(k1, WithProperties(k2, w, p), k, WithProperties(k2, w, p), ZoneEnd(h));
      QuietLogs(k, k2, w, p);
    }
  }

  lemma QuietGrows(a: Lex, b: Lex)
    requires Quiet(a, b)
    ensures |a.entries| <= |b.entries|
  {
  }

  lemma PersistFrame(a: Lex, b: Lex, c: Lex, d: Lex, zone: nat)
    requires Persist(a, b, zone) && c.entries == a.entries && d.entries == b.entries
    ensures Persist(c, d, zone)
  {
  }

  lemma PersistProperties(a: Lex, b: Lex, zone: nat, w: nat, p: bv64)
    requires Persist(a, b, zone) && w < |b.entries|
    ensures Persist(a, WithProperties(b, w, p), zone)
  {
    hide GetNextNode;
    assert GetNextNode(b.entries[w].(properties := p)) == GetNextNode(b.entries[w]) by {
      SameNext(b.entries[w].(properties := p), b.entries[w]);
    }
  }

  lemma PersistFlags(a: Lex, b: Lex, zone: nat, w: nat, p: bv64)
    requires Persist(a, b, zone) && w < |b.entries|
    ensures Persist(a, WithFlags(b, w, p), zone)
  {
    hide GetNextNode;
    assert GetNextNode(b.entries[w].(systemFlags := p)) == GetNextNode(b.entries[w]) by {
      SameNext(b.entries[w].(systemFlags := p), b.entries[w]);
    }
  }

  lemma QuietLogs(k: Lex, k2: Lex, w: nat, p: bv64)
    requires Settled(k) && w < |k.entries| && Quiet(if w < k.locked then PreserveProperty(k, w) else k, k2)
    ensures LogsProperty(k, WithProperties(k2, w, p), w)
  {
    hide GetNextNode, Allocate;
    var k1 := if w < k.locked then PreserveProperty(k, w) else k;
    forall i | 0 <= i < |k.entries|
      ensures SameValues(k.entries[i], k2.entries[i])
    {
      assert SameValues(k1.entries[i], k2.entries[i]);
    }
  }

  /** Every change of properties or flags can be undone: exactly, for locked words. */
  lemma FlagsSince(k: Lex, h: Hashing, w: nat, flag: bv64)
    requires Settled(k) && w < |k.entries|
    ensures Since(k, AddSystemFlag(k, w, flag), h) && Since(k, RemoveSystemFlag(k, w, flag), h)
    ensures Since(k, RemoveProperty(k, w, flag), h)
  {
    hide AnyBit, SetBits, ClearBits, AllowedFlag, Allocate, GetNextNode, Since, Persist;
    SinceRefl(k, h);
    QuietRefl(k, ZoneEnd(h));
    FlagChangeSince(k, h, w, SetBits(k.entries[w].systemFlags, AllowedFlag(k.entries[w].word, flag)));
    FlagChangeSince(k, h, w, ClearBits(k.entries[w].systemFlags, flag));
    PropertyChangeSince(k, h, w, ClearBits(k.entries[w].properties, flag));
  }

  lemma FlagChangeSince(k: Lex, h: Hashing, w: nat, p: bv64)
    requires Settled(k) && w < |k.entries|
    ensures Since(k, WithFlags(if w < k.locked then PreserveFlags(k, w) else k, w, p), h)
  {
    hide Allocate, GetNextNode, Since, Persist;
    var k1 := if w < k.locked then PreserveFlags(k, w) else k;
    QuietRefl(k, ZoneEnd(h));
    PersistFrame(k, k, k, k1, ZoneEnd(h));
    PersistFlags(k, k1, ZoneEnd(h), w, p);
    LogsFlagsSince(k, WithFlags(k1, w, p), h, w);
  }

  lemma PropertyChangeSince(k: Lex, h: Hashing, w: nat, p: bv64)
    requires Settled(k) && w < |k.entries|
    ensures Since(k, WithProperties(if w < k.locked then PreserveProperty(k, w) else k, w, p), h)
  {
    hide Allocate, GetNextNode, Since, Persist;
    var k1 := if w < k.locked then PreserveProperty(k, w) else k;
    QuietRefl(k, ZoneEnd(h));
    PersistFrame(k, k, k, k1, ZoneEnd(h));
    PersistProperties(k, k1, ZoneEnd(h), w, p);
    LogsPropertySince(k, WithProperties(k1, w, p), h, w);
  }

  lemma StoreWordSince(k: Lex, h: Hashing, word: string, properties: bv64)
    requires Settled(k) && h.buckets > 0 && ZoneEnd(h) <= |k.entries| && |k.entries| + 1 < NODE_LIMIT
    ensures Since(k, StoreWord(k, h, word, properties).0, h)
  {
    hide Since, StorePlain, AddProperty, ClearBits, Settled;
    var name := StoredAs(h, word, properties);
    StorePlainSince(k, h, name);
    var (k1, w) := StorePlain(k, h, name);
    if word != "" && w < |k1.entries| {
      AddPropertySince(k1, h, w, ClearBits(properties, AS_IS));
      SinceTrans(k, k1, AddProperty(k1, h, w, ClearBits(properties, AS_IS)), h);
    }
  }

  lemma StorePlainSince(k: Lex, h: Hashing, word: string)
    requires Settled(k) && h.buckets > 0 && ZoneEnd(h) <= |k.entries| < NODE_LIMIT
    ensures var r := StorePlain(k, h, word).0;
            Since(k, r, h) && Settled(r) && |k.entries| <= |r.entries| <= |k.entries| + 1
  {
    hide StorePlain, Persist;
    StorePlainIsQuiet(k, h, word);
    QuietSince(k, StorePlain(k, h, word).0, h);
  }

  // ----- Releasing to a mark ------------------------------------------------------------------

  /** Entries that differ in properties only. */
  ghost predicate PropertiesOnly(a: Lex, b: Lex) {
    && |a.entries| == |b.entries|
    && forall i :: 0 <= i < |a.entries| ==> b.entries[i] == a.entries[i].(properties := b.entries[i].properties)
  }

  ghost predicate FlagsOnly(a: Lex, b: Lex) {
    && |a.entries| == |b.entries|
    && forall i :: 0 <= i < |a.entries| ==> b.entries[i] == a.entries[i].(systemFlags := b.entries[i].systemFlags)
  }

  /** The first loop of DictionaryRelease does to the locked words what `Rewind` says. */
  lemma {:induction false} PopPropertiesRewinds(k: Lex, mark: nat)
    requires k.locked <= |k.entries| && k.propertyLog <= k.used
    requires Rewind(k.cells, k.propertyLog, mark, LockedProperties(k)).0 <= mark
    ensures var r := PopProperties(k, mark);
            && r == k.(entries := r.entries, propertyLog := r.propertyLog) && PropertiesOnly(k, r)
            && (r.propertyLog, LockedProperties(r)) == Rewind(k.cells, k.propertyLog, mark, LockedProperties(k))
    decreases k.propertyLog
  {
    if k.propertyLog > mark {
      var c := k.cells[k.propertyLog];
      var k1 := WithProperties(k, c.word, c.value).(propertyLog := c.next);
      assert LockedProperties(k1) == LockedProperties(k)[c.word := c.value];
      PopPropertiesRewinds(k1, mark);
      assert PopProperties(k, mark) == PopProperties(k1, mark);
    }
  }

  lemma {:induction false} PopFlagsRewinds(k: Lex, mark: nat)
    requires k.locked <= |k.entries| && k.flagLog <= k.used
    requires Rewind(k.cells, k.flagLog, mark, LockedFlags(k)).0 <= mark
    ensures var r := PopFlags(k, mark);
            && r == k.(entries := r.entries, flagLog := r.flagLog) && FlagsOnly(k, r)
            && (r.flagLog, LockedFlags(r)) == Rewind(k.cells, k.flagLog, mark, LockedFlags(k))
    decreases k.flagLog
  {
    if k.flagLog > mark {
      var c := k.cells[k.flagLog];
      var k1 := WithFlags(k, c.word, c.value).(flagLog := c.next);
      assert LockedFlags(k1) == LockedFlags(k)[c.word := c.value];
      PopFlagsRewinds(k1, mark);
      assert PopFlags(k, mark) == PopFlags(k1, mark);
    }
  }

  /** Deleting entries changes, of those that stay, only the links of the bucket entries. */
  ghost predicate Shrinks(k: Lex, r: Lex, zone: nat) {
    && r == k.(entries := r.entries) && |r.entries| <= |k.entries|
    && (forall i :: 0 <= i < |r.entries| ==> r.entries[i] == k.entries[i].(nextNode := r.entries[i].nextNode))
    && (forall i :: zone <= i < |r.entries| ==> r.entries[i] == k.entries[i])
  }

  lemma DropNewestShrinks(k: Lex, h: Hashing)
    requires h.buckets > 0 && |k.entries| > ZoneEnd(h)
    ensures Shrinks(k, DropNewest(k, h), ZoneEnd(h))
  {
    hide GetNextNode, ZoneEnd;
    HomeInZone(h, k.entries[|k.entries| - 1]);
  }

  lemma HomeInZone(h: Hashing, e: Entry)
    requires h.buckets > 0
    ensures 1 <= HomeBucket(h, e) < ZoneEnd(h)
  {
  }

  lemma ShrinksTrans(a: Lex, b: Lex, c: Lex, zone: nat)
    requires Shrinks(a, b, zone) && Shrinks(b, c, zone)
    ensures Shrinks(a, c, zone)
  {
  }

  lemma {:induction false} DropToKeepsLawful(k: Lex, h: Hashing, until: nat)
    requires Lawful(k, h) && ZoneEnd(h) <= until
    ensures h.buckets > 0
    ensures Lawful(DropTo(k, h, until), h) && Shrinks(k, DropTo(k, h, until), ZoneEnd(h))
    decreases |k.entries|
  {
    hide Lawful, DropNewest, Shrinks, ZoneEnd;
    LawfulZone(k, h);
    if |k.entries| > until {
      DropNewestKeepsLawful(k, h);
      DropNewestShrinks(k, h);
      DropToKeepsLawful(DropNewest(k, h), h, until);
      ShrinksTrans(k, DropNewest(k, h), DropTo(k, h, until), ZoneEnd(h));
    } else {
      ShrinksRefl(k, ZoneEnd(h));
    }
  }

  lemma ShrinksRefl(k: Lex, zone: nat)
    ensures Shrinks(k, k, zone)
  {
  }

  /** The rows and links of lawful lists determine their heads. */
  lemma ExactHeads<K>(a: Lists<K>, b: Lists<K>)
    requires Exact(a) && Exact(b) && a.key == b.key && a.next == b.next && a.head.Keys == b.head.Keys
    ensures a == b
  {
    forall k | k in a.head
      ensures a.head[k] == b.head[k]
    {
      SameChain(a.next, a.head[k], b.head[k]) by { assert ExactAt(a, k) && ExactAt(b, k); }
    }
  }

  /** The dictionary as it was: the same entries under the same spellings, every bucket listing
    * the same entries in the same order, the locked words with their properties and flags, the
    * undo logs and the string arena as they stood. The header byte of an entry and the
    * properties of words that are not locked are not covered. */
  ghost predicate Restored(a: Lex, r: Lex, h: Hashing)
    requires h.buckets > 0 && ZoneEnd(h) <= |a.entries|
  {
    && r.booted == a.booted && r.locked == a.locked && r.used == a.used && r.cells == a.cells
    && r.propertyLog == a.propertyLog && r.flagLog == a.flagLog
    && |r.entries| == |a.entries| && (forall i :: 0 <= i < |a.entries| ==> SameSpelling(a.entries[i], r.entries[i]))
    && Buckets(r, h) == Buckets(a, h)
    && a.locked <= |a.entries| && LockedProperties(r) == LockedProperties(a) && LockedFlags(r) == LockedFlags(a)
  }

  lemma PopsAreSameTable(k: Lex, p: Lex, f: Lex)
    requires PropertiesOnly(k, p) && FlagsOnly(p, f)
    ensures SameTable(k, f)
  {
    hide GetNextNode;
    forall i | 0 <= i < |k.entries|
      ensures SameEntry(k.entries[i], f.entries[i])
    {
      assert f.entries[i] == p.entries[i].(systemFlags := f.entries[i].systemFlags);
      assert p.entries[i] == k.entries[i].(properties := p.entries[i].properties);
      SameNext(k.entries[i], f.entries[i]);
    }
  }

  lemma PopsRewind(a: Lex, b: Lex, h: Hashing, p: Lex, f: Lex)
    requires Since(a, b, h) && p == PopProperties(b, a.used) && f == PopFlags(p, a.used)
    ensures f == b.(entries := f.entries, propertyLog := a.propertyLog, flagLog := a.flagLog)
    ensures SameTable(b, f) && f.locked <= |f.entries|
    ensures LockedProperties(f) == LockedProperties(a) && LockedFlags(f) == LockedFlags(a)
  {
    hide Persist, Rewind, SameCells, PopProperties, PopFlags;
    PopPropertiesRewinds(b, a.used);
    assert LockedFlags(p) == LockedFlags(b);
    PopFlagsRewinds(p, a.used);
    assert LockedProperties(f) == LockedProperties(p);
    PopsAreSameTable(b, p, f);
  }

  /** What is left of `f` once the entries stored since `a` are deleted has the lists of `a`. */
  lemma ShrunkIsPersistent(a: Lex, b: Lex, f: Lex, d: Lex, zone: nat)
    requires Persist(a, b, zone) && SameTable(b, f) && Shrinks(f, d, zone) && |d.entries| == |a.entries|
    ensures Persist(a, d, zone)
  {
    hide GetNextNode;
    forall i | 0 <= i < |a.entries|
      ensures SameSpelling(a.entries[i], d.entries[i]) && (zone <= i ==> GetNextNode(a.entries[i]) == GetNextNode(d.entries[i]))
    {
      assert SameSpelling(a.entries[i], b.entries[i]) && SameEntry(b.entries[i], f.entries[i]);
      assert d.entries[i] == f.entries[i].(nextNode := d.entries[i].nextNode);
    }
  }

  lemma PersistentBuckets(a: Lex, d: Lex, h: Hashing)
    requires Lawful(a, h) && Lawful(d, h) && Persist(a, d, ZoneEnd(h)) && |d.entries| == |a.entries|
    ensures Buckets(d, h) == Buckets(a, h)
  {
    hide GetNextNode, EntryOk, Exact, OneEach;
    var va, vd := Buckets(a, h), Buckets(d, h);
    assert forall i :: 0 <= i < |a.entries| ==> SameSpelling(a.entries[i], d.entries[i]);
    assert va.key == vd.key;
    assert va.next == vd.next;
    ExactHeads(va, vd);
  }

  lemma ShrunkValues(f: Lex, d: Lex, zone: nat)
    requires Shrinks(f, d, zone) && f.locked <= |d.entries|
    ensures LockedProperties(d) == LockedProperties(f) && LockedFlags(d) == LockedFlags(f)
  {
  }

  lemma StringsReleased(a: Lex, b: Lex, h: Hashing, d: Lex)
    requires Since(a, b, h) && d.cells == b.cells
    ensures ReleaseStrings(d, a.used).cells == a.cells && ReleaseStrings(d, a.used).used == a.used
  {
    hide Persist, Rewinds;
    var r := ReleaseStrings(d, a.used).cells;
    assert forall c :: c in a.cells ==> c <= a.used;
    assert forall c :: c in r <==> c in a.cells;
  }

  /** DictionaryRelease is an exact undo: every entry made since leaves its bucket, the head of
    * which it was, every earlier list is what it was, and both logs give back what they hold. */
  lemma ReleaseRestores(a: Lex, b: Lex, h: Hashing)
    requires Lawful(a, h) && Lawful(b, h) && Since(a, b, h)
    ensures h.buckets > 0 && ZoneEnd(h) <= |a.entries|
    ensures var r := Release(b, h, |a.entries|, a.used); Lawful(r, h) && Restored(a, r, h) && Since(a, r, h)
  {
    hide Lawful, Persist, SameCells, Rewinds, SameTable, Shrinks, Buckets, PopProperties, PopFlags, ZoneEnd, SameSpelling, ReleaseStrings;
    LawfulZone(a, h);
    var p := PopProperties(b, a.used);
    var f := PopFlags(p, a.used);
    PopsRewind(a, b, h, p, f);
    SameTableIsLawful(b, f, h);
    DropToKeepsLawful(f, h, |a.entries|);
    var d := DropTo(f, h, |a.entries|);
    DropLength(a, b, f, h);
    ShrunkIsPersistent(a, b, f, d, ZoneEnd(h));
    ShrunkFields(f, d, ZoneEnd(h));
    ShrunkValues(f, d, ZoneEnd(h));
    StringsReleased(a, b, h, d);
    RestoredParts(a, d, h);
    RestoredSince(a, ReleaseStrings(d, a.used), h);
  }

  lemma RestoredSince(a: Lex, r: Lex, h: Hashing)
    requires h.buckets > 0 && ZoneEnd(h) <= |a.entries| && Settled(a) && Restored(a, r, h)
    ensures Since(a, r, h)
  {
    hide GetNextNode, HomeBucket, ZoneEnd, SameSpelling;
    var va, vr := Buckets(a, h), Buckets(r, h);
    forall i | ZoneEnd(h) <= i < |a.entries|
      ensures GetNextNode(a.entries[i]) == GetNextNode(r.entries[i])
    {
      assert va.next[i] == vr.next[i];
    }
  }

  lemma DropLength(a: Lex, b: Lex, f: Lex, h: Hashing)
    requires Persist(a, b, ZoneEnd(h)) && SameTable(b, f) && h.buckets > 0 && ZoneEnd(h) <= |a.entries|
    ensures |DropTo(f, h, |a.entries|).entries| == |a.entries|
  {
    hide GetNextNode, SameSpelling;
  }

  lemma ShrunkFields(f: Lex, d: Lex, zone: nat)
    requires Shrinks(f, d, zone)
    ensures d == f.(entries := d.entries)
  {
  }

  lemma RestoredParts(a: Lex, d: Lex, h: Hashing)
    requires Lawful(a, h) && Lawful(d, h) && Persist(a, d, ZoneEnd(h)) && |d.entries| == |a.entries| && Settled(a)
    requires d.locked == a.locked && d.booted == a.booted && d.propertyLog == a.propertyLog && d.flagLog == a.flagLog
    requires LockedProperties(d) == LockedProperties(a) && LockedFlags(d) == LockedFlags(a)
    requires ReleaseStrings(d, a.used).cells == a.cells
    ensures var r := ReleaseStrings(d, a.used); Lawful(r, h) && Restored(a, r, h)
  {
    hide Exact, EntryOk, OneEach, GetNextNode;
    PersistentBuckets(a, d, h);
    SameTableRefl(d, ReleaseStrings(d, a.used));
    SameTableIsLawful(d, ReleaseStrings(d, a.used), h);
  }

  /** What a release leaves of the properties and flags of a word: those of a locked word come back, and
    * where nothing was logged any other keeps what it has now. */
  lemma ReleasedValues(k: Lex, b: Lex, h: Hashing, w: nat)
    requires Lawful(k, h) && Lawful(b, h) && Since(k, b, h) && w < |k.entries| <= |b.entries|
    requires w >= k.locked ==> b.propertyLog == k.propertyLog && b.flagLog == k.flagLog
    ensures h.buckets > 0 && ZoneEnd(h) <= |k.entries|
    ensures var r := Release(b, h, |k.entries|, k.used); var e := if w < k.locked then k.entries[w] else b.entries[w];
            |r.entries| == |k.entries| && r.entries[w].properties == e.properties && r.entries[w].systemFlags == e.systemFlags
  {
    hide Lawful, Restored, Since, Release;
    LawfulZone(k, h);
    ReleaseRestores(k, b, h);
    RestoredReads(k, Release(b, h, |k.entries|, k.used), h, w);
    if w >= k.locked {
      SinceGrown(k, b, h);
      UnloggedStays(k, b, h, w);
    }
  }

  lemma SinceGrown(a: Lex, b: Lex, h: Hashing)
    requires Since(a, b, h)
    ensures Settled(a) && Settled(b) && a.used <= b.used
  {
    hide Persist, SameCells, Rewinds;
  }

  lemma UnloggedStays(k: Lex, b: Lex, h: Hashing, w: nat)
    requires Lawful(b, h) && Settled(k) && w < |k.entries| <= |b.entries| && ZoneEnd(h) <= |k.entries| && k.used <= b.used
    requires b.propertyLog == k.propertyLog && b.flagLog == k.flagLog
    ensures h.buckets > 0
    ensures var r := Release(b, h, |k.entries|, k.used);
            |r.entries| == |k.entries| && r.entries[w].properties == b.entries[w].properties && r.entries[w].systemFlags == b.entries[w].systemFlags
  {
    hide Lawful, DropTo, ZoneEnd;
    LawfulZone(b, h);
    var f := PopFlags(PopProperties(b, k.used), k.used);
    assert f.entries == b.entries;
    SameTableRefl(b, f);
    SameTableIsLawful(b, f, h);
    DropToKeepsLawful(f, h, |k.entries|);
  }

  /** Removed properties come back exactly if they were logged: if the word is locked, or was not changed
    * at all. */
  lemma PropertyIsUndoneIff(k: Lex, h: Hashing, w: nat, flags: bv64)
    requires Lawful(k, h) && Settled(k) && w < |k.entries|
    ensures h.buckets > 0 && ZoneEnd(h) <= |k.entries|
    ensures var r := Release(RemoveProperty(k, w, flags), h, |k.entries|, k.used);
            && |r.entries| == |k.entries|
            && (r.entries[w].properties == k.entries[w].properties <==> w < k.locked || !AnyBit(k.entries[w].properties, flags))
  {
    hide Lawful, Since, Settled, AnyBit, ClearBits, Release, AllowedFlag, SetBits;
    LawfulZone(k, h);
    FlagsKeepLawful(k, h, w, flags);
    FlagsSince(k, h, w, flags);
    ReleasedValues(k, RemoveProperty(k, w, flags), h, w);
    ClearsBits(k.entries[w].properties, flags);
  }

  /** Added properties are taken back under the same condition. */
  lemma AddedPropertyIsUndoneIff(k: Lex, h: Hashing, w: nat, flag: bv64)
    requires Lawful(k, h) && Settled(k) && w < |k.entries| < NODE_LIMIT
    ensures h.buckets > 0 && ZoneEnd(h) <= |k.entries|
    ensures var r := Release(AddProperty(k, h, w, flag), h, |k.entries|, k.used);
            && |r.entries| == |k.entries|
            && (r.entries[w].properties == k.entries[w].properties <==> w < k.locked || AllBits(k.entries[w].properties, flag))
  {
    hide Lawful, Since, Settled, AllBits, SetBits, Release, AddProperty;
    LawfulZone(k, h);
    AddPropertyKeepsLawful(k, h, w, flag);
    AddPropertySince(k, h, w, flag);
    AddedValues(k, h, w, flag);
    ReleasedValues(k, AddProperty(k, h, w, flag), h, w);
    SetsBits(k.entries[w].properties, flag);
  }

  lemma AddedValues(k: Lex, h: Hashing, w: nat, flag: bv64)
    requires Settled(k) && h.buckets > 0 && ZoneEnd(h) <= |k.entries| < NODE_LIMIT && w < |k.entries|
    ensures var b := AddProperty(k, h, w, flag);
            && |k.entries| <= |b.entries|
            && (w >= k.locked ==> b.propertyLog == k.propertyLog && b.flagLog == k.flagLog)
            && b.entries[w].properties == SetBits(k.entries[w].properties, flag)
  {
    hide AnyBit, AllBits, SetBits, StoreHeader, Persist, Allocate, PreserveProperty, Settled, MayHead;
    SetsBits(k.entries[w].properties, flag);
    var k1 := if w < k.locked then PreserveProperty(k, w) else k;
    assert k1.booted by { SettledIsBooted(k); }
    StoreHeaderIsQuiet(k1, h, k.entries[w].word);
    assert SameValues(k1.entries[w], StoreHeader(k1, h, k.entries[w].word).entries[w]);
  }

  lemma SettledIsBooted(k: Lex)
    requires Settled(k)
    ensures k.booted
  {
  }

  /** Flags that were added or removed come back under the same conditions. */
  lemma FlagIsUndoneIff(k: Lex, h: Hashing, w: nat, flag: bv64)
    requires Lawful(k, h) && Settled(k) && w < |k.entries|
    ensures h.buckets > 0 && ZoneEnd(h) <= |k.entries|
    ensures var r := Release(AddSystemFlag(k, w, flag), h, |k.entries|, k.used);
            && |r.entries| == |k.entries|
            && (r.entries[w].systemFlags == k.entries[w].systemFlags
                <==> w < k.locked || AllBits(k.entries[w].systemFlags, AllowedFlag(k.entries[w].word, flag)))
    ensures var r := Release(RemoveSystemFlag(k, w, flag), h, |k.entries|, k.used);
            && |r.entries| == |k.entries|
            && (r.entries[w].systemFlags == k.entries[w].systemFlags <==> w < k.locked || !AnyBit(k.entries[w].systemFlags, flag))
  {
    hide Lawful, Settled, Release, AddSystemFlag, RemoveSystemFlag, AnyBit, AllBits, AllowedFlag;
    LawfulZone(k, h);
    AddedFlagReleased(k, h, w, flag);
    RemovedFlagReleased(k, h, w, flag);
  }

  lemma AddedFlagReleased(k: Lex, h: Hashing, w: nat, flag: bv64)
    requires Lawful(k, h) && Settled(k) && w < |k.entries|
    ensures h.buckets > 0 && ZoneEnd(h) <= |k.entries|
    ensures var r := Release(AddSystemFlag(k, w, flag), h, |k.entries|, k.used);
            && |r.entries| == |k.entries|
            && (r.entries[w].systemFlags == k.entries[w].systemFlags
                <==> w < k.locked || AllBits(k.entries[w].systemFlags, AllowedFlag(k.entries[w].word, flag)))
  {
    hide Lawful, Since, Settled, AllBits, SetBits, Release, AllowedFlag, AddSystemFlag;
    LawfulZone(k, h);
    FlagsKeepLawful(k, h, w, flag);
    FlagsSince(k, h, w, flag);
    AddedFlagValues(k, w, flag);
    ReleasedValues(k, AddSystemFlag(k, w, flag), h, w);
    SetsBits(k.entries[w].systemFlags, AllowedFlag(k.entries[w].word, flag));
  }

  lemma AddedFlagValues(k: Lex, w: nat, flag: bv64)
    requires w < |k.entries|
    ensures var b := AddSystemFlag(k, w, flag);
            && |b.entries| == |k.entries|
            && (w >= k.locked ==> b.propertyLog == k.propertyLog && b.flagLog == k.flagLog)
            && b.entries[w].systemFlags == SetBits(k.entries[w].systemFlags, AllowedFlag(k.entries[w].word, flag))
  {
    hide AllBits, SetBits, Allocate, AllowedFlag;
    SetsBits(k.entries[w].systemFlags, AllowedFlag(k.entries[w].word, flag));
  }

  lemma RemovedFlagReleased(k: Lex, h: Hashing, w: nat, flag: bv64)
    requires Lawful(k, h) && Settled(k) && w < |k.entries|
    ensures h.buckets > 0 && ZoneEnd(h) <= |k.entries|
    ensures var r := Release(RemoveSystemFlag(k, w, flag), h, |k.entries|, k.used);
            && |r.entries| == |k.entries|
            && (r.entries[w].systemFlags == k.entries[w].systemFlags <==> w < k.locked || !AnyBit(k.entries[w].systemFlags, flag))
  {
    hide Lawful, Since, Settled, AnyBit, ClearBits, Release;
    LawfulZone(k, h);
    FlagsKeepLawful(k, h, w, flag);
    FlagsSince(k, h, w, flag);
    ReleasedValues(k, RemoveSystemFlag(k, w, flag), h, w);
    ClearsBits(k.entries[w].systemFlags, flag);
  }

  lemma SetsBits(p: bv64, flag: bv64)
    ensures SetBits(p, flag) == p <==> AllBits(p, flag)
    ensures flag == 0 || flag == p ==> AllBits(p, flag)
  {
    Absorbs(p, flag);
    Absorbed(p, flag);
    if SetBits(p, flag) == p { assert p & flag == (p | flag) & flag; }
    if AllBits(p, flag) { assert p | flag == p | (p & flag); }
  }

  lemma Absorbs(p: bv64, flag: bv64)
    ensures p | (p & flag) == p
  {
  }

  lemma Absorbed(p: bv64, flag: bv64)
    ensures (p | flag) & flag == flag
    ensures p & p == p && p & 0 == 0
  {
  }

  lemma ClearsBits(p: bv64, flags: bv64)
    ensures ClearBits(p, flags) == p <==> !AnyBit(p, flags)
  {
  }

  lemma RestoredReads(a: Lex, r: Lex, h: Hashing, w: nat)
    requires h.buckets > 0 && ZoneEnd(h) <= |a.entries| && Restored(a, r, h) && w < |a.entries|
    ensures |r.entries| == |a.entries|
    ensures w < a.locked ==> r.entries[w].properties == a.entries[w].properties && r.entries[w].systemFlags == a.entries[w].systemFlags
  {
    hide Buckets, SameSpelling;
    if w < a.locked {
      assert LockedProperties(r)[w] == LockedProperties(a)[w];
      assert LockedFlags(r)[w] == LockedFlags(a)[w];
    }
  }

  // ----- The header byte ------------------------------------------------------------------------

  /** Every entry there still is has the header it had. */
  ghost predicate SameHeaders(a: Lex, b: Lex) {
    && |b.entries| <= |a.entries|
    && forall e :: 0 <= e < |b.entries| ==> GetMultiwordHeader(b.entries[e]) == GetMultiwordHeader(a.entries[e])
  }

  lemma {:induction false} PopPropertiesKeepsHeaders(k: Lex, mark: nat)
    ensures SameHeaders(k, PopProperties(k, mark))
    decreases k.propertyLog
  {
    if !(k.propertyLog == 0 || k.propertyLog > k.used) && k.propertyLog > mark && k.propertyLog in k.cells && k.cells[k.propertyLog].Redefine? {
      var c := k.cells[k.propertyLog];
      if c.next < k.propertyLog && c.word < |k.entries| {
        PopPropertiesKeepsHeaders(WithProperties(k, c.word, c.value).(propertyLog := c.next), mark);
      }
    }
  }

  lemma {:induction false} PopFlagsKeepsHeaders(k: Lex, mark: nat)
    ensures SameHeaders(k, PopFlags(k, mark))
    decreases k.flagLog
  {
    if !(k.flagLog == 0 || k.flagLog > k.used) && k.flagLog > mark && k.flagLog in k.cells && k.cells[k.flagLog].Redefine? {
      var c := k.cells[k.flagLog];
      if c.next < k.flagLog && c.word < |k.entries| {
        PopFlagsKeepsHeaders(WithFlags(k, c.word, c.value).(flagLog := c.next), mark);
      }
    }
  }

  lemma DropNewestKeepsHeaders(k: Lex, h: Hashing)
    requires h.buckets > 0 && |k.entries| > ZoneEnd(h)
    ensures SameHeaders(k, DropNewest(k, h))
  {
    hide GetMultiwordHeader, GetNextNode, HomeBucket, ZoneEnd;
  }

  lemma {:induction false} DropToKeepsHeaders(k: Lex, h: Hashing, until: nat)
    requires h.buckets > 0 && until >= ZoneEnd(h)
    ensures SameHeaders(k, DropTo(k, h, until))
    decreases |k.entries|
  {
    hide GetMultiwordHeader, DropNewest, ZoneEnd;
    if |k.entries| > until {
      DropNewestKeepsHeaders(k, h);
      DropToKeepsHeaders(DropNewest(k, h), h, until);
    }
  }

  /** DictionaryRelease gives no header back. */
  lemma ReleaseKeepsHeaders(k: Lex, h: Hashing, until: nat, mark: nat)
    requires h.buckets > 0 && until >= ZoneEnd(h)
    ensures SameHeaders(k, Release(k, h, until, mark))
  {
    hide GetMultiwordHeader, PopProperties, PopFlags, DropTo, ZoneEnd;
    PopPropertiesKeepsHeaders(k, mark);
    var p := PopProperties(k, mark);
    PopFlagsKeepsHeaders(p, mark);
    DropToKeepsHeaders(PopFlags(p, mark), h, until);
  }

  /** AddProperty changes the header of an entry that is there: a word of several words gets its first part
    * of speech, its first word is stored, with a header below their number, and not with the low byte of
    * that number. */
  predicate Reheads(k: Lex, h: Hashing, w: nat, flag: bv64)
    requires h.buckets > 0 && ZoneEnd(h) <= |k.entries| && w < |k.entries|
  {
    var e := k.entries[w];
    var (n, first) := FirstOf(h, e.word);
    && flag != 0 && !AllBits(e.properties, flag) && !AnyBit(e.properties, PART_OF_SPEECH) && AnyBit(flag, PART_OF_SPEECH)
    && MayHead(e.word) && n != 1
    && var s := FindSpelling(k, h, Name(first)); 0 < s < |k.entries| && n > GetMultiwordHeader(k.entries[s]) != n % 256
  }

  lemma NewEntryKeepsHeaders(k: Lex, h: Hashing, word: string)
    requires h.buckets > 0 && ZoneEnd(h) <= |k.entries| < NODE_LIMIT && k.booted
    ensures var (r, d) := NewEntry(k, h, word); d == |k.entries| && |r.entries| == d + 1 && SameHeaders(r, k)
  {
    hide GetMultiwordHeader, GetNextNode, Hashit;
  }

  lemma HeaderChanged(k: Lex, h: Hashing, word: string)
    requires h.buckets > 0 && ZoneEnd(h) <= |k.entries| < NODE_LIMIT && k.booted
    ensures var r := StoreHeader(k, h, word); var (n, first) := FirstOf(h, word); var s := FindSpelling(k, h, Name(first));
            && |k.entries| <= |r.entries|
            && (SameHeaders(r, k) <==> !(n != 1 && 0 < s < |k.entries| && n > GetMultiwordHeader(k.entries[s]) != n % 256))
  {
    hide GetMultiwordHeader, FindSpelling, NewEntry;
    var (n, first) := FirstOf(h, word);
    var s := FindSpelling(k, h, Name(first));
    if s == 0 { NewEntryKeepsHeaders(k, h, Name(first)); }
  }

  lemma HeadersOfProperties(k: Lex, k1: Lex, w: nat, p: bv64)
    requires w < |k1.entries|
    ensures SameHeaders(WithProperties(k1, w, p), k) <==> SameHeaders(k1, k)
  {
    var r := WithProperties(k1, w, p);
    assert forall e :: 0 <= e < |r.entries| ==> GetMultiwordHeader(r.entries[e]) == GetMultiwordHeader(k1.entries[e]);
  }

  lemma FindsSame(k: Lex, k1: Lex, h: Hashing, at: nat, word: string)
    requires k1.entries == k.entries
    ensures FindFrom(k1, h, at, word) == FindFrom(k, h, at, word)
    decreases at
  {
  }

  /** What AddProperty did to a header stays: releasing the dictionary to the moment before the call
    * gives every entry its header back if and only if the call changed none. */
  lemma HeaderIsUndoneIff(k: Lex, h: Hashing, w: nat, flag: bv64)
    requires Lawful(k, h) && Settled(k) && w < |k.entries| < NODE_LIMIT
    ensures h.buckets > 0 && ZoneEnd(h) <= |k.entries|
    ensures var r := Release(AddProperty(k, h, w, flag), h, |k.entries|, k.used);
            |r.entries| == |k.entries| && (SameHeaders(k, r) <==> !Reheads(k, h, w, flag))
  {
    hide Lawful, Restored, Since, AnyBit, AllBits, SetBits, Release, GetMultiwordHeader, FindSpelling, MayHead, SameHeaders, AddProperty, Reheads, Settled, ZoneEnd;
    LawfulZone(k, h);
    var b := AddProperty(k, h, w, flag);
    AddPropertyKeepsLawful(k, h, w, flag);
    AddPropertySince(k, h, w, flag);
    ReleaseRestores(k, b, h);
    ReleaseKeepsHeaders(b, h, |k.entries|, k.used);
    var r := Release(b, h, |k.entries|, k.used);
    RestoredLength(k, r, h);
    AddPropertyReheads(k, h, w, flag);
    HeadersBack(k, b, r);
  }

  lemma RestoredLength(a: Lex, r: Lex, h: Hashing)
    requires h.buckets > 0 && ZoneEnd(h) <= |a.entries| && Restored(a, r, h)
    ensures |r.entries| == |a.entries|
  {
    hide Buckets, SameSpelling;
  }

  lemma HeadersBack(k: Lex, b: Lex, r: Lex)
    requires SameHeaders(b, r) && |r.entries| == |k.entries|
    ensures SameHeaders(k, r) <==> SameHeaders(b, k)
  {
    hide GetMultiwordHeader;
    assert forall e :: 0 <= e < |r.entries| ==> GetMultiwordHeader(r.entries[e]) == GetMultiwordHeader(b.entries[e]);
  }

  lemma AddPropertyReheads(k: Lex, h: Hashing, w: nat, flag: bv64)
    requires Settled(k) && h.buckets > 0 && ZoneEnd(h) <= |k.entries| < NODE_LIMIT && w < |k.entries|
    ensures |k.entries| <= |AddProperty(k, h, w, flag).entries|
    ensures SameHeaders(AddProperty(k, h, w, flag), k) <==> !Reheads(k, h, w, flag)
  {
    hide AnyBit, AllBits, SetBits, GetMultiwordHeader, FindSpelling, MayHead, StoreHeader, ZoneEnd;
    var k1 := if w < k.locked then PreserveProperty(k, w) else k;
    var word := k.entries[w].word;
    HeaderChanged(k1, h, word);
    assert FindSpelling(k1, h, Name(FirstOf(h, word).1)) == FindSpelling(k, h, Name(FirstOf(h, word).1)) by { SpellingFrame(k, k1, h, Name(FirstOf(h, word).1)); }
    HeadersFrame(k, k1, StoreHeader(k1, h, word));
    HeadersOfProperties(k, k1, w, SetBits(k.entries[w].properties, flag));
    var k2 := StoreHeader(k1, h, word);
    if w < |k2.entries| { HeadersOfProperties(k, k2, w, SetBits(k2.entries[w].properties, flag)); }
  }

  lemma HeadersFrame(k: Lex, k1: Lex, r: Lex)
    requires k1.entries == k.entries
    ensures SameHeaders(r, k1) <==> SameHeaders(r, k)
    ensures SameHeaders(k1, k)
  {
    hide GetMultiwordHeader;
  }

  lemma SpellingFrame(k: Lex, k1: Lex, h: Hashing, word: string)
    requires k1.entries == k.entries && h.buckets > 0 && ZoneEnd(h) <= |k.entries|
    ensures FindSpelling(k1, h, word) == FindSpelling(k, h, word)
  {
    hide Hashit;
    FindsSame(k, k1, h, GetNextNode(k.entries[Bucket(h, word)]), word);
  }
}
