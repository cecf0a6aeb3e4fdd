/** The dictionary as the program keeps it: one object whose fields its methods update, each
  * method proved equal to the operation of `Lexicon` it carries out. */
module Dictionaries {
  import opened Threads
  import opened Words
  import opened Lexicon
  import opened LexiconLaws
  import opened LexiconUndo
  import opened Lookup

  class Dictionary {
    const hash: Hashing
    var entries: seq<Entry>          // dictionaryBase up to dictionaryFree
    var booted: bool                 // dictionaryPreBuild[0]
    var locked: nat                  // dictionaryLocked
    var cells: map<nat, Cell>        // the string arena, as far as it is read back
    var used: nat                    // stringFree
    var propertyLog: nat             // propertyRedefines
    var flagLog: nat                 // flagsRedefines

    function View(): Lex
      reads this
    {
      Lex(entries, booted, locked, cells, used, propertyLog, flagLog)
    }

    constructor (hash: Hashing)
      requires hash.buckets > 0
      ensures this.hash == hash && View() == Empty(hash, false) && Lawful(View(), hash)
    {
      this.hash := hash;
      entries := seq(ZoneEnd(hash), i => NO_ENTRY);
      booted, locked, cells, used, propertyLog, flagLog := false, 0, map[], 0, 0, 0;
      new;
      EmptyIsLawful(hash, false);
    }

    // ----- The string arena -----------------------------------------------------------------

    method AllocateCell(cell: Cell, unit: nat) returns (at: nat)
      requires unit > 0
      modifies this`used, this`cells
      ensures View() == Lexicon.AllocateCell(old(View()), cell, unit) && at == used
    {
      used := Allocate(used, 16, unit);
      cells := cells[used := cell];
      at := used;
    }

    method PreserveProperty(w: nat)
      requires w < |entries|
      modifies this`used, this`cells, this`propertyLog
      ensures View() == Lexicon.PreserveProperty(old(View()), w)
    {
      propertyLog := AllocateCell(Redefine(propertyLog, w, entries[w].properties), 64);
    }

    method PreserveFlags(w: nat)
      requires w < |entries|
      modifies this`used, this`cells, this`flagLog
      ensures View() == Lexicon.PreserveFlags(old(View()), w)
    {
      flagLog := AllocateCell(Redefine(flagLog, w, entries[w].systemFlags), 64);
    }

    // ----- Properties and flags -------------------------------------------------------------

    method AddSystemFlag(w: nat, flag: bv64)
      requires w < |entries|
      modifies this
      ensures View() == Lexicon.AddSystemFlag(old(View()), w, flag)
    {
      hide AnyBit, SetBits, ClearBits, Lexicon.PreserveFlags;
      var f := AllowedFlag(entries[w].word, flag);
      if f != 0 && f != entries[w].systemFlags {
        if w < locked { PreserveFlags(w); }
        entries := entries[w := entries[w].(systemFlags := SetBits(entries[w].systemFlags, f))];
      }
    }

    method RemoveSystemFlag(w: nat, flags: bv64)
      requires w < |entries|
      modifies this
      ensures View() == Lexicon.RemoveSystemFlag(old(View()), w, flags)
    {
      hide AnyBit, SetBits, ClearBits, Lexicon.PreserveFlags;
      if AnyBit(entries[w].systemFlags, flags) {
        if w < locked { PreserveFlags(w); }
        entries := entries[w := entries[w].(systemFlags := ClearBits(entries[w].systemFlags, flags))];
      }
    }

    method RemoveProperty(w: nat, flags: bv64)
      requires w < |entries|
      modifies this
      ensures View() == Lexicon.RemoveProperty(old(View()), w, flags)
    {
      hide AnyBit, SetBits, ClearBits, Lexicon.PreserveProperty;
      if AnyBit(entries[w].properties, flags) {
        if w < locked { PreserveProperty(w); }
        entries := entries[w := entries[w].(properties := ClearBits(entries[w].properties, flags))];
      }
    }

    // ----- Storing --------------------------------------------------------------------------

    /** The search of StoreWord. */
    method FindSpelling(word: string) returns (found: nat)
      requires Lawful(View(), hash)
      ensures hash.buckets > 0 && ZoneEnd(hash) <= |entries|
      ensures found == Lexicon.FindSpelling(View(), hash, word)
    {
      hide Lawful, Spelled, GetNextNode, Hashit, OnList, FindFrom;
      LawfulZone(View(), hash);
      var at := Bucket(hash, word);
      BucketIsOnList(View(), hash, at);
      if Spelled(hash, entries[at], word) { return at; }
      at := GetNextNode(entries[at]);
      while at != 0
        invariant OnList(View(), hash, at)
        invariant Lexicon.FindSpelling(View(), hash, word) == FindFrom(View(), hash, at, word)
        decreases at
      {
        ListStep(View(), hash, at);
        FindStep(View(), hash, at, word);
        if Spelled(hash, entries[at], word) { return at; }
        at := GetNextNode(entries[at]);
      }
      assert FindFrom(View(), hash, 0, word) == 0 by { FindNone(View(), hash, word); }
      found := 0;
    }

    /** The walk of FindWord over one bucket. Beyond the buckets it starts at the first of the other
      * entries, if that is in use: so it does when upper case and the other case are asked for at once. */
    method Scan(bucket: nat, word: string, exact: bool) returns (found: nat)
      requires Lawful(View(), hash) && bucket <= ZoneEnd(hash)
      ensures found == Pick(View(), hash, Walk(View(), bucket), word, exact, 0)
    {
      hide Lawful, GetNextNode, Hashit, Alike, OnList, Follow, SameLetters;
      LawfulZone(View(), hash);
      if bucket == 0 || bucket >= |entries| { return 0; }
      WalkStarts(View(), hash, bucket);
      ghost var rest := Walk(View(), bucket);
      var at: nat := bucket;
      found := 0;
      while at != 0
        invariant at != 0 ==> at < |entries| && rest == [at] + Follow(View(), GetNextNode(entries[at]))
        invariant at != 0 ==> OnList(View(), hash, GetNextNode(entries[at]))
        invariant at == 0 ==> rest == []
        invariant Pick(View(), hash, rest, word, exact, found) == Pick(View(), hash, Walk(View(), bucket), word, exact, 0)
        decreases |rest|
      {
        if Alike(View(), hash, at, word) {
          if !exact || entries[at].word == word { return at; }
          found := at;
        }
        rest := rest[1..];
        at := GetNextNode(entries[at]);
        FollowStep(View(), hash, at);
      }
    }

    /** FindWord of a whole spelling. */
    method FindWord(word: string, allowed: Case) returns (found: nat)
      requires Lawful(View(), hash)
      ensures hash.buckets > 0 && found == Lookup.FindWord(View(), hash, word, allowed)
    {
      hide Lawful, Hashit, Pick, Walk, HasUpper, AlwaysLower;
      LawfulZone(View(), hash);
      if word == "" { return 0; }
      var at := Hashit(hash, word) % hash.buckets + 1;
      if !allowed.lower && AlwaysLower(word) {
        if allowed == UPPER { return 0; }
        found := Scan(at, word, false);
        return;
      }
      if !allowed.lower && (HasUpper(word) || allowed.upper) { at := at + 1; }
      if allowed.primary || allowed.lower || allowed.upper {
        found := Scan(at, word, HasUpper(word) && allowed != LOWER);
        if found != 0 { return; }
      }
      if allowed.secondary { found := Scan(if HasUpper(word) then at - 1 else at + 1, word, false); } else { found := 0; }
    }

    /** A new entry, at the head of its bucket. */
    method NewEntry(word: string) returns (at: nat)
      requires hash.buckets > 0 && ZoneEnd(hash) <= |entries| < NODE_LIMIT
      modifies this`entries, this`used
      ensures (View(), at) == Lexicon.NewEntry(old(View()), hash, word)
    {
      hide Hashit, FiledUpper;
      used := Lexicon.AllocateWord(View(), word).used;
      at := Bucket(hash, word);
      if entries[at].word == "" && !booted {
        entries := entries[at := entries[at].(word := word, hash := Hashit(hash, word), upper := FiledUpper(word))];
      } else {
        var bucket := at;
        at := |entries|;
        entries := entries + [Entry(word, Hashit(hash, word), GetNextNode(entries[bucket]), FiledUpper(word), 0, 0)];
        entries := entries[bucket := SetNextNode(entries[bucket], at)];
        assert entries == old(entries)[bucket := entries[bucket]] + [entries[at]];
      }
    }

    method StoreSpelling(word: string) returns (at: nat)
      requires Lawful(View(), hash) && |entries| < NODE_LIMIT
      modifies this`entries, this`used
      ensures old(hash.buckets > 0 && ZoneEnd(hash) <= |entries|) && (View(), at) == StorePlain(old(View()), hash, word)
    {
      hide Lawful, Lexicon.NewEntry, Lexicon.FindSpelling;
      LawfulZone(View(), hash);
      var name := if word == "" then "emptystring" else word;
      at := FindSpelling(name);
      if at == 0 { at := NewEntry(name); }
    }

    method AddProperty(w: nat, flag: bv64)
      requires Lawful(View(), hash) && |entries| < NODE_LIMIT && w < |entries|
      modifies this
      ensures old(hash.buckets > 0 && ZoneEnd(hash) <= |entries|)
      ensures View() == Lexicon.AddProperty(old(View()), hash, w, flag)
    {
      hide Lawful, AnyBit, AllBits, SetBits, StorePlain, Lexicon.PreserveProperty, SetMultiwordHeader, GetMultiwordHeader;
      LawfulZone(View(), hash);
      var was, word := entries[w].properties, entries[w].word;
      if flag != 0 && !AllBits(was, flag) {
        ghost var k := View();
        if w < locked { PreserveProperty(w); }
        SameTableRefl(k, View());
        SameTableIsLawful(k, View(), hash);
        if !AnyBit(was, PART_OF_SPEECH) && AnyBit(flag, PART_OF_SPEECH) && MayHead(word) {
          StoreHeader(word);
        }
        entries := entries[w := entries[w].(properties := SetBits(entries[w].properties, flag))];
      }
    }

    /** The part of AddProperty that stores the first word of several. */
    method StoreHeader(word: string)
      requires Lawful(View(), hash) && |entries| < NODE_LIMIT
      modifies this`entries, this`used
      ensures old(hash.buckets > 0 && ZoneEnd(hash) <= |entries|) && old(|entries|) <= |entries|
      ensures View() == Lexicon.StoreHeader(old(View()), hash, word)
    {
      hide Lawful, StorePlain, SetMultiwordHeader, GetMultiwordHeader, Extends;
      LawfulZone(View(), hash);
      var (n, first) := FirstOf(hash, word);
      if n != 1 {
        StorePlainKeepsLawful(View(), hash, first);
        StorePlainKeeps(View(), hash, first);
        var e := StoreSpelling(first);
        if n > GetMultiwordHeader(entries[e]) {
          entries := entries[e := SetMultiwordHeader(entries[e], n)];
        }
      }
    }

    /** StoreWord, with the splitting of texts that are not taken as they are. */
    method StoreWord(word: string, properties: bv64) returns (at: nat)
      requires Lawful(View(), hash) && |entries| + 1 < NODE_LIMIT
      modifies this
      ensures old(hash.buckets > 0 && ZoneEnd(hash) <= |entries|)
      ensures (View(), at) == Lexicon.StoreWord(old(View()), hash, word, properties)
      ensures Lawful(View(), hash) && Holds(View(), at, StoredAs(hash, word, properties))
    {
      hide Lawful, StorePlain, Lexicon.AddProperty, ClearBits, Extends, StoredAs;
      LawfulZone(View(), hash);
      StoreWordKeepsLawful(View(), hash, word, properties);
      var name := StoredAs(hash, word, properties);
      StorePlainKeepsLawful(View(), hash, name);
      StorePlainKeeps(View(), hash, name);
      at := StoreSpelling(name);
      LawfulZone(View(), hash);
      if word != "" { AddProperty(at, ClearBits(properties, AS_IS)); }
    }

    // ----- Releasing ------------------------------------------------------------------------

    /** DeleteDictionaryEntry of the newest entry; false if its bucket does not point to it. */
    method DeleteNewest() returns (headed: bool)
      requires hash.buckets > 0 && |entries| > ZoneEnd(hash)
      modifies this`entries
      ensures View() == DropNewest(old(View()), hash)
      ensures old(Lawful(View(), hash)) ==> headed && Lawful(View(), hash)
    {
      hide Lawful, SetNextNode;
      if Lawful(View(), hash) { DropNewestKeepsLawful(View(), hash); }
      var e := entries[|entries| - 1];
      entries := entries[..|entries| - 1];
      var b := HomeBucket(hash, e);
      headed := GetNextNode(entries[b]) == |entries|;
      if headed { entries := entries[b := SetNextNode(entries[b], GetNextNode(e))]; }
    }

    method PopProperties(mark: nat)
      requires locked <= |entries| && propertyLog <= used
      requires Rewind(cells, propertyLog, mark, LockedProperties(View())).0 <= mark
      modifies this`entries, this`propertyLog
      ensures View() == Lexicon.PopProperties(old(View()), mark)
    {
      while propertyLog != 0
        invariant locked <= |entries| && propertyLog <= used
        invariant Rewind(cells, propertyLog, mark, LockedProperties(View())).0 <= mark
        invariant Lexicon.PopProperties(View(), mark) == Lexicon.PopProperties(old(View()), mark)
        decreases propertyLog
      {
        if propertyLog <= mark { break; }
        var c := cells[propertyLog];
        assert LockedProperties(WithProperties(View(), c.word, c.value)) == LockedProperties(View())[c.word := c.value];
        propertyLog, entries := c.next, entries[c.word := entries[c.word].(properties := c.value)];
      }
    }

    method PopFlags(mark: nat)
      requires locked <= |entries| && flagLog <= used
      requires Rewind(cells, flagLog, mark, LockedFlags(View())).0 <= mark
      modifies this`entries, this`flagLog
      ensures View() == Lexicon.PopFlags(old(View()), mark)
    {
      while flagLog != 0
        invariant locked <= |entries| && flagLog <= used
        invariant Rewind(cells, flagLog, mark, LockedFlags(View())).0 <= mark
        invariant Lexicon.PopFlags(View(), mark) == Lexicon.PopFlags(old(View()), mark)
        decreases flagLog
      {
        if flagLog <= mark { break; }
        var c := cells[flagLog];
        assert LockedFlags(WithFlags(View(), c.word, c.value)) == LockedFlags(View())[c.word := c.value];
        flagLog, entries := c.next, entries[c.word := entries[c.word].(systemFlags := c.value)];
      }
    }

    /** DictionaryRelease to the state `a` the dictionary grew out of: `a` is back. */
    method Release(until: nat, mark: nat, ghost a: Lex)
      requires Lawful(a, hash) && Lawful(View(), hash) && Since(a, View(), hash) && until == |a.entries| && mark == a.used
      modifies this
      ensures hash.buckets > 0 && ZoneEnd(hash) <= |a.entries|
      ensures View() == Lexicon.Release(old(View()), hash, until, mark)
      ensures Lawful(View(), hash) && Restored(a, View(), hash)
    {
      hide Lawful, Restored, DropNewest, Lexicon.PopProperties, Lexicon.PopFlags, Persist, SameTable, SameCells, ZoneEnd;
      LawfulZone(a, hash);
      ReleaseRestores(a, View(), hash);
      ghost var k := View();
      SinceLogs(a, k, hash);
      PopPropertiesRewinds(k, mark);
      PopProperties(mark);
      SameFlags(k, View());
      PopFlagsRewinds(View(), mark);
      PopFlags(mark);
      PopsRewind(a, k, hash, Lexicon.PopProperties(k, mark), View());
      ghost var f := View();
      while |entries| > until
        invariant DropTo(View(), hash, until) == DropTo(f, hash, until)
      {
        var headed := DeleteNewest();
      }
      used, cells := mark, map c | c in cells && c <= mark :: cells[c];
    }
  }

  // ----- Walking a bucket -------------------------------------------------------------------

  /** The rest of a bucket list from `at` on: its links go down and stay above the bucket zone. */
  ghost predicate OnList(k: Lex, h: Hashing, at: nat) {
    (at == 0 || at < |k.entries|) &&
    exists next: seq<nat> :: LinksOf(k, h, next) && forall i :: i in Chain(next, at) ==> ZoneEnd(h) <= i < |k.entries|
  }

  lemma BucketIsOnList(k: Lex, h: Hashing, b: nat)
    requires Lawful(k, h) && 1 <= b < ZoneEnd(h)
    ensures b < |k.entries| && OnList(k, h, GetNextNode(k.entries[b]))
  {
    hide HomeBucket, GetNextNode, EntryOk, Exact, OneEach;
    ListsAreAbove(k, h, b);
    HeadIsInUse(k, h, b);
    assert LinksOf(k, h, Buckets(k, h).next);
  }

  lemma {:induction false} ChainTail(next: seq<nat>, h: nat, d: nat)
    requires d in Chain(next, h)
    ensures forall i :: i in Chain(next, d) ==> i in Chain(next, h)
    decreases h
  {
    if h != d { ChainTail(next, next[h], d); }
  }

  /** Where a walk may start: at a bucket or at an entry of one. */
  lemma WalkStarts(k: Lex, h: Hashing, b: nat)
    requires Lawful(k, h) && 1 <= b < |k.entries|
    ensures OnList(k, h, GetNextNode(k.entries[b]))
  {
    hide Lawful, OnList, GetNextNode, ZoneEnd;
    if b < ZoneEnd(h) {
      BucketIsOnList(k, h, b);
    } else {
      EntryIsOnList(k, h, b);
      ListStep(k, h, b);
    }
  }

  lemma EntryIsOnList(k: Lex, h: Hashing, d: nat)
    requires Lawful(k, h) && ZoneEnd(h) <= d < |k.entries|
    ensures OnList(k, h, d)
  {
    hide HomeBucket, GetNextNode, EntryOk, Exact, OneEach;
    var v := Buckets(k, h);
    var b := HomeBucket(h, k.entries[d]);
    HomeInZone(h, k.entries[d]);
    ListsAreAbove(k, h, b);
    assert v.key[d] == Some(b);
    ListIsExact(v, b);
    ChainTail(v.next, v.head[b], d);
  }

  lemma HeadIsInUse(k: Lex, h: Hashing, b: nat)
    requires Lawful(k, h) && 1 <= b < ZoneEnd(h)
    ensures b < |k.entries| && GetNextNode(k.entries[b]) < |k.entries|
  {
    hide HomeBucket, GetNextNode, EntryOk, OneEach, Chain;
    assert ExactAt(Buckets(k, h), b);
  }

  lemma ListStep(k: Lex, h: Hashing, at: nat)
    requires OnList(k, h, at) && at != 0
    ensures at < |k.entries| && GetNextNode(k.entries[at]) < at && OnList(k, h, GetNextNode(k.entries[at]))
  {
    hide GetNextNode, ZoneEnd;
    var next: seq<nat> :| LinksOf(k, h, next) && forall i :: i in Chain(next, at) ==> ZoneEnd(h) <= i < |k.entries|;
    assert at in Chain(next, at);
    assert Chain(next, at) == [at] + Chain(next, next[at]);
    assert forall i :: i in Chain(next, next[at]) ==> i in Chain(next, at);
  }

  lemma FollowStep(k: Lex, h: Hashing, at: nat)
    requires OnList(k, h, at)
    ensures at != 0 ==> at < |k.entries| && OnList(k, h, GetNextNode(k.entries[at]))
    ensures at != 0 ==> Follow(k, at) == [at] + Follow(k, GetNextNode(k.entries[at]))
    ensures at == 0 ==> Follow(k, at) == []
  {
    hide GetNextNode, OnList;
    if at != 0 { ListStep(k, h, at); }
  }

  lemma FindStep(k: Lex, h: Hashing, at: nat, word: string)
    requires 0 < at < |k.entries| && GetNextNode(k.entries[at]) < at
    ensures FindFrom(k, h, at, word) ==
            if Spelled(h, k.entries[at], word) then at else FindFrom(k, h, GetNextNode(k.entries[at]), word)
  {
    hide Spelled, GetNextNode;
  }

  lemma FindNone(k: Lex, h: Hashing, word: string)
    ensures FindFrom(k, h, 0, word) == 0
  {
  }

  lemma SinceLogs(a: Lex, k: Lex, h: Hashing)
    requires Since(a, k, h)
    ensures k.locked <= |k.entries| && k.propertyLog <= k.used && k.flagLog <= k.used
    ensures Rewind(k.cells, k.propertyLog, a.used, LockedProperties(k)).0 <= a.used
    ensures Rewind(k.cells, k.flagLog, a.used, LockedFlags(k)).0 <= a.used
  {
    hide Persist;
  }

  lemma SameFlags(k: Lex, p: Lex)
    requires PropertiesOnly(k, p) && k.locked == p.locked <= |k.entries|
    ensures LockedFlags(p) == LockedFlags(k)
  {
  }
}
