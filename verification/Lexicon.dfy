/** The dictionary of dictionarySystem.cpp: a hash table threaded through an arena of entries
  * allocated upward, a string arena allocated downward, and two undo logs kept in the string
  * arena.
  *
  * Places in the string arena are offsets from its top, as String2Index gives them, so a
  * larger offset is younger; `used` is the offset of stringFree. Only the cells the code
  * reads back are kept: backtrack marks and undo records.
  */
module Lexicon {
  import opened Words

  const NODE_LIMIT: nat := 0x1000000

  /** The part of WORDENTRY the hash table and the undo logs use. A null `word` is "". The high
    * byte of `nextNode` is the multiword header, the rest the next entry of the bucket. */
  datatype Entry = Entry(word: string, hash: nat, nextNode: nat, upper: bool, properties: bv64, systemFlags: bv64)

  const NO_ENTRY := Entry("", 0, 0, false, 0, 0)

  function GetNextNode(e: Entry): nat { e.nextNode % NODE_LIMIT }

  function GetMultiwordHeader(e: Entry): nat { e.nextNode / NODE_LIMIT }

  /** "nextNode &= MULTIHEADERBITS; nextNode |= n". */
  function SetNextNode(e: Entry, n: nat): (r: Entry)
    requires n < NODE_LIMIT
    ensures GetNextNode(r) == n && GetMultiwordHeader(r) == GetMultiwordHeader(e)
  {
    e.(nextNode := e.nextNode / NODE_LIMIT * NODE_LIMIT + n)
  }

  /** SETMULTIWORDHEADER: of "n << 24", 32 bits are kept. */
  function SetMultiwordHeader(e: Entry, n: nat): (r: Entry)
    ensures GetMultiwordHeader(r) == n % 256 && GetNextNode(r) == GetNextNode(e)
  {
    e.(nextNode := e.nextNode % NODE_LIMIT + n % 256 * NODE_LIMIT)
  }

  datatype Cell =
    | Mark(id: int, previous: nat, facts: nat, words: nat)
    | Redefine(next: nat, word: nat, value: bv64)

  datatype Lex = Lex(entries: seq<Entry>, booted: bool, locked: nat,
                     cells: map<nat, Cell>, used: nat, propertyLog: nat, flagLog: nat)

  /** The entries below this index are the buckets themselves. */
  function ZoneEnd(h: Hashing): nat { h.buckets + 2 }

  // ----- The string arena ---------------------------------------------------------------

  function RoundUp(n: nat, unit: nat): (r: nat)
    requires unit > 0
    ensures n <= r
  {
    n + (unit - n % unit) % unit
  }

  /** AllocateString: whole words, then aligned. */
  function Allocate(used: nat, bytes: nat, unit: nat): (r: nat)
    requires unit > 0
    ensures r >= used + bytes
  {
    RoundUp(used + RoundUp(bytes, 4), unit)
  }

  /** What is allocated ends at the least multiple of the unit that leaves room for the bytes in whole words. */
  lemma AllocateIs(used: nat, bytes: nat, unit: nat)
    requires unit == 1 || unit == 4 || unit == 16 || unit == 64
    ensures var r := Allocate(used, bytes, unit); var end := used + (bytes + 3) / 4 * 4; r % unit == 0 && end <= r < end + unit
  {
    RoundUpIs(bytes, 4);
    RoundUpIs(used + RoundUp(bytes, 4), unit);
  }

  lemma RoundUp4(n: nat)
    ensures RoundUp(n, 4) % 4 == 0 && n <= RoundUp(n, 4) < n + 4
  {
  }

  lemma RoundUp16(n: nat)
    ensures RoundUp(n, 16) % 16 == 0 && n <= RoundUp(n, 16) < n + 16
  {
  }

  lemma RoundUp64(n: nat)
    ensures RoundUp(n, 64) % 64 == 0 && n <= RoundUp(n, 64) < n + 64
  {
  }

  lemma RoundUp1(n: nat)
    ensures RoundUp(n, 1) == n
  {
  }

  lemma RoundUpIs(n: nat, unit: nat)
    requires unit == 1 || unit == 4 || unit == 16 || unit == 64
    ensures RoundUp(n, unit) % unit == 0 && n <= RoundUp(n, unit) < n + unit
  {
    hide RoundUp;
    if unit == 1 { RoundUp1(n); } else if unit == 4 { RoundUp4(n); } else if unit == 16 { RoundUp16(n); } else { RoundUp64(n); }
  }

  /** Room for a spelling; once the dictionary is locked, with its size in front. */
  function AllocateWord(k: Lex, word: string): Lex {
    k.(used := Allocate(k.used, |word| + 1 + if k.locked != 0 then 5 else 0, 4))
  }

  function AllocateCell(k: Lex, cell: Cell, unit: nat): (r: Lex)
    requires unit > 0
    ensures r.used >= k.used + 16 && r == k.(used := r.used, cells := k.cells[r.used := cell])
  {
    var at := Allocate(k.used, 16, unit);
    k.(used := at, cells := k.cells[at := cell])
  }

  /** "stringFree = stringUsed": what was allocated since is gone. */
  function ReleaseStrings(k: Lex, mark: nat): Lex {
    k.(used := mark, cells := map c | c in k.cells && c <= mark :: k.cells[c])
  }

  // ----- Properties and flags -------------------------------------------------------------

  predicate AnyBit(bits: bv64, mask: bv64) { bits & mask != 0 }

  predicate AllBits(bits: bv64, mask: bv64) { mask == bits & mask }

  function SetBits(bits: bv64, mask: bv64): bv64 { bits | mask }

  function ClearBits(bits: bv64, mask: bv64): bv64 { bits & !mask }

  /** AddSystemFlag marks only concepts with NOCONCEPTLIST. */
  function AllowedFlag(word: string, flag: bv64): bv64 {
    if AnyBit(flag, NOCONCEPTLIST) && (word == "" || word[0] != '~') then flag ^ NOCONCEPTLIST else flag
  }

  function WithProperties(k: Lex, w: nat, p: bv64): Lex
    requires w < |k.entries|
  {
    k.(entries := k.entries[w := k.entries[w].(properties := p)])
  }

  function WithFlags(k: Lex, w: nat, p: bv64): Lex
    requires w < |k.entries|
  {
    k.(entries := k.entries[w := k.entries[w].(systemFlags := p)])
  }

  /** PreserveProperty: logs the value about to change. */
  function PreserveProperty(k: Lex, w: nat): (r: Lex)
    requires w < |k.entries|
    ensures r.entries == k.entries && r.used >= k.used + 16
    ensures r == k.(used := r.used, propertyLog := r.used,
                    cells := k.cells[r.used := Redefine(k.propertyLog, w, k.entries[w].properties)])
  {
    var r := AllocateCell(k, Redefine(k.propertyLog, w, k.entries[w].properties), 64);
    r.(propertyLog := r.used)
  }

  /** PreserveFlags. */
  function PreserveFlags(k: Lex, w: nat): (r: Lex)
    requires w < |k.entries|
    ensures r.entries == k.entries && r.used >= k.used + 16
    ensures r == k.(used := r.used, flagLog := r.used,
                    cells := k.cells[r.used := Redefine(k.flagLog, w, k.entries[w].systemFlags)])
  {
    var r := AllocateCell(k, Redefine(k.flagLog, w, k.entries[w].systemFlags), 64);
    r.(flagLog := r.used)
  }

  const PART_OF_SPEECH: bv64 := 0x801ffffef8780

  const NOCONCEPTLIST: bv64 := 0x200

  /** AddSystemFlag. */
  function AddSystemFlag(k: Lex, w: nat, flag: bv64): Lex
    requires w < |k.entries|
  {
    var f := AllowedFlag(k.entries[w].word, flag);
    if f != 0 && f != k.entries[w].systemFlags then
      var k1 := if w < k.locked then PreserveFlags(k, w) else k;
      WithFlags(k1, w, SetBits(k.entries[w].systemFlags, f))
    else k
  }

  function RemoveSystemFlag(k: Lex, w: nat, flags: bv64): Lex
    requires w < |k.entries|
  {
    if AnyBit(k.entries[w].systemFlags, flags) then
      var k1 := if w < k.locked then PreserveFlags(k, w) else k;
      WithFlags(k1, w, ClearBits(k.entries[w].systemFlags, flags))
    else k
  }

  function RemoveProperty(k: Lex, w: nat, flags: bv64): Lex
    requires w < |k.entries|
  {
    if AnyBit(k.entries[w].properties, flags) then
      var k1 := if w < k.locked then PreserveProperty(k, w) else k;
      WithProperties(k1, w, ClearBits(k.entries[w].properties, flags))
    else k
  }

  // ----- Storing words ----------------------------------------------------------------------

  /** The entry of a bucket walk that starts at `at` and is spelled `word`, or 0. */
  function FindFrom(k: Lex, h: Hashing, at: nat, word: string): nat
    decreases at
  {
    if at == 0 || at >= |k.entries| then 0
    else if Spelled(h, k.entries[at], word) then at
    else if GetNextNode(k.entries[at]) < at then FindFrom(k, h, GetNextNode(k.entries[at]), word)
    else 0
  }

  /** The length of a word is kept in 16 bits. */
  const LONGEST: nat := 0x10000

  /** "D->length == len". */
  predicate SameLength(stored: string, word: string) { |stored| % LONGEST == |word| }

  /** The test of StoreWord: hash, length and exact spelling. */
  predicate Spelled(h: Hashing, e: Entry, word: string) {
    e.hash == Hashit(h, word) && SameLength(e.word, word) && e.word == word
  }

  lemma SameLengthIff(stored: string, word: string)
    requires |stored| == |word|
    ensures SameLength(stored, word) <==> |word| < LONGEST
  {
  }

  /** The whole walk of StoreWord: the bucket entry itself, then its list. */
  function FindSpelling(k: Lex, h: Hashing, word: string): nat
    requires h.buckets > 0 && |k.entries| >= ZoneEnd(h)
  {
    var b := Bucket(h, word);
    if Spelled(h, k.entries[b], word) then b else FindFrom(k, h, GetNextNode(k.entries[b]), word)
  }

  /** A new entry at the head of its bucket; while the base system loads, in the bucket entry
    * itself if that is free. */
  function NewEntry(k: Lex, h: Hashing, word: string): (Lex, nat)
    requires h.buckets > 0 && ZoneEnd(h) <= |k.entries| < NODE_LIMIT
  {
    var b := Bucket(h, word);
    var k1 := AllocateWord(k, word);
    var base := k.entries[b];
    if base.word == "" && !k.booted then
      (k1.(entries := k.entries[b := base.(word := word, hash := Hashit(h, word), upper := FiledUpper(word))]), b)
    else
      var d := |k.entries|;
      var e := Entry(word, Hashit(h, word), GetNextNode(base), FiledUpper(word), 0, 0);
      (k1.(entries := k.entries[b := SetNextNode(base, d)] + [e]), d)
  }

  /** The part of StoreWord that finds or makes the entry of a spelling. */
  function StorePlain(k: Lex, h: Hashing, word: string): (r: (Lex, nat))
    requires h.buckets > 0 && ZoneEnd(h) <= |k.entries| < NODE_LIMIT
  {
    var name := if word == "" then "emptystring" else word;
    var found := FindSpelling(k, h, name);
    if found != 0 then (k, found) else NewEntry(k, h, name)
  }

  const AS_IS: bv64 := 0x8000_0000_0000_0000

  /** AS_IS and PUNCTUATION_BITS. */
  const WHOLE: bv64 := 0x8000_0000_000f_8000

  /** Quoted things, names that start with an underscore, names of variables, concepts and functions, and
    * what is asked for as it is or is punctuation, are not split. */
  predicate Whole(word: string, properties: bv64) {
    word != "" && (word[0] == '"' || word[0] == '_' || word[0] == '`' || AlwaysLower(word) || AnyBit(properties, WHOLE))
  }

  /** The spelling under which StoreWord stores a text: that of its words joined by underscores. */
  function StoredAs(h: Hashing, word: string, properties: bv64): (r: string)
    ensures r != "" && (Whole(word, properties) ==> r == word)
  {
    if word == "" then h.join("emptystring") else if Whole(word, properties) then word else h.join(word)
  }

  /** In how many words a spelling falls, and the first as it is stored. */
  function FirstOf(h: Hashing, word: string): (nat, string) { (h.burst(word).0, StoredAs(h, h.burst(word).1, 0)) }

  /** The first time a word of several words gets a part of speech, the first of them is
    * stored and its header made to reach that far. */
  function StoreHeader(k: Lex, h: Hashing, word: string): Lex
    requires h.buckets > 0 && ZoneEnd(h) <= |k.entries| < NODE_LIMIT
  {
    var (n, first) := FirstOf(h, word);
    if n == 1 then k
    else
      var (k1, e) := StorePlain(k, h, first);
      if e < |k1.entries| && n > GetMultiwordHeader(k1.entries[e])
      then k1.(entries := k1.entries[e := SetMultiwordHeader(k1.entries[e], n)]) else k1
  }

  predicate MayHead(word: string) { word != "" && word[0] != '~' && word[0] != '^' && word[0] != '$' }

  /** AddProperty. */
  function AddProperty(k: Lex, h: Hashing, w: nat, flag: bv64): Lex
    requires h.buckets > 0 && ZoneEnd(h) <= |k.entries| < NODE_LIMIT && w < |k.entries|
  {
    var was := k.entries[w].properties;
    if flag != 0 && !AllBits(was, flag) then
      var k1 := if w < k.locked then PreserveProperty(k, w) else k;
      var k2 := if !AnyBit(was, PART_OF_SPEECH) && AnyBit(flag, PART_OF_SPEECH) && MayHead(k.entries[w].word)
                then StoreHeader(k1, h, k.entries[w].word) else k1;
      if w < |k2.entries| then WithProperties(k2, w, SetBits(k2.entries[w].properties, flag)) else k2
    else k
  }

  // ----- Releasing words -----------------------------------------------------------------

  /** The bucket of an entry, as DeleteDictionaryEntry finds it. */
  function HomeBucket(h: Hashing, e: Entry): nat
    requires h.buckets > 0
  {
    e.hash % h.buckets + 1 + if e.upper then 1 else 0
  }

  /** DeleteDictionaryEntry of the newest entry, which leaves the table: its bucket takes over
    * its link, if the bucket does point to it. */
  function DropNewest(k: Lex, h: Hashing): (r: Lex)
    requires h.buckets > 0 && |k.entries| > ZoneEnd(h)
    ensures |r.entries| == |k.entries| - 1
  {
    var d := |k.entries| - 1;
    var e := k.entries[d];
    var rest := k.entries[..d];
    var b := HomeBucket(h, e);
    if b >= d || GetNextNode(rest[b]) != d then k.(entries := rest)
    else k.(entries := rest[b := SetNextNode(rest[b], GetNextNode(e))])
  }

  /** "while (dictionaryFree > until) DeleteDictionaryEntry(--dictionaryFree)". */
  function DropTo(k: Lex, h: Hashing, until: nat): (r: Lex)
    requires h.buckets > 0 && until >= ZoneEnd(h)
    ensures |r.entries| == if until < |k.entries| then until else |k.entries|
    decreases |k.entries|
  {
    if |k.entries| <= until then k else DropTo(DropNewest(k, h), h, until)
  }

  /** The first loop of DictionaryRelease: takes back the property changes logged since the mark. */
  function PopProperties(k: Lex, mark: nat): (r: Lex)
    ensures |r.entries| == |k.entries|
    decreases k.propertyLog
  {
    if k.propertyLog == 0 || k.propertyLog > k.used then k.(propertyLog := 0)
    else if k.propertyLog <= mark then k
    else if k.propertyLog in k.cells && k.cells[k.propertyLog].Redefine? then
      var c := k.cells[k.propertyLog];
      if c.next < k.propertyLog && c.word < |k.entries|
      then PopProperties(WithProperties(k, c.word, c.value).(propertyLog := c.next), mark) else k
    else k
  }

  function PopFlags(k: Lex, mark: nat): (r: Lex)
    ensures |r.entries| == |k.entries|
    decreases k.flagLog
  {
    if k.flagLog == 0 || k.flagLog > k.used then k.(flagLog := 0)
    else if k.flagLog <= mark then k
    else if k.flagLog in k.cells && k.cells[k.flagLog].Redefine? then
      var c := k.cells[k.flagLog];
      if c.next < k.flagLog && c.word < |k.entries|
      then PopFlags(WithFlags(k, c.word, c.value).(flagLog := c.next), mark) else k
    else k
  }

  /** DictionaryRelease. */
  function Release(k: Lex, h: Hashing, until: nat, mark: nat): Lex
    requires h.buckets > 0 && until >= ZoneEnd(h)
  {
    ReleaseStrings(DropTo(PopFlags(PopProperties(k, mark), mark), h, until), mark)
  }

  /** StoreWord: the entry of a text, made if there is none. */
  function StoreWord(k: Lex, h: Hashing, word: string, properties: bv64): (Lex, nat)
    requires h.buckets > 0 && ZoneEnd(h) <= |k.entries| && |k.entries| + 1 < NODE_LIMIT
  {
    var (k1, w) := StorePlain(k, h, StoredAs(h, word, properties));
    if word == "" || w >= |k1.entries| || |k1.entries| >= NODE_LIMIT || |k1.entries| < ZoneEnd(h) then (k1, w)
    else (AddProperty(k1, h, w, ClearBits(properties, AS_IS)), w)
  }
}
