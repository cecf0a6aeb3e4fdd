/** The meaning and gloss lists of a word (AddMeaning and AddGloss of dictionarySystem.cpp): a
  * block of memory whose first cell counts the others, and whose capacity is stored nowhere. */
module GrowingList {

  type Meaning = bv32

  const MAX_MEANING: nat := 63
  const MAX_DICTIONARY: bv32 := 0x000fffff
  const SYNSET_MARKER: bv32 := 0x08000000
  const TYPE_RESTRICTION: bv32 := 0xf0000000
  const PREPOSITION: bv32 := 0x08000000

  // ----- When a list grows --------------------------------------------------------------------

  /** a & b. */
  function And(a: nat, b: nat): nat
    decreases a
  {
    if a == 0 || b == 0 then 0 else (a % 2) * (b % 2) + 2 * And(a / 2, b / 2)
  }

  /** The greatest power of two that is at most `n`. */
  function Top(n: nat): (t: nat)
    requires n > 0
    ensures 0 < t <= n < 2 * t
  {
    if n == 1 then 1 else 2 * Top(n / 2)
  }

  predicate IsPower(n: nat) { n > 0 && Top(n) == n }

  lemma {:induction false} AndSelf(n: nat)
    ensures And(n, n) == n
  {
    if n > 0 { AndSelf(n / 2); }
  }

  /** The test of both functions: a count shares no bit with the count before exactly when it is
    * a power of two. */
  lemma {:induction false} GrowsAtPowers(n: nat)
    ensures And(n + 1, n) == 0 <==> IsPower(n + 1)
  {
    if n == 0 {
    } else if n % 2 == 0 {
      assert (n + 1) / 2 == n / 2;
      AndSelf(n / 2);
      assert Top(n + 1) == 2 * Top(n / 2);
    } else {
      assert (n + 1) / 2 == n / 2 + 1;
      GrowsAtPowers(n / 2);
      assert And(n + 1, n) == 2 * And(n / 2 + 1, n / 2);
      assert Top(n + 1) == 2 * Top(n / 2 + 1);
    }
  }

  /** Between powers of two the block in hand is the one for the last power. */
  lemma {:induction false} TopStays(n: nat)
    requires n > 0
    ensures Top(n + 1) == if IsPower(n + 1) then n + 1 else Top(n)
  {
    if n == 1 {
    } else if n % 2 == 0 {
      assert (n + 1) / 2 == n / 2;
    } else {
      assert (n + 1) / 2 == n / 2 + 1;
      TopStays(n / 2);
    }
  }

  lemma TopOne()
    ensures Top(1) == 1
  {
  }

  /** Whether the next entry lands inside the block, given its capacity. */
  predicate NextFits(capacity: nat, count: nat) { And(count + 1, count) == 0 || count + 1 < capacity }

  /** In a list grown from nothing it always does. */
  lemma GrownFits(count: nat)
    requires count > 0
    ensures NextFits(2 * Top(count), count)
  {
    GrowsAtPowers(count);
    TopStays(count);
  }

  /** A list read from the binary dictionary has a block for exactly its count, so the next entry
    * added lands inside it if and only if the new count is a power of two. */
  lemma LoadedFitsIff(count: nat)
    ensures NextFits(count + 1, count) <==> IsPower(count + 1)
  {
    GrowsAtPowers(count);
  }

  // ----- What is added --------------------------------------------------------------------------

  /** A meaning without a word is completed to the next meaning of the word itself. */
  function Completed(m: Meaning, self: Meaning, count: nat): Meaning
    requires count <= MAX_MEANING
  {
    if m & MAX_DICTIONARY == 0 then m | self | (((count + 1) as bv32) << 20) | SYNSET_MARKER else m
  }

  function GetTypeRestriction(m: Meaning): bv32 { m & TYPE_RESTRICTION }

  /** The filter of AddMeaning for duplicate prepositions. */
  predicate BothPrepositions(a: Meaning, b: Meaning) {
    GetTypeRestriction(a) & PREPOSITION != 0 && GetTypeRestriction(b) & PREPOSITION != 0
  }

  /** It never applies: the bit it tests is not one of the type bits it has just masked. */
  lemma NeverBothPrepositions(a: Meaning, b: Meaning)
    ensures !BothPrepositions(a, b)
  {
  }

  /** What AddMeaning makes of a list, and its answer. */
  function Added(s: seq<Meaning>, m: Meaning, self: Meaning, locked: bool): (seq<Meaning>, Meaning)
    requires |s| <= MAX_MEANING
  {
    if locked || |s| == MAX_MEANING then (s, 0)
    else
      var full := Completed(m, self, |s|);
      (if full in s then s else s + [full], full)
  }

  lemma CompletedParts(m: bv32, self: bv32, c: bv32)
    requires m & 0x03ffffff == 0 && self <= 0x000fffff && c <= 63
    ensures var full := m | self | (c << 20) | 0x08000000;
            && full & 0x000fffff == self && (full >> 20) & 63 == c
            && full & 0x08000000 != 0 && full & 0xf0000000 == m & 0xf0000000
  {
  }

  lemma CountFits(count: nat)
    requires count <= MAX_MEANING
    ensures (count as bv32) <= 63
  {
  }

  /** A meaning without word and index is made that of the word itself, of its next index, a synset of the type
    * it had; one with a word stays as it is. */
  lemma CompletedIs(m: Meaning, self: Meaning, count: nat)
    requires count < MAX_MEANING && self <= 0x000fffff
    ensures m & 0x000fffff != 0 ==> Completed(m, self, count) == m
    ensures m & 0x03ffffff == 0 ==>
              var full := Completed(m, self, count);
              && full & 0x000fffff == self && (full >> 20) & 63 == (count + 1) as bv32
              && full & 0x08000000 != 0 && full & 0xf0000000 == m & 0xf0000000
  {
    if m & 0x03ffffff == 0 {
      NoWord(m);
      CountFits(count + 1);
      CompletedParts(m, self, (count + 1) as bv32);
    }
  }

  lemma NoWord(m: bv32)
    requires m & 0x03ffffff == 0
    ensures m & MAX_DICTIONARY == 0
  {
  }

  /** AddMeaning refuses a word that is locked or has 63 meanings. Else the meaning it answers is in the list
    * afterwards: behind all there were, or as it was there before. */
  lemma AddedIs(s: seq<Meaning>, m: Meaning, self: Meaning, locked: bool)
    requires |s| <= 63
    ensures var (t, r) := Added(s, m, self, locked);
            if locked || |s| == 63 then t == s && r == 0
            else r == Completed(m, self, |s|) && r in t && t == if r in s then s else s + [r]
  {
    hide Completed;
  }

  predicate Distinct(s: seq<Meaning>) { forall i, j :: 0 <= i < j < |s| ==> s[i] != s[j] }

  /** A run of AddMeaning on one word. */
  function Run(s: seq<Meaning>, adds: seq<Meaning>, self: Meaning): (r: seq<Meaning>)
    requires |s| <= MAX_MEANING
    decreases |adds|
  {
    if adds == [] then s
    else
      var t := Added(s, adds[0], self, false).0;
      if |t| <= MAX_MEANING then Run(t, adds[1..], self) else t
  }

  /** However many meanings are added, there are at most 63, none twice, and those stored first
    * stay where they were. */
  lemma {:induction false} RunIsBounded(s: seq<Meaning>, adds: seq<Meaning>, self: Meaning)
    requires |s| <= MAX_MEANING && Distinct(s)
    ensures var r := Run(s, adds, self); s <= r && |r| <= MAX_MEANING && Distinct(r)
    decreases |adds|
  {
    hide Completed;
    if adds != [] {
      var t := Added(s, adds[0], self, false).0;
      RunIsBounded(t, adds[1..], self);
    }
  }

  // ----- The list -------------------------------------------------------------------------------

  /** The block of a list with its count, as far as it is used; and its capacity, which no code
    * reads. */
  class List {
    var block: array?<Meaning>
    var count: nat                 // block[0]

    /** A list grown by AddMeaning or AddGloss alone: the block has room for twice the last power
      * of two. */
    ghost predicate Grown()
      reads this, block
    {
      if count == 0 then block == null
      else block != null && block.Length == 2 * Top(count)
    }

    ghost function Contents(): (s: seq<Meaning>)
      requires Grown()
      reads this, block
      ensures |s| == count
    {
      if count == 0 then [] else block[1..count + 1]
    }

    constructor ()
      ensures Grown() && Contents() == []
    {
      block, count := null, 0;
    }

    /** A block of twice the size, the entries copied to it. */
    method Grow(n: nat)
      requires Grown() && n == count + 1
      modifies this`block
      ensures block != null && fresh(block) && block.Length == 2 * n
      ensures block[1..n] == old(Contents())
    {
      var bigger := new Meaning[2 * n](_ => 0);
      forall k | 1 <= k <= count { bigger[k] := block[k]; }
      block := bigger;
    }

    /** The end of both functions: the entry goes behind the others, into a bigger block if the new
      * count is a power of two. Every write is inside a block. */
    method Append(m: Meaning)
      requires Grown()
      modifies this, block
      ensures Grown() && Contents() == old(Contents()) + [m]
      ensures block != null && (fresh(block) || block == old(block))
    {
      hide And, Top;
      var oldCount := count;
      var n := oldCount + 1;
      GrowsAtPowers(oldCount);
      if oldCount > 0 { TopStays(oldCount); } else { assert Top(1) == 1 by { TopOne(); } }
      ghost var before := Contents();
      if And(n, oldCount) == 0 { Grow(n); }
      assert n < block.Length && block[1..n] == before;
      count := n;
      block[n] := m;
      assert block[1..n + 1] == block[1..n] + [m];
    }

    method Holds(m: Meaning) returns (found: bool)
      requires Grown()
      ensures found <==> m in Contents()
    {
      var i := 1;
      while i <= count
        invariant 1 <= i <= count + 1
        invariant m !in (if count == 0 then [] else block[1..i])
      {
        if block[i] == m { return true; }
        i := i + 1;
      }
      return false;
    }

    /** AddMeaning. `self` is the index of the word. */
    method AddMeaning(m: Meaning, self: Meaning, locked: bool) returns (r: Meaning)
      requires Grown() && count <= MAX_MEANING
      modifies this, block
      ensures Grown() && count <= MAX_MEANING
      ensures (Contents(), r) == Added(old(Contents()), m, self, locked)
    {
      hide Completed, Top, BothPrepositions;
      if locked { return 0; }
      var full := Completed(m, self, count);
      if count == MAX_MEANING { return 0; }
      var i := 1;
      while i <= count
        invariant 1 <= i <= count + 1 && Grown() && Contents() == old(Contents()) && full !in Contents()[..i - 1]
        invariant block == old(block) && count == old(count)
      {
        var other := block[i];
        assert Contents()[i - 1] == other && Contents()[..i] == Contents()[..i - 1] + [other];
        if other == full { return full; }
        var both := BothPrepositions(full, other);
        NeverBothPrepositions(full, other);
        if both { return other; }
        i := i + 1;
      }
      assert Contents()[..count] == Contents();
      Append(full);
      r := full;
    }

    /** AddGloss of a word that may have glosses. Its count has no limit. */
    method AddGloss(gloss: Meaning, locked: bool, conditional: bool)
      requires Grown()
      modifies this, block
      ensures Grown()
      ensures Contents() == if locked || conditional || gloss in old(Contents()) then old(Contents()) else old(Contents()) + [gloss]
    {
      hide Top;
      if locked || conditional { return; }
      var found := Holds(gloss);
      if found { return; }
      Append(gloss);
    }
  }
}
