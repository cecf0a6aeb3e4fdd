/** The irregular forms of a word: AddCircularEntry of dictionarySystem.cpp links each word to
  * the next form on a ring, in one map for tenses, one for plurals and one for comparisons. */
module Rings {

  /** A word index; 0 is no word. */
  type Word = nat

  function Get(m: map<Word, Word>, w: Word): Word { if w in m then m[w] else 0 }

  /** AddCircularEntry on the map of one field. */
  function Insert(m: map<Word, Word>, base: Word, entry: Word): map<Word, Word> {
    if base == 0 || Get(m, entry) != 0 then m
    else m[base := entry][entry := if Get(m, base) != 0 then Get(m, base) else base]
  }

  ghost predicate Linked(m: map<Word, Word>, w: Word)
    requires w in m
  {
    m[w] in m
  }

  ghost predicate Apart(m: map<Word, Word>, v: Word, w: Word)
    requires v in m && w in m
  {
    m[v] == m[w] ==> v == w
  }

  /** A union of disjoint rings: following the links is a permutation of the words on them. */
  ghost predicate Disjoint(m: map<Word, Word>) {
    && 0 !in m
    && (forall w {:trigger Linked(m, w)} :: w in m ==> Linked(m, w))
    && (forall v, w {:trigger Apart(m, v, w)} :: v in m && w in m ==> Apart(m, v, w))
  }

  /** `c` is the ring of its first word, in order. */
  ghost predicate IsRing(m: map<Word, Word>, c: seq<Word>) {
    && |c| > 0
    && (forall i :: 0 <= i < |c| ==> c[i] in m)
    && (forall i, j :: 0 <= i < j < |c| ==> c[i] != c[j])
    && (forall i :: 0 <= i < |c| - 1 ==> m[c[i]] == c[i + 1])
    && m[c[|c| - 1]] == c[0]
  }

  /** A ring is determined by where it starts. */
  lemma RingIsUnique(m: map<Word, Word>, c: seq<Word>, d: seq<Word>)
    requires IsRing(m, c) && IsRing(m, d) && c[0] == d[0]
    ensures c == d
  {
    forall i | 0 <= i < |c| && i < |d| ensures c[i] == d[i] { SameAt(m, c, d, i); }
    var last := (if |c| < |d| then |c| else |d|) - 1;
    EndsAt(m, c, last);
    EndsAt(m, d, last);
  }

  /** Only the last word of a ring leads back to the first. */
  lemma EndsAt(m: map<Word, Word>, c: seq<Word>, i: nat)
    requires IsRing(m, c) && i < |c|
    ensures m[c[i]] == c[0] <==> i == |c| - 1
  {
    assert i < |c| - 1 ==> m[c[i]] == c[i + 1] && c[0] != c[i + 1];
  }

  lemma {:induction false} SameAt(m: map<Word, Word>, c: seq<Word>, d: seq<Word>, i: nat)
    requires IsRing(m, c) && IsRing(m, d) && c[0] == d[0] && i < |c| && i < |d|
    ensures c[i] == d[i]
  {
    if i > 0 {
      SameAt(m, c, d, i - 1);
      assert m[c[i - 1]] == c[i] && m[d[i - 1]] == d[i];
    }
  }

  lemma NotNull(m: map<Word, Word>, w: Word)
    requires Disjoint(m)
    ensures Get(m, w) != 0 <==> w in m
    ensures w in m ==> m[w] in m
  {
    assert w in m ==> Linked(m, w);
  }

  lemma InsertKeepsDisjoint(m: map<Word, Word>, base: Word, entry: Word)
    requires Disjoint(m) && entry != 0
    ensures Disjoint(Insert(m, base, entry))
  {
    var r := Insert(m, base, entry);
    NotNull(m, entry);
    NotNull(m, base);
    if r != m {
      forall w | w in r
        ensures Linked(r, w)
      {
        assert w in m ==> Linked(m, w);
        assert base in m ==> Linked(m, base);
      }
      forall v, w | v in r && w in r
        ensures Apart(r, v, w)
      {
        assert v in m && w in m ==> Apart(m, v, w);
        assert v in m ==> Linked(m, v) && (base in m ==> Apart(m, v, base));
        assert w in m ==> Linked(m, w) && (base in m ==> Apart(m, w, base));
      }
    }
  }

  /** An entry that is on no ring goes onto that of the base, right after it. */
  lemma InsertExtendsRing(m: map<Word, Word>, base: Word, entry: Word, c: seq<Word>)
    requires Disjoint(m) && base != 0 && entry != 0 && entry !in m && entry != base
    requires if base in m then IsRing(m, c) && c[0] == base else c == [base]
    ensures IsRing(Insert(m, base, entry), [base, entry] + c[1..])
  {
    var r := Insert(m, base, entry);
    var d := [base, entry] + c[1..];
    forall i | 0 <= i < |d|
      ensures d[i] in r && (i < |d| - 1 ==> r[d[i]] == d[i + 1])
    {
      if i >= 2 { assert d[i] == c[i - 1] && c[i - 1] != base; }
      if i == 1 && |c| > 1 { assert c[0] == base; }
    }
    forall i, j | 0 <= i < j < |d|
      ensures d[i] != d[j]
    {
      if j >= 2 { assert d[j] == c[j - 1] && c[j - 1] in m && c[j - 1] != c[0]; }
      if i >= 2 { assert d[i] == c[i - 1]; }
    }
  }

  /** No other ring changes. */
  lemma InsertKeepsOtherRings(m: map<Word, Word>, base: Word, entry: Word, c: seq<Word>)
    requires Disjoint(m) && entry != 0 && IsRing(m, c) && base !in c
    ensures IsRing(Insert(m, base, entry), c)
  {
    var r := Insert(m, base, entry);
    NotNull(m, entry);
    forall i | 0 <= i < |c|
      ensures c[i] in r && r[c[i]] == m[c[i]]
    {
      assert c[i] != base && c[i] in m;
    }
  }

  /** An entry already on a ring, its own or another, is refused; a word on none may be linked
    * to itself. */
  lemma RefusedIff(m: map<Word, Word>, base: Word, entry: Word)
    requires Disjoint(m) && base != 0 && entry != 0
    ensures Insert(m, base, entry) == m <==> entry in m
  {
    NotNull(m, entry);
    if entry !in m { assert entry in Insert(m, base, entry); }
  }

  // ----- Runs and walks --------------------------------------------------------------------

  /** A run of AddCircularEntry on one map. */
  function Run(m: map<Word, Word>, adds: seq<(Word, Word)>): map<Word, Word>
    decreases |adds|
  {
    if adds == [] then m else Run(Insert(m, adds[0].0, adds[0].1), adds[1..])
  }

  lemma {:induction false} RunKeepsDisjoint(m: map<Word, Word>, adds: seq<(Word, Word)>)
    requires Disjoint(m) && forall i :: 0 <= i < |adds| ==> adds[i].1 != 0
    ensures Disjoint(Run(m, adds))
    decreases |adds|
  {
    hide Disjoint, Insert;
    if adds != [] {
      InsertKeepsDisjoint(m, adds[0].0, adds[0].1);
      RunKeepsDisjoint(Insert(m, adds[0].0, adds[0].1), adds[1..]);
    }
  }

  /** The start of a ring, as far as it has been walked. */
  ghost predicate IsPath(m: map<Word, Word>, p: seq<Word>) {
    && |p| > 0
    && (forall i :: 0 <= i < |p| ==> p[i] in m)
    && (forall i, j :: 0 <= i < j < |p| ==> p[i] != p[j])
    && (forall i :: 0 <= i < |p| - 1 ==> m[p[i]] == p[i + 1])
  }

  lemma PathIsShort(m: map<Word, Word>, p: seq<Word>)
    requires IsPath(m, p)
    ensures |p| <= |m|
  {
    var s := set x | x in p;
    DistinctCount(p, s);
    assert s <= m.Keys;
    assert m.Keys == s + (m.Keys - s);
  }

  lemma {:induction false} DistinctCount(p: seq<Word>, s: set<Word>)
    requires (forall i, j :: 0 <= i < j < |p| ==> p[i] != p[j]) && s == (set x | x in p)
    ensures |s| == |p|
    decreases |p|
  {
    if p != [] {
      var q := p[..|p| - 1];
      var t := set x | x in q;
      DistinctCount(q, t);
      assert p == q + [p[|p| - 1]];
      assert s == t + {p[|p| - 1]};
    }
  }

  lemma PathGoesOn(m: map<Word, Word>, p: seq<Word>)
    requires Disjoint(m) && IsPath(m, p) && m[p[|p| - 1]] != p[0]
    ensures IsPath(m, p + [m[p[|p| - 1]]])
  {
    var e := m[p[|p| - 1]];
    assert Linked(m, p[|p| - 1]);
    forall j | 0 <= j < |p|
      ensures p[j] != e
    {
      if j > 0 { assert m[p[j - 1]] == p[j] && Apart(m, p[j - 1], p[|p| - 1]); }
    }
  }

  class Irregular {
    var tense: map<Word, Word>
    var plural: map<Word, Word>
    var comparison: map<Word, Word>

    ghost predicate Valid()
      reads this
    {
      Disjoint(tense) && Disjoint(plural) && Disjoint(comparison)
    }

    constructor ()
      ensures Valid() && tense == plural == comparison == map[]
    {
      tense, plural, comparison := map[], map[], map[];
    }

    /** AddCircularEntry for TENSEFIELD; the other fields differ in the map only. */
    method AddTense(base: Word, entry: Word)
      requires Valid() && entry != 0
      modifies this`tense
      ensures Valid() && tense == Insert(old(tense), base, entry)
    {
      InsertKeepsDisjoint(tense, base, entry);
      tense := Link(tense, base, entry);
    }

    method AddPlural(base: Word, entry: Word)
      requires Valid() && entry != 0
      modifies this`plural
      ensures Valid() && plural == Insert(old(plural), base, entry)
    {
      InsertKeepsDisjoint(plural, base, entry);
      plural := Link(plural, base, entry);
    }

    method AddComparison(base: Word, entry: Word)
      requires Valid() && entry != 0
      modifies this`comparison
      ensures Valid() && comparison == Insert(old(comparison), base, entry)
    {
      InsertKeepsDisjoint(comparison, base, entry);
      comparison := Link(comparison, base, entry);
    }
  }

  method Link(m: map<Word, Word>, base: Word, entry: Word) returns (r: map<Word, Word>)
    ensures r == Insert(m, base, entry)
  {
    r := m;
    if base == 0 { return; }
    var d, old_ := Get(m, entry), Get(m, base);
    if d != 0 { return; }
    if old_ == 0 { old_ := base; }
    r := r[base := entry];
    r := r[entry := old_];
  }

  /** A walk of VerifyEntries: it comes back to where it started, after each word of the ring
    * once, and never falls off. */
  method WalkRing(m: map<Word, Word>, d: Word) returns (fell: bool, ghost ring: seq<Word>)
    requires Disjoint(m)
    ensures !fell
    ensures d in m ==> IsRing(m, ring) && ring[0] == d && forall c :: IsRing(m, c) && c[0] == d ==> c == ring
  {
    fell, ring := false, [d];
    NotNull(m, d);
    if Get(m, d) == 0 { return; }
    var e := Get(m, d);
    while e != d
      invariant IsPath(m, ring) && ring[0] == d && e == m[ring[|ring| - 1]] && e != 0 && !fell
      decreases |m| - |ring|
    {
      if e == 0 {
        fell := true;
        break;
      }
      PathGoesOn(m, ring);
      ring := ring + [e];
      PathIsShort(m, ring);
      NotNull(m, e);
      e := Get(m, e);
    }
    forall c | IsRing(m, c) && c[0] == d
      ensures c == ring
    {
      RingIsUnique(m, c, ring);
    }
  }

  /** Every word on the map is on exactly one ring. */
  lemma {:induction false} RingExists(m: map<Word, Word>, p: seq<Word>)
    requires Disjoint(m) && IsPath(m, p)
    ensures exists c :: IsRing(m, c) && c[0] == p[0]
    decreases |m| - |p|
  {
    if m[p[|p| - 1]] == p[0] {
      assert IsRing(m, p);
    } else {
      PathGoesOn(m, p);
      PathIsShort(m, p + [m[p[|p| - 1]]]);
      RingExists(m, p + [m[p[|p| - 1]]]);
    }
  }
}
