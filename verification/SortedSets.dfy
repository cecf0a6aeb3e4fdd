/** The multi-set sort: SortCode of functionExecute.cpp and SortFacts of factSystem.cpp. The facts
  * of a set are sorted by a field, and the sets chained to it are put in the same order; in
  * between, the flags of each fact serve to hold its place. */
module SortedSets {

  /** The value sorted by: atof of a word, or the word itself. */
  datatype Key = Number(value: real) | Word(text: string)

  /** strcmp(a,b) > 0. */
  predicate TextAbove(a: string, b: string)
    decreases |a|
  {
    a != "" && (b == "" || a[0] > b[0] || (a[0] == b[0] && TextAbove(a[1..], b[1..])))
  }

  /** What the bubble sort swaps on. Keys of one sort have one kind. */
  predicate Above(a: Key, b: Key) {
    match a
    case Number(x) => b.Number? && x > b.value
    case Word(t) => b.Number? || TextAbove(t, b.text)
  }

  lemma {:induction false} TextOrder(a: string, b: string, c: string)
    ensures !(TextAbove(a, b) && TextAbove(b, a)) && !TextAbove(a, a)
    ensures !TextAbove(a, b) && !TextAbove(b, c) ==> !TextAbove(a, c)
    decreases |a|
  {
    if a != "" {
      TextOrder(a[1..], if b == "" then "" else b[1..], if c == "" then "" else c[1..]);
      TextOrder(a[1..], a[1..], a[1..]);
    }
  }

  lemma Order(a: Key, b: Key, c: Key)
    ensures !(Above(a, b) && Above(b, a)) && !Above(a, a)
    ensures !Above(a, b) && !Above(b, c) ==> !Above(a, c)
  {
    TextOrder(if a.Word? then a.text else "", if b.Word? then b.text else "", if c.Word? then c.text else "");
  }

  // ----- The bubble sort -----------------------------------------------------------------------

  function Swapped(s: seq<nat>, i: nat): (r: seq<nat>)
    requires i + 1 < |s|
    ensures |r| == |s|
  {
    s[i := s[i + 1]][i + 1 := s[i]]
  }

  /** One pass from `i` on over the first `size` facts, and whether it swapped any. */
  function Pass(s: seq<nat>, key: nat -> Key, i: nat, size: nat): (r: (seq<nat>, bool))
    requires size <= |s|
    ensures |r.0| == |s|
    decreases size - i
  {
    if i + 1 >= size then (s, false)
    else if Above(key(s[i]), key(s[i + 1])) then (Pass(Swapped(s, i), key, i + 1, size).0, true)
    else Pass(s, key, i + 1, size)
  }

  /** SortFacts: each pass leaves out one more at the end, until one swaps nothing. */
  function Bubble(s: seq<nat>, key: nat -> Key, size: nat): (r: seq<nat>)
    requires size <= |s|
    ensures |r| == |s|
    decreases size
  {
    if size <= 1 then s
    else
      var (t, swapped) := Pass(s, key, 0, size);
      if swapped then Bubble(t, key, size - 1) else t
  }

  /** The facts from `lo` to `hi` are in order. */
  ghost predicate Ordered(s: seq<nat>, key: nat -> Key, lo: nat, hi: nat)
    requires hi <= |s|
  {
    forall i, j :: lo <= i < j < hi ==> !Above(key(s[i]), key(s[j]))
  }

  /** The facts from `size` on are in order and none before them is above one of them. */
  ghost predicate Settled(s: seq<nat>, key: nat -> Key, size: nat)
    requires size <= |s|
  {
    forall i, j :: 0 <= i < j < |s| && size <= j ==> !Above(key(s[i]), key(s[j]))
  }

  /** Nothing before `i` is above the fact at `i`. */
  ghost predicate Highest(s: seq<nat>, key: nat -> Key, i: nat)
    requires i < |s|
  {
    forall k :: 0 <= k < i ==> !Above(key(s[k]), key(s[i]))
  }

  lemma SwapKeeps(s: seq<nat>, key: nat -> Key, i: nat, size: nat)
    requires i + 1 < size <= |s| && Settled(s, key, size) && Highest(s, key, i) && Above(key(s[i]), key(s[i + 1]))
    ensures Settled(Swapped(s, i), key, size) && Highest(Swapped(s, i), key, i + 1)
    ensures multiset(Swapped(s, i)) == multiset(s)
  {
    var r := Swapped(s, i);
    Order(key(s[i]), key(s[i + 1]), key(s[i]));
    forall a, b | 0 <= a < b < |r| && size <= b
      ensures !Above(key(r[a]), key(r[b]))
    {
      assert r[b] == s[b] && (r[a] == s[a] || r[a] == s[i] || r[a] == s[i + 1]);
    }
    forall k | 0 <= k < i + 1
      ensures !Above(key(r[k]), key(r[i + 1]))
    {
    }
  }

  lemma {:induction false} PassSettles(s: seq<nat>, key: nat -> Key, i: nat, size: nat)
    requires i < size <= |s| && Settled(s, key, size) && Highest(s, key, i)
    ensures var (r, swapped) := Pass(s, key, i, size);
            && multiset(r) == multiset(s) && Settled(r, key, size - 1)
            && (!swapped ==> r == s && forall k :: i <= k && k + 1 < size ==> !Above(key(s[k]), key(s[k + 1])))
    decreases size - i
  {
    hide Above, Settled, Highest;
    if i + 1 >= size {
      TopSettles(s, key, size);
    } else if Above(key(s[i]), key(s[i + 1])) {
      SwapKeeps(s, key, i, size);
      PassSettles(Swapped(s, i), key, i + 1, size);
    } else {
      HighestStep(s, key, i);
      PassSettles(s, key, i + 1, size);
    }
  }

  lemma HighestStep(s: seq<nat>, key: nat -> Key, i: nat)
    requires i + 1 < |s| && Highest(s, key, i) && !Above(key(s[i]), key(s[i + 1]))
    ensures Highest(s, key, i + 1)
  {
    forall k | 0 <= k < i + 1
      ensures !Above(key(s[k]), key(s[i + 1]))
    {
      Order(key(s[k]), key(s[i]), key(s[i + 1]));
    }
  }

  lemma TopSettles(s: seq<nat>, key: nat -> Key, size: nat)
    requires 0 < size <= |s| && Settled(s, key, size) && Highest(s, key, size - 1)
    ensures Settled(s, key, size - 1)
  {
  }

  lemma {:induction false} StepsOrder(s: seq<nat>, key: nat -> Key, i: nat, j: nat)
    requires i < j < |s| && forall k :: i <= k < j ==> !Above(key(s[k]), key(s[k + 1]))
    ensures !Above(key(s[i]), key(s[j]))
    decreases j - i
  {
    if i + 1 < j {
      StepsOrder(s, key, i + 1, j);
      Order(key(s[i]), key(s[i + 1]), key(s[j]));
    }
  }

  /** The sort leaves the facts it was given, in order. */
  lemma {:induction false} BubbleSorts(s: seq<nat>, key: nat -> Key, size: nat)
    requires size <= |s| && Settled(s, key, size)
    ensures var r := Bubble(s, key, size); multiset(r) == multiset(s) && Ordered(r, key, 0, |r|)
    decreases size
  {
    hide Above;
    if size > 1 {
      var (t, swapped) := Pass(s, key, 0, size);
      PassSettles(s, key, 0, size);
      if swapped {
        BubbleSorts(t, key, size - 1);
      } else {
        forall i, j | 0 <= i < j < size ensures !Above(key(s[i]), key(s[j])) { StepsOrder(s, key, i, j); }
      }
    }
  }

  /** The sort puts facts whose keys are numbers in ascending order. */
  lemma AscendingNumbers(s: seq<nat>, key: nat -> Key)
    requires forall f: nat :: key(f).Number?
    ensures var r := Bubble(s, key, |s|);
            multiset(r) == multiset(s) && forall i, j :: 0 <= i < j < |r| ==> key(r[i]).value <= key(r[j]).value
  {
    hide Bubble;
    BubbleSorts(s, key, |s|);
  }

  /** Up to in the order of strcmp: a beginning of the other, or with a lower character where they first differ. */
  ghost predicate UpTo(a: string, b: string) { exists n: nat :: FirstDiffer(a, b, n) && (n == |a| || (n < |b| && a[n] < b[n])) }

  predicate FirstDiffer(a: string, b: string, n: nat) {
    n <= |a| && n <= |b| && a[..n] == b[..n] && (n < |a| && n < |b| ==> a[n] != b[n])
  }

  lemma {:induction false} NotAboveIsUpTo(a: string, b: string)
    requires !TextAbove(a, b)
    ensures UpTo(a, b)
    decreases |a|
  {
    if a == "" || b == "" || a[0] != b[0] {
      assert FirstDiffer(a, b, 0);
    } else {
      NotAboveIsUpTo(a[1..], b[1..]);
      var n: nat :| FirstDiffer(a[1..], b[1..], n) && (n == |a[1..]| || (n < |b[1..]| && a[1..][n] < b[1..][n]));
      DifferLater(a, b, n);
    }
  }

  lemma DifferLater(a: string, b: string, n: nat)
    requires a != "" && b != "" && a[0] == b[0] && FirstDiffer(a[1..], b[1..], n)
    ensures FirstDiffer(a, b, n + 1)
  {
    assert a[..n + 1] == [a[0]] + a[1..][..n] && b[..n + 1] == [b[0]] + b[1..][..n];
  }

  /** The sort puts facts whose keys are words in ascending order. */
  lemma AscendingWords(s: seq<nat>, key: nat -> Key)
    requires forall f: nat :: key(f).Word?
    ensures var r := Bubble(s, key, |s|);
            multiset(r) == multiset(s) && forall i, j :: 0 <= i < j < |r| ==> UpTo(key(r[i]).text, key(r[j]).text)
  {
    hide Bubble, UpTo, TextAbove;
    BubbleSorts(s, key, |s|);
    var r := Bubble(s, key, |s|);
    forall i, j | 0 <= i < j < |r|
      ensures UpTo(key(r[i]).text, key(r[j]).text)
    {
      NotAboveIsUpTo(key(r[i]).text, key(r[j]).text);
    }
  }

  lemma BubbleStep(s: seq<nat>, key: nat -> Key, size: nat)
    requires size <= |s|
    ensures var (t, swapped) := Pass(s, key, 0, size);
            (swapped ==> size >= 2) && Bubble(s, key, size) == if swapped then Bubble(t, key, size - 1) else t
  {
  }

  /** SortFacts, with the values to compare loaded beforehand and moved along with the facts. */
  method SortFacts(facts: array<nat>, key: nat -> Key)
    modifies facts
    ensures facts[..] == Bubble(old(facts[..]), key, facts.Length)
  {
    hide Above, Pass, Bubble;
    var values := new Key[facts.Length](_ => Number(0.0));
    forall i | 0 <= i < facts.Length { values[i] := key(facts[i]); }
    var size: int := facts.Length;
    var swap := true;
    assert facts[..] == old(facts[..]);
    while swap
      invariant size <= facts.Length && (swap ==> size >= 0)
      invariant forall k :: 0 <= k < facts.Length ==> values[k] == key(facts[k])
      invariant Bubble(old(facts[..]), key, facts.Length) ==
                if swap then Bubble(facts[..], key, size) else facts[..]
      decreases swap, size
    {
      BubbleStep(facts[..], key, size);
      swap := BubblePass(facts, values, key, size);
      size := size - 1;
    }
  }

  method BubblePass(facts: array<nat>, values: array<Key>, key: nat -> Key, size: nat) returns (swap: bool)
    requires size <= facts.Length == values.Length && forall k :: 0 <= k < facts.Length ==> values[k] == key(facts[k])
    modifies facts, values
    ensures (facts[..], swap) == Pass(old(facts[..]), key, 0, size)
    ensures forall k :: 0 <= k < facts.Length ==> values[k] == key(facts[k])
  {
    hide Above;
    swap := false;
    var i := 0;
    while i + 1 < size
      invariant 0 <= i && (size > 0 ==> i < size)
      invariant forall k :: 0 <= k < facts.Length ==> values[k] == key(facts[k])
      invariant var (r, more) := Pass(facts[..], key, i, size); (r, swap || more) == Pass(old(facts[..]), key, 0, size)
    {
      if Above(values[i], values[i + 1]) {
        ghost var s := facts[..];
        values[i], values[i + 1] := values[i + 1], values[i];
        facts[i], facts[i + 1] := facts[i + 1], facts[i];
        assert facts[..] == Swapped(s, i);
        swap := true;
      }
      i := i + 1;
    }
  }

  lemma {:induction false} PassOfOrdered(s: seq<nat>, key: nat -> Key, i: nat, size: nat)
    requires size <= |s| && Ordered(s, key, 0, size)
    ensures Pass(s, key, i, size) == (s, false)
    decreases size - i
  {
    if i + 1 < size { PassOfOrdered(s, key, i + 1, size); }
  }

  /** Facts in order stay where they are, equal ones included. */
  lemma BubbleOfOrdered(s: seq<nat>, key: nat -> Key)
    requires Ordered(s, key, 0, |s|)
    ensures Bubble(s, key, |s|) == s
  {
    PassOfOrdered(s, key, 0, |s|);
  }

  // ----- Counting -----------------------------------------------------------------------------

  /** How many facts are not above a key. */
  function Low(s: seq<nat>, key: nat -> Key, x: Key): (n: nat)
    ensures n <= |s|
  {
    if s == [] then 0 else Low(s[..|s| - 1], key, x) + if Above(key(s[|s| - 1]), x) then 0 else 1
  }

  lemma {:induction false} LowSplit(a: seq<nat>, b: seq<nat>, key: nat -> Key, x: Key)
    ensures Low(a + b, key, x) == Low(a, key, x) + Low(b, key, x)
    decreases |b|
  {
    hide Above;
    if b == [] {
      assert a + b == a;
    } else {
      assert (a + b)[..|a + b| - 1] == a + b[..|b| - 1];
      LowSplit(a, b[..|b| - 1], key, x);
    }
  }

  lemma DropSame(rest: seq<nat>, left: seq<nat>, last: nat, right: seq<nat>)
    requires multiset(rest + [last]) == multiset((left + [last]) + right)
    ensures multiset(rest) == multiset(left + right)
  {
    assert multiset(rest) == multiset(rest + [last]) - multiset{last};
    assert multiset(left + right) == multiset((left + [last]) + right) - multiset{last};
  }

  /** The count does not depend on the order. */
  lemma {:induction false} LowOfSame(a: seq<nat>, b: seq<nat>, key: nat -> Key, x: Key)
    requires multiset(a) == multiset(b)
    ensures Low(a, key, x) == Low(b, key, x)
    decreases |a|
  {
    hide Above, Low;
    assert |multiset(a)| == |multiset(b)|;
    if a == [] {
      assert b == [];
    } else {
      var rest, last := a[..|a| - 1], a[|a| - 1];
      assert a == rest + [last];
      assert last in multiset(b);
      var j :| 0 <= j < |b| && b[j] == last;
      var left, right := b[..j], b[j + 1..];
      assert b == (left + [last]) + right;
      DropSame(rest, left, last, right);
      LowOfSame(rest, left + right, key, x);
      LowSplit(rest, [last], key, x);
      LowSplit(left + [last], right, key, x);
      LowSplit(left, [last], key, x);
      LowSplit(left, right, key, x);
    }
  }

  /** In order, the facts that are not above a key come first. */
  lemma {:induction false} LowIsFirst(s: seq<nat>, key: nat -> Key, x: Key, i: nat)
    requires Ordered(s, key, 0, |s|) && i < |s|
    ensures !Above(key(s[i]), x) <==> i < Low(s, key, x)
    decreases |s|
  {
    hide Above;
    var rest, last := s[..|s| - 1], s[|s| - 1];
    if i < |s| - 1 { LowIsFirst(rest, key, x, i); }
    Order(key(s[i]), key(last), x);
    if !Above(key(last), x) { AllLow(rest, key, x, last); }
  }

  lemma {:induction false} AllLow(s: seq<nat>, key: nat -> Key, x: Key, last: nat)
    requires !Above(key(last), x) && forall i :: 0 <= i < |s| ==> !Above(key(s[i]), key(last))
    ensures Low(s, key, x) == |s|
    decreases |s|
  {
    hide Above;
    if s != [] {
      Order(key(s[|s| - 1]), key(last), x);
      AllLow(s[..|s| - 1], key, x, last);
    }
  }

  /** Where none is missing from the count, none is above the key. */
  lemma {:induction false} AllAreLow(s: seq<nat>, key: nat -> Key, x: Key, i: nat)
    requires Low(s, key, x) == |s| && i < |s|
    ensures !Above(key(s[i]), x)
    decreases |s|
  {
    hide Above;
    if i < |s| - 1 { AllAreLow(s[..|s| - 1], key, x, i); }
  }

  lemma {:induction false} NoneLow(s: seq<nat>, key: nat -> Key, x: Key)
    requires forall i :: 0 <= i < |s| ==> Above(key(s[i]), x)
    ensures Low(s, key, x) == 0
    decreases |s|
  {
    hide Above;
    if s != [] { NoneLow(s[..|s| - 1], key, x); }
  }

  /** Two orders of the same facts agree up to equal keys. */
  lemma OrdersAgree(a: seq<nat>, b: seq<nat>, key: nat -> Key, i: nat)
    requires Ordered(a, key, 0, |a|) && Ordered(b, key, 0, |b|) && multiset(a) == multiset(b) && i < |a|
    ensures |a| == |b| && !Above(key(a[i]), key(b[i])) && !Above(key(b[i]), key(a[i]))
  {
    hide Above, Low;
    assert |multiset(a)| == |multiset(b)|;
    LowOfSame(a, b, key, key(a[i]));
    LowOfSame(a, b, key, key(b[i]));
    LowIsFirst(a, key, key(a[i]), i);
    LowIsFirst(a, key, key(b[i]), i);
    LowIsFirst(b, key, key(a[i]), i);
    LowIsFirst(b, key, key(b[i]), i);
    Order(key(a[i]), key(a[i]), key(a[i]));
    Order(key(b[i]), key(b[i]), key(b[i]));
  }

  // ----- Sorting several sets -------------------------------------------------------------------

  /** The flags once each fact of the set holds its place, from 1, in them. */
  function Numbered(flags: seq<nat>, facts: seq<nat>, n: nat): (r: seq<nat>)
    requires n <= |facts| && forall i :: 0 <= i < |facts| ==> facts[i] < |flags|
    ensures |r| == |flags|
  {
    if n == 0 then flags else Numbered(flags, facts, n - 1)[facts[n - 1] := n]
  }

  predicate Distinct(s: seq<nat>) { forall i, j :: 0 <= i < j < |s| ==> s[i] != s[j] }

  lemma {:induction false} NumberedAt(flags: seq<nat>, facts: seq<nat>, n: nat)
    requires n <= |facts| && forall i :: 0 <= i < |facts| ==> facts[i] < |flags|
    requires Distinct(facts)
    ensures forall i :: 0 <= i < n ==> Numbered(flags, facts, n)[facts[i]] == i + 1
    ensures forall f: nat :: f < |flags| && f !in facts[..n] ==> Numbered(flags, facts, n)[f] == flags[f]
    decreases n
  {
    if n > 0 {
      NumberedAt(flags, facts, n - 1);
      assert facts[..n] == facts[..n - 1] + [facts[n - 1]];
    }
  }

  /** The order in which the sort puts the places of the key set. */
  function Places(flags: seq<nat>, sorted: seq<nat>): (p: seq<nat>)
    requires forall i :: 0 <= i < |sorted| ==> sorted[i] < |flags| && flags[sorted[i]] > 0
    ensures |p| == |sorted|
  {
    seq(|sorted|, i requires 0 <= i < |sorted| => flags[sorted[i]] - 1)
  }

  /** Every place from 0 to |p| - 1 once. */
  ghost predicate IsPermutation(p: seq<nat>) {
    && Distinct(p)
    && (forall i :: 0 <= i < |p| ==> p[i] < |p|)
    && (forall k :: 0 <= k < |p| ==> k in p)
  }

  function Permuted(s: seq<nat>, p: seq<nat>): (r: seq<nat>)
    requires forall i :: 0 <= i < |p| ==> p[i] < |s|
    ensures |r| == |p|
  {
    seq(|p|, i requires 0 <= i < |p| => s[p[i]])
  }

  /** Each sorted fact holds the place it came from. */
  lemma PlaceOf(flags: seq<nat>, facts: seq<nat>, sorted: seq<nat>, i: nat)
    requires (forall i :: 0 <= i < |facts| ==> facts[i] < |flags|) && Distinct(facts)
    requires multiset(sorted) == multiset(facts) && i < |sorted|
    ensures var n := Numbered(flags, facts, |facts|);
            && sorted[i] < |n| && 0 < n[sorted[i]] <= |facts| && facts[n[sorted[i]] - 1] == sorted[i]
  {
    hide Numbered;
    NumberedAt(flags, facts, |facts|);
    assert sorted[i] in multiset(sorted);
    var k :| 0 <= k < |facts| && facts[k] == sorted[i];
  }

  lemma PlacesPermute(flags: seq<nat>, facts: seq<nat>, sorted: seq<nat>)
    requires (forall i :: 0 <= i < |facts| ==> facts[i] < |flags|) && Distinct(facts)
    requires multiset(sorted) == multiset(facts)
    ensures |sorted| == |facts|
    ensures var n := Numbered(flags, facts, |facts|);
            && (forall i :: 0 <= i < |sorted| ==> sorted[i] < |n| && n[sorted[i]] > 0)
            && IsPermutation(Places(n, sorted)) && Permuted(facts, Places(n, sorted)) == sorted
  {
    hide Numbered, Distinct;
    assert |multiset(sorted)| == |multiset(facts)|;
    var n := Numbered(flags, facts, |facts|);
    forall i | 0 <= i < |sorted|
      ensures sorted[i] < |n| && 0 < n[sorted[i]] <= |facts| && facts[n[sorted[i]] - 1] == sorted[i]
    {
      PlaceOf(flags, facts, sorted, i);
    }
    var p := Places(n, sorted);
    assert Permuted(facts, p) == sorted;
    PlacesDistinct(facts, sorted, p);
    forall k | 0 <= k < |p|
      ensures k in p
    {
      PlaceIsTaken(flags, facts, sorted, k);
    }
  }

  lemma PlacesDistinct(facts: seq<nat>, sorted: seq<nat>, p: seq<nat>)
    requires Distinct(facts) && multiset(sorted) == multiset(facts)
    requires |p| == |sorted| && forall i :: 0 <= i < |p| ==> p[i] < |facts| && facts[p[i]] == sorted[i]
    ensures Distinct(p)
  {
    DistinctIsMultiset(facts, sorted);
  }

  lemma PlaceIsTaken(flags: seq<nat>, facts: seq<nat>, sorted: seq<nat>, k: nat)
    requires (forall i :: 0 <= i < |facts| ==> facts[i] < |flags|) && Distinct(facts)
    requires multiset(sorted) == multiset(facts) && k < |facts|
    requires var n := Numbered(flags, facts, |facts|); forall i :: 0 <= i < |sorted| ==> sorted[i] < |n| && n[sorted[i]] > 0
    ensures k in Places(Numbered(flags, facts, |facts|), sorted)
  {
    hide Numbered, Distinct;
    NumberedAt(flags, facts, |facts|);
    assert facts[k] in multiset(facts);
    var i :| 0 <= i < |sorted| && sorted[i] == facts[k];
    assert Places(Numbered(flags, facts, |facts|), sorted)[i] == k;
  }

  lemma {:induction false} CountTwice(s: seq<nat>, i: nat, j: nat)
    requires i < j < |s| && s[i] == s[j]
    ensures multiset(s)[s[i]] >= 2
  {
    assert s == s[..j] + [s[j]] + s[j + 1..];
    assert s[i] in s[..j];
    assert s[i] in multiset(s[..j]);
  }

  lemma {:induction false} CountOnce(s: seq<nat>, x: nat)
    requires Distinct(s)
    ensures multiset(s)[x] <= 1
    decreases |s|
  {
    if s != [] {
      var t := s[..|s| - 1];
      assert s == t + [s[|s| - 1]];
      CountOnce(t, x);
      assert s[|s| - 1] !in t;
    }
  }

  lemma DistinctIsMultiset(a: seq<nat>, b: seq<nat>)
    requires Distinct(a) && multiset(a) == multiset(b)
    ensures Distinct(b)
  {
    forall i, j | 0 <= i < j < |b|
      ensures b[i] != b[j]
    {
      CountOnce(a, b[i]);
      if b[i] == b[j] { CountTwice(b, i, j); }
    }
  }

  /** At a null fact SortCode gives up without giving back the flags it has replaced: they are what
    * they were if and only if each happened to be the place of its fact. */
  lemma NumberedIsHarmlessIff(flags: seq<nat>, facts: seq<nat>, n: nat)
    requires n <= |facts| && (forall i :: 0 <= i < |facts| ==> facts[i] < |flags|) && Distinct(facts)
    ensures Numbered(flags, facts, n) == flags <==> forall i :: 0 <= i < n ==> flags[facts[i]] == i + 1
  {
    hide Numbered;
    NumberedAt(flags, facts, n);
    forall f: nat | f < |flags| && f in facts[..n]
      ensures exists i :: 0 <= i < n && facts[i] == f
    {
      var i :| 0 <= i < n && facts[..n][i] == f;
    }
  }

  /** A fact listed more than once holds the last of its places. */
  lemma {:induction false} NumberedLast(flags: seq<nat>, facts: seq<nat>, n: nat, i: nat)
    requires i < n <= |facts| && forall i :: 0 <= i < |facts| ==> facts[i] < |flags|
    ensures var v := Numbered(flags, facts, n)[facts[i]];
            i < v <= n && facts[v - 1] == facts[i] && forall j :: v <= j < n ==> facts[j] != facts[i]
    decreases n
  {
    if facts[n - 1] != facts[i] { NumberedLast(flags, facts, n - 1, i); }
  }

  /** The chained sets are permuted if and only if no fact of the key set is listed twice:
    * otherwise they lose an entry. */
  lemma PlacesArePermutationIff(flags: seq<nat>, facts: seq<nat>, sorted: seq<nat>)
    requires (forall i :: 0 <= i < |facts| ==> facts[i] < |flags|) && multiset(sorted) == multiset(facts)
    ensures |sorted| == |facts|
    ensures forall i :: 0 <= i < |sorted| ==> sorted[i] < |flags| && Numbered(flags, facts, |facts|)[sorted[i]] > 0
    ensures IsPermutation(Places(Numbered(flags, facts, |facts|), sorted)) <==> Distinct(facts)
  {
    hide Numbered;
    assert |multiset(sorted)| == |multiset(facts)|;
    var n := Numbered(flags, facts, |facts|);
    forall i | 0 <= i < |sorted|
      ensures sorted[i] < |flags| && n[sorted[i]] > 0
      ensures forall j :: 0 <= j < |facts| && facts[j] == sorted[i] ==> j < n[sorted[i]]
    {
      assert sorted[i] in multiset(sorted);
      var k :| 0 <= k < |facts| && facts[k] == sorted[i];
      NumberedLast(flags, facts, |facts|, k);
      forall j | 0 <= j < |facts| && facts[j] == sorted[i] ensures j < n[sorted[i]] { NumberedLast(flags, facts, |facts|, j); }
    }
    if Distinct(facts) {
      PlacesPermute(flags, facts, sorted);
    } else {
      var i, j :| 0 <= i < j < |facts| && facts[i] == facts[j];
      LostPlace(flags, facts, sorted, i, j);
    }
  }

  lemma LostPlace(flags: seq<nat>, facts: seq<nat>, sorted: seq<nat>, i: nat, j: nat)
    requires (forall i :: 0 <= i < |facts| ==> facts[i] < |flags|) && multiset(sorted) == multiset(facts)
    requires i < j < |facts| && facts[i] == facts[j] && |sorted| == |facts|
    requires forall i :: 0 <= i < |sorted| ==> sorted[i] < |flags| && Numbered(flags, facts, |facts|)[sorted[i]] > 0
    ensures i !in Places(Numbered(flags, facts, |facts|), sorted)
  {
    hide Numbered;
    var n := Numbered(flags, facts, |facts|);
    forall q | 0 <= q < |sorted|
      ensures n[sorted[q]] - 1 != i
    {
      assert sorted[q] in multiset(sorted);
      var k :| 0 <= k < |facts| && facts[k] == sorted[q];
      NotTheirPlace(flags, facts, i, j, k);
    }
    PlacesAre(n, sorted);
  }

  lemma NotTheirPlace(flags: seq<nat>, facts: seq<nat>, i: nat, j: nat, k: nat)
    requires (forall i :: 0 <= i < |facts| ==> facts[i] < |flags|) && i < j < |facts| && facts[i] == facts[j] && k < |facts|
    ensures Numbered(flags, facts, |facts|)[facts[k]] != i + 1
  {
    hide Numbered;
    NumberedLast(flags, facts, |facts|, k);
    var v := Numbered(flags, facts, |facts|)[facts[k]];
    assert v <= j ==> facts[j] != facts[k];
    assert facts[v - 1] == facts[k];
  }

  lemma PlacesAre(flags: seq<nat>, sorted: seq<nat>)
    requires forall i :: 0 <= i < |sorted| ==> sorted[i] < |flags| && flags[sorted[i]] > 0
    ensures forall i :: 0 <= i < |sorted| ==> Places(flags, sorted)[i] == flags[sorted[i]] - 1
  {
  }

  // ----- The sets ------------------------------------------------------------------------------

  const SCRATCH: nat := 20
  const SPARE: nat := 21
  const SETS: nat := 22
  const MAX_FIND: nat := 5000

  /** A fact set: its count and its slots, those beyond the count with what they held before. The
    * null fact is 0. */
  datatype Row = Row(count: nat, slot: seq<nat>) {
    function Facts(): (f: seq<nat>)
      requires count <= |slot|
      ensures |f| == count
    {
      slot[..count]
    }

    /** The facts go into the first slots. */
    function Put(facts: seq<nat>): (r: Row)
      requires |facts| <= |slot|
      ensures r.count == |facts| <= |r.slot| == |slot| && r.Facts() == facts
    {
      Row(|facts|, facts + slot[|facts|..])
    }
  }

  /** The flags of every fact, and factSet: the sets @0 to @20 of the scripts and a spare one. Sort
    * keeps its copy of the key set in @20. */
  datatype Store = Store(flags: seq<nat>, sets: seq<Row>)

  predicate RowOk(r: Row, facts: nat) {
    r.count <= |r.slot| == MAX_FIND && forall i :: 0 <= i < MAX_FIND ==> r.slot[i] < facts
  }

  predicate RowsOk(sets: seq<Row>, facts: nat) {
    |sets| == SETS && forall a :: 0 <= a < SETS ==> RowOk(sets[a], facts)
  }

  /** The listed sets have so many facts. */
  predicate AllCount(sets: seq<Row>, all: seq<nat>, count: nat)
    requires |sets| == SETS
  {
    forall i :: 0 <= i < |all| ==> all[i] <= SCRATCH && sets[all[i]].count == count
  }

  /** Every fact holds a place in its flags. */
  predicate Keyed(flags: seq<nat>, facts: seq<nat>, count: nat) {
    forall i :: 0 <= i < |facts| ==> facts[i] < |flags| && 0 < flags[facts[i]] <= count
  }

  /** What holds while the listed sets are rearranged: @20 is full of facts that hold places. */
  predicate Ready(flags: seq<nat>, sets: seq<Row>, count: nat) {
    RowsOk(sets, |flags|) && sets[SCRATCH].count == count && Keyed(flags, sets[SCRATCH].Facts(), count)
  }

  /** One turn over the listed sets: set `a` is copied to the spare one, and back in the order that
    * the places held by the facts of @20 give. If `a` is @20 itself, each slot is read before it is
    * written. */
  function Arrange(flags: seq<nat>, sets: seq<Row>, a: nat, count: nat): (r: seq<Row>)
    requires Ready(flags, sets, count) && a <= SCRATCH && sets[a].count == count
    ensures Ready(flags, r, count) && r[a].count == count
    ensures r[a].Facts() == Permuted(sets[a].Facts(), Places(flags, sets[SCRATCH].Facts()))
    ensures forall b :: 0 <= b <= SCRATCH && b != a ==> r[b] == sets[b]
  {
    var copy := sets[a].Facts();
    var p := Places(flags, sets[SCRATCH].Facts());
    PutIsOk(sets[SPARE], copy, |flags|);
    PutIsOk(sets[a], Permuted(copy, p), |flags|);
    sets[SPARE := sets[SPARE].Put(copy)][a := sets[a].Put(Permuted(copy, p))]
  }

  lemma PutIsOk(r: Row, facts: seq<nat>, limit: nat)
    requires RowOk(r, limit) && |facts| <= MAX_FIND && forall i :: 0 <= i < |facts| ==> facts[i] < limit
    ensures RowOk(r.Put(facts), limit)
  {
  }

  function ArrangeAll(flags: seq<nat>, sets: seq<Row>, all: seq<nat>, count: nat): (r: seq<Row>)
    requires Ready(flags, sets, count) && AllCount(sets, all, count)
    ensures Ready(flags, r, count) && forall b :: 0 <= b <= SCRATCH ==> r[b].count == sets[b].count
    ensures forall b :: 0 <= b <= SCRATCH && b !in all ==> r[b] == sets[b]
    decreases |all|
  {
    if all == [] then sets else ArrangeAll(flags, Arrange(flags, sets, all[0], count), all[1..], count)
  }

  /** The flags put aside: of a fact listed before, the place it has been given there. */
  function Kept(flags: seq<nat>, facts: seq<nat>): (r: seq<nat>)
    requires forall i :: 0 <= i < |facts| ==> facts[i] < |flags|
    ensures |r| == |facts|
  {
    seq(|facts|, i requires 0 <= i < |facts| => Numbered(flags, facts, i)[facts[i]])
  }

  /** The last loop: each fact of the key set gets what was put aside for its place. */
  function GiveBack(flags: seq<nat>, facts: seq<nat>, values: seq<nat>, n: nat): (r: seq<nat>)
    requires n <= |facts| == |values| && forall i :: 0 <= i < |facts| ==> facts[i] < |flags|
    ensures |r| == |flags|
  {
    if n == 0 then flags else GiveBack(flags, facts, values, n - 1)[facts[n - 1] := values[n - 1]]
  }

  function NullAt(facts: seq<nat>): (i: nat)
    requires 0 in facts
    ensures i < |facts| && facts[i] == 0 && 0 !in facts[..i]
  {
    if facts[0] == 0 then 0 else
      assert facts == [facts[0]] + facts[1..];
      var i := NullAt(facts[1..]);
      assert facts[..i + 1] == [facts[0]] + facts[1..][..i];
      i + 1
  }

  /** @20 when so many facts have been copied to it. */
  function Loaded(sets: seq<Row>, facts: seq<nat>, i: nat): seq<Row>
    requires |sets| == SETS && i <= |facts| <= |sets[SCRATCH].slot|
  {
    sets[SCRATCH := Row(|facts|, facts[..i] + sets[SCRATCH].slot[i..])]
  }

  function Sorted(facts: seq<nat>, key: nat -> Key): (r: seq<nat>)
    ensures multiset(r) == multiset(facts) && |r| == |facts| && Ordered(r, key, 0, |r|)
  {
    BubbleSorts(facts, key, |facts|);
    Bubble(facts, key, |facts|)
  }

  lemma LoadedIsReady(flags: seq<nat>, sets: seq<Row>, facts: seq<nat>, sorted: seq<nat>)
    requires RowsOk(sets, |flags|) && |facts| <= MAX_FIND && forall i :: 0 <= i < |facts| ==> facts[i] < |flags|
    requires multiset(sorted) == multiset(facts)
    ensures |sorted| == |facts|
    ensures Ready(Numbered(flags, facts, |facts|), sets[SCRATCH := sets[SCRATCH].Put(sorted)], |facts|)
    ensures var p := Places(Numbered(flags, facts, |facts|), sorted);
            forall i :: 0 <= i < |p| ==> p[i] < |facts| && facts[p[i]] == sorted[i] && sorted[i] !in facts[p[i] + 1..]
  {
    hide Numbered;
    assert |multiset(sorted)| == |multiset(facts)|;
    forall i | 0 <= i < |sorted|
      ensures sorted[i] < |flags| && 0 < Numbered(flags, facts, |facts|)[sorted[i]] <= |facts|
      ensures var v := Numbered(flags, facts, |facts|)[sorted[i]]; facts[v - 1] == sorted[i] && sorted[i] !in facts[v..]
    {
      assert sorted[i] in multiset(sorted);
      var k :| 0 <= k < |facts| && facts[k] == sorted[i];
      NumberedLast(flags, facts, |facts|, k);
    }
    PutIsOk(sets[SCRATCH], sorted, |flags|);
  }

  /** The sort goes through: the chained sets have as many facts as the key set, and that no null fact.
    * Sets are any of @0 to @20, each listed any number of times. */
  predicate Sortable(s: Store, n: nat, chained: seq<nat>) {
    && RowsOk(s.sets, |s.flags|) && n <= SCRATCH && AllCount(s.sets, chained, s.sets[n].count)
    && 0 !in s.sets[n].Facts()
  }

  function Numbers(s: Store, n: nat): (r: seq<nat>)
    requires RowsOk(s.sets, |s.flags|) && n <= SCRATCH
    ensures |r| == |s.flags|
  {
    Numbered(s.flags, s.sets[n].Facts(), s.sets[n].count)
  }

  /** The sets once the key set is copied to @20 and sorted there. */
  function Start(s: Store, n: nat, key: nat -> Key): seq<Row>
    requires RowsOk(s.sets, |s.flags|) && n <= SCRATCH
  {
    s.sets[SCRATCH := s.sets[SCRATCH].Put(Sorted(s.sets[n].Facts(), key))]
  }

  /** `p` gives for each sorted fact its last place in the key set. */
  ghost predicate LastPlaces(facts: seq<nat>, sorted: seq<nat>, p: seq<nat>) {
    |p| == |sorted| == |facts| && forall i :: 0 <= i < |p| ==> p[i] < |facts| && facts[p[i]] == sorted[i] && sorted[i] !in facts[p[i] + 1..]
  }

  lemma StartIsReady(s: Store, n: nat, chained: seq<nat>, key: nat -> Key)
    requires Sortable(s, n, chained)
    ensures Ready(Numbers(s, n), Start(s, n, key), s.sets[n].count)
    ensures AllCount(Start(s, n, key), [n] + chained, s.sets[n].count)
    ensures forall i :: 0 <= i < s.sets[n].count ==> s.sets[n].Facts()[i] < |s.flags|
    ensures Keyed(Numbers(s, n), Sorted(s.sets[n].Facts(), key), s.sets[n].count)
    ensures LastPlaces(s.sets[n].Facts(), Sorted(s.sets[n].Facts(), key), Places(Numbers(s, n), Sorted(s.sets[n].Facts(), key)))
  {
    hide Numbered, Sorted;
    LoadedIsReady(s.flags, s.sets, s.sets[n].Facts(), Sorted(s.sets[n].Facts(), key));
  }

  ghost function SortedRows(s: Store, n: nat, chained: seq<nat>, key: nat -> Key): (r: seq<Row>)
    requires Sortable(s, n, chained)
    ensures RowsOk(r, |s.flags|) && r[n].count == s.sets[n].count
  {
    StartIsReady(s, n, chained, key);
    ArrangeAll(Numbers(s, n), Start(s, n, key), [n] + chained, s.sets[n].count)
  }

  /** What was put aside for each place of the sorted key set. */
  function Aside(flags: seq<nat>, facts: seq<nat>, index: seq<nat>): (r: seq<nat>)
    requires (forall i :: 0 <= i < |facts| ==> facts[i] < |flags|) && forall i :: 0 <= i < |index| ==> index[i] < |facts|
    ensures |r| == |index| && forall i :: 0 <= i < |r| ==> r[i] == Kept(flags, facts)[index[i]]
  {
    seq(|index|, i requires 0 <= i < |index| => Kept(flags, facts)[index[i]])
  }

  ghost function SortedFlags(s: Store, n: nat, chained: seq<nat>, key: nat -> Key): (r: seq<nat>)
    requires Sortable(s, n, chained)
    ensures |r| == |s.flags|
  {
    StartIsReady(s, n, chained, key);
    var facts := s.sets[n].Facts();
    var index := Places(Numbers(s, n), Sorted(facts, key));
    GiveBack(Numbers(s, n), SortedRows(s, n, chained, key)[n].Facts(), Aside(s.flags, facts, index), |facts|)
  }

  /** SortCode of the key set `n` and the sets chained to it, and whether it goes through. At a null fact
    * it gives up with the facts before numbered and copied to @20. */
  ghost function SortResult(s: Store, n: nat, chained: seq<nat>, key: nat -> Key): (r: (Store, bool))
    requires RowsOk(s.sets, |s.flags|) && n <= SCRATCH && forall i :: 0 <= i < |chained| ==> chained[i] <= SCRATCH
    ensures r.1 <==> Sortable(s, n, chained)
  {
    var facts := s.sets[n].Facts();
    if |facts| > 0xffff || !AllCount(s.sets, chained, |facts|) then (s, false)
    else if 0 in facts then (Store(Numbered(s.flags, facts, NullAt(facts)), Loaded(s.sets, facts, NullAt(facts))), false)
    else (Store(SortedFlags(s, n, chained, key), SortedRows(s, n, chained, key)), true)
  }

  // ----- What the sort does ----------------------------------------------------------------------

  /** The key set is in order and holds what it held. */
  ghost predicate KeyIsSorted(was: seq<nat>, now: seq<nat>, key: nat -> Key) {
    multiset(now) == multiset(was) && Ordered(now, key, 0, |now|)
  }

  ghost predicate InOrder(facts: seq<nat>, key: nat -> Key) { Ordered(facts, key, 0, |facts|) }

  /** The fact at `j` was listed before, at `i` last, and is not listed again. */
  ghost predicate Again(facts: seq<nat>, i: nat, j: nat) {
    i < j < |facts| && facts[i] == facts[j] && facts[j] !in facts[i + 1..j] && facts[j] !in facts[j + 1..]
  }

  /** The flags of a fact listed more than once happen to be its place before the last. */
  ghost predicate RepeatsAreHarmless(flags: seq<nat>, facts: seq<nat>) {
    forall i: nat, j: nat :: Again(facts, i, j) ==> facts[j] < |flags| && flags[facts[j]] == i + 1
  }

  lemma NotAmong(facts: seq<nat>, i: nat, j: nat, f: nat)
    requires i <= j <= |facts| && f !in facts[i..j]
    ensures forall m :: i <= m < j ==> facts[m] != f
  {
    forall m | i <= m < j
      ensures facts[m] != f
    {
      assert facts[m] == facts[i..j][m - i];
    }
  }

  lemma {:induction false} NumberedElse(flags: seq<nat>, facts: seq<nat>, n: nat, f: nat)
    requires n <= |facts| && (forall i :: 0 <= i < |facts| ==> facts[i] < |flags|) && f < |flags| && f !in facts[..n]
    ensures Numbered(flags, facts, n)[f] == flags[f]
    decreases n
  {
    if n > 0 {
      assert facts[..n] == facts[..n - 1] + [facts[n - 1]];
      NumberedElse(flags, facts, n - 1, f);
    }
  }

  /** What is put aside for a fact is its flags or, if it was listed before, its place before. */
  lemma KeptAt(flags: seq<nat>, facts: seq<nat>, j: nat) returns (i: nat)
    requires (forall i :: 0 <= i < |facts| ==> facts[i] < |flags|) && j < |facts|
    ensures facts[j] !in facts[..j] ==> Kept(flags, facts)[j] == flags[facts[j]]
    ensures facts[j] in facts[..j] ==> i < j && facts[i] == facts[j] && facts[j] !in facts[i + 1..j] && Kept(flags, facts)[j] == i + 1
  {
    hide Numbered;
    i := 0;
    if facts[j] in facts[..j] {
      var k :| 0 <= k < j && facts[..j][k] == facts[j];
      NumberedLast(flags, facts, j, k);
      i := Numbered(flags, facts, j)[facts[j]] - 1;
    } else {
      NumberedElse(flags, facts, j, facts[j]);
    }
  }

  lemma {:induction false} GiveBackIs(flags: seq<nat>, facts: seq<nat>, values: seq<nat>, want: seq<nat>, n: nat)
    requires n <= |facts| == |values| && (forall i :: 0 <= i < |facts| ==> facts[i] < |flags|) && |want| == |flags|
    requires forall i :: 0 <= i < |facts| ==> values[i] == want[facts[i]]
    ensures forall f: nat :: f < |flags| ==>
              GiveBack(flags, facts, values, n)[f] == if f in facts[..n] then want[f] else flags[f]
    decreases n
  {
    if n > 0 {
      assert facts[..n] == facts[..n - 1] + [facts[n - 1]];
      GiveBackIs(flags, facts, values, want, n - 1);
    }
  }

  /** What each fact ends up with when the key set is sorted: what was put aside for its last place. */
  function Returned(flags: seq<nat>, facts: seq<nat>): (r: seq<nat>)
    requires forall i :: 0 <= i < |facts| ==> facts[i] < |flags|
    ensures |r| == |flags|
  {
    var numbers := Numbered(flags, facts, |facts|);
    var kept := Kept(flags, facts);
    seq(|flags|, f requires 0 <= f < |flags| => if f in facts && 0 < numbers[f] <= |facts| then kept[numbers[f] - 1] else flags[f])
  }

  lemma ReturnedIff(flags: seq<nat>, facts: seq<nat>)
    requires forall i :: 0 <= i < |facts| ==> facts[i] < |flags|
    ensures Returned(flags, facts) == flags <==> RepeatsAreHarmless(flags, facts)
  {
    hide Numbered, Kept, Again;
    var r := Returned(flags, facts);
    forall f | f in facts && RepeatsAreHarmless(flags, facts)
      ensures r[f] == flags[f]
    {
      HarmlessReturns(flags, facts, f);
    }
    forall i: nat, j: nat | Again(facts, i, j)
      ensures j < |facts| && r[facts[j]] == i + 1
    {
      AgainReturns(flags, facts, i, j);
    }
  }

  lemma HarmlessReturns(flags: seq<nat>, facts: seq<nat>, f: nat)
    requires (forall i :: 0 <= i < |facts| ==> facts[i] < |flags|) && f in facts && RepeatsAreHarmless(flags, facts)
    ensures Returned(flags, facts)[f] == flags[f]
  {
    hide Numbered, Kept;
    var k :| 0 <= k < |facts| && facts[k] == f;
    NumberedLast(flags, facts, |facts|, k);
    var j := Numbered(flags, facts, |facts|)[f] - 1;
    var i := KeptAt(flags, facts, j);
    if f in facts[..j] { assert Again(facts, i, j); }
  }

  lemma AgainReturns(flags: seq<nat>, facts: seq<nat>, i: nat, j: nat)
    requires (forall i :: 0 <= i < |facts| ==> facts[i] < |flags|) && Again(facts, i, j)
    ensures j < |facts| && Returned(flags, facts)[facts[j]] == i + 1
  {
    hide Numbered, Kept;
    NumberedLast(flags, facts, |facts|, j);
    NotAmong(facts, j + 1, |facts|, facts[j]);
    NotAmong(facts, i + 1, j, facts[j]);
    assert facts[j] in facts[..j] by { assert facts[..j][i] == facts[i]; }
    assert Numbered(flags, facts, |facts|)[facts[j]] == j + 1;
    var k := KeptAt(flags, facts, j);
    NotAmong(facts, k + 1, j, facts[j]);
    assert k == i;
  }

  /** With the key set in its sorted order, every flag comes back if and only if repeats are harmless. */
  lemma FlagsBackIff(flags: seq<nat>, facts: seq<nat>, sorted: seq<nat>, values: seq<nat>)
    requires (forall i :: 0 <= i < |facts| ==> facts[i] < |flags|) && multiset(sorted) == multiset(facts)
    requires |sorted| == |facts| == |values| && Keyed(Numbered(flags, facts, |facts|), sorted, |facts|)
    requires forall i :: 0 <= i < |values| ==> values[i] == Kept(flags, facts)[Numbered(flags, facts, |facts|)[sorted[i]] - 1]
    ensures GiveBack(Numbered(flags, facts, |facts|), sorted, values, |facts|) == flags <==> RepeatsAreHarmless(flags, facts)
  {
    hide Numbered, Kept, GiveBack, RepeatsAreHarmless;
    var numbers := Numbered(flags, facts, |facts|);
    forall f: nat ensures f in sorted <==> f in facts { assert f in multiset(sorted) <==> f in multiset(facts); }
    GiveBackIs(numbers, sorted, values, Returned(flags, facts), |facts|);
    assert sorted[..|facts|] == sorted && facts[..|facts|] == facts;
    forall f: nat | f < |flags|
      ensures GiveBack(numbers, sorted, values, |facts|)[f] == Returned(flags, facts)[f]
    {
      if f !in facts { NumberedElse(flags, facts, |facts|, f); }
    }
    assert GiveBack(numbers, sorted, values, |facts|) == Returned(flags, facts);
    ReturnedIff(flags, facts);
  }

  // The key set in @20, or listed again: it is sorted, and then rearranged as if it had not been.

  /** Then the result is in order, with nothing lost, only if the key set was in order before. */
  lemma TwiceIsOrderedOnly(facts: seq<nat>, sorted: seq<nat>, p: seq<nat>, key: nat -> Key)
    requires LastPlaces(facts, sorted, p) && KeyIsSorted(facts, sorted, key) && KeyIsSorted(facts, Permuted(sorted, p), key)
    ensures InOrder(facts, key)
  {
    hide Above, Low, LastPlaces;
    forall i, j | 0 <= i < j < |facts|
      ensures !Above(key(facts[i]), key(facts[j]))
    {
      FirstAreLow(facts, sorted, p, key, j);
      AllAreLow(facts[..Low(sorted, key, key(facts[j]))], key, key(facts[j]), i);
    }
  }

  /** The facts not above the one at `j` are the first ones, and it is one of them. */
  lemma FirstAreLow(facts: seq<nat>, sorted: seq<nat>, p: seq<nat>, key: nat -> Key, j: nat)
    requires LastPlaces(facts, sorted, p) && KeyIsSorted(facts, sorted, key) && KeyIsSorted(facts, Permuted(sorted, p), key)
    requires j < |facts|
    ensures var x := key(facts[j]); var c := Low(sorted, key, x); j < c <= |facts| && Low(facts[..c], key, x) == c
  {
    hide Above, Low, Ordered, LastPlaces;
    var x := key(facts[j]);
    var c := Low(sorted, key, x);
    LowOfSame(facts, sorted, key, x);
    forall m: nat | m < |facts| && !Above(key(facts[m]), x)
      ensures m < c
    {
      LowIsEarly(facts, sorted, p, key, x, m);
    }
    Order(x, x, x);
    assert facts == facts[..c] + facts[c..];
    LowSplit(facts[..c], facts[c..], key, x);
    NoneLow(facts[c..], key, x);
  }

  /** A fact not above the key has its last place among the first. */
  lemma LowIsEarly(facts: seq<nat>, sorted: seq<nat>, p: seq<nat>, key: nat -> Key, x: Key, m: nat)
    requires LastPlaces(facts, sorted, p) && KeyIsSorted(facts, sorted, key) && KeyIsSorted(facts, Permuted(sorted, p), key)
    requires m < |facts| && !Above(key(facts[m]), x)
    ensures m < Low(sorted, key, x)
  {
    hide Above, Low, Ordered;
    assert facts[m] in multiset(sorted) by { assert facts[m] in multiset(facts); }
    var q :| 0 <= q < |sorted| && sorted[q] == facts[m];
    OrdersAgree(Permuted(sorted, p), sorted, key, q);
    Order(key(sorted[p[q]]), key(facts[m]), x);
    LowIsFirst(sorted, key, x, p[q]);
    assert facts[p[q] + 1..] == facts[p[q] + 1..|facts|];
    NotAmong(facts, p[q] + 1, |facts|, facts[m]);
  }

  lemma SortSteps(s: Store, n: nat, chained: seq<nat>, key: nat -> Key)
    requires Sortable(s, n, chained)
    ensures Ready(Numbers(s, n), Start(s, n, key), s.sets[n].count)
    ensures Start(s, n, key)[n].count == s.sets[n].count
    ensures var next := Arrange(Numbers(s, n), Start(s, n, key), n, s.sets[n].count);
            && AllCount(next, chained, s.sets[n].count)
            && SortedRows(s, n, chained, key) == ArrangeAll(Numbers(s, n), next, chained, s.sets[n].count)
  {
    hide Numbers, Start, Sorted, Arrange, Places, ArrangeAll, Ready;
    StartIsReady(s, n, chained, key);
    ArrangeAllStep(Numbers(s, n), Start(s, n, key), n, chained, s.sets[n].count);
  }

  lemma ArrangeAllStep(flags: seq<nat>, sets: seq<Row>, a: nat, all: seq<nat>, count: nat)
    requires Ready(flags, sets, count) && AllCount(sets, [a] + all, count)
    ensures a <= SCRATCH && sets[a].count == count
    ensures AllCount(Arrange(flags, sets, a, count), all, count)
    ensures ArrangeAll(flags, sets, [a] + all, count) == ArrangeAll(flags, Arrange(flags, sets, a, count), all, count)
  {
    hide Arrange;
    assert ([a] + all)[0] == a && ([a] + all)[1..] == all;
    assert forall i :: 0 <= i < |all| ==> all[i] == ([a] + all)[i + 1];
  }

  /** The key set once it is rearranged the first time: sorted, or if it is @20 sorted and then
    * rearranged as if it were not. */
  lemma FirstTurn(s: Store, n: nat, chained: seq<nat>, key: nat -> Key)
    requires Sortable(s, n, chained)
    ensures StartReady(s, n, key)
    ensures var facts := s.sets[n].Facts(); var sorted := Sorted(facts, key);
            && Keyed(Numbers(s, n), sorted, |facts|) && LastPlaces(facts, sorted, Places(Numbers(s, n), sorted))
            && Arrange(Numbers(s, n), Start(s, n, key), n, s.sets[n].count)[n].Facts()
               == if n == SCRATCH then Permuted(sorted, Places(Numbers(s, n), sorted)) else sorted
  {
    hide Numbers, Sorted;
    StartIsReady(s, n, chained, key);
    var facts := s.sets[n].Facts();
    var sorted := Sorted(facts, key);
    assert n != SCRATCH ==> Permuted(facts, Places(Numbers(s, n), sorted)) == sorted;
  }

  ghost predicate StartReady(s: Store, n: nat, key: nat -> Key) {
    && RowsOk(s.sets, |s.flags|) && n <= SCRATCH
    && Ready(Numbers(s, n), Start(s, n, key), s.sets[n].count) && Start(s, n, key)[n].count == s.sets[n].count
  }

  /** The key set listed once. It ends up sorted if and only if it is not @20, which the sort uses
    * itself, or was in order before; and with that every flag is what it was if and only if no fact
    * is listed twice in it, but for flags that happen to be a place. */
  lemma SortIsRightIff(s: Store, n: nat, chained: seq<nat>, key: nat -> Key)
    requires Sortable(s, n, chained) && n !in chained
    ensures var facts := s.sets[n].Facts();
            var sorted := KeyIsSorted(facts, SortedRows(s, n, chained, key)[n].Facts(), key);
            && (sorted <==> n != SCRATCH || InOrder(facts, key))
            && (sorted && SortedFlags(s, n, chained, key) == s.flags
                <==> (n != SCRATCH || InOrder(facts, key)) && RepeatsAreHarmless(s.flags, facts))
  {
    hide Numbers, Start, Sorted, Ordered, RepeatsAreHarmless, SortedRows, SortedFlags, ArrangeAll, Arrange, Places, LastPlaces, Permuted;
    FirstTurn(s, n, chained, key);
    SortSteps(s, n, chained, key);
    TurnedAgain(s, n, key);
    SortFlags(s, n, chained, key);
  }

  /** What the sorted key set is worth if it is rearranged once more. */
  lemma TurnedAgain(s: Store, n: nat, key: nat -> Key)
    requires RowsOk(s.sets, |s.flags|) && n <= SCRATCH
    requires var facts := s.sets[n].Facts(); var sorted := Sorted(facts, key);
             Keyed(Numbers(s, n), sorted, |facts|) && LastPlaces(facts, sorted, Places(Numbers(s, n), sorted))
    ensures var facts := s.sets[n].Facts(); var sorted := Sorted(facts, key); var now := Permuted(sorted, Places(Numbers(s, n), sorted));
            && KeyIsSorted(facts, sorted, key)
            && (KeyIsSorted(facts, now, key) <==> InOrder(facts, key))
            && (InOrder(facts, key) ==> now == sorted == facts)
  {
    hide Numbers, Ordered, Sorted;
    var facts := s.sets[n].Facts();
    var sorted := Sorted(facts, key);
    var p := Places(Numbers(s, n), sorted);
    if KeyIsSorted(facts, Permuted(sorted, p), key) { TwiceIsOrderedOnly(facts, sorted, p, key); }
    if InOrder(facts, key) { InOrderStays(facts, sorted, p, key); }
  }

  lemma InOrderStays(facts: seq<nat>, sorted: seq<nat>, p: seq<nat>, key: nat -> Key)
    requires InOrder(facts, key) && sorted == Sorted(facts, key) && LastPlaces(facts, sorted, p)
    ensures sorted == facts == Permuted(sorted, p)
  {
    BubbleOfOrdered(facts, key);
  }

  lemma SortFlags(s: Store, n: nat, chained: seq<nat>, key: nat -> Key)
    requires Sortable(s, n, chained)
    ensures SortedRows(s, n, chained, key)[n].Facts() == Sorted(s.sets[n].Facts(), key) ==>
              (SortedFlags(s, n, chained, key) == s.flags <==> RepeatsAreHarmless(s.flags, s.sets[n].Facts()))
  {
    hide Kept, GiveBack, Sorted, RepeatsAreHarmless, SortedRows, Numbered;
    StartIsReady(s, n, chained, key);
    var facts := s.sets[n].Facts();
    var sorted := Sorted(facts, key);
    if SortedRows(s, n, chained, key)[n].Facts() == sorted {
      FlagsBackIff(s.flags, facts, sorted, Aside(s.flags, facts, Places(Numbers(s, n), sorted)));
    }
  }

  /** A key set in order stays as it is, whatever sets are listed and however often; with it every
    * flag comes back if and only if repeats are harmless. */
  lemma OrderedKeyStays(s: Store, n: nat, chained: seq<nat>, key: nat -> Key)
    requires Sortable(s, n, chained) && InOrder(s.sets[n].Facts(), key)
    ensures SortedRows(s, n, chained, key)[n].Facts() == s.sets[n].Facts()
    ensures SortedFlags(s, n, chained, key) == s.flags <==> RepeatsAreHarmless(s.flags, s.sets[n].Facts())
  {
    hide Numbers, Ordered, RepeatsAreHarmless, SortedRows, SortedFlags, ArrangeAll, Arrange, Places;
    FirstTurn(s, n, chained, key);
    SortSteps(s, n, chained, key);
    TurnedAgain(s, n, key);
    var facts := s.sets[n].Facts();
    StartIsFixed(s, n, key);
    ArrangeKeeps(Numbers(s, n), Start(s, n, key), n, n, facts);
    ArrangeAllKeeps(Numbers(s, n), Arrange(Numbers(s, n), Start(s, n, key), n, |facts|), chained, n, facts);
    SortFlags(s, n, chained, key);
  }

  lemma StartIsFixed(s: Store, n: nat, key: nat -> Key)
    requires StartReady(s, n, key) && Sorted(s.sets[n].Facts(), key) == s.sets[n].Facts()
    requires Keyed(Numbers(s, n), s.sets[n].Facts(), s.sets[n].count)
    requires LastPlaces(s.sets[n].Facts(), s.sets[n].Facts(), Places(Numbers(s, n), s.sets[n].Facts()))
    ensures Fixed(Numbers(s, n), Start(s, n, key), n, s.sets[n].Facts())
  {
    hide Numbers, Sorted, Start, Ready, Places, LastPlaces, Fixed, Keyed;
    StartFacts(s, n, key);
    IsFixed(Numbers(s, n), Start(s, n, key), n, s.sets[n].Facts());
  }

  lemma IsFixed(flags: seq<nat>, sets: seq<Row>, n: nat, facts: seq<nat>)
    requires Ready(flags, sets, |facts|) && n <= SCRATCH && sets[SCRATCH].Facts() == facts && sets[n].Facts() == facts
    requires Keyed(flags, facts, |facts|) && LastPlaces(facts, facts, Places(flags, facts))
    ensures Fixed(flags, sets, n, facts)
  {
    hide Ready, RowsOk, Places, Row.Facts, LastPlaces, Keyed, FixedPlaces;
    PlacesAreFixed(flags, facts);
  }

  lemma PlacesAreFixed(flags: seq<nat>, facts: seq<nat>)
    requires Keyed(flags, facts, |facts|) && LastPlaces(facts, facts, Places(flags, facts))
    ensures FixedPlaces(flags, facts)
  {
    hide Places;
    PlacesAre(flags, facts);
  }

  lemma StartFacts(s: Store, n: nat, key: nat -> Key)
    requires RowsOk(s.sets, |s.flags|) && n <= SCRATCH
    ensures var r := Start(s, n, key); var facts := s.sets[n].Facts();
            && |r| == SETS && r[SCRATCH].count <= |r[SCRATCH].slot| && r[n].count <= |r[n].slot|
            && r[SCRATCH].Facts() == Sorted(facts, key) && r[n].Facts() == if n == SCRATCH then Sorted(facts, key) else facts
  {
    hide Sorted;
  }

  /** Each fact of the set holds a place where it is. */
  ghost predicate FixedPlaces(flags: seq<nat>, facts: seq<nat>) {
    forall i :: 0 <= i < |facts| ==> facts[i] < |flags| && 0 < flags[facts[i]] <= |facts| && facts[flags[facts[i]] - 1] == facts[i]
  }

  ghost predicate Fixed(flags: seq<nat>, sets: seq<Row>, n: nat, facts: seq<nat>) {
    Ready(flags, sets, |facts|) && n <= SCRATCH && sets[SCRATCH].Facts() == facts && sets[n].Facts() == facts && FixedPlaces(flags, facts)
  }

  lemma ArrangeKeeps(flags: seq<nat>, sets: seq<Row>, a: nat, n: nat, facts: seq<nat>)
    requires Fixed(flags, sets, n, facts) && a <= SCRATCH && sets[a].count == |facts|
    ensures Fixed(flags, Arrange(flags, sets, a, |facts|), n, facts)
  {
    var p := Places(flags, facts);
    assert Permuted(facts, p) == facts;
  }

  lemma {:induction false} ArrangeAllKeeps(flags: seq<nat>, sets: seq<Row>, all: seq<nat>, n: nat, facts: seq<nat>)
    requires Fixed(flags, sets, n, facts) && AllCount(sets, all, |facts|)
    ensures ArrangeAll(flags, sets, all, |facts|)[n].Facts() == facts
    decreases |all|
  {
    hide Arrange;
    if all != [] {
      ArrangeKeeps(flags, sets, all[0], n, facts);
      var next := Arrange(flags, sets, all[0], |facts|) by { assert Ready(flags, sets, |facts|); }
      ArrangeAllKeeps(flags, next, all[1..], n, facts);
    }
  }

  /** How often a set is listed. */
  function Listings(all: seq<nat>, a: nat): nat {
    if all == [] then 0 else (if all[0] == a then 1 else 0) + Listings(all[1..], a)
  }

  /** Rearranged so many times. */
  function Turns(facts: seq<nat>, p: seq<nat>, m: nat): (r: seq<nat>)
    requires |p| == |facts| && forall i :: 0 <= i < |p| ==> p[i] < |p|
    ensures |r| == |facts|
    decreases m
  {
    if m == 0 then facts else Turns(Permuted(facts, p), p, m - 1)
  }

  lemma {:induction false} ArrangedTimes(flags: seq<nat>, sets: seq<Row>, all: seq<nat>, count: nat, n: nat)
    requires Ready(flags, sets, count) && AllCount(sets, all, count) && SCRATCH !in all && n < SCRATCH && sets[n].count == count
    ensures var p := Places(flags, sets[SCRATCH].Facts());
            && |p| == count && (forall i :: 0 <= i < |p| ==> p[i] < count)
            && ArrangeAll(flags, sets, all, count)[n].Facts() == Turns(sets[n].Facts(), p, Listings(all, n))
    decreases |all|
  {
    hide Arrange, Permuted, Row.Facts;
    PlacesInCount(flags, sets, count);
    if all != [] {
      var next := Arrange(flags, sets, all[0], count);
      assert all[0] in all && forall a :: a in all[1..] ==> a in all;
      ArrangedTimes(flags, next, all[1..], count, n);
    }
  }

  lemma PlacesInCount(flags: seq<nat>, sets: seq<Row>, count: nat)
    requires Ready(flags, sets, count)
    ensures var p := Places(flags, sets[SCRATCH].Facts()); |p| == count && forall i :: 0 <= i < |p| ==> p[i] < count
  {
  }

  /** The key set, where it is listed again so often and @20 is not listed: sorted, and then rearranged
    * once for each time it is listed. */
  lemma ListedTimes(s: Store, n: nat, chained: seq<nat>, key: nat -> Key)
    requires Sortable(s, n, chained) && n < SCRATCH && SCRATCH !in chained
    ensures SortedPlaces(s, n, key)
    ensures var sorted := Sorted(s.sets[n].Facts(), key); var p := Places(Numbers(s, n), sorted);
            SortedRows(s, n, chained, key)[n].Facts() == Turns(sorted, p, Listings(chained, n))
  {
    hide Numbers, Sorted, SortedRows, LastPlaces, Ready, Arrange, ArrangeAll, Row.Facts;
    FirstTurn(s, n, chained, key);
    SortSteps(s, n, chained, key);
    StartFacts(s, n, key);
    var next := Arrange(Numbers(s, n), Start(s, n, key), n, s.sets[n].count);
    ReadyRows(Numbers(s, n), next, s.sets[n].count);
    ArrangedTimes(Numbers(s, n), next, chained, s.sets[n].count, n);
  }

  /** Each sorted fact holds a place among them. */
  ghost predicate SortedPlaces(s: Store, n: nat, key: nat -> Key) {
    && RowsOk(s.sets, |s.flags|) && n <= SCRATCH
    && var sorted := Sorted(s.sets[n].Facts(), key);
       && (forall i :: 0 <= i < |sorted| ==> sorted[i] < |s.flags| && Numbers(s, n)[sorted[i]] > 0)
       && var p := Places(Numbers(s, n), sorted); |p| == |sorted| && forall i :: 0 <= i < |p| ==> p[i] < |p|
  }

  /** The key set listed once more, beside whatever sets other than @20, is rearranged once too often: it
    * ends up sorted if and only if it was in order before. */
  lemma ListedAgainIff(s: Store, n: nat, chained: seq<nat>, key: nat -> Key)
    requires Sortable(s, n, chained) && n < SCRATCH && SCRATCH !in chained && Listings(chained, n) == 1
    ensures KeyIsSorted(s.sets[n].Facts(), SortedRows(s, n, chained, key)[n].Facts(), key) <==> InOrder(s.sets[n].Facts(), key)
  {
    hide Numbers, Sorted, Ordered, SortedRows, LastPlaces, KeyIsSorted, Permuted, Places;
    FirstTurn(s, n, chained, key);
    ListedTimes(s, n, chained, key);
    TurnedAgain(s, n, key);
    var sorted := Sorted(s.sets[n].Facts(), key);
    var p := Places(Numbers(s, n), sorted);
    assert Turns(sorted, p, 1) == Turns(Permuted(sorted, p), p, 0) == Permuted(sorted, p);
  }

  /** The flags of a key set of distinct facts that is listed again any number of times, beside whatever
    * sets other than @20: each fact gets those of the fact that the sort put where it ends up. So all come
    * back if and only if these are the same. */
  lemma ListedFlagsIff(s: Store, n: nat, chained: seq<nat>, key: nat -> Key)
    requires Sortable(s, n, chained) && n < SCRATCH && SCRATCH !in chained && Distinct(s.sets[n].Facts())
    ensures SortedPlaces(s, n, key)
    ensures var sorted := Sorted(s.sets[n].Facts(), key);
            var now := Turns(sorted, Places(Numbers(s, n), sorted), Listings(chained, n));
            && |now| == |sorted| && (forall i :: 0 <= i < |now| ==> now[i] < |s.flags| && sorted[i] < |s.flags|)
            && (SortedFlags(s, n, chained, key) == s.flags <==> forall i :: 0 <= i < |now| ==> s.flags[now[i]] == s.flags[sorted[i]])
  {
    hide Numbered, Sorted, SortedRows, GiveBack, Kept, Turns, Distinct, LastPlaces;
    ListedTimes(s, n, chained, key);
    FlagsUnfold(s, n, chained, key);
    var facts := s.sets[n].Facts();
    var sorted := Sorted(facts, key);
    var p := Places(Numbers(s, n), sorted);
    PlacesPermute(s.flags, facts, sorted);
    SortedSame(facts, sorted);
    TurnsPermute(sorted, p, Listings(chained, n), facts);
    FlagsOfNow(s.flags, facts, sorted, Turns(sorted, p, Listings(chained, n)), Aside(s.flags, facts, p));
  }

  /** Distinct facts, and the same ones. */
  ghost predicate SameFacts(a: seq<nat>, b: seq<nat>) { Distinct(a) && forall f :: f in a <==> f in b }

  lemma {:induction false} TurnsPermute(facts: seq<nat>, p: seq<nat>, m: nat, all: seq<nat>)
    requires |p| == |facts| && IsPermutation(p) && SameFacts(facts, all)
    ensures SameFacts(Turns(facts, p, m), all)
    decreases m
  {
    hide SameFacts, Permuted, Distinct;
    if m > 0 {
      PermutedSame(facts, p, all);
      TurnsPermute(Permuted(facts, p), p, m - 1, all);
    }
  }

  lemma PermutedSame(facts: seq<nat>, p: seq<nat>, all: seq<nat>)
    requires |p| == |facts| && IsPermutation(p) && SameFacts(facts, all)
    ensures SameFacts(Permuted(facts, p), all)
  {
    var r := Permuted(facts, p);
    forall f | f in facts
      ensures f in r
    {
      var j: nat :| j < |facts| && facts[j] == f;
      assert j in p;
      var i: nat :| i < |p| && p[i] == j;
      assert r[i] == f;
    }
  }

  lemma SortedSame(facts: seq<nat>, sorted: seq<nat>)
    requires Distinct(facts) && multiset(sorted) == multiset(facts)
    ensures SameFacts(sorted, facts)
  {
    DistinctIsMultiset(facts, sorted);
    forall f ensures f in sorted <==> f in facts { assert f in multiset(sorted) <==> f in multiset(facts); }
  }

  lemma FlagsOfNow(flags: seq<nat>, facts: seq<nat>, sorted: seq<nat>, now: seq<nat>, values: seq<nat>)
    requires (forall i :: 0 <= i < |facts| ==> facts[i] < |flags|) && Distinct(facts)
    requires multiset(sorted) == multiset(facts) && SameFacts(now, facts) && |now| == |sorted| == |facts| == |values|
    requires Keyed(Numbered(flags, facts, |facts|), sorted, |facts|) && LastPlaces(facts, sorted, Places(Numbered(flags, facts, |facts|), sorted))
    requires forall i :: 0 <= i < |values| ==> values[i] == Kept(flags, facts)[Places(Numbered(flags, facts, |facts|), sorted)[i]]
    ensures forall i :: 0 <= i < |now| ==> now[i] < |flags| && sorted[i] < |flags|
    ensures GiveBack(Numbered(flags, facts, |facts|), now, values, |facts|) == flags
            <==> forall i :: 0 <= i < |now| ==> flags[now[i]] == flags[sorted[i]]
  {
    hide Numbered, Kept, GiveBack, Places;
    var numbers := Numbered(flags, facts, |facts|);
    forall i | 0 <= i < |now|
      ensures now[i] < |flags| && sorted[i] < |flags| && values[i] == flags[sorted[i]]
    {
      assert now[i] in now;
      KeptOfDistinct(flags, facts, Places(numbers, sorted)[i]);
    }
    GiveBackAt(numbers, now, values, |facts|);
    var r := GiveBack(numbers, now, values, |facts|);
    assert now[..|facts|] == now && facts[..|facts|] == facts;
    forall f: nat | f < |flags| && f !in facts
      ensures r[f] == flags[f]
    {
      NumberedElse(flags, facts, |facts|, f);
    }
    if forall i :: 0 <= i < |now| ==> flags[now[i]] == flags[sorted[i]] {
      forall f: nat | f < |flags|
        ensures r[f] == flags[f]
      {
        if f in facts {
          var i: nat :| i < |now| && now[i] == f;
          assert r[now[i]] == values[i];
        }
      }
    }
  }

  lemma KeptOfDistinct(flags: seq<nat>, facts: seq<nat>, j: nat)
    requires (forall i :: 0 <= i < |facts| ==> facts[i] < |flags|) && Distinct(facts) && j < |facts|
    ensures Kept(flags, facts)[j] == flags[facts[j]]
  {
    hide Kept;
    var i := KeptAt(flags, facts, j);
  }

  lemma {:induction false} GiveBackAt(flags: seq<nat>, facts: seq<nat>, values: seq<nat>, n: nat)
    requires n <= |facts| == |values| && (forall i :: 0 <= i < |facts| ==> facts[i] < |flags|) && Distinct(facts)
    ensures forall i :: 0 <= i < n ==> GiveBack(flags, facts, values, n)[facts[i]] == values[i]
    ensures forall f: nat :: f < |flags| && f !in facts[..n] ==> GiveBack(flags, facts, values, n)[f] == flags[f]
    decreases n
  {
    if n > 0 {
      GiveBackAt(flags, facts, values, n - 1);
      assert facts[..n] == facts[..n - 1] + [facts[n - 1]];
      var r := GiveBack(flags, facts, values, n);
      assert r == GiveBack(flags, facts, values, n - 1)[facts[n - 1] := values[n - 1]];
      forall i | 0 <= i < n
        ensures r[facts[i]] == values[i]
      {
        if i < n - 1 { assert facts[i] != facts[n - 1]; }
      }
    }
  }

  /** Whatever @20 held is gone: after the sort it holds facts of the key set only, even where it is
    * chained. */
  lemma ScratchIsLost(s: Store, n: nat, chained: seq<nat>, key: nat -> Key)
    requires Sortable(s, n, chained)
    ensures forall x :: x in SortedRows(s, n, chained, key)[SCRATCH].Facts() ==> x in s.sets[n].Facts()
  {
    hide Numbers, Sorted, ArrangeAll, Arrange;
    StartIsReady(s, n, chained, key);
    var facts := s.sets[n].Facts();
    var sorted := Sorted(facts, key);
    forall x | x in sorted ensures x in facts { assert x in multiset(sorted); }
    ArrangeAllWithin(Numbers(s, n), Start(s, n, key), [n] + chained, |facts|, facts);
  }

  lemma {:induction false} ArrangeAllWithin(flags: seq<nat>, sets: seq<Row>, all: seq<nat>, count: nat, facts: seq<nat>)
    requires Ready(flags, sets, count) && AllCount(sets, all, count) && forall x :: x in sets[SCRATCH].Facts() ==> x in facts
    ensures forall x :: x in ArrangeAll(flags, sets, all, count)[SCRATCH].Facts() ==> x in facts
    decreases |all|
  {
    hide Arrange, Keyed;
    if all != [] {
      ArrangeWithin(flags, sets, all[0], count, facts);
      ArrangeAllWithin(flags, Arrange(flags, sets, all[0], count), all[1..], count, facts);
    }
  }

  lemma ArrangeWithin(flags: seq<nat>, sets: seq<Row>, a: nat, count: nat, facts: seq<nat>)
    requires Ready(flags, sets, count) && a <= SCRATCH && sets[a].count == count && forall x :: x in sets[SCRATCH].Facts() ==> x in facts
    ensures forall x :: x in Arrange(flags, sets, a, count)[SCRATCH].Facts() ==> x in facts
  {
    var from := sets[SCRATCH].Facts();
    var p := Places(flags, from);
    assert forall i :: 0 <= i < |p| ==> from[p[i]] in from;
    forall x | x in Permuted(from, p) ensures x in facts {
      var i :| 0 <= i < |p| && Permuted(from, p)[i] == x;
      assert x == from[p[i]];
    }
  }

  // ----- The failing inputs ---------------------------------------------------------------------

  /** Two facts in @20 that are out of order stay so, and get each other's flags. */
  lemma ScratchKeyFails(s: Store, key: nat -> Key, a: nat, b: nat)
    requires RowsOk(s.sets, |s.flags|) && a != b && a != 0 && b != 0 && s.sets[SCRATCH].Facts() == [b, a] && Above(key(b), key(a))
    ensures a < |s.flags| && b < |s.flags| && Sortable(s, SCRATCH, [])
    ensures SortedRows(s, SCRATCH, [], key)[SCRATCH].Facts() == [b, a]
    ensures SortedFlags(s, SCRATCH, [], key) == s.flags[a := s.flags[b]][b := s.flags[a]]
  {
    hide Above, ArrangeAll, GiveBack, Kept, Sorted, Numbered, SortedRows, Start, RowsOk, Ready;
    TwoInScratch(s, a, b);
    SortsTwo(key, a, b);
    NumbersTwo(s.flags, a, b);
    TwoStay(s, key, a, b);
    AsideTwo(s.flags, a, b);
    GivesTwoBack(s.flags, a, b);
  }

  lemma TwoInScratch(s: Store, a: nat, b: nat)
    requires RowsOk(s.sets, |s.flags|) && a != 0 && b != 0 && s.sets[SCRATCH].Facts() == [b, a]
    ensures a < |s.flags| && b < |s.flags| && Sortable(s, SCRATCH, [])
  {
    assert s.sets[SCRATCH].slot[0] == [b, a][0] && s.sets[SCRATCH].slot[1] == [b, a][1];
  }

  lemma TwoStay(s: Store, key: nat -> Key, a: nat, b: nat)
    requires Sortable(s, SCRATCH, []) && s.sets[SCRATCH].Facts() == [b, a] && a < |s.flags| && b < |s.flags| && a != b
    requires Sorted([b, a], key) == [a, b] && Numbers(s, SCRATCH) == s.flags[b := 1][a := 2]
    ensures Places(Numbers(s, SCRATCH), [a, b]) == [1, 0]
    ensures SortedRows(s, SCRATCH, [], key)[SCRATCH].Facts() == [b, a]
  {
    hide Numbers, Sorted, Arrange, Start, SortedRows, ArrangeAll, Places, Permuted, Row.Facts, RowsOk, Ready, LastPlaces, Keyed;
    FirstTurn(s, SCRATCH, [], key);
    SortSteps(s, SCRATCH, [], key);
    PlacesTwo(s.flags, a, b);
    NoneToArrange(Numbers(s, SCRATCH), Arrange(Numbers(s, SCRATCH), Start(s, SCRATCH, key), SCRATCH, 2), 2);
  }

  lemma PlacesTwo(flags: seq<nat>, a: nat, b: nat)
    requires a < |flags| && b < |flags| && a != b
    ensures var n := flags[b := 1][a := 2];
            n[a] > 0 && n[b] > 0 && Places(n, [a, b]) == [1, 0] && Permuted([a, b], [1, 0]) == [b, a]
  {
  }

  lemma NoneToArrange(flags: seq<nat>, sets: seq<Row>, count: nat)
    requires Ready(flags, sets, count)
    ensures ArrangeAll(flags, sets, [], count) == sets
  {
    hide Arrange;
  }

  lemma SortsTwo(key: nat -> Key, a: nat, b: nat)
    requires Above(key(b), key(a))
    ensures Sorted([b, a], key) == [a, b]
  {
    hide Above;
    assert Swapped([b, a], 0) == [a, b];
    assert Pass([b, a], key, 0, 2) == ([a, b], true);
    assert Bubble([a, b], key, 1) == [a, b];
  }

  lemma NumbersTwo(flags: seq<nat>, a: nat, b: nat)
    requires a < |flags| && b < |flags|
    ensures Numbered(flags, [b, a], 2) == flags[b := 1][a := 2]
  {
    assert Numbered(flags, [b, a], 1) == flags[b := 1];
  }

  lemma KeepsTwo(flags: seq<nat>, a: nat, b: nat)
    requires a < |flags| && b < |flags| && a != b
    ensures Kept(flags, [b, a]) == [flags[b], flags[a]]
  {
    assert Numbered(flags, [b, a], 1) == flags[b := 1];
  }

  lemma AsideTwo(flags: seq<nat>, a: nat, b: nat)
    requires a < |flags| && b < |flags| && a != b
    ensures forall i :: 0 <= i < 2 ==> [b, a][i] < |flags| && [1, 0][i] < 2
    ensures Aside(flags, [b, a], [1, 0]) == [flags[a], flags[b]]
  {
    hide Kept;
    KeepsTwo(flags, a, b);
  }

  lemma GivesTwoBack(flags: seq<nat>, a: nat, b: nat)
    requires a < |flags| && b < |flags| && a != b
    ensures GiveBack(flags[b := 1][a := 2], [b, a], [flags[a], flags[b]], 2) == flags[a := flags[b]][b := flags[a]]
  {
    assert GiveBack(flags[b := 1][a := 2], [b, a], [flags[a], flags[b]], 1) == flags[b := 1][a := 2][b := flags[a]];
  }

  /** The flags of a fact listed twice in the key set come back if and only if they are 1. */
  lemma RepeatedKeyFails(s: Store, n: nat, key: nat -> Key, a: nat)
    requires RowsOk(s.sets, |s.flags|) && n < SCRATCH && a != 0 && s.sets[n].Facts() == [a, a]
    ensures a < |s.flags| && Sortable(s, n, [])
    ensures SortedFlags(s, n, [], key) == s.flags <==> s.flags[a] == 1
  {
    hide Ordered, SortedRows, SortedFlags;
    var facts := [a, a];
    assert facts[0] == s.sets[n].slot[0];
    SortIsRightIff(s, n, [], key);
    assert Again(facts, 0, 1) by { assert facts[2..] == [] && facts[1..1] == []; }
    assert forall i: nat, j: nat :: Again(facts, i, j) ==> i == 0 && j == 1;
  }

  // ----- The chained sets -------------------------------------------------------------------------

  /** Where no set is listed twice and none is @20, one and the same rearrangement is applied to every
    * listed set, and no other of the sets @0 to @19 changes; it is a permutation if and only if no fact
    * is listed twice in the key set. */
  lemma SortsTogether(s: Store, n: nat, chained: seq<nat>, key: nat -> Key)
    requires Sortable(s, n, chained) && Distinct([n] + chained) && SCRATCH !in [n] + chained
    ensures Keyed(Numbers(s, n), Sorted(s.sets[n].Facts(), key), s.sets[n].count)
    ensures var p := Places(Numbers(s, n), Sorted(s.sets[n].Facts(), key));
            && (forall i :: 0 <= i < |p| ==> p[i] < s.sets[n].count)
            && (IsPermutation(p) <==> Distinct(s.sets[n].Facts()))
            && forall a :: 0 <= a < SCRATCH ==>
                 if a in [n] + chained
                 then s.sets[a].count == s.sets[n].count && SortedRows(s, n, chained, key)[a].Facts() == Permuted(s.sets[a].Facts(), p)
                 else SortedRows(s, n, chained, key)[a] == s.sets[a]
  {
    hide Numbered, Sorted, Arrange, Distinct;
    StartIsReady(s, n, chained, key);
    var facts := s.sets[n].Facts();
    var sorted := Sorted(facts, key);
    PlacesArePermutationIff(s.flags, facts, sorted);
    StartFacts(s, n, key);
    ArrangedTogether(Numbers(s, n), Start(s, n, key), [n] + chained, s.sets[n].count);
  }

  lemma {:induction false} ArrangedTogether(flags: seq<nat>, sets: seq<Row>, all: seq<nat>, count: nat)
    requires Ready(flags, sets, count) && AllCount(sets, all, count) && Distinct(all) && SCRATCH !in all
    ensures var p := Places(flags, sets[SCRATCH].Facts());
            && (forall i :: 0 <= i < |p| ==> p[i] < count)
            && forall a :: a in all ==> sets[a].count == count
                                        && ArrangeAll(flags, sets, all, count)[a].Facts() == Permuted(sets[a].Facts(), p)
    decreases |all|
  {
    hide Arrange;
    if all != [] {
      var next := Arrange(flags, sets, all[0], count);
      assert all == [all[0]] + all[1..];
      assert all[0] !in all[1..] by { DistinctRest(all); }
      ArrangedTogether(flags, next, all[1..], count) by { DistinctRest(all); }
    }
  }

  lemma DistinctRest(all: seq<nat>)
    requires Distinct(all) && all != []
    ensures Distinct(all[1..]) && all[0] !in all[1..]
  {
  }

  // ----- The sort as the program runs it ------------------------------------------------------------

  lemma PutAgain(r: Row, facts: seq<nat>, sorted: seq<nat>)
    requires |facts| == |sorted| <= |r.slot|
    ensures r.Put(facts).Put(sorted) == r.Put(sorted)
  {
  }

  class FactSets {
    var flags: array<nat>          // the flags of each fact
    var sets: seq<Row>             // factSet

    ghost predicate Valid()
      reads this, flags
    {
      RowsOk(sets, flags.Length)
    }

    ghost function View(): Store
      reads this, flags
    {
      Store(flags[..], sets)
    }

    constructor (flags: array<nat>, sets: seq<Row>)
      requires RowsOk(sets, flags.Length)
      ensures Valid() && this.flags == flags && this.sets == sets
    {
      this.flags, this.sets := flags, sets;
    }

    /** Whether the chained sets all have as many facts as the key set. */
    method SameCounts(n: nat, chained: seq<nat>) returns (same: bool)
      requires Valid() && n <= SCRATCH && forall i :: 0 <= i < |chained| ==> chained[i] <= SCRATCH
      ensures |sets| == SETS && (same <==> AllCount(sets, chained, sets[n].count))
    {
      var i := 0;
      while i < |chained|
        invariant 0 <= i <= |chained| && forall k :: 0 <= k < i ==> sets[chained[k]].count == sets[n].count
      {
        if sets[chained[i]].count != sets[n].count { return false; }
        i := i + 1;
      }
      return true;
    }

    /** The first loop of SortCode: the flags of the facts are put aside and their places put in their
      * stead, and the facts copied to @20; false at a null fact. */
    method Number(n: nat) returns (ok: bool, kept: seq<nat>)
      requires Valid() && n <= SCRATCH
      modifies this`sets, flags
      ensures Valid() && old(|sets| == SETS && sets[n].count <= |sets[n].slot|)
      ensures var facts := old(sets[n].Facts());
              && (ok <==> 0 !in facts)
              && (forall i :: 0 <= i < |facts| ==> facts[i] < flags.Length) && |facts| <= MAX_FIND
              && var i := if ok then |facts| else NullAt(facts);
                 && flags[..] == Numbered(old(flags[..]), facts, i) && sets == Loaded(old(sets), facts, i)
                 && (ok ==> kept == Kept(old(flags[..]), facts))
    {
      hide Numbered, NullAt;
      kept := [];
      ghost var facts := sets[n].Facts();
      sets := sets[SCRATCH := Row(sets[n].count, sets[SCRATCH].slot)];
      assert Numbered(flags[..], facts, 0) == flags[..] by { NumberedNone(flags[..], facts); }
      assert sets == Loaded(old(sets), facts, 0) by { assert facts[..0] + sets[SCRATCH].slot[0..] == sets[SCRATCH].slot; }
      var i: nat := 0;
      while i < sets[n].count
        invariant Valid() && i <= |facts| == sets[n].count
        invariant 0 !in facts[..i] && |kept| == i
        invariant flags[..] == Numbered(old(flags[..]), facts, i) && sets == Loaded(old(sets), facts, i)
        invariant forall k :: 0 <= k < i ==> kept[k] == Kept(old(flags[..]), facts)[k]
      {
        LoadedStep(old(sets), flags.Length, facts, n, i);
        var f := sets[n].slot[i];
        if f == 0 {
          NullIsAt(facts, i);
          return false, kept;
        }
        NumberedStep(old(flags[..]), facts, i);
        kept := kept + [flags[f]];
        flags[f] := i + 1;
        sets := sets[SCRATCH := Row(sets[SCRATCH].count, sets[SCRATCH].slot[i := f])];
        assert facts[..i + 1] == facts[..i] + [f];
        i := i + 1;
      }
      assert facts[..i] == facts;
      ok := true;
    }

    /** Puts a listed set in the order that @20 gives by the places its facts hold. */
    method ArrangeSet(a: nat, count: nat) returns (index: seq<nat>)
      requires Ready(flags[..], sets, count) && a <= SCRATCH && sets[a].count == count
      modifies this`sets
      ensures sets == Arrange(flags[..], old(sets), a, count) && index == Places(flags[..], old(sets[SCRATCH].Facts()))
    {
      hide Ready, Keyed, Row.Put, RowsOk;
      ReadyRows(flags[..], sets, count);
      ReadySlots(flags[..], sets, a, count);
      ghost var p := Places(flags[..], sets[SCRATCH].Facts());
      ghost var from := sets[SCRATCH].slot;
      sets := sets[SPARE := sets[SPARE].Put(sets[a].Facts())];
      ghost var base := sets;
      ghost var row := Permuted(sets[SPARE].Facts(), p);
      index := [];
      var i: nat := 0;
      ArrangeFrom(base, a, row);
      while i < count
        invariant i <= count && |index| == i && forall k :: 0 <= k < i ==> index[k] == p[k]
        invariant sets == base[a := Row(count, row[..i] + base[a].slot[i..])]
      {
        ArrangeStep(sets, base, a, row, i);
        var place := flags[sets[SCRATCH].slot[i]] - 1;
        assert place == p[i] && sets[SPARE].slot[place] == row[i];
        sets := sets[a := Row(count, sets[a].slot[i := sets[SPARE].slot[place]])];
        index := index + [place];
        i := i + 1;
      }
      ArrangeTo(sets, base, a, row);
    }

    /** The last loop of SortCode: gives each fact of the key set what was put aside for its place. */
    method GiveFlagsBack(n: nat, kept: seq<nat>, index: seq<nat>, ghost values: seq<nat>)
      requires Valid() && n <= SCRATCH && |index| == |values| == sets[n].count
      requires forall i :: 0 <= i < |index| ==> index[i] < |kept| && values[i] == kept[index[i]]
      modifies flags
      ensures Valid() && (forall i :: 0 <= i < sets[n].count ==> sets[n].Facts()[i] < flags.Length)
      ensures flags[..] == GiveBack(old(flags[..]), sets[n].Facts(), values, sets[n].count)
    {
      hide GiveBack;
      ghost var facts := sets[n].Facts();
      assert forall i :: 0 <= i < |facts| ==> facts[i] == sets[n].slot[i];
      var i: nat := 0;
      assert GiveBack(flags[..], facts, values, 0) == flags[..] by { GiveBackNone(flags[..], facts, values); }
      while i < sets[n].count
        invariant i <= sets[n].count && flags[..] == GiveBack(old(flags[..]), facts, values, i)
      {
        GiveBackStep(old(flags[..]), facts, values, i);
        flags[sets[n].slot[i]] := kept[index[i]];
        i := i + 1;
      }
    }

    /** The copy of the key set, sorted. */
    method SortScratch(key: nat -> Key)
      requires Valid()
      modifies this`sets
      ensures old(|sets| == SETS && sets[SCRATCH].count <= |sets[SCRATCH].slot|)
      ensures sets == old(sets)[SCRATCH := old(sets[SCRATCH]).Put(Sorted(old(sets[SCRATCH].Facts()), key))]
    {
      hide Bubble;
      var facts := sets[SCRATCH].Facts();
      var copy := new nat[|facts|](k requires 0 <= k < |facts| => facts[k]);
      assert copy[..] == facts;
      SortFacts(copy, key);
      assert copy[..] == Sorted(facts, key);
      sets := sets[SCRATCH := sets[SCRATCH].Put(copy[..])];
    }

    /** The rest of SortCode, once the facts are numbered and the copy is sorted. */
    method ArrangeSets(n: nat, chained: seq<nat>, kept: seq<nat>, ghost s: Store, ghost key: nat -> Key)
      requires Sortable(s, n, chained) && flags[..] == Numbers(s, n) && sets == Start(s, n, key)
      requires (forall i :: 0 <= i < s.sets[n].count ==> s.sets[n].Facts()[i] < |s.flags|) && kept == Kept(s.flags, s.sets[n].Facts())
      modifies this`sets, flags
      ensures View() == Store(SortedFlags(s, n, chained, key), SortedRows(s, n, chained, key))
    {
      hide Sorted, Kept, Places, ArrangeAll, Arrange, GiveBack, Start, Numbers, SortedRows, SortedFlags, Ready, Keyed;
      ghost var facts := s.sets[n].Facts();
      ghost var numbers := Numbers(s, n);
      SortSteps(s, n, chained, key);
      StartScratch(s, n, chained, key);
      FlagsUnfold(s, n, chained, key);
      ghost var index0 := Places(numbers, Sorted(facts, key));
      var index := ArrangeSet(n, sets[SCRATCH].count);
      ArrangeChained(chained, |facts|);
      GiveFlagsBack(n, kept, index, Aside(s.flags, facts, index0));
    }

    method ArrangeChained(chained: seq<nat>, ghost count: nat)
      requires Ready(flags[..], sets, count) && AllCount(sets, chained, count)
      modifies this`sets
      ensures sets == ArrangeAll(flags[..], old(sets), chained, count)
    {
      hide Arrange, Keyed, ArrangeAll;
      var j: nat := 0;
      assert chained[0..] == chained;
      while j < |chained|
        invariant j <= |chained| && Ready(flags[..], sets, count) && AllCount(sets, chained[j..], count)
        invariant ArrangeAll(flags[..], sets, chained[j..], count) == ArrangeAll(flags[..], old(sets), chained, count)
      {
        assert chained[j..] == [chained[j]] + chained[j + 1..];
        ArrangeAllStep(flags[..], sets, chained[j], chained[j + 1..], count);
        var places := ArrangeSet(chained[j], sets[SCRATCH].count);
        j := j + 1;
      }
      NoneToArrange(flags[..], sets, count);
      assert chained[j..] == [];
    }

    /** SortCode, for any key set and any chained sets. */
    method SortCode(n: nat, chained: seq<nat>, key: nat -> Key) returns (ok: bool)
      requires Valid() && n <= SCRATCH && forall i :: 0 <= i < |chained| ==> chained[i] <= SCRATCH
      modifies this`sets, flags
      ensures old(RowsOk(sets, |flags[..]|)) && (View(), ok) == SortResult(old(View()), n, chained, key)
    {
      hide Sorted, Numbered, Kept, Start, SortedRows, SortedFlags;
      ghost var s := View();
      var same := SameCounts(n, chained);
      if sets[n].count > 0xffff || !same { return false; }
      var kept;
      ok, kept := Number(n);
      if !ok { return; }
      SortStarts(s, n, key);
      SortScratch(key);
      ArrangeSets(n, chained, kept, s, key);
    }
  }

  lemma StartScratch(s: Store, n: nat, chained: seq<nat>, key: nat -> Key)
    requires Sortable(s, n, chained)
    ensures var r := Start(s, n, key);
            && |r| == SETS && r[SCRATCH].count == s.sets[n].count <= |r[SCRATCH].slot|
            && r[SCRATCH].Facts() == Sorted(s.sets[n].Facts(), key)
  {
    hide Sorted;
  }

  lemma NumberedNone(flags: seq<nat>, facts: seq<nat>)
    requires forall i :: 0 <= i < |facts| ==> facts[i] < |flags|
    ensures Numbered(flags, facts, 0) == flags
  {
  }

  lemma NumberedStep(flags: seq<nat>, facts: seq<nat>, i: nat)
    requires i < |facts| && forall i :: 0 <= i < |facts| ==> facts[i] < |flags|
    ensures Numbered(flags, facts, i + 1) == Numbered(flags, facts, i)[facts[i] := i + 1]
    ensures Kept(flags, facts)[i] == Numbered(flags, facts, i)[facts[i]]
  {
  }

  lemma GiveBackNone(flags: seq<nat>, facts: seq<nat>, values: seq<nat>)
    requires |facts| == |values| && forall i :: 0 <= i < |facts| ==> facts[i] < |flags|
    ensures GiveBack(flags, facts, values, 0) == flags
  {
  }

  lemma GiveBackStep(flags: seq<nat>, facts: seq<nat>, values: seq<nat>, i: nat)
    requires i < |facts| == |values| && forall i :: 0 <= i < |facts| ==> facts[i] < |flags|
    ensures GiveBack(flags, facts, values, i + 1) == GiveBack(flags, facts, values, i)[facts[i] := values[i]]
  {
  }

  lemma NullIsAt(facts: seq<nat>, i: nat)
    requires i < |facts| && facts[i] == 0 && 0 !in facts[..i]
    ensures NullAt(facts) == i
  {
    hide NullAt;
    var j := NullAt(facts);
    NotAmong(facts, 0, i, 0);
    NotAmong(facts, 0, j, 0);
  }

  lemma LoadedStep(sets: seq<Row>, limit: nat, facts: seq<nat>, n: nat, i: nat)
    requires RowsOk(sets, limit) && n <= SCRATCH && facts == sets[n].Facts() && i < |facts|
    ensures |facts| <= MAX_FIND && facts[i] < limit
    ensures var r := Loaded(sets, facts, i);
            && RowsOk(r, limit) && |r[n].slot| == MAX_FIND && r[n].slot[i] == facts[i] && r[n].count == |facts|
            && Loaded(sets, facts, i + 1) == r[SCRATCH := Row(r[SCRATCH].count, r[SCRATCH].slot[i := facts[i]])]
            && RowsOk(Loaded(sets, facts, i + 1), limit) && Loaded(sets, facts, i + 1)[n].count == |facts|
  {
    var slot := sets[SCRATCH].slot;
    assert facts[i] == sets[n].slot[i];
    assert facts[..i + 1] + slot[i + 1..] == (facts[..i] + slot[i..])[i := facts[i]];
  }

  lemma ReadyRows(flags: seq<nat>, sets: seq<Row>, count: nat)
    requires Ready(flags, sets, count)
    ensures RowsOk(sets, |flags|) && sets[SCRATCH].count == count && Keyed(flags, sets[SCRATCH].Facts(), count)
    ensures forall i :: 0 <= i < count ==> sets[SCRATCH].slot[i] == sets[SCRATCH].Facts()[i]
    ensures forall i :: 0 <= i < count ==> sets[SCRATCH].Facts()[i] < |flags| && flags[sets[SCRATCH].Facts()[i]] > 0
  {
  }

  lemma ReadySlots(flags: seq<nat>, sets: seq<Row>, a: nat, count: nat)
    requires Ready(flags, sets, count) && a <= SCRATCH && sets[a].count == count
    ensures |sets| == SETS && count <= |sets[a].slot| && count <= |sets[SCRATCH].slot| && count <= |sets[SPARE].slot|
    ensures var base := sets[SPARE := sets[SPARE].Put(sets[a].Facts())];
            base[SPARE].count == count <= |base[SPARE].slot| && base[SPARE].Facts() == sets[a].Facts()
  {
  }

  lemma ArrangeFrom(base: seq<Row>, a: nat, row: seq<nat>)
    requires |base| == SETS && a <= SCRATCH && base[a].count == |row| <= |base[a].slot|
    ensures base == base[a := Row(|row|, row[..0] + base[a].slot[0..])]
  {
    assert row[..0] + base[a].slot[0..] == base[a].slot;
  }

  /** Where the key set is @20 itself, the place at `i` is read before it is written. */
  lemma ArrangeStep(sets: seq<Row>, base: seq<Row>, a: nat, row: seq<nat>, i: nat)
    requires |base| == SETS && a <= SCRATCH && i < |row| <= |base[a].slot| && |row| <= |base[SCRATCH].slot|
    requires sets == base[a := Row(|row|, row[..i] + base[a].slot[i..])]
    ensures |sets[SCRATCH].slot| == |base[SCRATCH].slot| && sets[SCRATCH].slot[i] == base[SCRATCH].slot[i] && sets[SPARE] == base[SPARE]
    ensures |sets[a].slot| == |base[a].slot|
    ensures sets[a := Row(|row|, sets[a].slot[i := row[i]])] == base[a := Row(|row|, row[..i + 1] + base[a].slot[i + 1..])]
  {
    var before := base[a].slot;
    assert (row[..i] + before[i..])[i := row[i]] == row[..i + 1] + before[i + 1..];
  }

  lemma ArrangeTo(sets: seq<Row>, base: seq<Row>, a: nat, row: seq<nat>)
    requires |base| == SETS && a <= SCRATCH && |row| <= |base[a].slot|
    requires sets == base[a := Row(|row|, row[..|row|] + base[a].slot[|row|..])]
    ensures sets == base[a := base[a].Put(row)]
  {
    assert row[..|row|] == row;
  }

  lemma SortStarts(s: Store, n: nat, key: nat -> Key)
    requires RowsOk(s.sets, |s.flags|) && n <= SCRATCH
    ensures var facts := s.sets[n].Facts(); var loaded := Loaded(s.sets, facts, |facts|);
            && |loaded| == SETS && loaded[SCRATCH].count == |facts| <= |loaded[SCRATCH].slot| && loaded[SCRATCH].Facts() == facts
            && loaded[SCRATCH := loaded[SCRATCH].Put(Sorted(facts, key))] == Start(s, n, key)
  {
    hide Sorted;
    var facts := s.sets[n].Facts();
    assert Loaded(s.sets, facts, |facts|)[SCRATCH] == s.sets[SCRATCH].Put(facts) by { assert facts[..|facts|] == facts; }
    PutAgain(s.sets[SCRATCH], facts, Sorted(facts, key));
  }

  lemma FlagsUnfold(s: Store, n: nat, chained: seq<nat>, key: nat -> Key)
    requires Sortable(s, n, chained)
    ensures var facts := s.sets[n].Facts(); var sorted := Sorted(facts, key); var numbers := Numbers(s, n);
            && (forall i :: 0 <= i < |facts| ==> facts[i] < |s.flags|)
            && Keyed(numbers, sorted, |facts|) && LastPlaces(facts, sorted, Places(numbers, sorted))
            && (forall i :: 0 <= i < |facts| ==> sorted[i] < |numbers| && numbers[sorted[i]] > 0)
            && (forall i :: 0 <= i < |facts| ==> SortedRows(s, n, chained, key)[n].Facts()[i] < |numbers|)
            && SortedFlags(s, n, chained, key)
               == GiveBack(numbers, SortedRows(s, n, chained, key)[n].Facts(), Aside(s.flags, facts, Places(numbers, sorted)), |facts|)
  {
    hide SortedRows, Numbers, Sorted, Aside, GiveBack;
    StartIsReady(s, n, chained, key);
  }
}
