/** Intrusive lists over an arena that is allocated upward and freed strictly backwards.
  *
  * Each row of the arena may be on the list of one key. A list starts at the head kept for
  * its key and goes on through a next link kept in each row; 0 ends it. The six lists of
  * the fact store (three roles, heads on words and on facts) and the bucket lists of the
  * dictionary are all of this kind.
  */
module Threads {

  datatype Option<+T> = None | Some(value: T)

  /** `key[i]` is the key row `i` is filed under, if any; row 0 is the null row. */
  datatype Lists<K(==)> = Lists(key: seq<Option<K>>, next: seq<nat>, head: map<K, nat>)

  /** The rows met by following the links from row `h`. */
  function Chain(next: seq<nat>, h: nat): seq<nat>
    decreases h
  {
    if h == 0 || h >= |next| then []
    else [h] + if next[h] < h then Chain(next, next[h]) else []
  }

  /** The rows below `n` filed under `k`, newest first: a scan of the arena that uses no link. */
  function Listing<K(==)>(key: seq<Option<K>>, k: K, n: nat): seq<nat>
    requires n <= |key|
  {
    if n == 0 then [] else (if key[n - 1] == Some(k) then [n - 1] else []) + Listing(key, k, n - 1)
  }

  /** The rows and links fit together: links point down and every key used has a head. */
  ghost predicate Formed<K>(t: Lists<K>) {
    && |t.key| == |t.next| >= 1
    && t.key[0] == None && t.next[0] == 0
    && (forall i :: 0 < i < |t.next| ==> t.next[i] < i)
    && (forall i :: 0 <= i < |t.key| && t.key[i].Some? ==> t.key[i].value in t.head)
  }

  /** No list starts in freed space, and the list of `k` is exactly the rows filed under `k`. */
  ghost predicate ExactAt<K>(t: Lists<K>, k: K)
    requires k in t.head
  {
    t.head[k] < |t.key| && Chain(t.next, t.head[k]) == Listing(t.key, k, |t.key|)
  }

  /** The law of the arena. */
  ghost predicate Exact<K>(t: Lists<K>) {
    Formed(t) && forall k {:trigger ExactAt(t, k)} :: k in t.head ==> ExactAt(t, k)
  }

  // ----- Chains and listings -----------------------------------------------------------

  /** A chain depends only on the links of its own rows. */
  lemma {:induction false} ChainFrame(a: seq<nat>, b: seq<nat>, h: nat)
    requires h < |a| && h < |b|
    requires forall i :: i in Chain(a, h) ==> i < |a| && i < |b| && a[i] == b[i]
    ensures Chain(a, h) == Chain(b, h)
    decreases h
  {
    if h != 0 {
      assert h in Chain(a, h);
      if a[h] < h {
        assert forall i :: i in Chain(a, a[h]) ==> i in Chain(a, h);
        ChainFrame(a, b, a[h]);
      }
    }
  }

  lemma {:induction false} ChainIsBelow(next: seq<nat>, h: nat)
    ensures forall i :: i in Chain(next, h) ==> 0 < i <= h && i < |next|
    ensures forall i, j :: 0 <= i < j < |Chain(next, h)| ==> Chain(next, h)[i] > Chain(next, h)[j]
    decreases h
  {
    if h != 0 && h < |next| && next[h] < h {
      ChainIsBelow(next, next[h]);
      var rest := Chain(next, next[h]);
      assert forall j :: 0 <= j < |rest| ==> rest[j] in rest;
    }
  }

  /** Lists that start at different rows differ. */
  lemma SameChain(next: seq<nat>, a: nat, b: nat)
    requires a < |next| && b < |next|
    ensures Chain(next, a) == Chain(next, b) <==> a == b
  {
    assert a != 0 ==> Chain(next, a)[0] == a;
    assert b != 0 ==> Chain(next, b)[0] == b;
  }

  lemma ChainGrows(next: seq<nat>, more: seq<nat>, h: nat)
    requires h < |next|
    ensures Chain(next + more, h) == Chain(next, h)
  {
    ChainIsBelow(next, h);
    ChainFrame(next, next + more, h);
  }

  lemma {:induction false} ListingFrame<K>(a: seq<Option<K>>, b: seq<Option<K>>, k: K, n: nat)
    requires n <= |a| && n <= |b|
    requires forall i :: 0 <= i < n ==> (a[i] == Some(k) <==> b[i] == Some(k))
    ensures Listing(a, k, n) == Listing(b, k, n)
  {
    if n != 0 { ListingFrame(a, b, k, n - 1); }
  }

  lemma {:induction false} ListingMembers<K>(key: seq<Option<K>>, k: K, n: nat)
    requires n <= |key|
    ensures forall i :: i in Listing(key, k, n) <==> 0 <= i < n && key[i] == Some(k)
  {
    if n != 0 { ListingMembers(key, k, n - 1); }
  }

  lemma {:induction false} ListingEmpty<K>(key: seq<Option<K>>, k: K, n: nat)
    requires n <= |key| && forall i :: 0 <= i < n ==> key[i] != Some(k)
    ensures Listing(key, k, n) == []
  {
    if n != 0 { ListingEmpty(key, k, n - 1); }
  }

  /** What `Exact` says to the reader of one list: exactly the rows filed under its key, each
    * once, in strictly decreasing order. */
  lemma ListIsExact<K>(t: Lists<K>, k: K)
    requires Exact(t) && k in t.head
    ensures forall i :: i in Chain(t.next, t.head[k]) <==> 0 <= i < |t.key| && t.key[i] == Some(k)
    ensures var c := Chain(t.next, t.head[k]); forall i, j :: 0 <= i < j < |c| ==> c[i] > c[j]
  {
    assert ExactAt(t, k);
    ListingMembers(t.key, k, |t.key|);
    ChainIsBelow(t.next, t.head[k]);
  }

  // ----- Growing and shrinking the arena -----------------------------------------------

  /** A new row filed under `k` heads the list of `k`. */
  function Push<K>(t: Lists<K>, k: K): Lists<K>
    requires k in t.head
  {
    Lists(t.key + [Some(k)], t.next + [t.head[k]], t.head[k := |t.key|])
  }

  /** A new row on no list. */
  function Skip<K>(t: Lists<K>): Lists<K> {
    Lists(t.key + [None], t.next + [0], t.head)
  }

  /** Frees the newest row: the head of its list becomes its next. */
  function Pop<K>(t: Lists<K>): (r: Lists<K>)
    requires |t.key| == |t.next| > 0
  {
    var n := |t.key| - 1;
    Lists(t.key[..n], t.next[..n],
          match t.key[n]
          case None => t.head
          case Some(k) => t.head[k := t.next[n]])
  }

  function NewKey<K>(t: Lists<K>, k: K): Lists<K> { t.(head := t.head[k := 0]) }

  function DropKey<K>(t: Lists<K>, k: K): Lists<K> { t.(head := t.head - {k}) }

  lemma PushKeepsExact<K>(t: Lists<K>, k: K)
    requires Exact(t) && k in t.head
    ensures Exact(Push(t, k))
  {
    var r := Push(t, k);
    var n := |t.key|;
    assert ExactAt(t, k);
    forall x | x in r.head
      ensures ExactAt(r, x)
    {
      assert ExactAt(t, x);
      ListingFrame(t.key, r.key, x, n);
      ChainGrows(t.next, [t.head[k]], t.head[x]);
      ChainGrows(t.next, [t.head[k]], t.head[k]);
    }
  }

  lemma SkipKeepsExact<K>(t: Lists<K>)
    requires Exact(t)
    ensures Exact(Skip(t))
  {
    forall x | x in t.head
      ensures ExactAt(Skip(t), x)
    {
      SkipKeepsExactAt(t, x);
    }
  }

  lemma SkipKeepsExactAt<K>(t: Lists<K>, x: K)
    requires |t.key| == |t.next| && x in t.head && ExactAt(t, x)
    ensures ExactAt(Skip(t), x)
  {
    var n := |t.key|;
    ListingFrame(t.key, t.key + [None], x, n);
    assert Listing(t.key + [None], x, n + 1) == Listing(t.key + [None], x, n);
    ChainGrows(t.next, [0], t.head[x]);
  }

  /** In a lawful arena the newest row is the head of its list, so freeing it keeps the law. */
  lemma PopKeepsExact<K>(t: Lists<K>)
    requires Exact(t) && |t.key| > 1
    ensures Exact(Pop(t))
    ensures var n := |t.key| - 1; t.key[n].Some? ==> t.head[t.key[n].value] == n
  {
    var r := Pop(t);
    var n := |t.key| - 1;
    if t.key[n].Some? { NewestIsHead(t, t.key[n].value); }
    forall x | x in r.head
      ensures ExactAt(r, x)
    {
      PopKeepsExactAt(t, x);
    }
  }

  lemma PopKeepsExactAt<K>(t: Lists<K>, x: K)
    requires Formed(t) && |t.key| > 1 && x in t.head && ExactAt(t, x)
    ensures x in Pop(t).head && ExactAt(Pop(t), x)
  {
    var n := |t.key| - 1;
    ListingFrame(t.key, t.key[..n], x, n);
    if t.key[n] == Some(x) {
      NewestIsHead(t, x);
      assert Chain(t.next, n)[1..] == Chain(t.next, t.next[n]);
      ChainShrinks(t.next, t.next[n]);
    } else {
      assert Listing(t.key, x, n + 1) == Listing(t.key, x, n);
      HeadIsBelow(t, x);
      ChainShrinks(t.next, t.head[x]);
    }
  }

  lemma HeadIsBelow<K>(t: Lists<K>, x: K)
    requires Formed(t) && |t.key| > 1 && x in t.head && ExactAt(t, x) && t.key[|t.key| - 1] != Some(x)
    ensures t.head[x] < |t.key| - 1
  {
    ListingMembers(t.key, x, |t.key|);
    assert t.head[x] != 0 ==> t.head[x] in Chain(t.next, t.head[x]);
  }

  lemma NewestIsHead<K>(t: Lists<K>, k: K)
    requires Formed(t) && |t.key| > 1 && t.key[|t.key| - 1] == Some(k) && ExactAt(t, k)
    ensures t.head[k] == |t.key| - 1
  {
    assert Listing(t.key, k, |t.key|)[0] == |t.key| - 1;
  }

  lemma ChainShrinks(next: seq<nat>, h: nat)
    requires |next| > 1 && h < |next| - 1
    ensures Chain(next[..|next| - 1], h) == Chain(next, h)
  {
    var a := next[..|next| - 1];
    assert next == a + [next[|next| - 1]];
    ChainGrows(a, [next[|next| - 1]], h);
  }

  lemma NewKeyKeepsExact<K>(t: Lists<K>, k: K)
    requires Exact(t) && k !in t.head
    ensures Exact(NewKey(t, k))
  {
    var r := NewKey(t, k);
    ListingEmpty(t.key, k, |t.key|);
    forall x | x in r.head ensures ExactAt(r, x) {
      if x != k { assert ExactAt(t, x); }
    }
  }

  lemma DropKeyKeepsExact<K>(t: Lists<K>, k: K)
    requires Exact(t) && forall i :: 0 <= i < |t.key| ==> t.key[i] != Some(k)
    ensures Exact(DropKey(t, k))
  {
    var r := DropKey(t, k);
    forall x | x in r.head ensures ExactAt(r, x) { assert ExactAt(t, x); }
  }

  /** Freeing the row just pushed gives back every link and head. */
  lemma PopUndoesPush<K>(t: Lists<K>, k: K)
    requires |t.key| == |t.next| && k in t.head
    ensures Pop(Push(t, k)) == t
  {
    assert Push(t, k).key[..|t.key|] == t.key;
    assert Push(t, k).next[..|t.next|] == t.next;
    assert t.head[k := |t.key|][k := t.head[k]] == t.head;
  }
}
