/** Moving a row from one intrusive list to another, as fact revision does
  * (DeleteFromList and AddToList of functionExecute.cpp). */
module ThreadSurgery {
  import opened Threads

  ghost predicate Down(next: seq<nat>) {
    |next| >= 1 && next[0] == 0 && forall i :: 0 < i < |next| ==> next[i] < i
  }

  /** `s` without its first `f`. */
  function Without(s: seq<nat>, f: nat): seq<nat> {
    if s == [] then [] else if s[0] == f then s[1..] else [s[0]] + Without(s[1..], f)
  }

  /** `f` put before the first smaller element of `s`. */
  function InsertDown(s: seq<nat>, f: nat): seq<nat> {
    if s == [] || s[0] < f then [f] + s else [s[0]] + InsertDown(s[1..], f)
  }

  /** DeleteFromList, past its head: the row before `f` takes over the link of `f`. */
  function UnlinkAfter(next: seq<nat>, prior: nat, at: nat, f: nat): (r: seq<nat>)
    requires prior < |next|
    ensures |r| == |next|
    decreases at
  {
    if at == 0 || at >= |next| then next
    else if at == f then next[prior := next[f]]
    else if next[at] < at then UnlinkAfter(next, at, next[at], f)
    else next
  }

  /** DeleteFromList: the links and the head of the list without `f`. */
  function Unlink(next: seq<nat>, start: nat, f: nat): (r: (seq<nat>, nat))
    requires start < |next|
    ensures |r.0| == |next|
  {
    if start == f then (next, next[f])
    else if start == 0 then (next, 0)
    else (UnlinkAfter(next, start, next[start], f), start)
  }

  /** AddToList, past its head. When no row of the list is older than `f`, nothing is done. */
  function AttachAfter(next: seq<nat>, prior: nat, at: nat, f: nat): (r: seq<nat>)
    requires prior < |next| && f < |next|
    ensures |r| == |next|
    decreases at
  {
    if at == 0 || at >= |next| then next
    else if at < f then next[f := at][prior := f]
    else if next[at] < at then AttachAfter(next, at, next[at], f)
    else next
  }

  /** AddToList: the links and the head of the list after it was offered `f`. */
  function Attach(next: seq<nat>, start: nat, f: nat): (r: (seq<nat>, nat))
    requires start < |next| && f < |next|
    ensures |r.0| == |next|
  {
    if start < f then (next[f := start], f) else (AttachAfter(next, start, next[start], f), start)
  }

  /** The oldest entry of a non-empty list is older than `f`. */
  predicate HasOlder(list: seq<nat>, f: nat) { list != [] && list[|list| - 1] < f }

  /** AddToList takes `f` in: the list is empty, or its oldest entry is older than `f`. */
  predicate CanAttach(next: seq<nat>, start: nat, f: nat) {
    start == 0 || HasOlder(Chain(next, start), f)
  }

  /** Refiles row `f` from `a` to `b`: DeleteFromList, then AddToList. */
  function Refile<K(==)>(t: Lists<K>, f: nat, a: K, b: K): Lists<K>
    requires a in t.head && b in t.head && a != b && |t.key| == |t.next|
    requires t.head[a] < |t.next| && t.head[b] < |t.next| && f < |t.next|
  {
    var (next1, head1) := Unlink(t.next, t.head[a], f);
    var (next2, head2) := Attach(next1, t.head[b], f);
    Lists(t.key[f := Some(b)], next2, t.head[a := head1][b := head2])
  }

  // ----- DeleteFromList ------------------------------------------------------------

  lemma {:induction false} UnlinkAfterChain(next: seq<nat>, prior: nat, f: nat)
    requires Down(next) && 0 < prior < |next| && f != prior
    ensures var r := UnlinkAfter(next, prior, next[prior], f);
            && Down(r)
            && Chain(r, prior) == [prior] + Without(Chain(next, next[prior]), f)
            && forall i :: 0 <= i < |r| && i !in Chain(next, prior) ==> r[i] == next[i]
    decreases prior
  {
    var at := next[prior];
    var r := UnlinkAfter(next, prior, at, f);
    ChainIsBelow(next, at);
    if at != 0 {
      if at == f {
        ChainIsBelow(next, next[f]);
        ChainFrame(next, r, next[f]);
      } else {
        UnlinkAfterChain(next, at, f);
        assert r[prior] == at;
      }
    }
  }

  lemma UnlinkChain(next: seq<nat>, start: nat, f: nat)
    requires Down(next) && start < |next| && f != 0
    ensures var (r, h) := Unlink(next, start, f);
            && Down(r) && h < |r|
            && Chain(r, h) == Without(Chain(next, start), f)
            && forall i :: 0 <= i < |r| && i !in Chain(next, start) ==> r[i] == next[i]
  {
    if start != f && start != 0 { UnlinkAfterChain(next, start, f); }
  }

  // ----- AddToList -----------------------------------------------------------------

  lemma {:induction false} AttachAfterChain(next: seq<nat>, prior: nat, f: nat)
    requires Down(next) && 0 < f < prior < |next|
    requires f !in Chain(next, prior)
    ensures var r := AttachAfter(next, prior, next[prior], f);
            && Down(r)
            && (if HasOlder(Chain(next, next[prior]), f)
                then Chain(r, prior) == [prior] + InsertDown(Chain(next, next[prior]), f)
                else r == next)
            && forall i :: 0 <= i < |r| && i !in Chain(next, prior) && i != f ==> r[i] == next[i]
    decreases prior
  {
    var at := next[prior];
    if at != 0 {
      ChainUnfolds(next, prior);
      ChainUnfolds(next, at);
      if at < f {
        AttachHere(next, prior, f);
      } else {
        AttachAfterChain(next, at, f);
        OlderIsDeeper(next, at, f);
      }
    }
  }

  lemma ChainUnfolds(next: seq<nat>, h: nat)
    requires Down(next) && 0 < h < |next|
    ensures Chain(next, h) == [h] + Chain(next, next[h])
    ensures h !in Chain(next, next[h])
    ensures var c := Chain(next, h); c[|c| - 1] <= h
  {
    ChainIsBelow(next, h);
    ChainIsBelow(next, next[h]);
    assert Chain(next, h)[|Chain(next, h)| - 1] in Chain(next, h);
  }

  lemma AttachHere(next: seq<nat>, prior: nat, f: nat)
    requires Down(next) && f < prior < |next| && 0 < next[prior] < f
    requires HasOlder(Chain(next, next[prior]), f)
    ensures var r := next[f := next[prior]][prior := f];
            Down(r) && Chain(r, prior) == [prior] + InsertDown(Chain(next, next[prior]), f)
  {
    var at := next[prior];
    var r := next[f := at][prior := f];
    ChainIsBelow(next, at);
    ChainFrame(next, r, at);
    assert r[prior] == f && r[f] == at;
    assert Chain(r, f) == [f] + Chain(r, at);
  }

  /** Whether a list holds an older row than `f` is decided past any row newer than `f`. */
  lemma OlderIsDeeper(next: seq<nat>, at: nat, f: nat)
    requires Down(next) && f < at < |next|
    ensures HasOlder(Chain(next, at), f) <==> HasOlder(Chain(next, next[at]), f)
  {
    assert Chain(next, at) == [at] + Chain(next, next[at]);
  }

  lemma AttachChain(next: seq<nat>, start: nat, f: nat)
    requires Down(next) && start < |next| && 0 < f < |next|
    requires f !in Chain(next, start)
    ensures var (r, h) := Attach(next, start, f);
            && Down(r) && h < |r|
            && (if CanAttach(next, start, f)
                then Chain(r, h) == InsertDown(Chain(next, start), f)
                else r == next && h == start)
            && forall i :: 0 <= i < |r| && i !in Chain(next, start) && i != f ==> r[i] == next[i]
  {
    var (r, h) := Attach(next, start, f);
    ChainIsBelow(next, start);
    if start < f {
      if start != 0 { assert start in Chain(next, start); }
      ChainFrame(next, r, start);
    } else {
      assert start in Chain(next, start);
      AttachAfterChain(next, start, f);
      OlderIsDeeper(next, start, f);
    }
  }

  // ----- The listing moves the same way ---------------------------------------------

  lemma ListingStep<K>(key: seq<Option<K>>, k: K, n: nat)
    requires 0 < n <= |key|
    ensures key[n - 1] == Some(k) ==> Listing(key, k, n) == [n - 1] + Listing(key, k, n - 1)
    ensures key[n - 1] != Some(k) ==> Listing(key, k, n) == Listing(key, k, n - 1)
  {
  }

  lemma ConsEdits(x: nat, s: seq<nat>, f: nat)
    ensures x == f ==> Without([x] + s, f) == s
    ensures x != f ==> Without([x] + s, f) == [x] + Without(s, f)
    ensures x >= f ==> InsertDown([x] + s, f) == [x] + InsertDown(s, f)
  {
    assert ([x] + s)[1..] == s;
  }

  lemma {:induction false} ListingWithout<K>(key: seq<Option<K>>, f: nat, a: K, b: K, n: nat)
    requires f < n <= |key| && key[f] == Some(a) && a != b
    ensures Listing(key[f := Some(b)], a, n) == Without(Listing(key, a, n), f)
  {
    var now := key[f := Some(b)];
    ListingStep(key, a, n);
    ListingStep(now, a, n);
    if n - 1 == f {
      ListingFrame(key, now, a, f);
    } else {
      ListingWithout(key, f, a, b, n - 1);
    }
    ConsEdits(n - 1, Listing(key, a, n - 1), f);
  }

  lemma {:induction false} ListingInsert<K>(key: seq<Option<K>>, f: nat, b: K, n: nat)
    requires f < n <= |key| && key[f] != Some(b)
    ensures Listing(key[f := Some(b)], b, n) == InsertDown(Listing(key, b, n), f)
  {
    var now := key[f := Some(b)];
    ListingStep(key, b, n);
    ListingStep(now, b, n);
    if n - 1 == f {
      ListingFrame(key, now, b, f);
      ListingMembers(key, b, f);
      var rest := Listing(key, b, f);
      assert rest != [] ==> rest[0] in rest;
    } else {
      ListingInsert(key, f, b, n - 1);
    }
    ConsEdits(n - 1, Listing(key, b, n - 1), f);
  }

  // ----- The law under revision ------------------------------------------------------

  /** The three lists touched or not touched by moving row `f` from the list of `a` to that
    * of `b`, link by link. */
  ghost predicate Moved(next: seq<nat>, ha: nat, hb: nat, f: nat, r: seq<nat>, ra: nat, rb: nat) {
    && |r| == |next| && Down(r) && ra < |r| && rb < |r|
    && Chain(r, ra) == Without(Chain(next, ha), f)
    && Chain(r, rb) == (if CanAttach(next, hb, f) then InsertDown(Chain(next, hb), f) else Chain(next, hb))
    && forall i :: 0 <= i < |r| && i !in Chain(next, ha) && i !in Chain(next, hb) ==> r[i] == next[i]
  }

  lemma MoveEffect(next: seq<nat>, ha: nat, hb: nat, f: nat)
    requires Down(next) && ha < |next| && hb < |next| && 0 < f < |next|
    requires f in Chain(next, ha)
    requires forall i :: i in Chain(next, ha) ==> i !in Chain(next, hb)
    ensures var (next1, head1) := Unlink(next, ha, f);
            var (next2, head2) := Attach(next1, hb, f);
            Moved(next, ha, hb, f, next2, head1, head2)
  {
    var (next1, head1) := Unlink(next, ha, f);
    var (next2, head2) := Attach(next1, hb, f);
    ChainIsBelow(next, ha);
    ChainIsBelow(next, hb);
    UnlinkChain(next, ha, f);
    ChainFrame(next, next1, hb);
    AttachChain(next1, hb, f);
    WithoutMembers(Chain(next, ha), f);
    ChainIsBelow(next1, head1);
    ChainFrame(next1, next2, head1);
  }

  /** Refiling a row keeps the law of the arena exactly when AddToList takes the row in: when
    * the new list is empty or its oldest entry is older than the row. A row older than every
    * entry of a non-empty list is dropped from both lists. */
  lemma RefileKeepsExactIff<K>(t: Lists<K>, f: nat, a: K, b: K)
    requires Exact(t) && 0 < f < |t.key| && t.key[f] == Some(a) && a in t.head && b in t.head && a != b
    ensures t.head[a] < |t.next| && t.head[b] < |t.next|
    ensures Exact(Refile(t, f, a, b)) <==> CanAttach(t.next, t.head[b], f)
  {
    assert ExactAt(t, a) && ExactAt(t, b);
    ListIsExact(t, a);
    ListIsExact(t, b);
    MoveEffect(t.next, t.head[a], t.head[b], f);
    if CanAttach(t.next, t.head[b], f) {
      RefiledIsExact(t, f, a, b);
    } else {
      RefusedIsLost(t, f, a, b);
    }
  }

  lemma RefiledIsExact<K>(t: Lists<K>, f: nat, a: K, b: K)
    requires Exact(t) && 0 < f < |t.key| && t.key[f] == Some(a) && a in t.head && b in t.head && a != b
    requires t.head[a] < |t.next| && t.head[b] < |t.next| && CanAttach(t.next, t.head[b], f)
    requires var r := Refile(t, f, a, b);
             Moved(t.next, t.head[a], t.head[b], f, r.next, r.head[a], r.head[b])
    ensures Exact(Refile(t, f, a, b))
  {
    forall x | x in t.head
      ensures ExactAt(Refile(t, f, a, b), x)
    {
      RefiledList(t, f, a, b, x);
    }
    RefiledIsFormed(t, f, a, b);
  }

  lemma RefiledGoesDown<K>(t: Lists<K>, f: nat, a: K, b: K)
    requires Exact(t) && 0 < f < |t.key| && t.key[f] == Some(a) && a in t.head && b in t.head && a != b
    ensures t.head[a] < |t.next| && t.head[b] < |t.next| && Down(Refile(t, f, a, b).next)
  {
    assert ExactAt(t, a) && ExactAt(t, b);
    ListIsExact(t, a);
    ListIsExact(t, b);
    MoveEffect(t.next, t.head[a], t.head[b], f);
  }

  lemma RefiledIsFormed<K>(t: Lists<K>, f: nat, a: K, b: K)
    requires Formed(t) && 0 < f < |t.key| && a in t.head && b in t.head && a != b
    requires t.head[a] < |t.next| && t.head[b] < |t.next| && Down(Refile(t, f, a, b).next)
    ensures Formed(Refile(t, f, a, b)) && Refile(t, f, a, b).head.Keys == t.head.Keys
  {
  }

  lemma RefusedIsLost<K>(t: Lists<K>, f: nat, a: K, b: K)
    requires Exact(t) && 0 < f < |t.key| && t.key[f] == Some(a) && a in t.head && b in t.head && a != b
    requires t.head[a] < |t.next| && t.head[b] < |t.next| && !CanAttach(t.next, t.head[b], f)
    requires var r := Refile(t, f, a, b);
             Moved(t.next, t.head[a], t.head[b], f, r.next, r.head[a], r.head[b])
    ensures !ExactAt(Refile(t, f, a, b), b)
  {
    var r := Refile(t, f, a, b);
    ListIsExact(t, b);
    ListingMembers(r.key, b, |r.key|);
    assert f in Listing(r.key, b, |r.key|) && f !in Chain(t.next, t.head[b]);
  }

  lemma RefiledList<K>(t: Lists<K>, f: nat, a: K, b: K, x: K)
    requires Exact(t) && 0 < f < |t.key| && t.key[f] == Some(a) && a in t.head && b in t.head && a != b
    requires t.head[a] < |t.next| && t.head[b] < |t.next| && CanAttach(t.next, t.head[b], f)
    requires var r := Refile(t, f, a, b);
             Moved(t.next, t.head[a], t.head[b], f, r.next, r.head[a], r.head[b])
    requires x in t.head
    ensures ExactAt(Refile(t, f, a, b), x)
  {
    var r := Refile(t, f, a, b);
    assert ExactAt(t, x) && ExactAt(t, a) && ExactAt(t, b);
    if x == b {
      ListingInsert(t.key, f, b, |t.key|);
    } else if x == a {
      ListingWithout(t.key, f, a, b, |t.key|);
    } else {
      ListingFrame(t.key, r.key, x, |t.key|);
      ListIsExact(t, a);
      ListIsExact(t, b);
      ListIsExact(t, x);
      ChainFrame(t.next, r.next, t.head[x]);
    }
  }

  lemma {:induction false} WithoutMembers(s: seq<nat>, f: nat)
    requires forall i, j :: 0 <= i < j < |s| ==> s[i] > s[j]
    ensures forall i :: i in Without(s, f) <==> i in s && i != f
  {
    if s != [] && s[0] != f {
      assert forall i, j :: 0 <= i < j < |s[1..]| ==> s[1..][i] > s[1..][j];
      WithoutMembers(s[1..], f);
      assert s == [s[0]] + s[1..];
    } else if s != [] {
      assert s == [f] + s[1..];
    }
  }
}
