/** SetContains of infer.cpp: whether a word is in a concept, by a search up its live member and
  * is facts that marks the words it has been at. */
module Inference {
  import opened Threads
  import opened Facts
  import opened FactLaws

  /** The facts, the three verbs the search knows, and the concepts flagged HAS_EXCLUDE. */
  datatype Graph = Graph(net: Net, member: nat, isa: nat, exclude: nat, excluding: set<nat>) {
    function First(role: Role, w: nat): (r: nat)
      ensures r != 0 ==> net.Live(r)
    {
      net.NondeadHead(role, WordNode(w))
    }

    function Next(role: Role, g: nat): (r: nat)
      requires g < |net.At(role).next|
      ensures r != 0 ==> net.Live(r) && r < g
    {
      net.NondeadNext(role, g)
    }
  }

  const FACT_LIMIT: nat := 20000

  /** A live fact from the object list of a concept on excludes a marked word from it. */
  function BlockedFrom(k: Graph, g: nat, marks: set<nat>): bool
    requires k.net.Rows()
    decreases g
  {
    0 < g < |k.net.value| &&
    ((k.net.value[g].verb == k.exclude && Meaning2Word(k.net.value[g].subj) in marks) || BlockedFrom(k, k.Next(Object, g), marks))
  }

  function Blocked(k: Graph, concept: nat, marks: set<nat>): bool
    requires k.net.Rows()
  {
    concept in k.excluding && BlockedFrom(k, k.First(Object, concept), marks)
  }

  /** How many words are not marked yet. */
  ghost function Unmarked(marks: set<nat>): (n: int) { DICTIONARY_SIZE - |marks| }

  predicate Words(marks: set<nat>) { forall w :: w in marks ==> w < DICTIONARY_SIZE }

  lemma {:induction false} MarksFit(marks: set<nat>, n: nat)
    requires forall w :: w in marks ==> w < n
    ensures |marks| <= n
    decreases n
  {
    if n > 0 { MarksFit(marks - {n - 1}, n - 1); } else { assert marks == {}; }
  }

  lemma MarkOne(marks: set<nat>, w: nat)
    requires Words(marks) && w < DICTIONARY_SIZE && w !in marks
    ensures Words(marks + {w}) && 0 <= Unmarked(marks + {w}) < Unmarked(marks)
  {
    MarksFit(marks + {w}, DICTIONARY_SIZE);
  }

  lemma MoreMarks(a: set<nat>, b: set<nat>)
    requires a <= b && Words(b)
    ensures 0 <= Unmarked(b) <= Unmarked(a)
    ensures |a| == |b| ==> a == b
  {
    MarksFit(b, DICTIONARY_SIZE);
    assert b == a + (b - a);
  }

  /** The fact applies to the meaning `m` and leads up, unless what it leads to excludes it. */
  predicate Follows(k: Graph, m: nat, g: nat, marks: set<nat>)
    requires k.net.Rows() && g < |k.net.value|
  {
    var v := k.net.value[g];
    (Meaning2Index(m) == 0 || v.subj == m) && (v.verb == k.isa || (v.verb == k.member && !Blocked(k, Meaning2Word(v.obj), marks)))
  }

  /** SetContains1 from the meaning `m`, whose word is not marked; and the marks it leaves. */
  function Search(k: Graph, concept: nat, m: nat, marks: set<nat>): (r: (bool, set<nat>))
    requires k.net.Rows() && Words(marks) && Meaning2Word(m) !in marks
    ensures marks <= r.1 && Words(r.1)
    decreases Unmarked(marks), 1, 0
  {
    if m == 0 || concept == 0 then (false, marks)
    else
      MarkOne(marks, Meaning2Word(m));
      Scan(k, concept, m, k.First(Subject, Meaning2Word(m)), FACT_LIMIT, marks + {Meaning2Word(m)})
  }

  /** The loop of SetContains1 from the fact `g` on; `left` is its counter. */
  function Scan(k: Graph, concept: nat, m: nat, g: nat, left: nat, marks: set<nat>): (r: (bool, set<nat>))
    requires k.net.Rows() && Words(marks)
    ensures marks <= r.1 && Words(r.1)
    decreases Unmarked(marks), 2, g
  {
    if g == 0 || g >= |k.net.value| || left <= 1 then (false, marks)
    else
      var v := k.net.value[g];
      var follows := Follows(k, m, g, marks);
      if follows && v.obj == concept then (true, marks)
      else
        var up := if follows && Meaning2Word(v.obj) !in marks then Search(k, concept, v.obj, marks) else (false, marks);
        MoreMarks(marks, up.1);
        if up.0 then up else Scan(k, concept, m, k.Next(Subject, g), left - 1, up.1)
  }

  /** SetContains with a fresh mark. */
  function SetContains(k: Graph, concept: nat, m: nat): bool
    requires k.net.Rows()
  {
    Search(k, concept, m, {}).0
  }

  // ----- The live facts of a list ---------------------------------------------------------------

  lemma {:induction false} ChainFrom(next: seq<nat>, h: nat, g: nat)
    requires g in Chain(next, h)
    ensures forall i :: i in Chain(next, h) && i <= g ==> i in Chain(next, g)
    decreases h
  {
    ChainIsBelow(next, h);
    if h != g {
      assert Chain(next, h) == [h] + Chain(next, next[h]);
      ChainFrom(next, next[h], g);
    }
  }

  ghost predicate LiveUnder(s: Net, role: Role, node: Node, i: nat)
  {
    i < |s.value| && i < |s.flags| && s.Live(i) && s.KeyAt(role, i) == Some(node)
  }

  /** The first live fact of a list is the newest live fact filed there. */
  lemma HeadIsNewest(s: Net, role: Role, node: Node)
    requires Threaded(s)
    ensures var h := s.NondeadHead(role, node);
            && (h != 0 ==> LiveUnder(s, role, node, h))
            && forall i: nat :: LiveUnder(s, role, node, i) ==> h != 0 && i <= h
  {
    ThreadedShape(s);
    if node in s.At(role).head {
      ListAt(s, role, node);
      FirstLiveIsNext(s, role, s.At(role).head[node]);
      ChainIsBelow(s.At(role).next, s.NondeadHead(role, node));
    } else {
      NoList(s, role, node);
    }
  }

  lemma NoList(s: Net, role: Role, node: Node)
    requires Threaded(s) && node !in s.At(role).head
    ensures forall i: nat :: !LiveUnder(s, role, node, i)
  {
    assert Formed(s.View(role)) by { assert Exact(s.View(role)); }
    forall i: nat ensures !LiveUnder(s, role, node, i) {
      if i < |s.value| && i < |s.flags| { assert s.View(role).key[i] == s.KeyAt(role, i); }
    }
  }

  lemma ListAt(s: Net, role: Role, node: Node)
    requires Threaded(s) && node in s.At(role).head
    ensures s.Rows()
    ensures forall i :: i in Chain(s.At(role).next, s.At(role).head[node]) <==> 0 <= i < |s.flags| && s.KeyAt(role, i) == Some(node)
  {
    assert Exact(s.View(role));
    ListIsExact(s.View(role), node);
  }

  /** The live fact after `g` on its list is the newest live fact filed there that is older. */
  lemma NextIsNewest(s: Net, role: Role, node: Node, g: nat)
    requires Threaded(s) && LiveUnder(s, role, node, g)
    ensures g < |s.At(role).next|
    ensures var n := s.NondeadNext(role, g);
            && (n != 0 ==> LiveUnder(s, role, node, n) && n < g)
            && forall i: nat :: LiveUnder(s, role, node, i) && i < g ==> n != 0 && i <= n
  {
    ThreadedShape(s);
    KeyHasHead(s, role, node, g);
    ListAt(s, role, node);
    var next := s.At(role).next;
    var h := s.At(role).head[node];
    ChainFrom(next, h, g);
    ChainIsBelow(next, g);
    LinkIsLess(s, role, g);
    assert Chain(next, g) == [g] + Chain(next, next[g]);
    ChainInside(next, h, g);
    FirstLiveIsNext(s, role, next[g]);
    ChainIsBelow(next, s.NondeadNext(role, g));
  }

  lemma {:induction false} ChainInside(next: seq<nat>, h: nat, g: nat)
    requires g in Chain(next, h)
    ensures forall i :: i in Chain(next, g) ==> i in Chain(next, h)
    decreases h
  {
    ChainIsBelow(next, h);
    if h != g { ChainInside(next, next[h], g); }
  }

  lemma LinkIsLess(s: Net, role: Role, g: nat)
    requires Threaded(s) && 0 < g < |s.flags|
    ensures g < |s.At(role).next| && s.At(role).next[g] < g
  {
    assert Formed(s.View(role)) by { assert Exact(s.View(role)); }
  }

  lemma KeyHasHead(s: Net, role: Role, node: Node, g: nat)
    requires Threaded(s) && LiveUnder(s, role, node, g)
    ensures node in s.At(role).head
  {
    if node !in s.At(role).head { NoList(s, role, node); }
  }

  // ----- A true answer ----------------------------------------------------------------------------

  predicate Links(k: Graph, g: nat)
    requires g < |k.net.value|
  {
    k.net.value[g].verb == k.isa || k.net.value[g].verb == k.member
  }

  /** A live member or is fact that leads up from the meaning `m`: from its word, and from that very
    * meaning if `m` is not generic. */
  ghost predicate Step(k: Graph, m: nat, g: nat) {
    && m != 0 && LiveUnder(k.net, Subject, WordNode(Meaning2Word(m)), g)
    && Links(k, g) && (Meaning2Index(m) == 0 || k.net.value[g].subj == m)
  }

  /** A nonempty path of such facts from `m` to the concept. */
  ghost predicate Path(k: Graph, m: nat, p: seq<nat>, concept: nat)
    decreases |p|
  {
    && p != [] && Step(k, m, p[0])
    && if |p| == 1 then k.net.value[p[0]].obj == concept else Path(k, k.net.value[p[0]].obj, p[1..], concept)
  }

  // ----- What is excluded ---------------------------------------------------------------------------

  /** A live fact of a flagged concept excludes the word from it. */
  ghost predicate Excludes(k: Graph, concept: nat, w: nat) {
    && concept in k.excluding
    && exists e: nat :: LiveUnder(k.net, Object, WordNode(concept), e) && ExcludesBy(k, e, w)
  }

  predicate ExcludesBy(k: Graph, e: nat, w: nat) {
    e < |k.net.value| && k.net.value[e].verb == k.exclude && k.net.value[e].subj % 0x100000 == w
  }

  lemma {:induction false} BlockedFromIff(k: Graph, concept: nat, g: nat, marks: set<nat>)
    requires Threaded(k.net) && k.net.Rows() && (g == 0 || LiveUnder(k.net, Object, WordNode(concept), g))
    ensures BlockedFrom(k, g, marks) <==>
            exists e: nat, w :: w in marks && e <= g && LiveUnder(k.net, Object, WordNode(concept), e) && ExcludesBy(k, e, w)
    decreases g
  {
    hide Threaded, LiveUnder;
    if g == 0 {
      NullIsNotLive(k.net, Object, WordNode(concept));
    } else {
      RowIsLive(k.net, Object, WordNode(concept), g);
      NextIsNewest(k.net, Object, WordNode(concept), g);
      BlockedFromIff(k, concept, k.Next(Object, g), marks);
      var w := Meaning2Word(k.net.value[g].subj);
      if w in marks && k.net.value[g].verb == k.exclude { assert ExcludesBy(k, g, w); }
    }
  }

  lemma NullIsNotLive(s: Net, role: Role, node: Node)
    ensures !LiveUnder(s, role, node, 0)
  {
  }

  lemma RowIsLive(s: Net, role: Role, node: Node, g: nat)
    requires LiveUnder(s, role, node, g)
    ensures 0 < g < |s.value|
  {
  }

  /** The search is kept from a concept if and only if that concept excludes a word marked. */
  lemma BlockedIff(k: Graph, concept: nat, marks: set<nat>)
    requires Threaded(k.net) && k.net.Rows()
    ensures Blocked(k, concept, marks) <==> exists w :: w in marks && Excludes(k, concept, w)
  {
    hide Threaded, LiveUnder, BlockedFrom, ExcludesBy;
    HeadIsNewest(k.net, Object, WordNode(concept));
    BlockedFromIff(k, concept, k.First(Object, concept), marks);
    if e: nat, w :| w in marks && LiveUnder(k.net, Object, WordNode(concept), e) && ExcludesBy(k, e, w) {
      if concept in k.excluding { assert Excludes(k, concept, w); }
    }
  }

  /** A path to the concept on which no member fact leads into a concept that excludes a word of the path
    * up to there; `seen` are the words before `m`. */
  ghost predicate CleanPath(k: Graph, m: nat, p: seq<nat>, concept: nat, seen: set<nat>)
    decreases |p|
  {
    && p != [] && Step(k, m, p[0])
    && var v := k.net.value[p[0]]; var words := seen + {m % 0x100000};
       && (v.verb == k.isa || forall w :: w in words ==> !Excludes(k, v.obj % 0x100000, w))
       && if |p| == 1 then v.obj == concept else CleanPath(k, v.obj, p[1..], concept, words)
  }

  lemma CleanGrows(k: Graph, m: nat, g: nat, p: seq<nat>, concept: nat, seen: set<nat>, marks: set<nat>)
    requires Threaded(k.net) && k.net.Rows() && Step(k, m, g) && Follows(k, m, g, marks) && seen + {Meaning2Word(m)} <= marks
    requires (k.net.value[g].obj == concept && p == []) || CleanPath(k, k.net.value[g].obj, p, concept, seen + {Meaning2Word(m)})
    ensures CleanPath(k, m, [g] + p, concept, seen)
  {
    hide Threaded, LiveUnder, Excludes, Blocked, Links;
    StepIsRow(k, m, g);
    BlockedIff(k, Meaning2Word(k.net.value[g].obj), marks);
    assert ([g] + p)[1..] == p;
  }

  lemma {:induction false} CleanIsPath(k: Graph, m: nat, p: seq<nat>, concept: nat, seen: set<nat>)
    requires CleanPath(k, m, p, concept, seen)
    ensures Path(k, m, p, concept)
    decreases |p|
  {
    hide Excludes;
    if |p| > 1 { CleanIsPath(k, k.net.value[p[0]].obj, p[1..], concept, seen + {m % 0x100000}); }
  }

  /** A true inner answer comes with its path; `seen` are words marked. */
  lemma {:induction false} SearchIsSound(k: Graph, concept: nat, m: nat, seen: set<nat>, marks: set<nat>) returns (p: seq<nat>)
    requires Threaded(k.net) && k.net.Rows() && Words(marks) && Meaning2Word(m) !in marks && seen <= marks
    ensures Search(k, concept, m, marks).0 ==> CleanPath(k, m, p, concept, seen)
    decreases Unmarked(marks), 1, 0
  {
    hide Threaded, LiveUnder, CleanPath;
    p := [];
    if m != 0 && concept != 0 {
      MarkOne(marks, Meaning2Word(m));
      HeadIsNewest(k.net, Subject, WordNode(Meaning2Word(m)));
      p := ScanIsSound(k, concept, m, k.First(Subject, Meaning2Word(m)), FACT_LIMIT, seen, marks + {Meaning2Word(m)});
    }
  }

  lemma {:induction false} ScanIsSound(k: Graph, concept: nat, m: nat, g: nat, left: nat, seen: set<nat>, marks: set<nat>) returns (p: seq<nat>)
    requires Threaded(k.net) && k.net.Rows() && Words(marks) && m != 0 && seen + {Meaning2Word(m)} <= marks
    requires g == 0 || LiveUnder(k.net, Subject, WordNode(Meaning2Word(m)), g)
    ensures Scan(k, concept, m, g, left, marks).0 ==> CleanPath(k, m, p, concept, seen)
    decreases Unmarked(marks), 2, g
  {
    hide Threaded, Blocked, Search, LiveUnder, CleanPath;
    p := [];
    if !(g == 0 || g >= |k.net.value| || left <= 1) {
      var v := k.net.value[g];
      var follows := Follows(k, m, g, marks);
      if follows && v.obj == concept {
        CleanGrows(k, m, g, [], concept, seen, marks);
        p := [g] + [];
      } else {
        var up := if follows && Meaning2Word(v.obj) !in marks then Search(k, concept, v.obj, marks) else (false, marks);
        MoreMarks(marks, up.1);
        if up.0 {
          var q := SearchIsSound(k, concept, v.obj, seen + {Meaning2Word(m)}, marks);
          CleanGrows(k, m, g, q, concept, seen, marks);
          p := [g] + q;
        } else {
          NextIsNewest(k.net, Subject, WordNode(Meaning2Word(m)), g);
          p := ScanIsSound(k, concept, m, k.Next(Subject, g), left - 1, seen, up.1);
        }
      }
    }
  }

  // ----- A false answer ---------------------------------------------------------------------------

  /** Every live link up from the word misses the concept and ends at a marked word. */
  ghost predicate Closed(k: Graph, concept: nat, w: nat, top: nat, marks: set<nat>) {
    forall i: nat :: i <= top && LiveUnder(k.net, Subject, WordNode(w), i) && Links(k, i) ==>
      k.net.value[i].obj != concept && Meaning2Word(k.net.value[i].obj) in marks
  }

  ghost predicate AllClosed(k: Graph, concept: nat, words: set<nat>, marks: set<nat>) {
    forall w :: w in words ==> Closed(k, concept, w, |k.net.value|, marks)
  }

  ghost function LiveSet(k: Graph, w: nat, top: nat): set<nat> {
    set i: nat | i <= top && LiveUnder(k.net, Subject, WordNode(w), i)
  }

  predicate IsGeneric(m: nat) { 0 < m < DICTIONARY_SIZE }

  /** The word is that of the meaning, or of one a path leads to. */
  ghost predicate Reaches(k: Graph, m: nat, w: nat) { w == m % 0x100000 || exists p, x: nat :: PathTo(k, m, p, x, w) }

  ghost predicate PathTo(k: Graph, m: nat, p: seq<nat>, x: nat, w: nat) { Path(k, m, p, x) && x % 0x100000 == w }

  /** Only generic meanings are linked, no concept excludes a word reached from `m`, and no word has too many
    * facts. */
  ghost predicate Plain(k: Graph, m: nat) {
    && (forall i: nat :: 0 < i < |k.net.value| && Links(k, i) ==> IsGeneric(k.net.value[i].obj))
    && (forall concept, w :: Reaches(k, m, w) ==> !Excludes(k, concept, w))
    && forall w :: |LiveSet(k, w, |k.net.value|)| < 20000
  }

  lemma {:induction false} PathExtends(k: Graph, m: nat, p: seq<nat>, x: nat, g: nat)
    requires Path(k, m, p, x) && Step(k, x, g)
    ensures g < |k.net.value| && Path(k, m, p + [g], k.net.value[g].obj)
    decreases |p|
  {
    hide LiveUnder, Links;
    StepIsRow(k, x, g);
    StepIsRow(k, m, p[0]);
    assert (p + [g])[0] == p[0] && (p + [g])[1..] == p[1..] + [g];
    if |p| == 1 {
      assert (p + [g])[1..] == [g] && [g][1..] == [];
    } else {
      PathExtends(k, k.net.value[p[0]].obj, p[1..], x, g);
    }
  }

  lemma StepIsRow(k: Graph, m: nat, g: nat)
    requires Step(k, m, g)
    ensures g < |k.net.value|
  {
  }

  /** What a step from a word reached leads to is reached. */
  lemma ReachesOn(k: Graph, m0: nat, m: nat, g: nat)
    requires Plain(k, m0) && IsGeneric(m0) && IsGeneric(m) && Reaches(k, m0, m) && Step(k, m, g)
    ensures g < |k.net.value| && Reaches(k, m0, Meaning2Word(k.net.value[g].obj))
  {
    hide Step, LiveSet, Excludes, Path;
    StepIsRow(k, m, g);
    var y := k.net.value[g].obj;
    if m == m0 {
      OneStep(k, m, g);
      assert PathTo(k, m0, [g], y, Meaning2Word(y));
    } else {
      var p, x: nat :| PathTo(k, m0, p, x, m);
      PathEndsGeneric(k, m0, m0, p, x);
      PathExtends(k, m0, p, x, g);
      assert PathTo(k, m0, p + [g], y, Meaning2Word(y));
    }
  }

  lemma OneStep(k: Graph, m: nat, g: nat)
    requires Step(k, m, g)
    ensures g < |k.net.value| && Path(k, m, [g], k.net.value[g].obj)
  {
  }

  lemma {:induction false} PathEndsGeneric(k: Graph, m0: nat, m: nat, p: seq<nat>, x: nat)
    requires Plain(k, m0) && Path(k, m, p, x)
    ensures IsGeneric(x)
    decreases |p|
  {
    hide LiveSet, Reaches, Excludes;
    if |p| > 1 { PathEndsGeneric(k, m0, k.net.value[p[0]].obj, p[1..], x); }
  }

  ghost predicate AllReached(k: Graph, m0: nat, marks: set<nat>) { forall w :: w in marks ==> Reaches(k, m0, w) }

  lemma ClosedStays(k: Graph, concept: nat, words: set<nat>, a: set<nat>, b: set<nat>)
    requires AllClosed(k, concept, words, a) && a <= b
    ensures AllClosed(k, concept, words, b)
  {
    forall w | w in words ensures Closed(k, concept, w, |k.net.value|, b) { assert Closed(k, concept, w, |k.net.value|, a); }
  }

  lemma FewerLive(k: Graph, w: nat, g: nat, n: nat)
    requires LiveUnder(k.net, Subject, WordNode(w), g) && n < g
    requires forall i: nat :: LiveUnder(k.net, Subject, WordNode(w), i) && i < g ==> i <= n
    ensures |LiveSet(k, w, g)| == |LiveSet(k, w, n)| + 1
    ensures LiveSet(k, w, g) == LiveSet(k, w, n) + {g}
  {
    hide LiveUnder;
    assert LiveSet(k, w, g) == LiveSet(k, w, n) + {g};
    assert g !in LiveSet(k, w, n);
  }

  /** The search from a meaning reached, all marked words reached, if it fails: it marks reached words, and
    * leads from them to marked words only. */
  lemma {:induction false} SearchIsComplete(k: Graph, concept: nat, m0: nat, m: nat, marks: set<nat>)
    requires Threaded(k.net) && k.net.Rows() && Words(marks) && Meaning2Word(m) !in marks
    requires Plain(k, m0) && IsGeneric(m0) && IsGeneric(m) && IsGeneric(concept) && !Search(k, concept, m, marks).0
    requires AllReached(k, m0, marks) && Reaches(k, m0, m)
    ensures var r := Search(k, concept, m, marks).1; m in r && AllClosed(k, concept, r - marks, r) && AllReached(k, m0, r)
    decreases Unmarked(marks), 1, 0
  {
    hide Threaded, Plain, LiveUnder, Scan, Closed, Reaches;
    var w := Meaning2Word(m);
    assert w == m && Meaning2Index(m) == 0;
    MarkOne(marks, w);
    HeadIsNewest(k.net, Subject, WordNode(w));
    var h := k.First(Subject, w);
    FewEnough(k, m0, w, h);
    ScanIsComplete(k, concept, m0, m, h, FACT_LIMIT, marks + {w});
    var r := Search(k, concept, m, marks).1;
    HeadCloses(k, concept, w, h, r);
    assert r - marks == (r - (marks + {w})) + {w};
  }

  lemma HeadCloses(k: Graph, concept: nat, w: nat, h: nat, marks: set<nat>)
    requires Closed(k, concept, w, h, marks) && forall i: nat :: LiveUnder(k.net, Subject, WordNode(w), i) ==> h != 0 && i <= h
    ensures Closed(k, concept, w, |k.net.value|, marks)
  {
    hide LiveUnder;
  }

  lemma FewEnough(k: Graph, m0: nat, w: nat, h: nat)
    requires Plain(k, m0) && (h != 0 ==> LiveUnder(k.net, Subject, WordNode(w), h))
    ensures |LiveSet(k, w, h)| < FACT_LIMIT
  {
    hide Links, Reaches, Excludes;
    var all := LiveSet(k, w, |k.net.value|);
    assert |all| < FACT_LIMIT;
    var some := LiveSet(k, w, h);
    assert some <= all;
    assert all == some + (all - some);
  }

  lemma NoneLive(k: Graph, concept: nat, w: nat, marks: set<nat>)
    ensures Closed(k, concept, w, 0, marks)
  {
  }

  lemma {:induction false} ScanIsComplete(k: Graph, concept: nat, m0: nat, m: nat, g: nat, left: nat, marks: set<nat>)
    requires Threaded(k.net) && k.net.Rows() && Words(marks)
    requires Plain(k, m0) && IsGeneric(m0) && IsGeneric(m) && IsGeneric(concept) && !Scan(k, concept, m, g, left, marks).0
    requires AllReached(k, m0, marks) && Reaches(k, m0, m)
    requires g == 0 || LiveUnder(k.net, Subject, WordNode(m), g)
    requires |LiveSet(k, m, g)| < left
    ensures var r := Scan(k, concept, m, g, left, marks).1;
            Closed(k, concept, m, g, r) && AllClosed(k, concept, r - marks, r) && AllReached(k, m0, r)
    decreases Unmarked(marks), 2, g
  {
    hide Threaded, Plain, LiveUnder, Search, Follows, Closed, Reaches, Links;
    if g == 0 {
      NoneLive(k, concept, m, marks);
    } else {
      NextIsNewest(k.net, Subject, WordNode(m), g);
      InValue(k, m, g);
      var n := k.Next(Subject, g);
      FewerLive(k, m, g, n);
      var v := k.net.value[g];
      FollowsLinks(k, m0, m, g, marks);
      var up := if Links(k, g) && Meaning2Word(v.obj) !in marks then Search(k, concept, v.obj, marks) else (false, marks);
      MoreMarks(marks, up.1);
      if Links(k, g) && Meaning2Word(v.obj) !in marks {
        GenericObject(k, m0, g);
        SearchIsComplete(k, concept, m0, v.obj, marks);
      }
      ScanIsComplete(k, concept, m0, m, n, left - 1, up.1);
      var r := Scan(k, concept, m, g, left, marks).1;
      assert r == Scan(k, concept, m, n, left - 1, up.1).1;
      ClosedStays(k, concept, up.1 - marks, up.1, r);
      NextCloses(k, concept, m, g, n, r);
      assert r - marks == (r - up.1) + (up.1 - marks);
    }
  }

  lemma InValue(k: Graph, m: nat, g: nat)
    requires LiveUnder(k.net, Subject, WordNode(m), g)
    ensures 0 < g < |k.net.value|
  {
  }

  /** Where no concept excludes a word marked, every link is followed. */
  lemma FollowsLinks(k: Graph, m0: nat, m: nat, g: nat, marks: set<nat>)
    requires Threaded(k.net) && k.net.Rows() && Plain(k, m0) && IsGeneric(m0) && AllReached(k, m0, marks)
    requires IsGeneric(m) && Reaches(k, m0, m) && LiveUnder(k.net, Subject, WordNode(m), g)
    ensures g < |k.net.value|
    ensures Follows(k, m, g, marks) <==> Links(k, g)
    ensures Links(k, g) ==> Reaches(k, m0, Meaning2Word(k.net.value[g].obj))
  {
    hide Threaded, LiveSet, Excludes, Blocked, Reaches, LiveUnder;
    InValue(k, m, g);
    BlockedIff(k, Meaning2Word(k.net.value[g].obj), marks);
    if Links(k, g) {
      assert Meaning2Word(m) == m && Meaning2Index(m) == 0;
      ReachesOn(k, m0, m, g);
    }
  }

  lemma GenericObject(k: Graph, m0: nat, g: nat)
    requires Plain(k, m0) && 0 < g < |k.net.value| && Links(k, g)
    ensures IsGeneric(k.net.value[g].obj) && Meaning2Word(k.net.value[g].obj) == k.net.value[g].obj
  {
  }

  lemma NextCloses(k: Graph, concept: nat, m: nat, g: nat, n: nat, marks: set<nat>)
    requires 0 < g < |k.net.value| && Closed(k, concept, m, n, marks)
    requires forall i: nat :: LiveUnder(k.net, Subject, WordNode(m), i) && i < g ==> n != 0 && i <= n
    requires Links(k, g) ==> k.net.value[g].obj != concept && Meaning2Word(k.net.value[g].obj) in marks
    ensures Closed(k, concept, m, g, marks)
  {
    hide LiveUnder;
  }

  lemma {:induction false} ClosedHasNoPath(k: Graph, concept: nat, m0: nat, m: nat, p: seq<nat>, marks: set<nat>)
    requires Plain(k, m0) && IsGeneric(m) && m in marks && AllClosed(k, concept, marks, marks)
    ensures !Path(k, m, p, concept)
    decreases |p|
  {
    hide LiveSet, Excludes, Reaches;
    if p != [] && Step(k, m, p[0]) {
      assert Closed(k, concept, m, |k.net.value|, marks);
      GenericObject(k, m0, p[0]);
      if |p| > 1 { ClosedHasNoPath(k, concept, m0, k.net.value[p[0]].obj, p[1..], marks); }
    }
  }

  /** A true answer means that a path of live member and is facts leads from the meaning to the
    * concept. Where only generic meanings are linked, no concept excludes a word reached from the
    * meaning, and no word has 20000 live facts, the answer is true if and only if there is such a
    * path, cycles or no cycles. */
  lemma SetContainsIsReachability(k: Graph, concept: nat, m: nat)
    requires Threaded(k.net) && k.net.Rows()
    ensures SetContains(k, concept, m) ==> exists p :: Path(k, m, p, concept)
    ensures Plain(k, m) && IsGeneric(m) && IsGeneric(concept) ==> (SetContains(k, concept, m) <==> exists p :: Path(k, m, p, concept))
  {
    hide Threaded, Path, Search, Plain, CleanPath, Reaches;
    var path := SearchIsSound(k, concept, m, {}, {});
    if SetContains(k, concept, m) { CleanIsPath(k, m, path, concept, {}); }
    if Plain(k, m) && IsGeneric(m) && IsGeneric(concept) && !SetContains(k, concept, m) {
      ReachesItself(k, m);
      SearchIsComplete(k, concept, m, m, {});
      var r := Search(k, concept, m, {}).1;
      assert r - {} == r;
      forall p ensures !Path(k, m, p, concept) { ClosedHasNoPath(k, concept, m, m, p, r); }
    }
  }

  lemma ReachesItself(k: Graph, m: nat)
    ensures Reaches(k, m, Meaning2Word(m))
  {
  }

  /** A true answer comes with a path to the concept on which no member fact leads into a concept that
    * excludes a word of the path up to there. */
  lemma ContainedIsClean(k: Graph, concept: nat, m: nat) returns (p: seq<nat>)
    requires Threaded(k.net) && k.net.Rows() && SetContains(k, concept, m)
    ensures CleanPath(k, m, p, concept, {})
  {
    hide Threaded, CleanPath, Search;
    p := SearchIsSound(k, concept, m, {}, {});
  }

  /** The first member fact of the path leads into a concept that excludes the word `w`. */
  ghost predicate EntersExcluded(k: Graph, p: seq<nat>, w: nat)
    decreases |p|
  {
    && p != [] && p[0] < |k.net.value|
    && var v := k.net.value[p[0]];
       if v.verb == k.isa then EntersExcluded(k, p[1..], w) else Excludes(k, v.obj % 0x100000, w)
  }

  lemma {:induction false} CleanEntersNone(k: Graph, m: nat, p: seq<nat>, concept: nat, seen: set<nat>, w: nat)
    requires CleanPath(k, m, p, concept, seen) && w in seen + {m % 0x100000}
    ensures !EntersExcluded(k, p, w)
    decreases |p|
  {
    hide Excludes, Step;
    StepIsRow(k, m, p[0]);
    if |p| > 1 {
      CleanEntersNone(k, k.net.value[p[0]].obj, p[1..], concept, seen + {m % 0x100000}, w);
    }
  }

  /** Where the first member fact of every path to the concept enters a concept that excludes the word of
    * the meaning, the answer is false. */
  lemma ExcludedIsFalse(k: Graph, concept: nat, m: nat)
    requires Threaded(k.net) && k.net.Rows()
    requires forall p: seq<nat> :: Path(k, m, p, concept) ==> EntersExcluded(k, p, m % 0x100000)
    ensures !SetContains(k, concept, m)
  {
    hide Threaded, CleanPath, Search, EntersExcluded, Path;
    if SetContains(k, concept, m) {
      var p := ContainedIsClean(k, concept, m);
      CleanIsPath(k, m, p, concept, {});
      CleanEntersNone(k, m, p, concept, {}, m % 0x100000);
    }
  }

  // ----- The search as the program runs it ----------------------------------------------------------

  /** The words with their inferMark. */
  class Searcher {
    const graph: Graph
    const mark: array<nat>
    var inferMark: nat

    ghost predicate Valid()
      reads this, mark
    {
      mark.Length == DICTIONARY_SIZE && graph.net.Rows() && forall w :: 0 <= w < mark.Length ==> mark[w] <= inferMark
    }

    ghost function Marks(): (r: set<nat>)
      reads this, mark
    {
      set w: nat | w < mark.Length && mark[w] == inferMark
    }

    constructor (graph: Graph)
      requires graph.net.Rows()
      ensures Valid() && this.graph == graph && fresh(mark)
    {
      this.graph := graph;
      mark := new nat[DICTIONARY_SIZE](_ => 0);
      inferMark := 0;
    }

    /** NextInferMark: from now on no word is marked. */
    method NextInferMark()
      requires Valid()
      modifies this`inferMark
      ensures Valid() && Marks() == {}
    {
      inferMark := inferMark + 1;
    }

    method Mark(w: nat)
      requires Valid() && w < DICTIONARY_SIZE
      modifies mark
      ensures Valid() && Marks() == old(Marks()) + {w}
    {
      mark[w] := inferMark;
    }

    lemma MarksAreWords()
      requires Valid()
      ensures Words(Marks())
    {
    }

    method SetContains1(concept: nat, m: nat) returns (found: bool)
      requires Valid() && Meaning2Word(m) !in Marks()
      modifies mark
      ensures Valid() && Words(old(Marks())) && (found, Marks()) == Search(graph, concept, m, old(Marks()))
      decreases Unmarked(Marks())
    {
      hide Valid, Follows, Scan, Words, Marks;
      ghost var before := Marks();
      MarksAreWords();
      Shape();
      if m == 0 || concept == 0 { return false; }
      MarkOne(before, Meaning2Word(m));
      Mark(Meaning2Word(m));
      var g: nat := graph.First(Subject, Meaning2Word(m));
      var counter: nat := FACT_LIMIT;
      while g != 0
        invariant Valid() && before + {Meaning2Word(m)} <= Marks() && Words(Marks()) && counter > 0 && g < |graph.net.value|
        invariant Scan(graph, concept, m, g, counter, Marks()) == Search(graph, concept, m, before)
        decreases g
      {
        ScanStep(graph, concept, m, g, counter, Marks());
        MoreMarks(before + {Meaning2Word(m)}, Marks());
        counter := counter - 1;
        if counter == 0 { break; }
        var v := graph.net.value[g];
        var follows := FollowsNow(m, g);
        if follows {
          if v.obj == concept { return true; }
          IsMarked(Meaning2Word(v.obj));
          if mark[Meaning2Word(v.obj)] != inferMark {
            found := SetContains1(concept, v.obj);
            if found { return; }
            MarksAreWords();
          }
        }
        g := graph.Next(Subject, g);
      }
      if g == 0 { ScanEnds(graph, concept, m, counter, Marks()); }
      found := false;
    }

    /** The tests of the loop, with the walk over what the concept excludes. */
    method FollowsNow(m: nat, g: nat) returns (follows: bool)
      requires Valid() && graph.net.Rows() && g < |graph.net.value|
      ensures follows == Follows(graph, m, g, Marks())
    {
      var v := graph.net.value[g];
      if Meaning2Index(m) != 0 && v.subj != m { return false; }
      if v.verb == graph.isa { return true; }
      if v.verb != graph.member { return false; }
      var concept := Meaning2Word(v.obj);
      if concept !in graph.excluding { return true; }
      var e: nat := graph.First(Object, concept);
      while e != 0
        invariant e < |graph.net.value|
        invariant BlockedFrom(graph, e, Marks()) == Blocked(graph, concept, Marks())
        decreases e
      {
        var x := graph.net.value[e];
        if x.verb == graph.exclude && mark[Meaning2Word(x.subj)] == inferMark { return false; }
        e := graph.Next(Object, e);
      }
      follows := true;
    }

    lemma Shape()
      requires Valid()
      ensures mark.Length == DICTIONARY_SIZE && graph.net.Rows()
    {
    }

    lemma IsMarked(w: nat)
      requires Valid() && w < DICTIONARY_SIZE
      ensures w < mark.Length && (mark[w] == inferMark <==> w in Marks())
    {
    }

    /** SetContains after NextInferMark. */
    method Contains(concept: nat, m: nat) returns (found: bool)
      requires Valid()
      modifies this`inferMark, mark
      ensures Valid() && found == SetContains(graph, concept, m)
    {
      NextInferMark();
      found := SetContains1(concept, m);
    }
  }

  lemma ScanStep(k: Graph, concept: nat, m: nat, g: nat, left: nat, marks: set<nat>)
    requires k.net.Rows() && Words(marks) && 0 < g < |k.net.value|
    ensures var v := k.net.value[g]; var follows := Follows(k, m, g, marks);
            && (left <= 1 ==> Scan(k, concept, m, g, left, marks) == (false, marks))
            && (left > 1 && follows && v.obj == concept ==> Scan(k, concept, m, g, left, marks) == (true, marks))
            && (left > 1 && !(follows && v.obj == concept) ==>
                  var up := if follows && Meaning2Word(v.obj) !in marks then Search(k, concept, v.obj, marks) else (false, marks);
                  && marks <= up.1 && Words(up.1)
                  && Scan(k, concept, m, g, left, marks) == if up.0 then up else Scan(k, concept, m, k.Next(Subject, g), left - 1, up.1))
  {
    hide Search, Follows;
  }

  lemma ScanEnds(k: Graph, concept: nat, m: nat, left: nat, marks: set<nat>)
    requires k.net.Rows() && Words(marks)
    ensures Scan(k, concept, m, 0, left, marks) == (false, marks)
  {
  }
}
