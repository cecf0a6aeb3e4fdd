/** What a query answers, told by the fields of the facts and the queue: each answer is a hit on the list of a
  * queued item or beyond one, and unless the limit stops the query every hit is an answer. */
module QueryAnswers {
  import opened Threads
  import opened Facts
  import opened FactLaws
  import opened Inference
  import opened Query

  /** The field by which a query walks, and whether a fact of it is named by it. */
  function Walked(k: Setup, v: Triple, refs: set<Role>): (nat, bool) {
    if k.offset == 0 then (v.subj, Subject in refs) else if k.offset == 1 then (v.verb, Verb in refs) else (v.obj, Object in refs)
  }

  /** A live fact on the list of an item, which is a meaning or a fact; with offset 3 the item is itself the
    * fact. */
  ghost predicate OnList(k: Setup, item: nat, g: nat) {
    var s := k.graph.net;
    && 0 < g < |s.flags| && g < |s.value| && !s.flags[g].dead
    && if k.overFacts && k.offset >= 3 then g == item
       else
         && s.value[g].subj != 0
         && var (field, isFact) := Walked(k, s.value[g], s.flags[g].refs);
            if k.overFacts then isFact && field == item else !isFact && field % 0x100000 == item % 0x100000
  }

  /** A fact of the kind asked for, about the very meaning of the item if that is not generic, whose other
    * side is not to be ignored, and which is not about a topic if that is not wanted. */
  ghost predicate Wanted(k: Setup, item: nat, g: nat) {
    var s := k.graph.net;
    && g < |s.value| && g < |s.flags|
    && (k.user ==> g > k.locked) && (k.system ==> g <= k.locked)
    && var v := s.value[g];
       && (!k.overFacts && (item / 0x100000) % 64 != 0 ==>
             (if k.offset == 1 then v.verb else if k.offset == 2 then v.obj else v.subj) % 0x4000000 == item)
       && (if k.offset == 2 then v.subj else v.obj) % 0x100000 !in k.ignored
       && (k.noTopic && Object !in s.flags[g].refs ==> v.obj % 0x100000 !in k.topics)
  }

  lemma SmallWord(m: nat)
    ensures (m % 0x4000000) % 0x100000 == m % 0x100000
  {
  }

  lemma PassesIffWanted(k: Setup, item: nat, g: nat)
    requires k.Net().Rows() && g < |k.Net().value|
    ensures Passes(k, item, g) <==> k.Net().Live(g) && Wanted(k, item, g)
  {
    SmallWord(k.Net().value[g].subj);
    SmallWord(k.Net().value[g].obj);
  }

  // ----- The walk -------------------------------------------------------------------------------

  /** Where the walk over the list of an item may be. */
  ghost predicate InWalk(k: Setup, item: nat, g: nat) {
    g == 0 || g >= |k.graph.net.value| || OnList(k, item, g) || (k.overFacts && k.offset >= 3 && g == item)
  }

  ghost predicate ByLists(k: Setup) { !(k.overFacts && k.offset >= 3) }

  function ItemNode(k: Setup, item: nat): Node { if k.overFacts then FactNode(item) else WordNode(item % 0x100000) }

  lemma OnListIsUnder(k: Setup, item: nat, g: nat)
    requires k.graph.net.Rows() && ByLists(k)
    ensures OnList(k, item, g) <==> LiveUnder(k.graph.net, RoleOf(k.offset), ItemNode(k, item), g)
  {
  }

  /** The walk starts at the newest fact of the list. */
  lemma StartInWalk(k: Setup, item: nat)
    requires Threaded(k.graph.net)
    ensures k.graph.net.Rows() && var h := Start(k, item);
            InWalk(k, item, h) && (ByLists(k) ==> forall i: nat :: OnList(k, item, i) ==> h != 0 && i <= h)
  {
    hide Threaded, OnList;
    ThreadedShape(k.graph.net);
    if ByLists(k) {
      var h := Start(k, item);
      HeadIsNewest(k.graph.net, RoleOf(k.offset), ItemNode(k, item));
      OnListIsUnder(k, item, h);
      forall i: nat | OnList(k, item, i)
        ensures h != 0 && i <= h
      {
        OnListIsUnder(k, item, i);
      }
    }
  }

  /** The walk goes on to the next older fact of the list. */
  lemma NextInWalk(k: Setup, item: nat, g: nat)
    requires Threaded(k.graph.net) && InWalk(k, item, g) && 0 < g < |k.graph.net.value| && k.offset < 3
    ensures k.graph.net.Rows() && var n := k.graph.Next(RoleOf(k.offset), g);
            InWalk(k, item, n) && n < g && forall i: nat :: OnList(k, item, i) && i < g ==> n != 0 && i <= n
  {
    hide Threaded, OnList;
    ThreadedShape(k.graph.net);
    OnListIsUnder(k, item, g);
    NextIsNewest(k.graph.net, RoleOf(k.offset), ItemNode(k, item), g);
    var n := k.graph.Next(RoleOf(k.offset), g);
    OnListIsUnder(k, item, n);
    forall i: nat | OnList(k, item, i) && i < g
      ensures n != 0 && i <= n
    {
      OnListIsUnder(k, item, i);
    }
  }

  // ----- Each answer is found -----------------------------------------------------------------------

  /** A fact of the item's list that is wanted and matches. */
  ghost predicate Hit(k: Setup, item: nat, g: nat, marks: set<nat>) {
    OnList(k, item, g) && Wanted(k, item, g) && k.matches(g, marks)
  }

  /** From a fact found, by way of its subject or its object, to a live fact of the kind asked for: the one
    * named there, if the found fact names one, or one that has the word there as subject or object. */
  ghost predicate Beyond(k: Setup, via: Ricochet, g: nat, a: nat, marks: set<nat>) {
    var s := k.graph.net;
    && g < |s.value| && g < |s.flags| && 0 < a < |s.flags| && a < |s.value| && !s.flags[a].dead
    && (k.user ==> a > k.locked) && (k.system ==> a <= k.locked) && via.accepts(a, marks)
    && var field := if via.viaSubject then s.value[g].subj else s.value[g].obj;
       if Subject in s.flags[g].refs || Object in s.flags[g].refs then a == field
       else
         && s.value[a].subj != 0
         && if via.usingSubject then Subject !in s.flags[a].refs && s.value[a].subj % 0x100000 == field % 0x100000
            else Object !in s.flags[a].refs && s.value[a].obj % 0x100000 == field % 0x100000
  }

  ghost predicate Found(k: Setup, item: nat, a: nat, marks: set<nat>) {
    if k.ricochet.None? then Hit(k, item, a, marks)
    else exists g: nat :: Hit(k, item, g, marks) && Beyond(k, k.ricochet.value, g, a, marks)
  }

  /** The answer was found on a queued item, under marks there were at some time from the start on. */
  ghost predicate Explained(k: Setup, start: set<nat>, q: State, a: nat) {
    exists j, marks :: 0 <= j < |q.queue| && start <= marks <= q.marks && Found(k, q.queue[j] % 0x4000000, a, marks)
  }

  ghost predicate AllExplained(k: Setup, start: set<nat>, q: State) {
    start <= q.marks && forall a :: a in q.answers ==> Explained(k, start, q, a)
  }

  /** Queue and marks have grown. */
  ghost predicate Later(q: State, r: State) { q.queue <= r.queue && q.marks <= r.marks }

  lemma ExplainedLater(k: Setup, start: set<nat>, q: State, r: State, a: nat)
    requires Explained(k, start, q, a) && Later(q, r)
    ensures Explained(k, start, r, a)
  {
    hide Found;
    var j, marks :| 0 <= j < |q.queue| && start <= marks <= q.marks && Found(k, q.queue[j] % 0x4000000, a, marks);
    assert r.queue[j] == q.queue[j];
  }

  lemma AllExplainedLater(k: Setup, start: set<nat>, q: State, r: State)
    requires AllExplained(k, start, q) && Later(q, r)
    requires forall a :: a in r.answers ==> a in q.answers || Explained(k, start, r, a)
    ensures AllExplained(k, start, r)
  {
    hide Explained;
    forall a | a in r.answers
      ensures Explained(k, start, r, a)
    {
      if a in q.answers { ExplainedLater(k, start, q, r, a); }
    }
  }

  lemma {:induction false} AddWordLater(k: Setup, q: State, m: nat, depth: nat)
    requires k.Net().Rows() && |q.queue| <= MAX_QUEUE
    ensures var r := AddWord(k, q, m, depth); Later(q, r) && r.answers == q.answers && r.marked == q.marked
    decreases FOLLOW_LIMIT + 1 - depth, 1, 0
  {
    hide Blocked;
    var w := Meaning2Word(m);
    if !(|q.queue| == MAX_QUEUE || m == 0 || w in q.marks || w in k.ignored || depth > FOLLOW_LIMIT || Blocked(k.graph, w, q.marks)) {
      var q1 := q.(marks := q.marks + {w}, queue := q.queue + [m]);
      var g := k.graph.First(Subject, w);
      AddEquivalentsLater(k, q1, g, depth);
      AddSynsetsLater(k, AddEquivalents(k, q1, g, depth), k.meanings(w), depth);
    }
  }

  lemma {:induction false} AddEquivalentsLater(k: Setup, q: State, g: nat, depth: nat)
    requires k.Net().Rows() && |q.queue| <= MAX_QUEUE && depth <= FOLLOW_LIMIT
    ensures Later(q, AddEquivalents(k, q, g, depth))
    decreases FOLLOW_LIMIT + 1 - depth, 0, g
  {
    hide AddWord;
    if g != 0 && g < |k.Net().value| {
      var v := k.Net().value[g];
      AddWordLater(k, q, v.obj, depth + 1);
      AddEquivalentsLater(k, if v.verb == k.graph.member && Meaning2Word(v.obj) !in k.conceptNames then AddWord(k, q, v.obj, depth + 1) else q,
                          k.graph.Next(Subject, g), depth);
    }
  }

  lemma {:induction false} AddSynsetsLater(k: Setup, q: State, synsets: seq<nat>, depth: nat)
    requires k.Net().Rows() && |q.queue| <= MAX_QUEUE && depth <= FOLLOW_LIMIT
    ensures Later(q, AddSynsets(k, q, synsets, depth))
    decreases FOLLOW_LIMIT + 1 - depth, 0, |synsets|
  {
    hide AddWord;
    if synsets != [] {
      AddWordLater(k, q, synsets[0], depth + 1);
      AddSynsetsLater(k, AddWord(k, q, synsets[0], depth + 1), synsets[1..], depth);
    }
  }

  lemma OwnedIff(k: Setup, g: nat)
    ensures Owned(k, g) <==> (k.user ==> g > k.locked) && (k.system ==> g <= k.locked)
  {
  }

  /** The walk of Riccochet finds live facts of the word, and changes nothing but the answers. */
  lemma {:induction false} RicochetListFinds(k: Setup, q: State, role: Role, word: nat, g: nat, accepts: (nat, set<nat>) -> bool)
    requires Threaded(k.graph.net) && k.Net().Rows() && |q.answers| <= MAX_FIND
    requires g == 0 || LiveUnder(k.graph.net, role, WordNode(word), g)
    ensures var r := RicochetList(k, q, role, g, accepts).0;
            && Later(q, r) && r.marks == q.marks
            && forall a :: a in r.answers && a !in q.answers ==>
                 LiveUnder(k.graph.net, role, WordNode(word), a) && accepts(a, q.marks) && Owned(k, a)
    decreases g
  {
    hide Threaded, LiveUnder, Owned;
    if g != 0 && g < |k.Net().value| {
      NextIsNewest(k.graph.net, role, WordNode(word), g);
      var n := k.graph.Next(role, g);
      if g in q.marked || !Owned(k, g) || !accepts(g, q.marks) {
        RicochetListFinds(k, q, role, word, n, accepts);
      } else {
        var q1 := AddFact(q, g);
        if |q1.answers| < k.limit { RicochetListFinds(k, q1, role, word, n, accepts); }
      }
    }
  }

  lemma RiccochetFinds(k: Setup, q: State, g: nat, via: Ricochet)
    requires Threaded(k.graph.net) && k.Net().Rows() && |q.answers| <= MAX_FIND && g < |k.Net().value|
    ensures var r := Riccochet(k, q, g, via).0;
            && Later(q, r) && r.marks == q.marks
            && forall a :: a in r.answers && a !in q.answers ==> Beyond(k, via, g, a, q.marks)
  {
    hide Threaded, RicochetList, AddFact, Owned, Net.NondeadHead;
    var field := if via.viaSubject then k.Net().value[g].subj else k.Net().value[g].obj;
    if Subject in k.Net().flags[g].refs || Object in k.Net().flags[g].refs {
      AddsOne(q, field);
      OwnedIff(k, field);
    } else {
      var role := if via.usingSubject then Subject else Object;
      HeadIsNewest(k.graph.net, role, WordNode(Meaning2Word(field)));
      RicochetListFinds(k, q, role, Meaning2Word(field), k.graph.First(role, Meaning2Word(field)), via.accepts);
      var r := Riccochet(k, q, g, via).0;
      forall a | a in r.answers && a !in q.answers
        ensures Beyond(k, via, g, a, q.marks)
      {
        OwnedIff(k, a);
      }
    }
  }

  lemma AddsOne(q: State, f: nat)
    ensures var r := AddFact(q, f); Later(q, r) && r.marks == q.marks && f in r.marked && forall a :: a in r.answers ==> a == f || a in q.answers
  {
  }

  lemma ConsiderFinds(k: Setup, start: set<nat>, q: State, item: nat, j: nat, g: nat)
    requires Threaded(k.graph.net) && k.Net().Rows() && Bounded(q) && AllExplained(k, start, q)
    requires j < |q.queue| && item == q.queue[j] % 0x4000000 && g < |k.Net().value| && OnList(k, item, g) && Wanted(k, item, g)
    ensures var r := Consider(k, q, g).0; Later(q, r) && AllExplained(k, start, r)
  {
    hide Threaded, OnList, Wanted, AddWord, AddFact, Riccochet, Beyond, Explained, Outgoing;
    var r := Consider(k, q, g).0;
    AddWordLater(k, q, Outgoing(k, g), 0);
    if k.matches(g, q.marks) {
      AddsOne(q, g);
      if k.ricochet.Some? { RiccochetFinds(k, q, g, k.ricochet.value); }
    }
    forall a | a in r.answers && a !in q.answers
      ensures Explained(k, start, r, a)
    {
      assert Found(k, item, a, q.marks);
      IsExplained(k, start, q, r, j, a);
    }
    AllExplainedLater(k, start, q, r);
  }

  lemma IsExplained(k: Setup, start: set<nat>, q: State, r: State, j: nat, a: nat)
    requires j < |q.queue| && start <= q.marks && Later(q, r) && Found(k, q.queue[j] % 0x4000000, a, q.marks)
    ensures Explained(k, start, r, a)
  {
    hide Found;
    assert r.queue[j] == q.queue[j];
  }

  lemma {:induction false} RoundsFind(k: Setup, start: set<nat>, item: nat, j: nat, g: nat, q: State, once: bool, fuel: nat)
    requires Threaded(k.graph.net) && k.Net().Rows() && Bounded(q) && AllExplained(k, start, q)
    requires j < |q.queue| && item == q.queue[j] % 0x4000000 && InWalk(k, item, g)
    ensures var r := Rounds(k, item, g, q, once, fuel); r.Some? ==> Later(q, r.value.0) && AllExplained(k, start, r.value.0)
    decreases fuel
  {
    hide Threaded, AllExplained, AddWord, Consider, Passes, GoesUp, InWalk, Outgoing, Net.NondeadNext;
    if g != 0 && g < |k.Net().value| && fuel > 0 {
      var n := if k.offset >= 3 then g else k.graph.Next(RoleOf(k.offset), g);
      if k.offset < 3 { NextInWalk(k, item, g); }
      if !Passes(k, item, g) {
        RoundsFind(k, start, item, j, n, q, once, fuel - 1);
      } else if GoesUp(k, g, once) {
        var q1 := AddWord(k, q, Outgoing(k, g), 0);
        AddWordLater(k, q, Outgoing(k, g), 0);
        StaysExplained(k, start, q, q1);
        RoundsFind(k, start, item, j, n, q1, true, fuel - 1);
      } else {
        PassesOnList(k, item, g);
        ConsiderFinds(k, start, q, item, j, g);
        var (q1, over) := Consider(k, q, g);
        if !over && k.offset < 3 { RoundsFind(k, start, item, j, n, q1, once, fuel - 1); }
      }
    }
  }

  lemma StaysExplained(k: Setup, start: set<nat>, q: State, r: State)
    requires AllExplained(k, start, q) && Later(q, r) && r.answers == q.answers
    ensures AllExplained(k, start, r)
  {
    hide Explained;
    AllExplainedLater(k, start, q, r);
  }

  lemma PassesOnList(k: Setup, item: nat, g: nat)
    requires k.Net().Rows() && 0 < g < |k.Net().value| && InWalk(k, item, g) && Passes(k, item, g)
    ensures OnList(k, item, g) && Wanted(k, item, g)
  {
    hide Passes, Wanted;
    PassesIffWanted(k, item, g);
  }

  lemma {:induction false} ScanFinds(k: Setup, start: set<nat>, i: nat, q: State)
    requires Threaded(k.graph.net) && k.Net().Rows() && Bounded(q) && AllExplained(k, start, q)
    ensures var r := Query.Scan(k, i, q); r.Some? ==> AllExplained(k, start, r.value)
    decreases MAX_QUEUE - i
  {
    hide Threaded, AllExplained, Rounds, Start, ItemEnds, InWalk;
    if i < |q.queue| {
      var item := q.queue[i] % SIMPLEMEANING;
      StartInWalk(k, item);
      RoundsFind(k, start, item, i, Start(k, item), q, false, Start(k, item) + 2);
      var r := Rounds(k, item, Start(k, item), q, false, Start(k, item) + 2);
      if r.Some? && !r.value.1 { ScanFinds(k, start, i + 1, r.value.0); }
    }
  }

  /** Every answer of a query is a live fact, wanted and matching under the marks of the time, on the list of
    * an item that was queued by the end, or is beyond such a fact by the ricochet. */
  lemma AnswersAreFound(k: Setup, queue: seq<nat>, marks: set<nat>)
    requires Threaded(k.graph.net) && k.Net().Rows() && |queue| <= MAX_QUEUE
    ensures var r := Query.Scan(k, 0, State({}, [], queue, marks));
            r.Some? ==> forall a :: a in r.value.answers ==> Explained(k, marks, r.value, a)
  {
    hide Threaded, Query.Scan, Explained;
    ScanFinds(k, marks, 0, State({}, [], queue, marks));
  }

  // ----- Every hit is an answer ---------------------------------------------------------------------

  /** Whether a fact matches, or is accepted beyond one that does, does not depend on the marks. */
  ghost predicate Steady(k: Setup) {
    && (forall g, a, b :: k.matches(g, a) == k.matches(g, b))
    && (k.ricochet.Some? ==> SteadyBeyond(k.ricochet.value.accepts))
  }

  ghost predicate SteadyBeyond(accepts: (nat, set<nat>) -> bool) { forall g, a, b :: accepts(g, a) == accepts(g, b) }

  /** What is asked for of a fact found has been marked: itself, or all that is beyond it. */
  ghost predicate Taken(k: Setup, q: State, g: nat) {
    if k.ricochet.None? then g in q.marked else forall a: nat :: Beyond(k, k.ricochet.value, g, a, {}) ==> a in q.marked
  }

  /** A link up the dictionary, which is followed once instead of being looked at. */
  predicate IsLink(k: Setup, g: nat) { k.upDictionary && g < |k.graph.net.value| && k.graph.net.value[g].verb == k.graph.isa }

  function OtherSide(k: Setup, g: nat): nat {
    if g >= |k.graph.net.value| then 0
    else (if k.offset == 2 then k.graph.net.value[g].subj else k.graph.net.value[g].obj) % 0x4000000
  }

  /** The meaning was queued, or cannot be. */
  ghost predicate Queued(k: Setup, q: State, m: nat) {
    || m == 0 || m % 0x100000 in q.marks || m % 0x100000 in k.ignored || |q.queue| >= 10000
    || exists w :: w in q.marks && Excludes(k.graph, m % 0x100000, w)
  }

  /** What the query makes of a fact it has looked at: it is taken if it matches; else, if it propagates and is
    * not marked for another item, its other side is queued. */
  ghost predicate Handled(k: Setup, q: State, item: nat, g: nat) {
    OnList(k, item, g) && Wanted(k, item, g) && !IsLink(k, g) ==>
      && (k.matches(g, {}) ==> Taken(k, q, g))
      && (!k.matches(g, {}) && k.propagates(g) && g !in q.marked ==> Queued(k, q, OtherSide(k, g)))
  }

  /** Later, with more facts marked. */
  ghost predicate Further(q: State, r: State) { Later(q, r) && q.marked <= r.marked }

  lemma HandledFurther(k: Setup, q: State, r: State, item: nat, g: nat)
    requires Handled(k, q, item, g) && Further(q, r)
    ensures Handled(k, r, item, g)
  {
    hide OnList, Wanted, IsLink, Excludes, Beyond;
  }

  lemma AddWordQueues(k: Setup, q: State, m: nat)
    requires Threaded(k.graph.net) && k.Net().Rows() && |q.queue| <= MAX_QUEUE
    ensures Queued(k, AddWord(k, q, m, 0), m)
  {
    hide Threaded, Blocked, Excludes, AddEquivalents, AddSynsets;
    BlockedIff(k.graph, Meaning2Word(m), q.marks);
    var w := Meaning2Word(m);
    if !(|q.queue| == MAX_QUEUE || m == 0 || w in q.marks || w in k.ignored || Blocked(k.graph, w, q.marks)) {
      var q1 := q.(marks := q.marks + {w}, queue := q.queue + [m]);
      var g := k.graph.First(Subject, w);
      AddEquivalentsLater(k, q1, g, 0);
      AddSynsetsLater(k, AddEquivalents(k, q1, g, 0), k.meanings(w), 0);
    }
  }

  /** The walk of Riccochet marks every fact of the list it accepts, unless it is cut short at the limit. */
  lemma {:induction false} RicochetListTakes(k: Setup, q: State, role: Role, word: nat, g: nat, accepts: (nat, set<nat>) -> bool)
    requires Threaded(k.graph.net) && k.Net().Rows() && |q.answers| <= MAX_FIND && SteadyBeyond(accepts)
    requires g == 0 || LiveUnder(k.graph.net, role, WordNode(word), g)
    ensures var (r, more) := RicochetList(k, q, role, g, accepts);
            && q.marked <= r.marked && (!more ==> |r.answers| >= k.limit)
            && (more ==> forall i: nat :: i <= g && LiveUnder(k.graph.net, role, WordNode(word), i) && Owned(k, i) && accepts(i, {}) ==> i in r.marked)
    decreases g
  {
    hide Threaded, LiveUnder, Owned;
    if g == 0 {
      NullIsNotLive(k.graph.net, role, WordNode(word));
    } else {
      RowIsLive(k.graph.net, role, WordNode(word), g);
      NextIsNewest(k.graph.net, role, WordNode(word), g);
      assert accepts(g, q.marks) == accepts(g, {});
      var n := k.graph.Next(role, g);
      if g in q.marked || !Owned(k, g) || !accepts(g, q.marks) {
        RicochetListTakes(k, q, role, word, n, accepts);
      } else {
        var q1 := AddFact(q, g);
        if |q1.answers| < k.limit { RicochetListTakes(k, q1, role, word, n, accepts); }
      }
    }
  }

  lemma RiccochetTakes(k: Setup, q: State, g: nat, via: Ricochet)
    requires Threaded(k.graph.net) && k.Net().Rows() && |q.answers| <= MAX_FIND && g < |k.Net().value| && SteadyBeyond(via.accepts)
    ensures var (r, more) := Riccochet(k, q, g, via);
            && q.marked <= r.marked && (!more ==> |r.answers| >= k.limit)
            && (more ==> forall a: nat :: Beyond(k, via, g, a, {}) ==> a in r.marked)
  {
    hide Threaded, RicochetList, Owned, SteadyBeyond, Net.NondeadHead;
    var v := k.Net().value[g];
    var field := if via.viaSubject then v.subj else v.obj;
    var (r, more) := Riccochet(k, q, g, via);
    if Subject in k.Net().flags[g].refs || Object in k.Net().flags[g].refs {
      assert via.accepts(field, q.marks) == via.accepts(field, {}) by { AcceptsAlike(via.accepts, field, q.marks); }
      OwnedIff(k, field);
    } else {
      var role := if via.usingSubject then Subject else Object;
      HeadIsNewest(k.graph.net, role, WordNode(Meaning2Word(field)));
      var h := k.graph.First(role, Meaning2Word(field));
      RicochetListTakes(k, q, role, Meaning2Word(field), h, via.accepts);
      forall a: nat | more && Beyond(k, via, g, a, {})
        ensures a in r.marked
      {
        OwnedIff(k, a);
        assert LiveUnder(k.graph.net, role, WordNode(Meaning2Word(field)), a);
      }
    }
  }

  lemma AcceptsAlike(accepts: (nat, set<nat>) -> bool, g: nat, marks: set<nat>)
    requires SteadyBeyond(accepts)
    ensures accepts(g, marks) == accepts(g, {})
  {
  }

  lemma ConsiderHandles(k: Setup, q: State, item: nat, g: nat)
    requires Threaded(k.graph.net) && k.Net().Rows() && Bounded(q) && Steady(k) && g < |k.Net().value|
    ensures var (r, over) := Consider(k, q, g); Further(q, r) && (over || Handled(k, r, item, g)) && (over ==> |r.answers| >= k.limit)
  {
    hide Threaded, OnList, Wanted, AddWord, Queued, Excludes, IsLink, Beyond, SteadyBeyond, Riccochet;
    assert k.matches(g, q.marks) == k.matches(g, {});
    AddWordQueues(k, q, Outgoing(k, g));
    AddWordLater(k, q, Outgoing(k, g), 0);
    if k.ricochet.Some? { RiccochetTakes(k, q, g, k.ricochet.value); }
  }

  /** All facts of the item's list up to `g`, in the walk, have been handled. */
  ghost predicate Covered(k: Setup, q: State, item: nat, g: nat) {
    forall i: nat :: i <= g ==> Handled(k, q, item, i)
  }

  lemma SkippedIsHandled(k: Setup, q: State, item: nat, g: nat)
    requires k.Net().Rows() && g < |k.Net().value|
    requires !Passes(k, item, g) || (k.upDictionary && k.Net().value[g].verb == k.graph.isa)
    ensures Handled(k, q, item, g)
  {
    hide Passes, Wanted, Queued;
    PassesIffWanted(k, item, g);
  }

  lemma CoveredStep(k: Setup, q: State, r: State, item: nat, g: nat, n: nat)
    requires Handled(k, q, item, g) && Further(q, r) && Covered(k, r, item, n)
    requires forall i: nat :: OnList(k, item, i) && i < g ==> n != 0 && i <= n
    ensures Covered(k, r, item, g)
  {
    hide OnList, Wanted, Queued, IsLink, Further;
    HandledFurther(k, q, r, item, g);
    forall i: nat | i <= g
      ensures Handled(k, r, item, i)
    {
      if i < g && OnList(k, item, i) { assert i <= n; }
    }
  }

  lemma NothingCovered(k: Setup, q: State, item: nat)
    ensures Covered(k, q, item, 0)
  {
    hide Wanted, Queued, IsLink;
  }

  lemma FurtherTrans(a: State, b: State, c: State)
    requires Further(a, b) && Further(b, c)
    ensures Further(a, c)
  {
  }

  /** A walk over a list that is not cut short handles it from `g` on; it is cut short at the limit only. */
  lemma {:induction false} RoundsCover(k: Setup, item: nat, g: nat, q: State, once: bool, fuel: nat)
    requires Threaded(k.graph.net) && k.Net().Rows() && Bounded(q) && Steady(k) && k.offset < 3
    requires InWalk(k, item, g) && g < |k.Net().value|
    ensures var r := Rounds(k, item, g, q, once, fuel);
            r.Some? ==> Further(q, r.value.0) && if r.value.1 then |r.value.0.answers| >= k.limit else Covered(k, r.value.0, item, g)
    decreases fuel
  {
    hide Threaded, AddWord, Consider, Passes, InWalk, Outgoing, Net.NondeadNext, Steady, Handled, Covered, Further, OnList;
    if g == 0 {
      FurtherSelf(q);
      NothingCovered(k, q, item);
    } else if fuel > 0 {
      var n := k.graph.Next(RoleOf(k.offset), g);
      NextInWalk(k, item, g);
      var r := Rounds(k, item, g, q, once, fuel);
      if !Passes(k, item, g) {
        SkippedIsHandled(k, q, item, g);
        RoundsCover(k, item, n, q, once, fuel - 1);
        if r.Some? && !r.value.1 { CoveredStep(k, q, r.value.0, item, g, n); }
      } else if GoesUp(k, g, once) {
        var q1 := AddWord(k, q, Outgoing(k, g), 0);
        SkippedIsHandled(k, q1, item, g);
        AddWordFurther(k, q, Outgoing(k, g));
        RoundsCover(k, item, n, q1, true, fuel - 1);
        if r.Some? {
          FurtherTrans(q, q1, r.value.0);
          if !r.value.1 { CoveredStep(k, q1, r.value.0, item, g, n); }
        }
      } else {
        ConsiderHandles(k, q, item, g);
        var (q1, over) := Consider(k, q, g);
        if !over {
          RoundsCover(k, item, n, q1, once, fuel - 1);
          if r.Some? {
            FurtherTrans(q, q1, r.value.0);
            if !r.value.1 { CoveredStep(k, q1, r.value.0, item, g, n); }
          }
        }
      }
    }
  }

  lemma FurtherSelf(q: State)
    ensures Further(q, q)
  {
  }

  lemma AddWordFurther(k: Setup, q: State, m: nat)
    requires k.Net().Rows() && |q.queue| <= MAX_QUEUE
    ensures Further(q, AddWord(k, q, m, 0))
  {
    hide AddWord;
    AddWordLater(k, q, m, 0);
  }

  /** The facts of an item, all handled. */
  ghost predicate ItemDone(k: Setup, q: State, item: nat) { forall g: nat :: Handled(k, q, item, g) }

  lemma CoveredIsDone(k: Setup, q: State, item: nat, h: nat)
    requires Covered(k, q, item, h) && forall i: nat :: OnList(k, item, i) ==> h != 0 && i <= h
    ensures ItemDone(k, q, item)
  {
    hide OnList, Wanted, Queued, IsLink;
  }

  /** With an item that is itself the fact. */
  lemma FactCover(k: Setup, item: nat, q: State, fuel: nat)
    requires Threaded(k.graph.net) && k.Net().Rows() && Bounded(q) && Steady(k) && k.offset >= 3 && k.overFacts
    ensures var r := Rounds(k, item, item, q, false, fuel);
            r.Some? ==> Further(q, r.value.0) && if r.value.1 then |r.value.0.answers| >= k.limit else ItemDone(k, r.value.0, item)
  {
    hide Threaded, AddWord, Consider, Passes, Outgoing, Steady, Handled, Further, OnList;
    OneFact(k, item);
    FurtherSelf(q);
    if item == 0 || item >= |k.Net().value| {
      OutOfUse(k, q, item);
    } else if fuel > 0 && Passes(k, item, item) {
      if GoesUp(k, item, false) {
        var q1 := AddWord(k, q, Outgoing(k, item), 0);
        AddWordFurther(k, q, Outgoing(k, item));
        if fuel > 1 {
          ConsiderHandles(k, q1, item, item);
          FurtherTrans(q, q1, Consider(k, q1, item).0);
          if !Consider(k, q1, item).1 { FactDone(k, Consider(k, q1, item).0, item); }
        }
      } else {
        ConsiderHandles(k, q, item, item);
        if !Consider(k, q, item).1 { FactDone(k, Consider(k, q, item).0, item); }
      }
    } else if fuel > 0 {
      StuckForever(k, item, item, q, false, fuel);
    }
  }

  lemma OneFact(k: Setup, item: nat)
    requires k.offset >= 3 && k.overFacts
    ensures forall g: nat :: OnList(k, item, g) ==> g == item
  {
  }

  lemma OutOfUse(k: Setup, q: State, item: nat)
    requires k.offset >= 3 && k.overFacts && (item == 0 || item >= |k.graph.net.value|)
    ensures ItemDone(k, q, item)
  {
    hide Wanted, IsLink, Queued;
  }

  lemma FactDone(k: Setup, q: State, item: nat)
    requires k.offset >= 3 && k.overFacts && Handled(k, q, item, item)
    ensures ItemDone(k, q, item)
  {
    hide Wanted, IsLink, Queued;
  }

  lemma ItemCover(k: Setup, item: nat, q: State, fuel: nat)
    requires Threaded(k.graph.net) && k.Net().Rows() && Bounded(q) && Steady(k) && (k.offset < 3 || k.overFacts)
    ensures var r := Rounds(k, item, Start(k, item), q, false, fuel);
            r.Some? ==> Further(q, r.value.0) && if r.value.1 then |r.value.0.answers| >= k.limit else ItemDone(k, r.value.0, item)
  {
    hide Threaded, Rounds, Steady, ItemDone, Covered, Further, OnList, InWalk, Net.NondeadHead;
    StartInWalk(k, item);
    if k.offset < 3 {
      var h := Start(k, item);
      StartInUse(k, item);
      RoundsCover(k, item, h, q, false, fuel);
      var r := Rounds(k, item, h, q, false, fuel);
      if r.Some? && !r.value.1 { CoveredIsDone(k, r.value.0, item, h); }
    } else {
      FactCover(k, item, q, fuel);
    }
  }

  lemma StartInUse(k: Setup, item: nat)
    requires k.Net().Rows() && k.offset < 3
    ensures Start(k, item) < |k.Net().value|
  {
  }

  lemma DoneFurther(k: Setup, q: State, r: State, item: nat)
    requires ItemDone(k, q, item) && Further(q, r)
    ensures ItemDone(k, r, item)
  {
    hide Handled, Further;
    forall g: nat
      ensures Handled(k, r, item, g)
    {
      HandledFurther(k, q, r, item, g);
    }
  }

  /** The items from `i` on, done. */
  ghost predicate QueueDone(k: Setup, q: State, i: nat) { forall j :: i <= j < |q.queue| ==> ItemDone(k, q, q.queue[j] % 0x4000000) }

  lemma {:induction false} ScanCovers(k: Setup, i: nat, q: State)
    requires Threaded(k.graph.net) && k.Net().Rows() && Bounded(q) && Steady(k) && (k.offset < 3 || k.overFacts)
    ensures var r := Query.Scan(k, i, q); r.Some? ==> Further(q, r.value) && (|r.value.answers| >= k.limit || QueueDone(k, r.value, i))
    decreases MAX_QUEUE - i
  {
    hide Threaded, Rounds, Start, ItemEnds, Steady, ItemDone;
    if i < |q.queue| {
      var item := q.queue[i] % SIMPLEMEANING;
      ItemCover(k, item, q, Start(k, item) + 2);
      var r := Rounds(k, item, Start(k, item), q, false, Start(k, item) + 2);
      if r.Some? && !r.value.1 {
        ScanCovers(k, i + 1, r.value.0);
        var last := Query.Scan(k, i + 1, r.value.0);
        if last.Some? {
          DoneFurther(k, r.value.0, last.value, item);
          assert last.value.queue[i] == q.queue[i];
        }
      }
    }
  }

  lemma MarkedIsAnswer(k: Setup, q: State)
    requires Good(k, q) && |q.marked| <= MAX_FIND
    ensures forall g :: g in q.marked ==> g in q.answers
  {
    AnswerCount(q.answers);
    var m := Members(q.answers);
    assert m <= q.marked;
    assert q.marked == m + (q.marked - m);
    assert |q.marked - m| == 0;
  }

  /** Where matching does not depend on the marks, a query that ends below its limit has as answers every wanted
    * match on the list of every item queued by the end, except links it followed, or with a ricochet all that is
    * beyond those matches; and it has queued the other side of every fact there that does not match but
    * propagates. */
  lemma HitsAreAnswers(k: Setup, queue: seq<nat>, marks: set<nat>)
    requires Threaded(k.graph.net) && k.Net().Rows() && |queue| <= MAX_QUEUE && Steady(k) && (k.offset < 3 || k.overFacts)
    requires k.limit <= 5000 && var r := Query.Scan(k, 0, State({}, [], queue, marks)); r.Some? && |r.value.answers| < k.limit
    ensures var r := Query.Scan(k, 0, State({}, [], queue, marks)).value;
            forall j, g: nat :: 0 <= j < |r.queue| && OnList(k, r.queue[j] % 0x4000000, g) && Wanted(k, r.queue[j] % 0x4000000, g) && !IsLink(k, g) ==>
              if k.matches(g, marks) then
                (k.ricochet.None? ==> g in r.answers)
                && (k.ricochet.Some? ==> forall a: nat :: Beyond(k, k.ricochet.value, g, a, {}) ==> a in r.answers)
              else k.propagates(g) && g !in r.answers ==> Queued(k, r, OtherSide(k, g))
  {
    hide Threaded, Query.Scan, OnList, Wanted, Queued, IsLink, Further, Good, OtherSide, Beyond, SteadyBeyond;
    var q := State({}, [], queue, marks);
    ScanCovers(k, 0, q);
    QueryIsClean(k, queue, marks);
    var r := Query.Scan(k, 0, q).value;
    MarkedIsAnswer(k, r);
    forall j, g: nat | 0 <= j < |r.queue| && OnList(k, r.queue[j] % 0x4000000, g) && Wanted(k, r.queue[j] % 0x4000000, g) && !IsLink(k, g)
      ensures if k.matches(g, marks) then
                (k.ricochet.None? ==> g in r.answers)
                && (k.ricochet.Some? ==> forall a: nat :: Beyond(k, k.ricochet.value, g, a, {}) ==> a in r.answers)
              else k.propagates(g) && g !in r.answers ==> Queued(k, r, OtherSide(k, g))
    {
      assert ItemDone(k, r, r.queue[j] % 0x4000000);
      assert Handled(k, r, r.queue[j] % 0x4000000, g);
      assert k.matches(g, marks) == k.matches(g, {});
      MarkedIs(k, r, g);
    }
  }

  lemma MarkedIs(k: Setup, q: State, g: nat)
    requires Good(k, q) && forall m :: m in q.marked ==> m in q.answers
    ensures g in q.marked <==> g in q.answers
  {
  }

  /** The word is taken: it goes on the queue. */
  ghost predicate Takes(k: Setup, q: State, m: nat) {
    && |q.queue| < 10000 && m != 0 && m % 0x100000 !in q.marks && m % 0x100000 !in k.ignored
    && forall w :: w in q.marks ==> !Excludes(k.graph, m % 0x100000, w)
  }

  // ----- What is queued -------------------------------------------------------------------------------

  /** From a queued meaning to one it is equivalent to: the object, no concept, of a live member fact of its
    * word, or, if it is generic, a synset of the word. */
  ghost predicate Equivalent(k: Setup, x: nat, y: nat) {
    || (exists g: nat :: LiveUnder(k.graph.net, Subject, WordNode(x % 0x100000), g) && MemberTo(k, g, y))
    || ((x / 0x100000) % 64 == 0 && y in k.meanings(x % 0x100000))
  }

  predicate MemberTo(k: Setup, g: nat, y: nat) {
    && g < |k.graph.net.value| && k.graph.net.value[g].verb == k.graph.member && k.graph.net.value[g].obj == y
    && y % 0x100000 !in k.conceptNames
  }

  /** From a queued item to the other side of a fact of its list that is wanted and either propagates or is a
    * link. */
  ghost predicate LeadsOn(k: Setup, x: nat, y: nat) {
    exists g: nat :: OnList(k, x % 0x4000000, g) && Wanted(k, x % 0x4000000, g) && (k.propagates(g) || IsLink(k, g)) && y == OtherSide(k, g)
  }

  ghost predicate ComesFrom(k: Setup, queue: seq<nat>, i: nat, y: nat) {
    i < |queue| && (Equivalent(k, queue[i], y) || LeadsOn(k, queue[i], y))
  }

  ghost predicate HasOrigin(k: Setup, queue: seq<nat>, j: nat) {
    j < |queue| && exists i: nat :: i < j && ComesFrom(k, queue, i, queue[j])
  }

  /** What was queued from `from` on came from an item before it. */
  ghost predicate Traced(k: Setup, from: nat, queue: seq<nat>) {
    forall j :: from <= j < |queue| ==> HasOrigin(k, queue, j)
  }

  lemma ComesFromLonger(k: Setup, queue: seq<nat>, more: seq<nat>, i: nat, y: nat)
    requires ComesFrom(k, queue, i, y) && queue <= more
    ensures ComesFrom(k, more, i, y)
  {
    hide Equivalent, LeadsOn;
  }

  lemma TracedOne(k: Setup, from: nat, queue: seq<nat>, i: nat, y: nat)
    requires Traced(k, from, queue) && ComesFrom(k, queue, i, y)
    ensures Traced(k, from, queue + [y])
  {
    hide ComesFrom;
    var more := queue + [y];
    forall j | from <= j < |more|
      ensures HasOrigin(k, more, j)
    {
      if j < |queue| {
        assert HasOrigin(k, queue, j);
        var h: nat :| h < j && ComesFrom(k, queue, h, queue[j]);
        ComesFromLonger(k, queue, more, h, queue[j]);
      } else {
        assert more[j] == y;
        ComesFromLonger(k, queue, more, i, y);
        FromIsBefore(k, queue, i, y);
      }
    }
  }

  lemma FromIsBefore(k: Setup, queue: seq<nat>, i: nat, y: nat)
    requires ComesFrom(k, queue, i, y)
    ensures i < |queue|
  {
  }

  lemma {:induction false} AddWordTraced(k: Setup, from: nat, q: State, m: nat, depth: nat, i: nat)
    requires Threaded(k.graph.net) && k.Net().Rows() && |q.queue| <= MAX_QUEUE && Traced(k, from, q.queue) && ComesFrom(k, q.queue, i, m)
    ensures Traced(k, from, AddWord(k, q, m, depth).queue)
    decreases FOLLOW_LIMIT + 1 - depth, 1, 0
  {
    hide Threaded, Blocked, Traced, ComesFrom, LiveUnder, AddEquivalents, AddSynsets;
    var w := Meaning2Word(m);
    if !(|q.queue| == MAX_QUEUE || m == 0 || w in q.marks || w in k.ignored || depth > FOLLOW_LIMIT || Blocked(k.graph, w, q.marks)) {
      var q1 := q.(marks := q.marks + {w}, queue := q.queue + [m]);
      TracedOne(k, from, q.queue, i, m);
      HeadIsNewest(k.graph.net, Subject, WordNode(w));
      var g := k.graph.First(Subject, w);
      assert q1.queue[|q.queue|] == m;
      AddEquivalentsTraced(k, from, q1, g, depth, |q.queue|);
      var q2 := AddEquivalents(k, q1, g, depth);
      if Meaning2Index(m) == 0 { AddSynsetsTraced(k, from, q2, k.meanings(w), depth, |q.queue|); }
    }
  }

  lemma {:induction false} AddEquivalentsTraced(k: Setup, from: nat, q: State, g: nat, depth: nat, c: nat)
    requires Threaded(k.graph.net) && k.Net().Rows() && |q.queue| <= MAX_QUEUE && depth <= FOLLOW_LIMIT && Traced(k, from, q.queue)
    requires c < |q.queue| && (g == 0 || LiveUnder(k.graph.net, Subject, WordNode(Meaning2Word(q.queue[c])), g))
    ensures Traced(k, from, AddEquivalents(k, q, g, depth).queue)
    decreases FOLLOW_LIMIT + 1 - depth, 0, g
  {
    hide Threaded, AddWord, Traced, ComesFrom, LiveUnder;
    if g != 0 && g < |k.Net().value| {
      var v := k.Net().value[g];
      var follow := v.verb == k.graph.member && Meaning2Word(v.obj) !in k.conceptNames;
      if follow {
        IsEquivalent(k, q.queue, c, g);
        AddWordTraced(k, from, q, v.obj, depth + 1, c);
      }
      NextIsNewest(k.graph.net, Subject, WordNode(Meaning2Word(q.queue[c])), g);
      var q1 := if follow then AddWord(k, q, v.obj, depth + 1) else q;
      assert q1.queue[c] == q.queue[c];
      AddEquivalentsTraced(k, from, q1, k.graph.Next(Subject, g), depth, c);
    }
  }

  lemma IsEquivalent(k: Setup, queue: seq<nat>, c: nat, g: nat)
    requires c < |queue| && LiveUnder(k.graph.net, Subject, WordNode(Meaning2Word(queue[c])), g) && g < |k.graph.net.value|
    requires k.graph.net.value[g].verb == k.graph.member && Meaning2Word(k.graph.net.value[g].obj) !in k.conceptNames
    ensures ComesFrom(k, queue, c, k.graph.net.value[g].obj)
  {
    hide LiveUnder, LeadsOn;
    assert MemberTo(k, g, k.graph.net.value[g].obj);
  }

  lemma {:induction false} AddSynsetsTraced(k: Setup, from: nat, q: State, synsets: seq<nat>, depth: nat, c: nat)
    requires Threaded(k.graph.net) && k.Net().Rows() && |q.queue| <= MAX_QUEUE && depth <= FOLLOW_LIMIT && Traced(k, from, q.queue)
    requires c < |q.queue| && Meaning2Index(q.queue[c]) == 0 && forall y :: y in synsets ==> y in k.meanings(Meaning2Word(q.queue[c]))
    ensures Traced(k, from, AddSynsets(k, q, synsets, depth).queue)
    decreases FOLLOW_LIMIT + 1 - depth, 0, |synsets|
  {
    hide Threaded, AddWord, Traced, LiveUnder;
    if synsets != [] {
      assert synsets[0] in synsets;
      assert ComesFrom(k, q.queue, c, synsets[0]) by { hide LeadsOn; }
      AddWordTraced(k, from, q, synsets[0], depth + 1, c);
      assert AddWord(k, q, synsets[0], depth + 1).queue[c] == q.queue[c];
      AddSynsetsTraced(k, from, AddWord(k, q, synsets[0], depth + 1), synsets[1..], depth, c);
    }
  }

  lemma ConsiderTraced(k: Setup, from: nat, q: State, j: nat, g: nat)
    requires Threaded(k.graph.net) && k.Net().Rows() && Bounded(q) && Traced(k, from, q.queue)
    requires j < |q.queue| && g < |k.Net().value| && OnList(k, q.queue[j] % 0x4000000, g) && Wanted(k, q.queue[j] % 0x4000000, g)
    ensures Traced(k, from, Consider(k, q, g).0.queue)
  {
    hide Threaded, OnList, Wanted, AddWord, Riccochet, Traced, IsLink, Equivalent;
    if !k.matches(g, q.marks) && k.propagates(g) && g !in q.marked {
      assert ComesFrom(k, q.queue, j, OtherSide(k, g));
      assert OtherSide(k, g) == Outgoing(k, g);
      AddWordTraced(k, from, q, Outgoing(k, g), 0, j);
    }
  }

  lemma {:induction false} RoundsTraced(k: Setup, from: nat, item: nat, j: nat, g: nat, q: State, once: bool, fuel: nat)
    requires Threaded(k.graph.net) && k.Net().Rows() && Bounded(q) && Traced(k, from, q.queue)
    requires j < |q.queue| && item == q.queue[j] % 0x4000000 && InWalk(k, item, g)
    ensures var r := Rounds(k, item, g, q, once, fuel); r.Some? ==> q.queue <= r.value.0.queue && Traced(k, from, r.value.0.queue)
    decreases fuel
  {
    hide Threaded, AddWord, Consider, Passes, InWalk, Traced, Net.NondeadNext, OnList, Wanted;
    if g != 0 && g < |k.Net().value| && fuel > 0 {
      var n := if k.offset >= 3 then g else k.graph.Next(RoleOf(k.offset), g);
      if k.offset < 3 { NextInWalk(k, item, g); }
      if !Passes(k, item, g) {
        RoundsTraced(k, from, item, j, n, q, once, fuel - 1);
      } else if GoesUp(k, g, once) {
        PassesOnList(k, item, g);
        LinkLeadsOn(k, q.queue, j, g);
        AddWordTraced(k, from, q, Outgoing(k, g), 0, j);
        RoundsTraced(k, from, item, j, n, AddWord(k, q, Outgoing(k, g), 0), true, fuel - 1);
      } else {
        PassesOnList(k, item, g);
        ConsiderTraced(k, from, q, j, g);
        ConsiderGrows(k, q, g);
        var (q1, over) := Consider(k, q, g);
        if !over && k.offset < 3 { RoundsTraced(k, from, item, j, n, q1, once, fuel - 1); }
      }
    }
  }

  lemma LinkLeadsOn(k: Setup, queue: seq<nat>, j: nat, g: nat)
    requires j < |queue| && g < |k.graph.net.value| && OnList(k, queue[j] % 0x4000000, g) && Wanted(k, queue[j] % 0x4000000, g)
    requires k.upDictionary && k.graph.net.value[g].verb == k.graph.isa
    ensures ComesFrom(k, queue, j, Outgoing(k, g))
  {
    hide OnList, Wanted, Equivalent;
    assert IsLink(k, g) && OtherSide(k, g) == Outgoing(k, g);
  }

  lemma ConsiderGrows(k: Setup, q: State, g: nat)
    requires k.Net().Rows() && Bounded(q) && g < |k.Net().value|
    ensures q.queue <= Consider(k, q, g).0.queue
  {
    hide AddWord, RicochetList, Owned;
  }

  lemma {:induction false} ScanTraced(k: Setup, from: nat, i: nat, q: State)
    requires Threaded(k.graph.net) && k.Net().Rows() && Bounded(q) && Traced(k, from, q.queue)
    ensures var r := Query.Scan(k, i, q); r.Some? ==> q.queue <= r.value.queue && Traced(k, from, r.value.queue)
    decreases MAX_QUEUE - i
  {
    hide Threaded, Traced, Rounds, Start, ItemEnds, InWalk;
    if i < |q.queue| {
      var item := q.queue[i] % SIMPLEMEANING;
      StartInWalk(k, item);
      RoundsTraced(k, from, item, i, Start(k, item), q, false, Start(k, item) + 2);
      var r := Rounds(k, item, Start(k, item), q, false, Start(k, item) + 2);
      if r.Some? && !r.value.1 { ScanTraced(k, from, i + 1, r.value.0); }
    }
  }

  /** A query queues nothing but what it is given and what comes from an item queued before: an equivalent of it,
    * or the other side of a fact of its list that propagates or is a link up the dictionary. */
  lemma QueueIsTraced(k: Setup, queue: seq<nat>, marks: set<nat>)
    requires Threaded(k.graph.net) && k.Net().Rows() && |queue| <= MAX_QUEUE
    ensures var r := Query.Scan(k, 0, State({}, [], queue, marks));
            r.Some? ==> queue <= r.value.queue && Traced(k, |queue|, r.value.queue)
  {
    hide Threaded, Query.Scan, HasOrigin;
    ScanTraced(k, |queue|, 0, State({}, [], queue, marks));
  }

  lemma QueuedLater(k: Setup, q: State, r: State, m: nat)
    requires Queued(k, q, m) && Later(q, r)
    ensures Queued(k, r, m)
  {
    hide Excludes;
  }

  lemma AddWordQueuesAt(k: Setup, q: State, m: nat, depth: nat)
    requires Threaded(k.graph.net) && k.Net().Rows() && |q.queue| <= MAX_QUEUE && depth <= 50
    ensures Queued(k, AddWord(k, q, m, depth), m)
  {
    hide Threaded, Blocked, Excludes, AddEquivalents, AddSynsets;
    BlockedIff(k.graph, Meaning2Word(m), q.marks);
    var w := Meaning2Word(m);
    if !(|q.queue| == MAX_QUEUE || m == 0 || w in q.marks || w in k.ignored || Blocked(k.graph, w, q.marks)) {
      var q1 := q.(marks := q.marks + {w}, queue := q.queue + [m]);
      var g := k.graph.First(Subject, w);
      AddEquivalentsLater(k, q1, g, depth);
      AddSynsetsLater(k, AddEquivalents(k, q1, g, depth), k.meanings(w), depth);
    }
  }

  lemma {:induction false} EquivalentsQueued(k: Setup, q: State, word: nat, g: nat, depth: nat)
    requires Threaded(k.graph.net) && k.Net().Rows() && |q.queue| <= MAX_QUEUE && depth < 50
    requires g == 0 || LiveUnder(k.graph.net, Subject, WordNode(word), g)
    ensures forall i: nat, y: nat :: i <= g && LiveUnder(k.graph.net, Subject, WordNode(word), i) && MemberTo(k, i, y) ==>
              Queued(k, AddEquivalents(k, q, g, depth), y)
    decreases g
  {
    hide Threaded, AddWord, LiveUnder, Queued;
    if g == 0 {
      NullIsNotLive(k.graph.net, Subject, WordNode(word));
    } else {
      RowIsLive(k.graph.net, Subject, WordNode(word), g);
      NextIsNewest(k.graph.net, Subject, WordNode(word), g);
      var v := k.Net().value[g];
      var follow := v.verb == k.graph.member && Meaning2Word(v.obj) !in k.conceptNames;
      var q1 := if follow then AddWord(k, q, v.obj, depth + 1) else q;
      var n := k.graph.Next(Subject, g);
      EquivalentsQueued(k, q1, word, n, depth);
      if follow {
        AddWordQueuesAt(k, q, v.obj, depth + 1);
        AddEquivalentsLater(k, q1, n, depth);
        QueuedLater(k, q1, AddEquivalents(k, q1, n, depth), v.obj);
      }
    }
  }

  lemma {:induction false} SynsetsQueued(k: Setup, q: State, synsets: seq<nat>, depth: nat, y: nat)
    requires Threaded(k.graph.net) && k.Net().Rows() && |q.queue| <= MAX_QUEUE && depth < 50 && y in synsets
    ensures Queued(k, AddSynsets(k, q, synsets, depth), y)
    decreases |synsets|
  {
    hide Threaded, AddWord, Queued;
    var q1 := AddWord(k, q, synsets[0], depth + 1);
    if y == synsets[0] {
      AddWordQueuesAt(k, q, y, depth + 1);
      AddSynsetsLater(k, q1, synsets[1..], depth);
      QueuedLater(k, q1, AddSynsets(k, q1, synsets[1..], depth), y);
    } else {
      SynsetsQueued(k, q1, synsets[1..], depth, y);
    }
  }

  /** A word that is taken, less than 50 steps from where the query led, is queued next, and with it whatever it is
    * equivalent to. */
  lemma TakenWithEquivalents(k: Setup, q: State, m: nat, depth: nat)
    requires Threaded(k.graph.net) && k.Net().Rows() && |q.queue| <= MAX_QUEUE && depth < 50 && Takes(k, q, m)
    ensures var r := AddWord(k, q, m, depth);
            q.queue + [m] <= r.queue && m % 0x100000 in r.marks && forall y: nat :: Equivalent(k, m, y) ==> Queued(k, r, y)
  {
    hide Threaded, Blocked, Excludes, AddEquivalents, AddSynsets, LiveUnder, MemberTo, Queued;
    BlockedIff(k.graph, Meaning2Word(m), q.marks);
    var w := Meaning2Word(m);
    var q1 := q.(marks := q.marks + {w}, queue := q.queue + [m]);
    HeadIsNewest(k.graph.net, Subject, WordNode(w));
    var g := k.graph.First(Subject, w);
    var q2 := AddEquivalents(k, q1, g, depth);
    var r := AddWord(k, q, m, depth);
    AddEquivalentsLater(k, q1, g, depth);
    AddSynsetsLater(k, q2, k.meanings(w), depth);
    EquivalentsQueued(k, q1, w, g, depth);
    forall y: nat | Equivalent(k, m, y)
      ensures Queued(k, r, y)
    {
      if i: nat :| LiveUnder(k.graph.net, Subject, WordNode(m % 0x100000), i) && MemberTo(k, i, y) {
        QueuedLater(k, q2, r, y);
      } else {
        SynsetsQueued(k, q2, k.meanings(w), depth, y);
      }
    }
  }
}
