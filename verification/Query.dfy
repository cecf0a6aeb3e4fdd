/** The scan loop of Query in infer.cpp, for a query that assigns its answers to a set and does
  * not search for topics or concepts: from the queued items, over their lists of facts, to the
  * answers; with Riccochet, AddWord2Scan and AddFact. */
module Query {
  import opened Threads
  import opened Facts
  import opened Inference

  const MAX_FIND: nat := 5000
  const MAX_QUEUE: nat := 10000
  const FOLLOW_LIMIT: nat := 50
  const SIMPLEMEANING: nat := 0x4000000

  /** From the facts found to facts about one of their fields. */
  datatype Ricochet = Ricochet(viaSubject: bool, usingSubject: bool, accepts: (nat, set<nat>) -> bool)

  /** The controls of a query. The tests of its match zone are not modelled: `matches` answers
    * for a fact, given the words marked so far; `propagates` says that a fact's verb carries the
    * mark to propagate on. */
  datatype Setup = Setup(
    graph: Graph, offset: nat, overFacts: bool, limit: nat, locked: nat, user: bool, system: bool,
    ignored: set<nat>, noTopic: bool, topics: set<nat>, upDictionary: bool, conceptNames: set<nat>, meanings: nat -> seq<nat>,
    matches: (nat, set<nat>) -> bool, propagates: nat -> bool, ricochet: Option<Ricochet>)
  {
    function Net(): Net { graph.net }
  }

  /** What the scan changes: the facts carrying MARKED_FACT, the answers so far, the queue, and
    * the words marked as queued. */
  datatype State = State(marked: set<nat>, answers: seq<nat>, queue: seq<nat>, marks: set<nat>)

  // ----- Queueing words -------------------------------------------------------------------------

  /** AddWord2Scan, queueing: a word goes on the queue once, and with it the words it is
    * equivalent to and, if it is generic, its synsets. */
  function AddWord(k: Setup, q: State, m: nat, depth: nat): (r: State)
    requires k.Net().Rows() && |q.queue| <= MAX_QUEUE
    ensures r == q.(queue := r.queue, marks := r.marks) && q.queue <= r.queue && |r.queue| <= MAX_QUEUE
    decreases FOLLOW_LIMIT + 1 - depth, 1, 0
  {
    var w := Meaning2Word(m);
    if |q.queue| == MAX_QUEUE || m == 0 || w in q.marks || w in k.ignored || depth > FOLLOW_LIMIT || Blocked(k.graph, w, q.marks) then q
    else
      var q1 := q.(marks := q.marks + {w}, queue := q.queue + [m]);
      var q2 := AddEquivalents(k, q1, k.graph.First(Subject, w), depth);
      if Meaning2Index(m) == 0 then AddSynsets(k, q2, k.meanings(w), depth) else q2
  }

  function AddEquivalents(k: Setup, q: State, g: nat, depth: nat): (r: State)
    requires k.Net().Rows() && |q.queue| <= MAX_QUEUE && depth <= FOLLOW_LIMIT
    ensures r == q.(queue := r.queue, marks := r.marks) && q.queue <= r.queue && |r.queue| <= MAX_QUEUE
    decreases FOLLOW_LIMIT + 1 - depth, 0, g
  {
    if g == 0 || g >= |k.Net().value| then q
    else
      var v := k.Net().value[g];
      var q1 := if v.verb == k.graph.member && Meaning2Word(v.obj) !in k.conceptNames then AddWord(k, q, v.obj, depth + 1) else q;
      AddEquivalents(k, q1, k.graph.Next(Subject, g), depth)
  }

  function AddSynsets(k: Setup, q: State, synsets: seq<nat>, depth: nat): (r: State)
    requires k.Net().Rows() && |q.queue| <= MAX_QUEUE && depth <= FOLLOW_LIMIT
    ensures r == q.(queue := r.queue, marks := r.marks) && q.queue <= r.queue && |r.queue| <= MAX_QUEUE
    decreases FOLLOW_LIMIT + 1 - depth, 0, |synsets|
  {
    if synsets == [] then q else AddSynsets(k, AddWord(k, q, synsets[0], depth + 1), synsets[1..], depth)
  }

  // ----- Finding answers ----------------------------------------------------------------------

  /** Marks a fact and puts it with the answers; a full set loses its last one. */
  function AddFact(q: State, f: nat): State {
    q.(marked := q.marked + {f},
       answers := if |q.answers| < MAX_FIND then q.answers + [f] else q.answers[..MAX_FIND - 1] + [f])
  }

  /** Facts of the user are above the lock, those of the system are not. */
  predicate Owned(k: Setup, f: nat) { !(k.user && f <= k.locked) && !(k.system && f > k.locked) }

  /** The walk of Riccochet over a list; false when the limit is reached. */
  function RicochetList(k: Setup, q: State, role: Role, g: nat, accepts: (nat, set<nat>) -> bool): (r: (State, bool))
    requires k.Net().Rows() && |q.answers| <= MAX_FIND
    ensures r.0 == q.(marked := r.0.marked, answers := r.0.answers) && |r.0.answers| <= MAX_FIND
    decreases g
  {
    if g == 0 || g >= |k.Net().value| then (q, true)
    else
      var n := k.graph.Next(role, g);
      if g in q.marked || !Owned(k, g) || !accepts(g, q.marks) then RicochetList(k, q, role, n, accepts)
      else
        var q1 := AddFact(q, g);
        if |q1.answers| >= k.limit then (q1, false) else RicochetList(k, q1, role, n, accepts)
  }

  /** Riccochet: from the fact `g` to the facts of one of its words, or to the one fact it holds. */
  function Riccochet(k: Setup, q: State, g: nat, via: Ricochet): (r: (State, bool))
    requires k.Net().Rows() && |q.answers| <= MAX_FIND && g < |k.Net().value|
    ensures r.0 == q.(marked := r.0.marked, answers := r.0.answers) && |r.0.answers| <= MAX_FIND
  {
    var field := if via.viaSubject then k.Net().value[g].subj else k.Net().value[g].obj;
    if Subject in k.Net().flags[g].refs || Object in k.Net().flags[g].refs then
      if !k.Net().Live(field) || field in q.marked || !Owned(k, field) || !via.accepts(field, q.marks) then (q, true)
      else
        var q1 := AddFact(q, field);
        (q1, |q1.answers| < k.limit)
    else
      var role := if via.usingSubject then Subject else Object;
      RicochetList(k, q, role, k.graph.First(role, Meaning2Word(field)), via.accepts)
  }

  function Outgoing(k: Setup, g: nat): nat
    requires g < |k.Net().value|
  {
    (if k.offset == 2 then k.Net().value[g].subj else k.Net().value[g].obj) % SIMPLEMEANING
  }

  function Incoming(k: Setup, g: nat): nat
    requires g < |k.Net().value|
  {
    var v := k.Net().value[g];
    (if k.offset == 1 then v.verb else if k.offset == 2 then v.obj else v.subj) % SIMPLEMEANING
  }

  /** The tests that skip a fact before anything is made of it. */
  predicate Passes(k: Setup, item: nat, g: nat)
    requires k.Net().Rows() && g < |k.Net().value|
  {
    && k.Net().Live(g) && Owned(k, g)
    && (k.overFacts || Meaning2Index(item) == 0 || Incoming(k, g) == item)
    && Meaning2Word(Outgoing(k, g)) !in k.ignored
    && !(k.noTopic && Object !in k.Net().flags[g].refs && Meaning2Word(k.Net().value[g].obj) in k.topics)
  }

  /** A link up the dictionary is followed once for each item. */
  predicate GoesUp(k: Setup, g: nat, once: bool)
    requires g < |k.Net().value|
  {
    k.upDictionary && k.Net().value[g].verb == k.graph.isa && !once
  }

  /** What is made of a fact that passes; true when the query is over. */
  function Consider(k: Setup, q: State, g: nat): (r: (State, bool))
    requires k.Net().Rows() && Bounded(q) && g < |k.Net().value|
    ensures Bounded(r.0)
  {
    if k.matches(g, q.marks) then
      if k.ricochet.Some? then
        var (q1, more) := Riccochet(k, q, g, k.ricochet.value);
        (q1, !more)
      else if g !in q.marked then
        var q1 := AddFact(q, g);
        (q1, |q1.answers| >= k.limit)
      else (q, false)
    else if k.propagates(g) && g !in q.marked then (AddWord(k, q, Outgoing(k, g), 0), false)
    else (q, false)
  }

  /** With a limit of 1 the query is over as soon as a fact is found, so that the backtrace the code
    * would then make in the next set is never made. */
  lemma FirstFoundEnds(k: Setup, q: State, g: nat)
    requires k.Net().Rows() && Bounded(q) && g < |k.Net().value|
    requires k.limit == 1 && k.ricochet.None? && k.matches(g, q.marks) && g !in q.marked
    ensures Consider(k, q, g).1 && g in Consider(k, q, g).0.answers
  {
    var r := AddFact(q, g).answers;
    assert r[|r| - 1] == g;
  }

  predicate Bounded(q: State) { |q.queue| <= MAX_QUEUE && |q.answers| <= MAX_FIND }

  function RoleOf(offset: nat): Role { if offset == 0 then Subject else if offset == 1 then Verb else Object }

  /** The inner loop, `fuel` rounds of it at most: None if it is still going. With offset 3 the
    * item is itself the fact, and no step but the last leads on from it. */
  function Rounds(k: Setup, item: nat, g: nat, q: State, once: bool, fuel: nat): (r: Option<(State, bool)>)
    requires k.Net().Rows() && Bounded(q)
    ensures r.Some? ==> Bounded(r.value.0)
    decreases fuel
  {
    if g == 0 || g >= |k.Net().value| then Some((q, false))
    else if fuel == 0 then None
    else
      var n := if k.offset >= 3 then g else k.graph.Next(RoleOf(k.offset), g);
      if !Passes(k, item, g) then Rounds(k, item, n, q, once, fuel - 1)
      else if GoesUp(k, g, once) then
        var q1 := AddWord(k, q, Outgoing(k, g), 0);
        Rounds(k, item, n, q1, true, fuel - 1)
      else
        var (q1, over) := Consider(k, q, g);
        if over then Some((q1, true))
        else if k.offset >= 3 then Some((q1, false))
        else Rounds(k, item, n, q1, once, fuel - 1)
  }

  /** The inner loop ends if and only if the item is not a fact of its own that fails a test: over
    * a list it always does, but with offset 3 a skipped fact is skipped for ever. */
  lemma RoundsEndIff(k: Setup, item: nat, g: nat, q: State, once: bool)
    requires k.Net().Rows() && Bounded(q)
    ensures (exists fuel :: Rounds(k, item, g, q, once, fuel).Some?) <==>
            k.offset < 3 || g == 0 || g >= |k.Net().value| || Passes(k, item, g)
  {
    hide AddWord, Consider, Passes, Rounds;
    if k.offset < 3 {
      ListEnds(k, item, g, q, once, g + 1);
      assert Rounds(k, item, g, q, once, g + 1).Some?;
    } else if g == 0 || g >= |k.Net().value| || Passes(k, item, g) {
      FactEnds(k, item, g, q, once, 2);
      assert Rounds(k, item, g, q, once, 2).Some?;
    } else {
      forall fuel: nat ensures Rounds(k, item, g, q, once, fuel).None? { StuckForever(k, item, g, q, once, fuel); }
    }
  }

  lemma FactEnds(k: Setup, item: nat, g: nat, q: State, once: bool, fuel: nat)
    requires k.Net().Rows() && Bounded(q) && k.offset >= 3 && fuel >= 2
    requires g == 0 || g >= |k.Net().value| || Passes(k, item, g)
    ensures Rounds(k, item, g, q, once, fuel).Some?
  {
    hide AddWord, Consider, Passes;
    if 0 < g < |k.Net().value| && GoesUp(k, g, once) {
      var q1 := AddWord(k, q, Outgoing(k, g), 0);
      assert !GoesUp(k, g, true);
      assert Rounds(k, item, g, q1, true, fuel - 1).Some?;
    }
  }

  lemma {:induction false} StuckForever(k: Setup, item: nat, g: nat, q: State, once: bool, fuel: nat)
    requires k.Net().Rows() && Bounded(q) && k.offset >= 3 && 0 < g < |k.Net().value| && !Passes(k, item, g)
    ensures Rounds(k, item, g, q, once, fuel).None?
    decreases fuel
  {
    hide AddWord, Consider, Passes;
    if fuel > 0 { StuckForever(k, item, g, q, once, fuel - 1); }
  }

  lemma {:induction false} ListEnds(k: Setup, item: nat, g: nat, q: State, once: bool, fuel: nat)
    requires k.Net().Rows() && Bounded(q) && k.offset < 3 && fuel > g
    ensures Rounds(k, item, g, q, once, fuel).Some?
    decreases fuel
  {
    hide Passes, GoesUp;
    if g != 0 && g < |k.Net().value| {
      var n := k.graph.Next(RoleOf(k.offset), g);
      var q1 := AddWord(k, q, Outgoing(k, g), 0);
      ListEnds(k, item, n, q, once, fuel - 1);
      ListEnds(k, item, n, q1, true, fuel - 1);
      ListEnds(k, item, n, Consider(k, q, g).0, once, fuel - 1);
    }
  }

  // ----- The scan over the queue ------------------------------------------------------------------

  /** Where the inner loop starts for an item of the queue. */
  function Start(k: Setup, item: nat): nat {
    if k.overFacts then
      if k.offset < 3 then k.Net().NondeadHead(RoleOf(k.offset), FactNode(item)) else item
    else
      k.Net().NondeadHead(RoleOf(k.offset), WordNode(Meaning2Word(item)))
  }

  /** The inner loop for one item ends. */
  predicate ItemEnds(k: Setup, item: nat)
    requires k.Net().Rows()
  {
    var g := Start(k, item);
    k.offset < 3 || g == 0 || g >= |k.Net().value| || Passes(k, item, g)
  }

  /** The outer loop from item `i` of the queue on, which it may still grow; None if it does not
    * end. */
  function Scan(k: Setup, i: nat, q: State): (r: Option<State>)
    requires k.Net().Rows() && Bounded(q)
    ensures r.Some? ==> Bounded(r.value)
    decreases MAX_QUEUE - i
  {
    if i >= |q.queue| then Some(q)
    else
      var item := q.queue[i] % SIMPLEMEANING;
      var g := Start(k, item);
      var r := Rounds(k, item, g, q, false, g + 2);
      if !ItemEnds(k, item) || r.None? then None
      else if r.value.1 then Some(r.value.0)
      else Scan(k, i + 1, r.value.0)
  }

  /** With enough rounds, a loop that ends has ended. */
  lemma EnoughRounds(k: Setup, item: nat, q: State)
    requires k.Net().Rows() && Bounded(q) && ItemEnds(k, item)
    ensures Rounds(k, item, Start(k, item), q, false, Start(k, item) + 2).Some?
  {
    hide AddWord, Consider, Passes, Start;
    var g := Start(k, item);
    if k.offset < 3 { ListEnds(k, item, g, q, false, g + 2); } else { FactEnds(k, item, g, q, false, g + 2); }
  }

  /** The items the outer loop gets to, from item `i` of the queue on. */
  ghost function Reached(k: Setup, i: nat, q: State): seq<nat>
    requires k.Net().Rows() && Bounded(q)
    decreases MAX_QUEUE - i
  {
    if i >= |q.queue| then []
    else
      var item := q.queue[i] % SIMPLEMEANING;
      var r := Rounds(k, item, Start(k, item), q, false, Start(k, item) + 2);
      [item] + if !ItemEnds(k, item) || r.None? || r.value.1 then [] else Reached(k, i + 1, r.value.0)
  }

  /** The scan ends if and only if no item it gets to, queued before or during it, is stuck. */
  lemma {:induction false} ScanEndsIff(k: Setup, i: nat, q: State)
    requires k.Net().Rows() && Bounded(q)
    ensures Scan(k, i, q).Some? <==> forall item :: item in Reached(k, i, q) ==> ItemEnds(k, item)
    decreases MAX_QUEUE - i
  {
    hide Rounds, Start, ItemEnds;
    if i < |q.queue| {
      var item := q.queue[i] % SIMPLEMEANING;
      assert item in Reached(k, i, q);
      if ItemEnds(k, item) {
        EnoughRounds(k, item, q);
        var r := Rounds(k, item, Start(k, item), q, false, Start(k, item) + 2);
        if !r.value.1 { ScanEndsIff(k, i + 1, r.value.0); }
      }
    }
  }

  /** A query over the lists of words or facts always ends. */
  lemma ListQueryEnds(k: Setup, queue: seq<nat>, marks: set<nat>)
    requires k.Net().Rows() && |queue| <= MAX_QUEUE && k.offset < 3
    ensures Scan(k, 0, State({}, [], queue, marks)).Some?
  {
    hide Scan, Reached;
    ScanEndsIff(k, 0, State({}, [], queue, marks));
  }

  // ----- The answers --------------------------------------------------------------------------------

  /** The answers are distinct live marked facts, and all of the marked facts as long as there is
    * room. */
  ghost predicate Good(k: Setup, q: State) {
    && (forall a :: a in q.answers ==> k.Net().Live(a) && a in q.marked)
    && (forall i, j :: 0 <= i < j < |q.answers| ==> q.answers[i] != q.answers[j])
    && |q.answers| == (if |q.marked| <= MAX_FIND then |q.marked| else MAX_FIND)
  }

  /** How many answers a query stops at. */
  function Most(k: Setup): nat { if k.limit == 0 then 1 else k.limit }

  /** With a limit that fits, no more facts are marked than the limit allows. */
  ghost predicate Within(k: Setup, q: State, over: bool) {
    k.limit <= MAX_FIND ==> |q.marked| <= Most(k) && (!over ==> |q.marked| < Most(k))
  }

  lemma AddFactIsGood(k: Setup, q: State, f: nat)
    requires Good(k, q) && Within(k, q, false) && k.Net().Live(f) && f !in q.marked
    ensures var r := AddFact(q, f); Good(k, r) && Within(k, r, |r.answers| >= k.limit)
  {
    var r := AddFact(q, f);
    assert |r.marked| == |q.marked| + 1;
    forall a | a in r.answers ensures k.Net().Live(a) && a in r.marked { assert a == f || a in q.answers; }
    forall i, j | 0 <= i < j < |r.answers|
      ensures r.answers[i] != r.answers[j]
    {
      if j == |r.answers| - 1 { assert r.answers[i] == q.answers[i] && q.answers[i] in q.answers; }
    }
  }

  lemma {:induction false} RicochetListIsGood(k: Setup, q: State, role: Role, g: nat, accepts: (nat, set<nat>) -> bool)
    requires k.Net().Rows() && |q.answers| <= MAX_FIND && Good(k, q) && Within(k, q, false) && (g == 0 || k.Net().Live(g))
    ensures var (r, more) := RicochetList(k, q, role, g, accepts); Good(k, r) && Within(k, r, !more)
    decreases g
  {
    hide Good, Within;
    if g != 0 && g < |k.Net().value| {
      var n := k.graph.Next(role, g);
      if g in q.marked || !Owned(k, g) || !accepts(g, q.marks) {
        RicochetListIsGood(k, q, role, n, accepts);
      } else {
        AddFactIsGood(k, q, g);
        var q1 := AddFact(q, g);
        if |q1.answers| < k.limit { RicochetListIsGood(k, q1, role, n, accepts); }
      }
    }
  }

  lemma ConsiderIsGood(k: Setup, q: State, g: nat)
    requires k.Net().Rows() && Bounded(q) && Good(k, q) && Within(k, q, false) && k.Net().Live(g) && g < |k.Net().value|
    ensures var (r, over) := Consider(k, q, g); Good(k, r) && Within(k, r, over)
  {
    hide Good, Within, AddWord, AddFact, RicochetList;
    if k.matches(g, q.marks) && k.ricochet.Some? {
      RiccochetIsGood(k, q, g, k.ricochet.value);
    } else if g !in q.marked {
      AddFactIsGood(k, q, g);
      GoodFrame(k, q, AddWord(k, q, Outgoing(k, g), 0));
    }
  }

  lemma RiccochetIsGood(k: Setup, q: State, g: nat, via: Ricochet)
    requires k.Net().Rows() && Bounded(q) && Good(k, q) && Within(k, q, false) && g < |k.Net().value|
    ensures var (r, more) := Riccochet(k, q, g, via); Good(k, r) && Within(k, r, !more)
  {
    hide Good, Within, AddFact, RicochetList;
    var field := if via.viaSubject then k.Net().value[g].subj else k.Net().value[g].obj;
    if Subject in k.Net().flags[g].refs || Object in k.Net().flags[g].refs {
      if k.Net().Live(field) && field !in q.marked { AddFactIsGood(k, q, field); }
    } else {
      var role := if via.usingSubject then Subject else Object;
      RicochetListIsGood(k, q, role, k.graph.First(role, Meaning2Word(field)), via.accepts);
    }
  }

  lemma GoodFrame(k: Setup, q: State, r: State)
    requires Good(k, q) && r.marked == q.marked && r.answers == q.answers
    ensures Good(k, r) && forall over :: Within(k, q, over) ==> Within(k, r, over)
  {
  }

  lemma {:induction false} RoundsAreGood(k: Setup, item: nat, g: nat, q: State, once: bool, fuel: nat)
    requires k.Net().Rows() && Bounded(q) && Good(k, q) && Within(k, q, false)
    ensures var r := Rounds(k, item, g, q, once, fuel); r.Some? ==> Good(k, r.value.0) && Within(k, r.value.0, r.value.1)
    decreases fuel
  {
    hide Good, Within, AddWord, Consider;
    if g != 0 && g < |k.Net().value| && fuel > 0 {
      var n := if k.offset >= 3 then g else k.graph.Next(RoleOf(k.offset), g);
      if !Passes(k, item, g) {
        RoundsAreGood(k, item, n, q, once, fuel - 1);
      } else if GoesUp(k, g, once) {
        var q1 := AddWord(k, q, Outgoing(k, g), 0);
        GoodFrame(k, q, q1);
        RoundsAreGood(k, item, n, q1, true, fuel - 1);
      } else {
        ConsiderIsGood(k, q, g);
        var (q1, over) := Consider(k, q, g);
        if !over && k.offset < 3 { RoundsAreGood(k, item, n, q1, once, fuel - 1); }
      }
    }
  }

  lemma {:induction false} ScanIsGood(k: Setup, i: nat, q: State)
    requires k.Net().Rows() && Bounded(q) && Good(k, q) && Within(k, q, false)
    ensures var r := Scan(k, i, q); r.Some? ==> Good(k, r.value) && Within(k, r.value, true)
    decreases MAX_QUEUE - i
  {
    hide Good, Rounds, Start, ItemEnds;
    if i < |q.queue| {
      var item := q.queue[i] % SIMPLEMEANING;
      RoundsAreGood(k, item, Start(k, item), q, false, Start(k, item) + 2);
      var r := Rounds(k, item, Start(k, item), q, false, Start(k, item) + 2);
      if r.Some? && !r.value.1 { ScanIsGood(k, i + 1, r.value.0); }
    }
  }

  function Members(answers: seq<nat>): set<nat> { set a | a in answers }

  /** The last loop of Query clears the mark of the facts in the set: what is left marked. */
  function Left(q: State): set<nat> { q.marked - Members(q.answers) }

  lemma {:induction false} AnswerCount(answers: seq<nat>)
    requires forall i, j :: 0 <= i < j < |answers| ==> answers[i] != answers[j]
    ensures |Members(answers)| == |answers|
    decreases |answers|
  {
    if answers != [] {
      var rest, last := answers[..|answers| - 1], answers[|answers| - 1];
      AnswerCount(rest);
      assert last !in rest;
      assert Members(answers) == Members(rest) + {last};
    }
  }

  lemma LeftCount(k: Setup, q: State)
    requires Good(k, q)
    ensures Left(q) == {} <==> |q.marked| <= MAX_FIND
  {
    AnswerCount(q.answers);
    assert Members(q.answers) <= q.marked;
    assert q.marked == Members(q.answers) + Left(q);
    assert |q.marked| == |q.answers| + |Left(q)|;
  }

  /** A query that starts with no fact marked ends with distinct live facts as its answers. No fact
    * is left marked if and only if the facts found fit in a set; with a limit that fits they
    * always do. */
  lemma QueryIsClean(k: Setup, queue: seq<nat>, marks: set<nat>)
    requires k.Net().Rows() && |queue| <= MAX_QUEUE
    ensures var r := Scan(k, 0, State({}, [], queue, marks));
            r.Some? ==> Good(k, r.value) && (Left(r.value) == {} <==> |r.value.marked| <= MAX_FIND)
                        && (k.limit <= MAX_FIND ==> Left(r.value) == {} && |r.value.answers| <= Most(k))
  {
    hide Scan, Left;
    var q := State({}, [], queue, marks);
    ScanIsGood(k, 0, q);
    var r := Scan(k, 0, q);
    if r.Some? { LeftCount(k, r.value); }
  }

  // ----- The scan as the program runs it --------------------------------------------------------------

  /** The two loops of the scan, and the loop that clears the marks. Where an item is stuck the
    * program would not come back; such a queue is refused here. */
  method Run(k: Setup, queue: seq<nat>, marks: set<nat>) returns (q: State, left: set<nat>)
    requires k.Net().Rows() && |queue| <= MAX_QUEUE
    requires forall item :: item in Reached(k, 0, State({}, [], queue, marks)) ==> ItemEnds(k, item)
    ensures Some(q) == Scan(k, 0, State({}, [], queue, marks)) && left == Left(q)
    ensures Good(k, q) && (left == {} <==> |q.marked| <= MAX_FIND)
  {
    hide Good, Rounds, Scan, Reached, ItemEnds, Start, Left, Within;
    q := State({}, [], queue, marks);
    QueryIsClean(k, queue, marks);
    ScanEndsIff(k, 0, q);
    var scanIndex: nat := 0;
    while scanIndex < |q.queue|
      invariant Bounded(q) && Scan(k, scanIndex, q) == Scan(k, 0, State({}, [], queue, marks))
      decreases MAX_QUEUE - scanIndex
    {
      var item := q.queue[scanIndex] % SIMPLEMEANING;
      ScanStep(k, scanIndex, q);
      EnoughRounds(k, item, q);
      scanIndex := scanIndex + 1;
      var over;
      q, over := ScanItem(k, item, q);
      if over { break; }
    }
    if scanIndex >= |q.queue| { ScanStep(k, scanIndex, q); }
    left := ClearMarks(q);
  }

  method ScanItem(k: Setup, item: nat, q0: State) returns (q: State, over: bool)
    requires k.Net().Rows() && Bounded(q0)
    requires Rounds(k, item, Start(k, item), q0, false, Start(k, item) + 2).Some?
    ensures Rounds(k, item, Start(k, item), q0, false, Start(k, item) + 2) == Some((q, over))
  {
    hide Passes, GoesUp, Consider, AddWord, Start;
    q, over := q0, false;
    var g: nat, once := Start(k, item), false;
    ghost var fuel: nat := g + 2;
    while 0 < g < |k.Net().value|
      invariant Bounded(q) && !over
      invariant Rounds(k, item, g, q, once, fuel) == Rounds(k, item, Start(k, item), q0, false, Start(k, item) + 2)
      decreases fuel
    {
      var f := g;
      if k.offset < 3 { g := k.graph.Next(RoleOf(k.offset), f); }
      fuel := fuel - 1;
      if !Passes(k, item, f) { continue; }
      if GoesUp(k, f, once) {
        once := true;
        q := AddWord(k, q, Outgoing(k, f), 0);
        continue;
      }
      var r := Consider(k, q, f);
      q, over := r.0, r.1;
      if over || k.offset >= 3 { break; }
    }
  }

  method ClearMarks(q: State) returns (left: set<nat>)
    ensures left == Left(q)
  {
    left := q.marked;
    var i := 0;
    while i < |q.answers|
      invariant 0 <= i <= |q.answers| && left == q.marked - Members(q.answers[..i])
    {
      left := left - {q.answers[i]};
      assert q.answers[..i + 1] == q.answers[..i] + [q.answers[i]];
      i := i + 1;
    }
    assert q.answers[..i] == q.answers;
  }

  lemma ScanStep(k: Setup, i: nat, q: State)
    requires k.Net().Rows() && Bounded(q)
    ensures i >= |q.queue| ==> Scan(k, i, q) == Some(q)
    ensures i < |q.queue| ==>
              var item := q.queue[i] % SIMPLEMEANING;
              var r := Rounds(k, item, Start(k, item), q, false, Start(k, item) + 2);
              Scan(k, i, q) == if !ItemEnds(k, item) || r.None? then None
                               else if r.value.1 then Some(r.value.0) else Scan(k, i + 1, r.value.0)
  {
    hide Rounds, ItemEnds, Start;
  }
}
