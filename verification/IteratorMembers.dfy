/** What the concept iterator answers, told by the fields of the facts: their other sides, newest first,
  * and for a recursive iteration what a chain of such facts leads down to. */
module IteratorMembers {
  import opened Threads
  import opened Facts
  import opened FactLaws
  import opened Inference
  import opened Iterator

  /** A live fact whose object, or subject, is this word. */
  ghost predicate OnSide(s: Net, role: Role, word: nat, g: nat) {
    && 0 < g < |s.flags| && g < |s.value| && !s.flags[g].dead && s.value[g].subj != 0
    && if role == Object then Object !in s.flags[g].refs && s.value[g].obj % 0x100000 == word
       else Subject !in s.flags[g].refs && s.value[g].subj % 0x100000 == word
  }

  /** The other side of a fact. */
  function Other(role: Role, v: Triple): nat { if role == Object then v.subj else v.obj }

  /** The facts of a word with one verb: exactly those, newest first. */
  ghost predicate Lists(s: Net, role: Role, verb: nat, word: nat, gs: seq<nat>) {
    && (forall g :: g in gs ==> 0 < g < |s.value|)
    && (forall g: nat :: g in gs <==> OnSide(s, role, word, g) && s.value[g].verb == verb)
    && forall i, j :: 0 <= i < j < |gs| ==> gs[i] > gs[j]
  }

  /** Calls in a row, as many as it takes and each with as many rounds as it takes, answer these and fail then. */
  ghost predicate Gives(k: Iteration, s: Net, word: nat, answers: seq<nat>) {
    exists enough: nat :: GivesFrom(k, s, word, answers, enough)
  }

  ghost predicate GivesFrom(k: Iteration, s: Net, word: nat, answers: seq<nat>, enough: nat) {
    forall fuel: nat, n: nat :: fuel >= enough && n >= enough ==> Calls(k, s, word, 0, fuel, n) == answers
  }

  /** What an iteration by object or by subject needs: no live fact it meets is taken for a record, and
    * where it recurses the concepts do not lead back to themselves. */
  ghost predicate Runs(k: Iteration, s: Net, rank: nat -> nat) {
    && Threaded(s) && k.role != Verb
    && (forall word: nat, g: nat :: OnSide(s, k.role, word, g) ==> !s.flags[g].marked)
    && (k.recursive ==>
          forall word: nat, g: nat :: OnSide(s, k.role, word, g) && s.value[g].verb == k.verb ==>
            var down := Other(k.role, s.value[g]) % 0x100000; k.concept(down) ==> rank(down) < rank(word))
  }

  lemma SideIsOnWord(k: Iteration, s: Net, g: nat)
    requires k.role != Verb
    ensures OnWord(k, s, g) <==> g < |s.value| && OnSide(s, k.role, s.value[g].At(k.role) % 0x100000, g)
    ensures OnWord(k, s, g) ==> Owner(k, s, g) == s.value[g].At(k.role) % 0x100000
  {
  }

  lemma SideIsAt(k: Iteration, s: Net, word: nat, g: nat)
    requires k.role != Verb && OnSide(s, k.role, word, g)
    ensures g < |s.value| && word == s.value[g].At(k.role) % 0x100000
  {
  }

  lemma RunsIsReady(k: Iteration, s: Net, rank: nat -> nat)
    requires Runs(k, s, rank)
    ensures Ready(k, s, rank)
  {
    hide Threaded, OnWord, OnSide;
    forall g: nat | OnWord(k, s, g)
      ensures g < |s.flags| && g < |s.value| && !s.flags[g].marked
      ensures s.value[g].verb == k.verb && k.Nests(s.value[g]) ==> rank(Meaning2Word(k.Field(s.value[g]))) < rank(Owner(k, s, g))
    {
      OnWordIsInUse(k, s, g);
      SideIsOnWord(k, s, g);
      assert k.Field(s.value[g]) == Other(k.role, s.value[g]);
    }
  }

  // ----- The facts of one word --------------------------------------------------------------------

  /** The facts with the verb from `g` on. */
  ghost function Along(k: Iteration, s: Net, g: nat): seq<nat>
    requires Threaded(s) && (g == 0 || OnWord(k, s, g))
    decreases g
  {
    if g == 0 then []
    else
      NextOnWord(k, s, g);
      (if s.value[g].verb == k.verb then [g] else []) + Along(k, s, NextOf(k, s, g))
  }

  lemma {:induction false} AlongMembers(k: Iteration, s: Net, g: nat, word: nat)
    requires Threaded(s) && k.role != Verb && (g == 0 || OnSide(s, k.role, word, g))
    ensures g == 0 || OnWord(k, s, g)
    ensures var gs := Along(k, s, g);
            && (forall i: nat :: i in gs <==> OnSide(s, k.role, word, i) && i <= g && s.value[i].verb == k.verb)
            && forall i, j :: 0 <= i < j < |gs| ==> gs[i] > gs[j]
    decreases g
  {
    hide Threaded, OnWord, OnSide, NextOf, Along;
    if g == 0 {
      NoneAlong(k, s);
      NotAtNull(s, k.role, word);
    } else {
      SideIsAt(k, s, word, g);
      SideIsOnWord(k, s, g);
      NextOnWord(k, s, g);
      var n := NextOf(k, s, g);
      NextOnSide(k, s, g, word);
      AlongMembers(k, s, n, word);
      AlongStep(k, s, g);
      var rest := Along(k, s, n);
      assert forall j :: 0 <= j < |rest| ==> rest[j] in rest;
    }
  }

  lemma NoneAlong(k: Iteration, s: Net)
    requires Threaded(s)
    ensures Along(k, s, 0) == []
  {
    hide Threaded, OnWord;
  }

  lemma NotAtNull(s: Net, role: Role, word: nat)
    ensures !OnSide(s, role, word, 0)
  {
  }

  lemma AlongStep(k: Iteration, s: Net, g: nat)
    requires Threaded(s) && OnWord(k, s, g)
    ensures 0 < g < |s.value|
    ensures var n := NextOf(k, s, g);
            && (n == 0 || OnWord(k, s, n))
            && Along(k, s, g) == (if s.value[g].verb == k.verb then [g] else []) + Along(k, s, n)
  {
    hide Threaded, OnWord, NextOf;
    OnWordIsInUse(k, s, g);
    NextOnWord(k, s, g);
  }

  /** The next fact of the walk is the newest older one on this side of the word. */
  lemma NextOnSide(k: Iteration, s: Net, g: nat, word: nat)
    requires Threaded(s) && k.role != Verb && OnSide(s, k.role, word, g)
    ensures var n := NextOf(k, s, g);
            && (n != 0 ==> OnSide(s, k.role, word, n) && n < g)
            && forall i: nat :: OnSide(s, k.role, word, i) && i < g ==> n != 0 && i <= n
  {
    hide Threaded, Net.NondeadNext;
    SideIsUnder(k, s, word, g);
    NextIsNewest(s, k.role, WordNode(word), g);
    var n := NextOf(k, s, g);
    SideIsUnder(k, s, word, n);
    forall i: nat | OnSide(s, k.role, word, i) && i < g
      ensures n != 0 && i <= n
    {
      SideIsUnder(k, s, word, i);
    }
  }

  lemma SideIsUnder(k: Iteration, s: Net, word: nat, g: nat)
    requires k.role != Verb
    ensures OnSide(s, k.role, word, g) <==> LiveUnder(s, k.role, WordNode(word), g)
  {
  }

  /** The walk from the head of a word lists its facts with the verb. */
  lemma HeadLists(k: Iteration, s: Net, word: nat)
    requires Threaded(s) && k.role != Verb
    ensures var h := HeadOf(k, s, word);
            (h == 0 || OnWord(k, s, h)) && Lists(s, k.role, k.verb, word, Along(k, s, h))
  {
    hide Threaded, OnWord, OnSide, Along, Net.NondeadHead;
    HeadIsNewest(s, k.role, WordNode(word));
    var h := HeadOf(k, s, word);
    SideIsUnder(k, s, word, h);
    AlongMembers(k, s, h, word);
    forall i: nat
      ensures OnSide(s, k.role, word, i) ==> 0 < i <= h && i < |s.value|
    {
      SideIsUnder(k, s, word, i);
      SideInUse(s, k.role, word, i);
    }
  }

  lemma SideInUse(s: Net, role: Role, word: nat, g: nat)
    ensures OnSide(s, role, word, g) ==> 0 < g < |s.value|
  {
  }

  // ----- The answers of one word ------------------------------------------------------------------

  /** What one fact brings: its other side, or all that nested concept has. */
  ghost function Part(k: Iteration, s: Net, rank: nat -> nat, g: nat): seq<nat>
    requires Ready(k, s, rank) && OnWord(k, s, g)
  {
    var v := s.value[g];
    if k.Nests(v) then
      HeadOnWord(k, s, Meaning2Word(k.Field(v)));
      FlatFrom(k, s, rank, HeadOf(k, s, Meaning2Word(k.Field(v))))
    else [k.Field(v)]
  }

  ghost function Parts(k: Iteration, s: Net, rank: nat -> nat, gs: seq<nat>): seq<seq<nat>>
    requires Ready(k, s, rank) && forall g :: g in gs ==> OnWord(k, s, g)
    decreases |gs|
  {
    if gs == [] then [] else [Part(k, s, rank, gs[0])] + Parts(k, s, rank, gs[1..])
  }

  ghost function Concat(parts: seq<seq<nat>>): seq<nat>
    decreases |parts|
  {
    if parts == [] then [] else parts[0] + Concat(parts[1..])
  }

  lemma {:induction false} FlatIsConcat(k: Iteration, s: Net, rank: nat -> nat, g: nat)
    requires Ready(k, s, rank) && (g == 0 || OnWord(k, s, g))
    ensures Threaded(s) && forall i :: i in Along(k, s, g) ==> OnWord(k, s, i)
    ensures FlatFrom(k, s, rank, g) == Concat(Parts(k, s, rank, Along(k, s, g)))
    decreases g
  {
    hide Ready, Threaded, OnWord, HeadOf, NextOf, FlatFrom, WorkFrom, Along, Part;
    ReadyThreaded(k, s, rank);
    if g == 0 {
      NoneAlong(k, s);
      NoneFlat(k, s, rank);
    } else {
      NextOnWord(k, s, g);
      AlongStep(k, s, g);
      FlatStep(k, s, rank, g);
      FlatIsConcat(k, s, rank, NextOf(k, s, g));
      if s.value[g].verb == k.verb {
        PartIs(k, s, rank, g);
        assert ([g] + Along(k, s, NextOf(k, s, g)))[1..] == Along(k, s, NextOf(k, s, g));
        assert Parts(k, s, rank, Along(k, s, g))[1..] == Parts(k, s, rank, Along(k, s, NextOf(k, s, g)));
      } else {
        assert Along(k, s, g) == Along(k, s, NextOf(k, s, g));
        assert [] + FlatFrom(k, s, rank, NextOf(k, s, g)) == FlatFrom(k, s, rank, NextOf(k, s, g));
      }
    }
  }

  lemma PartIs(k: Iteration, s: Net, rank: nat -> nat, g: nat)
    requires Ready(k, s, rank) && OnWord(k, s, g)
    ensures g < |s.value|
    ensures var v := s.value[g]; var h := HeadOf(k, s, Meaning2Word(k.Field(v)));
            (h == 0 || OnWord(k, s, h)) && Part(k, s, rank, g) == if k.Nests(v) then FlatFrom(k, s, rank, h) else [k.Field(v)]
  {
    hide Threaded, HeadOf, FlatFrom;
    HeadOnWord(k, s, Meaning2Word(k.Field(s.value[g])));
  }

  lemma FlatIsGiven(k: Iteration, s: Net, rank: nat -> nat, word: nat)
    requires Ready(k, s, rank)
    ensures var h := HeadOf(k, s, word); (h == 0 || OnWord(k, s, h)) && Gives(k, s, word, FlatFrom(k, s, rank, h))
  {
    hide Ready, OnWord, HeadOf, FlatFrom, WorkFrom, Calls;
    IteratorFlattens(k, s, rank, word, 0, 0);
    var h := HeadOf(k, s, word);
    var enough := WorkFrom(k, s, rank, h) + |FlatFrom(k, s, rank, h)| + 1;
    forall fuel: nat, n: nat | fuel >= enough && n >= enough
      ensures Calls(k, s, word, 0, fuel, n) == FlatFrom(k, s, rank, h)
    {
      IteratorFlattens(k, s, rank, word, fuel, n);
    }
    assert GivesFrom(k, s, word, FlatFrom(k, s, rank, h), enough);
  }

  /** An iteration that does not recurse answers the subjects of the facts that have the word as object,
    * or the objects of those that have it as subject: of exactly the live ones with the verb, newest
    * first. */
  lemma PlainAnswers(k: Iteration, s: Net, rank: nat -> nat, word: nat) returns (gs: seq<nat>)
    requires Runs(k, s, rank) && !k.recursive
    ensures Lists(s, k.role, k.verb, word, gs)
    ensures forall i :: 0 <= i < |gs| ==> 0 < gs[i] < |s.value|
    ensures Gives(k, s, word, seq(|gs|, i requires 0 <= i < |gs| =>
              if k.role == Object then s.value[gs[i]].subj else s.value[gs[i]].obj))
  {
    hide Runs, Threaded, Ready, OnWord, OnSide, HeadOf, FlatFrom, Along, Gives, Parts, Concat;
    RunsParts(k, s, rank);
    RunsIsReady(k, s, rank);
    HeadLists(k, s, word);
    FlatIsGiven(k, s, rank, word);
    FlatIsConcat(k, s, rank, HeadOf(k, s, word));
    gs := Along(k, s, HeadOf(k, s, word));
    forall i | 0 <= i < |gs| ensures 0 < gs[i] < |s.value| { assert gs[i] in gs; }
    PlainConcat(k, s, rank, gs);
  }

  lemma RunsParts(k: Iteration, s: Net, rank: nat -> nat)
    requires Runs(k, s, rank)
    ensures Threaded(s) && k.role != Verb
  {
    hide Threaded;
  }

  lemma {:induction false} PlainConcat(k: Iteration, s: Net, rank: nat -> nat, gs: seq<nat>)
    requires Ready(k, s, rank) && !k.recursive && k.role != Verb && forall g :: g in gs ==> OnWord(k, s, g)
    ensures forall i :: 0 <= i < |gs| ==> 0 < gs[i] < |s.value|
    ensures Concat(Parts(k, s, rank, gs)) ==
            seq(|gs|, i requires 0 <= i < |gs| => if k.role == Object then s.value[gs[i]].subj else s.value[gs[i]].obj)
    decreases |gs|
  {
    hide Ready, OnWord, HeadOf, FlatFrom, Part;
    forall i | 0 <= i < |gs| ensures 0 < gs[i] < |s.value| { assert gs[i] in gs; OnWordIsInUse(k, s, gs[i]); }
    if gs != [] {
      PartIs(k, s, rank, gs[0]);
      PlainConcat(k, s, rank, gs[1..]);
      assert Parts(k, s, rank, gs)[1..] == Parts(k, s, rank, gs[1..]);
    }
  }

  /** An iteration that recurses answers, for the facts of a word from the newest on, their other sides,
    * each concept among these replaced by all that an iteration over it answers. */
  lemma NestedAnswers(k: Iteration, s: Net, rank: nat -> nat, word: nat) returns (gs: seq<nat>, parts: seq<seq<nat>>)
    requires Runs(k, s, rank) && k.recursive
    ensures Lists(s, k.role, k.verb, word, gs) && |parts| == |gs|
    ensures Gives(k, s, word, Concat(parts))
    ensures forall i :: 0 <= i < |gs| ==> 0 < gs[i] < |s.value|
    ensures forall i :: 0 <= i < |gs| ==>
              var m := if k.role == Object then s.value[gs[i]].subj else s.value[gs[i]].obj;
              if k.concept(m % 0x100000) then Gives(k, s, m % 0x100000, parts[i]) else parts[i] == [m]
  {
    hide Runs, Threaded, Ready, OnWord, OnSide, HeadOf, FlatFrom, Along, Gives, Parts, Concat;
    RunsParts(k, s, rank);
    RunsIsReady(k, s, rank);
    HeadLists(k, s, word);
    FlatIsGiven(k, s, rank, word);
    FlatIsConcat(k, s, rank, HeadOf(k, s, word));
    gs := Along(k, s, HeadOf(k, s, word));
    parts := Parts(k, s, rank, gs);
    PartsAt(k, s, rank, gs);
    forall i | 0 <= i < |gs|
      ensures 0 < gs[i] < |s.value|
      ensures var m := if k.role == Object then s.value[gs[i]].subj else s.value[gs[i]].obj;
              if k.concept(m % 0x100000) then Gives(k, s, m % 0x100000, parts[i]) else parts[i] == [m]
    {
      assert gs[i] in gs;
      PartIs(k, s, rank, gs[i]);
      OnWordIsInUse(k, s, gs[i]);
      FlatIsGiven(k, s, rank, Meaning2Word(k.Field(s.value[gs[i]])));
    }
  }

  lemma {:induction false} PartsAt(k: Iteration, s: Net, rank: nat -> nat, gs: seq<nat>)
    requires Ready(k, s, rank) && forall g :: g in gs ==> OnWord(k, s, g)
    ensures |Parts(k, s, rank, gs)| == |gs|
    ensures forall i :: 0 <= i < |gs| ==> OnWord(k, s, gs[i]) && Parts(k, s, rank, gs)[i] == Part(k, s, rank, gs[i])
    decreases |gs|
  {
    hide Ready, OnWord, Part;
    if gs != [] {
      assert gs[0] in gs;
      PartsAt(k, s, rank, gs[1..]);
      forall i | 0 <= i < |gs|
        ensures OnWord(k, s, gs[i]) && Parts(k, s, rank, gs)[i] == Part(k, s, rank, gs[i])
      {
        assert gs[i] in gs;
        if i > 0 { assert gs[i] == gs[1..][i - 1]; }
      }
    }
  }

  // ----- Chains of facts ----------------------------------------------------------------------------

  /** A chain of facts with the verb from a word down to a meaning: each is on the concept the one before
    * leads to, and only the last leads to no concept. */
  ghost predicate Leads(s: Net, role: Role, verb: nat, concept: nat -> bool, word: nat, path: seq<nat>, m: nat)
    decreases |path|
  {
    && path != [] && OnSide(s, role, word, path[0]) && s.value[path[0]].verb == verb
    && var down := if role == Object then s.value[path[0]].subj else s.value[path[0]].obj;
       if |path| == 1 then down == m && !concept(m % 0x100000)
       else concept(down % 0x100000) && Leads(s, role, verb, concept, down % 0x100000, path[1..], m)
  }

  lemma {:induction false} InConcat(parts: seq<seq<nat>>, m: nat)
    ensures m in Concat(parts) <==> exists i :: 0 <= i < |parts| && m in parts[i]
    decreases |parts|
  {
    if parts != [] {
      InConcat(parts[1..], m);
      assert forall i :: 0 < i < |parts| ==> parts[i] == parts[1..][i - 1];
      assert forall i :: 0 <= i < |parts| - 1 ==> parts[1..][i] == parts[i + 1];
    }
  }

  /** The meanings of a word are those of its facts. */
  lemma InFlat(k: Iteration, s: Net, rank: nat -> nat, word: nat, m: nat)
    requires Runs(k, s, rank)
    ensures Ready(k, s, rank) && var h := HeadOf(k, s, word); h == 0 || OnWord(k, s, h)
    ensures forall g: nat :: OnSide(s, k.role, word, g) ==> OnWord(k, s, g) && 0 < g < |s.value|
    ensures m in FlatFrom(k, s, rank, HeadOf(k, s, word)) <==>
            exists g: nat :: OnSide(s, k.role, word, g) && s.value[g].verb == k.verb && m in Part(k, s, rank, g)
  {
    hide Runs, Threaded, Ready, OnWord, OnSide, HeadOf, FlatFrom, Along, Part, Parts, Concat;
    RunsParts(k, s, rank);
    RunsIsReady(k, s, rank);
    HeadLists(k, s, word);
    FlatIsConcat(k, s, rank, HeadOf(k, s, word));
    var gs := Along(k, s, HeadOf(k, s, word));
    PartsAt(k, s, rank, gs);
    InConcat(Parts(k, s, rank, gs), m);
    forall g: nat | OnSide(s, k.role, word, g)
      ensures OnWord(k, s, g) && 0 < g < |s.value|
    {
      SideIsAt(k, s, word, g);
      SideIsOnWord(k, s, g);
      SideInUse(s, k.role, word, g);
    }
    if g: nat :| OnSide(s, k.role, word, g) && s.value[g].verb == k.verb && m in Part(k, s, rank, g) {
      assert g in gs;
    }
    if i :| 0 <= i < |gs| && m in Parts(k, s, rank, gs)[i] { assert gs[i] in gs; }
  }

  /** What a fact brings, by its fields. */
  lemma PartOnSide(k: Iteration, s: Net, rank: nat -> nat, word: nat, g: nat)
    requires Runs(k, s, rank) && k.recursive && OnSide(s, k.role, word, g) && s.value[g].verb == k.verb
    ensures Ready(k, s, rank) && OnWord(k, s, g)
    ensures var down := if k.role == Object then s.value[g].subj else s.value[g].obj; var h := HeadOf(k, s, down % 0x100000);
            && (h == 0 || OnWord(k, s, h))
            && (k.concept(down % 0x100000) ==> rank(down % 0x100000) < rank(word))
            && Part(k, s, rank, g) == if k.concept(down % 0x100000) then FlatFrom(k, s, rank, h) else [down]
  {
    hide Threaded, OnWord, OnSide, HeadOf, FlatFrom;
    RunsIsReady(k, s, rank);
    SideIsAt(k, s, word, g);
    SideIsOnWord(k, s, g);
    PartIs(k, s, rank, g);
  }

  lemma {:induction false} LeadsIfFlat(k: Iteration, s: Net, rank: nat -> nat, word: nat, m: nat) returns (path: seq<nat>)
    requires Runs(k, s, rank) && k.recursive && Ready(k, s, rank)
    requires var h := HeadOf(k, s, word); (h == 0 || OnWord(k, s, h)) && m in FlatFrom(k, s, rank, h)
    ensures Leads(s, k.role, k.verb, k.concept, word, path, m) && !k.concept(m % 0x100000)
    decreases rank(word)
  {
    hide Runs, Ready, OnWord, OnSide, HeadOf, FlatFrom, Part;
    InFlat(k, s, rank, word, m);
    var g: nat :| OnSide(s, k.role, word, g) && s.value[g].verb == k.verb && m in Part(k, s, rank, g);
    PartOnSide(k, s, rank, word, g);
    var down := if k.role == Object then s.value[g].subj else s.value[g].obj;
    if k.concept(down % 0x100000) {
      var rest := LeadsIfFlat(k, s, rank, down % 0x100000, m);
      path := [g] + rest;
      assert path[1..] == rest;
    } else {
      path := [g];
    }
  }

  lemma FlatBy(k: Iteration, s: Net, rank: nat -> nat, word: nat, g: nat, m: nat)
    requires Runs(k, s, rank) && OnSide(s, k.role, word, g) && s.value[g].verb == k.verb
    requires Ready(k, s, rank) && OnWord(k, s, g) && m in Part(k, s, rank, g)
    ensures var h := HeadOf(k, s, word); (h == 0 || OnWord(k, s, h)) && m in FlatFrom(k, s, rank, h)
  {
    hide Runs, Ready, OnWord, HeadOf, FlatFrom, Part;
    InFlat(k, s, rank, word, m);
  }

  lemma {:induction false} FlatIfLeads(k: Iteration, s: Net, rank: nat -> nat, word: nat, path: seq<nat>, m: nat)
    requires Runs(k, s, rank) && k.recursive && Leads(s, k.role, k.verb, k.concept, word, path, m)
    ensures Ready(k, s, rank) && var h := HeadOf(k, s, word); h == 0 || OnWord(k, s, h)
    ensures m in FlatFrom(k, s, rank, HeadOf(k, s, word))
    decreases |path|
  {
    hide Runs, Ready, OnWord, OnSide, HeadOf, FlatFrom, Part;
    SideInUse(s, k.role, word, path[0]);
    PartOnSide(k, s, rank, word, path[0]);
    var down := if k.role == Object then s.value[path[0]].subj else s.value[path[0]].obj;
    if |path| > 1 { FlatIfLeads(k, s, rank, down % 0x100000, path[1..], m); }
    FlatBy(k, s, rank, word, path[0], m);
  }

  ghost predicate LeadsDown(k: Iteration, s: Net, word: nat, m: nat) {
    exists path: seq<nat> :: Leads(s, k.role, k.verb, k.concept, word, path, m)
  }

  lemma FlatIffLeads(k: Iteration, s: Net, rank: nat -> nat, word: nat, m: nat)
    requires Runs(k, s, rank) && k.recursive
    ensures Ready(k, s, rank) && var h := HeadOf(k, s, word); h == 0 || OnWord(k, s, h)
    ensures m in FlatFrom(k, s, rank, HeadOf(k, s, word)) <==> LeadsDown(k, s, word, m)
    ensures LeadsDown(k, s, word, m) ==> !k.concept(m % 0x100000)
  {
    hide Runs, Ready, OnWord, HeadOf, FlatFrom, Leads;
    InFlat(k, s, rank, word, m);
    if m in FlatFrom(k, s, rank, HeadOf(k, s, word)) { var path := LeadsIfFlat(k, s, rank, word, m); }
    if path: seq<nat> :| Leads(s, k.role, k.verb, k.concept, word, path, m) {
      FlatIfLeads(k, s, rank, word, path, m);
      var again := LeadsIfFlat(k, s, rank, word, m);
    }
  }

  /** An iteration that recurses answers a meaning if and only if a chain of live facts with the verb leads
    * down to it, through nothing but concepts; and it never answers a concept. */
  lemma RecursiveAnswers(k: Iteration, s: Net, rank: nat -> nat, word: nat) returns (answers: seq<nat>)
    requires Runs(k, s, rank) && k.recursive
    ensures Gives(k, s, word, answers)
    ensures forall m: nat :: m in answers <==> LeadsDown(k, s, word, m)
    ensures forall m: nat :: m in answers ==> !k.concept(m % 0x100000)
  {
    hide Runs, Ready, OnWord, HeadOf, FlatFrom, Gives, LeadsDown;
    RunsIsReady(k, s, rank);
    FlatIsGiven(k, s, rank, word);
    answers := FlatFrom(k, s, rank, HeadOf(k, s, word));
    forall m: nat
      ensures m in answers <==> LeadsDown(k, s, word, m)
      ensures m in answers ==> !k.concept(m % 0x100000)
    {
      FlatIffLeads(k, s, rank, word, m);
    }
  }
}
