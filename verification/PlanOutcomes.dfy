/** What a reader finds after a planner call: the facts and words made by the operations kept. */
module PlanOutcomes {
  import opened Words
  import opened Facts
  import opened FactLaws
  import opened FactKill
  import opened FactUndo
  import opened FactClosure
  import opened Lexicon
  import opened LexiconLaws
  import opened LexiconUndo
  import opened Backtrack
  import opened Planner
  import opened OpEffects
  import opened PlanEffects

  // ----- Membership -----------------------------------------------------------------------------

  /** An operation is kept of some steps if it is one of them or kept of a planner call among them. */
  lemma {:induction false} KeptInSteps(steps: seq<Step>, op: Op)
    ensures op in KeptOfSteps(steps) <==>
            exists i :: 0 <= i < |steps| && (steps[i] == Do(op) || (steps[i].Plan? && op in KeptOfPlans(steps[i].plans)))
    decreases |steps|
  {
    hide KeptOfPlans;
    if steps != [] {
      KeptInSteps(steps[1..], op);
      assert forall i :: 0 < i < |steps| ==> steps[i] == steps[1..][i - 1];
      assert forall i :: 0 <= i < |steps| - 1 ==> steps[1..][i] == steps[i + 1];
    }
  }

  /** Of the attempts at a rule, what the final one does is kept. */
  lemma {:induction false} KeptInAttempts(attempts: seq<Attempt>, f: nat)
    requires Final(attempts, f)
    ensures KeptOfAttempts(attempts) == KeptOfSteps(attempts[f].steps)
    decreases |attempts|
  {
    hide Final, KeptOfSteps;
    FinalIsAttempt(attempts, f);
    if Final(attempts, 0) {
      OneFinal(attempts, 0, f);
    } else {
      FinalRest(attempts);
      KeptInAttempts(attempts[1..], f - 1);
    }
  }

  lemma FinalIsAttempt(attempts: seq<Attempt>, f: nat)
    requires Final(attempts, f)
    ensures f < |attempts|
  {
  }

  /** The rule is come to: none before it ends the topic. */
  ghost predicate Reached(rules: seq<Rule>, j: nat) { j < |rules| && forall q :: 0 <= q < j ==> !Ends(rules[q]) }

  lemma {:induction false} KeptInRules(rules: seq<Rule>, op: Op)
    ensures op in KeptOfRules(rules) <==> exists j: nat :: Reached(rules, j) && op in KeptOfAttempts(rules[j].attempts)
    decreases |rules|
  {
    hide Reached, Ends, KeptOfAttempts;
    if rules == [] {
      NoneReached();
    } else {
      KeptInRules(rules[1..], op);
      ReachedRest(rules);
      if j: nat :| Reached(rules, j) && op in KeptOfAttempts(rules[j].attempts) {
        if j > 0 { assert Reached(rules[1..], j - 1) && rules[1..][j - 1] == rules[j]; }
      }
      if !Ends(rules[0]) {
        if j: nat :| Reached(rules[1..], j) && op in KeptOfAttempts(rules[1..][j].attempts) {
          assert Reached(rules, j + 1) && rules[1..][j] == rules[j + 1];
        }
      }
    }
  }

  lemma NoneReached()
    ensures forall j: nat :: !Reached([], j)
  {
  }

  lemma ReachedRest(rules: seq<Rule>)
    requires rules != []
    ensures Reached(rules, 0)
    ensures forall j: nat :: Reached(rules, j) ==> j < |rules|
    ensures forall j: nat :: Reached(rules[1..], j) ==> j < |rules| - 1
    ensures Ends(rules[0]) ==> forall j: nat :: Reached(rules, j) ==> j == 0
    ensures !Ends(rules[0]) ==> forall j: nat :: j > 0 ==> (Reached(rules, j) <==> Reached(rules[1..], j - 1))
  {
    hide Ends;
    forall j: nat | j > 0
      ensures Reached(rules, j) ==> !Ends(rules[0])
      ensures !Ends(rules[0]) ==> (Reached(rules, j) <==> Reached(rules[1..], j - 1))
    {
      ReachedDown(rules, j);
    }
  }

  lemma ReachedDown(rules: seq<Rule>, j: nat)
    requires rules != [] && j > 0
    ensures Reached(rules, j) <==> !Ends(rules[0]) && Reached(rules[1..], j - 1)
  {
    hide Ends;
    var rest := rules[1..];
    assert forall q :: 0 <= q < |rest| ==> rest[q] == rules[q + 1];
    if !Ends(rules[0]) && Reached(rest, j - 1) {
      forall q | 0 <= q < j
        ensures !Ends(rules[q])
      {
        if q > 0 { assert rest[q - 1] == rules[q]; }
      }
    }
  }

  /** Of the plans, what the rules of the one that ends the call do is kept; of a call that fails, nothing. */
  lemma {:induction false} KeptInPlans(plans: seq<Alternative>)
    ensures forall p: nat :: Ending(plans, p) ==> p < |plans| && plans[p].Topic? && KeptOfPlans(plans) == KeptOfRules(plans[p].rules)
    ensures (forall p: nat :: !Ending(plans, p)) ==> KeptOfPlans(plans) == []
    decreases |plans|
  {
    hide Ending, Achieves, KeptOfRules;
    EndingTopics(plans);
    if plans == [] || plans[0].NoTopic? {
      NoneEnding(plans);
    } else {
      EndingRest(plans);
      KeptInPlans(plans[1..]);
      if Achieves(plans[0]) { OneEnding(plans); }
    }
  }

  lemma EndingTopics(plans: seq<Alternative>)
    ensures forall p: nat :: Ending(plans, p) ==> p < |plans| && plans[p].Topic?
  {
  }

  lemma OneEnding(plans: seq<Alternative>)
    requires plans != [] && Achieves(plans[0])
    ensures forall p: nat :: Ending(plans, p) ==> p == 0
  {
    hide Achieves;
  }

  // ----- Facts ----------------------------------------------------------------------------------

  predicate Kills(op: Op) { op.OnFacts? && op.op.Kill? }

  /** The facts and words there were stay, with their fields; a fact may have died, unless `alive`. */
  ghost predicate Stay(a: World, b: World, alive: bool)
    requires a.net.Rows() && b.net.Rows()
  {
    && |a.net.flags| <= |b.net.flags| && |a.lex.entries| <= |b.lex.entries|
    && (forall i :: 0 <= i < |a.net.flags| ==> b.net.value[i] == a.net.value[i])
    && (forall i :: 0 <= i < |a.net.flags| ==>
          b.net.flags[i] == a.net.flags[i] || (!alive && b.net.flags[i] == a.net.flags[i].(dead := true)))
    && (forall node :: a.net.Has(node) ==> b.net.Has(node))
  }

  lemma StayTrans(a: World, b: World, c: World, alive: bool, more: bool)
    requires a.net.Rows() && b.net.Rows() && c.net.Rows() && Stay(a, b, alive) && Stay(b, c, more)
    ensures Stay(a, c, alive && more)
  {
    forall i | 0 <= i < |a.net.flags|
      ensures c.net.value[i] == a.net.value[i]
      ensures c.net.flags[i] == a.net.flags[i] || (!(alive && more) && c.net.flags[i] == a.net.flags[i].(dead := true))
    {
      assert b.net.value[i] == a.net.value[i];
    }
  }

  lemma LookStay(a: World, b: World, h: Hashing)
    requires Sound(a, h) && Looks(a, b, h)
    ensures a.net.Rows() && b.net.Rows() && Stay(a, b, true) && b.net == a.net && |b.lex.entries| == |a.lex.entries|
  {
    hide Threaded, Lawful, Settled, FactsNameWords, Buckets;
    SoundParts(a, h);
  }

  lemma PerformStays(w: World, s: Setting, op: Op)
    requires Sound(w, s.hash)
    ensures w.net.Shaped() && s.hash.buckets > 0 && ZoneEnd(s.hash) <= |w.lex.entries|
    ensures var r := Perform(w, s, op);
            r.net.Rows() && Stay(w, r, !Kills(op)) && (!op.OnFacts? ==> r.net == w.net)
  {
    hide Sound, Threaded, Lawful, Apply, Valid, NamesWords, Grown, Grew, StoreWord, AddProperty, RemoveProperty, AddSystemFlag, RemoveSystemFlag;
    SoundParts(w, s.hash);
    match op
    case OnFacts(f) => FactOpStays(w, s, f);
    case StoreOp(word, properties) => WordOpStays(w, s, op);
    case AddPropertyOp(i, flag) => WordOpStays(w, s, op);
    case RemovePropertyOp(i, flag) => WordOpStays(w, s, op);
    case AddFlagOp(i, flag) => WordOpStays(w, s, op);
    case RemoveFlagOp(i, flag) => WordOpStays(w, s, op);
  }

  lemma FactOpStays(w: World, s: Setting, f: FactOp)
    requires Sound(w, s.hash)
    ensures w.net.Shaped() && s.hash.buckets > 0 && ZoneEnd(s.hash) <= |w.lex.entries|
    ensures var r := Perform(w, s, OnFacts(f)); r.net.Rows() && Stay(w, r, !f.Kill?)
  {
    hide Sound, Threaded, Lawful, CreateFast, Valid, NamesWords;
    SoundParts(w, s.hash);
    match f
    case Create(value, flags) =>
      if Valid(w.net, value, flags.refs) && NamesWords(value, flags.refs, |w.lex.entries|) {
        CreateEffect(w.net, value, flags, true);
        CreatedStays(w, value, flags);
      }
    case Kill(g) => KilledStays(w, KillFact(w.net, g, true, s.built));
  }

  lemma CreatedStays(w: World, value: Triple, flags: Flags)
    requires w.net.Rows()
    ensures var r := w.(net := Created(w.net, value, flags, true)); r.net.Rows() && Stay(w, r, true)
  {
  }

  lemma KilledStays(w: World, net: Net)
    requires Deadens(w.net, net)
    ensures w.net.Rows() && net.Rows() && Stay(w, w.(net := net), false)
  {
  }

  lemma WordOpStays(w: World, s: Setting, op: Op)
    requires Sound(w, s.hash) && !op.OnFacts?
    ensures w.net.Shaped() && s.hash.buckets > 0 && ZoneEnd(s.hash) <= |w.lex.entries|
    ensures var r := Perform(w, s, op); r.net.Rows() && r.net == w.net && Stay(w, r, true)
  {
    hide Sound, Threaded, Lawful, Settled, FactsNameWords, Since, Undoes, StoreWord, AddProperty, RemoveProperty, AddSystemFlag, RemoveSystemFlag, Blanked;
    SoundParts(w, s.hash);
    PerformGrew(w, s, op);
    var r := Perform(w, s, op);
    SinceGrows(w.lex, r.lex, s.hash);
    SoundBlanked(w, s.hash, |r.lex.entries|);
  }

  lemma {:induction false} PerformedStays(a: World, s: Setting, ops: seq<Op>, r: World)
    requires Sound(a, s.hash) && Performed(a, s, ops, r)
    ensures a.net.Rows() && r.net.Rows() && Stay(a, r, forall op :: op in ops ==> !Kills(op))
    decreases |ops|
  {
    hide Sound, Looks, Perform, Grew, Stay, Kills, Net.Rows;
    if ops == [] {
      LookStay(a, r, s.hash);
    } else {
      var x :| Looks(a, x, s.hash) && PerformedFrom(x, s, ops, r);
      LookStay(a, x, s.hash);
      PerformGrew(x, s, ops[0]);
      PerformStays(x, s, ops[0]);
      var y := Perform(x, s, ops[0]);
      GrewSound(x, y, s.hash);
      PerformedStays(y, s, ops[1..], r);
      StayTrans(a, x, y, true, !Kills(ops[0]));
      StayTrans(a, y, r, !Kills(ops[0]), forall op :: op in ops[1..] ==> !Kills(op));
      assert (forall op :: op in ops ==> !Kills(op)) <==> !Kills(ops[0]) && forall op :: op in ops[1..] ==> !Kills(op);
    }
  }

  lemma NamedStays(a: World, b: World, value: Triple, refs: set<Role>, alive: bool)
    requires a.net.Rows() && b.net.Rows() && Stay(a, b, alive) && Named(a, value, refs)
    ensures Named(b, value, refs)
  {
  }

  /** A row as a plan makes it: of these fields and flags, and for this plan only. */
  predicate IsMade(s: Net, row: nat, value: Triple, flags: Flags, alive: bool)
    requires s.Rows()
  {
    && row < |s.flags| && s.value[row] == value
    && (s.flags[row] == flags.(transient := true) || (!alive && s.flags[row] == flags.(transient := true, dead := true)))
  }

  /** Every creation that names something from the start on is a row in the end, alive as asked unless an
    * operation kills. */
  lemma {:induction false} CreationIsThere(a: World, s: Setting, ops: seq<Op>, r: World, i: nat) returns (row: nat)
    requires Sound(a, s.hash) && Performed(a, s, ops, r)
    requires i < |ops| && ops[i].OnFacts? && ops[i].op.Create? && Named(a, ops[i].op.value, ops[i].op.flags.refs)
    ensures a.net.Rows() && r.net.Rows() && |a.net.flags| <= row
    ensures IsMade(r.net, row, ops[i].op.value, ops[i].op.flags, forall op :: op in ops ==> !Kills(op))
    decreases |ops|
  {
    hide Sound, Looks, Perform, Grew, Stay, Named, Performed;
    var x := FirstStep(a, s, ops, r);
    LookStay(a, x, s.hash);
    PerformGrew(x, s, ops[0]);
    PerformStays(x, s, ops[0]);
    var y := Perform(x, s, ops[0]);
    GrewSound(x, y, s.hash);
    NamedStays(a, x, ops[i].op.value, ops[i].op.flags.refs, true);
    if i == 0 {
      row := |x.net.flags|;
      CreationAdds(x, s, ops[0].op.value, ops[0].op.flags);
      PerformedStays(y, s, ops[1..], r);
      MadeStays(y, r, row, ops[0].op.value, ops[0].op.flags, forall op :: op in ops[1..] ==> !Kills(op));
    } else {
      NamedStays(x, y, ops[i].op.value, ops[i].op.flags.refs, !Kills(ops[0]));
      row := CreationIsThere(y, s, ops[1..], r, i - 1);
      StaySizes(x, y, !Kills(ops[0]));
    }
  }

  lemma FirstStep(a: World, s: Setting, ops: seq<Op>, r: World) returns (x: World)
    requires Sound(a, s.hash) && Performed(a, s, ops, r) && ops != []
    ensures Looks(a, x, s.hash) && Sound(x, s.hash)
    ensures x.net.Shaped() && s.hash.buckets > 0 && ZoneEnd(s.hash) <= |x.lex.entries| && Sound(Perform(x, s, ops[0]), s.hash)
    ensures Performed(Perform(x, s, ops[0]), s, ops[1..], r)
  {
    hide Sound, Looks, Perform, Grew;
    x :| Looks(a, x, s.hash) && PerformedFrom(x, s, ops, r);
    PerformGrew(x, s, ops[0]);
    GrewSound(x, Perform(x, s, ops[0]), s.hash);
  }

  lemma StaySizes(a: World, b: World, alive: bool)
    requires a.net.Rows() && b.net.Rows() && Stay(a, b, alive)
    ensures |a.net.flags| <= |b.net.flags| && |a.lex.entries| <= |b.lex.entries|
  {
  }

  lemma MadeStays(a: World, b: World, row: nat, value: Triple, flags: Flags, alive: bool)
    requires a.net.Rows() && b.net.Rows() && Stay(a, b, alive) && IsMade(a.net, row, value, flags, true)
    ensures IsMade(b.net, row, value, flags, alive)
  {
  }

  /** Rows from `from` on that are facts, not records of deaths, oldest first. */
  ghost function Made(value: seq<Triple>, from: nat): seq<Triple>
    decreases |value|
  {
    if |value| <= from then []
    else Made(value[..|value| - 1], from) + if value[|value| - 1].subj != 0 then [value[|value| - 1]] else []
  }

  /** What the operations ask to be made, in their order. */
  ghost function Asked(ops: seq<Op>): seq<Triple>
    decreases |ops|
  {
    if ops == [] then []
    else (if ops[0].OnFacts? && ops[0].op.Create? then [ops[0].op.value] else []) + Asked(ops[1..])
  }

  lemma {:induction false} MadeSplit(value: seq<Triple>, n: nat, m: nat)
    requires n <= m <= |value|
    ensures Made(value, n) == Made(value[..m], n) + Made(value, m)
    decreases |value|
  {
    if |value| == m {
      assert value[..m] == value;
    } else {
      MadeSplit(value[..|value| - 1], n, m);
      assert value[..|value| - 1][..m] == value[..m];
    }
  }

  lemma {:induction false} NoneMade(value: seq<Triple>, n: nat)
    requires forall i :: n <= i < |value| ==> value[i].subj == 0
    ensures Made(value, n) == []
    decreases |value|
  {
    if |value| > n { NoneMade(value[..|value| - 1], n); }
  }

  lemma OneMade(value: seq<Triple>, v: Triple)
    requires v.subj != 0
    ensures Made(value + [v], |value|) == [v]
  {
    var all := value + [v];
    assert all[..|all| - 1] == value;
  }

  /** Every creation names something. */
  ghost predicate AllNamed(w: World, ops: seq<Op>) {
    forall op :: op in ops && op.OnFacts? && op.op.Create? ==> Named(w, op.op.value, op.op.flags.refs)
  }

  lemma AllNamedStay(a: World, b: World, ops: seq<Op>, alive: bool)
    requires a.net.Rows() && b.net.Rows() && Stay(a, b, alive) && AllNamed(a, ops)
    ensures AllNamed(b, ops)
  {
    hide Named, Stay;
    forall op | op in ops && op.OnFacts? && op.op.Create?
      ensures Named(b, op.op.value, op.op.flags.refs)
    {
      NamedStays(a, b, op.op.value, op.op.flags.refs, alive);
    }
  }

  lemma AllNamedRest(w: World, ops: seq<Op>)
    requires AllNamed(w, ops) && ops != []
    ensures AllNamed(w, ops[1..])
    ensures ops[0].OnFacts? && ops[0].op.Create? ==> Named(w, ops[0].op.value, ops[0].op.flags.refs)
  {
    hide Named;
    assert ops[0] in ops;
  }

  /** Where every creation kept names something from the start on, the facts made are exactly those asked
    * for, in their order: none of a plan or an attempt given up is among them. */
  lemma {:induction false} MadeAreAsked(a: World, s: Setting, ops: seq<Op>, r: World)
    requires Sound(a, s.hash) && Performed(a, s, ops, r) && AllNamed(a, ops)
    ensures Made(r.net.value, |a.net.flags|) == Asked(ops)
    decreases |ops|
  {
    hide Sound, Looks, Perform, Stay, AllNamed, Named, Net.Rows, Performed, Made, Kills;
    if ops == [] {
      NothingDone(a, s, r);
      MadeNone(a);
    } else {
      var x := FirstStep(a, s, ops, r);
      LookStay(a, x, s.hash);
      PerformStays(x, s, ops[0]);
      var y := Perform(x, s, ops[0]);
      AllNamedStay(a, x, ops, true);
      AllNamedRest(x, ops);
      AllNamedStay(x, y, ops[1..], !Kills(ops[0]));
      MadeAreAsked(y, s, ops[1..], r);
      PerformedStays(y, s, ops[1..], r);
      MadeByOne(x, s, ops[0]);
      MadeThen(x, y, r, !Kills(ops[0]), forall op :: op in ops[1..] ==> !Kills(op));
      AskedFirst(ops);
    }
  }

  lemma AskedFirst(ops: seq<Op>)
    requires ops != []
    ensures Asked(ops) == Asked([ops[0]]) + Asked(ops[1..])
  {
    assert [ops[0]][1..] == [];
  }

  lemma NothingDone(a: World, s: Setting, r: World)
    requires Sound(a, s.hash) && Performed(a, s, [], r)
    ensures a.net == r.net && a.net.Rows()
  {
    hide Sound, Looks;
    LookStay(a, r, s.hash);
  }

  lemma MadeNone(a: World)
    requires a.net.Rows()
    ensures Made(a.net.value, |a.net.flags|) == []
  {
  }

  lemma MadeByOne(x: World, s: Setting, op: Op)
    requires Sound(x, s.hash) && (op.OnFacts? && op.op.Create? ==> Named(x, op.op.value, op.op.flags.refs))
    ensures x.net.Shaped() && s.hash.buckets > 0 && ZoneEnd(s.hash) <= |x.lex.entries|
    ensures Made(Perform(x, s, op).net.value, |x.net.flags|) == Asked([op])
  {
    hide Sound, Named, Perform, Stay, Made, Threaded;
    SoundParts(x, s.hash);
    assert [op][1..] == [];
    if op.OnFacts? && op.op.Create? {
      CreationAdds(x, s, op.op.value, op.op.flags);
      NamedSubject(x, op.op.value, op.op.flags.refs);
      OneMade(x.net.value, op.op.value);
    } else if op.OnFacts? {
      KillMakesNone(x, s, op.op.fact);
    } else {
      PerformStays(x, s, op);
      MadeNone(x);
    }
  }

  lemma NamedSubject(x: World, value: Triple, refs: set<Role>)
    requires Named(x, value, refs)
    ensures value.subj != 0
  {
    assert value.At(Subject) != 0;
  }

  lemma KillMakesNone(x: World, s: Setting, f: nat)
    requires Sound(x, s.hash)
    ensures x.net.Shaped() && s.hash.buckets > 0 && ZoneEnd(s.hash) <= |x.lex.entries|
    ensures Made(Perform(x, s, OnFacts(Kill(f))).net.value, |x.net.flags|) == []
  {
    hide Sound, Threaded, Lawful, Made, LinksKept;
    SoundParts(x, s.hash);
    DeadensBody(x.net, KillFact(x.net, f, true, s.built));
    NoneMade(KillFact(x.net, f, true, s.built).value, |x.net.flags|);
  }

  lemma MadeThen(x: World, y: World, r: World, alive: bool, more: bool)
    requires x.net.Rows() && y.net.Rows() && r.net.Rows() && Stay(x, y, alive) && Stay(y, r, more)
    ensures Made(r.net.value, |x.net.flags|) == Made(y.net.value, |x.net.flags|) + Made(r.net.value, |y.net.flags|)
  {
    hide Made;
    MadeSplit(r.net.value, |x.net.flags|, |y.net.flags|);
    assert r.net.value[..|y.net.flags|] == y.net.value;
  }

  // ----- Words ----------------------------------------------------------------------------------

  ghost predicate IsWord(k: Lex, word: string) { exists e :: 0 <= e < |k.entries| && k.entries[e].word == word }

  lemma WordsStay(w: World, s: Setting, op: Op)
    requires Sound(w, s.hash)
    ensures w.net.Shaped() && s.hash.buckets > 0 && ZoneEnd(s.hash) <= |w.lex.entries|
    ensures SameSpellings(w.lex, Perform(w, s, op).lex)
  {
    hide Sound, Threaded, Lawful, Settled, FactsNameWords, Perform, Undoes, Rewinds, SameCells, SameSpelling;
    SoundParts(w, s.hash);
    PerformGrew(w, s, op);
    SpellingsStay(w.lex, Perform(w, s, op).lex, s.hash);
  }

  ghost predicate SameSpellings(a: Lex, b: Lex) {
    |a.entries| <= |b.entries| && forall i :: 0 <= i < |a.entries| ==> b.entries[i].word == a.entries[i].word
  }

  lemma SpellingsStay(a: Lex, b: Lex, h: Hashing)
    requires Persist(a, b, ZoneEnd(h))
    ensures SameSpellings(a, b)
  {
    assert forall i :: 0 <= i < |a.entries| ==> SameSpelling(a.entries[i], b.entries[i]);
  }

  lemma LookSpellings(a: World, b: World, h: Hashing)
    requires Looks(a, b, h)
    ensures SameSpellings(a.lex, b.lex)
  {
    hide Buckets;
    assert forall i :: 0 <= i < |a.lex.entries| ==> SameSpelling(a.lex.entries[i], b.lex.entries[i]);
  }

  lemma {:induction false} PerformedSpellings(a: World, s: Setting, ops: seq<Op>, r: World)
    requires Sound(a, s.hash) && Performed(a, s, ops, r)
    ensures SameSpellings(a.lex, r.lex)
    decreases |ops|
  {
    hide Sound, Looks, Perform;
    if ops == [] {
      LookSpellings(a, r, s.hash);
    } else {
      hide Performed;
      var x := FirstStep(a, s, ops, r);
      LookSpellings(a, x, s.hash);
      WordsStay(x, s, ops[0]);
      PerformedSpellings(Perform(x, s, ops[0]), s, ops[1..], r);
    }
  }

  /** Every text stored by an operation kept is a word in the end, if there is still room then. */
  lemma {:induction false} StoredIsThere(a: World, s: Setting, ops: seq<Op>, r: World, i: nat)
    requires Sound(a, s.hash) && Performed(a, s, ops, r) && |r.lex.entries| + 2 <= 0x100000
    requires i < |ops| && ops[i].StoreOp?
    ensures IsWord(r.lex, StoredAs(s.hash, ops[i].word, ops[i].properties))
    decreases |ops|
  {
    hide Sound, Looks, Perform, Performed, StoredAs;
    var x := FirstStep(a, s, ops, r);
    var y := Perform(x, s, ops[0]);
    PerformedSpellings(y, s, ops[1..], r);
    WordsStay(x, s, ops[0]);
    if i == 0 {
      var e := StoringStores(x, s, ops[0].word, ops[0].properties, 1);
      assert r.lex.entries[e].word == y.lex.entries[e].word;
    } else {
      StoredIsThere(y, s, ops[1..], r, i - 1);
    }
  }

  // ----- Planner calls ----------------------------------------------------------------------------

  lemma DoneIsKept(plans: seq<Alternative>, p: nat, j: nat, f: nat, i: nat)
    requires Ending(plans, p) && p < |plans| && plans[p].Topic? && Reached(plans[p].rules, j) && j < |plans[p].rules|
    requires var attempts := plans[p].rules[j].attempts; Final(attempts, f) && f < |attempts| && i < |attempts[f].steps|
    requires plans[p].rules[j].attempts[f].steps[i].Do?
    ensures plans[p].rules[j].attempts[f].steps[i].op in KeptOfPlans(plans)
  {
    hide Ending, Reached, Final, KeptOfPlans, KeptOfRules, KeptOfAttempts, KeptOfSteps;
    var attempts := plans[p].rules[j].attempts;
    var step := attempts[f].steps[i];
    KeptInPlans(plans);
    KeptInRules(plans[p].rules, step.op);
    KeptInAttempts(attempts, f);
    KeptInSteps(attempts[f].steps, step.op);
    assert step == Do(step.op);
  }

  /** After a planner call that ends, every creation done in the final attempt at a rule of the plan that
    * ends it, up to the rule that ends it, is a row of its own fields and flags, alive as asked unless an
    * operation kept kills; if its fields named something before the call. */
  lemma EndedPlanCreates(w: World, s: Setting, plans: seq<Alternative>, p: nat, j: nat, f: nat, i: nat) returns (row: nat)
    requires Sound(w, s.hash)
    requires Ending(plans, p) && p < |plans| && plans[p].Topic? && Reached(plans[p].rules, j) && j < |plans[p].rules|
    requires var attempts := plans[p].rules[j].attempts; Final(attempts, f) && f < |attempts| && i < |attempts[f].steps|
    requires var step := plans[p].rules[j].attempts[f].steps[i];
             step.Do? && step.op.OnFacts? && step.op.op.Create? && Named(w, step.op.op.value, step.op.op.flags.refs)
    ensures var (r, ended) := PlanCode(w, s, plans); var c := plans[p].rules[j].attempts[f].steps[i].op.op;
            && ended && w.net.Rows() && r.net.Rows() && |w.net.flags| <= row < |r.net.flags|
            && r.net.value[row] == c.value
            && (r.net.flags[row] == c.flags.(transient := true)
                || ((exists op :: op in KeptOfPlans(plans) && Kills(op)) && r.net.flags[row] == c.flags.(transient := true, dead := true)))
  {
    hide Sound, Ending, Reached, Final, KeptOfPlans, PlanCode, Performed, Named, Kills;
    PlanCodePerforms(w, s, plans);
    DoneIsKept(plans, p, j, f, i);
    var ops := KeptOfPlans(plans);
    var op := plans[p].rules[j].attempts[f].steps[i].op;
    var q: nat :| q < |ops| && ops[q] == op;
    row := CreationIsThere(w, s, ops, PlanCode(w, s, plans).0, q);
  }

  /** The facts made by a planner call are exactly those asked for by the operations kept, in their order;
    * so a call that fails makes none. */
  lemma PlanMakesAsked(w: World, s: Setting, plans: seq<Alternative>)
    requires Sound(w, s.hash) && AllNamed(w, KeptOfPlans(plans))
    ensures Made(PlanCode(w, s, plans).0.net.value, |w.net.flags|) == Asked(KeptOfPlans(plans))
    ensures !PlanCode(w, s, plans).1 ==> Asked(KeptOfPlans(plans)) == []
  {
    hide Sound, Ending, KeptOfPlans, PlanCode, Performed, AllNamed, Made;
    PlanCodePerforms(w, s, plans);
    MadeAreAsked(w, s, KeptOfPlans(plans), PlanCode(w, s, plans).0);
    KeptInPlans(plans);
  }

  /** After a planner call that ends, every text stored by an operation kept is a word. */
  lemma EndedPlanStores(w: World, s: Setting, plans: seq<Alternative>, op: Op)
    requires Sound(w, s.hash) && op in KeptOfPlans(plans) && op.StoreOp?
    ensures var (r, ended) := PlanCode(w, s, plans);
            ended && (|r.lex.entries| + 2 <= 0x100000 ==> IsWord(r.lex, StoredAs(s.hash, op.word, op.properties)))
  {
    hide Sound, Ending, KeptOfPlans, PlanCode, Performed, IsWord, StoredAs;
    PlanCodePerforms(w, s, plans);
    KeptInPlans(plans);
    var ops := KeptOfPlans(plans);
    var q: nat :| q < |ops| && ops[q] == op;
    if |PlanCode(w, s, plans).0.lex.entries| + 2 <= 0x100000 { StoredIsThere(w, s, ops, PlanCode(w, s, plans).0, q); }
  }
}
