/** What a run of the planner leaves behind: the operations of the final attempts of the rules of the
  * plan that ended, those of their planner calls among them, in their order, and nothing else. */
module PlanEffects {
  import opened Words
  import opened Facts
  import opened FactLaws
  import opened FactUndo
  import opened Lexicon
  import opened LexiconLaws
  import opened LexiconUndo
  import opened Backtrack
  import opened Planner
  import opened OpEffects

  // ----- Steps ------------------------------------------------------------------------------

  /** Steps compose: what comes later starts from what came before, planner calls and all. */
  lemma {:induction false} StepsCompose(w: World, s: Setting, x: seq<Step>, y: seq<Step>)
    requires Sound(w, s.hash)
    ensures Sound(RunSteps(w, s, x), s.hash)
    ensures RunSteps(w, s, x + y) == RunSteps(RunSteps(w, s, x), s, y)
    decreases |x|
  {
    hide Sound, Grew, RunStep;
    GrewSound(w, RunSteps(w, s, x), s.hash);
    if x == [] {
      assert x + y == y;
    } else {
      GrewSound(w, RunStep(w, s, x[0]), s.hash);
      StepsCompose(RunStep(w, s, x[0]), s, x[1..], y);
      assert (x + y)[0] == x[0] && (x + y)[1..] == x[1..] + y;
    }
  }

  /** Operations as steps. */
  function Doing(ops: seq<Op>): (r: seq<Step>)
    ensures |r| == |ops|
  {
    seq(|ops|, i requires 0 <= i < |ops| => Do(ops[i]))
  }

  /** Steps that are operations run as the operations do. */
  lemma {:induction false} StepsAreRun(w: World, s: Setting, ops: seq<Op>)
    requires Sound(w, s.hash)
    ensures RunSteps(w, s, Doing(ops)) == Run(w, s, ops)
    decreases |ops|
  {
    hide Sound, Grew;
    if ops != [] {
      PerformGrew(w, s, ops[0]);
      GrewSound(w, Perform(w, s, ops[0]), s.hash);
      StepsAreRun(Perform(w, s, ops[0]), s, ops[1..]);
      assert Doing(ops)[1..] == Doing(ops[1..]);
    }
  }

  // ----- The operations kept ------------------------------------------------------------------

  /** The attempt at a rule that is not done again: the first not stopped, or the last. */
  ghost predicate Final(attempts: seq<Attempt>, f: nat) {
    && f < |attempts| && (f == |attempts| - 1 || !attempts[f].outcome.Stopped?)
    && forall q :: 0 <= q < f ==> attempts[q].outcome.Stopped?
  }

  /** The rule ends its topic. */
  ghost predicate Ends(rule: Rule) { exists f: nat :: Final(rule.attempts, f) && rule.attempts[f].outcome.EndTopic? }

  /** The plan can be run and one of its rules ends it. */
  ghost predicate Achieves(plan: Alternative) {
    plan.Topic? && plan.ready && exists j :: 0 <= j < |plan.rules| && Ends(plan.rules[j])
  }

  ghost function KeptOfSteps(steps: seq<Step>): seq<Op>
    decreases steps
  {
    if steps == [] then [] else KeptOfStep(steps[0]) + KeptOfSteps(steps[1..])
  }

  ghost function KeptOfStep(step: Step): seq<Op>
    decreases step
  {
    match step
    case Do(op) => [op]
    case Plan(plans) => KeptOfPlans(plans)
  }

  ghost function KeptOfAttempts(attempts: seq<Attempt>): seq<Op>
    decreases attempts
  {
    if attempts == [] then []
    else if Final(attempts, 0) then KeptOfSteps(attempts[0].steps)
    else KeptOfAttempts(attempts[1..])
  }

  /** The rules of a plan up to the first that ends it. */
  ghost function KeptOfRules(rules: seq<Rule>): seq<Op>
    decreases rules
  {
    if rules == [] then []
    else KeptOfAttempts(rules[0].attempts) + if Ends(rules[0]) then [] else KeptOfRules(rules[1..])
  }

  /** The first plan that is achieved, unless one without a topic comes first. */
  ghost function KeptOfPlans(plans: seq<Alternative>): seq<Op>
    decreases plans
  {
    if plans == [] || plans[0].NoTopic? then []
    else if Achieves(plans[0]) then KeptOfRules(plans[0].rules)
    else KeptOfPlans(plans[1..])
  }

  // ----- Outcomes -----------------------------------------------------------------------------

  lemma {:induction false} OutcomeIsFinal(a: World, s: Setting, m: World, attempts: seq<Attempt>)
    requires Marked(a, RULEMARK, m, s.hash)
    ensures RunAttempts(a, s, m, attempts).1.EndTopic? <==> Ends(Rule(attempts))
    decreases attempts
  {
    hide Marked, RunAttempts, RunSteps, RefreshMark, Final;
    if attempts == [] {
      NoAttempts(a, s, m);
      NoneFinal();
    } else {
      AttemptsStep(a, s, m, attempts);
      var w := RunSteps(m, s, attempts[0].steps);
      FinalStep(attempts);
      if |attempts| > 1 && attempts[0].outcome.Stopped? {
        RefreshRestores(a, RULEMARK, w, s.hash);
        OutcomeIsFinal(a, s, RefreshMark(w, s.hash), attempts[1..]);
        FinalRest(attempts);
      } else {
        FinalFirst(attempts);
      }
    }
  }

  lemma NoneFinal()
    ensures !Ends(Rule([]))
  {
  }

  lemma FinalStep(attempts: seq<Attempt>)
    requires attempts != []
    ensures Final(attempts, 0) <==> |attempts| == 1 || !attempts[0].outcome.Stopped?
  {
  }

  lemma OneFinal(attempts: seq<Attempt>, f: nat, g: nat)
    requires Final(attempts, f) && Final(attempts, g)
    ensures f == g
  {
  }

  lemma FinalFirst(attempts: seq<Attempt>)
    requires attempts != [] && Final(attempts, 0)
    ensures Ends(Rule(attempts)) <==> attempts[0].outcome.EndTopic?
    ensures forall f: nat :: Final(attempts, f) ==> f == 0
  {
    forall f: nat | Final(attempts, f)
      ensures f == 0
    {
      OneFinal(attempts, 0, f);
    }
    assert Rule(attempts).attempts == attempts;
    if attempts[0].outcome.EndTopic? { assert Final(Rule(attempts).attempts, 0); }
  }

  lemma FinalDown(attempts: seq<Attempt>, f: nat)
    requires attempts != [] && !Final(attempts, 0) && Final(attempts, f)
    ensures f > 0 && Final(attempts[1..], f - 1)
  {
    assert forall q :: 0 <= q < f - 1 ==> attempts[1..][q] == attempts[q + 1];
  }

  lemma FinalUp(attempts: seq<Attempt>, f: nat)
    requires attempts != [] && !Final(attempts, 0) && Final(attempts[1..], f)
    ensures Final(attempts, f + 1)
  {
    forall q | 0 <= q < f + 1
      ensures attempts[q].outcome.Stopped?
    {
      if q > 0 { assert attempts[1..][q - 1] == attempts[q]; }
    }
  }

  lemma FinalRest(attempts: seq<Attempt>)
    requires attempts != [] && !Final(attempts, 0)
    ensures Ends(Rule(attempts)) <==> Ends(Rule(attempts[1..]))
    ensures forall f: nat :: Final(attempts, f) ==> f > 0 && Final(attempts[1..], f - 1)
  {
    var rest := attempts[1..];
    forall f: nat | Final(attempts, f)
      ensures f > 0 && Final(rest, f - 1)
    {
      FinalDown(attempts, f);
    }
    forall f: nat | Final(rest, f)
      ensures Final(attempts, f + 1)
    {
      FinalUp(attempts, f);
    }
    hide Final;
    if f: nat :| Final(attempts, f) && attempts[f].outcome.EndTopic? { assert rest[f - 1] == attempts[f]; }
    if f: nat :| Final(rest, f) && rest[f].outcome.EndTopic? { assert rest[f] == attempts[f + 1]; }
  }

  lemma {:induction false} RulesEnd(a: World, s: Setting, rules: seq<Rule>)
    requires Sound(a, s.hash)
    ensures RunRules(a, s, rules).1 <==> exists j :: 0 <= j < |rules| && Ends(rules[j])
    decreases rules
  {
    hide Sound, RunRules, RunAttempts, Marked, SaveBacktrack, Ends;
    if rules == [] {
      NoRules(a, s);
    } else {
      RulesStep(a, s, rules);
      var m := SaveBacktrack(a, RULEMARK);
      OutcomeIsFinal(a, s, m, rules[0].attempts);
      assert Rule(rules[0].attempts) == rules[0];
      var w := RunAttempts(a, s, m, rules[0].attempts);
      if !w.1.EndTopic? {
        RulesEnd(FlushMark(w.0), s, rules[1..]);
        assert forall j :: 0 < j < |rules| ==> rules[j] == rules[1..][j - 1];
      }
    }
  }

  /** The plan that ends a planner call: the first achieved, with none without a topic before it. */
  ghost predicate Ending(plans: seq<Alternative>, p: nat) {
    p < |plans| && Achieves(plans[p]) && forall q :: 0 <= q < p ==> plans[q].Topic? && !Achieves(plans[q])
  }

  lemma {:induction false} PlansEnd(a: World, s: Setting, plans: seq<Alternative>)
    requires Sound(a, s.hash)
    ensures RunPlans(a, s, plans).1 <==> exists p: nat :: Ending(plans, p)
    decreases plans
  {
    hide Sound, RunPlans, RunRules, Marked, FlushMark, SaveBacktrack, RestoreMark, Ending, AtMark;
    if plans == [] || plans[0].NoTopic? {
      NoPlans(a, s, plans);
      NoneEnding(plans);
    } else {
      PlansStep(a, s, plans);
      var m := SaveBacktrack(a, PLANMARK);
      PlanEnds(m, s, plans[0]);
      var w := if plans[0].ready then RunRules(m, s, plans[0].rules) else (m, false);
      EndingRest(plans);
      if !w.1 { PlansEnd(RestoreMark(w.0, s.hash), s, plans[1..]); }
    }
  }

  lemma PlanEnds(m: World, s: Setting, plan: Alternative)
    requires Sound(m, s.hash) && plan.Topic?
    ensures (if plan.ready then RunRules(m, s, plan.rules) else (m, false)).1 <==> Achieves(plan)
  {
    hide Sound, RunRules, Ends;
    if plan.ready { RulesEnd(m, s, plan.rules); }
  }

  lemma NoneEnding(plans: seq<Alternative>)
    requires plans == [] || plans[0].NoTopic?
    ensures forall p: nat :: !Ending(plans, p)
  {
    forall p: nat
      ensures !Ending(plans, p)
    {
      if p < |plans| && p > 0 { assert !plans[0].Topic?; }
    }
  }

  lemma EndingRest(plans: seq<Alternative>)
    requires plans != [] && plans[0].Topic?
    ensures Achieves(plans[0]) ==> Ending(plans, 0)
    ensures !Achieves(plans[0]) ==> !Ending(plans, 0) && forall p: nat :: p > 0 ==> (Ending(plans, p) <==> Ending(plans[1..], p - 1))
    ensures !Achieves(plans[0]) ==> ((exists p: nat :: Ending(plans, p)) <==> exists p: nat :: Ending(plans[1..], p))
  {
    if !Achieves(plans[0]) {
      forall p: nat | p > 0
        ensures Ending(plans, p) <==> Ending(plans[1..], p - 1)
      {
        EndingDown(plans, p);
      }
      hide Ending;
      if p: nat :| Ending(plans[1..], p) { assert Ending(plans, p + 1); }
      if p: nat :| Ending(plans, p) { assert Ending(plans[1..], p - 1); }
    }
  }

  lemma EndingDown(plans: seq<Alternative>, p: nat)
    requires plans != [] && plans[0].Topic? && !Achieves(plans[0]) && p > 0
    ensures Ending(plans, p) <==> Ending(plans[1..], p - 1)
  {
    hide Achieves;
    var rest := plans[1..];
    assert forall q :: 0 <= q < |rest| ==> rest[q] == plans[q + 1];
    if Ending(rest, p - 1) {
      forall q | 0 <= q < p
        ensures plans[q].Topic? && !Achieves(plans[q])
      {
        if q > 0 { assert rest[q - 1] == plans[q]; }
      }
    }
  }

  // ----- Performing one after another -----------------------------------------------------------

  /** The same facts and dictionary for any reader: only the string arena, headers, and the properties
    * of words that are not locked may differ. */
  ghost predicate Looks(a: World, b: World, h: Hashing) {
    h.buckets > 0 && ZoneEnd(h) <= |a.lex.entries| && SameView(a, b, h)
  }

  /** The operations, performed one after another from what looks like `a`, lead to what looks like `r`. */
  ghost predicate Performed(a: World, s: Setting, ops: seq<Op>, r: World)
    requires Sound(a, s.hash)
    decreases |ops|
  {
    if ops == [] then Looks(a, r, s.hash) else exists x: World :: Looks(a, x, s.hash) && PerformedFrom(x, s, ops, r)
  }

  ghost predicate PerformedFrom(x: World, s: Setting, ops: seq<Op>, r: World)
    requires ops != []
    decreases |ops|, 0
  {
    && Sound(x, s.hash)
    && (PerformGrew(x, s, ops[0]); Performed(Perform(x, s, ops[0]), s, ops[1..], r))
  }

  lemma LooksSelf(a: World, h: Hashing)
    requires Sound(a, h)
    ensures Looks(a, a, h)
  {
    hide Sound, SameView;
    SameViewRefl(a, h);
  }

  lemma LooksOn(a: World, b: World, c: World, h: Hashing)
    requires Looks(a, b, h) && Looks(b, c, h)
    ensures Looks(a, c, h)
  {
    hide SameView;
    SameViewTrans(a, b, c, h);
  }

  /** Where nothing but the string arena and the marks differs, nothing is seen. */
  lemma LooksAlike(a: World, b: World, h: Hashing)
    requires Sound(a, h) && b.net == a.net && b.lex.entries == a.lex.entries && b.lex.locked == a.lex.locked
    requires b.lex.propertyLog == a.lex.propertyLog && b.lex.flagLog == a.lex.flagLog
    ensures Looks(a, b, h)
  {
    hide Threaded, FactsNameWords, Lawful;
    SoundParts(a, h);
    assert Buckets(b.lex, h) == Buckets(a.lex, h);
    assert LockedProperties(b.lex) == LockedProperties(a.lex);
    assert LockedFlags(b.lex) == LockedFlags(a.lex);
  }

  lemma PerformedFront(a: World, b: World, s: Setting, ops: seq<Op>, r: World)
    requires Sound(a, s.hash) && Sound(b, s.hash) && Looks(a, b, s.hash) && Performed(b, s, ops, r)
    ensures Performed(a, s, ops, r)
  {
    hide Sound, Looks, PerformedFrom;
    if ops == [] {
      LooksOn(a, b, r, s.hash);
    } else {
      var x :| Looks(b, x, s.hash) && PerformedFrom(x, s, ops, r);
      LooksOn(a, b, x, s.hash);
    }
  }

  lemma {:induction false} PerformedAppend(a: World, s: Setting, ops: seq<Op>, b: World, more: seq<Op>, r: World)
    requires Sound(a, s.hash) && Sound(b, s.hash) && Performed(a, s, ops, b) && Performed(b, s, more, r)
    ensures Performed(a, s, ops + more, r)
    decreases |ops|
  {
    hide Sound, Looks, Perform, Grew;
    if ops == [] {
      assert ops + more == more;
      PerformedFront(a, b, s, more, r);
    } else {
      var x :| Looks(a, x, s.hash) && PerformedFrom(x, s, ops, b);
      PerformGrew(x, s, ops[0]);
      GrewSound(x, Perform(x, s, ops[0]), s.hash);
      PerformedAppend(Perform(x, s, ops[0]), s, ops[1..], b, more, r);
      assert (ops + more)[0] == ops[0] && (ops + more)[1..] == ops[1..] + more;
      assert PerformedFrom(x, s, ops + more, r);
    }
  }

  lemma PerformedBack(a: World, s: Setting, ops: seq<Op>, b: World, r: World)
    requires Sound(a, s.hash) && Sound(b, s.hash) && Performed(a, s, ops, b) && Looks(b, r, s.hash)
    ensures Performed(a, s, ops, r)
  {
    hide Sound, Looks, PerformedFrom;
    assert Performed(b, s, [], r);
    PerformedAppend(a, s, ops, b, [], r);
    assert ops + [] == ops;
  }

  lemma PerformedOne(a: World, s: Setting, op: Op)
    requires Sound(a, s.hash)
    ensures a.net.Shaped() && s.hash.buckets > 0 && ZoneEnd(s.hash) <= |a.lex.entries|
    ensures Performed(a, s, [op], Perform(a, s, op))
  {
    hide Sound, Looks, Perform, Grew;
    PerformGrew(a, s, op);
    var r := Perform(a, s, op);
    GrewSound(a, r, s.hash);
    LooksSelf(a, s.hash);
    LooksSelf(r, s.hash);
    assert [op][1..] == [];
    assert PerformedFrom(a, s, [op], r);
  }

  // ----- What a planner call comes to -----------------------------------------------------------

  lemma {:induction false} StepsPerform(w: World, s: Setting, steps: seq<Step>)
    requires Sound(w, s.hash)
    ensures Performed(w, s, KeptOfSteps(steps), RunSteps(w, s, steps))
    decreases steps
  {
    hide Sound, Grew, RunStep, Performed, KeptOfStep;
    if steps == [] {
      NothingPerformed(w, s);
    } else {
      var x := RunStep(w, s, steps[0]);
      GrewSound(w, x, s.hash);
      StepPerforms(w, s, steps[0]);
      StepsPerform(x, s, steps[1..]);
      PerformedAppend(w, s, KeptOfStep(steps[0]), x, KeptOfSteps(steps[1..]), RunSteps(w, s, steps));
    }
  }

  lemma NothingPerformed(w: World, s: Setting)
    requires Sound(w, s.hash)
    ensures Performed(w, s, [], w)
  {
    hide Sound, Looks;
    LooksSelf(w, s.hash);
  }

  lemma StepPerforms(w: World, s: Setting, step: Step)
    requires Sound(w, s.hash)
    ensures Performed(w, s, KeptOfStep(step), RunStep(w, s, step))
    decreases step
  {
    hide Sound, Grew, Performed, Looks, RunPlans;
    match step
    case Do(op) => PerformedOne(w, s, op);
    case Plan(plans) =>
      OwnMarks(w, s.hash);
      PlansPerform(Own(w), s, plans);
      BackPerforms(w, s, plans);
  }

  lemma BackPerforms(w: World, s: Setting, plans: seq<Alternative>)
    requires Sound(w, s.hash) && Sound(Own(w), s.hash)
    requires Performed(Own(w), s, KeptOfPlans(plans), RunPlans(Own(w), s, plans).0)
    ensures Performed(w, s, KeptOfPlans(plans), Back(w, RunPlans(Own(w), s, plans).0))
  {
    hide Sound, Grew, Performed, Looks, RunPlans, KeptOfPlans;
    var r := RunPlans(Own(w), s, plans).0;
    LooksAlike(w, Own(w), s.hash);
    GrewSound(Own(w), r, s.hash);
    LooksAlike(r, Back(w, r), s.hash);
    PerformedFront(w, Own(w), s, KeptOfPlans(plans), r);
    PerformedBack(w, s, KeptOfPlans(plans), r, Back(w, r));
  }

  lemma {:induction false} AttemptsPerform(a: World, s: Setting, m: World, attempts: seq<Attempt>)
    requires Marked(a, RULEMARK, m, s.hash) && Sound(a, s.hash) && Looks(a, m, s.hash)
    ensures Performed(a, s, KeptOfAttempts(attempts), RunAttempts(a, s, m, attempts).0)
    decreases attempts
  {
    hide Sound, Marked, RunAttempts, RunSteps, RefreshMark, Performed, Looks, AtMark, KeptOfSteps, Final;
    if attempts == [] {
      NoAttempts(a, s, m);
      ViewPerformed(a, s, m);
    } else {
      AttemptsStep(a, s, m, attempts);
      FinalStep(attempts);
      var w := RunSteps(m, s, attempts[0].steps);
      if Final(attempts, 0) {
        StepsPerform(m, s, attempts[0].steps);
        PerformedFront(a, m, s, KeptOfSteps(attempts[0].steps), w);
      } else {
        RefreshLooks(a, w, s.hash);
        AttemptsPerform(a, s, RefreshMark(w, s.hash), attempts[1..]);
      }
    }
  }

  lemma ViewPerformed(a: World, s: Setting, m: World)
    requires Sound(a, s.hash) && Looks(a, m, s.hash)
    ensures Performed(a, s, [], m)
  {
  }

  lemma RefreshLooks(a: World, w: World, h: Hashing)
    requires Marked(a, RULEMARK, w, h)
    ensures AtMark(w, h) && Marked(a, RULEMARK, RefreshMark(w, h), h) && Looks(a, RefreshMark(w, h), h)
  {
    hide Threaded, Lawful, FactsNameWords, Grew, Restored, RefreshMark, AtMark, SameView, Settled;
    RefreshRestores(a, RULEMARK, w, h);
    RestoredIsSameView(a, RULEMARK, RefreshMark(w, h), h);
  }

  lemma SaveLooks(a: World, id: int, h: Hashing)
    requires Sound(a, h)
    ensures |a.net.flags| >= 1 && Sound(SaveBacktrack(a, id), h) && Looks(a, SaveBacktrack(a, id), h)
  {
    hide Sound, Looks, Since;
    SaveIsSound(a, id, h);
    SaveLogs(a, id);
    SaveLocks(a, id);
    LooksAlike(a, SaveBacktrack(a, id), h);
  }

  lemma SaveLocks(a: World, id: int)
    requires |a.net.flags| >= 1
    ensures SaveBacktrack(a, id).lex.locked == a.lex.locked
  {
  }

  lemma FlushLooks(a: World, id: int, w: World, h: Hashing)
    requires Marked(a, id, w, h)
    ensures AtMark(w, h) && Sound(w, h) && Sound(FlushMark(w), h) && Looks(w, FlushMark(w), h)
  {
    hide Sound, Looks, AtMark;
    MarkedNow(a, id, w, h);
    FlushKeeps(a, id, w, h);
    GrewSound(a, FlushMark(w), h);
    FlushLocks(w, h);
    LooksAlike(w, FlushMark(w), h);
  }

  lemma MarkedNow(a: World, id: int, w: World, h: Hashing)
    requires Marked(a, id, w, h)
    ensures Sound(w, h)
  {
  }

  lemma FlushLocks(w: World, h: Hashing)
    requires AtMark(w, h)
    ensures FlushMark(w).lex.locked == w.lex.locked
  {
  }

  lemma {:induction false} RulesPerform(a: World, s: Setting, rules: seq<Rule>)
    requires Sound(a, s.hash)
    ensures Performed(a, s, KeptOfRules(rules), RunRules(a, s, rules).0)
    decreases rules
  {
    hide Sound, RunRules, RunAttempts, Marked, SaveBacktrack, Ends, Performed, Looks, KeptOfAttempts, FlushMark;
    if rules == [] {
      NoRules(a, s);
      NothingPerformed(a, s);
    } else {
      RulesStep(a, s, rules);
      SaveLooks(a, RULEMARK, s.hash);
      var m := SaveBacktrack(a, RULEMARK);
      AttemptsPerform(a, s, m, rules[0].attempts);
      OutcomeIsFinal(a, s, m, rules[0].attempts);
      assert Rule(rules[0].attempts) == rules[0];
      var w := RunAttempts(a, s, m, rules[0].attempts).0;
      FlushLooks(a, RULEMARK, w, s.hash);
      PerformedBack(a, s, KeptOfAttempts(rules[0].attempts), w, FlushMark(w));
      if Ends(rules[0]) {
        assert KeptOfRules(rules) == KeptOfAttempts(rules[0].attempts) + [] == KeptOfAttempts(rules[0].attempts);
      } else {
        RulesPerform(FlushMark(w), s, rules[1..]);
        PerformedAppend(a, s, KeptOfAttempts(rules[0].attempts), FlushMark(w), KeptOfRules(rules[1..]), RunRules(a, s, rules).0);
      }
    }
  }

  lemma {:induction false} PlansPerform(a: World, s: Setting, plans: seq<Alternative>)
    requires Sound(a, s.hash)
    ensures Performed(a, s, KeptOfPlans(plans), RunPlans(a, s, plans).0)
    decreases plans
  {
    hide Sound, RunPlans, RunRules, Marked, SaveBacktrack, RestoreMark, Achieves, Performed, Looks, KeptOfRules, FlushMark;
    if plans == [] || plans[0].NoTopic? {
      NoPlans(a, s, plans);
      NothingPerformed(a, s);
    } else {
      PlansStep(a, s, plans);
      SaveLooks(a, PLANMARK, s.hash);
      var m := SaveBacktrack(a, PLANMARK);
      PlanEnds(m, s, plans[0]);
      var w := if plans[0].ready then RunRules(m, s, plans[0].rules) else (m, false);
      if w.1 {
        AchievedIsReady(plans[0]);
        RulesPerform(m, s, plans[0].rules);
        FlushLooks(a, PLANMARK, w.0, s.hash);
        PerformedFront(a, m, s, KeptOfRules(plans[0].rules), w.0);
        PerformedBack(a, s, KeptOfRules(plans[0].rules), w.0, FlushMark(w.0));
      } else {
        var b := RestoreMark(w.0, s.hash);
        RestoreLooks(a, w.0, s.hash);
        PlansPerform(b, s, plans[1..]);
        PerformedFront(a, b, s, KeptOfPlans(plans[1..]), RunPlans(b, s, plans[1..]).0);
      }
    }
  }

  lemma AchievedIsReady(plan: Alternative)
    requires Achieves(plan)
    ensures plan.Topic? && plan.ready
  {
  }

  lemma RestoreLooks(a: World, w: World, h: Hashing)
    requires Marked(a, PLANMARK, w, h)
    ensures AtMark(w, h) && Looks(a, RestoreMark(w, h), h)
  {
    hide Sound, Grew, RestoreMark, AtMark, SameView;
    RestoreRestores(a, PLANMARK, w, h);
  }

  /** The law of the planner: a call ends its topic if and only if a plan is achieved before one without
    * a topic; and whether it does or not, the facts and the dictionary look as if the operations kept,
    * and no others, had been performed one after another. */
  lemma PlanCodePerforms(w: World, s: Setting, plans: seq<Alternative>)
    requires Sound(w, s.hash)
    ensures var (r, ended) := PlanCode(w, s, plans);
            && Sound(r, s.hash)
            && (ended <==> exists p: nat :: Ending(plans, p))
            && Performed(w, s, KeptOfPlans(plans), r)
  {
    hide Sound, Grew, Performed, RunPlans, KeptOfPlans, Ending;
    OwnMarks(w, s.hash);
    PlansEnd(Own(w), s, plans);
    PlansPerform(Own(w), s, plans);
    BackPerforms(w, s, plans);
    GrewSound(w, PlanCode(w, s, plans).0, s.hash);
  }
}
