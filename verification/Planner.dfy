/** PlanCode of functionExecute.cpp: plans, their rules and the redoing of rules, with a mark
  * for each plan and each rule.
  *
  * What the rules themselves do is not modelled. A run of the planner is given by the path it
  * takes: which plans exist, which rules each has, and for each rule the attempts made at it,
  * each with the operations it performs and the outcome it returns. An operation may be a
  * planner call of its own.
  */
module Planner {
  import opened Words
  import opened Facts
  import opened FactUndo
  import opened Lexicon
  import opened LexiconLaws
  import opened LexiconUndo
  import opened Backtrack

  /** A FunctionResult, as far as PlanCode tells them apart. */
  datatype Outcome = NoProblem | EndTopic | Stopped

  datatype Step = Do(op: Op) | Plan(plans: seq<Alternative>)

  /** TestRule, or DoOutput on a redo. An attempt that is stopped and found something to
    * backtrack to is followed by another. */
  datatype Attempt = Attempt(steps: seq<Step>, outcome: Outcome)

  datatype Rule = Rule(attempts: seq<Attempt>)

  /** A plan that has no topic or cannot be pushed ends the search. `ready` says that the
    * locals of the topic could be set up. */
  datatype Alternative = NoTopic | Topic(ready: bool, rules: seq<Rule>)

  const PLANMARK := -1
  const RULEMARK := 1

  function RunSteps(w: World, s: Setting, steps: seq<Step>): (r: World)
    requires Sound(w, s.hash)
    ensures Grew(w, r, s.hash)
    decreases steps
  {
    GrewRefl(w, s.hash);
    if steps == [] then w
    else
      var w1 := RunStep(w, s, steps[0]);
      var r := RunSteps(w1, s, steps[1..]);
      GrewTrans(w, w1, r, s.hash);
      r
  }

  function RunStep(w: World, s: Setting, step: Step): (r: World)
    requires Sound(w, s.hash)
    ensures Grew(w, r, s.hash)
    decreases step
  {
    match step
    case Do(op) =>
      PerformGrew(w, s, op);
      Perform(w, s, op)
    case Plan(plans) =>
      OwnMarks(w, s.hash);
      var r := RunPlans(Own(w), s, plans);
      CallersMarks(w, r.0, s.hash);
      Back(w, r.0)
  }

  /** The attempts at a rule, from the world in which its mark was saved: every attempt that is
    * followed by another is undone before the next. */
  function RunAttempts(a: World, s: Setting, m: World, attempts: seq<Attempt>): (r: (World, Outcome))
    requires Marked(a, RULEMARK, m, s.hash)
    ensures Marked(a, RULEMARK, r.0, s.hash)
    decreases attempts
  {
    if attempts == [] then (m, Stopped)
    else
      var w := RunSteps(m, s, attempts[0].steps);
      MarkedGrew(a, RULEMARK, m, w, s.hash);
      if |attempts| == 1 || !attempts[0].outcome.Stopped? then (w, attempts[0].outcome)
      else
        RefreshRestores(a, RULEMARK, w, s.hash);
        RunAttempts(a, s, RefreshMark(w, s.hash), attempts[1..])
  }

  /** The rules of a plan; true if one ended the topic. */
  function RunRules(a: World, s: Setting, rules: seq<Rule>): (r: (World, bool))
    requires Sound(a, s.hash)
    ensures Grew(a, r.0, s.hash)
    decreases rules
  {
    GrewRefl(a, s.hash);
    if rules == [] then (a, false)
    else
      MarkedSelf(a, RULEMARK, s.hash);
      var (w, outcome) := RunAttempts(a, s, SaveBacktrack(a, RULEMARK), rules[0].attempts);
      FlushKeeps(a, RULEMARK, w, s.hash);
      var f := FlushMark(w);
      if outcome.EndTopic? then (f, true)
      else
        var r := RunRules(f, s, rules[1..]);
        GrewTrans(a, f, r.0, s.hash);
        r
  }

  /** The plans, one after another until one ends its topic. */
  function RunPlans(a: World, s: Setting, plans: seq<Alternative>): (r: (World, bool))
    requires Sound(a, s.hash)
    ensures Grew(a, r.0, s.hash)
    decreases plans
  {
    GrewRefl(a, s.hash);
    if plans == [] || plans[0].NoTopic? then (a, false)
    else
      MarkedSelf(a, PLANMARK, s.hash);
      var m := SaveBacktrack(a, PLANMARK);
      var (w, ended) := if plans[0].ready then RunRules(m, s, plans[0].rules) else (m, false);
      MarkedGrew(a, PLANMARK, m, w, s.hash);
      if ended then
        FlushKeeps(a, PLANMARK, w, s.hash);
        (FlushMark(w), true)
      else
        RestoreRestores(a, PLANMARK, w, s.hash);
        var b := RestoreMark(w, s.hash);
        var r := RunPlans(b, s, plans[1..]);
        GrewTrans(a, b, r.0, s.hash);
        r
  }

  /** A planner starts with marks of its own, above those of its caller, and leaves the caller's
    * as they were. */
  function PlanCode(w: World, s: Setting, plans: seq<Alternative>): (r: (World, bool))
    requires Sound(w, s.hash)
    ensures Grew(w, r.0, s.hash)
  {
    OwnMarks(w, s.hash);
    var r := RunPlans(Own(w), s, plans);
    CallersMarks(w, r.0, s.hash);
    (Back(w, r.0), r.1)
  }

  function Own(w: World): World { w.(base := w.lex.used, point := w.lex.used) }

  function Back(w: World, r: World): World { r.(base := w.base, point := w.point) }

  lemma OwnMarks(w: World, h: Hashing)
    requires Sound(w, h)
    ensures Sound(Own(w), h)
  {
    hide Threaded, Lawful, FactsNameWords, Settled;
  }

  lemma CallersMarks(w: World, r: World, h: Hashing)
    requires Sound(w, h) && Grew(Own(w), r, h)
    ensures Grew(w, Back(w, r), h)
  {
    hide Threaded, Lawful, FactsNameWords, Settled, Since, Undoes;
    SinceGrows(w.lex, r.lex, h);
  }

  lemma MarkedSelf(a: World, id: int, h: Hashing)
    requires Sound(a, h)
    ensures |a.net.flags| >= 1 && Marked(a, id, SaveBacktrack(a, id), h)
  {
    hide Grew;
    SaveIsSound(a, id, h);
    GrewRefl(SaveBacktrack(a, id), h);
  }

  lemma MarkedGrew(a: World, id: int, m: World, w: World, h: Hashing)
    requires Marked(a, id, m, h) && Grew(m, w, h)
    ensures Marked(a, id, w, h)
  {
    hide Grew, Sound;
    GrewTrans(SaveBacktrack(a, id), m, w, h);
  }

  /** The attempts left after one that backtracks, from the world it left. */
  function Redo(a: World, s: Setting, w: World, rest: seq<Attempt>): (World, Outcome)
    requires Marked(a, RULEMARK, w, s.hash)
  {
    RefreshRestores(a, RULEMARK, w, s.hash);
    RunAttempts(a, s, RefreshMark(w, s.hash), rest)
  }

  lemma AttemptsStep(a: World, s: Setting, m: World, attempts: seq<Attempt>)
    requires Marked(a, RULEMARK, m, s.hash) && attempts != []
    ensures Sound(m, s.hash)
    ensures var w := RunSteps(m, s, attempts[0].steps);
            && Marked(a, RULEMARK, w, s.hash)
            && RunAttempts(a, s, m, attempts) ==
               if |attempts| == 1 || !attempts[0].outcome.Stopped? then (w, attempts[0].outcome) else Redo(a, s, w, attempts[1..])
  {
    hide Sound, Grew, AtMark, RefreshMark, SaveBacktrack, RunSteps;
    MarkedSound(a, m, s.hash);
    var w := RunSteps(m, s, attempts[0].steps);
    MarkedGrew(a, RULEMARK, m, w, s.hash);
  }

  lemma NoAttempts(a: World, s: Setting, m: World)
    requires Marked(a, RULEMARK, m, s.hash)
    ensures RunAttempts(a, s, m, []) == (m, Stopped)
  {
    hide Marked;
  }

  lemma RulesStep(a: World, s: Setting, rules: seq<Rule>)
    requires Sound(a, s.hash) && rules != []
    ensures |a.net.flags| >= 1 && Marked(a, RULEMARK, SaveBacktrack(a, RULEMARK), s.hash)
    ensures SaveBacktrack(a, RULEMARK).point > a.point
    ensures var (w, outcome) := RunAttempts(a, s, SaveBacktrack(a, RULEMARK), rules[0].attempts);
            && AtMark(w, s.hash) && Sound(FlushMark(w), s.hash)
            && RunRules(a, s, rules) == if outcome.EndTopic? then (FlushMark(w), true) else RunRules(FlushMark(w), s, rules[1..])
  {
    hide Sound, Grew, FlushMark, SaveBacktrack, RunAttempts, Marked;
    MarkedSelf(a, RULEMARK, s.hash);
    SaveIsSound(a, RULEMARK, s.hash);
    SoundPoint(a, s.hash);
    var w := RunAttempts(a, s, SaveBacktrack(a, RULEMARK), rules[0].attempts).0;
    FlushKeeps(a, RULEMARK, w, s.hash);
    GrewSound(a, FlushMark(w), s.hash);
  }

  lemma SoundPoint(a: World, h: Hashing)
    requires Sound(a, h)
    ensures a.point <= a.lex.used && a.net.Shaped() && |a.net.flags| >= 1
  {
    hide Lawful, FactsNameWords, Settled;
  }

  lemma NoRules(a: World, s: Setting)
    requires Sound(a, s.hash)
    ensures RunRules(a, s, []) == (a, false)
  {
    hide Sound;
  }

  lemma PlansStep(a: World, s: Setting, plans: seq<Alternative>)
    requires Sound(a, s.hash) && plans != [] && plans[0].Topic?
    ensures |a.net.flags| >= 1 && Sound(SaveBacktrack(a, PLANMARK), s.hash) && Marked(a, PLANMARK, SaveBacktrack(a, PLANMARK), s.hash)
    ensures var m := SaveBacktrack(a, PLANMARK);
            var (w, ended) := if plans[0].ready then RunRules(m, s, plans[0].rules) else (m, false);
            && Marked(a, PLANMARK, w, s.hash) && AtMark(w, s.hash) && Sound(RestoreMark(w, s.hash), s.hash)
            && RunPlans(a, s, plans) == if ended then (FlushMark(w), true) else RunPlans(RestoreMark(w, s.hash), s, plans[1..])
  {
    hide Sound, Grew, FlushMark, RestoreMark, SaveBacktrack, RunRules, Marked;
    MarkedSelf(a, PLANMARK, s.hash);
    SaveIsSound(a, PLANMARK, s.hash);
    MarkedRules(a, s, plans[0]);
    var m := SaveBacktrack(a, PLANMARK);
    var w := if plans[0].ready then RunRules(m, s, plans[0].rules) else (m, false);
    FlushKeeps(a, PLANMARK, w.0, s.hash);
    RestoreRestores(a, PLANMARK, w.0, s.hash);
    GrewSound(a, RestoreMark(w.0, s.hash), s.hash);
  }

  lemma NoPlans(a: World, s: Setting, plans: seq<Alternative>)
    requires Sound(a, s.hash) && (plans == [] || plans[0].NoTopic?)
    ensures RunPlans(a, s, plans) == (a, false)
  {
    hide Sound;
  }

  // ----- What a plan leaves behind ------------------------------------------------------------

  lemma SameViewRefl(a: World, h: Hashing)
    requires Sound(a, h)
    ensures h.buckets > 0 && ZoneEnd(h) <= |a.lex.entries| && SameView(a, a, h)
  {
    hide Threaded, FactsNameWords, Buckets;
  }

  lemma SameViewTrans(a: World, b: World, c: World, h: Hashing)
    requires h.buckets > 0 && ZoneEnd(h) <= |a.lex.entries|
    requires SameView(a, b, h) && SameView(b, c, h)
    ensures SameView(a, c, h)
  {
    hide Buckets, LockedProperties, LockedFlags;
    forall i | 0 <= i < |a.lex.entries|
      ensures SameSpelling(a.lex.entries[i], c.lex.entries[i])
    {
      assert SameSpelling(a.lex.entries[i], b.lex.entries[i]) && SameSpelling(b.lex.entries[i], c.lex.entries[i]);
    }
  }

  /** Plans of which none ends its topic leave no effect. */
  lemma {:induction false} FailedPlansLeaveNothing(a: World, s: Setting, plans: seq<Alternative>)
    requires Sound(a, s.hash) && !RunPlans(a, s, plans).1
    ensures s.hash.buckets > 0 && ZoneEnd(s.hash) <= |a.lex.entries|
    ensures SameView(a, RunPlans(a, s, plans).0, s.hash)
    decreases plans
  {
    hide Sound, SameView, RunRules, Marked, AtMark, RestoreMark, SaveBacktrack, Grew;
    SameViewRefl(a, s.hash);
    if plans != [] && !plans[0].NoTopic? {
      MarkedSelf(a, PLANMARK, s.hash);
      var m := SaveBacktrack(a, PLANMARK);
      SaveIsSound(a, PLANMARK, s.hash);
      var w := if plans[0].ready then RunRules(m, s, plans[0].rules).0 else m;
      MarkedRules(a, s, plans[0]);
      RestoreRestores(a, PLANMARK, w, s.hash);
      var b := RestoreMark(w, s.hash);
      GrewSound(a, b, s.hash);
      FailedPlansLeaveNothing(b, s, plans[1..]);
      SameViewTrans(a, b, RunPlans(b, s, plans[1..]).0, s.hash);
    }
  }

  lemma GrewSound(a: World, b: World, h: Hashing)
    requires Grew(a, b, h)
    ensures Sound(a, h) && Sound(b, h)
  {
  }

  lemma MarkedRules(a: World, s: Setting, plan: Alternative)
    requires Sound(a, s.hash) && plan.Topic?
    ensures |a.net.flags| >= 1 && Sound(SaveBacktrack(a, PLANMARK), s.hash)
    ensures var m := SaveBacktrack(a, PLANMARK);
            Marked(a, PLANMARK, if plan.ready then RunRules(m, s, plan.rules).0 else m, s.hash)
  {
    hide Sound, Grew, RunRules;
    MarkedSelf(a, PLANMARK, s.hash);
    SaveIsSound(a, PLANMARK, s.hash);
    var m := SaveBacktrack(a, PLANMARK);
    if plan.ready { MarkedGrew(a, PLANMARK, m, RunRules(m, s, plan.rules).0, s.hash); }
  }

  /** The worlds from which the plans of a run start. */
  ghost function PlanStarts(a: World, s: Setting, plans: seq<Alternative>): seq<World>
    requires Sound(a, s.hash)
    decreases plans
  {
    if plans == [] || plans[0].NoTopic? then []
    else
      MarkedRules(a, s, plans[0]);
      var m := SaveBacktrack(a, PLANMARK);
      var w := if plans[0].ready then RunRules(m, s, plans[0].rules) else (m, false);
      [a] + if w.1 then []
            else
              RestoreRestores(a, PLANMARK, w.0, s.hash);
              PlanStarts(RestoreMark(w.0, s.hash), s, plans[1..])
  }

  /** Each alternative plan starts from the same facts and dictionary as the first. */
  lemma {:induction false} PlansStartAlike(a: World, s: Setting, plans: seq<Alternative>)
    requires Sound(a, s.hash)
    ensures s.hash.buckets > 0 && ZoneEnd(s.hash) <= |a.lex.entries|
    ensures forall x :: x in PlanStarts(a, s, plans) ==> SameView(a, x, s.hash)
    decreases plans
  {
    hide Sound, SameView, RunRules, Marked, AtMark, RestoreMark, SaveBacktrack, Grew;
    SameViewRefl(a, s.hash);
    if plans != [] && !plans[0].NoTopic? {
      MarkedRules(a, s, plans[0]);
      var m := SaveBacktrack(a, PLANMARK);
      var w := if plans[0].ready then RunRules(m, s, plans[0].rules) else (m, false);
      if !w.1 {
        RestoreRestores(a, PLANMARK, w.0, s.hash);
        var b := RestoreMark(w.0, s.hash);
        GrewSound(a, b, s.hash);
        PlansStartAlike(b, s, plans[1..]);
        forall x | x in PlanStarts(b, s, plans[1..])
          ensures SameView(a, x, s.hash)
        {
          SameViewTrans(a, b, x, s.hash);
        }
      }
    }
  }

  /** The worlds from which the attempts at a rule start. */
  ghost function AttemptStarts(a: World, s: Setting, m: World, attempts: seq<Attempt>): seq<World>
    requires Marked(a, RULEMARK, m, s.hash)
    decreases attempts
  {
    if attempts == [] then []
    else
      var w := RunSteps(m, s, attempts[0].steps);
      MarkedGrew(a, RULEMARK, m, w, s.hash);
      [m] + if |attempts| == 1 || !attempts[0].outcome.Stopped? then []
            else
              RefreshRestores(a, RULEMARK, w, s.hash);
              AttemptStarts(a, s, RefreshMark(w, s.hash), attempts[1..])
  }

  /** The world in which the mark of a rule was just saved, string arena and all. */
  ghost predicate AsMarked(a: World, id: int, x: World, h: Hashing)
    requires h.buckets > 0 && ZoneEnd(h) <= |a.lex.entries| && |a.net.flags| >= 1
  {
    var m := SaveBacktrack(a, id);
    x.net == m.net && x.point == m.point && x.base == m.base && ZoneEnd(h) <= |m.lex.entries| && Restored(m.lex, x.lex, h)
  }

  /** Each redo of a rule starts from exactly the world of the first attempt. */
  lemma {:induction false} AttemptsStartAlike(a: World, s: Setting, m: World, attempts: seq<Attempt>)
    requires Marked(a, RULEMARK, m, s.hash)
    requires s.hash.buckets > 0 && ZoneEnd(s.hash) <= |a.lex.entries| && AsMarked(a, RULEMARK, m, s.hash)
    ensures forall x :: x in AttemptStarts(a, s, m, attempts) ==> AsMarked(a, RULEMARK, x, s.hash)
    decreases attempts
  {
    hide RunSteps, AtMark, RefreshMark, SaveBacktrack, Grew, Restored, Sound, RunAttempts;
    if attempts != [] {
      var w := RunSteps(m, s, attempts[0].steps) by { MarkedSound(a, m, s.hash); }
      MarkedGrew(a, RULEMARK, m, w, s.hash);
      if |attempts| > 1 && attempts[0].outcome.Stopped? {
        RefreshRestores(a, RULEMARK, w, s.hash);
        AttemptsStartAlike(a, s, RefreshMark(w, s.hash), attempts[1..]);
      }
    }
  }

  lemma MarkedSound(a: World, m: World, h: Hashing)
    requires Marked(a, RULEMARK, m, h)
    ensures Sound(m, h)
  {
  }

  /** Nothing of the facts or the dictionary was lost on the way from `x` to `r`. */
  predicate KeepsAll(x: World, r: World) {
    && r.net == x.net && r.lex.entries == x.lex.entries
    && r.lex.propertyLog == x.lex.propertyLog && r.lex.flagLog == x.lex.flagLog
  }

  /** The world in which a rule of the plan ended the topic. */
  ghost function EndOfRules(a: World, s: Setting, rules: seq<Rule>): World
    requires Sound(a, s.hash)
    decreases rules
  {
    if rules == [] then a
    else
      MarkedSelf(a, RULEMARK, s.hash);
      var w := RunAttempts(a, s, SaveBacktrack(a, RULEMARK), rules[0].attempts);
      FlushKeeps(a, RULEMARK, w.0, s.hash);
      if w.1.EndTopic? then w.0 else EndOfRules(FlushMark(w.0), s, rules[1..])
  }

  ghost function EndOfPlans(a: World, s: Setting, plans: seq<Alternative>): World
    requires Sound(a, s.hash)
    decreases plans
  {
    if plans == [] || plans[0].NoTopic? then a
    else
      MarkedRules(a, s, plans[0]);
      var m := SaveBacktrack(a, PLANMARK);
      var w := if plans[0].ready then RunRules(m, s, plans[0].rules) else (m, false);
      if w.1 then EndOfRules(m, s, plans[0].rules)
      else
        RestoreRestores(a, PLANMARK, w.0, s.hash);
        EndOfPlans(RestoreMark(w.0, s.hash), s, plans[1..])
  }

  lemma {:induction false} EndedRulesKeep(a: World, s: Setting, rules: seq<Rule>)
    requires Sound(a, s.hash) && RunRules(a, s, rules).1
    ensures KeepsAll(EndOfRules(a, s, rules), RunRules(a, s, rules).0)
    decreases rules
  {
    hide Sound, RunAttempts, Marked, FlushMark, SaveBacktrack, Grew;
    if rules != [] {
      MarkedSelf(a, RULEMARK, s.hash);
      var w := RunAttempts(a, s, SaveBacktrack(a, RULEMARK), rules[0].attempts);
      FlushKeeps(a, RULEMARK, w.0, s.hash);
      GrewSound(a, FlushMark(w.0), s.hash);
      if !w.1.EndTopic? { EndedRulesKeep(FlushMark(w.0), s, rules[1..]); }
    }
  }

  lemma {:induction false} EndedPlansKeep(a: World, s: Setting, plans: seq<Alternative>)
    requires Sound(a, s.hash) && RunPlans(a, s, plans).1
    ensures KeepsAll(EndOfPlans(a, s, plans), RunPlans(a, s, plans).0)
    decreases plans
  {
    hide Sound, RunRules, Marked, AtMark, RestoreMark, FlushMark, SaveBacktrack, Grew, EndOfRules;
    if plans != [] && !plans[0].NoTopic? {
      MarkedRules(a, s, plans[0]);
      var m := SaveBacktrack(a, PLANMARK);
      var w := if plans[0].ready then RunRules(m, s, plans[0].rules) else (m, false);
      if w.1 {
        EndedRulesKeep(m, s, plans[0].rules);
        FlushKeeps(a, PLANMARK, w.0, s.hash);
      } else {
        RestoreRestores(a, PLANMARK, w.0, s.hash);
        GrewSound(a, RestoreMark(w.0, s.hash), s.hash);
        EndedPlansKeep(RestoreMark(w.0, s.hash), s, plans[1..]);
      }
    }
  }

  /** A planner call that fails leaves facts and dictionary as they were; one that ends its topic
    * keeps all that was done in the plan that ended it. Either way the caller's marks are back,
    * and the caller can still undo everything. */
  lemma PlanCodeIsAllOrNothing(w: World, s: Setting, plans: seq<Alternative>)
    requires Sound(w, s.hash)
    ensures s.hash.buckets > 0 && ZoneEnd(s.hash) <= |w.lex.entries| && Sound(Own(w), s.hash)
    ensures var (r, ended) := PlanCode(w, s, plans);
            && Grew(w, r, s.hash) && r.point == w.point && r.base == w.base
            && (!ended ==> SameView(w, r, s.hash))
            && (ended ==> KeepsAll(EndOfPlans(Own(w), s, plans), r))
  {
    hide Sound, RunPlans, EndOfPlans, SameView;
    OwnMarks(w, s.hash);
    SameViewRefl(w, s.hash);
    var r := RunPlans(Own(w), s, plans);
    if r.1 {
      EndedPlansKeep(Own(w), s, plans);
    } else {
      FailedPlansLeaveNothing(Own(w), s, plans);
      SameViewStores(Own(w), r.0, w, PlanCode(w, s, plans).0, s.hash);
    }
  }

  lemma SameViewStores(a: World, b: World, c: World, d: World, h: Hashing)
    requires h.buckets > 0 && ZoneEnd(h) <= |a.lex.entries| && SameView(a, b, h)
    requires c.net == a.net && c.lex == a.lex && d.net == b.net && d.lex == b.lex
    ensures SameView(c, d, h)
  {
  }

  /** A rule that is stopped with nothing to backtrack to keeps what it did: its mark is flushed,
    * not restored. */
  lemma StoppedRuleKeeps(a: World, s: Setting, steps: seq<Step>)
    requires Sound(a, s.hash)
    ensures |a.net.flags| >= 1 && Sound(SaveBacktrack(a, RULEMARK), s.hash)
    ensures var r := RunRules(a, s, [Rule([Attempt(steps, Stopped)])]).0;
            KeepsAll(RunSteps(SaveBacktrack(a, RULEMARK), s, steps), r)
  {
    hide Sound, RunSteps, Marked, FlushMark, SaveBacktrack, Grew;
    MarkedSelf(a, RULEMARK, s.hash);
    SaveIsSound(a, RULEMARK, s.hash);
    var attempts := [Attempt(steps, Stopped)];
    var w := RunAttempts(a, s, SaveBacktrack(a, RULEMARK), attempts);
    FlushKeeps(a, RULEMARK, w.0, s.hash);
    GrewSound(a, FlushMark(w.0), s.hash);
    assert [Rule(attempts)][1..] == [];
  }
}
