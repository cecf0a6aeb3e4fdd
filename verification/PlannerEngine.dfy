/** The planner as the program runs it: the globals of functionExecute.cpp as the fields of one
  * object, and PlanCode with its loops, breaks and flags, proved equal to `Planner.PlanCode`. */
module PlannerEngine {
  import opened Words
  import opened Facts
  import opened FactLaws
  import opened FactUndo
  import opened Lexicon
  import opened LexiconUndo
  import opened Backtrack
  import opened Planner

  class Engine {
    const setting: Setting
    var net: Net
    var lex: Lex
    var point: nat            // backtrackPoint
    var base: nat             // stringPlanBase
    var backtrackable: bool

    function View(): World
      reads this
    {
      World(net, lex, point, base)
    }

    ghost predicate Valid()
      reads this
    {
      Sound(View(), setting.hash)
    }

    constructor (setting: Setting, w: World)
      requires Sound(w, setting.hash)
      ensures Valid() && this.setting == setting && View() == w
    {
      this.setting := setting;
      net, lex, point, base, backtrackable := w.net, w.lex, w.point, w.base, false;
    }

    // ----- Marks ------------------------------------------------------------------------------

    method SaveBacktrack(id: int) returns (mark: nat)
      requires Valid()
      modifies this`lex, this`point
      ensures old(|net.flags|) >= 1 && View() == Backtrack.SaveBacktrack(old(View()), id)
      ensures Valid() && mark == point
    {
      hide Sound, Lexicon.AllocateCell;
      SaveIsSound(View(), id, setting.hash);
      lex := Lexicon.AllocateCell(lex, Mark(id, if base <= point then point - base else 0, |net.flags| - 1, |lex.entries|), 16);
      point := lex.used;
      mark := point;
    }

    method FlushMark(ghost a: World, ghost id: int)
      requires Marked(a, id, View(), setting.hash)
      modifies this`lex, this`point
      ensures AtMark(old(View()), setting.hash) && View() == Backtrack.FlushMark(old(View()))
      ensures Valid() && Grew(a, View(), setting.hash) && point == a.point
    {
      hide Grew, Sound, Marked, ReleaseStrings, Backtrack.SaveBacktrack, ZoneEnd;
      MayFlush(a, id, View(), setting.hash);
      var previous := lex.cells[point].previous;
      if point == lex.used { lex := ReleaseStrings(lex, point - MARK_SIZE); }
      point := base + previous;
    }

    /** The loop of RestoreMark and RefreshMark that frees the facts made since. */
    method FreeFacts(last: nat)
      requires |FreeTo(net, last + 1).flags| <= last + 1
      modifies this`net
      ensures net == FreeTo(old(net), last + 1)
    {
      hide Freeable, FreeTop;
      while |net.flags| > last + 1
        invariant FreeTo(net, last + 1) == FreeTo(old(net), last + 1)
        decreases |net.flags|
      {
        FreedBody(net);
        net := FreeTop(net);
      }
    }

    method RefreshMark(ghost a: World, ghost id: int)
      requires Marked(a, id, View(), setting.hash)
      modifies this`net, this`lex
      ensures AtMark(old(View()), setting.hash) && View() == Backtrack.RefreshMark(old(View()), setting.hash)
      ensures Valid() && Marked(a, id, View(), setting.hash)
    {
      hide Grew, Sound, Marked, Release;
      MarkSurvives(a, id, View(), setting.hash);
      RefreshRestores(a, id, View(), setting.hash);
      MarkedFacts(a, id, View(), setting.hash);
      var m := lex.cells[point];
      FreeFacts(m.facts);
      lex := Release(lex, setting.hash, m.words, point);
      MarkedFacts(a, id, View(), setting.hash);
    }

    method RestoreMark(ghost a: World, ghost id: int)
      requires Marked(a, id, View(), setting.hash)
      modifies this`net, this`lex, this`point
      ensures AtMark(old(View()), setting.hash) && View() == Backtrack.RestoreMark(old(View()), setting.hash)
      ensures Valid() && Grew(a, View(), setting.hash)
    {
      hide Grew, Sound, Marked, Release;
      MarkSurvives(a, id, View(), setting.hash);
      RestoreRestores(a, id, View(), setting.hash);
      GrewSound(a, Backtrack.RestoreMark(View(), setting.hash), setting.hash);
      var previous := lex.cells[point].previous;
      RefreshMark(a, id);
      point := base + previous;
    }

    // ----- Running a plan ---------------------------------------------------------------------

    /** TestRule or DoOutput: performs the steps of an attempt. */
    method RunSteps(steps: seq<Step>)
      requires Valid()
      modifies this
      ensures Valid() && View() == Planner.RunSteps(old(View()), setting, steps)
      ensures Grew(old(View()), View(), setting.hash)
      decreases steps
    {
      hide Grew, Sound;
      ghost var w := View();
      GrewRefl(w, setting.hash);
      if steps != [] {
        RunStep(steps[0]);
        ghost var w1 := View();
        RunSteps(steps[1..]);
        GrewTrans(w, w1, View(), setting.hash);
      }
    }

    method RunStep(step: Step)
      requires Valid()
      modifies this
      ensures Valid() && View() == Planner.RunStep(old(View()), setting, step)
      ensures Grew(old(View()), View(), setting.hash)
      decreases step
    {
      hide Grew, Sound, Perform, Planner.RunPlans;
      match step {
        case Do(op) =>
          PerformGrew(View(), setting, op);
          GrewSound(View(), Perform(View(), setting, op), setting.hash);
          var w := Perform(View(), setting, op);
          net, lex := w.net, w.lex;
          GrewMarks(old(View()), w, setting.hash);
        case Plan(plans) =>
          var ended := PlanCode(plans);
      }
    }

    /** One attempt: it asks to backtrack if the path goes on with another. */
    method RunAttempt(ghost a: World, attempts: seq<Attempt>, i: nat) returns (result: Outcome)
      requires Marked(a, RULEMARK, View(), setting.hash) && Valid() && i < |attempts|
      modifies this
      ensures Valid() && Marked(a, RULEMARK, View(), setting.hash)
      ensures View() == Planner.RunSteps(old(View()), setting, attempts[i].steps) && result == attempts[i].outcome
      ensures backtrackable <==> result.Stopped? && i + 1 < |attempts|
      decreases attempts, 0
    {
      hide Grew, Sound, Marked;
      RunSteps(attempts[i].steps);
      MarkedGrew(a, RULEMARK, old(View()), View(), setting.hash);
      result := attempts[i].outcome;
      backtrackable := result.Stopped? && i + 1 < |attempts|;
    }

    /** TestRule, and then the redoing of a rule that found something to backtrack to. */
    method RunRule(ghost a: World, attempts: seq<Attempt>) returns (result: Outcome)
      requires Marked(a, RULEMARK, View(), setting.hash) && Valid()
      modifies this
      ensures Valid() && (View(), result) == RunAttempts(a, setting, old(View()), attempts)
      ensures Marked(a, RULEMARK, View(), setting.hash)
      decreases attempts, 1
    {
      hide Grew, Sound, Marked, RunAttempts, Planner.RunSteps, AtMark;
      if attempts == [] {
        NoAttempts(a, setting, View());
        return Stopped;
      }
      var i: nat := 0;
      AttemptsStep(a, setting, View(), attempts);
      result := RunAttempt(a, attempts, i);
      while backtrackable
        invariant i < |attempts| && Marked(a, RULEMARK, View(), setting.hash) && Valid()
        invariant backtrackable <==> result.Stopped? && i + 1 < |attempts|
        invariant RunAttempts(a, setting, old(View()), attempts) ==
                  if backtrackable then Redo(a, setting, View(), attempts[i + 1..]) else (View(), result)
        decreases |attempts| - i
      {
        RefreshMark(a, RULEMARK);
        backtrackable := false;
        i := i + 1;
        AttemptsStep(a, setting, View(), attempts[i..]);
        result := RunAttempt(a, attempts, i);
        assert attempts[i..][1..] == attempts[i + 1..];
        if !result.Stopped? { break; }
      }
    }

    /** The rules of a plan, and what PlanCode does after them about the mark of the last. */
    method RunRules(rules: seq<Rule>) returns (ended: bool)
      requires Valid() && point > 0
      modifies this
      ensures Valid() && (View(), ended) == Planner.RunRules(old(View()), setting, rules)
      ensures Grew(old(View()), View(), setting.hash)
      decreases rules
    {
      hide Grew, Sound, Marked, Planner.RunRules, RunAttempts, Backtrack.FlushMark, AtMark;
      ghost var start := View();
      GrewRefl(start, setting.hash);
      var i: nat := 0;
      ended := false;
      var ruleMark: nat := 0;
      ghost var a := View();
      while i < |rules|
        invariant i <= |rules| && Valid() && !ended
        invariant Grew(start, View(), setting.hash)
        invariant Planner.RunRules(start, setting, rules) == Planner.RunRules(View(), setting, rules[i..])
        invariant point == start.point && (ruleMark == 0 || ruleMark > point)
        decreases |rules| - i
      {
        RulesStep(View(), setting, rules[i..]);
        assert rules[i..][1..] == rules[i + 1..];
        a := View();
        ruleMark := SaveBacktrack(RULEMARK);
        MarkedSelf(a, RULEMARK, setting.hash);
        var result := RunRule(a, rules[i].attempts);
        if result.EndTopic? {
          ended := true;
          MarkedPoint(a, View(), setting.hash);
          break;
        }
        FlushMark(a, RULEMARK);
        GrewTrans(start, a, View(), setting.hash);
        i := i + 1;
      }
      if !ended {
        NoRules(View(), setting);
        assert rules[i..] == [];
      }
      if point == ruleMark {
        FlushMark(a, RULEMARK);
        GrewTrans(start, a, View(), setting.hash);
      }
    }

    /** PlanCode: plans in turn, each under a mark of its own, until one ends its topic. */
    method PlanCode(plans: seq<Alternative>) returns (ended: bool)
      requires Valid()
      modifies this
      ensures Valid() && (View(), ended) == Planner.PlanCode(old(View()), setting, plans)
      ensures Grew(old(View()), View(), setting.hash)
      decreases plans, 1
    {
      hide Grew, Sound, Marked, Planner.RunPlans, AtMark;
      var oldPoint, oldBase := point, base;
      OwnMarks(View(), setting.hash);
      base, point := lex.used, lex.used;
      ended := RunPlans(plans);
      CallersMarks(old(View()), View(), setting.hash);
      GrewSound(old(View()), Back(old(View()), View()), setting.hash);
      base, point := oldBase, oldPoint;
    }

    method RunPlans(plans: seq<Alternative>) returns (ended: bool)
      requires Valid()
      modifies this
      ensures Valid() && (View(), ended) == Planner.RunPlans(old(View()), setting, plans)
      ensures Grew(old(View()), View(), setting.hash)
      decreases plans, 0
    {
      hide Grew, Sound, Marked, Planner.RunPlans, Planner.RunRules, Backtrack.FlushMark, Backtrack.RestoreMark, AtMark;
      ghost var start := View();
      GrewRefl(start, setting.hash);
      var n: nat := 0;
      ended := false;
      while n < |plans| && plans[n].Topic?
        invariant n <= |plans| && Valid()
        invariant Grew(start, View(), setting.hash)
        invariant Planner.RunPlans(start, setting, plans) == Planner.RunPlans(View(), setting, plans[n..])
        decreases |plans| - n
      {
        PlansStep(View(), setting, plans[n..]);
        assert plans[n..][1..] == plans[n + 1..];
        ghost var a := View();
        var planMark := SaveBacktrack(PLANMARK);
        if plans[n].ready { ended := RunRules(plans[n].rules); }
        if ended {
          FlushMark(a, PLANMARK);
          GrewTrans(start, a, View(), setting.hash);
          return;
        }
        RestoreMark(a, PLANMARK);
        GrewTrans(start, a, View(), setting.hash);
        n := n + 1;
      }
      NoPlans(View(), setting, plans[n..]);
    }
  }

  lemma MarkedFacts(a: World, id: int, w: World, h: Hashing)
    requires Marked(a, id, w, h)
    ensures Sound(w, h) && |FreeTo(w.net, |a.net.flags|).flags| <= |a.net.flags|
  {
    hide Sound, Since, AllocateCell;
  }

  lemma GrewMarks(a: World, b: World, h: Hashing)
    requires Grew(a, b, h)
    ensures a.point == b.point && a.base == b.base
  {
  }

  lemma MarkedPoint(a: World, w: World, h: Hashing)
    requires Marked(a, RULEMARK, w, h)
    ensures |a.net.flags| >= 1 && w.point == Backtrack.SaveBacktrack(a, RULEMARK).point
  {
  }

  lemma MayFlush(a: World, id: int, w: World, h: Hashing)
    requires Marked(a, id, w, h)
    ensures AtMark(w, h)
    ensures var r := Backtrack.FlushMark(w); Sound(r, h) && Grew(a, r, h) && r.point == a.point
  {
    hide Grew, Sound, Marked, Backtrack.FlushMark, Backtrack.SaveBacktrack;
    FlushKeeps(a, id, w, h);
    GrewSound(a, Backtrack.FlushMark(w), h);
  }
}
