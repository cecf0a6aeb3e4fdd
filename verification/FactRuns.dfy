/** Every run of the fact store, from the empty arena on: adding words, creating, killing and
  * revising facts, recording in special facts, and freeing back to a lock. */
module FactRuns {
  import opened Threads
  import opened Facts
  import opened FactLaws
  import opened FactKill
  import opened FactUndo
  import opened FactRevise

  datatype Step =
    | AddWord(word: nat)
    | Create(value: Triple, flags: Flags, planning: bool)
    | Record(verb: nat, obj: nat, walk: bool)
    | Kill(fact: nat, planning: bool, built: nat)
    | Revise(fact: nat, rev: Revision, locked: nat, built: nat)
    | FreeBack(locked: nat)

  /** Every record of a death names an older row, so FreeFact finds something to revive. */
  ghost predicate Recorded(s: Net) {
    s.Rows() && forall i :: 0 < i < |s.flags| && !s.Indexed(i) && s.value[i].obj == 0 ==> 0 < s.value[i].verb < i
  }

  ghost predicate Lawful(s: Net) { Threaded(s) && Recorded(s) }

  const NULL_ROW: Net := Net([NO_FLAGS], [ZERO], Links([0], map[]), Links([0], map[]), Links([0], map[]))

  /** The arena before any word or fact: the null row alone. */
  ghost function EmptyNet(): (s: Net)
    ensures Lawful(s)
  {
    NullRowIsLawful();
    NULL_ROW
  }

  lemma NullRowIsLawful()
    ensures Lawful(NULL_ROW)
  {
    forall role ensures Exact(NULL_ROW.View(role)) {
      assert NULL_ROW.View(role).key == [None];
      assert NULL_ROW.View(role).head == map[];
    }
  }

  /** The step is one the store takes in: a new word; fields that exist and an object that is a
    * word; a death record that names a row, or any other record; a revised field that its new
    * list takes in (RewriteKeepsExactIff); a lock inside the arena. A kill is never refused. */
  ghost predicate Allowed(s: Net, step: Step) {
    match step
    case AddWord(w) => !s.Has(WordNode(w))
    case Create(value, flags, planning) => Valid(s, value, flags.refs)
    case Record(verb, obj, walk) => obj == 0 ==> 0 < verb < |s.flags|
    case Kill(f, planning, built) => true
    case Revise(f, rev, locked, built) =>
      && s.Rows() && 0 < f < |s.flags| && s.Indexed(f)
      && (forall role :: MayRewriteSome(s, f, rev, role)) && AllTakenIn(s, f, rev)
    case FreeBack(locked) => locked < |s.flags|
  }

  /** One step. A revision that is refused changes nothing. */
  ghost function Do(s: Net, step: Step): (r: Net)
    requires Lawful(s) && Allowed(s, step)
    ensures Lawful(r)
  {
    hide Threaded, Recorded, Valid, MayRewriteSome, AllTakenIn, CreateFast, FreeTo;
    DoIsLawful(s, step);
    Effect(s, step)
  }

  ghost function Effect(s: Net, step: Step): Net
    requires s.Shaped() && Allowed(s, step)
  {
    match step
    case AddWord(w) => NewWord(s, w)
    case Create(value, flags, planning) => CreateFast(s, value, flags, planning).0
    case Record(verb, obj, walk) => SpecialFact(s, verb, obj, walk)
    case Kill(f, planning, built) => KillFact(s, f, planning, built)
    case Revise(f, rev, locked, built) =>
      var r := FactRevise.Revise(s, f, rev, locked, built);
      if r.Some? then r.value else s
    case FreeBack(locked) => FreeTo(s, locked + 1)
  }

  lemma DoIsLawful(s: Net, step: Step)
    requires Lawful(s) && Allowed(s, step)
    ensures s.Shaped() && Lawful(Effect(s, step))
  {
    hide Recorded, Valid, MayRewriteSome, AllTakenIn, CreateFast, FreeTo;
    match step
    case AddWord(w) =>
      NewWordKeepsThreaded(s, w);
      NewWordKeepsRecorded(s, w);
    case Create(value, flags, planning) =>
      CreateKeepsThreaded(s, value, flags, planning);
      CreateKeepsRecorded(s, value, flags, planning);
    case Record(verb, obj, walk) =>
      SpecialKeepsThreaded(s, verb, obj, walk);
      SpecialKeepsRecorded(s, verb, obj, walk);
    case Kill(f, planning, built) =>
      KillKeepsThreaded(s, f, planning, built);
      KillKeepsRecorded(s, f, planning, built);
    case Revise(f, rev, locked, built) =>
      if FactRevise.Revise(s, f, rev, locked, built).Some? {
        ReviseKeepsThreadedIff(s, f, rev, locked, built);
        ReviseKeepsRecorded(s, f, rev, locked, built);
      }
    case FreeBack(locked) =>
      FreeToKeepsThreaded(s, locked + 1);
      FreeToReaches(s, locked + 1);
  }

  // ----- Records -----------------------------------------------------------------------

  lemma NewWordKeepsRecorded(s: Net, w: nat)
    requires Recorded(s)
    ensures Recorded(NewWord(s, w))
  {
    assert forall i :: 0 < i < |s.flags| && !NewWord(s, w).Indexed(i) ==> !s.Indexed(i);
  }

  lemma CreateKeepsRecorded(s: Net, value: Triple, flags: Flags, planning: bool)
    requires s.Shaped() && Recorded(s) && Valid(s, value, flags.refs)
    ensures WordsExist(s, value, flags.refs)
    ensures Recorded(CreateFast(s, value, flags, planning).0)
  {
    CreateEffect(s, value, flags, planning);
    hide CreateFast;
    var r := Created(s, value, flags, planning);
    assert value.At(Subject) != 0;
    assert forall i :: 0 < i < |s.flags| ==> r.value[i] == s.value[i] && (!r.Indexed(i) ==> !s.Indexed(i));
  }

  lemma SpecialKeepsRecorded(s: Net, verb: nat, obj: nat, walk: bool)
    requires Recorded(s) && (obj == 0 ==> 0 < verb < |s.flags|)
    ensures Recorded(SpecialFact(s, verb, obj, walk))
  {
    var r := SpecialFact(s, verb, obj, walk);
    assert forall i :: 0 < i < |s.flags| ==> r.value[i] == s.value[i] && (!r.Indexed(i) ==> !s.Indexed(i));
  }

  lemma DieKeepsRecorded(s: Net, f: nat, planning: bool)
    requires Recorded(s) && s.Live(f)
    ensures Recorded(Die(s, f, planning))
  {
    var t := s.SetDead(f, true);
    assert forall i :: 0 < i < |s.flags| && !t.Indexed(i) ==> !s.Indexed(i);
    if planning { SpecialKeepsRecorded(t, f, 0, false); }
  }

  lemma KillKeepsRecorded(s: Net, f: nat, planning: bool, built: nat)
    requires s.Shaped() && Recorded(s)
    ensures Recorded(KillFact(s, f, planning, built))
    decreases LiveCount(s), 0, 0
  {
    if s.Live(f) && f > built {
      var s1 := Die(s, f, planning);
      DieDeadens(s, f, planning);
      DieShaped(s, f, planning);
      DieKeepsRecorded(s, f, planning);
      hide Recorded;
      KillListKeepsRecorded(s1, Subject, s1.NondeadHead(Subject, FactNode(f)), planning, built);
      var s2 := KillList(s1, Subject, s1.NondeadHead(Subject, FactNode(f)), planning, built);
      DeadensLess(s1, s2);
      KillListKeepsRecorded(s2, Verb, s2.NondeadHead(Verb, FactNode(f)), planning, built);
      var s3 := KillList(s2, Verb, s2.NondeadHead(Verb, FactNode(f)), planning, built);
      DeadensLess(s2, s3);
      KillListKeepsRecorded(s3, Object, s3.NondeadHead(Object, FactNode(f)), planning, built);
    }
  }

  lemma KillListKeepsRecorded(s: Net, role: Role, g: nat, planning: bool, built: nat)
    requires s.Shaped() && Recorded(s)
    ensures Recorded(KillList(s, role, g, planning, built))
    decreases LiveCount(s), 1, g
  {
    if g != 0 && g < |s.flags| {
      KillKeepsRecorded(s, g, planning, built);
      var s1 := KillFact(s, g, planning, built);
      NextIsBelow(s, s1, role, g);
      KillListKeepsRecorded(s1, role, s1.NondeadNext(role, g), planning, built);
    }
  }

  lemma RewriteSomeKeepsRecorded(s: Net, role: Role, f: nat, w: Option<nat>)
    requires Recorded(s) && 0 < f < |s.flags| && s.Indexed(f) && (w.Some? ==> w.value > 0)
    ensures var r := RewriteSome(s, role, f, w); Recorded(r) && |r.flags| == |s.flags| && r.Indexed(f)
  {
    if w.Some? && Rewritable(s, role, f, w.value) {
      RewriteBody(s, role, f, w.value);
      hide Rewrite;
      var r := Rewrite(s, role, f, w.value);
      assert r.value[f].At(Subject) != 0;
      assert forall i :: 0 < i < |s.flags| && !r.Indexed(i) ==> i != f && r.value[i] == s.value[i] && !s.Indexed(i);
    }
  }

  lemma ReviseKeepsRecorded(s: Net, f: nat, rev: Revision, locked: nat, built: nat)
    requires Recorded(s) && 0 < f < |s.flags| && s.Indexed(f) && forall role :: MayRewriteSome(s, f, rev, role)
    requires FactRevise.Revise(s, f, rev, locked, built).Some?
    ensures Recorded(FactRevise.Revise(s, f, rev, locked, built).value)
  {
    hide Recorded, Rewrite, Rewritable;
    assert MayRewriteSome(s, f, rev, Subject) && MayRewriteSome(s, f, rev, Verb) && MayRewriteSome(s, f, rev, Object);
    RewriteSomeKeepsRecorded(s, Subject, f, rev.subj);
    var s1 := RewriteSome(s, Subject, f, rev.subj);
    RewriteSomeKeepsRecorded(s1, Verb, f, rev.verb);
    RewriteSomeKeepsRecorded(RewriteSome(s1, Verb, f, rev.verb), Object, f, rev.obj);
  }

  lemma FreeTopKeepsRecorded(s: Net)
    requires Lawful(s) && |s.flags| > 1
    ensures Freeable(s) && Recorded(FreeTop(s)) && |FreeTop(s).flags| == |s.flags| - 1
  {
    if s.Indexed(|s.flags| - 1) { IndexedIsFreeable(s); }
    FreedBody(s);
    hide FreeTop, Freeable, Threaded;
    var r := FreeTop(s);
    assert forall i :: 0 < i < |r.flags| ==> r.value[i] == s.value[i] && (!r.Indexed(i) ==> !s.Indexed(i));
  }

  /** In a lawful arena freeing back never stops early: it ends exactly at the mark. */
  lemma {:induction false} FreeToReaches(s: Net, n: nat)
    requires Lawful(s) && 0 < n <= |s.flags|
    ensures |FreeTo(s, n).flags| == n && Recorded(FreeTo(s, n))
    decreases |s.flags|
  {
    hide Threaded, Recorded, Freeable, FreeTop;
    if |s.flags| > n {
      FreeTopKeepsRecorded(s);
      FreeKeepsThreaded(s);
      FreeToReaches(FreeTop(s), n);
    }
  }

  // ----- Runs --------------------------------------------------------------------------

  /** The arena after a run of steps; None when a step is one the store does not take in. */
  ghost function Run(s: Net, steps: seq<Step>): (r: Option<Net>)
    requires Lawful(s)
    ensures r.Some? ==> Lawful(r.value)
    decreases |steps|
  {
    hide Lawful, Allowed;
    if steps == [] then Some(s)
    else if !Allowed(s, steps[0]) then None
    else Run(Do(s, steps[0]), steps[1..])
  }

  /** In every state a run reaches, and for every role, the list of every word and every fact
    * is exactly the facts that hold it in that role, newest first. */
  lemma RunKeepsLists(steps: seq<Step>, role: Role, node: Node)
    requires Run(EmptyNet(), steps).Some?
    requires node in Run(EmptyNet(), steps).value.At(role).head
    ensures var s := Run(EmptyNet(), steps).value;
            var c := Chain(s.At(role).next, s.At(role).head[node]);
            && s.Rows()
            && (forall i :: i in c <==> 0 <= i < |s.flags| && s.KeyAt(role, i) == Some(node))
            && (forall i, j :: 0 <= i < j < |c| ==> c[i] > c[j])
  {
    hide Run, EmptyNet, Recorded, Threaded;
    ListOfRole(Run(EmptyNet(), steps).value, role, node);
  }

  /** Freeing any reachable state back to any lock ends at the lock, and leaves of each list
    * exactly the facts at or below it, in their order. */
  lemma RunFreesToLock(steps: seq<Step>, locked: nat, role: Role, node: Node)
    requires Run(EmptyNet(), steps).Some? && locked < |Run(EmptyNet(), steps).value.flags|
    ensures var s := Run(EmptyNet(), steps).value;
            var r := FreeTo(s, locked + 1);
            && |r.flags| == locked + 1
            && (node in s.At(role).head && node in r.At(role).head ==>
                  var after := Chain(r.At(role).next, r.At(role).head[node]);
                  var before := Chain(s.At(role).next, s.At(role).head[node]);
                  && (forall i :: i in after <==> i in before && i <= locked)
                  && (forall i, j :: 0 <= i < j < |after| ==> after[i] > after[j]))
  {
    hide Run, EmptyNet, Recorded, FreeTo, Threaded, Chain;
    var s := Run(EmptyNet(), steps).value;
    FreeToReaches(s, locked + 1);
    if node in s.At(role).head && node in FreeTo(s, locked + 1).At(role).head {
      FreeToKeepsLocked(s, locked, role, node);
    }
  }
}
