/** KillFact: marking a fact dead, with a record of the death while planning, and with it
  * every fact that uses it. JSON facts are not part of this model. */
module FactKill {
  import opened Facts
  import opened FactLaws

  ghost function LiveSet(s: Net): set<nat> { set i: nat | 0 < i < |s.flags| && s.Live(i) }

  /** How many facts can still die: the measure of every recursion over kills. */
  ghost function LiveCount(s: Net): nat { |LiveSet(s)| }

  lemma SubsetCounts<T>(a: set<T>, b: set<T>)
    requires a <= b
    ensures |a| <= |b|
    ensures a != b ==> |a| < |b|
  {
    assert b == a + (b - a);
  }

  /** What killing may change: facts die and death records are added. */
  ghost predicate Deadens(s: Net, r: Net) {
    && s.Rows() && r.Rows() && |s.flags| <= |r.flags|
    && (forall i :: 0 <= i < |s.flags| ==> r.value[i] == s.value[i])
    && (forall i :: 0 <= i < |s.flags| ==> r.flags[i] == s.flags[i] || r.flags[i] == s.flags[i].(dead := true))
    && (forall i :: |s.flags| <= i < |r.flags| ==> r.flags[i].dead && r.value[i].subj == 0)
    && LinksKept(s.subj, r.subj) && LinksKept(s.verb, r.verb) && LinksKept(s.obj, r.obj)
  }

  /** Links and heads stay; rows and their heads may be added. */
  ghost predicate LinksKept(a: Links, b: Links) {
    && a.next <= b.next && a.head.Keys <= b.head.Keys
    && forall node :: node in a.head ==> b.head[node] == a.head[node]
  }

  lemma LinksKeptTrans(a: Links, b: Links, c: Links)
    requires LinksKept(a, b) && LinksKept(b, c)
    ensures LinksKept(a, c)
  {
  }

  lemma DeadensLess(s: Net, r: Net)
    requires Deadens(s, r)
    ensures LiveCount(r) <= LiveCount(s)
    ensures LiveSet(r) <= LiveSet(s)
  {
    forall i | i in LiveSet(r)
      ensures i in LiveSet(s)
    {
      assert i < |s.flags|;
    }
    SubsetCounts(LiveSet(r), LiveSet(s));
  }

  lemma DeadensTrans(s: Net, t: Net, r: Net)
    requires Deadens(s, t) && Deadens(t, r)
    ensures Deadens(s, r)
    ensures LiveCount(r) <= LiveCount(t) <= LiveCount(s)
  {
    DeadensLess(s, t);
    DeadensLess(t, r);
    LinksKeptTrans(s.subj, t.subj, r.subj);
    LinksKeptTrans(s.verb, t.verb, r.verb);
    LinksKeptTrans(s.obj, t.obj, r.obj);
    hide LinksKept;
    forall i | 0 <= i < |s.flags|
      ensures r.value[i] == s.value[i] && (r.flags[i] == s.flags[i] || r.flags[i] == s.flags[i].(dead := true))
    {
      assert t.value[i] == s.value[i];
    }
    forall i | |s.flags| <= i < |r.flags|
      ensures r.flags[i].dead && r.value[i].subj == 0
    {
      if i < |t.flags| { assert t.flags[i].dead && t.value[i].subj == 0; }
    }
  }

  /** The first steps of a kill: the death and, while planning, its record. */
  function Die(s: Net, f: nat, planning: bool): Net
    requires f < |s.flags|
  {
    if planning then SpecialFact(s.SetDead(f, true), f, 0, false) else s.SetDead(f, true)
  }

  lemma DieDeadens(s: Net, f: nat, planning: bool)
    requires s.Shaped() && s.Live(f)
    ensures Deadens(s, Die(s, f, planning)) && LiveCount(Die(s, f, planning)) < LiveCount(s)
  {
    var r := Die(s, f, planning);
    assert FactNode(|s.flags|) !in s.subj.head;
    DeadensLess(s, r);
    assert f in LiveSet(s) && f !in LiveSet(r);
    SubsetCounts(LiveSet(r), LiveSet(s));
  }

  lemma DieKeepsThreaded(s: Net, f: nat, planning: bool)
    requires Threaded(s) && s.Live(f)
    ensures Threaded(Die(s, f, planning))
  {
    SetDeadKeepsThreaded(s, f, true);
    SpecialKeepsThreaded(s.SetDead(f, true), f, 0, false);
  }

  /** KillFact. `built` is the last fact of the pre-built layers, none of which may be killed. */
  function KillFact(s: Net, f: nat, planning: bool, built: nat): (r: Net)
    requires s.Shaped()
    ensures r.Shaped() && Deadens(s, r)
    decreases LiveCount(s), 0, 0
  {
    if !s.Live(f) || f <= built then s
    else
      var s1 := Die(s, f, planning);
      DieDeadens(s, f, planning);
      DieShaped(s, f, planning);
      var s2 := KillList(s1, Subject, s1.NondeadHead(Subject, FactNode(f)), planning, built);
      DeadensTrans(s, s1, s2);
      DeadensLess(s1, s2);
      var s3 := KillList(s2, Verb, s2.NondeadHead(Verb, FactNode(f)), planning, built);
      DeadensTrans(s, s2, s3);
      DeadensLess(s2, s3);
      var s4 := KillList(s3, Object, s3.NondeadHead(Object, FactNode(f)), planning, built);
      DeadensTrans(s, s3, s4);
      s4
  }

  lemma DieShaped(s: Net, f: nat, planning: bool)
    requires s.Shaped() && s.Live(f)
    ensures Die(s, f, planning).Shaped()
  {
  }

  lemma NextIsBelow(s: Net, t: Net, role: Role, g: nat)
    requires Deadens(s, t) && g < |s.flags|
    ensures LiveCount(t) <= LiveCount(s)
    ensures g < |t.At(role).next|
  {
    DeadensLess(s, t);
  }

  /** The loops of KillFact over the live facts of one list. */
  function KillList(s: Net, role: Role, g: nat, planning: bool, built: nat): (r: Net)
    requires s.Shaped()
    ensures r.Shaped() && Deadens(s, r)
    decreases LiveCount(s), 1, g
  {
    if g == 0 || g >= |s.flags| then s
    else
      var s1 := KillFact(s, g, planning, built);
      NextIsBelow(s, s1, role, g);
      var r := KillList(s1, role, s1.NondeadNext(role, g), planning, built);
      DeadensTrans(s, s1, r);
      r
  }

  lemma KillKeepsThreaded(s: Net, f: nat, planning: bool, built: nat)
    requires Threaded(s)
    ensures Threaded(KillFact(s, f, planning, built))
    decreases LiveCount(s), 0, 0
  {
    if s.Live(f) && f > built {
      var s1 := Die(s, f, planning);
      DieDeadens(s, f, planning);
      DieKeepsThreaded(s, f, planning);
      KillListKeepsThreaded(s1, Subject, s1.NondeadHead(Subject, FactNode(f)), planning, built);
      var s2 := KillList(s1, Subject, s1.NondeadHead(Subject, FactNode(f)), planning, built);
      DeadensLess(s1, s2);
      KillListKeepsThreaded(s2, Verb, s2.NondeadHead(Verb, FactNode(f)), planning, built);
      var s3 := KillList(s2, Verb, s2.NondeadHead(Verb, FactNode(f)), planning, built);
      DeadensLess(s2, s3);
      KillListKeepsThreaded(s3, Object, s3.NondeadHead(Object, FactNode(f)), planning, built);
    }
  }

  lemma KillListKeepsThreaded(s: Net, role: Role, g: nat, planning: bool, built: nat)
    requires Threaded(s)
    ensures Threaded(KillList(s, role, g, planning, built))
    decreases LiveCount(s), 1, g
  {
    if g != 0 && g < |s.flags| {
      KillKeepsThreaded(s, g, planning, built);
      var s1 := KillFact(s, g, planning, built);
      DeadensLess(s, s1);
      KillListKeepsThreaded(s1, role, s1.NondeadNext(role, g), planning, built);
    }
  }
}
