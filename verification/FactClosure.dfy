/** What KillFact kills: the fact and, transitively, exactly the facts that use it. */
module FactClosure {
  import opened Threads
  import opened Facts
  import opened FactLaws
  import opened FactKill

  /** Fact `g` names fact `f` in one of its fields. */
  predicate Uses(s: Net, g: nat, f: nat) {
    && g < |s.value| && g < |s.flags| && s.Indexed(g)
    && exists role :: role in s.flags[g].refs && s.value[g].At(role) == f
  }

  /** `g` is `f`, or uses a fact that depends on `f`. */
  ghost predicate Depends(s: Net, g: nat, f: nat)
    decreases g
  {
    g == f || exists m: nat :: f <= m < g && Uses(s, g, m) && Depends(s, m, f)
  }

  lemma {:induction false} DependsTrans(s: Net, g: nat, m: nat, f: nat)
    requires Depends(s, g, m) && Depends(s, m, f) && f <= m
    ensures Depends(s, g, f)
    decreases g
  {
    if g != m {
      var k: nat :| m <= k < g && Uses(s, g, k) && Depends(s, k, m);
      DependsTrans(s, k, m, f);
    }
  }

  /** Every dead fact from `k` on has only dead users. */
  ghost predicate ClosedFrom(s: Net, k: nat) {
    forall x: nat, g: nat :: k <= x < |s.flags| && s.flags[x].dead && Uses(s, g, x) ==> s.flags[g].dead
  }

  /** Killing changes no field, so uses and dependence stay. */
  lemma UsesKept(s: Net, r: Net, g: nat, f: nat)
    requires Deadens(s, r) && f != 0
    ensures Uses(s, g, f) <==> Uses(r, g, f)
  {
    if g < |s.flags| {
      assert r.value[g] == s.value[g] && r.flags[g].refs == s.flags[g].refs;
    } else if g < |r.flags| {
      assert r.value[g].subj == 0;
    }
  }

  lemma {:induction false} DependsKept(s: Net, r: Net, g: nat, f: nat)
    requires Deadens(s, r) && f != 0 && Depends(r, g, f)
    ensures Depends(s, g, f)
    decreases g
  {
    if g != f {
      var m: nat :| f <= m < g && Uses(r, g, m) && Depends(r, m, f);
      UsesKept(s, r, g, m);
      DependsKept(s, r, m, f);
    }
  }

  ghost predicate UserIn(s: Net, role: Role, g: nat, f: nat)
    requires s.Rows()
  {
    g < |s.flags| && s.KeyAt(role, g) == Some(FactNode(f))
  }

  /** The list holds users of `f`, and else only facts that cannot die. */
  ghost predicate AllUsers(t: Net, role: Role, list: seq<nat>, f: nat, built: nat)
    requires t.Rows()
  {
    forall i :: i in list ==> i < |t.flags| && (UserIn(t, role, i, f) || t.flags[i].dead || i <= built)
  }

  ghost predicate RunsDown(next: seq<nat>, list: seq<nat>) {
    forall i :: i in list ==> i < |next| && next[i] < i
  }

  /** What a kill needs of the list of a fact: it runs down, it has every user of the fact, and
    * besides them only facts that cannot die. */
  ghost predicate ListOk(s: Net, role: Role, f: nat, built: nat)
    requires s.Rows()
  {
    var next := s.At(role).next;
    var h := s.At(role).Head(FactNode(f));
    && h < |s.flags| && FactNode(f) in s.At(role).head
    && AllUsers(s, role, Chain(next, h), f, built)
    && RunsDown(next, Chain(next, h))
    && forall g: nat :: UserIn(s, role, g, f) ==> g in Chain(next, h)
  }

  /** What a kill needs of the arena. A lawful arena has it. */
  ghost predicate Walkable(s: Net, built: nat) {
    && s.Shaped() && RefsAreOlder(s)
    && forall role, f :: s.Live(f) ==> ListOk(s, role, f, built)
  }

  lemma ThreadedIsWalkable(s: Net, built: nat)
    requires Threaded(s)
    ensures Walkable(s, built)
  {
    forall role, f | s.Live(f)
      ensures ListOk(s, role, f, built)
    {
      ExactListIsOk(s, role, f, built);
    }
  }

  lemma ExactListIsOk(s: Net, role: Role, f: nat, built: nat)
    requires s.Shaped() && Exact(s.View(role)) && 0 < f < |s.flags|
    ensures ListOk(s, role, f, built)
  {
    var node := FactNode(f);
    var v := s.View(role);
    assert node in s.At(role).head && ExactAt(v, node);
    ListIsExact(v, node);
    ChainIsBelow(v.next, v.head[node]);
    forall i | i in Chain(v.next, v.head[node])
      ensures UserIn(s, role, i, f)
    {
      assert v.key[i] == Some(node);
    }
    forall g: nat | UserIn(s, role, g, f)
      ensures g in Chain(v.next, v.head[node])
    {
      assert v.key[g] == Some(node);
    }
  }

  /** Deaths keep the lists. */
  lemma ListKept(s: Net, r: Net, role: Role, f: nat, built: nat)
    requires Deadens(s, r) && ListOk(s, role, f, built)
    ensures ListOk(r, role, f, built)
  {
    var a, b := s.At(role).next, r.At(role).next;
    var h := s.At(role).Head(FactNode(f));
    assert a <= b && r.At(role).Head(FactNode(f)) == h;
    assert b[..|a|] == a;
    ChainIsBelow(a, h);
    ChainFrame(a, b, h);
    forall i: nat | i < |r.flags|
      ensures UserIn(s, role, i, f) <==> UserIn(r, role, i, f)
      ensures i < |s.flags| && s.flags[i].dead ==> r.flags[i].dead
    {
      SameUser(s, r, role, i, f);
    }
  }

  lemma SameUser(s: Net, r: Net, role: Role, i: nat, f: nat)
    requires Deadens(s, r) && i < |r.flags|
    ensures UserIn(s, role, i, f) <==> UserIn(r, role, i, f)
    ensures i < |s.flags| && s.flags[i].dead ==> r.flags[i].dead
  {
    if i < |s.flags| {
      assert r.value[i] == s.value[i] && r.flags[i].refs == s.flags[i].refs;
    } else {
      assert r.value[i].subj == 0;
    }
  }

  lemma WalkableKept(s: Net, r: Net, built: nat)
    requires Deadens(s, r) && Walkable(s, built) && r.Shaped()
    ensures Walkable(r, built)
  {
    hide ListOk, LinksKept;
    RefsKept(s, r);
    forall role, f | r.Live(f)
      ensures ListOk(r, role, f, built)
    {
      assert s.Live(f);
      ListKept(s, r, role, f, built);
    }
  }

  lemma RefsKept(s: Net, r: Net)
    requires Deadens(s, r) && RefsAreOlder(s)
    ensures RefsAreOlder(r)
  {
    forall i, role | 0 < i < |r.flags| && r.Indexed(i) && role in r.flags[i].refs
      ensures r.value[i].At(role) < i
    {
      assert i < |s.flags|;
      assert r.value[i] == s.value[i] && r.flags[i].refs == s.flags[i].refs;
      assert s.Indexed(i);
    }
  }

  /** Where a kill of `f` that began at `s` has got to at `t`. */
  ghost predicate Midway(s: Net, t: Net, f: nat, built: nat) {
    && Walkable(t, built) && Deadens(s, t) && 0 < f < |s.flags| && (forall role :: ListOk(t, role, f, built))
    && t.flags[f].dead && ClosedFrom(t, f + 1) && OnlyDependents(s, t, f)
  }

  /** Nothing died but `f` and what depends on it. */
  ghost predicate OnlyDependents(s: Net, t: Net, f: nat)
    requires Deadens(s, t)
  {
    forall g: nat :: 0 < g < |s.flags| && t.flags[g].dead && !s.flags[g].dead ==> Depends(s, g, f)
  }

  lemma DependentsAreNewer(s: Net, g: nat, f: nat)
    requires Depends(s, g, f)
    ensures f <= g
  {
  }

  /** Killing a fact `g` newer than `f` on the way keeps the way. */
  lemma StepMidway(s: Net, t: Net, r: Net, f: nat, g: nat, built: nat)
    requires Midway(s, t, f, built) && f < g && Depends(s, g, f)
    requires r.Shaped() && Deadens(t, r) && ClosedFrom(r, g) && OnlyDependents(t, r, g)
    ensures Midway(s, r, f, built)
  {
    hide ListOk, LinksKept, RefsAreOlder;
    DeadensTrans(s, t, r);
    WalkableKept(t, r, built);
    forall role ensures ListOk(r, role, f, built) { ListKept(t, r, role, f, built); }
    DependsIsRow(s, g, f);
    StepCloses(t, r, f, g);
    forall x: nat | 0 < x < |s.flags| && r.flags[x].dead && !s.flags[x].dead
      ensures Depends(s, x, f)
    {
      if !t.flags[x].dead {
        DependsKept(s, t, x, g);
        DependsTrans(s, x, g, f);
      }
    }
  }

  lemma StepCloses(t: Net, r: Net, f: nat, g: nat)
    requires Deadens(t, r) && ClosedFrom(t, f + 1) && ClosedFrom(r, g) && OnlyDependents(t, r, g) && g < |t.flags|
    ensures ClosedFrom(r, f + 1)
  {
    hide LinksKept;
    forall x: nat, u: nat | f + 1 <= x < |r.flags| && r.flags[x].dead && Uses(r, u, x)
      ensures r.flags[u].dead
    {
      if x < g {
        if !t.flags[x].dead { DependentsAreNewer(t, x, g); }
        UsesKept(t, r, u, x);
        assert t.flags[u].dead;
      }
    }
  }

  lemma DependsIsRow(s: Net, g: nat, f: nat)
    requires Depends(s, g, f) && f < |s.flags| && s.Rows()
    ensures g < |s.flags|
  {
  }

  lemma KillCloses(s: Net, f: nat, planning: bool, built: nat)
    requires Walkable(s, built) && s.Live(f) && f > built && ClosedFrom(s, f)
    ensures var r := KillFact(s, f, planning, built); r.flags[f].dead && ClosedFrom(r, f) && OnlyDependents(s, r, f)
    decreases LiveCount(s), 0, 0
  {
    hide Walkable, ListOk, LinksKept;
    WalkableIsShaped(s, built);
    var t := Die(s, f, planning);
    DieDeadens(s, f, planning);
    DieIsMidway(s, f, planning, built);
    WalkableIsShaped(t, built);
    var t2 := KillList(t, Subject, t.NondeadHead(Subject, FactNode(f)), planning, built);
    KillRoleCloses(s, t, Subject, f, planning, built);
    DeadensLess(t, t2);
    var t3 := KillList(t2, Verb, t2.NondeadHead(Verb, FactNode(f)), planning, built);
    KillRoleCloses(s, t2, Verb, f, planning, built);
    DeadensLess(t2, t3);
    var r := KillList(t3, Object, t3.NondeadHead(Object, FactNode(f)), planning, built);
    KillRoleCloses(s, t3, Object, f, planning, built);
    assert r == KillFact(s, f, planning, built);
    UsersDead(t, t2, t3, r, f);
  }

  lemma WalkableIsShaped(s: Net, built: nat)
    requires Walkable(s, built)
    ensures s.Shaped() && RefsAreOlder(s)
    ensures forall role, f :: s.Live(f) ==> ListOk(s, role, f, built)
  {
    hide ListOk;
  }

  lemma DieIsMidway(s: Net, f: nat, planning: bool, built: nat)
    requires Walkable(s, built) && s.Live(f) && ClosedFrom(s, f)
    ensures Midway(s, Die(s, f, planning), f, built)
  {
    hide Walkable, ListOk, LinksKept;
    WalkableIsShaped(s, built);
    var t := Die(s, f, planning);
    DieDeadens(s, f, planning);
    DieShaped(s, f, planning);
    WalkableKept(s, t, built);
    forall role ensures ListOk(t, role, f, built) { ListKept(s, t, role, f, built); }
    forall x: nat, g: nat | f + 1 <= x < |t.flags| && t.flags[x].dead && Uses(t, g, x)
      ensures t.flags[g].dead
    {
      UsesKept(s, t, g, x);
      assert x < |s.flags| by { if x >= |s.flags| { UserIsNewer(s, g, x); } }
      assert s.flags[x].dead && s.flags[g].dead;
    }
  }

  lemma UserIsNewer(s: Net, g: nat, f: nat)
    requires s.Shaped() && RefsAreOlder(s) && Uses(s, g, f)
    ensures f < g < |s.flags|
  {
    assert g != 0;
  }

  lemma UserInUses(s: Net, role: Role, g: nat, f: nat)
    requires s.Shaped() && RefsAreOlder(s) && UserIn(s, role, g, f)
    ensures Uses(s, g, f) && f < g < |s.flags|
  {
    UserIsNewer(s, g, f);
  }

  /** After the loop over one role, every user of `f` in that role is dead. */
  lemma KillRoleCloses(s: Net, t: Net, role: Role, f: nat, planning: bool, built: nat)
    requires Midway(s, t, f, built) && f > built
    ensures t.Shaped()
    ensures var r := KillList(t, role, t.NondeadHead(role, FactNode(f)), planning, built);
            && Midway(s, r, f, built) && Deadens(t, r)
            && forall g: nat :: UserIn(t, role, g, f) ==> r.flags[g].dead
    decreases LiveCount(t), 2, 0
  {
    hide Walkable, LinksKept, OnlyDependents, ClosedFrom, ListOk;
    WalkableIsShaped(t, built);
    var first := t.NondeadHead(role, FactNode(f));
    RoleList(t, role, f, built);
    KillListCloses(s, t, role, first, f, planning, built);
    var r := KillList(t, role, first, planning, built);
    forall g: nat | UserIn(t, role, g, f)
      ensures r.flags[g].dead
    {
      UserInUses(t, role, g, f);
      if t.flags[g].dead { assert r.flags[g] == t.flags[g] || r.flags[g].dead; }
    }
  }

  /** The live part of the list of `f` in one role has every user that lives. */
  lemma RoleList(t: Net, role: Role, f: nat, built: nat)
    requires t.Rows() && ListOk(t, role, f, built)
    ensures var c := Chain(t.At(role).next, t.NondeadHead(role, FactNode(f)));
            && AllUsers(t, role, c, f, built) && RunsDown(t.At(role).next, c)
            && (forall g: nat :: UserIn(t, role, g, f) ==> t.flags[g].dead || g in c)
  {
    FirstLiveIsNext(t, role, t.At(role).Head(FactNode(f)));
  }

  ghost predicate AllDead(r: Net, list: seq<nat>, built: nat) {
    forall i :: i in list ==> i < |r.flags| && (r.flags[i].dead || i <= built)
  }

  ghost predicate DeadOrIn(r: Net, list: seq<nat>, rest: seq<nat>, built: nat) {
    forall i :: i in list ==> i < |r.flags| && (r.flags[i].dead || i <= built || i in rest)
  }

  lemma KillListCloses(s: Net, t: Net, role: Role, g: nat, f: nat, planning: bool, built: nat)
    requires Midway(s, t, f, built) && f > built
    requires g == 0 || t.Live(g)
    requires AllUsers(t, role, Chain(t.At(role).next, g), f, built) && RunsDown(t.At(role).next, Chain(t.At(role).next, g))
    ensures t.Shaped()
    ensures var r := KillList(t, role, g, planning, built);
            Midway(s, r, f, built) && Deadens(t, r) && AllDead(r, Chain(t.At(role).next, g), built)
    decreases LiveCount(t), 1, g
  {
    hide Midway, AllUsers, RunsDown;
    MidwayIsShaped(s, t, f, built);
    if g != 0 {
      KillFirst(s, t, role, g, f, planning, built);
      var t1 := KillFact(t, g, planning, built);
      var n := t1.NondeadNext(role, g);
      KillListCloses(s, t1, role, n, f, planning, built);
      var r := KillList(t1, role, n, planning, built);
      DeadensTrans(t, t1, r);
      StaysDead(t1, r, Chain(t.At(role).next, g), Chain(t1.At(role).next, n), built);
    }
  }

  lemma MidwayIsShaped(s: Net, t: Net, f: nat, built: nat)
    requires Midway(s, t, f, built)
    ensures t.Shaped() && Walkable(t, built) && f != 0 && Deadens(s, t)
  {
    hide ListOk, LinksKept;
  }

  /** One turn of the loop: the first fact of the list dies if it can, and the rest stays to be done. */
  lemma KillFirst(s: Net, t: Net, role: Role, g: nat, f: nat, planning: bool, built: nat)
    requires Midway(s, t, f, built) && f > built && t.Live(g)
    requires AllUsers(t, role, Chain(t.At(role).next, g), f, built) && RunsDown(t.At(role).next, Chain(t.At(role).next, g))
    ensures t.Shaped()
    ensures var t1 := KillFact(t, g, planning, built);
            && Midway(s, t1, f, built) && Deadens(t, t1) && LiveCount(t1) <= LiveCount(t) && g < |t1.At(role).next|
            && var n := t1.NondeadNext(role, g);
               && (n == 0 || t1.Live(n))
               && AllUsers(t1, role, Chain(t1.At(role).next, n), f, built)
               && RunsDown(t1.At(role).next, Chain(t1.At(role).next, n))
               && DeadOrIn(t1, Chain(t.At(role).next, g), Chain(t1.At(role).next, n), built)
    decreases LiveCount(t), 1, 0
  {
    hide Midway, Walkable, AllUsers, RunsDown, DeadOrIn;
    MidwayIsShaped(s, t, f, built);
    var t1 := KillFact(t, g, planning, built);
    DeadensLess(t, t1);
    if g > built {
      UserIsDependent(s, t, role, g, f, built);
      KillCloses(t, g, planning, built);
      StepMidway(s, t, t1, f, g, built);
    }
    RestOfList(t, t1, role, g, f, built);
  }

  lemma StaysDead(t: Net, r: Net, list: seq<nat>, rest: seq<nat>, built: nat)
    requires Deadens(t, r) && DeadOrIn(t, list, rest, built) && AllDead(r, rest, built)
    ensures AllDead(r, list, built)
  {
  }

  lemma UserIsDependent(s: Net, t: Net, role: Role, g: nat, f: nat, built: nat)
    requires Midway(s, t, f, built) && t.Live(g) && g > built
    requires AllUsers(t, role, Chain(t.At(role).next, g), f, built)
    ensures f < g && Depends(s, g, f) && ClosedFrom(t, g)
  {
    hide ListOk, LinksKept;
    assert g in Chain(t.At(role).next, g);
    assert UserIn(t, role, g, f);
    UserInUses(t, role, g, f);
    UsesKept(s, t, g, f);
    assert Depends(s, f, f);
  }

  /** After `g` the walk goes on over the rest of the list, less what has died. */
  lemma RestOfList(t: Net, t1: Net, role: Role, g: nat, f: nat, built: nat)
    requires t.Rows() && Deadens(t, t1) && t.Live(g) && (t1.flags[g].dead || g <= built)
    requires AllUsers(t, role, Chain(t.At(role).next, g), f, built) && RunsDown(t.At(role).next, Chain(t.At(role).next, g))
    ensures g < |t1.At(role).next|
    ensures var n := t1.NondeadNext(role, g);
            && (n == 0 || t1.Live(n))
            && AllUsers(t1, role, Chain(t1.At(role).next, n), f, built)
            && RunsDown(t1.At(role).next, Chain(t1.At(role).next, n))
            && DeadOrIn(t1, Chain(t.At(role).next, g), Chain(t1.At(role).next, n), built)
  {
    var a, b := t.At(role).next, t1.At(role).next;
    assert a <= b && b[..|a|] == a;
    ChainIsBelow(a, g);
    ChainFrame(a, b, g);
    var m := b[g];
    assert g in Chain(a, g) && m < g;
    assert Chain(b, g) == [g] + Chain(b, m);
    FirstLiveIsNext(t1, role, m);
    var n := t1.NondeadNext(role, g);
    forall i | i in Chain(b, n)
      ensures i in Chain(a, g) && i < |t1.flags| && (UserIn(t1, role, i, f) || t1.flags[i].dead || i <= built)
    {
      assert i in Chain(a, g);
      SameUser(t, t1, role, i, f);
    }
  }

  lemma UsersDead(t: Net, t2: Net, t3: Net, r: Net, f: nat)
    requires Deadens(t, t2) && Deadens(t2, t3) && Deadens(t3, r) && f != 0
    requires forall g: nat :: UserIn(t, Subject, g, f) ==> t2.flags[g].dead
    requires forall g: nat :: UserIn(t2, Verb, g, f) ==> t3.flags[g].dead
    requires forall g: nat :: UserIn(t3, Object, g, f) ==> r.flags[g].dead
    requires ClosedFrom(r, f + 1)
    ensures ClosedFrom(r, f)
  {
    DeadensTrans(t, t2, t3);
    DeadensTrans(t, t3, r);
    DeadensTrans(t2, t3, r);
    forall g: nat | Uses(r, g, f)
      ensures r.flags[g].dead
    {
      UsesKept(t, r, g, f);
      UsesKept(t2, r, g, f);
      UsesKept(t3, r, g, f);
      var role :| role in r.flags[g].refs && r.value[g].At(role) == f;
      assert t.value[g] == r.value[g] && t2.value[g] == r.value[g] && t3.value[g] == r.value[g];
      match role {
        case Subject => assert UserIn(t, Subject, g, f);
        case Verb => assert UserIn(t2, Verb, g, f);
        case Object => assert UserIn(t3, Object, g, f);
      }
    }
  }

  /** The law of KillFact. On a killable fact of a lawful arena whose dead facts have only dead
    * users, the facts dead afterwards are those dead before and exactly those that depend on
    * the fact; and dead facts still have only dead users. */
  lemma KillIsClosure(s: Net, f: nat, planning: bool, built: nat)
    requires Threaded(s) && s.Live(f) && f > built && ClosedFrom(s, 1)
    ensures ClosedFrom(KillFact(s, f, planning, built), 1) && KillsClosure(s, f, planning, built)
  {
    ThreadedIsWalkable(s, built);
    KillOfWalkable(s, f, planning, built);
  }

  /** After a kill of `f`, dead are those that were and exactly those that depend on it. */
  ghost predicate KillsClosure(s: Net, f: nat, planning: bool, built: nat)
    requires s.Shaped()
  {
    var r := KillFact(s, f, planning, built);
    forall g: nat :: 0 < g < |s.flags| ==> (r.flags[g].dead <==> s.flags[g].dead || Depends(s, g, f))
  }

  lemma KillOfWalkable(s: Net, f: nat, planning: bool, built: nat)
    requires Walkable(s, built) && s.Live(f) && f > built && ClosedFrom(s, 1)
    ensures ClosedFrom(KillFact(s, f, planning, built), 1) && KillsClosure(s, f, planning, built)
  {
    hide ListOk, LinksKept;
    KillCloses(s, f, planning, built);
    var r := KillFact(s, f, planning, built);
    ClosedBelow(s, r, f);
    forall g: nat | 0 < g < |s.flags| && Depends(s, g, f)
      ensures r.flags[g].dead
    {
      DependentsDie(s, r, g, f);
    }
  }

  lemma ClosedBelow(s: Net, r: Net, f: nat)
    requires Deadens(s, r) && ClosedFrom(s, 1) && ClosedFrom(r, f) && OnlyDependents(s, r, f) && f < |s.flags|
    ensures ClosedFrom(r, 1)
  {
    forall x: nat, u: nat | 1 <= x < |r.flags| && r.flags[x].dead && Uses(r, u, x)
      ensures r.flags[u].dead
    {
      if x < f {
        if !s.flags[x].dead { DependentsAreNewer(s, x, f); }
        UsesKept(s, r, u, x);
        assert s.flags[u].dead;
      }
    }
  }

  lemma {:induction false} DependentsDie(s: Net, r: Net, g: nat, f: nat)
    requires Deadens(s, r) && 0 < f && g < |s.flags| && Depends(s, g, f) && r.flags[f].dead && ClosedFrom(r, 1)
    ensures r.flags[g].dead
    decreases g
  {
    if g != f {
      var m: nat :| f <= m < g && Uses(s, g, m) && Depends(s, m, f);
      DependentsDie(s, r, m, f);
      UsesKept(s, r, g, m);
    }
  }
}
