/** Freeing the arena back to a mark undoes, exactly, every creation and every kill made while
  * planning since the mark. */
module FactUndo {
  import opened Threads
  import opened Facts
  import opened FactLaws
  import opened FactKill

  /** The loop "while (factFree > mark) FreeFact(factFree--)", the arena left with `n` rows.
    * It stops early only where FreeFact would follow a null pointer. */
  function FreeTo(s: Net, n: nat): (r: Net)
    ensures n <= |s.flags| ==> n <= |r.flags| <= |s.flags|
    decreases |s.flags|
  {
    if |s.flags| <= n || !Freeable(s) then s else FreeTo(FreeTop(s), n)
  }

  /** Freeing from `r` back to the size of `s` gives exactly `s`. */
  ghost predicate Undoes(s: Net, r: Net) { |s.flags| <= |r.flags| && FreeTo(r, |s.flags|) == s }

  lemma {:induction false} FreeToSplit(r: Net, n: nat, m: nat)
    requires n <= m
    ensures FreeTo(r, n) == FreeTo(FreeTo(r, m), n)
    decreases |r.flags|
  {
    if !(|r.flags| <= m || !Freeable(r)) { FreeToSplit(FreeTop(r), n, m); }
  }

  lemma UndoesTrans(s: Net, t: Net, r: Net)
    requires Undoes(s, t) && Undoes(t, r)
    ensures Undoes(s, r)
  {
    FreeToSplit(r, |s.flags|, |t.flags|);
  }

  lemma CreateIsUndone(s: Net, value: Triple, flags: Flags, planning: bool)
    requires s.Shaped() && Valid(s, value, flags.refs)
    ensures WordsExist(s, value, flags.refs)
    ensures Undoes(s, CreateFast(s, value, flags, planning).0)
  {
    FreeUndoesCreate(s, value, flags, planning);
    var r := CreateFast(s, value, flags, planning).0;
    assert FreeTo(r, |s.flags|) == FreeTo(FreeTop(r), |s.flags|);
  }

  lemma DieIsUndone(s: Net, f: nat)
    requires s.Shaped() && s.Live(f)
    ensures Undoes(s, Die(s, f, true))
  {
    FreeUndoesDeath(s, f);
    var r := Die(s, f, true);
    assert FreeTo(r, |s.flags|) == FreeTo(FreeTop(r), |s.flags|);
  }

  /** A kill made while planning, with all the deaths it brings, is undone by freeing the
    * records it left. */
  lemma KillIsUndone(s: Net, f: nat, built: nat)
    requires s.Shaped()
    ensures Undoes(s, KillFact(s, f, true, built))
    decreases LiveCount(s), 0, 0
  {
    if s.Live(f) && f > built {
      var s1 := Die(s, f, true);
      DieDeadens(s, f, true);
      DieIsUndone(s, f);
      KillListIsUndone(s1, Subject, s1.NondeadHead(Subject, FactNode(f)), built);
      var s2 := KillList(s1, Subject, s1.NondeadHead(Subject, FactNode(f)), true, built);
      UndoesTrans(s, s1, s2);
      DeadensLess(s1, s2);
      KillListIsUndone(s2, Verb, s2.NondeadHead(Verb, FactNode(f)), built);
      var s3 := KillList(s2, Verb, s2.NondeadHead(Verb, FactNode(f)), true, built);
      UndoesTrans(s, s2, s3);
      DeadensLess(s2, s3);
      KillListIsUndone(s3, Object, s3.NondeadHead(Object, FactNode(f)), built);
      UndoesTrans(s, s3, KillList(s3, Object, s3.NondeadHead(Object, FactNode(f)), true, built));
    }
  }

  lemma KillListIsUndone(s: Net, role: Role, g: nat, built: nat)
    requires s.Shaped()
    ensures Undoes(s, KillList(s, role, g, true, built))
    decreases LiveCount(s), 1, g
  {
    if g != 0 && g < |s.flags| {
      KillIsUndone(s, g, built);
      var s1 := KillFact(s, g, true, built);
      NextIsBelow(s, s1, role, g);
      KillListIsUndone(s1, role, s1.NondeadNext(role, g), built);
      UndoesTrans(s, s1, KillList(s1, role, s1.NondeadNext(role, g), true, built));
    }
  }

  /** An operation on the facts between a mark and its restoration. */
  datatype FactOp = Create(value: Triple, flags: Flags) | Kill(fact: nat)

  /** The arena after an operation made while planning; None when a field given to a new fact
    * names nothing or is a fact in object place. */
  function Apply(s: Net, op: FactOp, built: nat): (r: Option<Net>)
    requires s.Shaped()
    ensures r.Some? ==> r.value.Shaped()
  {
    match op
    case Create(value, flags) =>
      if Valid(s, value, flags.refs) then
        CreateEffect(s, value, flags, true);
        CreatedRows(s, value, flags, true);
        Some(CreateFast(s, value, flags, true).0)
      else None
    case Kill(f) => Some(KillFact(s, f, true, built))
  }

  lemma CreatedRows(s: Net, value: Triple, flags: Flags, planning: bool)
    requires s.Shaped() && Valid(s, value, flags.refs)
    ensures Created(s, value, flags, planning).Shaped()
  {
    assert forall role :: s.Has(Target(value, flags.refs, role));
  }

  lemma ApplyIsUndone(s: Net, op: FactOp, built: nat)
    requires s.Shaped() && Apply(s, op, built).Some?
    ensures Undoes(s, Apply(s, op, built).value)
  {
    match op
    case Create(value, flags) => CreateIsUndone(s, value, flags, true);
    case Kill(f) => KillIsUndone(s, f, built);
  }

  lemma ApplyKeepsThreaded(s: Net, op: FactOp, built: nat)
    requires Threaded(s) && Apply(s, op, built).Some?
    ensures Threaded(Apply(s, op, built).value)
  {
    match op
    case Create(value, flags) => CreateKeepsThreaded(s, value, flags, true);
    case Kill(f) => KillKeepsThreaded(s, f, true, built);
  }

  /** Freeing back keeps the chain law and every field of the facts that stay. */
  lemma {:induction false} FreeToKeepsThreaded(s: Net, n: nat)
    requires Threaded(s)
    ensures var r := FreeTo(s, n);
            && Threaded(r) && r.Rows() && |r.flags| <= |s.flags| && s.Rows()
            && forall i :: 0 <= i < |r.flags| ==> r.value[i] == s.value[i] && r.flags[i].refs == s.flags[i].refs
    decreases |s.flags|
  {
    hide Threaded, Freeable, FreeTop;
    ThreadedShape(s);
    if !(|s.flags| <= n || !Freeable(s)) {
      FreeKeepsThreaded(s);
      FreedBody(s);
      FreeToKeepsThreaded(FreeTop(s), n);
    }
  }

  /** Freeing back to a lock (ResetFactSystem, ClearUserFacts, the layers) leaves of each list
    * exactly the facts at or below the lock, in their order. */
  lemma FreeToKeepsLocked(s: Net, locked: nat, role: Role, node: Node)
    requires Threaded(s) && |FreeTo(s, locked + 1).flags| == locked + 1
    requires node in s.At(role).head && node in FreeTo(s, locked + 1).At(role).head
    ensures var r := FreeTo(s, locked + 1);
            var after := Chain(r.At(role).next, r.At(role).head[node]);
            var before := Chain(s.At(role).next, s.At(role).head[node]);
            && (forall i :: i in after <==> i in before && i <= locked)
            && (forall i, j :: 0 <= i < j < |after| ==> after[i] > after[j])
  {
    hide Threaded, FreeTo;
    FreeToKeepsThreaded(s, locked + 1);
    ListOfRole(s, role, node);
    ListOfRole(FreeTo(s, locked + 1), role, node);
  }

  lemma ListOfRole(s: Net, role: Role, node: Node)
    requires Threaded(s) && node in s.At(role).head
    ensures s.Rows()
    ensures var c := Chain(s.At(role).next, s.At(role).head[node]);
            && (forall i :: i in c <==> 0 <= i < |s.flags| && s.KeyAt(role, i) == Some(node))
            && (forall i, j :: 0 <= i < j < |c| ==> c[i] > c[j])
  {
    hide Exact;
    var v := s.View(role);
    assert Exact(v);
    ListIsExact(v, node);
  }
}
