/** The fact sets when a backtrack mark is restored. RestoreMark and RefreshMark free the facts made
  * since the mark, and then trim the dead facts from the ends of the sets; a freed row keeps its
  * flags, and it is these that the trimming looks at. */
module SetTrim {
  import opened Facts
  import opened FactLaws
  import opened FactKill
  import opened FactUndo
  import opened FactRuns

  /** How many facts of a set are left when the dead ones at its end are dropped. */
  function Kept(facts: seq<nat>, dead: nat -> bool): (n: nat)
    ensures n <= |facts| && (n > 0 ==> !dead(facts[n - 1])) && forall i :: n <= i < |facts| ==> dead(facts[i])
  {
    if facts == [] || !dead(facts[|facts| - 1]) then |facts| else Kept(facts[..|facts| - 1], dead)
  }

  /** The trimming of one set. One whose facts are all dead stays as it is. */
  function Trim(facts: seq<nat>, dead: nat -> bool): seq<nat> {
    if Kept(facts, dead) == 0 then facts else facts[..Kept(facts, dead)]
  }

  /** The loops over the sets and, backwards, over each. */
  method TrimSets(sets: array<seq<nat>>, dead: nat -> bool)
    modifies sets
    ensures forall k :: 0 <= k < sets.Length ==> sets[k] == Trim(old(sets[k]), dead)
  {
    var store := 0;
    while store < sets.Length
      invariant 0 <= store <= sets.Length
      invariant forall k :: 0 <= k < store ==> sets[k] == Trim(old(sets[k]), dead)
      invariant forall k :: store <= k < sets.Length ==> sets[k] == old(sets[k])
    {
      var facts := sets[store];
      var count: nat := |facts|;
      while count >= 1
        invariant count <= |facts| && Kept(facts[..count], dead) == Kept(facts, dead)
      {
        if !dead(facts[count - 1]) { break; }
        assert facts[..count][..count - 1] == facts[..count - 1];
        count := count - 1;
      }
      assert count == Kept(facts, dead);
      if count != 0 { sets[store] := facts[..count]; }
      store := store + 1;
    }
  }

  // ----- The flags of freed facts -------------------------------------------------------------

  /** A fact that died has a record of its death above it. */
  ghost predicate DeathRecorded(s: Net, i: nat)
    requires s.Rows()
  {
    i < |s.flags| && s.Indexed(i) && s.flags[i].dead ==> exists d :: i < d < |s.flags| && s.value[d] == Triple(0, i, 0)
  }

  lemma RecordStays(s: Net, r: Net, i: nat)
    requires s.Rows() && r.Rows() && |s.flags| <= |r.flags| && DeathRecorded(s, i) && i < |s.flags|
    requires forall k :: 0 <= k < |s.flags| ==> r.value[k] == s.value[k]
    requires r.flags[i].dead ==> s.flags[i].dead
    ensures DeathRecorded(r, i)
  {
  }

  lemma DieRecords(s: Net, f: nat, i: nat)
    requires s.Shaped() && s.Live(f) && (i < |s.flags| ==> DeathRecorded(s, i))
    ensures Die(s, f, true).Rows() && DeathRecorded(Die(s, f, true), i)
  {
    var r := Die(s, f, true);
    assert r.value[|s.flags|] == Triple(0, f, 0);
    if i < |s.flags| && i != f { RecordStays(s, r, i); }
  }

  lemma KillRecords(s: Net, f: nat, built: nat, i: nat)
    requires s.Shaped() && (i < |s.flags| ==> DeathRecorded(s, i))
    ensures DeathRecorded(KillFact(s, f, true, built), i)
    decreases LiveCount(s), 0, 0
  {
    hide DeathRecorded;
    if s.Live(f) && f > built {
      var s1 := Die(s, f, true);
      DieDeadens(s, f, true);
      DieShaped(s, f, true);
      DieRecords(s, f, i);
      KillListRecords(s1, Subject, s1.NondeadHead(Subject, FactNode(f)), built, i);
      var s2 := KillList(s1, Subject, s1.NondeadHead(Subject, FactNode(f)), true, built);
      DeadensLess(s1, s2);
      KillListRecords(s2, Verb, s2.NondeadHead(Verb, FactNode(f)), built, i);
      var s3 := KillList(s2, Verb, s2.NondeadHead(Verb, FactNode(f)), true, built);
      DeadensLess(s2, s3);
      KillListRecords(s3, Object, s3.NondeadHead(Object, FactNode(f)), built, i);
    } else if i >= |s.flags| {
      NoRow(s, i);
    }
  }

  lemma NoRow(s: Net, i: nat)
    requires s.Rows() && i >= |s.flags|
    ensures DeathRecorded(s, i)
  {
  }

  lemma KillListRecords(s: Net, role: Role, g: nat, built: nat, i: nat)
    requires s.Shaped() && (i < |s.flags| ==> DeathRecorded(s, i))
    ensures DeathRecorded(KillList(s, role, g, true, built), i)
    decreases LiveCount(s), 1, g
  {
    hide DeathRecorded;
    if g != 0 && g < |s.flags| {
      KillRecords(s, g, built, i);
      var s1 := KillFact(s, g, true, built);
      NextIsBelow(s, s1, role, g);
      KillListRecords(s1, role, s1.NondeadNext(role, g), built, i);
    } else if i >= |s.flags| {
      NoRow(s, i);
    }
  }

  /** Freeing the newest row: of the others it changes at most the one whose death it records. */
  lemma FreedFlags(s: Net, i: nat)
    requires s.Rows() && Freeable(s) && i < |s.flags| - 1
    ensures |FreeTop(s).flags| == |s.flags| - 1
    ensures FreeTop(s).flags[i] ==
            if s.value[|s.flags| - 1].subj == 0 && s.value[|s.flags| - 1].obj == 0 && s.value[|s.flags| - 1].verb == i
            then s.flags[i].(dead := false) else s.flags[i]
  {
  }

  /** Whatever died since the mark is alive again by the time it is freed: its death record is newer,
    * and goes first. */
  lemma {:induction false} FreedAlive(s: Net, i: nat)
    requires Lawful(s) && 0 < i < |s.flags| && s.Indexed(i) && DeathRecorded(s, i)
    ensures var r := FreeTo(s, i + 1); |r.flags| == i + 1 && !r.flags[i].dead
    decreases |s.flags|
  {
    hide Threaded, Recorded, Freeable, FreeTop;
    ThreadedShape(s);
    FreeToReaches(s, i + 1);
    var top := |s.flags| - 1;
    if i < top {
      FreeTopKeepsRecorded(s);
      FreeKeepsThreaded(s);
      FreedBody(s);
      FreedFlags(s, i);
      var r := FreeTop(s);
      assert DeathRecorded(r, i) by {
        if r.flags[i].dead {
          var d :| i < d < |s.flags| && s.value[d] == Triple(0, i, 0);
          assert d < top && r.value[d] == s.value[d];
        }
      }
      FreedAlive(r, i);
    }
  }

  // ----- Runs from a mark ---------------------------------------------------------------------

  /** The facts after a run of operations made while planning; one that is refused is skipped. */
  ghost function RunOps(s: Net, ops: seq<FactOp>, built: nat): (r: Net)
    requires Lawful(s)
    ensures Lawful(r)
    decreases |ops|
  {
    hide Apply, Recorded, Threaded;
    if ops == [] then s
    else
      ApplyIsLawful(s, ops[0], built);
      RunOps(Performed(s, ops[0], built), ops[1..], built)
  }

  function Performed(s: Net, op: FactOp, built: nat): Net
    requires s.Shaped()
  {
    var r := Apply(s, op, built);
    if r.Some? then r.value else s
  }

  lemma ApplyIsLawful(s: Net, op: FactOp, built: nat)
    requires Lawful(s)
    ensures s.Shaped() && Lawful(Performed(s, op, built))
  {
    hide Recorded;
    if Apply(s, op, built).Some? {
      ApplyKeepsThreaded(s, op, built);
      match op
      case Create(value, flags) => CreateKeepsRecorded(s, value, flags, true);
      case Kill(f) => KillKeepsRecorded(s, f, true, built);
    }
  }

  /** No operation asks for a fact that is dead from the start. */
  predicate AsksForLive(ops: seq<FactOp>) { forall k :: 0 <= k < |ops| && ops[k].Create? ==> !ops[k].flags.dead }

  lemma ApplyRecords(s: Net, op: FactOp, built: nat, i: nat)
    requires s.Shaped() && (op.Create? ==> !op.flags.dead) && (i < |s.flags| ==> DeathRecorded(s, i))
    ensures Performed(s, op, built).Rows() && DeathRecorded(Performed(s, op, built), i)
  {
    hide CreateFast, KillFact, Valid;
    match op
    case Kill(f) => KillRecords(s, f, built, i);
    case Create(value, flags) =>
      if Valid(s, value, flags.refs) {
        CreateEffect(s, value, flags, true);
        var r := Created(s, value, flags, true);
        if i < |s.flags| { RecordStays(s, r, i); }
      } else if i >= |s.flags| {
        NoRow(s, i);
      }
  }

  lemma {:induction false} RunRecords(s: Net, ops: seq<FactOp>, built: nat, i: nat)
    requires Lawful(s) && AsksForLive(ops) && (i < |s.flags| ==> s.Rows() && DeathRecorded(s, i))
    ensures RunOps(s, ops, built).Rows() && DeathRecorded(RunOps(s, ops, built), i)
    decreases |ops|
  {
    hide Apply, Threaded, Recorded, DeathRecorded, Performed;
    ThreadedShape(s);
    if ops == [] {
      if i >= |s.flags| { NoRow(s, i); }
    } else {
      ApplyIsLawful(s, ops[0], built);
      ApplyRecords(s, ops[0], built, i);
      RunRecords(Performed(s, ops[0], built), ops[1..], built, i);
    }
  }

  /** What the trimming takes for dead once the arena `s` is freed back to `until` rows: of a fact that
    * is gone, the flags its row is left with. */
  ghost function DeadAfter(s: Net, until: nat): nat -> bool {
    (i: nat) =>
      var r := FreeTo(s, if i < until then until else i + 1);
      i < |r.flags| && r.flags[i].dead
  }

  /** The trimming never drops a fact that was freed. After any run made while planning, restored to its
    * mark, a set names exactly the freed facts it named before: what is dropped is older than the
    * mark and dead. */
  lemma TrimKeepsFreed(a: Net, ops: seq<FactOp>, built: nat, facts: seq<nat>)
    requires Lawful(a) && AsksForLive(ops)
    requires var s := RunOps(a, ops, built); s.Rows() && forall i :: i in facts ==> 0 < i < |s.flags| && s.Indexed(i)
    ensures var s := RunOps(a, ops, built); var left := Trim(facts, DeadAfter(s, |a.flags|));
            && left <= facts
            && (forall i :: i in facts && i >= |a.flags| ==> i in left)
            && (forall k :: |left| <= k < |facts| ==> facts[k] < |a.flags| && DeadAfter(s, |a.flags|)(facts[k]))
  {
    hide RunOps, FreeTo, Threaded, Recorded, DeathRecorded;
    var s := RunOps(a, ops, built);
    var dead := DeadAfter(s, |a.flags|);
    forall i | i in facts && i >= |a.flags|
      ensures !dead(i)
    {
      RunRecords(a, ops, built, i);
      FreedAlive(s, i);
    }
    var n := Kept(facts, dead);
    forall k | n <= k < |facts|
      ensures facts[k] < |a.flags|
    {
      assert dead(facts[k]);
      assert facts[k] in facts;
    }
    forall i | i in facts && i >= |a.flags|
      ensures i in Trim(facts, dead)
    {
      var k :| 0 <= k < |facts| && facts[k] == i;
      assert k < n;
      assert facts[..n][k] == i;
    }
  }

  /** So after a restoration a set names freed facts if and only if it named facts made since the
    * mark. */
  lemma SetsDangleIff(a: Net, ops: seq<FactOp>, built: nat, facts: seq<nat>)
    requires Lawful(a) && AsksForLive(ops)
    requires var s := RunOps(a, ops, built); s.Rows() && forall i :: i in facts ==> 0 < i < |s.flags| && s.Indexed(i)
    ensures var left := Trim(facts, DeadAfter(RunOps(a, ops, built), |a.flags|));
            (exists i :: i in left && i >= |a.flags|) <==> (exists i :: i in facts && i >= |a.flags|)
  {
    hide RunOps, DeadAfter, Trim;
    TrimKeepsFreed(a, ops, built, facts);
    var left := Trim(facts, DeadAfter(RunOps(a, ops, built), |a.flags|));
    assert forall i :: i in left ==> i in facts;
  }
}
