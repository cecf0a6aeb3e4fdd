/** Where the arena law fails in the code as it stands, and exactly when. */
module FactDefects {
  import opened Threads
  import opened Facts
  import opened FactLaws
  import opened FactKill
  import opened FactClosure

  // ----- A fact as object ------------------------------------------------------------

  /** The law of the arena without the demand that objects be words. */
  ghost predicate ThreadedAnyObject(s: Net) {
    s.Shaped() && RefsAreOlder(s) && forall role :: Exact(s.View(role))
  }

  /** Fields that name existing words and facts, the object a fact. */
  ghost predicate ObjectIsFact(s: Net, value: Triple, refs: set<Role>) {
    && Object in refs
    && forall role :: value.At(role) != 0 && s.Has(Target(value, refs, role))
  }

  /** Creating such a fact: the object link is the object next of the fact named. */
  function CreatedOnFact(s: Net, value: Triple, flags: Flags, planning: bool): Net
    requires s.Rows() && value.obj < |s.flags|
  {
    var n := |s.flags|;
    Net(s.flags + [flags.(transient := flags.transient || planning)], s.value + [value],
        Threaded1(s.subj, n, Target(value, flags.refs, Subject)),
        Threaded1(s.verb, n, Target(value, flags.refs, Verb)),
        Links(s.obj.next + [s.obj.next[value.obj]], s.obj.head[FactNode(n) := 0][FactNode(value.obj) := n]))
  }

  lemma CreateOnFactEffect(s: Net, value: Triple, flags: Flags, planning: bool)
    requires s.Shaped() && ObjectIsFact(s, value, flags.refs)
    ensures WordsExist(s, value, flags.refs) && 0 < value.obj < |s.flags|
    ensures CreateFast(s, value, flags, planning) == (CreatedOnFact(s, value, flags, planning), |s.flags|)
  {
    hide Link;
    assert s.Has(Target(value, flags.refs, Object));
    var n := |s.flags|;
    var s0 := Alloc(s, value, flags);
    assert forall role :: role in flags.refs ==> Target(value, flags.refs, role) == FactNode(value.At(role));
    LinkEffect(s0, Subject, s.subj);
    var s1 := Link(s0, Subject).value;
    LinkEffect(s1, Verb, s.verb);
    var s2 := Link(s1, Verb).value;
    LinkOnFact(s2, s.obj, value.obj);
    assert (s.flags + [flags])[n := flags.(transient := true)] == s.flags + [flags.(transient := true)];
  }

  lemma LinkOnFact(s: Net, links: Links, k: nat)
    requires s.Rows() && |s.flags| > 1
    requires var n := |s.flags| - 1;
             && Object in s.flags[n].refs && s.value[n].obj == k && 0 < k < n == |links.next|
             && s.obj == Links(links.next + [0], links.head[FactNode(n) := 0])
    ensures var n := |s.flags| - 1;
            Link(s, Object) == Some(s.With(Object, Links(links.next + [links.next[k]],
                                                         links.head[FactNode(n) := 0][FactNode(k) := n])))
  {
    var n := |s.flags| - 1;
    assert (links.next + [0])[n := links.next[k]] == links.next + [links.next[k]];
  }

  /** The object lists after such a creation are lawful exactly when the fact named as object
    * had no fact-object users yet and was last on its own object list: when the head that
    * should have been followed and the next that was followed are both null. */
  lemma FactObjectIsThreadedIff(s: Net, value: Triple, flags: Flags, planning: bool)
    requires ThreadedAnyObject(s) && ObjectIsFact(s, value, flags.refs)
    ensures WordsExist(s, value, flags.refs) && value.obj < |s.flags|
    ensures Exact(CreateFast(s, value, flags, planning).0.View(Object)) <==>
            s.obj.Head(FactNode(value.obj)) == 0 && s.obj.next[value.obj] == 0
  {
    CreateOnFactEffect(s, value, flags, planning);
    hide CreateFast, Link;
    var node := FactNode(|s.flags|);
    var k := value.obj;
    assert Exact(s.View(Object));
    assert s.Has(Target(value, flags.refs, Object));
    NewKeyKeepsExact(s.View(Object), node);
    HeadIsNewer(s, k);
    OnFactView(s, value, flags, planning);
    PushedElsewhere(NewKey(s.View(Object), node), FactNode(k), s.obj.next[k]);
  }

  lemma OnFactView(s: Net, value: Triple, flags: Flags, planning: bool)
    requires s.Shaped() && value.subj != 0 && Object in flags.refs && value.obj < |s.flags|
    ensures var n := |s.flags|; var v := NewKey(s.View(Object), FactNode(n)); var k := FactNode(value.obj);
            CreatedOnFact(s, value, flags, planning).View(Object) ==
            Lists(v.key + [Some(k)], v.next + [s.obj.next[value.obj]], v.head[k := n])
  {
    var r := CreatedOnFact(s, value, flags, planning).View(Object);
    assert r.key == s.View(Object).key + [Some(FactNode(value.obj))];
  }

  /** The facts that use `k` are newer, and the fact after `k` on a list is older. */
  lemma HeadIsNewer(s: Net, k: nat)
    requires s.Shaped() && RefsAreOlder(s) && Exact(s.View(Object)) && 0 < k < |s.flags|
    ensures s.obj.Head(FactNode(k)) == 0 || s.obj.Head(FactNode(k)) > k
    ensures s.obj.next[k] < k
  {
    var v := s.View(Object);
    var h := s.obj.Head(FactNode(k));
    assert FactNode(k) in v.head;
    assert ExactAt(v, FactNode(k));
    ListIsExact(v, FactNode(k));
    if h != 0 {
      assert h in Chain(v.next, h);
      assert v.key[h] == Some(FactNode(k)) && s.Indexed(h);
    }
  }

  /** Pushing a row whose link is not the old head breaks its list. */
  lemma PushedElsewhere<K>(t: Lists<K>, k: K, follow: nat)
    requires Exact(t) && k in t.head && follow < |t.key|
    ensures Exact(Lists(t.key + [Some(k)], t.next + [follow], t.head[k := |t.key|])) <==> follow == t.head[k]
  {
    assert ExactAt(t, k);
    PushedExactAt(t, k, follow);
    hide ExactAt;
    if follow == t.head[k] {
      PushKeepsExact(t, k);
      assert Lists(t.key + [Some(k)], t.next + [follow], t.head[k := |t.key|]) == Push(t, k);
    }
  }

  lemma PushedExactAt<K>(t: Lists<K>, k: K, follow: nat)
    requires |t.key| == |t.next| > 0 && k in t.head && ExactAt(t, k) && follow < |t.key|
    ensures ExactAt(Lists(t.key + [Some(k)], t.next + [follow], t.head[k := |t.key|]), k) <==> follow == t.head[k]
  {
    var n := |t.key|;
    var key, next := t.key + [Some(k)], t.next + [follow];
    ListingFrame(t.key, key, k, n);
    ChainGrows(t.next, [follow], follow);
    assert Chain(next, n) == [n] + Chain(t.next, follow) by { assert next[n] == follow; }
    assert Listing(key, k, n + 1) == [n] + Listing(key, k, n) by { assert key[n] == Some(k); }
    SameChain(t.next, follow, t.head[k]);
    hide Chain, Listing;
    SameTail(n, Chain(t.next, follow), Chain(t.next, t.head[k]));
  }

  lemma SameTail(n: nat, a: seq<nat>, b: seq<nat>)
    ensures [n] + a == [n] + b <==> a == b
  {
    assert ([n] + a)[1..] == a && ([n] + b)[1..] == b;
  }

  /** Freeing such a fact restores the arena under the same condition only. */
  lemma FactObjectIsUndoneIff(s: Net, value: Triple, flags: Flags, planning: bool)
    requires ThreadedAnyObject(s) && ObjectIsFact(s, value, flags.refs)
    ensures WordsExist(s, value, flags.refs) && value.obj < |s.flags|
    ensures var r := CreateFast(s, value, flags, planning).0;
            Freeable(r) && (FreeTop(r) == s <==> s.obj.Head(FactNode(value.obj)) == 0 && s.obj.next[value.obj] == 0)
  {
    CreateOnFactEffect(s, value, flags, planning);
    FactObjectIsFreeable(s, value, flags, planning);
    hide CreateFast, Link;
    assert Exact(s.View(Object));
    assert s.Has(Target(value, flags.refs, Object));
    HeadIsNewer(s, value.obj);
    FreedOnFact(s, value, flags, planning);
    hide FreeTop, CreatedOnFact;
    MapEdit(s.obj.head, FactNode(value.obj), s.obj.next[value.obj]);
  }

  lemma MapEdit<K, V>(m: map<K, V>, k: K, v: V)
    requires k in m
    ensures m[k := v] == m <==> m[k] == v
  {
  }

  /** What is left after the fact is freed: all but one head is as before. */
  lemma FreedOnFact(s: Net, value: Triple, flags: Flags, planning: bool)
    requires s.Shaped() && ObjectIsFact(s, value, flags.refs) && value.obj < |s.flags|
    requires Freeable(CreatedOnFact(s, value, flags, planning))
    ensures FreeTop(CreatedOnFact(s, value, flags, planning))
         == s.(obj := Links(s.obj.next, s.obj.head[FactNode(value.obj) := s.obj.next[value.obj]]))
  {
    var n := |s.flags|;
    var r := CreatedOnFact(s, value, flags, planning);
    assert r.flags[..n] == s.flags && r.value[..n] == s.value;
    assert value.At(Subject) != 0;
    assert s.Has(Target(value, flags.refs, Subject)) && s.Has(Target(value, flags.refs, Verb));
    UndoLinks(s.subj, n, Target(value, flags.refs, Subject));
    UndoLinks(s.verb, n, Target(value, flags.refs, Verb));
    assert s.Has(Target(value, flags.refs, Object));
    UndoOnFact(s.obj, n, FactNode(value.obj), s.obj.next[value.obj]);
  }

  lemma UndoOnFact(links: Links, n: nat, node: Node, follow: nat)
    requires |links.next| == n && FactNode(n) !in links.head && node in links.head
    ensures var t := Links(links.next + [follow], links.head[FactNode(n) := 0][node := n]);
            && t.next[..n] == links.next
            && (t.head - {FactNode(n)})[node := t.next[n]] == links.head[node := follow]
  {
  }

  lemma FactObjectIsFreeable(s: Net, value: Triple, flags: Flags, planning: bool)
    requires s.Shaped() && ObjectIsFact(s, value, flags.refs) && value.obj < |s.flags|
    ensures Freeable(CreatedOnFact(s, value, flags, planning))
  {
    var n := |s.flags|;
    var r := CreatedOnFact(s, value, flags, planning);
    assert value.At(Subject) != 0;
    forall role
      ensures var node := Target(r.value[n], r.flags[n].refs, role); node != FactNode(n) && r.Has(node)
    {
      assert s.Has(Target(value, flags.refs, role));
    }
  }

  // ----- A field that names no fact ----------------------------------------------------

  /** The field is missing, or claims to be a fact beyond the one being made. */
  predicate Bad(s: Net, value: Triple, refs: set<Role>, role: Role) {
    value.At(role) == 0 || (role in refs && value.At(role) > |s.flags|)
  }

  /** The field names the fact being made itself. */
  predicate Self(s: Net, value: Triple, refs: set<Role>, role: Role) {
    role in refs && value.At(role) == |s.flags|
  }

  lemma BadHasNoLink(s: Net, role: Role)
    requires s.Rows() && var n := |s.flags| - 1; s.value[n].At(role) == 0 || (role in s.flags[n].refs && s.value[n].At(role) > n)
    ensures Link(s, role) == None
  {
  }

  lemma DropUndoesAlloc(s: Net, value: Triple, flags: Flags)
    requires s.Shaped()
    ensures Drop(Alloc(s, value, flags)) == s
  {
    var n := |s.flags|;
    var r := Alloc(s, value, flags);
    assert r.flags[..n] == s.flags && r.value[..n] == s.value;
    assert r.subj.next[..n] == s.subj.next && r.verb.next[..n] == s.verb.next && r.obj.next[..n] == s.obj.next;
    assert r.subj.head - {FactNode(n)} == s.subj.head;
    assert r.verb.head - {FactNode(n)} == s.verb.head;
    assert r.obj.head - {FactNode(n)} == s.obj.head;
  }

  /** What linking a fact `n` that is then given back leaves of a column: a head in freed space, unless
    * the head was that of the fact itself. */
  function LeftBy(links: Links, n: nat, node: Node): Links {
    Links(links.next, if node == FactNode(n) then links.head else links.head[node := n])
  }

  lemma LinkedColumn(s: Net, role: Role, links: Links)
    requires s.Rows() && role != Object
    requires var n := |s.flags| - 1;
             && |links.next| == n && FactNode(n) !in links.head
             && s.At(role) == Links(links.next + [0], links.head[FactNode(n) := 0])
             && s.value[n].At(role) != 0 && (role in s.flags[n].refs ==> s.value[n].At(role) <= n)
    ensures Link(s, role).Some?
    ensures var n := |s.flags| - 1; var l := Link(s, role).value.At(role);
            && Link(s, role).value == s.With(role, l) && |l.next| == n + 1
            && Links(l.next[..n], l.head - {FactNode(n)}) == LeftBy(links, n, Target(s.value[n], s.flags[n].refs, role))
  {
    var n := |s.flags| - 1;
    var l := Link(s, role).value.At(role);
    assert l.next[..n] == links.next;
  }

  /** The arena after a creation is refused. */
  lemma RefusedEffect(s: Net, value: Triple, flags: Flags, planning: bool)
    requires s.Shaped() && WordsExist(s, value, flags.refs)
    requires exists role :: Bad(s, value, flags.refs, role)
    ensures var n := |s.flags|; var bad0, bad1 := Bad(s, value, flags.refs, Subject), Bad(s, value, flags.refs, Verb);
            CreateFast(s, value, flags, planning) ==
            (s.(subj := if bad0 then s.subj else LeftBy(s.subj, n, Target(value, flags.refs, Subject)),
                verb := if bad0 || bad1 then s.verb else LeftBy(s.verb, n, Target(value, flags.refs, Verb))),
             0)
  {
    hide Link, LeftBy;
    var s0 := Alloc(s, value, flags);
    DropUndoesAlloc(s, value, flags);
    if Bad(s, value, flags.refs, Subject) {
      BadHasNoLink(s0, Subject);
    } else {
      LinkedColumn(s0, Subject, s.subj);
      var l := Link(s0, Subject).value.subj;
      DropLinked(s, value, flags, l, s0.verb);
      if Bad(s, value, flags.refs, Verb) {
        BadHasNoLink(s0.With(Subject, l), Verb);
      } else {
        var s1 := s0.With(Subject, l);
        LinkedColumn(s1, Verb, s.verb);
        DropLinked(s, value, flags, l, Link(s1, Verb).value.verb);
        BadHasNoLink(Link(s1, Verb).value, Object);
      }
    }
  }

  /** Giving back a fact linked by subject and verb. */
  lemma DropLinked(s: Net, value: Triple, flags: Flags, subj: Links, verb: Links)
    requires s.Shaped() && |subj.next| == |verb.next| == |s.flags| + 1
    ensures var n := |s.flags|; var r := Alloc(s, value, flags).(subj := subj, verb := verb);
            Drop(r) == s.(subj := Links(subj.next[..n], subj.head - {FactNode(n)}), verb := Links(verb.next[..n], verb.head - {FactNode(n)}))
  {
    var n := |s.flags|;
    var r := Alloc(s, value, flags).(subj := subj, verb := verb);
    assert r.flags[..n] == s.flags && r.value[..n] == s.value;
    assert r.obj.next[..n] == s.obj.next && r.obj.head - {FactNode(n)} == s.obj.head;
  }

  /** A creation refused for a bad field leaves the arena as it was, and lawful, exactly when the
    * bad field is the subject, or no field linked before the bad one names another than the new fact
    * itself. Otherwise the list of a field linked before is left with its head in freed space. */
  lemma RefusedCreateIsCleanIff(s: Net, value: Triple, flags: Flags, planning: bool)
    requires Threaded(s) && WordsExist(s, value, flags.refs)
    requires exists role :: Bad(s, value, flags.refs, role)
    ensures var (r, id) := CreateFast(s, value, flags, planning);
            var bad := role => Bad(s, value, flags.refs, role); var self := role => Self(s, value, flags.refs, role);
            var clean := bad(Subject) || (self(Subject) && (bad(Verb) || self(Verb)));
            && id == 0
            && (r == s <==> clean) && (Threaded(r) <==> clean)
            && (!bad(Subject) && !self(Subject) ==> r.subj.Head(Target(value, flags.refs, Subject)) == |s.flags| == |r.flags|)
            && (!bad(Subject) && !bad(Verb) && !self(Verb) ==> r.verb.Head(Target(value, flags.refs, Verb)) == |s.flags| == |r.flags|)
  {
    hide Threaded, CreateFast;
    ThreadedShape(s);
    RefusedEffect(s, value, flags, planning);
    HeadsAreInUse(s);
    var r := CreateFast(s, value, flags, planning).0;
    var node0, node1 := Target(value, flags.refs, Subject), Target(value, flags.refs, Verb);
    assert s.At(Subject).Head(node0) < |s.flags| && s.At(Verb).Head(node1) < |s.flags|;
    DanglingIsUnlawful(r, Subject, node0);
    DanglingIsUnlawful(r, Verb, node1);
  }

  lemma DanglingIsUnlawful(r: Net, role: Role, node: Node)
    ensures r.At(role).Head(node) == |r.flags| ==> !Threaded(r)
  {
    hide Threaded;
    if Threaded(r) { HeadsAreInUse(r); }
  }

  // ----- Killing the object of a fact -------------------------------------------------

  ghost predicate AllKilled(r: Net, list: seq<nat>, built: nat) {
    forall i :: i in list && built < i < |r.flags| ==> r.flags[i].dead
  }

  /** The loop of KillFact leaves no killable fact of its list alive. */
  lemma {:induction false} KillListKills(s: Net, role: Role, h: nat, planning: bool, built: nat)
    requires s.Shaped() && h < |s.flags|
    ensures AllKilled(KillList(s, role, s.FirstLive(role, h), planning, built), Chain(s.At(role).next, h), built)
    decreases h
  {
    var g := s.FirstLive(role, h);
    var next := s.At(role).next;
    FirstLiveIsNext(s, role, h);
    ChainIsBelow(next, h);
    if g != 0 {
      var s1 := KillFact(s, g, planning, built);
      NextIsBelow(s, s1, role, g);
      var n := next[g];
      if n < g { KillListKills(s1, role, n, planning, built); }
      KillListStep(s, role, g, planning, built);
      var r := KillList(s, role, g, planning, built);
      hide KillList, KillFact, Chain;
      forall i | i in Chain(next, h) && built < i < |r.flags|
        ensures r.flags[i].dead
      {
        if s.Live(i) { assert i in Chain(next, g); }
      }
    }
  }

  /** One turn of the loop, given that the turns after it do their part. */
  lemma KillListStep(s: Net, role: Role, g: nat, planning: bool, built: nat)
    requires s.Shaped() && s.Live(g)
    requires var s1 := KillFact(s, g, planning, built); var n := s.At(role).next[g];
             n < g ==> AllKilled(KillList(s1, role, s1.FirstLive(role, n), planning, built), Chain(s1.At(role).next, n), built)
    ensures var r := KillList(s, role, g, planning, built);
            && AllKilled(r, Chain(s.At(role).next, g), built)
            && |s.flags| <= |r.flags|
            && forall i :: 0 <= i < |s.flags| && s.flags[i].dead ==> r.flags[i].dead
  {
    hide KillFact;
    var next := s.At(role).next;
    var s1 := KillFact(s, g, planning, built);
    NextIsBelow(s, s1, role, g);
    if g > built { VictimIsDead(s, g, planning, built); }
    var n := next[g];
    assert s.At(role).next <= s1.At(role).next;
    var r := KillList(s1, role, s1.NondeadNext(role, g), planning, built);
    assert r == KillList(s, role, g, planning, built);
    hide KillList;
    GoneAfter(s, s1, r, g, built);
    if n < g { SameLinksBelow(next, s1.At(role).next, n); }
    KilledCons(r, g, if n < g then Chain(next, n) else [], built);
  }

  lemma KilledCons(r: Net, g: nat, rest: seq<nat>, built: nat)
    requires AllKilled(r, rest, built) && (built < g < |r.flags| ==> r.flags[g].dead)
    ensures AllKilled(r, [g] + rest, built)
  {
  }

  lemma DieIsDeath(s: Net, f: nat, planning: bool)
    requires f < |s.flags|
    ensures |s.flags| <= |Die(s, f, planning).flags| && Die(s, f, planning).flags[f].dead
  {
  }

  lemma VictimIsDead(s: Net, f: nat, planning: bool, built: nat)
    requires s.Shaped() && s.Live(f) && f > built
    ensures KillFact(s, f, planning, built).flags[f].dead
  {
    hide KillList, Die;
    var node := FactNode(f);
    var s1 := Die(s, f, planning);
    DieDeadens(s, f, planning);
    DieShaped(s, f, planning);
    assert s1.flags[f].dead by { DieIsDeath(s, f, planning); }
    var s2 := KillList(s1, Subject, s1.NondeadHead(Subject, node), planning, built);
    var s3 := KillList(s2, Verb, s2.NondeadHead(Verb, node), planning, built);
    DeadStays(s1, s2, f);
    DeadStays(s2, s3, f);
    DeadStays(s3, KillFact(s, f, planning, built), f);
  }

  lemma DeadStays(s: Net, r: Net, f: nat)
    requires Deadens(s, r) && f < |s.flags| && s.flags[f].dead
    ensures r.flags[f].dead
  {
  }

  lemma GoneAfter(s: Net, s1: Net, r: Net, g: nat, built: nat)
    requires s.Shaped() && s.Live(g) && Deadens(s, s1) && Deadens(s1, r)
    requires g > built ==> s1.flags[g].dead
    ensures g > built ==> r.flags[g].dead
    ensures forall i :: 0 <= i < |s.flags| && s.flags[i].dead ==> r.flags[i].dead
  {
    if g > built { DeadStays(s1, r, g); }
    forall i | 0 <= i < |s.flags| && s.flags[i].dead
      ensures r.flags[i].dead
    {
      DeadStays(s, s1, i);
      DeadStays(s1, r, i);
    }
  }

  lemma SameLinksBelow(a: seq<nat>, b: seq<nat>, h: nat)
    requires a <= b && h < |a|
    ensures Chain(a, h) == Chain(b, h)
  {
    ChainIsBelow(a, h);
    ChainFrame(a, b, h);
  }

  lemma NextIsOlder(s: Net, k: nat)
    requires Threaded(s) && 0 < k < |s.flags|
    ensures k < |s.obj.next| && s.obj.next[k] < k
  {
    assert Exact(s.View(Object));
  }

  lemma OlderIsFree(s: Net, i: nat, k: nat)
    requires i < k
    ensures !Depends(s, i, k)
  {
  }

  /** Once some fact has the killable fact `k` as its object, killing `k` also kills every
    * killable fact older than `k` on the list of the object of `k`: facts that share a word
    * with `k` and do not depend on it. */
  lemma FactObjectSpreadsDeath(s: Net, value: Triple, flags: Flags, planning: bool, built: nat)
    requires Threaded(s) && ObjectIsFact(s, value, flags.refs)
    requires value.obj < |s.flags| && s.Live(value.obj) && value.obj > built
    ensures WordsExist(s, value, flags.refs)
    ensures var k := value.obj; var r := CreateFast(s, value, flags, planning).0;
            && r.Shaped()
            && forall i :: i in Chain(s.obj.next, s.obj.next[k]) && i > built ==>
                 && i < k && !Depends(s, i, k)
                 && KillFact(r, k, planning, built).flags[i].dead
  {
    hide CreateFast, CreatedOnFact, Threaded, ObjectIsFact, WordsExist, KillFact, Depends, Chain;
    var k := value.obj;
    ThreadedShape(s);
    CreateOnFactEffect(s, value, flags, planning);
    var r := CreatedOnFact(s, value, flags, planning);
    OnFactShaped(s, value, flags, planning);
    NextIsOlder(s, k);
    OnFactList(s, value, flags, planning);
    KillReachesObjectList(r, k, planning, built);
    ChainIsBelow(s.obj.next, s.obj.next[k]);
    forall i | i in Chain(s.obj.next, s.obj.next[k]) && i > built
      ensures i < k && !Depends(s, i, k) && i < |KillFact(r, k, planning, built).flags| && KillFact(r, k, planning, built).flags[i].dead
    {
      OlderIsFree(s, i, k);
    }
  }

  /** The kill is clean, it makes dead exactly the facts that depend on `k`, if and only if no live
    * killable fact stands after `k` on the list of its object. */
  lemma FactObjectKillIsCleanIff(s: Net, value: Triple, flags: Flags, planning: bool, built: nat)
    requires Threaded(s) && ObjectIsFact(s, value, flags.refs)
    requires value.obj < |s.flags| && s.Live(value.obj) && value.obj > built
    requires ClosedFrom(CreatedOnFact(s, value, flags, planning), 1)
    ensures WordsExist(s, value, flags.refs)
    ensures var k := value.obj; var r := CreateFast(s, value, flags, planning).0;
            && r.Shaped()
            && (KillsClosure(r, k, planning, built)
                <==> forall i :: i in Chain(s.obj.next, s.obj.next[k]) && i > built ==> !s.Live(i))
  {
    hide KillsClosure, CreateFast, CreatedOnFact, Walkable, ClosedFrom, KillFact, Chain, Threaded, ObjectIsFact, WordsExist;
    var k := value.obj;
    ThreadedShape(s);
    CreateOnFactEffect(s, value, flags, planning);
    var r := CreatedOnFact(s, value, flags, planning);
    OnFactShaped(s, value, flags, planning);
    FactObjectSpreadsDeath(s, value, flags, planning, built);
    if forall i :: i in Chain(s.obj.next, s.obj.next[k]) && i > built ==> !s.Live(i) {
      OnFactIsWalkable(s, value, flags, planning, built);
      OnFactLives(s, value, flags, planning, k);
      KillOfWalkable(r, k, planning, built);
    } else {
      var i :| i in Chain(s.obj.next, s.obj.next[k]) && i > built && s.Live(i);
      OnFactLives(s, value, flags, planning, i);
      NotClosure(r, k, i, planning, built);
    }
  }

  lemma NotClosure(r: Net, k: nat, i: nat, planning: bool, built: nat)
    requires r.Shaped() && r.Live(i) && i < k && KillFact(r, k, planning, built).flags[i].dead
    ensures !KillsClosure(r, k, planning, built)
  {
    OlderIsFree(r, i, k);
  }

  lemma OnFactLives(s: Net, value: Triple, flags: Flags, planning: bool, i: nat)
    requires s.Rows() && value.obj < |s.flags| && s.Live(i)
    ensures CreatedOnFact(s, value, flags, planning).Live(i)
  {
  }

  /** Where only facts that cannot die stand after `k`, its list will do for a kill. */
  lemma OnFactIsWalkable(s: Net, value: Triple, flags: Flags, planning: bool, built: nat)
    requires Threaded(s) && ObjectIsFact(s, value, flags.refs) && value.obj < |s.flags| && s.Live(value.obj)
    requires forall i :: i in Chain(s.obj.next, s.obj.next[value.obj]) && i > built ==> !s.Live(i)
    ensures Walkable(CreatedOnFact(s, value, flags, planning), built)
  {
    var r := CreatedOnFact(s, value, flags, planning);
    OnFactShaped(s, value, flags, planning);
    OnFactRefs(s, value, flags, planning);
    hide CreatedOnFact, ListOk;
    forall role, f | r.Live(f)
      ensures ListOk(r, role, f, built)
    {
      if role != Object {
        OnFactExact(s, value, flags, planning, role);
        ExactListIsOk(r, role, f, built);
      } else if f == value.obj {
        OnFactListIsOk(s, value, flags, planning, built);
      } else {
        OtherListIsOk(s, value, flags, planning, f, built);
      }
    }
  }

  lemma OnFactRefs(s: Net, value: Triple, flags: Flags, planning: bool)
    requires Threaded(s) && ObjectIsFact(s, value, flags.refs) && value.obj < |s.flags|
    ensures RefsAreOlder(CreatedOnFact(s, value, flags, planning))
  {
    var r := CreatedOnFact(s, value, flags, planning);
    var n := |s.flags|;
    forall i, role | 0 < i <= n && r.Indexed(i) && role in r.flags[i].refs
      ensures r.value[i].At(role) < i
    {
      if i < n {
        assert s.Indexed(i) && s.flags[i] == r.flags[i];
      } else {
        assert s.Has(Target(value, flags.refs, role));
      }
    }
  }

  /** The lists of subjects and verbs are as after any other creation. */
  lemma OnFactExact(s: Net, value: Triple, flags: Flags, planning: bool, role: Role)
    requires Threaded(s) && ObjectIsFact(s, value, flags.refs) && value.obj < |s.flags| && role != Object
    ensures Exact(CreatedOnFact(s, value, flags, planning).View(role))
  {
    var r := CreatedOnFact(s, value, flags, planning).View(role);
    var node, n := Target(value, flags.refs, role), FactNode(|s.flags|);
    assert value.At(Subject) != 0 && s.Has(node);
    assert r.key == s.View(role).key + [Some(node)];
    assert r == Push(NewKey(s.View(role), n), node);
    NewKeyKeepsExact(s.View(role), n);
    PushKeepsExact(NewKey(s.View(role), n), node);
  }

  /** The new fact is the one user by object there is. */
  lemma ObjectUser(s: Net, value: Triple, flags: Flags, planning: bool, g: nat, f: nat)
    requires Threaded(s) && ObjectIsFact(s, value, flags.refs) && value.obj < |s.flags|
    ensures UserIn(CreatedOnFact(s, value, flags, planning), Object, g, f) <==> g == |s.flags| && f == value.obj
  {
    var r := CreatedOnFact(s, value, flags, planning);
    assert value.At(Subject) != 0;
    if g < |s.flags| {
      assert r.value[g] == s.value[g] && r.flags[g] == s.flags[g];
      assert g != 0 && s.Indexed(g) ==> Object !in s.flags[g].refs;
    }
  }

  lemma OnFactListIsOk(s: Net, value: Triple, flags: Flags, planning: bool, built: nat)
    requires Threaded(s) && ObjectIsFact(s, value, flags.refs) && value.obj < |s.flags| && s.Live(value.obj)
    requires forall i :: i in Chain(s.obj.next, s.obj.next[value.obj]) && i > built ==> !s.Live(i)
    ensures CreatedOnFact(s, value, flags, planning).Rows()
    ensures ListOk(CreatedOnFact(s, value, flags, planning), Object, value.obj, built)
  {
    var k, n := value.obj, |s.flags|;
    var r := CreatedOnFact(s, value, flags, planning);
    assert Exact(s.View(Object)) && s.obj.next[k] < k;
    OnFactList(s, value, flags, planning);
    var rest := Chain(s.obj.next, s.obj.next[k]);
    ChainIsBelow(s.obj.next, s.obj.next[k]);
    forall g: nat ensures UserIn(r, Object, g, k) <==> g == n { ObjectUser(s, value, flags, planning, g, k); }
    forall i | i in Chain(r.obj.next, n)
      ensures i < |r.obj.next| && r.obj.next[i] < i && (i == n || r.flags[i].dead || i <= built)
    {
      if i in rest { assert r.obj.next[i] == s.obj.next[i] && r.flags[i] == s.flags[i]; }
    }
    assert n in Chain(r.obj.next, n);
  }

  lemma OtherListIsOk(s: Net, value: Triple, flags: Flags, planning: bool, f: nat, built: nat)
    requires Threaded(s) && ObjectIsFact(s, value, flags.refs) && value.obj < |s.flags| && f != value.obj && 0 < f <= |s.flags|
    ensures CreatedOnFact(s, value, flags, planning).Rows()
    ensures ListOk(CreatedOnFact(s, value, flags, planning), Object, f, built)
  {
    var r := CreatedOnFact(s, value, flags, planning);
    if f < |s.flags| { NoObjectUsers(s, f); }
    forall g: nat ensures !UserIn(r, Object, g, f) { ObjectUser(s, value, flags, planning, g, f); }
    assert r.obj.Head(FactNode(f)) == 0;
  }

  lemma NoObjectUsers(s: Net, f: nat)
    requires Threaded(s) && 0 < f < |s.flags|
    ensures s.obj.Head(FactNode(f)) == 0
  {
    var v := s.View(Object);
    var h := s.obj.Head(FactNode(f));
    assert Exact(v) && FactNode(f) in v.head && ExactAt(v, FactNode(f));
    ListIsExact(v, FactNode(f));
    if h != 0 {
      assert h in Chain(v.next, h);
      assert v.key[h] == Some(FactNode(f)) && s.Indexed(h);
    }
  }

  /** The object list that fact `k` now heads runs on into the list of the object of `k`. */
  lemma OnFactList(s: Net, value: Triple, flags: Flags, planning: bool)
    requires s.Shaped() && ObjectIsFact(s, value, flags.refs)
    requires value.obj < |s.flags| && s.Live(value.obj) && s.obj.next[value.obj] < value.obj
    ensures var k := value.obj; var r := CreatedOnFact(s, value, flags, planning);
            && r.Live(k) && r.Rows() && r.obj.Head(FactNode(k)) == |s.flags| < |r.flags|
            && Chain(r.obj.next, |s.flags|) == [|s.flags|] + Chain(s.obj.next, s.obj.next[k])
  {
    var k := value.obj;
    var n := |s.flags|;
    var r := CreatedOnFact(s, value, flags, planning);
    SameLinksBelow(s.obj.next, r.obj.next, s.obj.next[k]);
    assert r.obj.next[n] == s.obj.next[k];
    assert r.flags[k] == s.flags[k];
  }

  lemma OnFactShaped(s: Net, value: Triple, flags: Flags, planning: bool)
    requires s.Shaped() && ObjectIsFact(s, value, flags.refs) && value.obj < |s.flags|
    ensures CreatedOnFact(s, value, flags, planning).Shaped()
  {
    assert s.Has(Target(value, flags.refs, Subject)) && s.Has(Target(value, flags.refs, Verb)) && s.Has(Target(value, flags.refs, Object));
  }

  /** A kill leaves no killable fact alive on the object list its victim heads. */
  lemma KillReachesObjectList(s: Net, f: nat, planning: bool, built: nat)
    requires s.Shaped() && s.Live(f) && f > built && s.obj.Head(FactNode(f)) < |s.flags|
    ensures AllKilled(KillFact(s, f, planning, built), Chain(s.obj.next, s.obj.Head(FactNode(f))), built)
  {
    var node := FactNode(f);
    var h := s.obj.Head(node);
    var s1 := Die(s, f, planning);
    DieDeadens(s, f, planning);
    DieShaped(s, f, planning);
    var s2 := KillList(s1, Subject, s1.NondeadHead(Subject, node), planning, built);
    DeadensTrans(s, s1, s2);
    var s3 := KillList(s2, Verb, s2.NondeadHead(Verb, node), planning, built);
    DeadensTrans(s, s2, s3);
    assert node in s.At(Object).head;
    assert s3.At(Object).Head(node) == s.At(Object).Head(node);
    KillListKills(s3, Object, h, planning, built);
    assert s.At(Object).next <= s3.At(Object).next;
    SameLinksBelow(s.obj.next, s3.obj.next, h);
  }
}
