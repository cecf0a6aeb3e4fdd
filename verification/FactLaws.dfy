/** What creating and freeing facts does to the lists: the chain law is kept, and freeing is
  * the exact inverse of creating. */
module FactLaws {
  import opened Threads
  import opened Facts

  /** The fields a caller may give a new fact: all present, each an existing word or an older
    * fact, and the object a word. */
  predicate Valid(s: Net, value: Triple, refs: set<Role>) {
    && Object !in refs
    && forall role :: value.At(role) != 0 && s.Has(Target(value, refs, role))
  }

  lemma ThreadedShape(s: Net)
    requires Threaded(s)
    ensures s.Shaped() && s.Rows()
  {
  }

  /** No list starts in freed space. */
  lemma HeadsAreInUse(s: Net)
    requires Threaded(s)
    ensures forall role, node :: s.At(role).Head(node) < |s.flags|
  {
    forall role, node | node in s.At(role).head
      ensures s.At(role).head[node] < |s.flags|
    {
      assert Exact(s.View(role));
      assert ExactAt(s.View(role), node);
    }
  }

  /** The walkers step over dead facts, and over nothing else. */
  lemma {:induction false} FirstLiveIsNext(s: Net, role: Role, h: nat)
    requires s.Rows()
    ensures var c := Chain(s.At(role).next, h); var g := s.FirstLive(role, h);
            && (g != 0 ==> g in c)
            && (forall i :: i in c ==> i < |s.flags| && (s.flags[i].dead || i in Chain(s.At(role).next, g)))
            && (forall i :: i in Chain(s.At(role).next, g) ==> i in c)
    decreases h
  {
    var next := s.At(role).next;
    assert |next| == |s.flags|;
    ChainIsBelow(next, h);
    if !(h == 0 || h >= |s.flags|) && s.flags[h].dead && next[h] < h {
      FirstLiveIsNext(s, role, next[h]);
      assert Chain(next, h) == [h] + Chain(next, next[h]);
    }
  }

  // ----- Creation ----------------------------------------------------------------------

  function Threaded1(links: Links, n: nat, node: Node): Links {
    Links(links.next + [links.Head(node)], links.head[FactNode(n) := 0][node := n])
  }

  /** A valid creation in closed form: one row more, heading the lists of its three nodes. */
  function Created(s: Net, value: Triple, flags: Flags, planning: bool): Net {
    var n := |s.flags|;
    Net(s.flags + [flags.(transient := flags.transient || planning)], s.value + [value],
        Threaded1(s.subj, n, Target(value, flags.refs, Subject)),
        Threaded1(s.verb, n, Target(value, flags.refs, Verb)),
        Threaded1(s.obj, n, Target(value, flags.refs, Object)))
  }

  /** Linking the newest row by one role when the node it names is older. */
  lemma LinkEffect(s: Net, role: Role, links: Links)
    requires s.Rows()
    requires var n := |s.flags| - 1; var node := Target(s.value[n], s.flags[n].refs, role);
             && s.value[n].At(role) != 0 && node != FactNode(n)
             && (role in s.flags[n].refs ==> role != Object && s.value[n].At(role) < |s.flags|)
             && s.At(role) == Links(links.next + [0], links.head[FactNode(n) := 0]) && |links.next| == n
    ensures var n := |s.flags| - 1;
            Link(s, role) == Some(s.With(role, Threaded1(links, n, Target(s.value[n], s.flags[n].refs, role))))
  {
    var n := |s.flags| - 1;
    var node := Target(s.value[n], s.flags[n].refs, role);
    assert (links.next + [0])[n := links.Head(node)] == links.next + [links.Head(node)];
  }

  lemma CreateEffect(s: Net, value: Triple, flags: Flags, planning: bool)
    requires s.Shaped() && Valid(s, value, flags.refs)
    ensures WordsExist(s, value, flags.refs)
    ensures CreateFast(s, value, flags, planning) == (Created(s, value, flags, planning), |s.flags|)
  {
    hide Link;
    var n := |s.flags|;
    var s0 := Alloc(s, value, flags);
    assert forall role :: role in flags.refs ==> Target(value, flags.refs, role) == FactNode(value.At(role));
    LinkEffect(s0, Subject, s.subj);
    var s1 := Link(s0, Subject).value;
    LinkEffect(s1, Verb, s.verb);
    var s2 := Link(s1, Verb).value;
    LinkEffect(s2, Object, s.obj);
    assert (s.flags + [flags])[n := flags.(transient := true)] == s.flags + [flags.(transient := true)];
  }

  /** The lists of one role after a creation: a row pushed onto the list of its node, and an
    * empty list for the new fact. */
  lemma CreatedView(s: Net, value: Triple, flags: Flags, planning: bool, role: Role)
    requires s.Shaped() && Valid(s, value, flags.refs)
    ensures Created(s, value, flags, planning).View(role) ==
            Push(NewKey(s.View(role), FactNode(|s.flags|)), Target(value, flags.refs, role))
  {
    var r := Created(s, value, flags, planning).View(role);
    var node := Target(value, flags.refs, role);
    assert value.At(Subject) != 0;
    assert r.key == s.View(role).key + [Some(node)];
  }

  /** A valid creation keeps the chain law, and the new fact heads the lists of its nodes. */
  lemma CreateKeepsThreaded(s: Net, value: Triple, flags: Flags, planning: bool)
    requires Threaded(s) && Valid(s, value, flags.refs)
    ensures WordsExist(s, value, flags.refs)
    ensures var (r, id) := CreateFast(s, value, flags, planning);
            && Threaded(r) && id == |s.flags| == |r.flags| - 1
            && forall role :: r.At(role).Head(Target(value, flags.refs, role)) == id
  {
    CreateEffect(s, value, flags, planning);
    var r := Created(s, value, flags, planning);
    forall role
      ensures Exact(r.View(role)) && r.At(role).Head(Target(value, flags.refs, role)) == |s.flags|
    {
      CreatedIsExact(s, value, flags, planning, role);
    }
    CreatedShape(s, value, flags, planning);
  }

  lemma CreatedIsExact(s: Net, value: Triple, flags: Flags, planning: bool, role: Role)
    requires s.Shaped() && Exact(s.View(role)) && Valid(s, value, flags.refs)
    ensures var r := Created(s, value, flags, planning);
            Exact(r.View(role)) && r.At(role).Head(Target(value, flags.refs, role)) == |s.flags|
  {
    CreatedView(s, value, flags, planning, role);
    var node := FactNode(|s.flags|);
    NewKeyKeepsExact(s.View(role), node);
    PushKeepsExact(NewKey(s.View(role), node), Target(value, flags.refs, role));
  }

  lemma CreatedShape(s: Net, value: Triple, flags: Flags, planning: bool)
    requires Threaded(s) && Valid(s, value, flags.refs)
    ensures var r := Created(s, value, flags, planning); r.Shaped() && RefsAreOlder(r) && ObjectsAreWords(r)
  {
    var r := Created(s, value, flags, planning);
    var n := |s.flags|;
    assert forall role :: role in flags.refs ==> Target(value, flags.refs, role) == FactNode(value.At(role));
    forall i, role | 0 < i <= n && r.Indexed(i) && role in r.flags[i].refs
      ensures r.value[i].At(role) < i
    {
      if i < n { assert s.Indexed(i) && s.flags[i] == r.flags[i]; } else { assert r.value[n] == value; }
    }
    forall i | 0 < i <= n && r.Indexed(i)
      ensures Object !in r.flags[i].refs
    {
      if i < n { assert s.Indexed(i); }
    }
  }

  // ----- Undo records ------------------------------------------------------------------

  lemma SpecialView(s: Net, verb: nat, obj: nat, walk: bool, role: Role)
    requires s.Shaped()
    ensures SpecialFact(s, verb, obj, walk).View(role) == Skip(NewKey(s.View(role), FactNode(|s.flags|)))
  {
    var r := SpecialFact(s, verb, obj, walk).View(role);
    assert r.key == s.View(role).key + [None];
  }

  /** A special fact is one row more, without a subject, dead and transient from the start; whether it is a place
    * of an iterator is told by its mark. Nothing else changes. */
  lemma SpecialIs(s: Net, verb: nat, obj: nat, walk: bool)
    requires s.Rows()
    ensures var r := SpecialFact(s, verb, obj, walk); var n := |s.flags|;
            && |r.flags| == |r.value| == n + 1 && r.flags[..n] == s.flags && r.value[..n] == s.value
            && r.value[n].subj == 0 && r.value[n].verb == verb && r.value[n].obj == obj
            && r.flags[n].dead && r.flags[n].transient && (r.flags[n].marked <==> walk) && r.flags[n].refs == {}
            && forall role :: r.At(role).next[..n] == s.At(role).next
  {
    assert forall role :: SpecialFact(s, verb, obj, walk).At(role).next == s.At(role).next + [0];
  }

  lemma SpecialKeepsThreaded(s: Net, verb: nat, obj: nat, walk: bool)
    requires Threaded(s)
    ensures Threaded(SpecialFact(s, verb, obj, walk))
  {
    var r := SpecialFact(s, verb, obj, walk);
    var node := FactNode(|s.flags|);
    forall role
      ensures Exact(r.View(role))
    {
      SpecialView(s, verb, obj, walk, role);
      NewKeyKeepsExact(s.View(role), node);
      SkipKeepsExact(NewKey(s.View(role), node));
    }
    assert forall i :: 0 < i < |s.flags| ==> r.flags[i] == s.flags[i] && r.value[i] == s.value[i];
    assert forall i :: 0 < i < |s.flags| && r.Indexed(i) ==> s.Indexed(i);
  }

  /** Marking a fact dead or alive touches no list. */
  lemma SetDeadKeepsThreaded(s: Net, i: nat, dead: bool)
    requires Threaded(s) && 0 < i < |s.flags|
    ensures Threaded(s.SetDead(i, dead))
  {
    var r := s.SetDead(i, dead);
    forall role
      ensures Exact(r.View(role))
    {
      assert Exact(s.View(role));
      assert r.View(role).key == s.View(role).key;
    }
    assert forall k :: 0 < k < |s.flags| ==> r.flags[k].refs == s.flags[k].refs;
    assert forall k :: 0 < k < |s.flags| && r.Indexed(k) ==> s.Indexed(k);
  }

  /** A new dictionary word starts with three empty lists. */
  function NewWord(s: Net, w: nat): Net {
    var node := WordNode(w);
    s.(subj := s.subj.(head := s.subj.head[node := 0]),
       verb := s.verb.(head := s.verb.head[node := 0]),
       obj := s.obj.(head := s.obj.head[node := 0]))
  }

  lemma NewWordKeepsThreaded(s: Net, w: nat)
    requires Threaded(s) && !s.Has(WordNode(w))
    ensures Threaded(NewWord(s, w))
  {
    var r := NewWord(s, w);
    forall role
      ensures Exact(r.View(role))
    {
      assert r.View(role).key == s.View(role).key;
      NewKeyKeepsExact(s.View(role), WordNode(w));
    }
    assert forall k :: 0 < k < |s.flags| && r.Indexed(k) ==> s.Indexed(k);
  }

  // ----- Freeing -----------------------------------------------------------------------

  /** In a lawful arena the newest row, if it is a fact, may always be freed. */
  lemma IndexedIsFreeable(s: Net)
    requires Threaded(s) && |s.flags| > 1 && s.Indexed(|s.flags| - 1)
    ensures Freeable(s)
  {
    var top := |s.flags| - 1;
    forall role
      ensures var node := Target(s.value[top], s.flags[top].refs, role); node != FactNode(top) && s.Has(node)
    {
      assert Exact(s.View(role)) && s.View(role).key[top].Some?;
      assert role in s.flags[top].refs ==> s.value[top].At(role) < top;
    }
  }

  lemma FreedView(s: Net, role: Role)
    requires s.Shaped() && Freeable(s)
    ensures FreeTop(s).View(role) == DropKey(Pop(s.View(role)), FactNode(|s.flags| - 1))
  {
    var top := |s.flags| - 1;
    FreedKeys(s, role);
    if s.Indexed(top) {
      var node := Target(s.value[top], s.flags[top].refs, role);
      SwapMapEdits(s.At(role).head, FactNode(top), node, s.At(role).next[top]);
    }
  }

  lemma FreedKeys(s: Net, role: Role)
    requires s.Shaped() && Freeable(s)
    ensures FreeTop(s).Rows() && FreeTop(s).View(role).key == s.View(role).key[..|s.flags| - 1]
  {
    var n := |s.flags| - 1;
    FreedBody(s);
    var r := FreeTop(s);
    forall k | 0 <= k < n
      ensures r.KeyAt(role, k) == s.KeyAt(role, k)
    {
      assert r.flags[k].refs == s.flags[k].refs;
    }
  }

  /** FreeTop changes no field of an older fact and, of its flags, only FACTDEAD. */
  lemma FreedBody(s: Net)
    requires Freeable(s)
    ensures var r := FreeTop(s);
            && r.Rows() && |r.flags| == |s.flags| - 1 && r.value == s.value[..|s.flags| - 1]
            && forall k :: 0 <= k < |r.flags| ==> r.flags[k].refs == s.flags[k].refs
  {
  }

  /** Freeing changes no fact but the one whose death the row records, and of that only that it is alive. */
  lemma FreeChanges(s: Net)
    requires Freeable(s)
    ensures s.Rows() && var r := FreeTop(s); var top := |s.flags| - 1; var v := s.value[top];
            && r.Rows() && |r.flags| == top && r.value == s.value[..top]
            && forall k :: 0 <= k < top ==>
                 r.flags[k] == if v.subj == 0 && v.obj == 0 && k == v.verb then s.flags[k].(dead := false) else s.flags[k]
  {
  }

  lemma SwapMapEdits<K, V>(m: map<K, V>, gone: K, k: K, v: V)
    requires gone != k
    ensures (m - {gone})[k := v] == m[k := v] - {gone}
  {
  }

  /** Freeing the newest row of a lawful arena leaves a lawful arena; if the row is a fact, it
    * was the head of its three lists ("can only free facts sequentially backwards"). */
  lemma FreeKeepsThreaded(s: Net)
    requires Threaded(s) && Freeable(s)
    ensures Threaded(FreeTop(s))
    ensures var top := |s.flags| - 1;
            s.Indexed(top) ==> forall role :: s.At(role).Head(Target(s.value[top], s.flags[top].refs, role)) == top
  {
    var top := |s.flags| - 1;
    var r := FreeTop(s);
    forall role
      ensures Exact(r.View(role))
      ensures s.Indexed(top) ==> s.At(role).Head(Target(s.value[top], s.flags[top].refs, role)) == top
    {
      FreedIsExact(s, role);
    }
    FreedShape(s);
  }

  lemma FreedIsExact(s: Net, role: Role)
    requires s.Shaped() && RefsAreOlder(s) && Exact(s.View(role)) && Freeable(s)
    ensures Exact(FreeTop(s).View(role))
    ensures var top := |s.flags| - 1;
            s.Indexed(top) ==> s.At(role).Head(Target(s.value[top], s.flags[top].refs, role)) == top
  {
    var v := s.View(role);
    FreedView(s, role);
    PopKeepsExact(v);
    NoneHoldsNewest(s, role);
    DropKeyKeepsExact(Pop(v), FactNode(|s.flags| - 1));
  }

  /** Fields name older facts, so no fact holds the newest one. */
  lemma NoneHoldsNewest(s: Net, role: Role)
    requires s.Shaped() && RefsAreOlder(s)
    ensures forall i :: 0 <= i < |s.flags| - 1 ==> s.View(role).key[i] != Some(FactNode(|s.flags| - 1))
  {
    forall i | 0 <= i < |s.flags| - 1
      ensures s.KeyAt(role, i) != Some(FactNode(|s.flags| - 1))
    {
      if s.Indexed(i) && role in s.flags[i].refs { assert s.value[i].At(role) < i; }
    }
  }

  lemma FreedShape(s: Net)
    requires s.Shaped() && RefsAreOlder(s) && ObjectsAreWords(s) && Freeable(s)
    ensures var r := FreeTop(s); r.Shaped() && RefsAreOlder(r) && ObjectsAreWords(r)
  {
    FreedRows(s);
    FreedHeads(s, Subject);
    FreedHeads(s, Verb);
    FreedHeads(s, Object);
  }

  lemma FreedRows(s: Net)
    requires s.Shaped() && RefsAreOlder(s) && ObjectsAreWords(s) && Freeable(s)
    ensures var r := FreeTop(s);
            r.Rows() && |r.flags| == |s.flags| - 1 && r.flags[0] == NO_FLAGS && r.value[0] == ZERO
            && RefsAreOlder(r) && ObjectsAreWords(r)
  {
    var r := FreeTop(s);
    FreedBody(s);
    assert s.flags[0] == NO_FLAGS && (s.Indexed(|s.flags| - 1) || s.value[|s.flags| - 1].obj != 0 || s.value[|s.flags| - 1].verb != 0);
    forall k, role | 0 < k < |r.flags| && r.Indexed(k) && role in r.flags[k].refs
      ensures r.value[k].At(role) < k
    {
      assert s.Indexed(k) && role in s.flags[k].refs;
    }
    forall k | 0 < k < |r.flags| && r.Indexed(k)
      ensures Object !in r.flags[k].refs
    {
      assert s.Indexed(k);
    }
  }

  lemma FreedHeads(s: Net, role: Role)
    requires s.Shaped() && Freeable(s)
    ensures FreeTop(s).At(role).head.Keys == s.subj.head.Keys - {FactNode(|s.flags| - 1)}
  {
    var top := |s.flags| - 1;
    assert s.At(role).head.Keys == s.subj.head.Keys;
    assert Drop(s).At(role).head.Keys == s.At(role).head.Keys - {FactNode(top)};
    if s.Indexed(top) {
      assert s.Has(Target(s.value[top], s.flags[top].refs, role));
    }
  }

  // ----- Undo --------------------------------------------------------------------------

  lemma UndoLinks(links: Links, n: nat, node: Node)
    requires |links.next| == n && node in links.head && FactNode(n) !in links.head
    ensures var t := Threaded1(links, n, node);
            Links(t.next[..n], (t.head - {FactNode(n)})[node := t.next[n]]) == links
  {
    var t := Threaded1(links, n, node);
    assert t.next[..n] == links.next;
    assert (t.head - {FactNode(n)})[node := links.head[node]] == links.head;
  }

  /** Freeing a fact just created gives back the whole arena: every flag, link and head. */
  lemma FreeUndoesCreate(s: Net, value: Triple, flags: Flags, planning: bool)
    requires s.Shaped() && Valid(s, value, flags.refs)
    ensures WordsExist(s, value, flags.refs)
    ensures var r := CreateFast(s, value, flags, planning).0; Freeable(r) && FreeTop(r) == s
  {
    hide CreateFast, Freeable;
    CreateEffect(s, value, flags, planning);
    CreatedIsFreeable(s, value, flags, planning);
    CreatedIsUndone(s, value, flags, planning);
  }

  lemma CreatedIsUndone(s: Net, value: Triple, flags: Flags, planning: bool)
    requires s.Shaped() && Valid(s, value, flags.refs) && Freeable(Created(s, value, flags, planning))
    ensures FreeTop(Created(s, value, flags, planning)) == s
  {
    hide Freeable;
    var n := |s.flags|;
    var r := Created(s, value, flags, planning);
    assert r.flags[..n] == s.flags && r.value[..n] == s.value;
    assert value.At(Subject) != 0;
    UndoLinks(s.subj, n, Target(value, flags.refs, Subject));
    UndoLinks(s.verb, n, Target(value, flags.refs, Verb));
    UndoLinks(s.obj, n, Target(value, flags.refs, Object));
  }

  lemma CreatedIsFreeable(s: Net, value: Triple, flags: Flags, planning: bool)
    requires s.Shaped() && Valid(s, value, flags.refs)
    ensures Freeable(Created(s, value, flags, planning))
  {
    var n := |s.flags|;
    var r := Created(s, value, flags, planning);
    assert value.At(Subject) != 0;
    forall role
      ensures var node := Target(r.value[n], r.flags[n].refs, role); node != FactNode(n) && r.Has(node)
    {
      assert s.Has(Target(value, flags.refs, role));
    }
  }

  lemma DropUndoesSpecial(s: Net, verb: nat, obj: nat, walk: bool)
    requires s.Shaped()
    ensures Drop(SpecialFact(s, verb, obj, walk)) == s
  {
    var n := |s.flags|;
    var r := SpecialFact(s, verb, obj, walk);
    assert r.flags[..n] == s.flags && r.value[..n] == s.value;
    assert r.subj.next[..n] == s.subj.next && r.verb.next[..n] == s.verb.next && r.obj.next[..n] == s.obj.next;
    var node := FactNode(n);
    assert r.subj.head - {node} == s.subj.head;
    assert r.verb.head - {node} == s.verb.head;
    assert r.obj.head - {node} == s.obj.head;
  }

  /** Freeing the record of a death brings the fact back to life and leaves no other trace. */
  lemma FreeUndoesDeath(s: Net, f: nat)
    requires s.Shaped() && s.Live(f)
    ensures var r := SpecialFact(s.SetDead(f, true), f, 0, false); Freeable(r) && FreeTop(r) == s
  {
    var t := s.SetDead(f, true);
    DropUndoesSpecial(t, f, 0, false);
    assert t.SetDead(f, false).flags == s.flags;
  }
}
