/** Looking a fact up before creating it: FindFact and CreateFact. */
module FactFind {
  import opened Threads
  import opened Facts
  import opened FactLaws

  /** The role whose list is searched: that of the first fact-valued field, or else subject. */
  function SearchRole(refs: set<Role>): Role {
    if Subject in refs then Subject else if Verb in refs then Verb else if Object in refs then Object else Subject
  }

  /** What the search compares: every flag, and every field but the fact-valued one whose list
    * is searched. */
  predicate Matches(s: Net, g: nat, value: Triple, flags: Flags)
    requires g < |s.flags| && g < |s.value|
  {
    && s.flags[g] == flags
    && forall role :: (role == SearchRole(flags.refs) && role in flags.refs) || s.value[g].At(role) == value.At(role)
  }

  /** The walk of FindFact from the live fact `g` on. */
  function FindOn(s: Net, role: Role, g: nat, value: Triple, flags: Flags): nat
    requires s.Rows()
    decreases g
  {
    if g == 0 || g >= |s.flags| then 0
    else if Matches(s, g, value, flags) then g
    else FindOn(s, role, s.NondeadNext(role, g), value, flags)
  }

  /** FindFact: 0 when a field is missing or duplicates are allowed. */
  function FindFact(s: Net, value: Triple, flags: Flags): nat
    requires s.Rows()
  {
    if value.subj == 0 || value.verb == 0 || value.obj == 0 || flags.duplicate then 0
    else
      var role := SearchRole(flags.refs);
      FindOn(s, role, s.NondeadHead(role, Target(value, flags.refs, role)), value, flags)
  }

  /** CreateFact on fields whose words need no reinterpretation. */
  function CreateFact(s: Net, value: Triple, flags: Flags, planning: bool): (Net, nat)
    requires s.Rows() && WordsExist(s, value, flags.refs)
  {
    if value.subj == 0 || value.verb == 0 || value.obj == 0 then (s, 0)
    else
      var found := FindFact(s, value, flags);
      if found != 0 then (s, found) else CreateFast(s, value, flags, planning)
  }

  /** A live fact with these fields and flags. */
  predicate IsFact(s: Net, g: nat, value: Triple, flags: Flags) {
    g < |s.value| && s.Live(g) && s.value[g] == value && s.flags[g] == flags
  }

  lemma SameTriple(a: Triple, b: Triple)
    requires forall role :: a.At(role) == b.At(role)
    ensures a == b
  {
    assert a.At(Subject) == b.At(Subject) && a.At(Verb) == b.At(Verb) && a.At(Object) == b.At(Object);
  }

  /** On a list where every row is filed under the node sought, a match is the fact itself. */
  ghost predicate FiledUnder(s: Net, role: Role, list: seq<nat>, node: Node)
    requires s.Rows()
  {
    forall i :: i in list ==> i < |s.flags| && s.KeyAt(role, i) == Some(node)
  }

  lemma MatchIsFact(s: Net, g: nat, value: Triple, flags: Flags)
    requires s.Rows() && s.Live(g)
    requires var role := SearchRole(flags.refs); s.KeyAt(role, g) == Some(Target(value, flags.refs, role))
    ensures Matches(s, g, value, flags) <==> IsFact(s, g, value, flags)
  {
    if Matches(s, g, value, flags) {
      SameTriple(s.value[g], value);
    }
  }

  lemma {:induction false} FindOnFinds(s: Net, g: nat, value: Triple, flags: Flags)
    requires s.Rows() && (g == 0 || s.Live(g))
    requires var role := SearchRole(flags.refs);
             FiledUnder(s, role, Chain(s.At(role).next, g), Target(value, flags.refs, role))
    ensures var role := SearchRole(flags.refs); var r := FindOn(s, role, g, value, flags);
            && (r != 0 ==> IsFact(s, r, value, flags))
            && (forall k :: k in Chain(s.At(role).next, g) && IsFact(s, k, value, flags) ==> r != 0 && k <= r)
    decreases g
  {
    var role := SearchRole(flags.refs);
    var next := s.At(role).next;
    ChainIsBelow(next, g);
    if g != 0 {
      assert g in Chain(next, g);
      MatchIsFact(s, g, value, flags);
      if !Matches(s, g, value, flags) {
        if next[g] < g {
          assert Chain(next, g) == [g] + Chain(next, next[g]);
          FirstLiveIsNext(s, role, next[g]);
        }
        FindOnFinds(s, s.NondeadNext(role, g), value, flags);
      }
    }
  }

  /** What the search relies on: all fields are given, and the list it walks is lawful. */
  ghost predicate Searchable(s: Net, value: Triple, refs: set<Role>) {
    var role := SearchRole(refs);
    && s.Shaped() && Exact(s.View(role)) && s.Has(Target(value, refs, role))
    && value.subj != 0 && value.verb != 0 && value.obj != 0
  }

  lemma ValidIsSearchable(s: Net, value: Triple, refs: set<Role>)
    requires Threaded(s) && Valid(s, value, refs)
    ensures Searchable(s, value, refs)
  {
    assert value.At(Subject) != 0 && value.At(Verb) != 0 && value.At(Object) != 0;
  }

  /** FindFact finds the newest live fact with the given fields and flags, and finds none only
    * when there is none, whatever fields are facts; unless duplicates are allowed. */
  lemma FindFactIsExact(s: Net, value: Triple, flags: Flags)
    requires Searchable(s, value, flags.refs) && !flags.duplicate
    ensures var r := FindFact(s, value, flags);
            && (r != 0 ==> IsFact(s, r, value, flags))
            && (forall k: nat :: IsFact(s, k, value, flags) ==> r != 0 && k <= r)
  {
    var role := SearchRole(flags.refs);
    var node := Target(value, flags.refs, role);
    SearchList(s, role, node);
    var g := s.NondeadHead(role, node);
    FindOnFinds(s, g, value, flags);
    forall k: nat | IsFact(s, k, value, flags)
      ensures k in Chain(s.At(role).next, g)
    {
      assert s.KeyAt(role, k) == Some(node);
    }
  }

  /** The live facts that hold a node are all met by walking its list. */
  lemma SearchList(s: Net, role: Role, node: Node)
    requires s.Shaped() && Exact(s.View(role)) && s.Has(node)
    ensures var list := Chain(s.At(role).next, s.NondeadHead(role, node));
            && FiledUnder(s, role, list, node)
            && forall k: nat :: s.Live(k) && s.KeyAt(role, k) == Some(node) ==> k in list
  {
    var v := s.View(role);
    assert node in v.head;
    ListIsExact(v, node);
    FirstLiveIsNext(s, role, s.At(role).Head(node));
    forall i | i in Chain(s.At(role).next, s.NondeadHead(role, node))
      ensures i < |s.flags| && s.KeyAt(role, i) == Some(node)
    {
      assert v.key[i] == Some(node);
    }
    forall k: nat | s.Live(k) && s.KeyAt(role, k) == Some(node)
      ensures k in Chain(s.At(role).next, s.NondeadHead(role, node))
    {
      assert v.key[k] == Some(node);
    }
  }

  /** No two live facts agree in all fields and flags. */
  ghost predicate NoTwins(s: Net) {
    forall i, k :: 0 < i < k < |s.flags| && k < |s.value| && s.Live(i) && s.Live(k) && !s.flags[i].duplicate && s.Indexed(i) ==>
      !(s.value[i] == s.value[k] && s.flags[i] == s.flags[k])
  }

  /** CreateFact answers a live fact with the requested fields, and so does a repeated request, with
    * the same fact exactly when flags come out as they were asked for: outside planning, or for
    * facts asked for as transient. While planning every other request makes a new twin. */
  lemma CreateFactTwice(s: Net, value: Triple, flags: Flags, planning: bool)
    requires Threaded(s) && Valid(s, value, flags.refs) && !flags.duplicate && !flags.dead
    requires FindFact(s, value, flags) == 0
    ensures WordsExist(s, value, flags.refs)
    ensures var (s1, id1) := CreateFact(s, value, flags, planning);
            && Threaded(s1) && WordsExist(s1, value, flags.refs)
            && IsFact(s1, id1, value, flags.(transient := flags.transient || planning))
            && var (s2, id2) := CreateFact(s1, value, flags, planning);
               && IsFact(s2, id1, value, flags.(transient := flags.transient || planning))
               && IsFact(s2, id2, value, flags.(transient := flags.transient || planning))
               && (id2 == id1 <==> !planning || flags.transient) && (id2 == id1 ==> s2 == s1)
  {
    CreateKeepsThreaded(s, value, flags, planning);
    CreateEffect(s, value, flags, planning);
    assert value.At(Subject) != 0 && value.At(Verb) != 0 && value.At(Object) != 0;
    var (s1, id1) := CreateFact(s, value, flags, planning);
    assert s1 == Created(s, value, flags, planning) && id1 == |s.flags|;
    StillValid(s, value, flags, planning);
    ValidIsSearchable(s, value, flags.refs);
    ValidIsSearchable(s1, value, flags.refs);
    FindFactIsExact(s1, value, flags);
    FindFactIsExact(s, value, flags);
    if planning && !flags.transient {
      forall k: nat | IsFact(s1, k, value, flags)
        ensures false
      {
        assert k != id1;
        assert IsFact(s, k, value, flags);
      }
      CreateEffect(s1, value, flags, planning);
    } else {
      assert IsFact(s1, id1, value, flags);
    }
  }

  lemma StillValid(s: Net, value: Triple, flags: Flags, planning: bool)
    requires Threaded(s) && Valid(s, value, flags.refs)
    ensures Valid(Created(s, value, flags, planning), value, flags.refs)
    ensures WordsExist(Created(s, value, flags, planning), value, flags.refs)
  {
    var r := Created(s, value, flags, planning);
    forall role ensures r.Has(Target(value, flags.refs, role)) {
      assert s.Has(Target(value, flags.refs, role));
    }
  }

  /** Outside planning CreateFact never makes a second live fact with the same fields and flags. */
  lemma CreateFactKeepsNoTwins(s: Net, value: Triple, flags: Flags)
    requires Threaded(s) && Valid(s, value, flags.refs) && NoTwins(s)
    ensures WordsExist(s, value, flags.refs)
    ensures NoTwins(CreateFact(s, value, flags, false).0)
  {
    CreateEffect(s, value, flags, false);
    if !flags.duplicate {
      ValidIsSearchable(s, value, flags.refs);
      FindFactIsExact(s, value, flags);
    }
    if FindFact(s, value, flags) == 0 {
      var r := CreateFact(s, value, flags, false).0;
      assert value.At(Subject) != 0 && value.At(Verb) != 0 && value.At(Object) != 0;
      assert r == Created(s, value, flags, false);
      var n := |s.flags|;
      forall i, k | 0 < i < k < |r.flags| && r.Live(i) && r.Live(k) && !r.flags[i].duplicate && r.Indexed(i)
        ensures !(r.value[i] == r.value[k] && r.flags[i] == r.flags[k])
      {
        assert s.Live(i) && s.Indexed(i);
        if k == n {
          assert !IsFact(s, i, value, flags) || flags.duplicate;
        } else {
          assert s.Live(k);
        }
      }
    }
  }
}
