/** Revising a fact in place: ReviseFactCode gives a fact new words, moving it from list to
  * list. Fact-valued and JSON fields are not revised in this model. */
module FactRevise {
  import opened Threads
  import opened ThreadSurgery
  import opened Facts

  /** Fact `f` leaves the list of its word for that of word `w`, and its field becomes `w`.
    * Nothing happens when the field names `w` already, whatever its sense. */
  function Rewrite(s: Net, role: Role, f: nat, w: nat): (r: Net)
    requires Rewritable(s, role, f, w)
    ensures r.Rows() && r.flags == s.flags
  {
    var a, b := WordNode(Meaning2Word(s.value[f].At(role))), WordNode(w);
    if a == b then s
    else
      var links := s.At(role);
      var (next1, head1) := Unlink(links.next, links.head[a], f);
      var (next2, head2) := Attach(next1, links.head[b], f);
      s.(value := s.value[f := s.value[f].With(role, w)])
       .With(role, Links(next2, links.head[a := head1][b := head2]))
  }

  /** Both words exist, and their lists start in the arena. */
  predicate Rewritable(s: Net, role: Role, f: nat, w: nat) {
    && s.Rows() && 0 < f < |s.flags|
    && var links := s.At(role); var a := WordNode(Meaning2Word(s.value[f].At(role)));
       && a in links.head && WordNode(w) in links.head
       && links.head[a] < |s.flags| && links.head[WordNode(w)] < |s.flags|
  }

  /** A field of a fact that ReviseFactCode may give a word: an existing one, other than the
    * null word. */
  ghost predicate MayRewrite(s: Net, role: Role, f: nat, w: nat) {
    && s.Shaped() && 0 < f < |s.flags| && s.Indexed(f) && role !in s.flags[f].refs
    && 0 < w < DICTIONARY_SIZE && s.Has(WordNode(w)) && Exact(s.View(role))
  }

  lemma MayIsRewritable(s: Net, role: Role, f: nat, w: nat)
    requires MayRewrite(s, role, f, w)
    ensures Rewritable(s, role, f, w)
    ensures s.View(role).key[f] == Some(WordNode(Meaning2Word(s.value[f].At(role))))
  {
    var v := s.View(role);
    var a, b := WordNode(Meaning2Word(s.value[f].At(role))), WordNode(w);
    assert v.key[f] == Some(a);
    assert ExactAt(v, a) && ExactAt(v, b);
  }

  /** AddToList takes the fact in, or the field does not change. */
  predicate TakenIn(s: Net, role: Role, f: nat, w: nat)
    requires f < |s.value|
  {
    Meaning2Word(s.value[f].At(role)) == w || CanAttach(s.At(role).next, s.At(role).Head(WordNode(w)), f)
  }

  lemma RewrittenView(s: Net, role: Role, f: nat, w: nat)
    requires MayRewrite(s, role, f, w) && Rewritable(s, role, f, w) && Meaning2Word(s.value[f].At(role)) != w
    ensures Rewrite(s, role, f, w).View(role) ==
            Refile(s.View(role), f, WordNode(Meaning2Word(s.value[f].At(role))), WordNode(w))
  {
    var r := Rewrite(s, role, f, w);
    RewrittenKeys(s, role, f, w, role);
    var links := s.At(role);
    var a, b := WordNode(Meaning2Word(s.value[f].At(role))), WordNode(w);
    var (next1, head1) := Unlink(links.next, links.head[a], f);
    var (next2, head2) := Attach(next1, links.head[b], f);
    assert r.At(role) == Links(next2, links.head[a := head1][b := head2]);
  }

  /** Apart from links and heads, a rewrite changes one field of one fact. */
  lemma RewriteBody(s: Net, role: Role, f: nat, w: nat)
    requires Rewritable(s, role, f, w)
    ensures var r := Rewrite(s, role, f, w);
            && r.Rows() && r.flags == s.flags
            && (forall k :: 0 <= k < |s.flags| && k != f ==> r.value[k] == s.value[k])
            && (forall q :: q != role ==> r.value[f].At(q) == s.value[f].At(q))
            && r.value[f].At(role) == (if Meaning2Word(s.value[f].At(role)) == w then s.value[f].At(role) else w)
            && (forall q :: q != role ==> r.At(q) == s.At(q))
            && r.At(role).head.Keys == s.At(role).head.Keys
  {
    var t := s.value[f];
    forall q ensures q != role ==> t.With(role, w).At(q) == t.At(q) {}
  }

  lemma RewrittenKey(s: Net, role: Role, f: nat, w: nat, q: Role, k: nat)
    requires Rewritable(s, role, f, w) && s.Indexed(f) && role !in s.flags[f].refs && 0 < w < DICTIONARY_SIZE
    requires Meaning2Word(s.value[f].At(role)) != w && k < |s.flags|
    ensures Rewrite(s, role, f, w).KeyAt(q, k) == if q == role && k == f then Some(WordNode(w)) else s.KeyAt(q, k)
  {
    RewriteBody(s, role, f, w);
    hide Rewrite;
    var r := Rewrite(s, role, f, w);
    assert r.value[f].At(Subject) != 0;
  }

  lemma RewrittenKeys(s: Net, role: Role, f: nat, w: nat, q: Role)
    requires Rewritable(s, role, f, w) && s.Indexed(f) && role !in s.flags[f].refs && 0 < w < DICTIONARY_SIZE
    requires Meaning2Word(s.value[f].At(role)) != w
    ensures Rewrite(s, role, f, w).View(q).key ==
            if q == role then s.View(q).key[f := Some(WordNode(w))] else s.View(q).key
  {
    forall k: nat | k < |s.flags|
      ensures Rewrite(s, role, f, w).KeyAt(q, k) == if q == role && k == f then Some(WordNode(w)) else s.KeyAt(q, k)
    {
      RewrittenKey(s, role, f, w, q, k);
    }
    hide Rewrite;
  }

  /** The lists of the other roles do not notice. */
  lemma RewriteKeepsOthers(s: Net, role: Role, f: nat, w: nat, q: Role)
    requires MayRewrite(s, role, f, w) && q != role
    ensures Rewritable(s, role, f, w)
    ensures var r := Rewrite(s, role, f, w); r.View(q) == s.View(q) && r.value[f].At(q) == s.value[f].At(q)
  {
    MayIsRewritable(s, role, f, w);
    if Meaning2Word(s.value[f].At(role)) != w { RewrittenKeys(s, role, f, w, q); }
  }

  /** Giving one field of a fact a new word keeps the law of its role exactly when the new list
    * is empty or has an older entry than the fact; otherwise the fact is on neither list. */
  lemma RewriteKeepsExactIff(s: Net, role: Role, f: nat, w: nat)
    requires MayRewrite(s, role, f, w)
    ensures Rewritable(s, role, f, w)
    ensures Exact(Rewrite(s, role, f, w).View(role)) <==> TakenIn(s, role, f, w)
  {
    MayIsRewritable(s, role, f, w);
    if Meaning2Word(s.value[f].At(role)) != w {
      RewrittenView(s, role, f, w);
      RefileKeepsExactIff(s.View(role), f, WordNode(Meaning2Word(s.value[f].At(role))), WordNode(w));
    }
  }

  lemma RewrittenShape(s: Net, role: Role, f: nat, w: nat)
    requires MayRewrite(s, role, f, w) && RefsAreOlder(s) && ObjectsAreWords(s)
    ensures Rewritable(s, role, f, w)
    ensures var r := Rewrite(s, role, f, w); r.Shaped() && RefsAreOlder(r) && ObjectsAreWords(r) && r.Indexed(f)
  {
    MayIsRewritable(s, role, f, w);
    RewriteBody(s, role, f, w);
    hide Rewrite;
    var r := Rewrite(s, role, f, w);
    assert r.value[f].At(Subject) != 0;
    assert r.value[0] == s.value[0];
    forall q ensures r.At(q).head.Keys == s.At(q).head.Keys {}
    forall i, q | 0 < i < |r.flags| && r.Indexed(i) && q in r.flags[i].refs
      ensures r.value[i].At(q) < i
    {
      assert s.Indexed(i);
      assert i == f ==> q != role;
      assert r.value[i].At(q) == s.value[i].At(q);
    }
    forall i | 0 < i < |r.flags| && r.Indexed(i)
      ensures Object !in r.flags[i].refs
    {
      assert s.Indexed(i);
    }
  }

  /** The word, if any, that each field of the fact is to get. */
  datatype Revision = Revision(subj: Option<nat>, verb: Option<nat>, obj: Option<nat>) {
    function At(role: Role): Option<nat> {
      match role
      case Subject => subj
      case Verb => verb
      case Object => obj
    }
  }

  function RewriteSome(s: Net, role: Role, f: nat, w: Option<nat>): Net {
    if w.Some? && Rewritable(s, role, f, w.value) then Rewrite(s, role, f, w.value) else s
  }

  /** ReviseFactCode: refuses a fact that is missing, dead, locked or built in; otherwise
    * rewrites subject, verb and object in turn. */
  function Revise(s: Net, f: nat, rev: Revision, locked: nat, built: nat): Option<Net> {
    if f == 0 || f >= |s.flags| || f <= locked || s.flags[f].dead || f <= built then None
    else Some(RewriteSome(RewriteSome(RewriteSome(s, Subject, f, rev.subj), Verb, f, rev.verb), Object, f, rev.obj))
  }

  ghost predicate MayRewriteSome(s: Net, f: nat, rev: Revision, role: Role) {
    rev.At(role).Some? ==> MayRewrite(s, role, f, rev.At(role).value)
  }

  predicate AllTakenIn(s: Net, f: nat, rev: Revision)
    requires f < |s.value|
  {
    forall role :: rev.At(role).Some? ==> TakenIn(s, role, f, rev.At(role).value)
  }

  /** A revision that goes ahead keeps the chain law exactly when every field it moves is taken
    * in by its new list. */
  lemma ReviseKeepsThreadedIff(s: Net, f: nat, rev: Revision, locked: nat, built: nat)
    requires Threaded(s) && 0 < f < |s.flags| && s.Indexed(f)
    requires forall role :: MayRewriteSome(s, f, rev, role)
    requires Revise(s, f, rev, locked, built).Some?
    ensures Threaded(Revise(s, f, rev, locked, built).value) <==> AllTakenIn(s, f, rev)
  {
    hide Rewrite, MayRewriteSome;
    assert MayRewriteSome(s, f, rev, Subject) && MayRewriteSome(s, f, rev, Verb) && MayRewriteSome(s, f, rev, Object);
    assert Exact(s.View(Subject)) && Exact(s.View(Verb)) && Exact(s.View(Object));
    var s1 := RewriteSome(s, Subject, f, rev.subj);
    RewriteOne(s, Subject, f, rev);
    RewriteOther(s, Subject, f, rev, Verb);
    RewriteOther(s, Subject, f, rev, Object);
    var s2 := RewriteSome(s1, Verb, f, rev.verb);
    RewriteOne(s1, Verb, f, rev);
    RewriteOther(s1, Verb, f, rev, Subject);
    RewriteOther(s1, Verb, f, rev, Object);
    RewriteOne(s2, Object, f, rev);
    RewriteOther(s2, Object, f, rev, Subject);
    RewriteOther(s2, Object, f, rev, Verb);
    hide RewriteSome, TakenIn;
    var r := RewriteSome(s2, Object, f, rev.obj);
    ThreadedByRole(r);
    AllByRole(s, f, rev);
  }

  /** What a fact has in one role once it is revised: the word asked for, unless it names that word already. */
  function Wished(v: nat, w: Option<nat>): nat { if w.Some? && v % 0x100000 != w.value then w.value else v }

  /** A revision goes ahead if and only if the fact is in use and alive, above the lock and not built in; then
    * the fact has the words asked for, and no other fact and no flag changes. */
  lemma ReviseIs(s: Net, f: nat, rev: Revision, locked: nat, built: nat)
    requires Threaded(s) && (0 < f < |s.flags| ==> s.Indexed(f) && forall role :: MayRewriteSome(s, f, rev, role))
    ensures s.Rows() && var r := Revise(s, f, rev, locked, built);
            && (r.Some? <==> 0 < f < |s.flags| && !s.flags[f].dead && f > locked && f > built)
            && (r.Some? ==>
                  && r.value.flags == s.flags && |r.value.value| == |s.value|
                  && (forall i :: 0 <= i < |s.value| && i != f ==> r.value.value[i] == s.value[i])
                  && var v := s.value[f];
                     r.value.value[f] == Triple(Wished(v.subj, rev.subj), Wished(v.verb, rev.verb), Wished(v.obj, rev.obj)))
  {
    hide Threaded, MayRewriteSome, Wished, RewriteSome, Net.Shaped;
    RowsOf(s);
    if 0 < f < |s.flags| {
      assert MayRewriteSome(s, f, rev, Subject) && MayRewriteSome(s, f, rev, Verb) && MayRewriteSome(s, f, rev, Object);
      RevisedFields(s, f, rev);
    }
  }

  lemma RowsOf(s: Net)
    requires Threaded(s)
    ensures s.Rows()
  {
  }

  lemma RevisedFields(s: Net, f: nat, rev: Revision)
    requires Threaded(s) && 0 < f < |s.flags| && s.Indexed(f)
    requires MayRewriteSome(s, f, rev, Subject) && MayRewriteSome(s, f, rev, Verb) && MayRewriteSome(s, f, rev, Object)
    ensures s.Rows() && var r := RewriteSome(RewriteSome(RewriteSome(s, Subject, f, rev.subj), Verb, f, rev.verb), Object, f, rev.obj);
            && r.flags == s.flags && |r.value| == |s.value|
            && (forall i :: 0 <= i < |s.value| && i != f ==> r.value[i] == s.value[i])
            && var v := s.value[f];
               r.value[f] == Triple(Wished(v.subj, rev.subj), Wished(v.verb, rev.verb), Wished(v.obj, rev.obj))
  {
    hide MayRewriteSome, Wished, RewriteSome, TakenInSome;
    assert Exact(s.View(Subject)) && Exact(s.View(Verb)) && Exact(s.View(Object));
    var s1 := RewriteSome(s, Subject, f, rev.subj);
    RewriteOne(s, Subject, f, rev);
    RewriteOther(s, Subject, f, rev, Verb);
    RewriteOther(s, Subject, f, rev, Object);
    OneField(s, Subject, f, rev);
    var s2 := RewriteSome(s1, Verb, f, rev.verb);
    RewriteOne(s1, Verb, f, rev);
    RewriteOther(s1, Verb, f, rev, Object);
    OneField(s1, Verb, f, rev);
    OneField(s2, Object, f, rev);
  }

  lemma OneField(s: Net, role: Role, f: nat, rev: Revision)
    requires Bones(s, f) && MayRewriteSome(s, f, rev, role)
    ensures s.Rows() && var r := RewriteSome(s, role, f, rev.At(role));
            && r.flags == s.flags && |r.value| == |s.value|
            && (forall i :: 0 <= i < |s.value| && i != f ==> r.value[i] == s.value[i])
            && r.value[f] == s.value[f].With(role, Wished(s.value[f].At(role), rev.At(role)))
  {
    hide Rewrite;
    if rev.At(role).Some? {
      MayIsRewritable(s, role, f, rev.At(role).value);
      RewriteBody(s, role, f, rev.At(role).value);
      SameTriple(RewriteSome(s, role, f, rev.At(role)).value[f], s.value[f], role, Wished(s.value[f].At(role), rev.At(role)));
    }
  }

  lemma SameTriple(a: Triple, b: Triple, role: Role, v: nat)
    requires a.At(role) == v && forall q :: q != role ==> a.At(q) == b.At(q)
    ensures a == b.With(role, v)
  {
    assert role != Subject ==> a.At(Subject) == b.At(Subject);
    assert role != Verb ==> a.At(Verb) == b.At(Verb);
    assert role != Object ==> a.At(Object) == b.At(Object);
  }

  ghost predicate TakenInSome(s: Net, f: nat, rev: Revision, role: Role)
    requires f < |s.value|
  {
    rev.At(role).Some? ==> TakenIn(s, role, f, rev.At(role).value)
  }

  lemma ThreadedByRole(r: Net)
    requires r.Shaped() && RefsAreOlder(r) && ObjectsAreWords(r)
    ensures Threaded(r) <==> Exact(r.View(Subject)) && Exact(r.View(Verb)) && Exact(r.View(Object))
  {
    if Exact(r.View(Subject)) && Exact(r.View(Verb)) && Exact(r.View(Object)) {
      forall role ensures Exact(r.View(role)) {
        match role case Subject => case Verb => case Object =>
      }
    }
  }

  lemma AllByRole(s: Net, f: nat, rev: Revision)
    requires f < |s.value|
    ensures AllTakenIn(s, f, rev) <==>
            TakenInSome(s, f, rev, Subject) && TakenInSome(s, f, rev, Verb) && TakenInSome(s, f, rev, Object)
  {
    hide TakenIn;
    if TakenInSome(s, f, rev, Subject) && TakenInSome(s, f, rev, Verb) && TakenInSome(s, f, rev, Object) {
      forall role ensures TakenInSome(s, f, rev, role) {
        match role case Subject => case Verb => case Object =>
      }
    }
  }

  ghost predicate Bones(s: Net, f: nat) {
    s.Shaped() && RefsAreOlder(s) && ObjectsAreWords(s) && 0 < f < |s.flags| && s.Indexed(f)
  }

  lemma RewriteOne(s: Net, role: Role, f: nat, rev: Revision)
    requires Bones(s, f) && MayRewriteSome(s, f, rev, role) && Exact(s.View(role))
    ensures var r := RewriteSome(s, role, f, rev.At(role));
            && Bones(r, f) && r.flags == s.flags
            && (Exact(r.View(role)) <==> TakenInSome(s, f, rev, role))
  {
    if rev.At(role).Some? {
      RewrittenShape(s, role, f, rev.At(role).value);
      RewriteKeepsExactIff(s, role, f, rev.At(role).value);
    }
  }

  lemma RewriteOther(s: Net, role: Role, f: nat, rev: Revision, q: Role)
    requires Bones(s, f) && MayRewriteSome(s, f, rev, role) && q != role
    ensures var r := RewriteSome(s, role, f, rev.At(role));
            && r.Rows() && r.flags == s.flags && r.View(q) == s.View(q)
            && (MayRewriteSome(s, f, rev, q) ==> MayRewriteSome(r, f, rev, q))
            && (TakenInSome(s, f, rev, q) <==> TakenInSome(r, f, rev, q))
  {
    if rev.At(role).Some? {
      RewrittenShape(s, role, f, rev.At(role).value);
      RewriteKeepsOthers(s, role, f, rev.At(role).value, q);
      RewriteBody(s, role, f, rev.At(role).value);
      hide Rewrite;
    }
  }

  // ----- A fact-valued field ---------------------------------------------------------------

  /** The fact branch of ReviseFactCode: the field gets the number given, but the fact is put on the
    * list of uses of itself, not on that of the fact numbered. */
  function RewriteFact(s: Net, role: Role, f: nat, w: nat): (r: Net)
    requires OnFactList(s, role, f)
  {
    var a, b := FactNode(s.value[f].At(role)), FactNode(f);
    if a == b then s
    else
      var links := s.At(role);
      var (next1, head1) := Unlink(links.next, links.head[a], f);
      var (next2, head2) := Attach(next1, links.head[b], f);
      s.(value := s.value[f := s.value[f].With(role, w)])
       .With(role, Links(next2, links.head[a := head1][b := head2]))
  }

  predicate OnFactList(s: Net, role: Role, f: nat) {
    && s.Rows() && 0 < f < |s.flags|
    && var links := s.At(role); var a := FactNode(s.value[f].At(role));
       && a in links.head && FactNode(f) in links.head && links.head[a] < |s.flags| && links.head[FactNode(f)] < |s.flags|
  }

  /** A fact-valued field of a fact of a lawful arena. */
  ghost predicate FactValued(s: Net, role: Role, f: nat) {
    Threaded(s) && 0 < f < |s.flags| && s.Indexed(f) && role in s.flags[f].refs
  }

  lemma FactValuedIsOnList(s: Net, role: Role, f: nat)
    requires FactValued(s, role, f)
    ensures OnFactList(s, role, f) && s.value[f].At(role) < f && role != Object
    ensures s.View(role).key[f] == Some(FactNode(s.value[f].At(role))) && Exact(s.View(role))
  {
    var v := s.View(role);
    assert v.key[f] == Some(FactNode(s.value[f].At(role)));
    assert Exact(v) && ExactAt(v, FactNode(s.value[f].At(role))) && ExactAt(v, FactNode(f));
  }

  /** Every user of a fact is newer: its list has no older entry, and takes the fact in only if it
    * is empty. */
  lemma UsersAreNewer(s: Net, role: Role, f: nat)
    requires FactValued(s, role, f)
    ensures CanAttach(s.At(role).next, s.At(role).Head(FactNode(f)), f) <==> s.At(role).Head(FactNode(f)) == 0
  {
    FactValuedIsOnList(s, role, f);
    var v := s.View(role);
    ListIsExact(v, FactNode(f));
    var c := Chain(v.next, v.head[FactNode(f)]);
    if c != [] {
      var g := c[|c| - 1];
      assert g in c;
      assert v.key[g] == Some(FactNode(f)) && s.Indexed(g);
      assert g > f;
    }
  }

  lemma RewriteFactBody(s: Net, role: Role, f: nat, w: nat)
    requires OnFactList(s, role, f) && s.value[f].At(role) != f
    ensures var r := RewriteFact(s, role, f, w); var a, b := FactNode(s.value[f].At(role)), FactNode(f);
            var (next1, head1) := Unlink(s.At(role).next, s.At(role).head[a], f);
            var (next2, head2) := Attach(next1, s.At(role).head[b], f);
            && r.flags == s.flags && r.Rows() && r.value == s.value[f := s.value[f].With(role, w)]
            && (forall q :: q != role ==> r.At(q) == s.At(q))
            && r.At(role) == Links(next2, s.At(role).head[a := head1][b := head2])
  {
    hide Unlink, Attach;
  }

  /** Where the fact is after the move: heading the list of its own uses if there was none, and on
    * no list otherwise. */
  lemma RewrittenFactList(s: Net, role: Role, f: nat, w: nat)
    requires FactValued(s, role, f)
    ensures OnFactList(s, role, f)
    ensures var r := RewriteFact(s, role, f, w); var next := r.At(role).next;
            && (s.At(role).Head(FactNode(f)) == 0 ==> f in Chain(next, r.At(role).Head(FactNode(f))))
            && (s.At(role).Head(FactNode(f)) != 0 ==> forall x :: x in r.At(role).head ==> f !in Chain(next, r.At(role).head[x]))
  {
    hide Unlink, Attach, RewriteFact, Net.View, FactValued, CanAttach, Without, Exact, Formed, Moved;
    FactValuedIsOnList(s, role, f);
    UsersAreNewer(s, role, f);
    RewriteFactBody(s, role, f, w);
    ViewLinks(s, role);
    MovedOntoItself(s.View(role), FactNode(s.value[f].At(role)), FactNode(f), f);
  }

  lemma ViewLinks(s: Net, role: Role)
    requires s.Rows()
    ensures s.View(role).next == s.At(role).next && s.View(role).head == s.At(role).head && |s.View(role).key| == |s.flags|
  {
  }

  lemma MovedOntoItself(v: Lists<Node>, a: Node, b: Node, f: nat)
    requires Exact(v) && a in v.head && b in v.head && a != b && 0 < f < |v.key| && v.key[f] == Some(a)
    requires CanAttach(v.next, v.head[b], f) <==> v.head[b] == 0
    ensures v.head[a] < |v.next| && v.head[b] < |v.next|
    ensures var (next1, head1) := Unlink(v.next, v.head[a], f);
            var (next2, head2) := Attach(next1, v.head[b], f);
            && (v.head[b] == 0 ==> f in Chain(next2, head2))
            && (v.head[b] != 0 ==> forall x :: x in v.head ==> f !in Chain(next2, v.head[a := head1][b := head2][x]))
  {
    hide Unlink, Attach, CanAttach, Without, Listing;
    assert ExactAt(v, a) && ExactAt(v, b);
    ListIsExact(v, a);
    ListIsExact(v, b);
    MoveEffect(v.next, v.head[a], v.head[b], f);
    var (next1, head1) := Unlink(v.next, v.head[a], f);
    var (next2, head2) := Attach(next1, v.head[b], f);
    if v.head[b] == 0 {
      assert Chain(v.next, v.head[b]) == [];
      assert Chain(next2, head2) == [f];
    } else {
      WithoutMembers(Chain(v.next, v.head[a]), f);
      forall x | x in v.head && x != a && x != b
        ensures f !in Chain(next2, v.head[x])
      {
        NotOnOther(v, a, b, f, next2, x);
      }
    }
  }

  lemma NotOnOther(v: Lists<Node>, a: Node, b: Node, f: nat, next: seq<nat>, x: Node)
    requires Exact(v) && a in v.head && b in v.head && x in v.head && x != a && x != b && f < |v.key| && v.key[f] == Some(a)
    requires |next| == |v.next|
    requires forall i :: 0 <= i < |next| && i !in Chain(v.next, v.head[a]) && i !in Chain(v.next, v.head[b]) ==> next[i] == v.next[i]
    ensures f !in Chain(next, v.head[x])
  {
    assert ExactAt(v, x);
    ListIsExact(v, a);
    ListIsExact(v, b);
    ListIsExact(v, x);
    ChainFrame(v.next, next, v.head[x]);
  }

  /** Revising a fact-valued field always breaks the law of the arena, whatever it is given. */
  lemma RewriteFactBreaks(s: Net, role: Role, f: nat, w: nat)
    requires FactValued(s, role, f)
    ensures OnFactList(s, role, f) && !Threaded(RewriteFact(s, role, f, w))
  {
    hide RewriteFact, Threaded, Chain, Unlink, Attach, Net.View, Exact;
    FactValuedIsOnList(s, role, f);
    RewriteFactBody(s, role, f, w);
    RewrittenFactList(s, role, f, w);
    var r := RewriteFact(s, role, f, w);
    assert r.At(Verb) == s.At(Verb) || role == Verb;
    if r.Indexed(f) { LostFact(r, role, f, s.At(role).Head(FactNode(f)) == 0); } else { LostVerb(s, r, role, f); }
  }

  lemma LostFact(r: Net, role: Role, f: nat, heads: bool)
    requires r.Rows() && 0 < f < |r.flags| && r.Indexed(f) && role in r.flags[f].refs
    requires heads ==> f in Chain(r.At(role).next, r.At(role).Head(FactNode(f)))
    requires !heads ==> forall x :: x in r.At(role).head ==> f !in Chain(r.At(role).next, r.At(role).head[x])
    ensures !Threaded(r)
  {
    if Threaded(r) {
      var v := r.View(role);
      var x := FactNode(r.value[f].At(role));
      assert Exact(v) && v.key[f] == Some(x) && FactNode(f) in v.head && x != FactNode(f);
      ListIsExact(v, FactNode(f));
      ListIsExact(v, x);
    }
  }

  /** A subject made 0 takes the fact out of use, but not off the list of its verb. */
  lemma LostVerb(s: Net, r: Net, role: Role, f: nat)
    requires Threaded(s) && 0 < f < |s.flags| && s.Indexed(f) && r.Rows() && r.flags == s.flags && !r.Indexed(f)
    requires role == Subject && r.verb == s.verb
    ensures !Threaded(r)
  {
    if Threaded(r) {
      var x := Target(s.value[f], s.flags[f].refs, Verb);
      assert Exact(s.View(Verb)) && s.View(Verb).key[f] == Some(x);
      assert Exact(r.View(Verb)) && r.View(Verb).key[f] == None;
      ListIsExact(s.View(Verb), x);
      ListIsExact(r.View(Verb), x);
    }
  }
}
