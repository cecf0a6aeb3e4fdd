/** The resumable concept iterator (IteratorCode of functionExecute.cpp). Its place, and when it
  * recurses into concepts its whole stack, is kept in special facts that each call reads and
  * changes. */
module Iterator {
  import opened Threads
  import opened Facts
  import opened FactLaws
  import opened Inference

  /** What is iterated over: facts with the given verb on the list of one role, their answer being
    * the other field; `concept` tells the words that start with a tilde. */
  datatype Iteration = Iteration(role: Role, verb: nat, recursive: bool, concept: nat -> bool) {
    function Field(v: Triple): nat { if role == Object then v.subj else v.obj }

    /** The fact leads into a nested concept. */
    predicate Nests(v: Triple) { recursive && concept(Meaning2Word(Field(v))) }
  }

  function HeadOf(k: Iteration, s: Net, w: nat): nat { s.NondeadHead(k.role, WordNode(w)) }

  function NextOf(k: Iteration, s: Net, g: nat): nat {
    if g < |s.At(k.role).next| then s.NondeadNext(k.role, g) else 0
  }

  /** Sets the verb of a record: the top of the stack, when it is the record the iteration holds. */
  function WithVerb(s: Net, hold: nat, v: nat): Net
    requires hold < |s.value|
  {
    s.(value := s.value[hold := s.value[hold].(verb := v)])
  }

  function WithObject(s: Net, hold: nat, v: nat): Net
    requires hold < |s.value|
  {
    s.(value := s.value[hold := s.value[hold].(obj := v)])
  }

  /** The loop of IteratorCode, from the fact `f` on (0 at the end of a list), `fuel` rounds of it at
    * most; None if it is still going. The result is the fact found, 0 for none, and the record
    * held. */
  function Hunt(k: Iteration, s: Net, f: nat, hold: nat, fuel: nat): Option<(Net, nat, nat)>
    requires s.Rows() && hold < |s.value|
    decreases fuel
  {
    if f != 0 && f < |s.value| then
      if s.value[f].verb != k.verb then
        if fuel == 0 then None else Hunt(k, s, NextOf(k, s, f), hold, fuel - 1)
      else if !k.Nests(s.value[f]) then Some((s, f, hold))
      else if fuel == 0 then None
      else
        var e := Meaning2Word(k.Field(s.value[f]));
        var g := |s.value|;
        var s1 := SpecialFact(s, if hold != 0 then s.value[hold].verb else 0, f, true);
        var f1 := HeadOf(k, s1, e);
        if hold == 0 then Hunt(k, SpecialFact(s1, g, f1, true), f1, g + 1, fuel - 1)
        else Hunt(k, WithVerb(s1, hold, g), f1, hold, fuel - 1)
    else if hold == 0 then Some((s, 0, 0))
    else
      var x := s.value[hold].verb;
      if x == 0 || x >= |s.value| then Some((s, 0, hold))
      else if fuel == 0 then None
      else Hunt(k, WithVerb(s, hold, s.value[x].verb), NextOf(k, s, s.value[x].obj), hold, fuel - 1)
  }

  /** One call of the iterator: a start if `current` is 0, or else a return. The answer is a
    * meaning, None for failure. */
  function Call(k: Iteration, s: Net, word: nat, current: nat, fuel: nat): Option<(Net, Option<nat>, nat)>
    requires s.Rows() && current < |s.value|
  {
    var hold := if current != 0 && s.flags[current].marked then current else 0;
    var f := if current == 0 then HeadOf(k, s, word)
             else NextOf(k, s, if hold != 0 then s.value[hold].obj else current);
    var r := Hunt(k, s, f, hold, fuel);
    if r.None? then None
    else
      var (s1, f1, hold1) := r.value;
      if f1 == 0 || f1 >= |s1.value| then Some((s1, None, current))
      else if hold1 != 0 && hold1 < |s1.value| then Some((WithObject(s1, hold1, f1), Some(k.Field(s1.value[f1])), hold1))
      else Some((s1, Some(k.Field(s1.value[f1])), f1))
  }

  // ----- The arena the iteration started from ----------------------------------------------------

  /** Only special facts were added, and only they were changed. */
  ghost predicate Extends(s0: Net, s: Net, role: Role) {
    && s0.Rows() && s.Rows() && |s0.flags| <= |s.flags|
    && (forall i :: 0 <= i < |s0.flags| ==> s.flags[i] == s0.flags[i] && s.value[i] == s0.value[i])
    && (forall i :: |s0.flags| <= i < |s.flags| ==> s.flags[i].dead && s.flags[i].marked && s.value[i].subj == 0)
    && s0.At(role).next <= s.At(role).next
    && forall w: nat :: s.At(role).Head(WordNode(w)) == s0.At(role).Head(WordNode(w))
  }

  lemma {:induction false} SameFirst(s0: Net, s: Net, role: Role, h: nat)
    requires Extends(s0, s, role) && h < |s0.flags|
    ensures s.FirstLive(role, h) == s0.FirstLive(role, h)
    decreases h
  {
    var next := s0.At(role).next;
    if h != 0 && s0.flags[h].dead && next[h] < h { SameFirst(s0, s, role, next[h]); }
  }

  /** The walks over live facts are those of the arena it started from. */
  lemma SameWalks(k: Iteration, s0: Net, s: Net)
    requires Extends(s0, s, k.role)
    requires forall w: nat :: s0.At(k.role).Head(WordNode(w)) < |s0.flags|
    ensures forall w: nat :: HeadOf(k, s, w) == HeadOf(k, s0, w)
    ensures forall g: nat :: g < |s0.flags| ==> NextOf(k, s, g) == NextOf(k, s0, g)
  {
    forall w: nat ensures HeadOf(k, s, w) == HeadOf(k, s0, w) { SameFirst(s0, s, k.role, s0.At(k.role).Head(WordNode(w))); }
    forall g: nat | g < |s0.flags| ensures NextOf(k, s, g) == NextOf(k, s0, g) {
      if s0.At(k.role).next[g] < g { SameFirst(s0, s, k.role, s0.At(k.role).next[g]); }
    }
  }

  lemma SpecialExtends(s0: Net, s: Net, role: Role, verb: nat, obj: nat)
    requires Extends(s0, s, role)
    ensures Extends(s0, SpecialFact(s, verb, obj, true), role)
  {
  }

  lemma RecordExtends(s0: Net, s: Net, role: Role, hold: nat, v: nat)
    requires Extends(s0, s, role) && |s0.flags| <= hold < |s.flags|
    ensures Extends(s0, WithVerb(s, hold, v), role) && Extends(s0, WithObject(s, hold, v), role)
  {
  }

  // ----- The flattening of a concept ----------------------------------------------------------------

  /** A live fact on the list of a word. */
  ghost predicate OnWord(k: Iteration, s0: Net, g: nat) {
    && 0 < g < |s0.value| && g < |s0.flags| && LiveUnder(s0, k.role, WordNode(Owner(k, s0, g)), g)
  }

  function Owner(k: Iteration, s0: Net, g: nat): nat
    requires g < |s0.value|
  {
    Meaning2Word(s0.value[g].At(k.role))
  }

  /** What the iteration runs on: a lawful arena in which no live fact is taken for a record of the
    * iterator, and nested concepts that do not lead back to themselves. */
  ghost predicate Ready(k: Iteration, s0: Net, rank: nat -> nat) {
    && Threaded(s0)
    && (forall g: nat :: OnWord(k, s0, g) ==> !s0.flags[g].marked)
    && (forall g: nat :: OnWord(k, s0, g) && s0.value[g].verb == k.verb && k.Nests(s0.value[g]) ==>
          rank(Meaning2Word(k.Field(s0.value[g]))) < rank(Owner(k, s0, g)))
  }

  lemma HeadOnWord(k: Iteration, s0: Net, w: nat)
    requires Threaded(s0)
    ensures var h := HeadOf(k, s0, w); h == 0 || (OnWord(k, s0, h) && Owner(k, s0, h) == w)
  {
    hide Threaded;
    HeadIsNewest(s0, k.role, WordNode(w));
  }

  lemma NextOnWord(k: Iteration, s0: Net, g: nat)
    requires Threaded(s0) && OnWord(k, s0, g)
    ensures var n := NextOf(k, s0, g); n < g && (n == 0 || (OnWord(k, s0, n) && Owner(k, s0, n) == Owner(k, s0, g)))
  {
    hide Threaded;
    NextIsNewest(s0, k.role, WordNode(Owner(k, s0, g)), g);
  }

  ghost function Height(k: Iteration, s0: Net, rank: nat -> nat, g: nat): nat {
    if g == 0 || g >= |s0.value| then 0 else rank(Owner(k, s0, g)) + 1
  }

  /** The meanings from the fact `g` on, each nested concept replaced by its own, depth first. */
  ghost function FlatFrom(k: Iteration, s0: Net, rank: nat -> nat, g: nat): seq<nat>
    requires Ready(k, s0, rank) && (g == 0 || OnWord(k, s0, g))
    decreases Height(k, s0, rank, g), g
  {
    if g == 0 then []
    else
      NextOnWord(k, s0, g);
      var rest := FlatFrom(k, s0, rank, NextOf(k, s0, g));
      var v := s0.value[g];
      if v.verb != k.verb then rest
      else if !k.Nests(v) then [k.Field(v)] + rest
      else
        HeadOnWord(k, s0, Meaning2Word(k.Field(v)));
        FlatFrom(k, s0, rank, HeadOf(k, s0, Meaning2Word(k.Field(v)))) + rest
  }

  /** The number of rounds the loop needs for it, at most. */
  ghost function WorkFrom(k: Iteration, s0: Net, rank: nat -> nat, g: nat): nat
    requires Ready(k, s0, rank) && (g == 0 || OnWord(k, s0, g))
    decreases Height(k, s0, rank, g), g
  {
    if g == 0 then 0
    else
      NextOnWord(k, s0, g);
      var rest := WorkFrom(k, s0, rank, NextOf(k, s0, g));
      var v := s0.value[g];
      if v.verb != k.verb || !k.Nests(v) then 1 + rest
      else
        HeadOnWord(k, s0, Meaning2Word(k.Field(v)));
        2 + WorkFrom(k, s0, rank, HeadOf(k, s0, Meaning2Word(k.Field(v)))) + rest
  }

  /** Unfolding both by one fact. */
  lemma FlatStep(k: Iteration, s0: Net, rank: nat -> nat, g: nat)
    requires Ready(k, s0, rank) && OnWord(k, s0, g)
    ensures var n := NextOf(k, s0, g); var v := s0.value[g]; var h := HeadOf(k, s0, Meaning2Word(k.Field(v)));
            && (n == 0 || OnWord(k, s0, n)) && (h == 0 || OnWord(k, s0, h))
            && FlatFrom(k, s0, rank, g) ==
               (if v.verb != k.verb then [] else if !k.Nests(v) then [k.Field(v)] else FlatFrom(k, s0, rank, h)) + FlatFrom(k, s0, rank, n)
            && WorkFrom(k, s0, rank, g) ==
               (if v.verb != k.verb || !k.Nests(v) then 1 else 2 + WorkFrom(k, s0, rank, h)) + WorkFrom(k, s0, rank, n)
  {
    hide Threaded, OnWord, HeadOf, NextOf;
    OnWordIsInUse(k, s0, g);
    NextOnWord(k, s0, g);
    HeadOnWord(k, s0, Meaning2Word(k.Field(s0.value[g])));
  }

  lemma OnWordIsInUse(k: Iteration, s0: Net, g: nat)
    requires OnWord(k, s0, g)
    ensures 0 < g < |s0.value| && g < |s0.flags|
  {
  }

  // ----- The stack in the records ---------------------------------------------------------------------

  /** The frames from the record `x` on: each holds the place to go on from, and the frame above. */
  ghost predicate FramesOk(k: Iteration, s0: Net, s: Net, x: nat, hold: nat)
    decreases x
  {
    x == 0 ||
    (|s0.value| <= x < |s.value| && x != hold && s.value[x].verb < x && OnWord(k, s0, s.value[x].obj)
     && FramesOk(k, s0, s, s.value[x].verb, hold))
  }

  /** What is left to iterate over once the list in hand is done. */
  ghost function Above(k: Iteration, s0: Net, rank: nat -> nat, s: Net, x: nat, hold: nat): seq<nat>
    requires Ready(k, s0, rank) && FramesOk(k, s0, s, x, hold)
    decreases x
  {
    if x == 0 then []
    else
      NextOnWord(k, s0, s.value[x].obj);
      FlatFrom(k, s0, rank, NextOf(k, s0, s.value[x].obj)) + Above(k, s0, rank, s, s.value[x].verb, hold)
  }

  ghost function WorkAbove(k: Iteration, s0: Net, rank: nat -> nat, s: Net, x: nat, hold: nat): nat
    requires Ready(k, s0, rank) && FramesOk(k, s0, s, x, hold)
    decreases x
  {
    if x == 0 then 0
    else
      NextOnWord(k, s0, s.value[x].obj);
      1 + WorkFrom(k, s0, rank, NextOf(k, s0, s.value[x].obj)) + WorkAbove(k, s0, rank, s, s.value[x].verb, hold)
  }

  /** The frames depend on their own records only. */
  lemma {:induction false} AboveFrame(k: Iteration, s0: Net, rank: nat -> nat, s: Net, t: Net, x: nat, hold: nat, hold1: nat)
    requires Ready(k, s0, rank) && FramesOk(k, s0, s, x, hold) && |s.value| <= |t.value|
    requires forall i :: 0 <= i < |s.value| && i != hold ==> t.value[i] == s.value[i]
    requires hold1 == hold || hold1 >= |s.value|
    ensures FramesOk(k, s0, t, x, hold1)
    ensures Above(k, s0, rank, t, x, hold1) == Above(k, s0, rank, s, x, hold)
    ensures WorkAbove(k, s0, rank, t, x, hold1) == WorkAbove(k, s0, rank, s, x, hold)
    decreases x
  {
    hide Ready, OnWord, FlatFrom, WorkFrom, NextOf;
    if x != 0 { AboveFrame(k, s0, rank, s, t, s.value[x].verb, hold, hold1); }
  }

  function Top(s: Net, hold: nat): nat
    requires hold < |s.value|
  {
    if hold == 0 then 0 else s.value[hold].verb
  }

  /** The state of the loop is one the iteration can be in. */
  ghost predicate StateOk(k: Iteration, s0: Net, s: Net, f: nat, hold: nat) {
    && Extends(s0, s, k.role) && (f == 0 || OnWord(k, s0, f))
    && (hold == 0 || hold >= |s0.value|) && hold < |s.value|
    && FramesOk(k, s0, s, Top(s, hold), hold)
  }

  /** What the loop still has to find, and how many rounds it needs for all of it. */
  ghost function Rest(k: Iteration, s0: Net, rank: nat -> nat, s: Net, f: nat, hold: nat): seq<nat>
    requires Ready(k, s0, rank) && StateOk(k, s0, s, f, hold)
  {
    FlatFrom(k, s0, rank, f) + Above(k, s0, rank, s, Top(s, hold), hold)
  }

  ghost function Work(k: Iteration, s0: Net, rank: nat -> nat, s: Net, f: nat, hold: nat): nat
    requires Ready(k, s0, rank) && StateOk(k, s0, s, f, hold)
  {
    WorkFrom(k, s0, rank, f) + WorkAbove(k, s0, rank, s, Top(s, hold), hold)
  }

  /** Going down into a nested concept leaves what is to be found as it is. */
  lemma PushKeepsRest(k: Iteration, s0: Net, rank: nat -> nat, s: Net, f: nat, hold: nat, t: Net, f1: nat, hold1: nat)
    requires Ready(k, s0, rank) && StateOk(k, s0, s, f, hold) && f != 0
    requires s0.value[f].verb == k.verb && k.Nests(s0.value[f]) && f1 == HeadOf(k, s0, Meaning2Word(k.Field(s0.value[f])))
    requires Extends(s0, t, k.role)
    requires |t.value| > |s.value| && (forall i :: 0 <= i < |s.value| && i != hold ==> t.value[i] == s.value[i])
    requires t.value[|s.value|] == Triple(0, Top(s, hold), f)
    requires hold1 < |t.value| && t.value[hold1].verb == |s.value| && hold1 != 0 && (hold1 == hold || hold1 > |s.value|)
    ensures StateOk(k, s0, t, f1, hold1)
    ensures Rest(k, s0, rank, t, f1, hold1) == Rest(k, s0, rank, s, f, hold)
    ensures Work(k, s0, rank, t, f1, hold1) < Work(k, s0, rank, s, f, hold)
  {
    hide Ready, FlatFrom, WorkFrom, Extends, OnWord, HeadOf, NextOf, FramesOk, Above, WorkAbove;
    FlatStep(k, s0, rank, f);
    ExtendsRows(s0, s, k.role);
    FrameInUse(k, s0, s, Top(s, hold), hold);
    AboveFrame(k, s0, rank, s, t, Top(s, hold), hold, hold1);
    PushedFrame(k, s0, rank, t, f, |s.value|, Top(s, hold), hold1);
    var a, b, c := FlatFrom(k, s0, rank, f1), FlatFrom(k, s0, rank, NextOf(k, s0, f)), Above(k, s0, rank, s, Top(s, hold), hold);
    assert a + b + c == a + (b + c);
  }

  lemma FrameInUse(k: Iteration, s0: Net, s: Net, x: nat, hold: nat)
    requires FramesOk(k, s0, s, x, hold) && |s.value| >= 1
    ensures x < |s.value|
  {
  }

  lemma ExtendsRows(s0: Net, s: Net, role: Role)
    requires Extends(s0, s, role)
    ensures |s0.value| == |s0.flags| <= |s.value| == |s.flags| && |s0.value| >= 1 && s.Rows()
  {
  }

  lemma PushedFrame(k: Iteration, s0: Net, rank: nat -> nat, t: Net, f: nat, g: nat, up: nat, hold1: nat)
    requires Ready(k, s0, rank) && |s0.value| <= g < |t.value| && g != hold1 && up < g
    requires t.value[g] == Triple(0, up, f) && OnWord(k, s0, f) && FramesOk(k, s0, t, up, hold1)
    ensures FramesOk(k, s0, t, g, hold1)
    ensures var n := NextOf(k, s0, f);
            && (n == 0 || OnWord(k, s0, n))
            && Above(k, s0, rank, t, g, hold1) == FlatFrom(k, s0, rank, n) + Above(k, s0, rank, t, up, hold1)
            && WorkAbove(k, s0, rank, t, g, hold1) == 1 + WorkFrom(k, s0, rank, n) + WorkAbove(k, s0, rank, t, up, hold1)
  {
    hide FlatFrom, WorkFrom, OnWord, NextOf, Threaded;
    NextOnWord(k, s0, f);
  }

  // ----- The loop ---------------------------------------------------------------------------------------

  /** What the loop answers: the first meaning left, and a state in which the others are left; or
    * nothing, with the stack empty, when none is left. */
  ghost predicate Answers(k: Iteration, s0: Net, rank: nat -> nat, left: seq<nat>, fuel: nat, r: (Net, nat, nat))
    requires Ready(k, s0, rank)
  {
    var (s, f, hold) := r;
    StateOk(k, s0, s, f, hold) && s.Rows() &&
    if left == [] then f == 0 && Top(s, hold) == 0
    else f != 0 && f < |s0.value| && s0.value[f].verb == k.verb && !k.Nests(s0.value[f])
         && Rest(k, s0, rank, s, f, hold) == left && Work(k, s0, rank, s, f, hold) <= fuel
  }

  lemma InExtension(s0: Net, s: Net, role: Role, f: nat)
    requires Extends(s0, s, role) && f < |s0.value|
    ensures f < |s.value| && s.value[f] == s0.value[f]
  {
  }

  lemma {:induction false} HuntAnswers(k: Iteration, s0: Net, rank: nat -> nat, s: Net, f: nat, hold: nat, fuel: nat)
    requires Ready(k, s0, rank) && StateOk(k, s0, s, f, hold) && s.Rows() && fuel >= Work(k, s0, rank, s, f, hold)
    ensures var r := Hunt(k, s, f, hold, fuel);
            r.Some? && Answers(k, s0, rank, Rest(k, s0, rank, s, f, hold), fuel, r.value)
    decreases fuel
  {
    hide Ready, StateOk, FlatFrom, WorkFrom, Above, WorkAbove, Rest, Work, OnWord, HeadOf, NextOf, Extends, SpecialFact;
    if f != 0 {
      HuntFact(k, s0, rank, s, f, hold);
      if s0.value[f].verb != k.verb {
        HuntAnswers(k, s0, rank, s, NextOf(k, s0, f), hold, fuel - 1);
      } else if k.Nests(s0.value[f]) {
        HuntNested(k, s0, rank, s, f, hold);
        var (t, f1, hold1) := Pushed(k, s, f, hold);
        HuntAnswers(k, s0, rank, t, f1, hold1, fuel - 1);
      }
    } else {
      HuntDry(k, s0, rank, s, hold);
      if Top(s, hold) != 0 {
        var t := WithVerb(s, hold, s.value[Top(s, hold)].verb);
        HuntAnswers(k, s0, rank, t, NextOf(k, s0, s.value[Top(s, hold)].obj), hold, fuel - 1);
      }
    }
  }

  /** The records and the place after going down. */
  function Pushed(k: Iteration, s: Net, f: nat, hold: nat): (Net, nat, nat)
    requires s.Rows() && f < |s.value| && hold < |s.value|
  {
    var g := |s.value|;
    var s1 := SpecialFact(s, Top(s, hold), f, true);
    var f1 := HeadOf(k, s1, Meaning2Word(k.Field(s.value[f])));
    if hold == 0 then (SpecialFact(s1, g, f1, true), f1, g + 1) else (WithVerb(s1, hold, g), f1, hold)
  }

  /** A fact of another verb is stepped over; one that answers is what is left first. */
  lemma HuntFact(k: Iteration, s0: Net, rank: nat -> nat, s: Net, f: nat, hold: nat)
    requires Ready(k, s0, rank) && StateOk(k, s0, s, f, hold) && f != 0
    ensures f < |s0.value| && f < |s.value| && s.value[f] == s0.value[f] && NextOf(k, s, f) == NextOf(k, s0, f) && hold < |s.value|
    ensures Work(k, s0, rank, s, f, hold) > 0
    ensures s0.value[f].verb != k.verb ==>
              var n := NextOf(k, s0, f);
              && StateOk(k, s0, s, n, hold) && Rest(k, s0, rank, s, n, hold) == Rest(k, s0, rank, s, f, hold)
              && Work(k, s0, rank, s, n, hold) < Work(k, s0, rank, s, f, hold)
    ensures s0.value[f].verb == k.verb && !k.Nests(s0.value[f]) ==>
              Rest(k, s0, rank, s, f, hold) != [] && Rest(k, s0, rank, s, f, hold)[0] == k.Field(s0.value[f])
  {
    hide Ready, FlatFrom, WorkFrom, OnWord, HeadOf, NextOf, FramesOk, Above, WorkAbove, Extends;
    OnWordIsInUse(k, s0, f);
    InExtension(s0, s, k.role, f);
    FlatStep(k, s0, rank, f);
    ReadyWalks(k, s0, rank, s);
    assert [] + FlatFrom(k, s0, rank, NextOf(k, s0, f)) == FlatFrom(k, s0, rank, NextOf(k, s0, f));
  }

  lemma HuntNested(k: Iteration, s0: Net, rank: nat -> nat, s: Net, f: nat, hold: nat)
    requires Ready(k, s0, rank) && StateOk(k, s0, s, f, hold) && f != 0 && s.Rows() && f < |s.value| && hold < |s.value|
    requires f < |s0.value| && s0.value[f].verb == k.verb && k.Nests(s0.value[f]) && s.value[f] == s0.value[f]
    ensures var (t, f1, hold1) := Pushed(k, s, f, hold);
            && StateOk(k, s0, t, f1, hold1) && t.Rows()
            && Rest(k, s0, rank, t, f1, hold1) == Rest(k, s0, rank, s, f, hold)
            && Work(k, s0, rank, t, f1, hold1) < Work(k, s0, rank, s, f, hold)
  {
    hide Ready, FlatFrom, WorkFrom, OnWord, HeadOf, NextOf, FramesOk, Above, WorkAbove, Extends, Rest, Work;
    ExtendsRows(s0, s, k.role);
    PushExtends(k, s0, s, f, hold);
    var s1 := SpecialFact(s, Top(s, hold), f, true);
    ReadyWalks(k, s0, rank, s1);
    var (t, f1, hold1) := Pushed(k, s, f, hold);
    ExtendsRows(s0, t, k.role);
    PushValues(k, s, f, hold);
    PushKeepsRest(k, s0, rank, s, f, hold, t, f1, hold1);
  }

  lemma PushExtends(k: Iteration, s0: Net, s: Net, f: nat, hold: nat)
    requires Extends(s0, s, k.role) && s.Rows() && f < |s.value| && hold < |s.value| && (hold == 0 || hold >= |s0.value|)
    ensures Extends(s0, SpecialFact(s, Top(s, hold), f, true), k.role) && Extends(s0, Pushed(k, s, f, hold).0, k.role)
  {
    hide Extends, HeadOf;
    ExtendsRows(s0, s, k.role);
    var s1 := SpecialFact(s, Top(s, hold), f, true);
    SpecialExtends(s0, s, k.role, Top(s, hold), f);
    SpecialExtends(s0, s1, k.role, |s.value|, HeadOf(k, s1, Meaning2Word(k.Field(s.value[f]))));
    if hold != 0 { RecordExtends(s0, s1, k.role, hold, |s.value|); }
  }

  lemma PushValues(k: Iteration, s: Net, f: nat, hold: nat)
    requires s.Rows() && f < |s.value| && hold < |s.value|
    ensures var (t, f1, hold1) := Pushed(k, s, f, hold);
            && |t.value| > |s.value| && (forall i :: 0 <= i < |s.value| && i != hold ==> t.value[i] == s.value[i])
            && t.value[|s.value|] == Triple(0, Top(s, hold), f)
            && hold1 < |t.value| && t.value[hold1].verb == |s.value| && hold1 != 0 && (hold1 == hold || hold1 > |s.value|)
            && f1 == HeadOf(k, SpecialFact(s, Top(s, hold), f, true), Meaning2Word(k.Field(s.value[f])))
  {
    hide HeadOf;
  }

  /** At the end of a list the loop goes back up, if it can. */
  lemma HuntDry(k: Iteration, s0: Net, rank: nat -> nat, s: Net, hold: nat)
    requires Ready(k, s0, rank) && StateOk(k, s0, s, 0, hold) && s.Rows()
    ensures hold < |s.value|
    ensures var x := Top(s, hold);
            && x < |s.value|
            && (x == 0 ==> Rest(k, s0, rank, s, 0, hold) == [])
            && (x != 0 ==>
                  var t := WithVerb(s, hold, s.value[x].verb); var n := NextOf(k, s0, s.value[x].obj);
                  && n == NextOf(k, s, s.value[x].obj) && t.Rows() && hold != 0
                  && StateOk(k, s0, t, n, hold) && Rest(k, s0, rank, t, n, hold) == Rest(k, s0, rank, s, 0, hold)
                  && Work(k, s0, rank, t, n, hold) < Work(k, s0, rank, s, 0, hold))
  {
    hide Ready, FlatFrom, WorkFrom, OnWord, HeadOf, NextOf, Extends;
    ExtendsRows(s0, s, k.role);
    ReadyWalks(k, s0, rank, s);
    NoneFlat(k, s0, rank);
    var x := Top(s, hold);
    if x != 0 {
      var p := s.value[x].obj;
      OnWordIsInUse(k, s0, p);
      var t := WithVerb(s, hold, s.value[x].verb);
      RecordExtends(s0, s, k.role, hold, s.value[x].verb);
      FlatStep(k, s0, rank, p);
      AboveFrame(k, s0, rank, s, t, s.value[x].verb, hold, hold);
    }
  }

  lemma NoneFlat(k: Iteration, s0: Net, rank: nat -> nat)
    requires Ready(k, s0, rank)
    ensures FlatFrom(k, s0, rank, 0) == [] && WorkFrom(k, s0, rank, 0) == 0
  {
    hide Threaded, OnWord;
  }

  lemma ReadyWalks(k: Iteration, s0: Net, rank: nat -> nat, s: Net)
    requires Ready(k, s0, rank) && Extends(s0, s, k.role)
    ensures forall w: nat :: HeadOf(k, s, w) == HeadOf(k, s0, w)
    ensures forall g: nat :: g < |s0.flags| ==> NextOf(k, s, g) == NextOf(k, s0, g)
  {
    hide OnWord, Extends;
    HeadsAreInUse(s0);
    SameWalks(k, s0, s);
  }

  // ----- Calls --------------------------------------------------------------------------------------------

  /** Where an iteration may stand between two calls: before the first, at a fact, or at a record. */
  ghost predicate At(k: Iteration, s0: Net, s: Net, current: nat) {
    && Extends(s0, s, k.role) && current < |s.value|
    && (current == 0 || OnWord(k, s0, current)
        || (|s0.value| <= current && OnWord(k, s0, s.value[current].obj) && FramesOk(k, s0, s, s.value[current].verb, current)))
  }

  /** The fact the next call goes on from, and the record it holds. */
  ghost function Resume(k: Iteration, s0: Net, s: Net, word: nat, current: nat): (nat, nat)
    requires Threaded(s0) && At(k, s0, s, current)
  {
    if current == 0 then (HeadOf(k, s0, word), 0)
    else if current < |s0.value| then (NextOf(k, s0, current), 0)
    else (NextOf(k, s0, s.value[current].obj), current)
  }

  lemma ResumeIsOk(k: Iteration, s0: Net, s: Net, word: nat, current: nat)
    requires Threaded(s0) && At(k, s0, s, current)
    ensures var (f, hold) := Resume(k, s0, s, word, current); StateOk(k, s0, s, f, hold)
  {
    hide OnWord, HeadOf, NextOf, Threaded, FramesOk;
    ExtendsRows(s0, s, k.role);
    HeadOnWord(k, s0, word);
    NoFrames(k, s0, s);
    if current != 0 {
      if current < |s0.value| { OnWordOnly(k, s0, current); NextOnWord(k, s0, current); } else { NotOnWord(k, s0, current); NextOnWord(k, s0, s.value[current].obj); }
    }
  }

  lemma NoFrames(k: Iteration, s0: Net, s: Net)
    ensures FramesOk(k, s0, s, 0, 0)
  {
  }

  lemma OnWordOnly(k: Iteration, s0: Net, current: nat)
    ensures OnWord(k, s0, current) ==> 0 < current < |s0.value|
  {
  }

  lemma NotOnWord(k: Iteration, s0: Net, current: nat)
    requires current >= |s0.value|
    ensures !OnWord(k, s0, current)
  {
  }

  /** The answers still to come. */
  ghost function Pending(k: Iteration, s0: Net, rank: nat -> nat, s: Net, word: nat, current: nat): seq<nat>
    requires Ready(k, s0, rank) && At(k, s0, s, current)
  {
    ResumeIsOk(k, s0, s, word, current);
    var (f, hold) := Resume(k, s0, s, word, current);
    Rest(k, s0, rank, s, f, hold)
  }

  ghost function PendingWork(k: Iteration, s0: Net, rank: nat -> nat, s: Net, word: nat, current: nat): nat
    requires Ready(k, s0, rank) && At(k, s0, s, current)
  {
    ResumeIsOk(k, s0, s, word, current);
    var (f, hold) := Resume(k, s0, s, word, current);
    Work(k, s0, rank, s, f, hold)
  }

  lemma CallResumes(k: Iteration, s0: Net, rank: nat -> nat, s: Net, word: nat, current: nat, fuel: nat)
    requires Ready(k, s0, rank) && At(k, s0, s, current)
    ensures s.Rows() && current < |s.value|
    ensures var (f, hold) := Resume(k, s0, s, word, current); hold < |s.value|
    ensures var (f, hold) := Resume(k, s0, s, word, current); var r := Hunt(k, s, f, hold, fuel);
            Call(k, s, word, current, fuel) ==
            if r.None? then None
            else
              (var (s1, f1, hold1) := r.value;
               if f1 == 0 || f1 >= |s1.value| then Some((s1, None, current))
               else if hold1 != 0 && hold1 < |s1.value| then Some((WithObject(s1, hold1, f1), Some(k.Field(s1.value[f1])), hold1))
               else Some((s1, Some(k.Field(s1.value[f1])), f1)))
  {
    hide HeadOf, NextOf, Threaded, FramesOk, Hunt;
    ExtendsRows(s0, s, k.role);
    ReadyWalks(k, s0, rank, s);
    if current != 0 { CurrentKind(k, s0, rank, s, current); }
  }

  /** A fact is told from a record by its flag. */
  lemma CurrentKind(k: Iteration, s0: Net, rank: nat -> nat, s: Net, current: nat)
    requires Ready(k, s0, rank) && At(k, s0, s, current) && current != 0
    ensures current < |s.flags| && (s.flags[current].marked <==> current >= |s0.value|)
    ensures current >= |s0.value| ==> s.value[current].obj < |s0.flags|
  {
    hide Threaded, FramesOk;
  }

  /** A call answers with the first meaning to come and leaves the others, and fails when none is
    * to come. */
  lemma CallAnswers(k: Iteration, s0: Net, rank: nat -> nat, s: Net, word: nat, current: nat, fuel: nat)
    requires Ready(k, s0, rank) && At(k, s0, s, current) && fuel >= PendingWork(k, s0, rank, s, word, current)
    ensures s.Rows() && Call(k, s, word, current, fuel).Some?
    ensures var (s1, answer, current1) := Call(k, s, word, current, fuel).value;
            var left := Pending(k, s0, rank, s, word, current);
            if left == [] then answer == None
            else answer == Some(left[0]) && At(k, s0, s1, current1) && s1.Rows()
                 && Pending(k, s0, rank, s1, word, current1) == left[1..] && PendingWork(k, s0, rank, s1, word, current1) <= fuel
  {
    hide Ready, OnWord, HeadOf, NextOf, FramesOk, Hunt, Call, FlatFrom, WorkFrom, Rest, Work, StateOk, Extends, WithObject;
    CallResumes(k, s0, rank, s, word, current, fuel);
    ReadyThreaded(k, s0, rank);
    ResumeIsOk(k, s0, s, word, current);
    var (f, hold) := Resume(k, s0, s, word, current);
    HuntAnswers(k, s0, rank, s, f, hold, fuel);
    var (s1, f1, hold1) := Hunt(k, s, f, hold, fuel).value;
    if Rest(k, s0, rank, s, f, hold) != [] { Settles(k, s0, rank, s1, f1, hold1, word); }
  }

  lemma ReadyThreaded(k: Iteration, s0: Net, rank: nat -> nat)
    requires Ready(k, s0, rank)
    ensures Threaded(s0)
  {
    hide Threaded;
  }

  /** Keeping the place of an answer, as the fact or in the record held. */
  lemma Settles(k: Iteration, s0: Net, rank: nat -> nat, s: Net, f: nat, hold: nat, word: nat)
    requires Ready(k, s0, rank) && StateOk(k, s0, s, f, hold) && f != 0 && f < |s0.value| && s.Rows()
    requires s0.value[f].verb == k.verb && !k.Nests(s0.value[f])
    ensures hold < |s.value| && f < |s.value| && s.value[f] == s0.value[f]
    ensures var t := if hold != 0 then WithObject(s, hold, f) else s; var current := if hold != 0 then hold else f;
            var left := Rest(k, s0, rank, s, f, hold);
            && At(k, s0, t, current) && t.Rows() && left != [] && left[0] == k.Field(s0.value[f])
            && Pending(k, s0, rank, t, word, current) == left[1..]
            && PendingWork(k, s0, rank, t, word, current) <= Work(k, s0, rank, s, f, hold)
  {
    hide Threaded, HeadOf, NextOf, FlatFrom, WorkFrom, Extends, Above, WorkAbove, OnWord, FramesOk;
    ExtendsRows(s0, s, k.role);
    InExtension(s0, s, k.role, f);
    FlatStep(k, s0, rank, f);
    var t := if hold != 0 then WithObject(s, hold, f) else s;
    var current := if hold != 0 then hold else f;
    if hold != 0 { RecordExtends(s0, s, k.role, hold, f); }
    AboveFrame(k, s0, rank, s, t, Top(s, hold), hold, hold);
    ResumeIsOk(k, s0, t, word, current);
  }

  /** The answers of up to `n` calls in a row, until one fails. */
  function Calls(k: Iteration, s: Net, word: nat, current: nat, fuel: nat, n: nat): seq<nat>
    decreases n
  {
    if n == 0 || !s.Rows() || current >= |s.value| then []
    else
      var r := Call(k, s, word, current, fuel);
      if r.None? || r.value.1.None? then [] else [r.value.1.value] + Calls(k, r.value.0, word, r.value.2, fuel, n - 1)
  }

  lemma {:induction false} CallsAnswer(k: Iteration, s0: Net, rank: nat -> nat, s: Net, word: nat, current: nat, fuel: nat, n: nat)
    requires Ready(k, s0, rank) && At(k, s0, s, current) && fuel >= PendingWork(k, s0, rank, s, word, current)
    requires n > |Pending(k, s0, rank, s, word, current)|
    ensures Calls(k, s, word, current, fuel, n) == Pending(k, s0, rank, s, word, current)
    decreases n
  {
    hide Ready, At, Pending, PendingWork, Call;
    CallAnswers(k, s0, rank, s, word, current, fuel);
    AtBounds(k, s0, s, current);
    var left := Pending(k, s0, rank, s, word, current);
    if left != [] {
      var (s1, answer, current1) := Call(k, s, word, current, fuel).value;
      CallsAnswer(k, s0, rank, s1, word, current1, fuel, n - 1);
      assert left == [left[0]] + left[1..];
    }
  }

  lemma AtBounds(k: Iteration, s0: Net, s: Net, current: nat)
    requires At(k, s0, s, current)
    ensures current < |s.value|
  {
  }

  /** Successive calls of the iterator on a word, over nested concepts that do not lead back to
    * themselves, answer exactly the depth-first flattening of the concept in the order of its lists
    * and then fail; every call ends. */
  lemma IteratorFlattens(k: Iteration, s0: Net, rank: nat -> nat, word: nat, fuel: nat, n: nat)
    requires Ready(k, s0, rank)
    ensures var h := HeadOf(k, s0, word);
            && (h == 0 || OnWord(k, s0, h))
            && (fuel >= WorkFrom(k, s0, rank, h) && n > |FlatFrom(k, s0, rank, h)| ==>
                  Calls(k, s0, word, 0, fuel, n) == FlatFrom(k, s0, rank, h))
  {
    hide Calls, FlatFrom, WorkFrom, OnWord;
    ReadyThreaded(k, s0, rank);
    HeadOnWord(k, s0, word);
    StartsAt(k, s0, rank, word);
    var h := HeadOf(k, s0, word);
    if fuel >= WorkFrom(k, s0, rank, h) && n > |FlatFrom(k, s0, rank, h)| { CallsAnswer(k, s0, rank, s0, word, 0, fuel, n); }
  }

  lemma StartsAt(k: Iteration, s0: Net, rank: nat -> nat, word: nat)
    requires Ready(k, s0, rank)
    ensures var h := HeadOf(k, s0, word);
            && (h == 0 || OnWord(k, s0, h)) && At(k, s0, s0, 0)
            && Pending(k, s0, rank, s0, word, 0) == FlatFrom(k, s0, rank, h)
            && PendingWork(k, s0, rank, s0, word, 0) == WorkFrom(k, s0, rank, h)
  {
    hide FlatFrom, WorkFrom, OnWord, HeadOf;
    ReadyThreaded(k, s0, rank);
    HeadOnWord(k, s0, word);
    RecordsOnly(k, s0);
    ResumeIsOk(k, s0, s0, word, 0);
    assert FlatFrom(k, s0, rank, HeadOf(k, s0, word)) + [] == FlatFrom(k, s0, rank, HeadOf(k, s0, word));
  }

  lemma RecordsOnly(k: Iteration, s0: Net)
    requires Threaded(s0)
    ensures s0.Rows() && Extends(s0, s0, k.role)
  {
  }

  // ----- A record that cannot be freed --------------------------------------------------------------------

  /** While it hunts, the loop changes the stack in the record it holds, and nothing else of it. */
  lemma {:induction false} HuntKeepsHeld(k: Iteration, s: Net, f: nat, hold: nat, fuel: nat)
    requires s.Rows() && 0 < hold < |s.value|
    ensures var r := Hunt(k, s, f, hold, fuel);
            r.Some? ==> r.value.2 == hold && hold < |r.value.0.value| && r.value.0.value[hold].obj == s.value[hold].obj
                        && r.value.0.value[hold].subj == s.value[hold].subj
    decreases fuel
  {
    hide HeadOf, NextOf;
    if f != 0 && f < |s.value| {
      if fuel > 0 {
        HuntKeepsHeld(k, s, NextOf(k, s, f), hold, fuel - 1);
        if s.value[f].verb == k.verb && k.Nests(s.value[f]) {
          var (t, f1, hold1) := Pushed(k, s, f, hold);
          HuntKeepsHeld(k, t, f1, hold, fuel - 1);
        }
      }
    } else {
      var x := s.value[hold].verb;
      if x != 0 && x < |s.value| && fuel > 0 {
        HuntKeepsHeld(k, WithVerb(s, hold, s.value[x].verb), NextOf(k, s, s.value[x].obj), hold, fuel - 1);
      }
    }
  }

  /** The first fact from `f` on that leads into a nested concept, 0 if there is none. */
  ghost function FirstNest(k: Iteration, s0: Net, f: nat): (g: nat)
    requires Threaded(s0) && (f == 0 || OnWord(k, s0, f))
    ensures g != 0 ==> OnWord(k, s0, g) && g <= f && s0.value[g].verb == k.verb && k.Nests(s0.value[g])
    decreases f
  {
    if f == 0 then 0
    else if s0.value[f].verb == k.verb && k.Nests(s0.value[f]) then f
    else
      NextOnWord(k, s0, f);
      FirstNest(k, s0, NextOf(k, s0, f))
  }

  /** With nothing to find and no record held, the loop steps on to the first fact that nests, and ends
    * without a change if there is none. */
  lemma {:induction false} HuntToNest(k: Iteration, s0: Net, rank: nat -> nat, s: Net, f: nat, fuel: nat) returns (left: nat)
    requires Ready(k, s0, rank) && StateOk(k, s0, s, f, 0) && s.Rows() && fuel >= Work(k, s0, rank, s, f, 0)
    requires Rest(k, s0, rank, s, f, 0) == []
    ensures Threaded(s0) && (f == 0 || OnWord(k, s0, f))
    ensures var g := FirstNest(k, s0, f);
            if g == 0 then Hunt(k, s, f, 0, fuel) == Some((s, 0, 0))
            else Hunt(k, s, f, 0, fuel) == Hunt(k, s, g, 0, left)
    decreases f
  {
    hide Ready, Threaded, FlatFrom, WorkFrom, Above, WorkAbove, Rest, Work, OnWord, HeadOf, NextOf, Extends, SpecialFact, FramesOk;
    ReadyThreaded(k, s0, rank);
    left := fuel;
    if f != 0 {
      HuntFact(k, s0, rank, s, f, 0);
      if s0.value[f].verb != k.verb {
        NextOnWord(k, s0, f);
        left := HuntToNest(k, s0, rank, s, NextOf(k, s0, f), fuel - 1);
      }
    }
  }

  /** A call that holds no record and fails: if it met no nested concept it changes nothing, and
    * otherwise it leaves a record without a verb, its object the first fact of the first nested concept
    * it met. Freeing such a record does no harm if and only if that concept had a fact: FreeFact takes
    * it for the death record of its object, or of no fact. */
  lemma FailedRecordIsFreedIff(k: Iteration, s0: Net, rank: nat -> nat, s: Net, word: nat, current: nat, fuel: nat, t: Net)
    requires Ready(k, s0, rank) && At(k, s0, s, current) && fuel >= PendingWork(k, s0, rank, s, word, current)
    requires current < |s0.value| && Pending(k, s0, rank, s, word, current) == []
    requires t.Rows() && |t.flags| > 1
    ensures s.Rows() && Call(k, s, word, current, fuel).Some?
    ensures Threaded(s0) && var f := Resume(k, s0, s, word, current).0; f == 0 || OnWord(k, s0, f)
    ensures var (s1, answer, current1) := Call(k, s, word, current, fuel).value;
            var n := FirstNest(k, s0, Resume(k, s0, s, word, current).0); var hold := |s.value| + 1;
            && answer == None && current1 == current
            && if n == 0 then s1 == s
               else
                 (var h := HeadOf(k, s0, Meaning2Word(k.Field(s0.value[n])));
                  && hold < |s1.value| && s1.value[hold] == Triple(0, 0, h)
                  && (t.value[|t.flags| - 1] == s1.value[hold] ==> (Freeable(t) <==> h != 0)))
  {
    hide Ready, Hunt, FlatFrom, WorkFrom, HeadOf, NextOf, OnWord, StateOk, Rest, Work, Extends, FramesOk, FirstNest, Threaded;
    ReadyThreaded(k, s0, rank);
    ResumeIsOk(k, s0, s, word, current);
    CallResumes(k, s0, rank, s, word, current, fuel);
    var f := Resume(k, s0, s, word, current).0;
    HuntAnswers(k, s0, rank, s, f, 0, fuel);
    FirstIsOnWord(k, s0, s, f, 0);
    StateExtends(k, s0, s, f, 0);
    var left := HuntToNest(k, s0, rank, s, f, fuel);
    var n := FirstNest(k, s0, f);
    if n != 0 {
      OnWordIsInUse(k, s0, n);
      ExtendsRows(s0, s, k.role);
      NestLeaves(k, s0, rank, s, n, left);
    }
  }

  lemma StateExtends(k: Iteration, s0: Net, s: Net, f: nat, hold: nat)
    requires StateOk(k, s0, s, f, hold)
    ensures Extends(s0, s, k.role)
  {
    hide OnWord, FramesOk, Extends;
  }

  lemma FirstIsOnWord(k: Iteration, s0: Net, s: Net, f: nat, hold: nat)
    requires StateOk(k, s0, s, f, hold)
    ensures f == 0 || OnWord(k, s0, f)
  {
    hide OnWord, FramesOk, Extends;
  }

  /** What the loop leaves of the record it makes when it goes down and finds nothing. */
  lemma NestLeaves(k: Iteration, s0: Net, rank: nat -> nat, s: Net, n: nat, fuel: nat)
    requires Ready(k, s0, rank) && Extends(s0, s, k.role) && s.Rows() && OnWord(k, s0, n)
    requires n < |s0.value| && s0.value[n].verb == k.verb && k.Nests(s0.value[n])
    requires n < |s.value| && Hunt(k, s, n, 0, fuel).Some?
    requires var (s1, f1, hold1) := Hunt(k, s, n, 0, fuel).value; f1 == 0 && (hold1 < |s1.value| ==> Top(s1, hold1) == 0)
    ensures var (s1, f1, hold1) := Hunt(k, s, n, 0, fuel).value;
            hold1 == |s.value| + 1 < |s1.value| && s1.value[hold1] == Triple(0, 0, HeadOf(k, s0, Meaning2Word(k.Field(s0.value[n]))))
  {
    hide Ready, Hunt, HeadOf, NextOf, OnWord, Extends;
    OnWordIsInUse(k, s0, n);
    InExtension(s0, s, k.role, n);
    HuntPushes(k, s, n, fuel);
    var (p, f1, hold) := Pushed(k, s, n, 0);
    SpecialExtends(s0, s, k.role, 0, n);
    ReadyWalks(k, s0, rank, SpecialFact(s, 0, n, true));
    HuntKeepsHeld(k, p, f1, hold, fuel - 1);
  }

  /** A call that fails with a record held leaves the last answer in it: such a record can be freed. */
  lemma HeldRecordIsFreed(k: Iteration, s0: Net, rank: nat -> nat, s: Net, word: nat, current: nat, fuel: nat, t: Net)
    requires Ready(k, s0, rank) && At(k, s0, s, current) && fuel >= PendingWork(k, s0, rank, s, word, current)
    requires current >= |s0.value| && Pending(k, s0, rank, s, word, current) == []
    requires t.Rows() && |t.flags| > 1
    ensures s.Rows() && current < |s.value| && Call(k, s, word, current, fuel).Some?
    ensures var (s1, answer, current1) := Call(k, s, word, current, fuel).value;
            && answer == None && current1 == current && current < |s1.value|
            && s1.value[current] == Triple(0, 0, s.value[current].obj) && OnWord(k, s0, s.value[current].obj)
            && (t.value[|t.flags| - 1] == s1.value[current] ==> Freeable(t))
  {
    hide Ready, Hunt, FlatFrom, WorkFrom, HeadOf, NextOf, StateOk, Rest, Work, Extends, FramesOk, Threaded, LiveUnder;
    ReadyThreaded(k, s0, rank);
    ResumeIsOk(k, s0, s, word, current);
    CallResumes(k, s0, rank, s, word, current, fuel);
    HeldIs(k, s0, s, current);
    var f := Resume(k, s0, s, word, current).0;
    HuntAnswers(k, s0, rank, s, f, current, fuel);
    HuntKeepsHeld(k, s, f, current, fuel);
  }

  lemma HeldIs(k: Iteration, s0: Net, s: Net, current: nat)
    requires At(k, s0, s, current) && current >= |s0.value|
    ensures 0 < current < |s.value| && s.value[current].subj == 0 && OnWord(k, s0, s.value[current].obj)
  {
    hide FramesOk;
  }

  lemma HuntPushes(k: Iteration, s: Net, f: nat, fuel: nat)
    requires s.Rows() && 0 < f < |s.value| && s.value[f].verb == k.verb && k.Nests(s.value[f])
    requires Hunt(k, s, f, 0, fuel).Some?
    ensures fuel > 0
    ensures var (p, f1, hold) := Pushed(k, s, f, 0);
            && p.Rows() && hold == |s.value| + 1 < |p.value| && p.value[hold] == Triple(0, |s.value|, f1)
            && f1 == HeadOf(k, SpecialFact(s, 0, f, true), Meaning2Word(k.Field(s.value[f])))
            && Hunt(k, s, f, 0, fuel) == Hunt(k, p, f1, hold, fuel - 1)
  {
    hide HeadOf, NextOf;
  }

  // ----- The iterator as the program runs it ------------------------------------------------------------------

  class ConceptIterator {
    const k: Iteration
    var net: Net
    var currentIterator: nat

    constructor (k: Iteration, net: Net)
      ensures this.k == k && this.net == net && currentIterator == 0
    {
      this.k, this.net, currentIterator := k, net, 0;
    }

    /** Down into a nested concept: the place goes into a new record, and that on top of the stack. */
    method Push(f: nat, hold: nat) returns (f1: nat, hold1: nat)
      requires net.Rows() && f < |net.value| && hold < |net.value|
      modifies this`net
      ensures net.Rows() && (net, f1, hold1) == Pushed(k, old(net), f, hold) && hold1 < |net.value|
    {
      hide HeadOf;
      PushValues(k, net, f, hold);
      var e := Meaning2Word(k.Field(net.value[f]));
      var g := |net.value|;
      net := SpecialFact(net, Top(net, hold), f, true);
      f1 := HeadOf(k, net, e);
      if hold == 0 {
        net := SpecialFact(net, g, f1, true);
        hold1 := g + 1;
      } else {
        net := WithVerb(net, hold, g);
        hold1 := hold;
      }
    }

    /** The loop with its return to higher levels. `fuel` bounds its rounds. */
    method HuntOn(f0: nat, hold0: nat, ghost fuel0: nat) returns (f: nat, hold: nat)
      requires net.Rows() && hold0 < |net.value| && Hunt(k, net, f0, hold0, fuel0).Some?
      modifies this`net
      ensures net.Rows() && hold < |net.value| && Hunt(k, old(net), f0, hold0, fuel0) == Some((net, f, hold))
      ensures f == 0 || f < |net.value|
    {
      hide NextOf, HeadOf, Pushed, Iteration.Nests;
      f, hold := f0, hold0;
      ghost var fuel := fuel0;
      while true
        invariant net.Rows() && hold < |net.value|
        invariant Hunt(k, net, f, hold, fuel) == Hunt(k, old(net), f0, hold0, fuel0)
        decreases fuel
      {
        HuntStep(k, net, f, hold, fuel);
        if f != 0 && f < |net.value| {
          if net.value[f].verb != k.verb {
            f := NextOf(k, net, f);
          } else if k.Nests(net.value[f]) {
            f, hold := Push(f, hold);
          } else {
            return;
          }
        } else {
          f := 0;
          if hold == 0 || net.value[hold].verb == 0 || net.value[hold].verb >= |net.value| { return; }
          var x := net.value[hold].verb;
          f := NextOf(k, net, net.value[x].obj);
          net := WithVerb(net, hold, net.value[x].verb);
        }
        fuel := fuel - 1;
      }
    }

    /** IteratorCode: the next answer, None when there is none. */
    method Next(word: nat, ghost s0: Net, ghost rank: nat -> nat, ghost fuel: nat) returns (answer: Option<nat>)
      requires Ready(k, s0, rank) && At(k, s0, net, currentIterator) && fuel >= PendingWork(k, s0, rank, net, word, currentIterator)
      modifies this
      ensures var left := old(Pending(k, s0, rank, net, word, currentIterator));
              if left == [] then answer == None
              else answer == Some(left[0]) && At(k, s0, net, currentIterator) && Pending(k, s0, rank, net, word, currentIterator) == left[1..]
    {
      hide Ready, At, Pending, PendingWork, Hunt, HeadOf, NextOf;
      CallAnswers(k, s0, rank, net, word, currentIterator, fuel);
      AtBounds(k, s0, net, currentIterator);
      var hold := if currentIterator != 0 && net.flags[currentIterator].marked then currentIterator else 0;
      var f := if currentIterator == 0 then HeadOf(k, net, word)
               else NextOf(k, net, if hold != 0 then net.value[hold].obj else currentIterator);
      f, hold := HuntOn(f, hold, fuel);
      if f == 0 { return None; }
      answer := Some(k.Field(net.value[f]));
      if hold != 0 {
        net := WithObject(net, hold, f);
        f := hold;
      }
      currentIterator := f;
    }
  }

  lemma HuntStep(k: Iteration, s: Net, f: nat, hold: nat, fuel: nat)
    requires s.Rows() && hold < |s.value| && Hunt(k, s, f, hold, fuel).Some?
    ensures var r := Hunt(k, s, f, hold, fuel);
            if f != 0 && f < |s.value| then
              if s.value[f].verb != k.verb then fuel > 0 && r == Hunt(k, s, NextOf(k, s, f), hold, fuel - 1)
              else if k.Nests(s.value[f]) then
                var (t, f1, hold1) := Pushed(k, s, f, hold); fuel > 0 && t.Rows() && hold1 < |t.value| && r == Hunt(k, t, f1, hold1, fuel - 1)
              else r == Some((s, f, hold))
            else
              var x := s.value[hold].verb;
              if hold == 0 || x == 0 || x >= |s.value| then r == Some((s, 0, hold))
              else fuel > 0 && r == Hunt(k, WithVerb(s, hold, s.value[x].verb), NextOf(k, s, s.value[x].obj), hold, fuel - 1)
  {
    hide NextOf, HeadOf, Iteration.Nests;
  }
}
