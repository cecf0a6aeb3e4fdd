/** The fact store in place: the FACT array with its bump pointer, and the list heads of the
  * dictionary words. Every method is proved equal to an operation on its `Net`. */
module FactStores {
  import opened Threads
  import opened Facts
  import opened FactRows
  import opened FactLaws
  import opened FactKill
  import opened FactUndo
  import opened FactFind
  import opened ThreadSurgery
  import opened FactRevise

  class FactStore {
    const facts: array<Row>
    const words: array<Triple>
    var factFree: nat
    var wordFree: nat
    var planning: bool
    /** The last fact of the pre-built layers. */
    var built: nat

    /** The columns of the rows in use and the heads of the words in use. */
    ghost var net: Net

    ghost predicate Valid()
      reads this, facts, words
    {
      && factFree < facts.Length && wordFree <= words.Length
      && facts[0] == EMPTY_ROW
      && net == NetOf(facts[..factFree + 1], words[..wordFree])
    }

    lemma NetIsShaped()
      requires Valid()
      ensures net.Shaped() && |net.flags| == factFree + 1 && factFree < facts.Length
      ensures forall w: nat :: WordNode(w) in net.subj.head <==> w < wordFree
    {
      HeadDomain(facts[..factFree + 1], words[..wordFree], Subject);
      HeadDomain(facts[..factFree + 1], words[..wordFree], Verb);
      HeadDomain(facts[..factFree + 1], words[..wordFree], Object);
    }

    lemma NetRow(i: nat)
      requires Valid() && i <= factFree
      ensures var s := net;
              && s.Rows() && |s.flags| == factFree + 1
              && s.flags[i] == facts[i].flags && s.value[i] == facts[i].value
              && s.subj.next[i] == facts[i].next.subj && s.verb.next[i] == facts[i].next.verb && s.obj.next[i] == facts[i].next.obj
              && forall role :: s.At(role).next[i] == facts[i].next.At(role)
    {
    }

    /** A store with room for `maxFacts` rows, the null row in use. */
    constructor (maxFacts: nat, maxWords: nat)
      requires maxFacts > 0
      ensures Valid() && fresh(facts) && fresh(words) && factFree == wordFree == built == 0 && !planning
      ensures facts.Length == maxFacts && words.Length == maxWords
    {
      facts := new Row[maxFacts](i => EMPTY_ROW);
      words := new Triple[maxWords](i => ZERO);
      factFree, wordFree, planning, built := 0, 0, false, 0;
      net := NetOf([EMPTY_ROW], []);
      new;
      assert facts[..1] == [EMPTY_ROW] && words[..0] == [];
    }

    /** A new dictionary word, its heads cleared. */
    method AllocateWord() returns (w: nat)
      requires Valid() && wordFree < words.Length
      modifies this`wordFree, this`net, words
      ensures Valid() && w == old(wordFree) && wordFree == w + 1
      ensures net == NewWord(old(net), w)
    {
      hide NetOf;
      w := wordFree;
      words[w] := ZERO;
      wordFree := w + 1;
      assert words[..wordFree] == old(words[..wordFree]) + [ZERO];
      AddWord(facts[..factFree + 1], old(words[..wordFree]));
      net := NewWord(net, w);
    }

    /** GetSubjectHead and its siblings. */
    method GetHead(role: Role, node: Node) returns (h: nat)
      requires Valid()
      ensures h == net.At(role).Head(node)
    {
      LinksHead(facts[..factFree + 1], words[..wordFree], role, node);
      match node {
        case WordNode(w) => h := if w < wordFree then words[w].At(role) else 0;
        case FactNode(f) => h := if 0 < f <= factFree then facts[f].head.At(role) else 0;
      }
    }

    /** SetSubjectHead(WORDP) and its siblings. */
    method SetWordHead(role: Role, w: nat, v: nat)
      requires Valid() && w < wordFree
      modifies this`net, words
      ensures Valid()
      ensures net == old(net).SetHead(role, WordNode(w), v)
    {
      hide NetOf;
      ghost var heads := words[..wordFree];
      words[w] := words[w].With(role, v);
      TakeUpdate(old(words[..]), w, words[w], wordFree);
      WordHeadInNet(facts[..factFree + 1], heads, role, w, v);
      net := net.SetHead(role, WordNode(w), v);
    }

    /** SetSubjectHead(FACT*) and its siblings. */
    method SetFactHead(role: Role, f: nat, v: nat)
      requires Valid() && 0 < f <= factFree
      modifies this`net, facts
      ensures Valid()
      ensures net == old(net).SetHead(role, FactNode(f), v)
    {
      hide NetOf;
      ghost var rows := facts[..factFree + 1];
      facts[f] := facts[f].(head := facts[f].head.With(role, v));
      TakeUpdate(old(facts[..]), f, facts[f], factFree + 1);
      FactHeadInNet(rows, words[..wordFree], role, f, v);
      net := net.SetHead(role, FactNode(f), v);
    }

    method SetHead(role: Role, node: Node, v: nat)
      requires Valid() && net.Has(node)
      modifies this`net, facts, words
      ensures Valid()
      ensures net == old(net).SetHead(role, node, v)
    {
      hide NetOf;
      NetIsShaped();
      match node {
        case WordNode(w) => SetWordHead(role, w, v);
        case FactNode(f) => SetFactHead(role, f, v);
      }
    }

    /** SetSubjectNext and its siblings. */
    method SetNext(i: nat, role: Role, v: nat)
      requires Valid() && 0 < i <= factFree
      modifies this`net, facts
      ensures Valid()
      ensures old(net).Rows() && |old(net).flags| > i && net == old(net).SetNext(role, i, v)
    {
      hide NetOf;
      ghost var rows := facts[..factFree + 1];
      facts[i] := facts[i].(next := facts[i].next.With(role, v));
      TakeUpdate(old(facts[..]), i, facts[i], factFree + 1);
      NextInNet(rows, words[..wordFree], role, i, v);
      net := net.SetNext(role, i, v);
    }

    method SetFlags(i: nat, flags: Flags)
      requires Valid() && 0 < i <= factFree
      modifies this`net, facts
      ensures Valid()
      ensures |old(net).flags| > i && net == old(net).(flags := old(net).flags[i := flags])
    {
      hide NetOf;
      ghost var rows := facts[..factFree + 1];
      facts[i] := facts[i].(flags := flags);
      TakeUpdate(old(facts[..]), i, facts[i], factFree + 1);
      SetRowFlags(rows, words[..wordFree], i, flags);
      net := net.(flags := net.flags[i := flags]);
    }

    /** The assignment of a field of a fact. */
    method SetValue(i: nat, role: Role, v: nat)
      requires Valid() && 0 < i <= factFree
      modifies this`net, facts
      ensures Valid() && |old(net).value| > i
      ensures net == old(net).(value := old(net).value[i := old(net).value[i].With(role, v)])
    {
      hide NetOf;
      NetRow(i);
      ghost var rows := facts[..factFree + 1];
      facts[i] := facts[i].(value := facts[i].value.With(role, v));
      TakeUpdate(old(facts[..]), i, facts[i], factFree + 1);
      SetRowValue(rows, words[..wordFree], i, facts[i].value);
      net := net.(value := net.value[i := net.value[i].With(role, v)]);
    }

    /** Moves the bump pointer up over a row with everything but two fields cleared. */
    method Allocate(value: Triple, flags: Flags)
      requires Valid() && factFree + 1 < facts.Length
      modifies this`factFree, this`net, facts
      ensures Valid() && factFree == old(factFree) + 1
      ensures net == Alloc(old(net), value, flags)
    {
      hide NetOf;
      ghost var rows := facts[..factFree + 1];
      factFree := factFree + 1;
      facts[factFree] := Row(flags, ZERO, ZERO, value);
      assert facts[..factFree + 1] == rows + [Row(flags, ZERO, ZERO, value)];
      AddRow(rows, words[..wordFree], value, flags);
      net := Alloc(net, value, flags);
    }

    /** Moves the bump pointer down. */
    method Release()
      requires Valid() && factFree > 0
      modifies this`factFree, this`net
      ensures Valid() && factFree == old(factFree) - 1 && old(net).Rows()
      ensures net == Drop(old(net))
    {
      hide NetOf;
      ghost var rows := facts[..factFree + 1];
      factFree := factFree - 1;
      assert facts[..factFree + 1] == rows[..|rows| - 1];
      DropRow(rows, words[..wordFree]);
      net := Drop(net);
    }

    /** SpecialFact: the record is lost when the arena is full. */
    method SpecialFact(verb: nat, obj: nat, walk: bool) returns (id: nat)
      requires Valid()
      modifies this`factFree, this`net, facts
      ensures Valid() && id == factFree
      ensures old(factFree) + 1 < facts.Length ==>
                factFree == old(factFree) + 1 && net == Facts.SpecialFact(old(net), verb, obj, walk)
      ensures old(factFree) + 1 == facts.Length ==> net == old(net)
    {
      hide NetOf;
      if factFree + 1 == facts.Length { return factFree; }
      Allocate(Triple(0, verb, obj), Flags(true, true, walk, false, {}, 0));
      id := factFree;
    }

    // ----- Creating ---------------------------------------------------------------------

    /** The threading of the newest fact by one of its fields. */
    method LinkNewest(role: Role) returns (ok: bool)
      requires Valid() && factFree > 0 && WordInRange(net, role, wordFree)
      modifies this`net, facts, words
      ensures Valid() && net.Rows() && old(net).Rows()
      ensures net.value == old(net).value && net.flags == old(net).flags
      ensures Link(old(net), role) == if ok then Some(net) else None
      ensures !ok ==> net == old(net)
    {
      hide NetOf, Link;
      NetRow(factFree);
      var v := facts[factFree].value.At(role);
      var node := Target(facts[factFree].value, facts[factFree].flags.refs, role);
      LinkInNet(net, role);
      LinkNone(net, role);
      if role !in facts[factFree].flags.refs && v != 0 {
        var h := GetHead(role, node);
        SetNext(factFree, role, h);
        SetWordHead(role, Meaning2Word(v), factFree);
        return true;
      }
      if !(0 < v <= factFree) { return false; }
      NetRow(v);
      var follow := facts[v].next.At(role);
      if role != Object { follow := GetHead(role, FactNode(v)); }
      SetNext(factFree, role, follow);
      SetFactHead(role, v, factFree);
      return true;
    }

    /** CreateFastFact: 0 when the arena is full or a field names no fact. */
    method CreateFastFact(value: Triple, flags: Flags) returns (id: nat)
      requires Valid() && WordsExist(net, value, flags.refs)
      modifies this`factFree, this`net, facts, words
      ensures Valid() && planning == old(planning)
      ensures old(factFree) + 1 == facts.Length ==> id == 0 && net == old(net)
      ensures old(factFree) + 1 < facts.Length ==>
                old(net).Rows() && (net, id) == CreateFast(old(net), value, flags, planning)
    {
      hide Valid, NetOf, Link, Alloc, Drop, WordsExist, WordInRange;
      NetIsShaped();
      WordsInRange(net, value, flags, wordFree);
      if factFree + 1 == facts.Length { return 0; }
      Allocate(value, flags);
      id := factFree;
      NetRow(factFree);
      ghost var s0 := net;
      var ok := LinkNewest(Subject);
      if !ok { Release(); return 0; }
      RangeKept(s0, net, Verb, wordFree);
      ok := LinkNewest(Verb);
      if !ok { Release(); return 0; }
      RangeKept(s0, net, Object, wordFree);
      ok := LinkNewest(Object);
      if !ok { Release(); return 0; }
      if planning {
        NetRow(factFree);
        SetFlags(factFree, facts[factFree].flags.(transient := true));
      }
    }

    /** CreateFact. Where the arena is full a fact that is not found is not made. */
    method CreateFact(value: Triple, flags: Flags) returns (id: nat)
      requires Valid() && Threaded(net) && WordsExist(net, value, flags.refs)
      modifies this`factFree, this`net, facts, words
      ensures Valid() && planning == old(planning) && old(net).Rows()
      ensures old(factFree) + 1 < facts.Length ==> (net, id) == FactFind.CreateFact(old(net), value, flags, planning)
      ensures old(factFree) + 1 == facts.Length ==> net == old(net) && id == FactFind.FindFact(net, value, flags)
    {
      hide NetOf, CreateFast, FindOn;
      NetIsShaped();
      if value.subj == 0 || value.verb == 0 || value.obj == 0 { return 0; }
      LawGoesDown(net);
      HeadsAreInUse(net);
      id := FindFact(value, flags);
      if id == 0 { id := CreateFastFact(value, flags); }
    }

    // ----- Walking ----------------------------------------------------------------------

    /** The loop of the Nondead walkers: the first live fact at or after `h`. */
    method SkipDead(role: Role, h: nat) returns (g: nat)
      requires Valid() && LinksGoDown(net) && h <= factFree
      ensures g == net.FirstLive(role, h) && g <= factFree
    {
      hide NetOf;
      NetIsShaped();
      g := h;
      NetRow(g);
      while g != 0 && facts[g].flags.dead
        invariant g <= factFree && net.FirstLive(role, h) == net.FirstLive(role, g)
        invariant g < |net.flags| && facts[g].flags == net.flags[g]
      {
        NetRow(g);
        g := facts[g].next.At(role);
        NetRow(g);
      }
    }

    /** GetSubjectNondeadHead and its siblings. */
    method NondeadHead(role: Role, node: Node) returns (g: nat)
      requires Valid() && LinksGoDown(net) && net.At(role).Head(node) <= factFree
      ensures g == net.NondeadHead(role, node) && g <= factFree
    {
      var h := GetHead(role, node);
      g := SkipDead(role, h);
    }

    /** GetSubjectNondeadNext and its siblings. */
    method NondeadNext(role: Role, f: nat) returns (g: nat)
      requires Valid() && LinksGoDown(net) && 0 < f <= factFree
      ensures f < |net.At(role).next| && g == net.NondeadNext(role, f) && g < f
    {
      NetIsShaped();
      NetRow(f);
      g := SkipDead(role, facts[f].next.At(role));
    }

    /** FindFact: walks the list of one field for a live fact that matches. */
    method FindFact(value: Triple, flags: Flags) returns (id: nat)
      requires Valid() && LinksGoDown(net)
      requires forall role :: net.At(role).Head(Target(value, flags.refs, role)) <= factFree
      ensures net.Rows() && id == FactFind.FindFact(net, value, flags)
    {
      hide NetOf, LinksGoDown;
      NetIsShaped();
      if value.subj == 0 || value.verb == 0 || value.obj == 0 || flags.duplicate { return 0; }
      var role := SearchRole(flags.refs);
      id := NondeadHead(role, Target(value, flags.refs, role));
      while id != 0
        invariant id <= factFree
        invariant FactFind.FindFact(net, value, flags) == FindOn(net, role, id, value, flags)
      {
        NetRow(id);
        var same := facts[id].flags == flags
                    && ((role == Subject && role in flags.refs) || facts[id].value.subj == value.subj)
                    && ((role == Verb && role in flags.refs) || facts[id].value.verb == value.verb)
                    && ((role == Object && role in flags.refs) || facts[id].value.obj == value.obj);
        MatchesByField(net, id, value, flags);
        assert same <==> Matches(net, id, value, flags);
        if same { return id; }
        id := NondeadNext(role, id);
      }
    }

    // ----- Killing and freeing ------------------------------------------------------------

    /** The death of one fact, with its record while planning. */
    method Bury(f: nat)
      requires Valid() && 0 < f <= factFree && (planning ==> factFree + 1 < facts.Length)
      modifies this`factFree, this`net, facts
      ensures Valid() && planning == old(planning) && f < |old(net).flags|
      ensures net == Die(old(net), f, planning)
      ensures factFree == old(factFree) + if planning then 1 else 0
    {
      hide Valid, NetOf, Alloc;
      NetIsShaped();
      NetRow(f);
      SetFlags(f, facts[f].flags.(dead := true));
      if planning { var _ := SpecialFact(f, 0, false); }
    }

    /** KillFact. While planning, every death needs room for its record. */
    method KillFact(f: nat)
      requires Valid() && Threaded(net) && f <= factFree
      requires planning ==> factFree + LiveCount(net) < facts.Length
      modifies this`factFree, this`net, facts
      ensures Valid() && planning == old(planning)
      ensures old(net).Shaped() && net == FactKill.KillFact(old(net), f, planning, built)
      ensures planning ==> factFree + LiveCount(net) <= old(factFree) + LiveCount(old(net))
      decreases LiveCount(net), 0, 0
    {
      hide Valid, NetOf, Threaded, Deadens, KillList, FactKill.KillFact, Die, LiveCount;
      NetIsShaped();
      NetRow(f);
      KillUnfolds(net, f, planning, built);
      if f == 0 || facts[f].flags.dead { return; }
      if f <= built { return; }
      DieDeadens(net, f, planning);
      DieKeepsThreaded(net, f, planning);
      Bury(f);
      NetIsShaped();
      KillListOf(Subject, f);
      NetIsShaped();
      KillListOf(Verb, f);
      NetIsShaped();
      KillListOf(Object, f);
    }

    /** One of the three loops of KillFact. */
    method KillListOf(role: Role, f: nat)
      requires Valid() && Threaded(net) && 0 < f <= factFree
      requires planning ==> factFree + LiveCount(net) < facts.Length
      modifies this`factFree, this`net, facts
      ensures Valid() && planning == old(planning) && old(factFree) <= factFree
      ensures old(net).Shaped() && Threaded(net) && LiveCount(net) <= LiveCount(old(net))
      ensures net == KillList(old(net), role, old(net).NondeadHead(role, FactNode(f)), planning, built)
      ensures planning ==> factFree + LiveCount(net) <= old(factFree) + LiveCount(old(net))
      decreases LiveCount(net), 2, 0
    {
      hide Valid, NetOf, Threaded, Deadens, KillList, FactKill.KillFact, LinksGoDown, LiveCount;
      NetIsShaped();
      ghost var s := net;
      ThreadedGoesDown(s, role, FactNode(f));
      var g: nat := NondeadHead(role, FactNode(f));
      ghost var first := g;
      while g != 0
        invariant Valid() && planning == old(planning) && Threaded(net) && g <= factFree && old(factFree) <= factFree
        invariant LiveCount(net) <= LiveCount(s) && net.Shaped() && |net.flags| == factFree + 1
        invariant KillList(s, role, first, planning, built) == KillList(net, role, g, planning, built)
        invariant planning ==> factFree + LiveCount(net) <= old(factFree) + LiveCount(s)
        decreases g
      {
        KillListUnfolds(net, role, g, planning, built);
        KillKeepsThreaded(net, g, planning, built);
        KillFact(g);
        NetIsShaped();
        LawGoesDown(net);
        g := NondeadNext(role, g);
      }
      KillListUnfolds(net, role, 0, planning, built);
    }

    /** FreeFact of the newest fact, which leaves the arena first. */
    method FreeFact()
      requires Valid() && Freeable(net)
      modifies this`factFree, this`net, facts, words
      ensures Valid() && planning == old(planning) && factFree == old(factFree) - 1 && net == FreeTop(old(net))
    {
      hide Valid, NetOf, Drop;
      NetIsShaped();
      NetRow(factFree);
      FreeUnfolds(net);
      var f := facts[factFree];
      Release();
      if f.value.subj == 0 {
        if f.value.obj == 0 {
          NetRow(f.value.verb);
          SetFlags(f.value.verb, facts[f.value.verb].flags.(dead := false));
        }
      } else {
        SetHead(Subject, Target(f.value, f.flags.refs, Subject), f.next.subj);
        SetHead(Verb, Target(f.value, f.flags.refs, Verb), f.next.verb);
        SetHead(Object, Target(f.value, f.flags.refs, Object), f.next.obj);
      }
    }

    /** "while (factFree > locked) FreeFact(factFree--)": the loop of ClearUserFacts,
      * ResetFactSystem, RestoreMark and ReturnToAfterLayer. */
    method FreeBackTo(locked: nat)
      requires Valid() && |FreeTo(net, locked + 1).flags| <= locked + 1
      modifies this`factFree, this`net, facts, words
      ensures Valid() && planning == old(planning) && net == FreeTo(old(net), locked + 1)
    {
      hide Valid, NetOf, Freeable, FreeTop;
      NetIsShaped();
      while factFree > locked
        invariant Valid() && planning == old(planning) && |net.flags| == factFree + 1
        invariant FreeTo(net, locked + 1) == FreeTo(old(net), locked + 1)
      {
        FreeFact();
        NetIsShaped();
      }
    }

    // ----- Revising -----------------------------------------------------------------------

    /** DeleteFromList: the head of the list without the fact. */
    method DeleteFromList(list: nat, fact: nat, role: Role) returns (start: nat)
      requires Valid() && LinksGoDown(net) && list <= factFree && 0 < fact <= factFree
      modifies this`net, facts
      ensures Valid() && old(net).Rows() && |old(net).flags| == factFree + 1
      ensures var (next, head) := Unlink(old(net).At(role).next, list, fact);
              start == head && net == old(net).With(role, Links(next, old(net).At(role).head))
    {
      hide Valid, NetOf;
      NetIsShaped();
      NetRow(list);
      WithItself(net, role);
      if list == fact {
        return facts[list].next.At(role);
      }
      var prior: nat, at: nat := list, list;
      while at != 0
        invariant Valid() && net == old(net) && prior <= factFree && at <= factFree
        invariant at != 0 ==> prior != 0
        invariant (at == list && prior == list)
                  || UnlinkAfter(net.At(role).next, prior, at, fact) == UnlinkAfter(net.At(role).next, list, net.At(role).next[list], fact)
        decreases at
      {
        NetRow(at);
        var after := facts[at].next.At(role);
        if at == fact {
          SetNext(prior, role, after);
          return list;
        }
        prior := at;
        at := after;
      }
      start := list;
    }

    /** AddToList: the head of the list after it was offered the fact. */
    method AddToList(list: nat, fact: nat, role: Role) returns (start: nat)
      requires Valid() && LinksGoDown(net) && list <= factFree && 0 < fact <= factFree && list != fact
      modifies this`net, facts
      ensures Valid() && old(net).Rows() && |old(net).flags| == factFree + 1
      ensures var (next, head) := Attach(old(net).At(role).next, list, fact);
              start == head && net == old(net).With(role, Links(next, old(net).At(role).head))
    {
      hide Valid, NetOf;
      NetIsShaped();
      NetRow(list);
      WithItself(net, role);
      if list < fact {
        SetNext(fact, role, list);
        return fact;
      }
      var prior: nat, at: nat := list, list;
      while at != 0
        invariant Valid() && net == old(net) && prior <= factFree && at <= factFree
        invariant at != 0 ==> prior != 0
        invariant (at == list && prior == list)
                  || AttachAfter(net.At(role).next, prior, at, fact) == AttachAfter(net.At(role).next, list, net.At(role).next[list], fact)
        decreases at
      {
        if at < fact {
          NetRow(at);
          SetNext(fact, role, at);
          SetNext(prior, role, fact);
          return list;
        }
        prior := at;
        NetRow(at);
        at := facts[at].next.At(role);
      }
      start := list;
    }

    /** The word branch of ReviseFactCode for one field: the fact leaves the list of its word
      * for that of word `w`. */
    method ReviseField(role: Role, f: nat, w: nat)
      requires Valid() && MayRewrite(net, role, f, w) && LinksGoDown(net)
      modifies this`net, facts, words
      ensures Valid() && planning == old(planning) && Rewritable(old(net), role, f, w)
      ensures net == Rewrite(old(net), role, f, w)
    {
      hide Valid, NetOf, MayRewrite, Rewrite;
      NetIsShaped();
      MayIsRewritable(net, role, f, w);
      NetRow(f);
      ghost var s := net;
      var a := Meaning2Word(facts[f].value.At(role));
      RewriteSteps(s, role, f, w);
      if a == w { return; }
      var h := GetHead(role, WordNode(a));
      h := DeleteFromList(h, f, role);
      NetIsShaped();
      SetWordHead(role, a, h);
      h := GetHead(role, WordNode(w));
      h := AddToList(h, f, role);
      NetIsShaped();
      SetWordHead(role, w, h);
      SetValue(f, role, w);
    }

    /** The fact branch of ReviseFactCode for one field: the fact leaves the list of the fact it names
      * for the list of its own uses. */
    method ReviseFactField(role: Role, f: nat, w: nat)
      requires Valid() && FactValued(net, role, f)
      modifies this`net, facts
      ensures Valid() && planning == old(planning) && OnFactList(old(net), role, f)
      ensures net == RewriteFact(old(net), role, f, w)
    {
      hide Valid, NetOf, RewriteFact, FactValued, Threaded;
      NetIsShaped();
      FactValuedIsOnList(net, role, f);
      NetRow(f);
      ghost var s := net;
      var a := facts[f].value.At(role);
      FactSteps(s, role, f, w);
      if a == f { return; }
      var h := GetHead(role, FactNode(a));
      h := DeleteFromList(h, f, role);
      NetIsShaped();
      SetFactHead(role, a, h);
      h := GetHead(role, FactNode(f));
      h := AddToList(h, f, role);
      NetIsShaped();
      SetFactHead(role, f, h);
      SetValue(f, role, w);
    }

    /** ReviseFactCode, word branches: false when the fact may not be revised. */
    method ReviseFact(f: nat, rev: Revision, locked: nat) returns (ok: bool)
      requires Valid() && LinksGoDown(net)
      requires 0 < f <= factFree ==> Bones(net, f) && forall role :: MayRewriteSome(net, f, rev, role)
      modifies this`net, facts, words
      ensures Valid() && planning == old(planning)
      ensures Revise(old(net), f, rev, locked, built) == if ok then Some(net) else None
      ensures !ok ==> net == old(net)
    {
      hide Valid, NetOf, Rewrite, MayRewriteSome, LinksGoDown, Bones, RewriteSome;
      NetIsShaped();
      if f == 0 || f > factFree { return false; }
      NetRow(f);
      if f <= locked || facts[f].flags.dead { return false; }
      if f <= built { return false; }
      ReviseSome(Subject, f, rev);
      ReviseSome(Verb, f, rev);
      ReviseSome(Object, f, rev);
      ok := true;
    }

    method ReviseSome(role: Role, f: nat, rev: Revision)
      requires Valid() && LinksGoDown(net) && Bones(net, f) && MayRewriteSome(net, f, rev, role)
      modifies this`net, facts, words
      ensures Valid() && planning == old(planning) && LinksGoDown(net) && Bones(net, f)
      ensures net == RewriteSome(old(net), role, f, rev.At(role))
      ensures forall q :: q != role && MayRewriteSome(old(net), f, rev, q) ==> MayRewriteSome(net, f, rev, q)
    {
      hide Valid, NetOf, Rewrite, MayRewrite, LinksGoDown, Bones, Rewritable;
      SomeIsLawful(net, role, f, rev);
      if rev.At(role).Some? { ReviseField(role, f, rev.At(role).value); }
    }
  }

  lemma LinkInNet(s: Net, role: Role)
    requires s.Rows() && |s.flags| > 1
    ensures var cur := |s.flags| - 1; var v := s.value[cur].At(role);
            role !in s.flags[cur].refs && v != 0 ==>
              var node := WordNode(Meaning2Word(v));
              Link(s, role) == Some(s.SetNext(role, cur, s.At(role).Head(node)).SetHead(role, node, cur))
    ensures var cur := |s.flags| - 1; var v := s.value[cur].At(role);
            role in s.flags[cur].refs && 0 < v < |s.flags| ==>
              var node := FactNode(v);
              var follow := if role == Object then s.At(role).next[v] else s.At(role).Head(node);
              Link(s, role) == Some(s.SetNext(role, cur, follow).SetHead(role, node, cur))
  {
  }

  lemma FreeUnfolds(s: Net)
    requires Freeable(s)
    ensures var top := |s.flags| - 1; var r := Drop(s);
            && r.Rows() && |r.flags| == top
            && (s.value[top].subj == 0 && s.value[top].obj != 0 ==> FreeTop(s) == r)
            && (s.value[top].subj == 0 && s.value[top].obj == 0 ==>
                  0 < s.value[top].verb < top
                  && FreeTop(s) == r.(flags := r.flags[s.value[top].verb := r.flags[s.value[top].verb].(dead := false)]))
            && (s.value[top].subj != 0 ==>
                  var ts, tv, to := Target(s.value[top], s.flags[top].refs, Subject), Target(s.value[top], s.flags[top].refs, Verb), Target(s.value[top], s.flags[top].refs, Object);
                  && r.Has(ts) && r.SetHead(Subject, ts, s.subj.next[top]).Has(tv)
                  && r.SetHead(Subject, ts, s.subj.next[top]).SetHead(Verb, tv, s.verb.next[top]).Has(to)
                  && FreeTop(s) == r.SetHead(Subject, ts, s.subj.next[top]).SetHead(Verb, tv, s.verb.next[top]).SetHead(Object, to, s.obj.next[top]))
  {
  }

  lemma RewriteSteps(s: Net, role: Role, f: nat, w: nat)
    requires MayRewrite(s, role, f, w) && Rewritable(s, role, f, w) && LinksGoDown(s)
    ensures var m := Meaning2Word(s.value[f].At(role)); var a, b := WordNode(m), WordNode(w);
            && s.Has(a) && s.Has(b)
            && (m == w ==> Rewrite(s, role, f, w) == s)
            && (m != w ==>
                  var (next1, head1) := Unlink(s.At(role).next, s.At(role).Head(a), f);
                  var s1 := s.With(role, Links(next1, s.At(role).head)).SetHead(role, a, head1);
                  && LinksGoDown(s1) && s1.At(role).Head(b) < |s.flags| && s1.At(role).Head(b) != f && s1.At(role).next == next1
                  && var (next2, head2) := Attach(next1, s1.At(role).Head(b), f);
                     var s2 := s1.With(role, Links(next2, s1.At(role).head)).SetHead(role, b, head2);
                     s2.value == s.value && Rewrite(s, role, f, w) == s2.(value := s.value[f := s.value[f].With(role, w)]))
  {
    hide MayRewrite, LinksGoDown, Rewrite;
    RewriteIsLawful(s, role, f, w);
    RewriteUnfolds(s, role, f, w);
  }

  lemma FactSteps(s: Net, role: Role, f: nat, w: nat)
    requires FactValued(s, role, f)
    ensures LinksGoDown(s) && OnFactList(s, role, f)
    ensures var m := s.value[f].At(role); var a, b := FactNode(m), FactNode(f);
            && 0 < m < f
            && var (next1, head1) := Unlink(s.At(role).next, s.At(role).Head(a), f);
               var s1 := s.With(role, Links(next1, s.At(role).head)).SetHead(role, a, head1);
               && LinksGoDown(s1) && s1.At(role).Head(b) < |s.flags| && s1.At(role).Head(b) != f && s1.At(role).next == next1
               && var (next2, head2) := Attach(next1, s1.At(role).Head(b), f);
                  var s2 := s1.With(role, Links(next2, s1.At(role).head)).SetHead(role, b, head2);
                  s2.value == s.value && RewriteFact(s, role, f, w) == s2.(value := s.value[f := s.value[f].With(role, w)])
  {
    hide LinksGoDown, RewriteFact, Exact, Threaded;
    FactValuedIsOnList(s, role, f);
    FactGoesDown(s, role, f);
    RewriteFactUnfolds(s, role, f, w);
  }

  lemma FactGoesDown(s: Net, role: Role, f: nat)
    requires FactValued(s, role, f) && OnFactList(s, role, f)
    ensures LinksGoDown(s) && s.value[f].At(role) != 0 && s.At(role).Head(FactNode(f)) != f
    ensures var a := FactNode(s.value[f].At(role)); var (next1, head1) := Unlink(s.At(role).next, s.At(role).Head(a), f);
            LinksGoDown(s.With(role, Links(next1, s.At(role).head)).SetHead(role, a, head1))
  {
    LawGoesDown(s);
    FactValuedIsOnList(s, role, f);
    var v := s.View(role);
    var a, b := FactNode(s.value[f].At(role)), FactNode(f);
    UnlinkChain(v.next, v.head[a], f);
    var (next1, head1) := Unlink(v.next, v.head[a], f);
    ListIsExact(v, b);
    assert v.head[b] != 0 ==> v.head[b] in Chain(v.next, v.head[b]);
    GoDownWith(s, role, Links(next1, s.At(role).head[a := head1]));
  }

  lemma RewriteFactUnfolds(s: Net, role: Role, f: nat, w: nat)
    requires OnFactList(s, role, f) && s.value[f].At(role) != f
    ensures var a, b := FactNode(s.value[f].At(role)), FactNode(f);
            var (next1, head1) := Unlink(s.At(role).next, s.At(role).Head(a), f);
            var s1 := s.With(role, Links(next1, s.At(role).head)).SetHead(role, a, head1);
            && s1.At(role).next == next1 && s1.At(role).Head(b) == s.At(role).Head(b)
            && var (next2, head2) := Attach(next1, s1.At(role).Head(b), f);
               var s2 := s1.With(role, Links(next2, s1.At(role).head)).SetHead(role, b, head2);
               s2.value == s.value && RewriteFact(s, role, f, w) == s2.(value := s.value[f := s.value[f].With(role, w)])
  {
  }

  lemma RewriteIsLawful(s: Net, role: Role, f: nat, w: nat)
    requires MayRewrite(s, role, f, w) && Rewritable(s, role, f, w) && LinksGoDown(s)
    ensures var m := Meaning2Word(s.value[f].At(role)); var a, b := WordNode(m), WordNode(w);
            && s.Has(a) && s.Has(b)
            && (m != w ==>
                  var (next1, head1) := Unlink(s.At(role).next, s.At(role).Head(a), f);
                  var s1 := s.With(role, Links(next1, s.At(role).head)).SetHead(role, a, head1);
                  LinksGoDown(s1) && s.At(role).Head(b) < |s.flags| && s.At(role).Head(b) != f)
  {
    hide Rewrite;
    var m := Meaning2Word(s.value[f].At(role));
    var a, b := WordNode(m), WordNode(w);
    MayIsRewritable(s, role, f, w);
    var v := s.View(role);
    assert v.key[f] == Some(a) && a in v.head;
    if m != w {
      UnlinkChain(s.At(role).next, s.At(role).Head(a), f);
      var (next1, head1) := Unlink(s.At(role).next, s.At(role).Head(a), f);
      ListIsExact(v, b);
      assert v.head[b] != 0 ==> v.head[b] in Chain(v.next, v.head[b]);
      GoDownWith(s, role, Links(next1, s.At(role).head[a := head1]));
    }
  }

  lemma SomeIsLawful(s: Net, role: Role, f: nat, rev: Revision)
    requires LinksGoDown(s) && Bones(s, f) && MayRewriteSome(s, f, rev, role)
    ensures var r := RewriteSome(s, role, f, rev.At(role));
            && LinksGoDown(r) && Bones(r, f)
            && forall q :: q != role && MayRewriteSome(s, f, rev, q) ==> MayRewriteSome(r, f, rev, q)
  {
    hide LinksGoDown, Rewrite, MayRewrite;
    var w := rev.At(role);
    if w.Some? {
      RewriteGoesDown(s, role, f, w.value);
      BonesKept(s, role, f, rev);
    }
    forall q | q != role && MayRewriteSome(s, f, rev, q)
      ensures MayRewriteSome(RewriteSome(s, role, f, w), f, rev, q)
    {
      RewriteOther(s, role, f, rev, q);
    }
  }

  lemma BonesKept(s: Net, role: Role, f: nat, rev: Revision)
    requires Bones(s, f) && MayRewriteSome(s, f, rev, role) && rev.At(role).Some?
    ensures Bones(RewriteSome(s, role, f, rev.At(role)), f)
  {
    hide Rewrite;
    RewrittenShape(s, role, f, rev.At(role).value);
    RewriteBody(s, role, f, rev.At(role).value);
  }

  lemma RewriteGoesDown(s: Net, role: Role, f: nat, w: nat)
    requires MayRewrite(s, role, f, w) && LinksGoDown(s)
    ensures Rewritable(s, role, f, w) && LinksGoDown(Rewrite(s, role, f, w))
  {
    hide Rewrite, LinksGoDown;
    MayIsRewritable(s, role, f, w);
    var m := Meaning2Word(s.value[f].At(role));
    RewriteBody(s, role, f, w);
    if m != w {
      RewrittenView(s, role, f, w);
      RefiledGoesDown(s.View(role), f, WordNode(m), WordNode(w));
      GoDownBody(s, Rewrite(s, role, f, w), role);
    } else {
      RewriteUnfolds(s, role, f, w);
    }
  }

  lemma GoDownBody(s: Net, r: Net, role: Role)
    requires LinksGoDown(s) && |r.flags| == |s.flags| && Down(r.At(role).next)
    requires forall q :: q != role ==> r.At(q) == s.At(q)
    ensures LinksGoDown(r)
  {
    forall q, i | 0 < i < |r.flags| && i < |r.At(q).next|
      ensures r.At(q).next[i] < i
    {
      assert q != role ==> r.At(q) == s.At(q);
    }
  }

  lemma RewriteUnfolds(s: Net, role: Role, f: nat, w: nat)
    requires Rewritable(s, role, f, w)
    ensures var m := Meaning2Word(s.value[f].At(role)); var a, b := WordNode(m), WordNode(w);
            && (m == w ==> Rewrite(s, role, f, w) == s)
            && (m != w ==>
                  var (next1, head1) := Unlink(s.At(role).next, s.At(role).Head(a), f);
                  var s1 := s.With(role, Links(next1, s.At(role).head)).SetHead(role, a, head1);
                  && s1.At(role).next == next1 && s1.At(role).Head(b) == s.At(role).Head(b)
                  && var (next2, head2) := Attach(next1, s1.At(role).Head(b), f);
                     var s2 := s1.With(role, Links(next2, s1.At(role).head)).SetHead(role, b, head2);
                     s2.value == s.value && Rewrite(s, role, f, w) == s2.(value := s.value[f := s.value[f].With(role, w)]))
  {
  }

  lemma GoDownWith(s: Net, role: Role, links: Links)
    requires LinksGoDown(s) && forall i :: 0 < i < |links.next| ==> links.next[i] < i
    ensures LinksGoDown(s.With(role, links))
  {
    var r := s.With(role, links);
    forall q, i | 0 < i < |r.flags| && i < |r.At(q).next|
      ensures r.At(q).next[i] < i
    {
      assert r.At(q) == if q == role then links else s.At(q);
    }
  }

  lemma WithItself(s: Net, role: Role)
    ensures s.With(role, Links(s.At(role).next, s.At(role).head)) == s
  {
  }

  lemma KillUnfolds(s: Net, f: nat, planning: bool, built: nat)
    requires s.Shaped()
    ensures !s.Live(f) || f <= built ==> FactKill.KillFact(s, f, planning, built) == s
    ensures s.Live(f) && f > built ==>
              && Die(s, f, planning).Shaped()
              && var s1 := Die(s, f, planning);
                 var s2 := KillList(s1, Subject, s1.NondeadHead(Subject, FactNode(f)), planning, built);
                 var s3 := KillList(s2, Verb, s2.NondeadHead(Verb, FactNode(f)), planning, built);
                 FactKill.KillFact(s, f, planning, built) ==
                 KillList(s3, Object, s3.NondeadHead(Object, FactNode(f)), planning, built)
  {
    if s.Live(f) { DieShaped(s, f, planning); }
  }

  lemma KillListUnfolds(s: Net, role: Role, g: nat, planning: bool, built: nat)
    requires s.Shaped() && g < |s.flags|
    ensures g == 0 ==> KillList(s, role, g, planning, built) == s
    ensures g != 0 ==>
              var s1 := FactKill.KillFact(s, g, planning, built);
              && g < |s1.At(role).next| && |s.flags| <= |s1.flags| && LiveCount(s1) <= LiveCount(s)
              && KillList(s, role, g, planning, built) == KillList(s1, role, s1.NondeadNext(role, g), planning, built)
  {
    if g != 0 { NextIsBelow(s, FactKill.KillFact(s, g, planning, built), role, g); }
  }

  /** Every link points to an older fact. */
  ghost predicate LinksGoDown(s: Net) {
    forall role, i :: 0 < i < |s.flags| && i < |s.At(role).next| ==> s.At(role).next[i] < i
  }

  lemma LawGoesDown(s: Net)
    requires Threaded(s)
    ensures LinksGoDown(s)
  {
    forall q, i | 0 < i < |s.flags| && i < |s.At(q).next|
      ensures s.At(q).next[i] < i
    {
      assert Exact(s.View(q));
    }
  }

  lemma ThreadedGoesDown(s: Net, role: Role, node: Node)
    requires Threaded(s) && s.Has(node)
    ensures LinksGoDown(s) && s.At(role).Head(node) < |s.flags|
  {
    LawGoesDown(s);
    assert Exact(s.View(role));
    assert ExactAt(s.View(role), node);
  }

  lemma MatchesByField(s: Net, g: nat, value: Triple, flags: Flags)
    requires g < |s.flags| && g < |s.value|
    ensures var role := SearchRole(flags.refs);
            Matches(s, g, value, flags) <==>
              && s.flags[g] == flags
              && ((role == Subject && role in flags.refs) || s.value[g].subj == value.subj)
              && ((role == Verb && role in flags.refs) || s.value[g].verb == value.verb)
              && ((role == Object && role in flags.refs) || s.value[g].obj == value.obj)
  {
    var role := SearchRole(flags.refs);
    assert Matches(s, g, value, flags) ==>
      forall q :: (q == role && q in flags.refs) || s.value[g].At(q) == value.At(q);
    if Matches(s, g, value, flags) {
      assert (role == Subject && role in flags.refs) || s.value[g].At(Subject) == value.At(Subject);
      assert (role == Verb && role in flags.refs) || s.value[g].At(Verb) == value.At(Verb);
      assert (role == Object && role in flags.refs) || s.value[g].At(Object) == value.At(Object);
    }
  }

  /** The word, if any, that the newest fact holds in this role exists. */
  ghost predicate WordInRange(s: Net, role: Role, words: nat) {
    |s.flags| == |s.value| > 0
    && var top := |s.flags| - 1;
       role !in s.flags[top].refs && s.value[top].At(role) != 0 ==> Meaning2Word(s.value[top].At(role)) < words
  }

  lemma WordsInRange(s: Net, value: Triple, flags: Flags, words: nat)
    requires s.Rows() && WordsExist(s, value, flags.refs) && forall w: nat :: WordNode(w) in s.subj.head <==> w < words
    ensures forall role :: WordInRange(Alloc(s, value, flags), role, words)
  {
    forall role | role !in flags.refs && value.At(role) != 0
      ensures Meaning2Word(value.At(role)) < words
    {
      assert s.Has(Target(value, flags.refs, role));
    }
  }

  lemma RangeKept(s: Net, r: Net, role: Role, words: nat)
    requires WordInRange(s, role, words) && r.value == s.value && r.flags == s.flags
    ensures WordInRange(r, role, words)
  {
  }

  lemma LinkNone(s: Net, role: Role)
    requires s.Rows() && |s.flags| > 1
    ensures var cur := |s.flags| - 1; var v := s.value[cur].At(role);
            !(role !in s.flags[cur].refs && v != 0) && !(0 < v < |s.flags|) ==> Link(s, role) == None
  {
  }

  lemma TakeUpdate<T>(a: seq<T>, i: nat, v: T, n: nat)
    requires i < n <= |a|
    ensures a[i := v][..n] == a[..n][i := v]
  {
  }

  lemma HeadDomain(rows: seq<Row>, heads: seq<Triple>, q: Role)
    ensures forall w: nat :: WordNode(w) in LinksOf(rows, heads, q).head <==> w < |heads|
    ensures forall f: nat :: FactNode(f) in LinksOf(rows, heads, q).head <==> 0 < f < |rows|
  {
  }

  lemma AddWord(rows: seq<Row>, heads: seq<Triple>)
    ensures NetOf(rows, heads + [ZERO]) == NewWord(NetOf(rows, heads), |heads|)
  {
    AddWordLinks(rows, heads, Subject);
    AddWordLinks(rows, heads, Verb);
    AddWordLinks(rows, heads, Object);
  }

  lemma AddWordLinks(rows: seq<Row>, heads: seq<Triple>, q: Role)
    ensures var l := LinksOf(rows, heads, q);
            LinksOf(rows, heads + [ZERO], q) == Links(l.next, l.head[WordNode(|heads|) := 0])
  {
    assert WordHeads(heads + [ZERO], q) == WordHeads(heads, q)[WordNode(|heads|) := 0];
    EditAbove(FactHeads(rows, q), WordHeads(heads, q), WordNode(|heads|), 0);
  }
}
