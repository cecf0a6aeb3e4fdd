/** The backtrack marks of the planner: SaveBacktrack, FlushMark, RestoreMark and RefreshMark
  * of functionExecute.cpp, over the fact arena and the dictionary together. */
module Backtrack {
  import opened Threads
  import opened Words
  import opened Facts
  import opened FactLaws
  import opened FactKill
  import opened FactUndo
  import opened Lexicon
  import opened LexiconLaws
  import opened LexiconUndo
  import Lookup

  /** The stores and the two globals of the planner: `point` is backtrackPoint and `base` is
    * stringPlanBase, as offsets into the string arena. */
  datatype World = World(net: Net, lex: Lex, point: nat, base: nat)

  /** What does not change during a volley: the hash and the last fact that may not be killed. */
  datatype Setting = Setting(hash: Hashing, built: nat)

  const MARK_SIZE: nat := 16

  function SaveBacktrack(w: World, id: int): World
    requires |w.net.flags| >= 1
  {
    var mark := Mark(id, if w.base <= w.point then w.point - w.base else 0, |w.net.flags| - 1, |w.lex.entries|);
    var lex := AllocateCell(w.lex, mark, 16);
    w.(lex := lex, point := lex.used)
  }

  predicate AtMark(w: World, h: Hashing) {
    && w.point in w.lex.cells && w.point >= MARK_SIZE && h.buckets > 0
    && var m := w.lex.cells[w.point]; m.Mark? && m.facts >= 0 && ZoneEnd(h) <= m.words
  }

  /** Throws a mark away; its space comes back if nothing was allocated since. */
  function FlushMark(w: World): World
    requires w.point in w.lex.cells && w.lex.cells[w.point].Mark? && w.point >= MARK_SIZE
  {
    w.(lex := if w.point == w.lex.used then ReleaseStrings(w.lex, w.point - MARK_SIZE) else w.lex,
       point := w.base + w.lex.cells[w.point].previous)
  }

  /** Undoes everything since the mark and leaves the mark in place. */
  function RefreshMark(w: World, h: Hashing): World
    requires AtMark(w, h)
  {
    var m := w.lex.cells[w.point];
    w.(net := FreeTo(w.net, m.facts + 1), lex := Release(w.lex, h, m.words, w.point))
  }

  /** Undoes everything since the mark and goes back to the mark before. */
  function RestoreMark(w: World, h: Hashing): World
    requires AtMark(w, h)
  {
    RefreshMark(w, h).(point := w.base + w.lex.cells[w.point].previous)
  }

  // ----- Operations ------------------------------------------------------------------------

  datatype Op =
    | OnFacts(op: FactOp)
    | StoreOp(word: string, properties: bv64)
    | AddPropertyOp(w: nat, flag: bv64)
    | RemovePropertyOp(w: nat, flag: bv64)
    | AddFlagOp(w: nat, flag: bv64)
    | RemoveFlagOp(w: nat, flag: bv64)

  /** A new WORDENTRY is zeroed: its three lists start empty. */
  function Blank(links: Links, from: nat, to: nat): Links {
    Links(links.next, map node | node in links.head ::
            if node.WordNode? && from <= node.word < to then 0 else links.head[node])
  }

  function Blanked(s: Net, from: nat, to: nat): Net {
    s.(subj := Blank(s.subj, from, to), verb := Blank(s.verb, from, to), obj := Blank(s.obj, from, to))
  }

  /** A word-valued field names a stored word. */
  predicate NamesWords(value: Triple, refs: set<Role>, words: nat) {
    forall role :: role !in refs ==> Meaning2Word(value.At(role)) < words
  }

  /** The facts name no released word: no pointer into freed space. */
  ghost predicate FactsNameWords(s: Net, words: nat)
    requires |s.value| == |s.flags|
  {
    forall i, role :: 0 < i < |s.flags| && s.Indexed(i) && role !in s.flags[i].refs ==> Meaning2Word(s.value[i].At(role)) < words
  }

  /** There is room for two more words: the word and its header word. */
  predicate HasRoom(k: Lex) { |k.entries| + 2 <= DICTIONARY_SIZE }

  ghost predicate Sound(w: World, h: Hashing) {
    && Threaded(w.net) && Lawful(w.lex, h) && Settled(w.lex) && |w.lex.entries| <= DICTIONARY_SIZE
    && FactsNameWords(w.net, |w.lex.entries|)
    && w.base <= w.point <= w.lex.used
  }

  /** An operation between a mark and its restoration. One that cannot be made is skipped. */
  function Perform(w: World, s: Setting, op: Op): World
    requires w.net.Shaped() && s.hash.buckets > 0 && ZoneEnd(s.hash) <= |w.lex.entries|
  {
    match op
    case OnFacts(f) =>
      if f.Create? && !NamesWords(f.value, f.flags.refs, |w.lex.entries|) then w
      else
        var r := Apply(w.net, f, s.built);
        if r.Some? then w.(net := r.value) else w
    case StoreOp(word, properties) =>
      if HasRoom(w.lex) then Grown(w, StoreWord(w.lex, s.hash, word, properties).0) else w
    case AddPropertyOp(i, flag) =>
      if i < |w.lex.entries| && HasRoom(w.lex) then Grown(w, AddProperty(w.lex, s.hash, i, flag)) else w
    case RemovePropertyOp(i, flag) => if i < |w.lex.entries| then w.(lex := RemoveProperty(w.lex, i, flag)) else w
    case AddFlagOp(i, flag) => if i < |w.lex.entries| then w.(lex := AddSystemFlag(w.lex, i, flag)) else w
    case RemoveFlagOp(i, flag) => if i < |w.lex.entries| then w.(lex := RemoveSystemFlag(w.lex, i, flag)) else w
  }

  function Grown(w: World, lex: Lex): World {
    w.(lex := lex, net := Blanked(w.net, |w.lex.entries|, |lex.entries|))
  }

  /** The arena at the start: the null row, and the cleared heads of every entry the dictionary has
    * room for. */
  function StartNet(): Net {
    var links := Links([0], map w: nat | w < DICTIONARY_SIZE :: WordNode(w) := 0);
    Net([NO_FLAGS], [ZERO], links, links, links)
  }

  lemma StartIsThreaded()
    ensures Threaded(StartNet())
  {
    var s := StartNet();
    forall role ensures Exact(s.View(role)) {
      var v := s.View(role);
      assert v.key == [None] && s.At(role) == s.subj;
      forall node | node in v.head ensures ExactAt(v, node) { ListingEmpty(v.key, node, 1); }
    }
  }

  /** A system with the base dictionary loaded and no fact or word yet is sound. */
  lemma StartIsSound(h: Hashing)
    requires h.buckets > 0 && ZoneEnd(h) <= DICTIONARY_SIZE
    ensures Sound(World(StartNet(), Lookup.Empty(h, true), 0, 0), h)
  {
    hide Threaded, Lawful;
    StartIsThreaded();
    Lookup.EmptyIsLawful(h, true);
  }

  // ----- Since a mark ------------------------------------------------------------------------

  /** `b` grew out of `a` by operations that can be undone, and the marks are where they were. */
  ghost predicate Grew(a: World, b: World, h: Hashing) {
    && Sound(a, h) && Sound(b, h)
    && Undoes(a.net, b.net) && Since(a.lex, b.lex, h)
    && a.base == b.base && a.point == b.point
  }

  lemma GrewRefl(a: World, h: Hashing)
    requires Sound(a, h)
    ensures Grew(a, a, h)
  {
    hide Threaded, Lawful, FactsNameWords, Since;
    SinceRefl(a.lex, h);
  }

  lemma GrewTrans(a: World, b: World, c: World, h: Hashing)
    requires Grew(a, b, h) && Grew(b, c, h)
    ensures Grew(a, c, h)
  {
    hide Sound, Undoes, Since;
    UndoesTrans(a.net, b.net, c.net);
    SinceTrans(a.lex, b.lex, c.lex, h);
  }

  /** No list starts at a word not in use, so zeroing its entry changes nothing. */
  lemma BlankedIsSame(s: Net, words: nat, to: nat)
    requires Threaded(s) && FactsNameWords(s, words)
    ensures Blanked(s, words, to) == s
  {
    hide Threaded;
    BlankIsSame(s, Subject, words, to);
    BlankIsSame(s, Verb, words, to);
    BlankIsSame(s, Object, words, to);
  }

  lemma BlankIsSame(s: Net, role: Role, words: nat, to: nat)
    requires Threaded(s) && FactsNameWords(s, words)
    ensures Blank(s.At(role), words, to) == s.At(role)
  {
    var links := s.At(role);
    forall node | node in links.head && node.WordNode? && words <= node.word
      ensures links.head[node] == 0
    {
      UnusedIsEmpty(s, role, node, words);
    }
    assert Blank(links, words, to).head == links.head;
  }

  lemma UnusedIsEmpty(s: Net, role: Role, node: Node, words: nat)
    requires Threaded(s) && FactsNameWords(s, words)
    requires node in s.At(role).head && node.WordNode? && words <= node.word
    ensures s.At(role).head[node] == 0
  {
    var v := s.View(role);
    assert Exact(v);
    ListIsExact(v, node);
    var g := s.At(role).head[node];
    assert ExactAt(v, node);
    assert g != 0 ==> g in Chain(v.next, g);
    assert g != 0 ==> s.KeyAt(role, g) == Some(node);
    NamedIsStored(s, role, g, words);
  }

  lemma NamedIsStored(s: Net, role: Role, i: nat, words: nat)
    requires s.Rows() && FactsNameWords(s, words) && i < |s.flags|
    ensures var k := s.KeyAt(role, i); i != 0 && k.Some? && k.value.WordNode? ==> k.value.word < words
  {
    if i != 0 && s.Indexed(i) && role !in s.flags[i].refs {
      assert Meaning2Word(s.value[i].At(role)) < words;
    }
  }

  // ----- Every operation can be undone --------------------------------------------------------

  lemma KillNamesWords(s: Net, r: Net, words: nat)
    requires Deadens(s, r) && FactsNameWords(s, words)
    ensures FactsNameWords(r, words)
  {
    hide LinksKept;
    forall i, role | 0 < i < |r.flags| && r.Indexed(i) && role !in r.flags[i].refs
      ensures Meaning2Word(r.value[i].At(role)) < words
    {
      assert i < |s.flags| ==> s.Indexed(i) && role !in s.flags[i].refs;
    }
  }

  lemma CreateNamesWords(s: Net, value: Triple, flags: Flags, planning: bool, words: nat)
    requires s.Shaped() && Valid(s, value, flags.refs) && FactsNameWords(s, words) && NamesWords(value, flags.refs, words)
    ensures WordsExist(s, value, flags.refs)
    ensures var r := CreateFast(s, value, flags, planning).0; r.Rows() && FactsNameWords(r, words)
  {
    hide CreateFast, WordsExist;
    CreateEffect(s, value, flags, planning);
    var r := Created(s, value, flags, planning);
    forall i, role | 0 < i < |r.flags| && r.Indexed(i) && role !in r.flags[i].refs
      ensures Meaning2Word(r.value[i].At(role)) < words
    {
      assert i < |s.flags| ==> s.Indexed(i) && role !in s.flags[i].refs;
    }
  }

  lemma FactOpGrew(w: World, s: Setting, op: FactOp)
    requires Sound(w, s.hash)
    ensures s.hash.buckets > 0 && ZoneEnd(s.hash) <= |w.lex.entries|
    ensures Grew(w, Perform(w, s, OnFacts(op)), s.hash)
  {
    hide Threaded, Lawful, Settled, FactsNameWords, Since, Undoes, Apply, NamesWords, Net.Shaped;
    LawfulZone(w.lex, s.hash);
    ThreadedShape(w.net);
    GrewRefl(w, s.hash);
    if op.Kill? || NamesWords(op.value, op.flags.refs, |w.lex.entries|) {
      var r := Apply(w.net, op, s.built);
      if r.Some? {
        ApplyIsUndone(w.net, op, s.built);
        ApplyKeepsThreaded(w.net, op, s.built);
        ApplyNamesWords(w.net, op, s.built, |w.lex.entries|);
      }
    }
  }

  lemma ApplyNamesWords(s: Net, op: FactOp, built: nat, words: nat)
    requires s.Shaped() && FactsNameWords(s, words) && (op.Create? ==> NamesWords(op.value, op.flags.refs, words))
    requires Apply(s, op, built).Some?
    ensures Apply(s, op, built).value.Rows() && FactsNameWords(Apply(s, op, built).value, words)
  {
    hide FactsNameWords, NamesWords, Valid, CreateFast, Deadens, WordsExist;
    match op
    case Create(value, flags) => CreateNamesWords(s, value, flags, true, words);
    case Kill(f) => KillNamesWords(s, KillFact(s, f, true, built), words);
  }

  lemma MoreWords(s: Net, words: nat, more: nat)
    requires s.Rows() && FactsNameWords(s, words) && words <= more
    ensures FactsNameWords(s, more)
  {
  }

  /** A change of the dictionary that can be undone there can be undone with the facts in place. */
  lemma LexOpGrew(w: World, s: Setting, lex: Lex)
    requires Sound(w, s.hash) && Since(w.lex, lex, s.hash) && Lawful(lex, s.hash) && |lex.entries| <= DICTIONARY_SIZE
    ensures Grew(w, w.(lex := lex), s.hash) && Grew(w, Grown(w, lex), s.hash)
  {
    hide Threaded, Lawful, FactsNameWords, Persist, SameCells, Rewinds, Undoes, Blanked;
    ThreadedShape(w.net);
    SinceGrows(w.lex, lex, s.hash);
    MoreWords(w.net, |w.lex.entries|, |lex.entries|);
    BlankedIsSame(w.net, |w.lex.entries|, |lex.entries|);
    UndoesRefl(w.net);
  }

  lemma UndoesRefl(s: Net)
    ensures Undoes(s, s)
  {
  }

  lemma SinceGrows(a: Lex, b: Lex, h: Hashing)
    requires Since(a, b, h)
    ensures |a.entries| <= |b.entries| && a.used <= b.used && Settled(a) && Settled(b)
  {
  }

  /** Creating and killing facts while planning, storing words and changing properties and
    * flags: all of them can be undone. */
  lemma PerformGrew(w: World, s: Setting, op: Op)
    requires Sound(w, s.hash)
    ensures w.net.Shaped() && s.hash.buckets > 0 && ZoneEnd(s.hash) <= |w.lex.entries|
    ensures Grew(w, Perform(w, s, op), s.hash)
  {
    hide Threaded, Lawful, FactsNameWords, Since, Grew, Settled, StoreWord, AddProperty, RemoveProperty, AddSystemFlag, RemoveSystemFlag, Grown, Net.Shaped;
    LawfulZone(w.lex, s.hash);
    ThreadedShape(w.net);
    GrewRefl(w, s.hash);
    match op
    case OnFacts(f) => FactOpGrew(w, s, f);
    case StoreOp(word, properties) =>
      if HasRoom(w.lex) {
        StoreWordSince(w.lex, s.hash, word, properties);
        StoreWordKeepsLawful(w.lex, s.hash, word, properties);
        LexOpGrew(w, s, StoreWord(w.lex, s.hash, word, properties).0);
      }
    case AddPropertyOp(i, flag) =>
      if i < |w.lex.entries| && HasRoom(w.lex) {
        AddPropertySince(w.lex, s.hash, i, flag);
        AddPropertyKeepsLawful(w.lex, s.hash, i, flag);
        LexOpGrew(w, s, AddProperty(w.lex, s.hash, i, flag));
      }
    case RemovePropertyOp(i, flag) => if i < |w.lex.entries| { FlagOpGrew(w, s, i, flag); }
    case AddFlagOp(i, flag) => if i < |w.lex.entries| { FlagOpGrew(w, s, i, flag); }
    case RemoveFlagOp(i, flag) => if i < |w.lex.entries| { FlagOpGrew(w, s, i, flag); }
  }

  lemma FlagOpGrew(w: World, s: Setting, i: nat, flag: bv64)
    requires Sound(w, s.hash) && i < |w.lex.entries|
    ensures Grew(w, w.(lex := AddSystemFlag(w.lex, i, flag)), s.hash)
    ensures Grew(w, w.(lex := RemoveSystemFlag(w.lex, i, flag)), s.hash)
    ensures Grew(w, w.(lex := RemoveProperty(w.lex, i, flag)), s.hash)
  {
    hide Threaded, Lawful, FactsNameWords, Since, Grew, Settled, RemoveProperty, AddSystemFlag, RemoveSystemFlag, SameEntry;
    FlagsSince(w.lex, s.hash, i, flag);
    FlagsKeepLawful(w.lex, s.hash, i, flag);
    FlagsAreSameTable(w.lex, i, flag);
    LexOpGrew(w, s, AddSystemFlag(w.lex, i, flag));
    LexOpGrew(w, s, RemoveSystemFlag(w.lex, i, flag));
    LexOpGrew(w, s, RemoveProperty(w.lex, i, flag));
  }

  // ----- Marks --------------------------------------------------------------------------------

  lemma CellSince(k: Lex, cell: Cell, h: Hashing)
    requires Settled(k)
    ensures Since(k, AllocateCell(k, cell, 16), h)
  {
    hide Allocate, GetNextNode;
    var r := AllocateCell(k, cell, 16);
    assert LockedProperties(r) == LockedProperties(k) && LockedFlags(r) == LockedFlags(k);
    RewindFrame(k.cells, r.cells, k.propertyLog, k.used, LockedProperties(k));
    RewindFrame(k.cells, r.cells, k.flagLog, k.used, LockedFlags(k));
  }

  /** Saving a mark changes nothing but the string arena. */
  lemma SaveIsSound(a: World, id: int, h: Hashing)
    requires Sound(a, h)
    ensures |a.net.flags| >= 1
    ensures var m := SaveBacktrack(a, id);
            && Sound(m, h) && Since(a.lex, m.lex, h) && m.net == a.net && m.lex.entries == a.lex.entries
            && m.point == m.lex.used >= a.lex.used + MARK_SIZE
  {
    hide Threaded, Lawful, FactsNameWords, Rewinds, Persist, SameCells, AllocateCell;
    ThreadedShape(a.net);
    var m := SaveBacktrack(a, id);
    CellSince(a.lex, Mark(id, a.point - a.base, |a.net.flags| - 1, |a.lex.entries|), h);
    SameTableRefl(a.lex, m.lex);
    SameTableIsLawful(a.lex, m.lex, h);
  }

  /** `w` grew out of the world in which a mark was just saved. */
  ghost predicate Marked(a: World, id: int, w: World, h: Hashing) {
    Sound(a, h) && |a.net.flags| >= 1 && Grew(SaveBacktrack(a, id), w, h)
  }

  /** The mark is still there, whatever was done since. */
  lemma MarkSurvives(a: World, id: int, w: World, h: Hashing)
    requires Marked(a, id, w, h)
    ensures AtMark(w, h) && w.lex.cells[w.point] == Mark(id, a.point - a.base, |a.net.flags| - 1, |a.lex.entries|)
    ensures w.point == SaveBacktrack(a, id).lex.used
  {
    hide Threaded, Lawful, FactsNameWords, Rewinds, Persist, Undoes, Settled;
    LawfulZone(a.lex, h);
    SaveIsSound(a, id, h);
    assert w.point <= SaveBacktrack(a, id).lex.used;
  }

  lemma RefreshEffect(a: World, id: int, w: World, h: Hashing)
    requires Marked(a, id, w, h)
    ensures AtMark(w, h)
    ensures RefreshMark(w, h) == w.(net := a.net, lex := Release(w.lex, h, |a.lex.entries|, SaveBacktrack(a, id).lex.used))
  {
    hide Threaded, Lawful, FactsNameWords, Since, Settled, Release, AllocateCell;
    MarkSurvives(a, id, w, h);
  }

  /** RefreshMark gives back the world as it was when the mark was saved, mark and all. */
  lemma RefreshRestores(a: World, id: int, w: World, h: Hashing)
    requires Marked(a, id, w, h)
    ensures AtMark(w, h) && h.buckets > 0 && ZoneEnd(h) <= |a.lex.entries|
    ensures var m := SaveBacktrack(a, id); var r := RefreshMark(w, h);
            && r.net == m.net && r.point == m.point && r.base == m.base
            && ZoneEnd(h) <= |m.lex.entries| && Restored(m.lex, r.lex, h) && Marked(a, id, r, h)
  {
    hide Threaded, Lawful, FactsNameWords, Since, Settled, Release, Restored, AtMark, RefreshMark, SaveBacktrack;
    LawfulZone(a.lex, h);
    SaveIsSound(a, id, h);
    MarkSurvives(a, id, w, h);
    RefreshEffect(a, id, w, h);
    var m := SaveBacktrack(a, id);
    ReleaseRestores(m.lex, w.lex, h);
    var r := RefreshMark(w, h);
    RestoredCounts(m.lex, r.lex, h);
    SinceGrows(m.lex, r.lex, h);
    UndoesRefl(m.net);
  }

  lemma RestoredCounts(a: Lex, r: Lex, h: Hashing)
    requires h.buckets > 0 && ZoneEnd(h) <= |a.entries| && Restored(a, r, h)
    ensures |r.entries| == |a.entries| && r.used == a.used
  {
  }

  /** Facts and dictionary as a reader sees them: Restored, but for the size of the string arena. */
  ghost predicate SameView(a: World, b: World, h: Hashing)
    requires h.buckets > 0 && ZoneEnd(h) <= |a.lex.entries|
  {
    && a.net == b.net
    && |b.lex.entries| == |a.lex.entries|
    && (forall i :: 0 <= i < |a.lex.entries| ==> SameSpelling(a.lex.entries[i], b.lex.entries[i]))
    && Buckets(b.lex, h) == Buckets(a.lex, h)
    && a.lex.locked == b.lex.locked <= |a.lex.entries|
    && LockedProperties(b.lex) == LockedProperties(a.lex) && LockedFlags(b.lex) == LockedFlags(a.lex)
    && b.lex.propertyLog == a.lex.propertyLog && b.lex.flagLog == a.lex.flagLog
  }

  lemma RestoredIsSameView(a: World, id: int, r: World, h: Hashing)
    requires h.buckets > 0 && ZoneEnd(h) <= |a.lex.entries| && |a.net.flags| >= 1 && Settled(a.lex)
    requires var m := SaveBacktrack(a, id); Restored(m.lex, r.lex, h) && r.net == m.net
    ensures SameView(a, r, h)
  {
    hide AllocateCell;
    var m := SaveBacktrack(a, id);
    assert Buckets(m.lex, h) == Buckets(a.lex, h) by { assert m.lex.entries == a.lex.entries; }
    assert LockedProperties(m.lex) == LockedProperties(a.lex);
    assert LockedFlags(m.lex) == LockedFlags(a.lex);
  }

  /** RestoreMark gives back the facts, the dictionary and the mark before. */
  lemma RestoreRestores(a: World, id: int, w: World, h: Hashing)
    requires Marked(a, id, w, h)
    ensures AtMark(w, h) && h.buckets > 0 && ZoneEnd(h) <= |a.lex.entries|
    ensures var r := RestoreMark(w, h); SameView(a, r, h) && r.point == a.point && Grew(a, r, h)
  {
    hide Threaded, Lawful, FactsNameWords, Since, Settled, Release, Restored, SameView;
    RefreshRestores(a, id, w, h);
    MarkSurvives(a, id, w, h);
    SaveIsSound(a, id, h);
    var m := SaveBacktrack(a, id);
    var r := RefreshMark(w, h);
    SinceGrows(a.lex, m.lex, h);
    RestoredIsSameView(a, id, r, h);
    SameViewFrame(a, r, RestoreMark(w, h), h);
    SinceTrans(a.lex, m.lex, r.lex, h);
    UndoesRefl(a.net);
  }

  lemma SameViewFrame(a: World, b: World, c: World, h: Hashing)
    requires h.buckets > 0 && ZoneEnd(h) <= |a.lex.entries|
    requires SameView(a, b, h) && c.net == b.net && c.lex == b.lex
    ensures SameView(a, c, h)
  {
  }

  /** What is left in the dictionary once a mark that was on top of it, or not, is flushed. */
  function Flushed(k: Lex, mark: nat): Lex
    requires mark >= MARK_SIZE
  {
    if mark == k.used then ReleaseStrings(k, mark - MARK_SIZE) else k
  }

  lemma FlushedSince(a: Lex, m: Lex, k: Lex, h: Hashing)
    requires Since(a, m, h) && Since(m, k, h) && m.used >= a.used + MARK_SIZE
    requires m.propertyLog == a.propertyLog && m.flagLog == a.flagLog
    ensures Since(a, Flushed(k, m.used), h)
    ensures Flushed(k, m.used).entries == k.entries
  {
    hide Persist;
    SinceTrans(a, m, k, h);
    var r := Flushed(k, m.used);
    if m.used == k.used {
      assert k.propertyLog == a.propertyLog && k.flagLog == a.flagLog;
      assert LockedProperties(k) == LockedProperties(m) && LockedFlags(k) == LockedFlags(m);
      assert LockedProperties(m) == LockedProperties(a) && LockedFlags(m) == LockedFlags(a);
      assert LockedProperties(r) == LockedProperties(k) && LockedFlags(r) == LockedFlags(k);
      PersistFrame(a, k, a, r, ZoneEnd(h));
      FlushedCells(a, m, k, h);
    }
  }

  lemma FlushedCells(a: Lex, m: Lex, k: Lex, h: Hashing)
    requires Since(a, k, h) && m.used >= a.used + MARK_SIZE
    ensures SameCells(a.cells, Flushed(k, m.used).cells, a.used)
    ensures m.used == k.used ==> forall c :: c in Flushed(k, m.used).cells ==> c <= m.used - MARK_SIZE
  {
    hide Persist, Rewinds;
  }

  /** FlushMark keeps every effect and goes back to the mark before. */
  lemma FlushKeeps(a: World, id: int, w: World, h: Hashing)
    requires Marked(a, id, w, h)
    ensures AtMark(w, h)
    ensures var r := FlushMark(w);
            && r.net == w.net && r.lex.entries == w.lex.entries
            && r.lex.propertyLog == w.lex.propertyLog && r.lex.flagLog == w.lex.flagLog
            && r.point == a.point && Grew(a, r, h)
  {
    hide Threaded, Lawful, FactsNameWords, Since, Undoes, Release, ReleaseStrings, AllocateCell;
    SaveIsSound(a, id, h);
    MarkSurvives(a, id, w, h);
    var m := SaveBacktrack(a, id);
    SaveLogs(a, id);
    FlushedSince(a.lex, m.lex, w.lex, h);
    var r := FlushMark(w);
    SinceGrows(a.lex, r.lex, h);
    SameTableRefl(w.lex, r.lex);
    SameTableIsLawful(w.lex, r.lex, h);
    FlushedFields(w.lex, m.lex.used);
  }

  lemma SaveLogs(a: World, id: int)
    requires |a.net.flags| >= 1
    ensures var m := SaveBacktrack(a, id);
            m.lex.propertyLog == a.lex.propertyLog && m.lex.flagLog == a.lex.flagLog && m.net == a.net && m.base == a.base
  {
  }

  lemma FlushedFields(k: Lex, mark: nat)
    requires mark >= MARK_SIZE
    ensures var r := Flushed(k, mark); r.propertyLog == k.propertyLog && r.flagLog == k.flagLog && r.entries == k.entries
  {
  }

  /** Flushing a mark gives its space back if nothing was allocated since, but for what its alignment took;
    * and changes no space otherwise. */
  lemma FlushGivesBack(a: World, id: int, w: World, h: Hashing)
    requires Marked(a, id, w, h)
    ensures AtMark(w, h)
    ensures var r := FlushMark(w);
            if w.lex.used == SaveBacktrack(a, id).lex.used then a.lex.used <= r.lex.used < a.lex.used + 16
            else r.lex.used == w.lex.used
  {
    hide Threaded, Lawful, FactsNameWords, Since, Undoes, Release, Allocate;
    MarkSurvives(a, id, w, h);
    AllocateIs(a.lex.used, 16, 16);
  }

  // ----- Runs between a mark and its restoration ------------------------------------------------

  /** A run of operations. */
  function Run(w: World, s: Setting, ops: seq<Op>): (r: World)
    requires Sound(w, s.hash)
    ensures Grew(w, r, s.hash)
    decreases |ops|
  {
    GrewRefl(w, s.hash);
    if ops == [] then w
    else
      PerformGrew(w, s, ops[0]);
      var w1 := Perform(w, s, ops[0]);
      var r := Run(w1, s, ops[1..]);
      GrewTrans(w, w1, r, s.hash);
      r
  }

  /** For any run of fact creations and kills, word stores and property and flag changes made after
    * SaveBacktrack, RestoreMark gives back every flag, link and list head of the facts, the buckets
    * of the dictionary, the properties and flags of the locked words, the logs, and the mark
    * before. */
  lemma RunIsRestored(a: World, id: int, s: Setting, ops: seq<Op>)
    requires Sound(a, s.hash)
    ensures |a.net.flags| >= 1 && Sound(SaveBacktrack(a, id), s.hash) && s.hash.buckets > 0 && ZoneEnd(s.hash) <= |a.lex.entries|
    ensures var w := Run(SaveBacktrack(a, id), s, ops);
            AtMark(w, s.hash) && var r := RestoreMark(w, s.hash); SameView(a, r, s.hash) && r.point == a.point && r.base == a.base && Sound(r, s.hash)
  {
    hide Sound, AtMark, RestoreMark, SameView, Run, SaveBacktrack;
    SaveIsSound(a, id, s.hash);
    RestoreRestores(a, id, Run(SaveBacktrack(a, id), s, ops), s.hash);
  }
}
