/** What each operation of a plan does, told by the rows of the facts and the bits of the words. */
module OpEffects {
  import opened Words
  import opened Facts
  import opened FactLaws
  import opened FactKill
  import opened FactUndo
  import opened FactClosure
  import opened Lexicon
  import opened LexiconLaws
  import opened LexiconUndo
  import opened LexiconEffects
  import opened Backtrack

  /** The fields of a fact about to be made: none missing, each a word in use or, not in object place, a
    * fact in use. */
  ghost predicate Named(w: World, value: Triple, refs: set<Role>) {
    && Object !in refs
    && forall role :: value.At(role) != 0
         && if role in refs then value.At(role) < |w.net.flags|
            else value.At(role) % 0x100000 < |w.lex.entries| && w.net.Has(WordNode(value.At(role) % 0x100000))
  }

  lemma NamedIsValid(w: World, value: Triple, refs: set<Role>)
    requires w.net.Shaped()
    ensures Named(w, value, refs) <==> Valid(w.net, value, refs) && NamesWords(value, refs, |w.lex.entries|)
  {
    assert forall role :: role in refs ==> Target(value, refs, role) == FactNode(value.At(role));
    assert forall role :: role !in refs ==> Target(value, refs, role) == WordNode(value.At(role) % 0x100000);
  }

  lemma SoundParts(w: World, h: Hashing)
    requires Sound(w, h)
    ensures w.net.Shaped() && w.net.Rows() && Threaded(w.net) && Lawful(w.lex, h) && h.buckets > 0 && ZoneEnd(h) <= |w.lex.entries|
    ensures |w.lex.entries| <= DICTIONARY_SIZE
  {
  }

  /** A creation whose fields all name something adds one row, of its own fields and flags and for this
    * plan only, which heads the lists of what it names; any other changes nothing. */
  lemma CreationAdds(w: World, s: Setting, value: Triple, flags: Flags)
    requires Sound(w, s.hash)
    ensures w.net.Shaped() && s.hash.buckets > 0 && ZoneEnd(s.hash) <= |w.lex.entries|
    ensures var r := Perform(w, s, OnFacts(Create(value, flags)));
            && (!Named(w, value, flags.refs) ==> r == w)
            && (Named(w, value, flags.refs) ==>
                  && r == w.(net := r.net)
                  && r.net.flags == w.net.flags + [flags.(transient := true)] && r.net.value == w.net.value + [value]
                  && forall role :: r.net.At(role).Head(Target(value, flags.refs, role)) == |w.net.flags|)
  {
    hide Sound, Named, Valid, NamesWords, Threaded, Lawful, CreateFast, Net.Shaped, Created;
    SoundParts(w, s.hash);
    NamedIsValid(w, value, flags.refs);
    if Named(w, value, flags.refs) {
      CreateKeepsThreaded(w.net, value, flags, true);
      CreateEffect(w.net, value, flags, true);
      CreatedBody(w.net, value, flags);
    }
  }

  lemma CreatedBody(s: Net, value: Triple, flags: Flags)
    ensures var r := Created(s, value, flags, true);
            r.flags == s.flags + [flags.(transient := true)] && r.value == s.value + [value]
  {
  }

  /** A kill of a fact alive that is not built in: dead afterwards are those that were and exactly those
    * that use the fact, directly or not; no field changes, and no word. Any other kill changes nothing. */
  lemma KillingKills(w: World, s: Setting, f: nat)
    requires Sound(w, s.hash) && ClosedFrom(w.net, 1)
    ensures w.net.Shaped() && s.hash.buckets > 0 && ZoneEnd(s.hash) <= |w.lex.entries|
    ensures var r := Perform(w, s, OnFacts(Kill(f))); var n := |w.net.flags|;
            if 0 < f < n && !w.net.flags[f].dead && f > s.built then
              && r == w.(net := r.net) && n <= |r.net.flags| == |r.net.value| && r.net.value[..n] == w.net.value
              && (forall g: nat :: 0 < g < n ==> (r.net.flags[g].dead <==> w.net.flags[g].dead || Depends(w.net, g, f)))
              && (forall g :: 0 <= g < n ==> r.net.flags[g] == w.net.flags[g].(dead := r.net.flags[g].dead))
              && forall g :: n <= g < |r.net.flags| ==> r.net.flags[g].dead && r.net.value[g].subj == 0
            else r == w
  {
    hide Sound, Threaded, Lawful, Depends, ClosedFrom, LinksKept;
    SoundParts(w, s.hash);
    if w.net.Live(f) && f > s.built { KillIsClosure(w.net, f, true, s.built); }
    DeadensBody(w.net, KillFact(w.net, f, true, s.built));
  }

  lemma DeadensBody(s: Net, r: Net)
    requires Deadens(s, r)
    ensures var n := |s.flags|;
            && n <= |r.flags| == |r.value| && r.value[..n] == s.value
            && (forall g :: 0 <= g < n ==> r.flags[g] == s.flags[g].(dead := r.flags[g].dead))
            && forall g :: n <= g < |r.flags| ==> r.flags[g].dead && r.value[g].subj == 0
  {
    hide LinksKept;
    assert |s.flags| == |s.value|;
  }

  /** The words of `k` are those of `r` as far as they go. */
  ghost predicate SameWords(k: Lex, r: Lex) {
    |k.entries| <= |r.entries| && forall i :: 0 <= i < |k.entries| && k.entries[i].word != "" ==> r.entries[i].word == k.entries[i].word
  }

  /** A text stored while there is room is a word afterwards, with the properties it had and those asked for;
    * no other word and no fact changes. */
  lemma StoringStores(w: World, s: Setting, word: string, properties: bv64, b: bv64) returns (e: nat)
    requires Sound(w, s.hash) && |w.lex.entries| + 2 <= 0x100000 && OneBit(b)
    ensures w.net.Shaped() && s.hash.buckets > 0 && ZoneEnd(s.hash) <= |w.lex.entries|
    ensures var r := Perform(w, s, StoreOp(word, properties));
            && r == w.(lex := r.lex) && SameWords(w.lex, r.lex)
            && e < |r.lex.entries| && r.lex.entries[e].word == StoredAs(s.hash, word, properties)
            && SameBitsBut(w.lex, r.lex, e) && r.lex.entries[e].systemFlags == FlagsOf(w.lex, e)
            && (Has(r.lex.entries[e].properties, b)
                <==> Has(PropertiesOf(w.lex, e), b) || (word != "" && Has(properties, b) && b != 0x8000_0000_0000_0000))
  {
    hide Sound, Threaded, Lawful, StoreWord, StoredAs, Has, OneBit, SameBitsBut, Keeps, Blanked, Net.Shaped;
    SoundParts(w, s.hash);
    StoreWordKeepsLawful(w.lex, s.hash, word, properties);
    StoreWordBits(w.lex, s.hash, word, properties, b);
    var k := StoreWord(w.lex, s.hash, word, properties).0;
    e := StoreWord(w.lex, s.hash, word, properties).1;
    KeepsWords(w.lex, k);
    SoundBlanked(w, s.hash, |k.entries|);
  }

  lemma KeepsWords(k: Lex, r: Lex)
    requires Keeps(k, r)
    ensures SameWords(k, r)
  {
  }

  lemma SoundBlanked(w: World, h: Hashing, to: nat)
    requires Sound(w, h)
    ensures Blanked(w.net, |w.lex.entries|, to) == w.net
  {
    hide Threaded, Lawful, Settled, Blanked, FactsNameWords;
    BlankedIsSame(w.net, |w.lex.entries|, to);
  }

  /** A property added while there is room for a header word. */
  lemma AddingProperty(w: World, s: Setting, i: nat, flag: bv64, b: bv64)
    requires Sound(w, s.hash) && i < |w.lex.entries| && |w.lex.entries| + 2 <= 0x100000
    ensures w.net.Shaped() && s.hash.buckets > 0 && ZoneEnd(s.hash) <= |w.lex.entries|
    ensures var r := Perform(w, s, AddPropertyOp(i, flag));
            && r == w.(lex := r.lex) && SameWords(w.lex, r.lex) && SameBitsBut(w.lex, r.lex, i)
            && r.lex.entries[i].systemFlags == w.lex.entries[i].systemFlags
            && (Has(r.lex.entries[i].properties, b) <==> Has(w.lex.entries[i].properties, b) || Has(flag, b))
  {
    hide Sound, Threaded, Lawful, AddProperty, Has, SameBitsBut, Keeps, Blanked, Net.Shaped;
    SoundParts(w, s.hash);
    AddPropertyKeepsLawful(w.lex, s.hash, i, flag);
    AddPropertyBits(w.lex, s.hash, i, flag, b);
    KeepsWords(w.lex, AddProperty(w.lex, s.hash, i, flag));
    SoundBlanked(w, s.hash, |AddProperty(w.lex, s.hash, i, flag).entries|);
  }

  /** A property removed. */
  lemma RemovingProperty(w: World, s: Setting, i: nat, flag: bv64, b: bv64)
    requires Sound(w, s.hash) && i < |w.lex.entries| && OneBit(b)
    ensures w.net.Shaped() && s.hash.buckets > 0 && ZoneEnd(s.hash) <= |w.lex.entries|
    ensures var r := Perform(w, s, RemovePropertyOp(i, flag));
            && r == w.(lex := r.lex) && SameWords(w.lex, r.lex) && SameBitsBut(w.lex, r.lex, i)
            && (Has(r.lex.entries[i].properties, b) <==> Has(w.lex.entries[i].properties, b) && !Has(flag, b))
  {
    hide Sound, Threaded, Lawful, RemoveProperty, Has, OneBit, SameBitsBut, SameEntry, Net.Shaped;
    SoundParts(w, s.hash);
    FlagsAreSameTable(w.lex, i, flag);
    TableWords(w.lex, RemoveProperty(w.lex, i, flag));
    RemovePropertyBits(w.lex, i, flag, b);
  }

  lemma TableWords(k: Lex, r: Lex)
    requires SameTable(k, r)
    ensures SameWords(k, r)
  {
  }

  /** Flags added and removed. */
  lemma FlagsChange(w: World, s: Setting, i: nat, flag: bv64, b: bv64)
    requires Sound(w, s.hash) && i < |w.lex.entries| && OneBit(b)
    ensures w.net.Shaped() && s.hash.buckets > 0 && ZoneEnd(s.hash) <= |w.lex.entries|
    ensures var r := Perform(w, s, AddFlagOp(i, flag)); var word := w.lex.entries[i].word;
            && r == w.(lex := r.lex) && SameWords(w.lex, r.lex) && SameBitsBut(w.lex, r.lex, i)
            && (Has(r.lex.entries[i].systemFlags, b)
                <==> Has(w.lex.entries[i].systemFlags, b) || (Has(flag, b) && (b != 0x200 || (word != "" && word[0] == '~'))))
    ensures var r := Perform(w, s, RemoveFlagOp(i, flag));
            && r == w.(lex := r.lex) && SameWords(w.lex, r.lex) && SameBitsBut(w.lex, r.lex, i)
            && (Has(r.lex.entries[i].systemFlags, b) <==> Has(w.lex.entries[i].systemFlags, b) && !Has(flag, b))
  {
    hide Sound, Threaded, Lawful, AddSystemFlag, RemoveSystemFlag, Has, OneBit, SameEntry, Net.Shaped;
    SoundParts(w, s.hash);
    FlagsAreSameTable(w.lex, i, flag);
    TableWords(w.lex, AddSystemFlag(w.lex, i, flag));
    TableWords(w.lex, RemoveSystemFlag(w.lex, i, flag));
    AddSystemFlagBits(w.lex, i, flag, b);
    RemoveSystemFlagBits(w.lex, i, flag, b);
  }
}
