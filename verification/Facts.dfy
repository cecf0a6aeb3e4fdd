/** The fact arena of factSystem.cpp: triples threaded onto lists through a head kept in
  * each word and each fact, and a next link kept in each fact, for each of three roles.
  *
  * A `Net` is a snapshot of the arena, one column for each field of the FACT record. Row 0
  * is the null fact and the last row is `factFree`. The head columns cover the facts in use
  * and the words of the dictionary.
  */
module Facts {
  import opened Threads

  /** The three fields of a fact. The list code treats them alike, through the getter and
    * setter pointers it is passed. */
  datatype Role = Subject | Verb | Object

  datatype Triple = Triple(subj: nat, verb: nat, obj: nat) {
    function At(role: Role): nat {
      match role
      case Subject => subj
      case Verb => verb
      case Object => obj
    }

    function With(role: Role, v: nat): Triple {
      match role
      case Subject => this.(subj := v)
      case Verb => this.(verb := v)
      case Object => this.(obj := v)
    }
  }

  /** The flag word of a fact, one member for each bit the code tests. `marked` is both
    * MARKED_FACT and ITERATOR_FACT, which are the same bit; `refs` holds FACTSUBJECT,
    * FACTVERB and FACTOBJECT; `rest` is every other bit. */
  datatype Flags = Flags(dead: bool, transient: bool, marked: bool, duplicate: bool, refs: set<Role>, rest: nat)

  const NO_FLAGS := Flags(false, false, false, false, {}, 0)
  const ZERO := Triple(0, 0, 0)

  /** What a field of a fact names: a word of the dictionary or another fact. */
  datatype Node = WordNode(word: nat) | FactNode(fact: nat)

  const DICTIONARY_SIZE: nat := 0x100000

  /** The word index of a meaning: its low 20 bits. */
  function Meaning2Word(m: nat): nat { m % DICTIONARY_SIZE }

  /** The 6-bit ontology index of a meaning, 0 when the meaning is generic. */
  function Meaning2Index(m: nat): nat { (m / DICTIONARY_SIZE) % 64 }

  function Target(value: Triple, refs: set<Role>, role: Role): Node {
    if role in refs then FactNode(value.At(role)) else WordNode(Meaning2Word(value.At(role)))
  }

  /** The next and head columns of one role. */
  datatype Links = Links(next: seq<nat>, head: map<Node, nat>) {
    function Head(node: Node): nat { if node in head then head[node] else 0 }
  }

  datatype Net = Net(flags: seq<Flags>, value: seq<Triple>, subj: Links, verb: Links, obj: Links) {
    function At(role: Role): Links {
      match role
      case Subject => subj
      case Verb => verb
      case Object => obj
    }

    function With(role: Role, links: Links): Net {
      match role
      case Subject => this.(subj := links)
      case Verb => this.(verb := links)
      case Object => this.(obj := links)
    }

    function SetNext(role: Role, i: nat, v: nat): Net
      requires i < |At(role).next|
    {
      With(role, Links(At(role).next[i := v], At(role).head))
    }

    function SetHead(role: Role, node: Node, v: nat): Net {
      With(role, Links(At(role).next, At(role).head[node := v]))
    }

    /** The columns have one length. */
    predicate Rows() {
      |flags| >= 1 && |flags| == |value| == |subj.next| == |verb.next| == |obj.next|
    }

    /** The head columns have one domain, which holds exactly the facts in use and some words. */
    ghost predicate Shaped() {
      && Rows() && flags[0] == NO_FLAGS && value[0] == ZERO
      && subj.head.Keys == verb.head.Keys == obj.head.Keys
      && (forall f: nat :: FactNode(f) in subj.head <==> 0 < f < |flags|)
    }

    predicate Has(node: Node) { node in subj.head && node in verb.head && node in obj.head }

    /** Facts without a subject are undo records; they are on no list. */
    predicate Indexed(i: nat)
      requires i < |value|
    {
      value[i].subj != 0
    }

    function KeyAt(role: Role, i: nat): Option<Node>
      requires i < |value| && i < |flags|
    {
      if value[i].subj != 0 then Some(Target(value[i], flags[i].refs, role)) else None
    }

    /** The lists of one role, each row filed under the node it holds in that role. */
    ghost function View(role: Role): Lists<Node>
      requires |value| == |flags|
    {
      Lists(seq(|value|, i requires 0 <= i < |value| => KeyAt(role, i)), At(role).next, At(role).head)
    }

    predicate Live(i: nat) { 0 < i < |flags| && !flags[i].dead }

    function SetDead(i: nat, dead: bool): Net
      requires i < |flags|
    {
      this.(flags := flags[i := flags[i].(dead := dead)])
    }

    /** First live fact at or after `h` on its list: the loop of the Nondead walkers. */
    function FirstLive(role: Role, h: nat): (g: nat)
      ensures g != 0 ==> Live(g) && g <= h
      decreases h
    {
      if h == 0 || h >= |flags| then 0
      else if !flags[h].dead then h
      else if h < |At(role).next| && At(role).next[h] < h then FirstLive(role, At(role).next[h])
      else 0
    }

    function NondeadHead(role: Role, node: Node): nat {
      FirstLive(role, At(role).Head(node))
    }

    function NondeadNext(role: Role, g: nat): (n: nat)
      requires g < |At(role).next|
      ensures n != 0 ==> Live(n) && n < g
    {
      if At(role).next[g] < g then FirstLive(role, At(role).next[g]) else 0
    }
  }

  /** A fact-valued field names an older fact. */
  ghost predicate RefsAreOlder(s: Net)
    requires |s.value| == |s.flags|
  {
    forall i, role :: 0 < i < |s.flags| && s.Indexed(i) && role in s.flags[i].refs ==> s.value[i].At(role) < i
  }

  /** Objects are words: a fact-valued object is threaded wrongly (see FactDefects). */
  ghost predicate ObjectsAreWords(s: Net)
    requires |s.value| == |s.flags|
  {
    forall i :: 0 < i < |s.flags| && s.Indexed(i) ==> Object !in s.flags[i].refs
  }

  /** The law of the arena: in every role the list of every word and fact is exactly the
    * facts that hold it in that role, newest first. */
  ghost predicate Threaded(s: Net) {
    && s.Shaped() && RefsAreOlder(s) && ObjectsAreWords(s)
    && forall role :: Exact(s.View(role))
  }

  // ----- Creating facts ----------------------------------------------------------------

  /** A fresh row: its links and the heads of the lists that start at it are zero. */
  function Alloc(s: Net, value: Triple, flags: Flags): Net {
    var node := FactNode(|s.flags|);
    Net(s.flags + [flags], s.value + [value],
        Links(s.subj.next + [0], s.subj.head[node := 0]),
        Links(s.verb.next + [0], s.verb.head[node := 0]),
        Links(s.obj.next + [0], s.obj.head[node := 0]))
  }

  /** Gives the newest row back. */
  function Drop(s: Net): Net
    requires s.Rows()
  {
    var n := |s.flags| - 1;
    var node := FactNode(n);
    Net(s.flags[..n], s.value[..n],
        Links(s.subj.next[..n], s.subj.head - {node}),
        Links(s.verb.next[..n], s.verb.head - {node}),
        Links(s.obj.next[..n], s.obj.head - {node}))
  }

  /** Threads the newest fact onto the list of the node it holds in `role`. Where the object
    * is a fact, the new row takes that fact's object *next* as its own next; every other case
    * takes the head. None when the field names no fact. */
  function Link(s: Net, role: Role): Option<Net>
    requires s.Rows()
  {
    var cur := |s.flags| - 1;
    var v := s.value[cur].At(role);
    var links := s.At(role);
    if role !in s.flags[cur].refs && v != 0 then
      var node := WordNode(Meaning2Word(v));
      Some(s.With(role, Links(links.next[cur := links.Head(node)], links.head[node := cur])))
    else if 0 < v < |s.flags| then
      var node := FactNode(v);
      var follow := if role == Object then links.next[v] else links.Head(node);
      Some(s.With(role, Links(links.next[cur := follow], links.head[node := cur])))
    else
      None
  }

  /** The words named by a new fact exist. */
  predicate WordsExist(s: Net, value: Triple, refs: set<Role>) {
    forall role :: role !in refs && value.At(role) != 0 ==> s.Has(Target(value, refs, role))
  }

  /** CreateFastFact: allocates a fact and threads it by subject, verb and object in turn.
    * A field that names no fact gives the row back, but not the heads already set. The
    * result is the new index, 0 for none. */
  function CreateFast(s: Net, value: Triple, flags: Flags, planning: bool): (Net, nat)
    requires s.Rows() && WordsExist(s, value, flags.refs)
  {
    var cur := |s.flags|;
    var s0 := Alloc(s, value, flags);
    match Link(s0, Subject)
    case None => (Drop(s0), 0)
    case Some(s1) =>
      match Link(s1, Verb)
      case None => (Drop(s1), 0)
      case Some(s2) =>
        match Link(s2, Object)
        case None => (Drop(s2), 0)
        case Some(s3) =>
          (if planning then s3.(flags := s3.flags[cur := s3.flags[cur].(transient := true)]) else s3, cur)
  }

  /** SpecialFact: an undo record, born dead and transient, on no list. */
  function SpecialFact(s: Net, verb: nat, obj: nat, walk: bool): Net {
    Alloc(s, Triple(0, verb, obj), Flags(true, true, walk, false, {}, 0))
  }

  // ----- Freeing facts -----------------------------------------------------------------

  /** What FreeFact dereferences exists once the newest row is out of use: the fact named by
    * a death record, and the node of each field of an indexed fact. */
  predicate Freeable(s: Net) {
    && s.Rows() && |s.flags| > 1
    && var top := |s.flags| - 1;
       if s.value[top].subj != 0 then
         forall role :: var node := Target(s.value[top], s.flags[top].refs, role); node != FactNode(top) && s.Has(node)
       else
         s.value[top].obj == 0 ==> 0 < s.value[top].verb < top
  }

  /** FreeFact of the newest fact, which leaves the arena. A record with an object changes no
    * fact: it holds an iterator's place, or the old value of a variable. */
  function FreeTop(s: Net): Net
    requires Freeable(s)
  {
    var top := |s.flags| - 1;
    var r := Drop(s);
    if s.value[top].subj == 0 then
      if s.value[top].obj == 0 then r.SetDead(s.value[top].verb, false) else r
    else
      r.SetHead(Subject, Target(s.value[top], s.flags[top].refs, Subject), s.subj.next[top])
       .SetHead(Verb, Target(s.value[top], s.flags[top].refs, Verb), s.verb.next[top])
       .SetHead(Object, Target(s.value[top], s.flags[top].refs, Object), s.obj.next[top])
  }
}
