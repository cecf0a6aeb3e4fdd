/** The arena as factSystem.h lays it out: an array of FACT records, and three list heads in
  * each dictionary word. Its columns are a `Net`. */
module FactRows {
  import opened Facts

  /** The FACT record. */
  datatype Row = Row(flags: Flags, head: Triple, next: Triple, value: Triple)

  const EMPTY_ROW := Row(NO_FLAGS, ZERO, ZERO, ZERO)

  function LinksOf(rows: seq<Row>, heads: seq<Triple>, role: Role): Links {
    Links(seq(|rows|, i requires 0 <= i < |rows| => rows[i].next.At(role)),
          FactHeads(rows, role) + WordHeads(heads, role))
  }

  function FactHeads(rows: seq<Row>, role: Role): map<Node, nat> {
    map f: nat | 0 < f < |rows| :: FactNode(f) := rows[f].head.At(role)
  }

  function WordHeads(heads: seq<Triple>, role: Role): map<Node, nat> {
    map w: nat | w < |heads| :: WordNode(w) := heads[w].At(role)
  }

  function NetOf(rows: seq<Row>, heads: seq<Triple>): Net {
    Net(seq(|rows|, i requires 0 <= i < |rows| => rows[i].flags),
        seq(|rows|, i requires 0 <= i < |rows| => rows[i].value),
        LinksOf(rows, heads, Subject), LinksOf(rows, heads, Verb), LinksOf(rows, heads, Object))
  }

  lemma LinksHead(rows: seq<Row>, heads: seq<Triple>, role: Role, node: Node)
    ensures NetOf(rows, heads).At(role) == LinksOf(rows, heads, role)
    ensures LinksOf(rows, heads, role).Head(node) ==
            match node
            case WordNode(w) => if w < |heads| then heads[w].At(role) else 0
            case FactNode(f) => if 0 < f < |rows| then rows[f].head.At(role) else 0
  {
  }

  lemma SetRowNext(rows: seq<Row>, heads: seq<Triple>, role: Role, i: nat, v: nat, q: Role)
    requires i < |rows|
    ensures var r := rows[i].(next := rows[i].next.With(role, v)); var l := LinksOf(rows, heads, q);
            LinksOf(rows[i := r], heads, q) == if q == role then Links(l.next[i := v], l.head) else l
  {
    var now := rows[i := rows[i].(next := rows[i].next.With(role, v))];
    var l, k := LinksOf(rows, heads, q), LinksOf(now, heads, q);
    assert k.next == if q == role then l.next[i := v] else l.next;
    assert FactHeads(now, q) == FactHeads(rows, q);
  }

  lemma SetFactHead(rows: seq<Row>, heads: seq<Triple>, role: Role, f: nat, v: nat, q: Role)
    requires 0 < f < |rows|
    ensures var r := rows[f].(head := rows[f].head.With(role, v)); var l := LinksOf(rows, heads, q);
            LinksOf(rows[f := r], heads, q) == if q == role then Links(l.next, l.head[FactNode(f) := v]) else l
  {
    var now := rows[f := rows[f].(head := rows[f].head.With(role, v))];
    assert LinksOf(now, heads, q).next == LinksOf(rows, heads, q).next;
    assert FactHeads(now, q) == if q == role then FactHeads(rows, q)[FactNode(f) := v] else FactHeads(rows, q);
    EditBelow(FactHeads(rows, q), WordHeads(heads, q), FactNode(f), v);
  }

  lemma SetWordHead(rows: seq<Row>, heads: seq<Triple>, role: Role, w: nat, v: nat, q: Role)
    requires w < |heads|
    ensures var h := heads[w].With(role, v); var l := LinksOf(rows, heads, q);
            LinksOf(rows, heads[w := h], q) == if q == role then Links(l.next, l.head[WordNode(w) := v]) else l
  {
    var now := heads[w := heads[w].With(role, v)];
    assert WordHeads(now, q) == if q == role then WordHeads(heads, q)[WordNode(w) := v] else WordHeads(heads, q);
    EditAbove(FactHeads(rows, q), WordHeads(heads, q), WordNode(w), v);
  }

  lemma EditAbove<K, V>(a: map<K, V>, b: map<K, V>, k: K, v: V)
    ensures a + b[k := v] == (a + b)[k := v]
  {
  }

  lemma NextInNet(rows: seq<Row>, heads: seq<Triple>, role: Role, i: nat, v: nat)
    requires i < |rows|
    ensures NetOf(rows, heads).Rows() && |NetOf(rows, heads).flags| == |rows|
    ensures NetOf(rows[i := rows[i].(next := rows[i].next.With(role, v))], heads)
         == NetOf(rows, heads).SetNext(role, i, v)
  {
    var now := rows[i := rows[i].(next := rows[i].next.With(role, v))];
    BodyFrame(rows, now, heads);
    SetRowNext(rows, heads, role, i, v, Subject);
    SetRowNext(rows, heads, role, i, v, Verb);
    SetRowNext(rows, heads, role, i, v, Object);
  }

  lemma FactHeadInNet(rows: seq<Row>, heads: seq<Triple>, role: Role, f: nat, v: nat)
    requires 0 < f < |rows|
    ensures NetOf(rows[f := rows[f].(head := rows[f].head.With(role, v))], heads)
         == NetOf(rows, heads).SetHead(role, FactNode(f), v)
  {
    var now := rows[f := rows[f].(head := rows[f].head.With(role, v))];
    BodyFrame(rows, now, heads);
    SetFactHead(rows, heads, role, f, v, Subject);
    SetFactHead(rows, heads, role, f, v, Verb);
    SetFactHead(rows, heads, role, f, v, Object);
  }

  lemma WordHeadInNet(rows: seq<Row>, heads: seq<Triple>, role: Role, w: nat, v: nat)
    requires w < |heads|
    ensures NetOf(rows, heads[w := heads[w].With(role, v)])
         == NetOf(rows, heads).SetHead(role, WordNode(w), v)
  {
    SetWordHead(rows, heads, role, w, v, Subject);
    SetWordHead(rows, heads, role, w, v, Verb);
    SetWordHead(rows, heads, role, w, v, Object);
  }

  lemma BodyFrame(rows: seq<Row>, now: seq<Row>, heads: seq<Triple>)
    requires |now| == |rows|
    requires forall i :: 0 <= i < |rows| ==> now[i].flags == rows[i].flags && now[i].value == rows[i].value
    ensures NetOf(now, heads).flags == NetOf(rows, heads).flags
    ensures NetOf(now, heads).value == NetOf(rows, heads).value
  {
  }

  lemma AddRow(rows: seq<Row>, heads: seq<Triple>, value: Triple, flags: Flags)
    requires |rows| > 0
    ensures NetOf(rows + [Row(flags, ZERO, ZERO, value)], heads) == Alloc(NetOf(rows, heads), value, flags)
  {
    var more := rows + [Row(flags, ZERO, ZERO, value)];
    var s, t := Alloc(NetOf(rows, heads), value, flags), NetOf(more, heads);
    assert t.flags == s.flags && t.value == s.value;
    AddLinks(rows, heads, value, flags, Subject);
    AddLinks(rows, heads, value, flags, Verb);
    AddLinks(rows, heads, value, flags, Object);
  }

  lemma AddLinks(rows: seq<Row>, heads: seq<Triple>, value: Triple, flags: Flags, q: Role)
    requires |rows| > 0
    ensures var l := LinksOf(rows, heads, q);
            LinksOf(rows + [Row(flags, ZERO, ZERO, value)], heads, q) == Links(l.next + [0], l.head[FactNode(|rows|) := 0])
  {
    var l := LinksOf(rows, heads, q);
    var k := LinksOf(rows + [Row(flags, ZERO, ZERO, value)], heads, q);
    assert k.next == l.next + [0];
    assert FactHeads(rows + [Row(flags, ZERO, ZERO, value)], q) == FactHeads(rows, q)[FactNode(|rows|) := 0];
    EditBelow(FactHeads(rows, q), WordHeads(heads, q), FactNode(|rows|), 0);
  }

  lemma EditBelow<K, V>(a: map<K, V>, b: map<K, V>, k: K, v: V)
    requires k !in b
    ensures a[k := v] + b == (a + b)[k := v]
    ensures (a - {k}) + b == (a + b) - {k}
  {
  }

  lemma DropRow(rows: seq<Row>, heads: seq<Triple>)
    requires |rows| > 1
    ensures NetOf(rows, heads).Rows()
    ensures NetOf(rows[..|rows| - 1], heads) == Drop(NetOf(rows, heads))
  {
    var s, t := Drop(NetOf(rows, heads)), NetOf(rows[..|rows| - 1], heads);
    assert t.flags == s.flags && t.value == s.value;
    DropLinks(rows, heads, Subject);
    DropLinks(rows, heads, Verb);
    DropLinks(rows, heads, Object);
  }

  lemma DropLinks(rows: seq<Row>, heads: seq<Triple>, q: Role)
    requires |rows| > 1
    ensures var n := |rows| - 1; var l := LinksOf(rows, heads, q);
            LinksOf(rows[..n], heads, q) == Links(l.next[..n], l.head - {FactNode(n)})
  {
    var n := |rows| - 1;
    var l, k := LinksOf(rows, heads, q), LinksOf(rows[..n], heads, q);
    assert k.next == l.next[..n];
    assert FactHeads(rows[..n], q) == FactHeads(rows, q) - {FactNode(n)};
    EditBelow(FactHeads(rows, q), WordHeads(heads, q), FactNode(n), 0);
  }

  lemma SetRowFlags(rows: seq<Row>, heads: seq<Triple>, i: nat, flags: Flags)
    requires i < |rows|
    ensures |NetOf(rows, heads).flags| == |rows|
    ensures NetOf(rows[i := rows[i].(flags := flags)], heads)
         == NetOf(rows, heads).(flags := NetOf(rows, heads).flags[i := flags])
  {
    var now := rows[i := rows[i].(flags := flags)];
    var s, t := NetOf(rows, heads), NetOf(now, heads);
    assert t.flags == s.flags[i := flags];
    assert t.value == s.value;
    LinksFrame(rows, now, heads, Subject);
    LinksFrame(rows, now, heads, Verb);
    LinksFrame(rows, now, heads, Object);
  }

  lemma SetRowValue(rows: seq<Row>, heads: seq<Triple>, i: nat, value: Triple)
    requires i < |rows|
    ensures |NetOf(rows, heads).value| == |rows|
    ensures NetOf(rows[i := rows[i].(value := value)], heads)
         == NetOf(rows, heads).(value := NetOf(rows, heads).value[i := value])
  {
    var now := rows[i := rows[i].(value := value)];
    var s, t := NetOf(rows, heads), NetOf(now, heads);
    assert t.flags == s.flags;
    assert t.value == s.value[i := value];
    LinksFrame(rows, now, heads, Subject);
    LinksFrame(rows, now, heads, Verb);
    LinksFrame(rows, now, heads, Object);
  }

  lemma LinksFrame(rows: seq<Row>, now: seq<Row>, heads: seq<Triple>, q: Role)
    requires |now| == |rows|
    requires forall i :: 0 <= i < |rows| ==> now[i].next == rows[i].next && now[i].head == rows[i].head
    ensures LinksOf(now, heads, q) == LinksOf(rows, heads, q)
  {
    assert LinksOf(now, heads, q).next == LinksOf(rows, heads, q).next;
    assert LinksOf(now, heads, q).head == LinksOf(rows, heads, q).head;
  }
}
