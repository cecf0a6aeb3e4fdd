/** The framing of a request on a socket: the client sends user, bot and message as three
  * zero-terminated strings, and HandleTCPClient of csocket.cpp picks them out of however many
  * receives they arrive in. */
module Framing {
  import opened Threads

  type Byte = b: nat | b < 256

  const SERVERTRANSERSIZE: nat := 10000
  const MAX_BUFFER_SIZE: nat := 80000
  const LIMIT: nat := SERVERTRANSERSIZE - 100
  const MOST: nat := SERVERTRANSERSIZE - 50

  datatype Request = Request(user: seq<Byte>, bot: seq<Byte>, msg: seq<Byte>)

  predicate IsText(s: seq<Byte>) { forall i :: 0 <= i < |s| ==> s[i] != 0 }

  /** A string with its terminator, before `rest`. */
  function Text(text: seq<Byte>, rest: seq<Byte>): seq<Byte> { text + [0] + rest }

  /** What the client sends. */
  function Frame(r: Request): seq<Byte> { Text(r.user, Text(r.bot, Text(r.msg, []))) }

  /** The first zero at or after `from`, or the end. */
  function Zero(s: seq<Byte>, from: nat): (i: nat)
    requires from <= |s|
    ensures from <= i <= |s| && (i < |s| ==> s[i] == 0) && forall k :: from <= k < i ==> s[k] != 0
    decreases |s| - from
  {
    if from == |s| || s[from] == 0 then from else Zero(s, from + 1)
  }

  /** The first zero-terminated string of a stream, and what follows it. */
  function TakeText(s: seq<Byte>): Option<(seq<Byte>, seq<Byte>)> {
    var a := Zero(s, 0);
    if a == |s| then None else Some((s[..a], s[a + 1..]))
  }

  /** The first three zero-terminated strings of a stream. */
  function Three(s: seq<Byte>): Option<Request> {
    var a := TakeText(s);
    if a.None? then None
    else
      var b := TakeText(a.value.1);
      if b.None? then None
      else
        var c := TakeText(b.value.1);
        if c.None? then None else Some(Request(a.value.0, b.value.0, c.value.0))
  }

  lemma ZeroIs(s: seq<Byte>, from: nat, i: nat)
    requires from <= i < |s| && s[i] == 0 && forall k :: from <= k < i ==> s[k] != 0
    ensures Zero(s, from) == i
  {
  }

  /** A string once read stays the first, whatever arrives after. */
  lemma TakeStays(s: seq<Byte>, more: seq<Byte>)
    requires TakeText(s).Some?
    ensures TakeText(s + more) == Some((TakeText(s).value.0, TakeText(s).value.1 + more))
  {
    var a := Zero(s, 0);
    ZeroIs(s + more, 0, a);
    assert (s + more)[..a] == s[..a] && (s + more)[a + 1..] == s[a + 1..] + more;
  }

  lemma ThreeStays(s: seq<Byte>, more: seq<Byte>)
    requires Three(s).Some?
    ensures Three(s + more) == Three(s)
  {
    hide TakeText;
    TakeStays(s, more);
    var s1 := TakeText(s).value.1;
    TakeStays(s1, more);
    TakeStays(TakeText(s1).value.1, more);
  }

  lemma TakeOfText(text: seq<Byte>, rest: seq<Byte>)
    requires IsText(text)
    ensures TakeText(Text(text, rest)) == Some((text, rest))
  {
    var s := Text(text, rest);
    ZeroIs(s, 0, |text|);
    assert s[..|text|] == text && s[|text| + 1..] == rest;
  }

  /** Reading back what the client framed. */
  lemma ThreeOfFrame(r: Request)
    requires IsText(r.user) && IsText(r.bot) && IsText(r.msg)
    ensures Three(Frame(r)) == Some(r)
  {
    hide TakeText, Text;
    TakeOfText(r.user, Text(r.bot, Text(r.msg, [])));
    TakeOfText(r.bot, Text(r.msg, []));
    TakeOfText(r.msg, []);
  }

  // ----- Receives -------------------------------------------------------------------------

  function Stream(receives: seq<seq<Byte>>): seq<Byte> {
    if receives == [] then [] else receives[0] + Stream(receives[1..])
  }

  /** What the loop of HandleTCPClient makes of a sequence of receives when it already holds
    * `got`: None when it gives up, because the connection ends or too much has come. */
  function Received(got: seq<Byte>, receives: seq<seq<Byte>>): Option<Request>
    decreases |receives|
  {
    if Three(got).Some? then Three(got)
    else if receives == [] || receives[0] == [] || |got| + |receives[0]| >= LIMIT then None
    else Received(got + receives[0], receives[1..])
  }

  /** For every way of cutting the stream into nonempty receives below the limit, the server
    * gets its first three strings. */
  lemma {:induction false} CutsDoNotMatter(got: seq<Byte>, receives: seq<seq<Byte>>)
    requires forall i :: 0 <= i < |receives| ==> receives[i] != []
    requires |got + Stream(receives)| < LIMIT
    ensures Received(got, receives) == Three(got + Stream(receives))
    decreases |receives|
  {
    if Three(got).Some? {
      ThreeStays(got, Stream(receives));
    } else if receives == [] {
      assert got + Stream(receives) == got;
    } else {
      var more := Stream(receives[1..]);
      assert got + Stream(receives) == (got + receives[0]) + more;
      CutsDoNotMatter(got + receives[0], receives[1..]);
    }
  }

  /** So it recovers exactly what the client framed. */
  lemma ServerGetsWhatClientSent(r: Request, receives: seq<seq<Byte>>)
    requires IsText(r.user) && IsText(r.bot) && IsText(r.msg) && |Frame(r)| < 9900
    requires Stream(receives) == Frame(r) && forall i :: 0 <= i < |receives| ==> receives[i] != []
    ensures Received([], receives) == Some(r)
  {
    assert [] + Stream(receives) == Frame(r);
    CutsDoNotMatter([], receives);
    ThreeOfFrame(r);
  }

  /** Above the limit it is refused, however it is cut. */
  lemma {:induction false} TooMuchIsRefused(r: Request, got: seq<Byte>, receives: seq<seq<Byte>>)
    requires IsText(r.user) && IsText(r.bot) && IsText(r.msg) && |Frame(r)| >= 9900
    requires got + Stream(receives) == Frame(r) && |got| < LIMIT
    ensures Received(got, receives) == None
    decreases |receives|
  {
    hide Three, Frame, IsText;
    ThreeOfFrame(r);
    if Three(got).Some? {
      ThreeStays(got, Stream(receives));
    }
    ThreeIsWithin(got);
    if receives != [] {
      assert got + Stream(receives) == (got + receives[0]) + Stream(receives[1..]);
      if receives[0] != [] && |got| + |receives[0]| < LIMIT { TooMuchIsRefused(r, got + receives[0], receives[1..]); }
    }
  }

  lemma ThreeIsWithin(s: seq<Byte>)
    ensures Three(s).Some? ==> |Frame(Three(s).value)| <= |s|
  {
  }

  // ----- The loop --------------------------------------------------------------------------

  /** The first `strs` strings of what came, and where the bot, the message and the next string
    * start in it. */
  ghost predicate Split(got: seq<Byte>, strs: nat, at: nat, bot: nat, msg: nat) {
    && at <= |got| && strs <= 3
    && (strs == 0 ==> at == 0)
    && (strs >= 1 ==> 1 <= bot <= |got| && TakeText(got) == Some((got[..bot - 1], got[bot..])) && (strs == 1 ==> at == bot))
    && (strs >= 2 ==> bot < msg <= |got| && TakeText(got[bot..]) == Some((got[bot..msg - 1], got[msg..])) && (strs == 2 ==> at == msg))
    && (strs == 3 ==> msg < at && TakeText(got[msg..]) == Some((got[msg..at - 1], got[at..])))
  }

  lemma SplitGrows(got: seq<Byte>, more: seq<Byte>, strs: nat, at: nat, bot: nat, msg: nat)
    requires Split(got, strs, at, bot, msg) && strs < 3
    ensures Split(got + more, strs, at, bot, msg)
  {
    hide TakeText;
    if strs >= 1 {
      TakeStays(got, more);
      assert (got + more)[..bot - 1] == got[..bot - 1] && (got + more)[bot..] == got[bot..] + more;
    }
    if strs >= 2 {
      TakeStays(got[bot..], more);
      assert (got + more)[bot..msg - 1] == got[bot..msg - 1] && (got + more)[msg..] == got[msg..] + more;
    }
  }

  /** The next terminator found makes one string more. */
  lemma SplitStep(got: seq<Byte>, strs: nat, at: nat, bot: nat, msg: nat, nul: nat)
    requires Split(got, strs, at, bot, msg) && strs < 3 && at <= nul < |got| && nul - at == Zero(got[at..], 0)
    ensures Split(got, strs + 1, nul + 1, if strs == 0 then nul + 1 else bot, if strs == 1 then nul + 1 else msg)
  {
    hide TakeText, Zero;
    TakeAt(got, at, nul);
    assert got[0..] == got;
    assert got[0..nul] == got[..nul];
  }

  lemma TakeAt(got: seq<Byte>, at: nat, nul: nat)
    requires at <= nul < |got| && nul - at == Zero(got[at..], 0)
    ensures TakeText(got[at..]) == Some((got[at..nul], got[nul + 1..]))
  {
    hide Zero;
    var s := got[at..];
    SliceOfSlice(got, at, |got|, 0, nul - at);
    SliceOfSlice(got, at, |got|, nul - at + 1, |got| - at);
    assert s == got[at..|got|] && s[..nul - at] == s[0..nul - at] && s[nul - at + 1..] == s[nul - at + 1..|got| - at];
  }

  lemma SplitNone(got: seq<Byte>, strs: nat, at: nat, bot: nat, msg: nat)
    requires Split(got, strs, at, bot, msg) && strs < 3 && Zero(got[at..], 0) == |got| - at
    ensures Three(got) == None
  {
    assert TakeText(got[at..]) == None;
    assert got[0..] == got;
  }

  /** strchr for the terminator, over bytes of which the one at `end` is zero. */
  method FindNul(memory: array<Byte>, from: nat, end: nat) returns (nul: nat)
    requires from <= end < memory.Length && memory[end] == 0
    ensures from <= nul <= end && nul - from == Zero(memory[from..end], 0)
  {
    nul := from;
    while memory[nul] != 0
      invariant from <= nul <= end
      invariant forall k :: from <= k < nul ==> memory[k] != 0
      decreases end - nul
    {
      nul := nul + 1;
    }
    if nul < end { ZeroIs(memory[from..end], 0, nul - from); }
  }

  /** recv: puts the bytes of one receive at `p`. */
  method Put(memory: array<Byte>, start: nat, p: nat, bytes: seq<Byte>)
    requires start <= p && p + |bytes| <= memory.Length
    modifies memory
    ensures memory[start..p + |bytes|] == old(memory[start..p]) + bytes
  {
    var i: nat := 0;
    while i < |bytes|
      invariant i <= |bytes|
      invariant memory[start..p] == old(memory[start..p]) && memory[p..p + i] == bytes[..i]
    {
      memory[p + i] := bytes[i];
      i := i + 1;
    }
    assert memory[start..p + |bytes|] == memory[start..p] + memory[p..p + |bytes|];
  }

  /** The receive loop of HandleTCPClient, over the memory of the client from the end of the
    * address on. Every write is inside that memory, that of a receive that is then found too long
    * included. */
  method Receive(memory: array<Byte>, start: nat, receives: seq<seq<Byte>>) returns (r: Option<Request>)
    requires memory.Length == 2 * MAX_BUFFER_SIZE + 2 && start <= SERVERTRANSERSIZE
    requires forall i :: 0 <= i < |receives| ==> |receives[i]| <= MOST
    modifies memory
    ensures r == Received([], receives)
  {
    hide Split, Zero, TakeText, Three;
    var p, at: nat, strs: nat, bot: nat, msg: nat, i: nat := start, start, 0, start, start, 0;
    ghost var got: seq<Byte> := [];
    assert Split(got, 0, 0, 0, 0) by { StartsSplit(); }
    assert Three(got) == None by { StartsSplit(); }
    while strs < 3
      invariant strs < 3 && i <= |receives| && p == start + |got| && |got| < LIMIT && got == memory[start..p]
      invariant start <= at && start <= bot && start <= msg && Split(got, strs, at - start, bot - start, msg - start)
      invariant Three(got) == None && Received(got, receives[i..]) == Received([], receives)
      decreases |receives| - i
    {
      assert i < |receives| ==> receives[i..][0] == receives[i] && receives[i..][1..] == receives[i + 1..];
      if i == |receives| { return None; }
      Put(memory, start, p, receives[i]);
      if receives[i] == [] || p - start + |receives[i]| >= LIMIT { return None; }
      SplitGrows(got, receives[i], strs, at - start, bot - start, msg - start);
      got := got + receives[i];
      p := p + |receives[i]|;
      memory[p] := 0;
      i := i + 1;
      strs, at, bot, msg := Scan(memory, start, p, strs, at, bot, msg);
      if strs == 3 {
        SplitIsThree(memory[..], got, start, at, bot, msg);
        r := Some(Request(memory[start..bot - 1], memory[bot..msg - 1], memory[msg..at - 1]));
        memory[at], memory[at + 1], memory[at + 2] := 0, 0, 0;
        return;
      }
    }
  }

  lemma StartsSplit()
    ensures Split([], 0, 0, 0, 0) && Three([]) == None
  {
  }

  lemma SplitBounds(got: seq<Byte>, strs: nat, at: nat, bot: nat, msg: nat)
    requires Split(got, strs, at, bot, msg)
    ensures at <= |got| && strs <= 3 && (strs == 3 ==> 1 <= bot < msg < at)
  {
  }

  lemma SplitIsThree(memory: seq<Byte>, got: seq<Byte>, start: nat, at: nat, bot: nat, msg: nat)
    requires start + |got| <= |memory| && got == memory[start..start + |got|]
    requires start <= at && start <= bot && start <= msg && Split(got, 3, at - start, bot - start, msg - start)
    ensures start < bot < msg < at <= start + |got|
    ensures Three(got) == Some(Request(memory[start..bot - 1], memory[bot..msg - 1], memory[msg..at - 1]))
  {
    hide TakeText;
    var n := start + |got|;
    SliceOfSlice(memory, start, n, 0, bot - start - 1);
    SliceOfSlice(memory, start, n, bot - start, msg - start - 1);
    SliceOfSlice(memory, start, n, msg - start, at - start - 1);
    assert got[0..bot - start - 1] == got[..bot - start - 1];
  }

  lemma SliceOfSlice(s: seq<Byte>, a: nat, b: nat, i: nat, j: nat)
    requires a <= b <= |s| && i <= j <= b - a
    ensures s[a..b][i..j] == s[a + i..a + j]
  {
    forall k | 0 <= k < j - i
      ensures s[a..b][i..j][k] == s[a + i..a + j][k]
    {
      assert s[a..b][i + k] == s[a + i + k];
    }
  }

  /** The inner loop: finds what terminators there are in what came. */
  method Scan(memory: array<Byte>, start: nat, p: nat, strs0: nat, at0: nat, bot0: nat, msg0: nat)
    returns (strs: nat, at: nat, bot: nat, msg: nat)
    requires start <= p < memory.Length && memory[p] == 0 && strs0 < 3 && start <= at0 && start <= bot0 && start <= msg0
    requires Split(memory[start..p], strs0, at0 - start, bot0 - start, msg0 - start)
    ensures start <= at && start <= bot && start <= msg && strs <= 3
    ensures Split(memory[start..p], strs, at - start, bot - start, msg - start)
    ensures strs < 3 ==> Three(memory[start..p]) == None
  {
    hide Split, Zero, TakeText, Three;
    strs, at, bot, msg := strs0, at0, bot0, msg0;
    ghost var got := memory[start..p];
    while strs < 3
      invariant strs <= 3 && start <= at && start <= bot && start <= msg
      invariant Split(got, strs, at - start, bot - start, msg - start)
      decreases 3 - strs
    {
      SplitBounds(got, strs, at - start, bot - start, msg - start);
      var nul := FindNul(memory, at, p);
      assert memory[at..p] == got[at - start..];
      if nul >= p {
        SplitNone(got, strs, at - start, bot - start, msg - start);
        break;
      }
      SplitStep(got, strs, at - start, bot - start, msg - start, nul - start);
      strs := strs + 1;
      if strs == 1 { bot := nul + 1; } else if strs == 2 { msg := nul + 1; }
      at := nul + 1;
    }
  }
}
