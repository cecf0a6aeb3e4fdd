/** The hand-over of requests between the client threads and the chatbot server of csocket.cpp
  * under Windows, without timeouts, crashes or restarts.
  *
  * One step of a run is one access to the state the threads share: the mutex, chatWanted,
  * clientBuffer, or the memory of a client. Any number of clients may arrive at any time.
  */
module Handshake {
  import opened Threads

  /** Where a client thread stands: HandleTCPClient, ClientGetChatLock, ClientWaitForServer. */
  datatype ClientAt =
    | Contending      // waiting for the mutex
    | Holding         // owns the mutex, has not looked at chatWanted
    | Refused         // owns the mutex and is about to release it
    | Granted         // owns the mutex and the server
    | Wanting         // has set chatWanted
    | Publishing      // has set clientBuffer
    | Waiting         // polling its own buffer
    | Sending         // was answered
    | Finished        // has freed its memory

  /** Where the server thread stands: MainChatbotServer, ServerGetChatLock and
    * ServerTransferDataToClient. */
  datatype ServerAt =
    | Starting        // waiting for the mutex
    | Booting         // owns the mutex, chatbotExists not yet set
    | Clearing        // about to reset chatWanted
    | Testing         // about to look at chatWanted
    | Yielding        // about to release the mutex
    | Acquiring       // waiting for the mutex
    | Reading         // about to read the request
    | Chatting        // has read it
    | Returning       // about to store the volley count
    | Answering       // about to copy the answer
    | Marking         // about to mark the buffer done

  datatype Thread = Server | Client(id: nat)

  /** A client's block of memory. `done` is that the byte after the volley count is 0: the byte
    * starts as the first character of the address, which is not empty. */
  datatype Memory = Memory(request: int, live: bool, done: bool, answer: int)

  datatype Event = Publish(c: nat) | Touch(c: nat) | Serve(c: nat, request: int, reply: int) | Mark(c: nat) | Free(c: nat)

  datatype State = State(
    owner: Option<Thread>, chatbotExists: bool, chatWanted: bool, clientBuffer: nat,
    at: seq<ClientAt>, memory: seq<Memory>, server: ServerAt, reply: int, log: seq<Event>)

  /** What may happen next. The reply of the chatbot to a request is not modelled. */
  datatype Act = Arrive(request: int) | ClientStep(c: nat) | ServerStep(reply: int)

  const INITIAL := State(None, false, false, 0, [], [], Starting, 0, [])

  function Next(s: State, act: Act): (r: State)
    requires |s.at| == |s.memory|
    ensures |r.at| == |r.memory|
  {
    match act
    case Arrive(request) => s.(at := s.at + [Contending], memory := s.memory + [Memory(request, true, false, 0)])
    case ClientStep(c) => if c < |s.at| then ClientNext(s, c) else s
    case ServerStep(reply) => if s.clientBuffer < |s.at| || !InService(s.server) then ServerNext(s, reply) else s
  }

  function ClientNext(s: State, c: nat): State
    requires c < |s.at| == |s.memory|
  {
    match s.at[c]
    case Contending => if s.owner == None then s.(owner := Some(Client(c)), at := s.at[c := Holding]) else s
    case Holding => s.(at := s.at[c := if !s.chatbotExists || s.chatWanted then Refused else Granted])
    case Refused => s.(owner := None, at := s.at[c := Contending])
    case Granted => s.(chatWanted := true, at := s.at[c := Wanting])
    case Wanting => s.(clientBuffer := c, at := s.at[c := Publishing], log := s.log + [Publish(c)])
    case Publishing => s.(owner := None, at := s.at[c := Waiting])
    case Waiting => if s.memory[c].done then s.(at := s.at[c := Sending]) else s
    case Sending => s.(memory := s.memory[c := s.memory[c].(live := false)], at := s.at[c := Finished], log := s.log + [Free(c)])
    case Finished => s
  }

  predicate InService(a: ServerAt) { a.Reading? || a.Chatting? || a.Returning? || a.Answering? || a.Marking? }

  function ServerNext(s: State, reply: int): State
    requires |s.at| == |s.memory| && (InService(s.server) ==> s.clientBuffer < |s.at|)
  {
    var b := s.clientBuffer;
    match s.server
    case Starting => if s.owner == None then s.(owner := Some(Server), server := Booting) else s
    case Booting => s.(chatbotExists := true, server := Clearing)
    case Clearing => s.(chatWanted := false, server := Testing)
    case Testing => s.(server := if s.chatWanted then Reading else Yielding)
    case Yielding => s.(owner := None, server := Acquiring)
    case Acquiring => if s.owner == None then s.(owner := Some(Server), server := Testing) else s
    case Reading => s.(server := Chatting, log := s.log + [Touch(b)])
    case Chatting => s.(server := Returning, reply := reply, log := s.log + [Serve(b, s.memory[b].request, reply)])
    case Returning => s.(server := Answering, log := s.log + [Touch(b)])
    case Answering => s.(server := Marking, memory := s.memory[b := s.memory[b].(answer := s.reply)], log := s.log + [Touch(b)])
    case Marking => s.(server := Clearing, memory := s.memory[b := s.memory[b].(done := true)], log := s.log + [Mark(b)])
  }

  // ----- The invariant ----------------------------------------------------------------------

  predicate OwnsMutex(a: ClientAt) { a.Holding? || a.Refused? || a.Granted? || a.Wanting? || a.Publishing? }

  predicate Published(a: ClientAt) { a.Publishing? || a.Waiting? || a.Sending? || a.Finished? }

  /** The client whose request is published and not yet answered is the one clientBuffer names. */
  predicate Pending(s: State)
    requires |s.at| == |s.memory|
  {
    && s.chatWanted && s.clientBuffer < |s.at|
    && (s.at[s.clientBuffer].Publishing? || s.at[s.clientBuffer].Waiting?) && !s.memory[s.clientBuffer].done
  }

  ghost predicate ClientOk(s: State, c: nat)
    requires c < |s.at| == |s.memory|
  {
    && (s.owner == Some(Client(c)) <==> OwnsMutex(s.at[c]))
    && (Published(s.at[c]) && !s.memory[c].done ==> c == s.clientBuffer && Pending(s))
    && (s.memory[c].done ==> s.at[c].Waiting? || s.at[c].Sending? || s.at[c].Finished?)
    && (s.at[c].Sending? || s.at[c].Finished? ==> s.memory[c].done)
    && (s.at[c].Granted? ==> !s.chatWanted)
    && (s.at[c].Wanting? ==> s.chatWanted && !Pending(s))
    && (s.memory[c].live <==> !s.at[c].Finished?)
    && (s.at[c].Granted? || s.at[c].Wanting? || Published(s.at[c]) ==> s.chatbotExists)
  }

  /** The mutex and the flags say what the server may do. */
  ghost predicate FlagsOk(s: State) {
    && |s.at| == |s.memory|
    && (s.owner == Some(Server) <==> !s.server.Starting? && !s.server.Acquiring?)
    && (s.owner.Some? && s.owner.value.Client? ==> s.owner.value.id < |s.at|)
    && (s.server.Starting? || s.server.Booting? ==> !s.chatbotExists)
    && (!s.chatbotExists ==> !s.chatWanted)
    && (InService(s.server) ==> Pending(s) && s.at[s.clientBuffer].Waiting?)
    && (s.chatWanted && !Pending(s) ==> s.server.Clearing? || (s.owner.Some? && s.owner.value.Client? && s.at[s.owner.value.id].Wanting?))
    && (s.server.Clearing? ==> !Pending(s))
  }

  ghost predicate Orderly(s: State) {
    FlagsOk(s) && forall c :: 0 <= c < |s.at| ==> ClientOk(s, c)
  }

  lemma ArriveKeepsOrderly(s: State, request: int)
    requires Orderly(s)
    ensures Orderly(Next(s, Arrive(request)))
  {
    var r := Next(s, Arrive(request));
    forall c | 0 <= c < |r.at| ensures ClientOk(r, c) {
      if c < |s.at| { assert ClientOk(s, c); }
    }
  }

  ghost predicate BufferOk(s: State) requires |s.at| == |s.memory| { s.clientBuffer < |s.at| ==> ClientOk(s, s.clientBuffer) }

  /** A step of a client, as the server and another client see it. */
  lemma ClientStepKeeps(s: State, c: nat, d: nat)
    requires FlagsOk(s) && c < |s.at| && d < |s.at| && ClientOk(s, c) && ClientOk(s, d) && BufferOk(s)
    requires s.at[c].Contending? || s.at[c].Holding? || s.at[c].Refused? || s.at[c].Granted?
    ensures FlagsOk(ClientNext(s, c)) && ClientOk(ClientNext(s, c), d)
  {
  }

  lemma ClientPublishKeeps(s: State, c: nat, d: nat)
    requires FlagsOk(s) && c < |s.at| && d < |s.at| && ClientOk(s, c) && ClientOk(s, d) && BufferOk(s)
    requires s.at[c].Wanting? || s.at[c].Publishing?
    ensures FlagsOk(ClientNext(s, c)) && ClientOk(ClientNext(s, c), d)
  {
  }

  lemma ClientLeaveKeeps(s: State, c: nat, d: nat)
    requires FlagsOk(s) && c < |s.at| && d < |s.at| && ClientOk(s, c) && ClientOk(s, d) && BufferOk(s)
    requires s.at[c].Waiting? || s.at[c].Sending? || s.at[c].Finished?
    ensures FlagsOk(ClientNext(s, c)) && ClientOk(ClientNext(s, c), d)
  {
  }

  lemma ClientKeepsOrderly(s: State, c: nat)
    requires Orderly(s) && c < |s.at|
    ensures Orderly(ClientNext(s, c))
  {
    hide ClientNext, FlagsOk, ClientOk;
    ClientLength(s, c);
    forall d | 0 <= d < |s.at| ensures FlagsOk(ClientNext(s, c)) && ClientOk(ClientNext(s, c), d) {
      if s.at[c].Wanting? || s.at[c].Publishing? { ClientPublishKeeps(s, c, d); }
      else if s.at[c].Waiting? || s.at[c].Sending? || s.at[c].Finished? { ClientLeaveKeeps(s, c, d); }
      else { ClientStepKeeps(s, c, d); }
    }
    assert ClientOk(ClientNext(s, c), c);
  }

  lemma ClientLength(s: State, c: nat)
    requires FlagsOk(s) && c < |s.at|
    ensures |s.at| == |s.memory| == |ClientNext(s, c).at| == |ClientNext(s, c).memory|
  {
  }

  lemma ServerStepKeeps(s: State, reply: int, d: nat)
    requires FlagsOk(s) && d < |s.at| && ClientOk(s, d) && BufferOk(s)
    ensures ClientOk(ServerNext(s, reply), d)
  {
  }

  lemma ServerFlagsKept(s: State, reply: int)
    requires FlagsOk(s) && BufferOk(s) && (s.owner.Some? && s.owner.value.Client? ==> ClientOk(s, s.owner.value.id))
    ensures FlagsOk(ServerNext(s, reply)) && |ServerNext(s, reply).at| == |s.at|
  {
  }

  lemma ServerKeepsOrderly(s: State, reply: int)
    requires Orderly(s)
    ensures Orderly(ServerNext(s, reply))
  {
    hide ServerNext, ClientOk;
    ServerFlagsKept(s, reply);
    forall d | 0 <= d < |s.at| ensures ClientOk(ServerNext(s, reply), d) {
      ServerStepKeeps(s, reply, d);
    }
  }

  // ----- What the log of a run may look like ------------------------------------------------

  /** Either no request is open, or that of `c` is, and the server is `step` events into it. */
  datatype Phase = Idle | Open(c: nat, step: nat)

  /** The one order in which the shared accesses to a request may come. */
  function Advance(p: Phase, e: Event): Option<Phase> {
    match e
    case Publish(c) => if p == Idle then Some(Open(c, 0)) else None
    case Touch(c) => if p == Open(c, 0) || p == Open(c, 2) || p == Open(c, 3) then Some(Open(c, p.step + 1)) else None
    case Serve(c, request, reply) => if p == Open(c, 1) then Some(Open(c, 2)) else None
    case Mark(c) => if p == Open(c, 4) then Some(Idle) else None
    case Free(c) => if p.Open? && p.c == c then None else Some(p)
  }

  function FollowTo(log: seq<Event>, k: nat): Option<Phase>
    requires k <= |log|
  {
    if k == 0 then Some(Idle)
    else match FollowTo(log, k - 1)
         case None => None
         case Some(p) => Advance(p, log[k - 1])
  }

  function Follow(log: seq<Event>): Option<Phase> { FollowTo(log, |log|) }

  lemma {:induction false} FollowAppend(log: seq<Event>, e: Event, k: nat)
    requires k <= |log|
    ensures FollowTo(log + [e], k) == FollowTo(log, k)
  {
    if k > 0 { FollowAppend(log, e, k - 1); }
  }

  lemma FollowOne(log: seq<Event>, e: Event)
    ensures Follow(log + [e]) == if Follow(log).None? then None else Advance(Follow(log).value, e)
  {
    FollowAppend(log, e, |log|);
  }

  function StepOf(a: ServerAt): nat {
    match a
    case Chatting => 1
    case Returning => 2
    case Answering => 3
    case Marking => 4
    case _ => 0
  }

  function PhaseOf(s: State): Phase
    requires |s.at| == |s.memory|
  {
    if Pending(s) then Open(s.clientBuffer, StepOf(s.server)) else Idle
  }

  ghost predicate InPhase(s: State) { |s.at| == |s.memory| && Follow(s.log) == Some(PhaseOf(s)) }

  lemma ArriveKeepsPhase(s: State, request: int)
    requires Orderly(s) && InPhase(s)
    ensures InPhase(Next(s, Arrive(request)))
  {
    hide Follow;
  }

  lemma ClientKeepsPhase(s: State, c: nat)
    requires FlagsOk(s) && c < |s.at| && ClientOk(s, c) && BufferOk(s) && InPhase(s)
    ensures InPhase(ClientNext(s, c))
  {
    hide Follow;
    FollowOne(s.log, Publish(c));
    FollowOne(s.log, Free(c));
  }

  lemma ServerKeepsPhase(s: State, reply: int)
    requires Orderly(s) && InPhase(s)
    ensures InPhase(ServerNext(s, reply))
  {
    hide Follow;
    if InService(s.server) {
      var b := s.clientBuffer;
      FollowOne(s.log, Touch(b));
      FollowOne(s.log, Serve(b, s.memory[b].request, reply));
      FollowOne(s.log, Mark(b));
    } else {
      if s.clientBuffer < |s.at| { assert ClientOk(s, s.clientBuffer); }
    }
  }

  // ----- What is served -----------------------------------------------------------------------

  function Publishes(log: seq<Event>, c: nat): nat {
    if log == [] then 0
    else Publishes(log[..|log| - 1], c) + if log[|log| - 1] == Publish(c) then 1 else 0
  }

  function Serves(log: seq<Event>, c: nat): nat {
    if log == [] then 0
    else Serves(log[..|log| - 1], c) + if log[|log| - 1].Serve? && log[|log| - 1].c == c then 1 else 0
  }

  lemma CountOne(log: seq<Event>, e: Event, c: nat)
    ensures Publishes(log + [e], c) == Publishes(log, c) + if e == Publish(c) then 1 else 0
    ensures Serves(log + [e], c) == Serves(log, c) + if e.Serve? && e.c == c then 1 else 0
  {
    assert (log + [e])[..|log|] == log;
  }

  /** The reply meant for `c` has been made, and is on its way or in its buffer. */
  predicate Replied(s: State, c: nat)
    requires c < |s.at| == |s.memory|
  {
    s.memory[c].done || (c == s.clientBuffer && (s.server.Returning? || s.server.Answering? || s.server.Marking?))
  }

  function ReplyTo(s: State, c: nat): int
    requires c < |s.at| == |s.memory|
  {
    if s.memory[c].done || s.server.Marking? then s.memory[c].answer else s.reply
  }

  ghost predicate ServedOk(s: State, c: nat) {
    && |s.at| == |s.memory|
    && Publishes(s.log, c) == (if c < |s.at| && Published(s.at[c]) then 1 else 0)
    && Serves(s.log, c) == (if c < |s.at| && Replied(s, c) then 1 else 0)
    && (c < |s.at| && Replied(s, c) ==> Serve(c, s.memory[c].request, ReplyTo(s, c)) in s.log)
  }

  lemma ClientKeepsServed(s: State, c: nat, d: nat)
    requires FlagsOk(s) && c < |s.at| && ClientOk(s, c) && BufferOk(s) && ServedOk(s, d)
    ensures ServedOk(ClientNext(s, c), d)
  {
    hide Publishes, Serves;
    CountOne(s.log, Publish(c), d);
    CountOne(s.log, Free(c), d);
  }

  lemma ServerKeepsServed(s: State, reply: int, d: nat)
    requires FlagsOk(s) && ServedOk(s, d)
    ensures ServedOk(ServerNext(s, reply), d)
  {
    hide Publishes, Serves;
    if InService(s.server) { ServiceKeepsServed(s, reply, d); }
  }

  lemma ServiceKeepsServed(s: State, reply: int, d: nat)
    requires |s.at| == |s.memory| && s.clientBuffer < |s.at| && !s.memory[s.clientBuffer].done && InService(s.server)
    requires ServedOk(s, d)
    ensures ServedOk(ServerNext(s, reply), d)
  {
    hide Publishes, Serves;
    var b := s.clientBuffer;
    var r := ServerNext(s, reply);
    CountOne(s.log, Touch(b), d);
    CountOne(s.log, Serve(b, s.memory[b].request, reply), d);
    CountOne(s.log, Mark(b), d);
    assert forall e :: e in s.log ==> e in r.log;
    if s.server.Chatting? { assert r.log[|s.log|] == Serve(b, s.memory[b].request, reply); }
  }

  // ----- Runs -----------------------------------------------------------------------------------

  /** A client frees its memory last, and publishes nothing after. */
  ghost predicate FreedOk(s: State, c: nat) {
    && (Free(c) in s.log ==> c < |s.at| && s.at[c].Finished?)
    && forall m, p :: 0 <= m < p < |s.log| && s.log[m] == Free(c) ==> s.log[p] != Publish(c)
  }

  lemma ClientKeepsFreed(s: State, c: nat, d: nat)
    requires c < |s.at| == |s.memory| && FreedOk(s, d)
    ensures FreedOk(ClientNext(s, c), d)
  {
    var r := ClientNext(s, c);
    assert Free(d) in r.log ==> Free(d) in s.log || (c == d && s.at[c].Sending?);
    forall m, p | 0 <= m < p < |r.log| && r.log[m] == Free(d)
      ensures r.log[p] != Publish(d)
    {
      assert s.log[m] == Free(d) && s.log[m] in s.log;
    }
  }

  lemma ServerKeepsFreed(s: State, reply: int, d: nat)
    requires |s.at| == |s.memory| && (InService(s.server) ==> s.clientBuffer < |s.at|) && FreedOk(s, d)
    ensures FreedOk(ServerNext(s, reply), d)
  {
    var r := ServerNext(s, reply);
    assert Free(d) in r.log ==> Free(d) in s.log;
  }

  ghost predicate Inv(s: State) {
    Orderly(s) && InPhase(s) && forall c: nat :: ServedOk(s, c) && FreedOk(s, c)
  }

  lemma NextKeepsInv(s: State, act: Act)
    requires |s.at| == |s.memory| && Inv(s)
    ensures Inv(Next(s, act))
  {
    hide Orderly, InPhase, ServedOk, FreedOk, ClientNext, ServerNext;
    match act
    case Arrive(request) =>
      ArriveKeepsOrderly(s, request);
      ArriveKeepsPhase(s, request);
      OrderlyFlags(s);
      forall d: nat ensures ServedOk(Next(s, act), d) && FreedOk(Next(s, act), d) { ArriveKeepsServed(s, request, d); }
    case ClientStep(c) =>
      if c < |s.at| {
        ClientKeepsOrderly(s, c);
        OrderlyParts(s, c);
        ClientKeepsPhase(s, c);
        forall d: nat ensures ServedOk(Next(s, act), d) && FreedOk(Next(s, act), d) {
          ClientKeepsServed(s, c, d);
          ClientKeepsFreed(s, c, d);
        }
      }
    case ServerStep(reply) =>
      if s.clientBuffer < |s.at| || !InService(s.server) {
        ServerKeepsOrderly(s, reply);
        ServerKeepsPhase(s, reply);
        OrderlyFlags(s);
        forall d: nat ensures ServedOk(Next(s, act), d) && FreedOk(Next(s, act), d) {
          ServerKeepsServed(s, reply, d);
          ServerKeepsFreed(s, reply, d);
        }
      }
  }

  lemma OrderlyFlags(s: State)
    requires Orderly(s)
    ensures FlagsOk(s)
  {
  }

  lemma OrderlyParts(s: State, c: nat)
    requires Orderly(s) && c < |s.at|
    ensures FlagsOk(s) && ClientOk(s, c) && BufferOk(s)
  {
  }

  lemma ArriveKeepsServed(s: State, request: int, d: nat)
    requires FlagsOk(s) && ServedOk(s, d) && FreedOk(s, d)
    ensures ServedOk(Next(s, Arrive(request)), d) && FreedOk(Next(s, Arrive(request)), d)
  {
    hide Publishes, Serves;
  }

  function Run(s: State, acts: seq<Act>): State
    requires |s.at| == |s.memory|
    ensures |Run(s, acts).at| == |Run(s, acts).memory|
    decreases |acts|
  {
    if acts == [] then s else Run(Next(s, acts[0]), acts[1..])
  }

  lemma {:induction false} RunKeepsInv(s: State, acts: seq<Act>)
    requires |s.at| == |s.memory| && Inv(s)
    ensures Inv(Run(s, acts))
    decreases |acts|
  {
    hide Inv;
    if acts != [] {
      NextKeepsInv(s, acts[0]);
      RunKeepsInv(Next(s, acts[0]), acts[1..]);
    }
  }

  /** What holds in every state of every run: the log follows the one allowed order, and no client
    * publishes twice; while the
    * server is at a request it has a live buffer that is not marked done; and a client that was
    * answered was served exactly once, on its own request, with the answer in its own buffer. */
  lemma HandshakeIsSafe(acts: seq<Act>)
    ensures var s := Run(INITIAL, acts);
            && Follow(s.log).Some? && (forall c: nat :: Publishes(s.log, c) <= 1)
            && (InService(s.server) ==> s.clientBuffer < |s.at| && s.memory[s.clientBuffer].live && !s.memory[s.clientBuffer].done)
            && forall c: nat :: c < |s.at| && (s.at[c].Sending? || s.at[c].Finished?) ==>
                 Publishes(s.log, c) == 1 && Serves(s.log, c) == 1 && Serve(c, s.memory[c].request, s.memory[c].answer) in s.log
  {
    hide Next, Publishes, Serves, Follow;
    InitialIsInv();
    RunKeepsInv(INITIAL, acts);
    var s := Run(INITIAL, acts);
    assert FlagsOk(s);
    if InService(s.server) { assert ClientOk(s, s.clientBuffer); }
    forall c: nat ensures Publishes(s.log, c) <= 1 { assert ServedOk(s, c); }
    forall c: nat | c < |s.at| && (s.at[c].Sending? || s.at[c].Finished?)
      ensures Publishes(s.log, c) == 1 && Serves(s.log, c) == 1 && Serve(c, s.memory[c].request, s.memory[c].answer) in s.log
    {
      assert ClientOk(s, c) && ServedOk(s, c);
    }
  }

  lemma InitialIsInv()
    ensures Inv(INITIAL)
  {
  }

  // ----- What the allowed order means -----------------------------------------------------------

  lemma {:induction false} PrefixFollows(log: seq<Event>, k: nat, n: nat)
    requires k <= n <= |log| && FollowTo(log, n).Some?
    ensures FollowTo(log, k).Some?
    decreases n - k
  {
    if k < n { PrefixFollows(log, k, n - 1); }
  }

  /** While the request of `c` is open, it was published and has not been marked or freed since. */
  lemma {:induction false} OpenSince(log: seq<Event>, n: nat, c: nat)
    requires n <= |log| && FollowTo(log, n).Some? && FollowTo(log, n).value.Open? && FollowTo(log, n).value.c == c
    ensures exists i :: 0 <= i < n && log[i] == Publish(c) && forall k :: i < k < n ==> log[k] != Mark(c) && log[k] != Free(c)
    decreases n
  {
    PrefixFollows(log, n - 1, n);
    if log[n - 1] == Publish(c) {
      assert log[n - 1] == Publish(c);
    } else {
      OpenSince(log, n - 1, c);
    }
  }

  /** The server looks at, answers or marks the buffer of `c`. */
  predicate Accesses(e: Event, c: nat) { e == Touch(c) || e == Mark(c) || (e.Serve? && e.c == c) }

  /** The server looks at, answers and marks a buffer only between its publication and its mark,
    * and before the client frees it. */
  lemma ServedWhileOpen(log: seq<Event>, j: nat, c: nat)
    requires j < |log| && Follow(log).Some?
    requires Accesses(log[j], c)
    ensures exists i :: 0 <= i < j && log[i] == Publish(c) && forall k :: i < k < j ==> log[k] != Mark(c) && log[k] != Free(c)
  {
    PrefixFollows(log, j + 1, |log|);
    PrefixFollows(log, j, |log|);
    OpenSince(log, j, c);
  }

  /** A request that is open at one point and not at a later one was marked in between. */
  lemma {:induction false} ClosedByMark(log: seq<Event>, i: nat, j: nat, c: nat)
    requires i <= j <= |log| && FollowTo(log, j) == Some(Idle)
    requires FollowTo(log, i).Some? && FollowTo(log, i).value.Open? && FollowTo(log, i).value.c == c
    ensures exists k :: i <= k < j && log[k] == Mark(c)
    decreases j - i
  {
    PrefixFollows(log, i + 1, j);
    if log[i] != Mark(c) { ClosedByMark(log, i + 1, j, c); }
  }

  /** No client overwrites clientBuffer between the publication of a request and its answer. */
  lemma NoOverwrite(log: seq<Event>, i: nat, j: nat, c: nat, d: nat)
    requires i < j < |log| && Follow(log).Some? && log[i] == Publish(c) && log[j] == Publish(d)
    ensures exists k :: i < k < j && log[k] == Mark(c)
  {
    PrefixFollows(log, j + 1, |log|);
    PrefixFollows(log, j, |log|);
    PrefixFollows(log, i + 1, |log|);
    PrefixFollows(log, i, |log|);
    ClosedByMark(log, i + 1, j, c);
  }

  lemma {:induction false} PublishedTwice(log: seq<Event>, c: nat, i: nat, j: nat)
    requires i < j < |log| && log[i] == Publish(c) && log[j] == Publish(c)
    ensures Publishes(log, c) >= 2
    decreases |log|
  {
    var rest := log[..|log| - 1];
    if j < |log| - 1 { PublishedTwice(rest, c, i, j); } else { PublishedOnce(rest, c, i); }
  }

  lemma {:induction false} PublishedOnce(log: seq<Event>, c: nat, i: nat)
    requires i < |log| && log[i] == Publish(c)
    ensures Publishes(log, c) >= 1
    decreases |log|
  {
    if i < |log| - 1 { PublishedOnce(log[..|log| - 1], c, i); }
  }

  // ----- The accesses of a run --------------------------------------------------------------------

  lemma RunFollows(acts: seq<Act>, c: nat)
    ensures var s := Run(INITIAL, acts); Follow(s.log).Some? && Publishes(s.log, c) <= 1 && FreedOk(s, c)
  {
    hide Next, Publishes, Follow;
    InitialIsInv();
    RunKeepsInv(INITIAL, acts);
    assert ServedOk(Run(INITIAL, acts), c);
  }

  /** In every run, a request is published once; the next one, by another client, only after it is
    * marked: no client overwrites clientBuffer between the publication of a request and its answer. */
  lemma RunNeverOverwrites(acts: seq<Act>, i: nat, j: nat, c: nat, d: nat)
    requires var log := Run(INITIAL, acts).log; i < j < |log| && log[i] == Publish(c) && log[j] == Publish(d)
    ensures c != d && var log := Run(INITIAL, acts).log; exists k :: i < k < j && log[k] == Mark(c)
  {
    hide Run, Publishes, Follow;
    var log := Run(INITIAL, acts).log;
    RunFollows(acts, c);
    NoOverwrite(log, i, j, c, d);
    if c == d { PublishedTwice(log, c, i, j); }
  }

  /** In every run, the server is at a buffer only after its request is published and before it is
    * marked or freed. */
  lemma RunServesWhileOpen(acts: seq<Act>, j: nat, c: nat)
    requires var log := Run(INITIAL, acts).log; j < |log| && Accesses(log[j], c)
    ensures var log := Run(INITIAL, acts).log;
            exists i :: 0 <= i < j && log[i] == Publish(c) && forall k :: i < k < j ==> log[k] != Mark(c) && log[k] != Free(c)
  {
    hide Run, Publishes, Follow;
    RunFollows(acts, c);
    ServedWhileOpen(Run(INITIAL, acts).log, j, c);
  }

  /** In every run, the server never touches a buffer after marking it done, nor after it was freed. */
  lemma RunNeverTouchesAfter(acts: seq<Act>, m: nat, j: nat, c: nat)
    requires var log := Run(INITIAL, acts).log; m < j < |log| && (log[m] == Mark(c) || log[m] == Free(c))
    ensures !Accesses(Run(INITIAL, acts).log[j], c)
  {
    hide Run, Publishes, Follow;
    var log := Run(INITIAL, acts).log;
    RunFollows(acts, c);
    if Accesses(log[j], c) {
      ServedWhileOpen(log, j, c);
      var p :| 0 <= p < j && log[p] == Publish(c) && forall k :: p < k < j ==> log[k] != Mark(c) && log[k] != Free(c);
      assert m < p;
      if log[m] == Mark(c) {
        ServedWhileOpen(log, m, c);
        var i :| 0 <= i < m && log[i] == Publish(c);
        PublishedTwice(log, c, i, p);
      }
    }
  }

  // ----- A request is answered --------------------------------------------------------------------

  /** The server waits for the mutex, which is free, with no request wanted; client `c` waits for it too. */
  ghost predicate Meeting(s: State, c: nat) {
    && |s.at| == |s.memory| && c < |s.at| && s.at[c].Contending? && !s.memory[c].done
    && s.owner == None && s.chatbotExists && !s.chatWanted && s.server.Acquiring?
  }

  /** The turns of the client up to its wait, then those of the server up to its mark, then the client's look. */
  function Turns(c: nat, reply: int): seq<Act> {
    [ClientStep(c), ClientStep(c), ClientStep(c), ClientStep(c), ClientStep(c)]
    + [ServerStep(reply), ServerStep(reply), ServerStep(reply), ServerStep(reply), ServerStep(reply), ServerStep(reply), ServerStep(reply)]
    + [ClientStep(c)]
  }

  lemma RunOne(s: State, act: Act, rest: seq<Act>)
    requires |s.at| == |s.memory|
    ensures Run(s, [act] + rest) == Run(Next(s, act), rest)
  {
    assert ([act] + rest)[1..] == rest;
  }

  lemma {:induction false} RunAppend(s: State, x: seq<Act>, y: seq<Act>)
    requires |s.at| == |s.memory|
    ensures Run(s, x + y) == Run(Run(s, x), y)
    decreases |x|
  {
    if x == [] {
      assert x + y == y;
    } else {
      assert (x + y)[0] == x[0] && (x + y)[1..] == x[1..] + y;
      RunAppend(Next(s, x[0]), x[1..], y);
    }
  }

  /** The client gets the mutex and the server, and publishes its request. */
  lemma ClientPublishes(s: State, c: nat)
    requires Meeting(s, c)
    ensures Run(s, [ClientStep(c), ClientStep(c), ClientStep(c), ClientStep(c), ClientStep(c)]) ==
            s.(chatWanted := true, clientBuffer := c, at := s.at[c := Waiting], log := s.log + [Publish(c)])
  {
    var act := ClientStep(c);
    var s1 := s.(owner := Some(Client(c)), at := s.at[c := Holding]);
    var s2 := s1.(at := s.at[c := Granted]);
    var s3 := s2.(chatWanted := true, at := s.at[c := Wanting]);
    var s4 := s3.(clientBuffer := c, at := s.at[c := Publishing], log := s.log + [Publish(c)]);
    assert Next(s, act) == s1 && Next(s1, act) == s2 && Next(s2, act) == s3 && Next(s3, act) == s4;
    RunOne(s, act, [act, act, act, act]);
    RunOne(s1, act, [act, act, act]);
    RunOne(s2, act, [act, act]);
    RunOne(s3, act, [act]);
    RunOne(s4, act, []);
  }

  /** The server takes the request to the chatbot. */
  lemma ServerTakes(s: State, c: nat, reply: int)
    requires |s.at| == |s.memory| && c < |s.at| && s.at[c].Waiting? && s.clientBuffer == c
    requires s.owner == None && s.chatWanted && s.server.Acquiring?
    ensures var act := ServerStep(reply);
            Run(s, [act, act, act, act]) ==
            s.(owner := Some(Server), server := Returning, reply := reply, log := s.log + [Touch(c), Serve(c, s.memory[c].request, reply)])
  {
    var act := ServerStep(reply);
    var s1 := s.(owner := Some(Server), server := Testing);
    var s2 := s1.(server := Reading);
    var s3 := s2.(server := Chatting, log := s.log + [Touch(c)]);
    var s4 := s3.(server := Returning, reply := reply, log := s3.log + [Serve(c, s.memory[c].request, reply)]);
    assert Next(s, act) == s1 && Next(s1, act) == s2 && Next(s2, act) == s3 && Next(s3, act) == s4;
    RunOne(s, act, [act, act, act]);
    RunOne(s1, act, [act, act]);
    RunOne(s2, act, [act]);
    RunOne(s3, act, []);
    assert s4.log == s.log + [Touch(c), Serve(c, s.memory[c].request, reply)];
  }

  /** It copies the answer and marks the buffer. */
  lemma ServerMarks(s: State, c: nat, reply: int)
    requires |s.at| == |s.memory| && c < |s.at| && s.clientBuffer == c && s.server.Returning?
    ensures var act := ServerStep(reply);
            Run(s, [act, act, act]) ==
            s.(server := Clearing, memory := s.memory[c := s.memory[c].(answer := s.reply, done := true)],
               log := s.log + [Touch(c), Touch(c), Mark(c)])
  {
    var act := ServerStep(reply);
    var s5 := s.(server := Answering, log := s.log + [Touch(c)]);
    var s6 := s5.(server := Marking, memory := s.memory[c := s.memory[c].(answer := s.reply)], log := s5.log + [Touch(c)]);
    var s7 := s6.(server := Clearing, memory := s.memory[c := s.memory[c].(answer := s.reply, done := true)], log := s6.log + [Mark(c)]);
    assert Next(s, act) == s5 && Next(s5, act) == s6 && Next(s6, act) == s7;
    RunOne(s, act, [act, act]);
    RunOne(s5, act, [act]);
    RunOne(s6, act, []);
    assert s7.log == s.log + [Touch(c), Touch(c), Mark(c)];
  }

  /** A client alone with a waiting server is answered: with the reply to its own request in its memory, having
    * published it once, and with nothing else of the clients changed. */
  lemma LoneClientIsAnswered(s: State, c: nat, reply: int)
    requires Meeting(s, c)
    ensures var r := Run(s, Turns(c, reply)); var m := s.memory[c];
            && r.at == s.at[c := Sending] && r.memory == s.memory[c := m.(answer := reply, done := true)]
            && r.log == s.log + [Publish(c), Touch(c), Serve(c, m.request, reply), Touch(c), Touch(c), Mark(c)]
            && r.chatbotExists && r.server.Clearing?
  {
    hide Next, Run;
    var client := [ClientStep(c), ClientStep(c), ClientStep(c), ClientStep(c), ClientStep(c)];
    var act := ServerStep(reply);
    var server := [act, act, act, act, act, act, act];
    RunAppend(s, client + server, [ClientStep(c)]);
    RunAppend(s, client, server);
    ClientPublishes(s, c);
    var s1 := Run(s, client);
    RunAppend(s1, [act, act, act, act], [act, act, act]);
    assert server == [act, act, act, act] + [act, act, act];
    ServerTakes(s1, c, reply);
    ServerMarks(Run(s1, [act, act, act, act]), c, reply);
    var s2 := Run(s1, server);
    ClientLooks(s2, c);
    assert s2.log == s.log + [Publish(c), Touch(c), Serve(c, s.memory[c].request, reply), Touch(c), Touch(c), Mark(c)];
  }

  lemma ClientLooks(s: State, c: nat)
    requires |s.at| == |s.memory| && c < |s.at| && s.at[c].Waiting? && s.memory[c].done
    ensures Run(s, [ClientStep(c)]) == s.(at := s.at[c := Sending])
  {
    RunOne(s, ClientStep(c), []);
  }

  /** The server waits for the mutex, which is free, and no request is wanted. */
  ghost predicate Ready(s: State) {
    |s.at| == |s.memory| && s.owner == None && s.chatbotExists && !s.chatWanted && s.server.Acquiring?
  }

  /** The server gets so far from the start by itself. */
  lemma ServerGetsReady(reply: int)
    ensures var act := ServerStep(reply); var r := Run(INITIAL, [act, act, act, act, act]); Ready(r) && r.at == []
  {
    var act := ServerStep(reply);
    var s1 := INITIAL.(owner := Some(Server), server := Booting);
    var s2 := s1.(chatbotExists := true, server := Clearing);
    var s3 := s2.(server := Testing);
    var s4 := s3.(server := Yielding);
    var s5 := s4.(owner := None, server := Acquiring);
    assert Next(INITIAL, act) == s1 && Next(s1, act) == s2 && Next(s2, act) == s3 && Next(s3, act) == s4 && Next(s4, act) == s5;
    RunOne(INITIAL, act, [act, act, act, act]);
    RunOne(s1, act, [act, act, act]);
    RunOne(s2, act, [act, act]);
    RunOne(s3, act, [act]);
    RunOne(s4, act, []);
  }

  /** After an answer the server lets go and is ready again, and the client frees its memory. */
  lemma ServerIsReadyAgain(s: State, c: nat, reply: int)
    requires |s.at| == |s.memory| && c < |s.at| && s.at[c].Sending? && s.server.Clearing? && s.chatbotExists
    ensures var act := ServerStep(reply); var r := Run(s, [ClientStep(c), act, act, act]);
            Ready(r) && r.at == s.at[c := Finished] && r.memory == s.memory[c := s.memory[c].(live := false)]
  {
    var act := ServerStep(reply);
    var s1 := s.(memory := s.memory[c := s.memory[c].(live := false)], at := s.at[c := Finished], log := s.log + [Free(c)]);
    var s2 := s1.(chatWanted := false, server := Testing);
    var s3 := s2.(server := Yielding);
    var s4 := s3.(owner := None, server := Acquiring);
    assert Next(s, ClientStep(c)) == s1 && Next(s1, act) == s2 && Next(s2, act) == s3 && Next(s3, act) == s4;
    RunOne(s, ClientStep(c), [act, act, act]);
    RunOne(s1, act, [act, act]);
    RunOne(s2, act, [act]);
    RunOne(s3, act, []);
  }

  /** So clients that come one after another are all answered: a ready server is ready again after the next one,
    * whose memory then holds its request and the reply to it. */
  lemma EachInTurn(s: State, request: int, reply: int)
    requires Ready(s)
    ensures var act := ServerStep(reply); var c := |s.at|;
            var r := Run(s, [Arrive(request)] + (Turns(c, reply) + [ClientStep(c), act, act, act]));
            Ready(r) && r.at == s.at + [Finished] && r.memory == s.memory + [Memory(request, false, true, reply)]
  {
    hide Run, Turns;
    var act := ServerStep(reply);
    var c := |s.at|;
    var s1 := Next(s, Arrive(request));
    var last := [ClientStep(c), act, act, act];
    RunOne(s, Arrive(request), Turns(c, reply) + last);
    RunAppend(s1, Turns(c, reply), last);
    LoneClientIsAnswered(s1, c, reply);
    var s2 := Run(s1, Turns(c, reply));
    ServerIsReadyAgain(s2, c, reply);
  }

  // ----- The mutex comes free ---------------------------------------------------------------------

  function Alone(act: Act, n: nat): (r: seq<Act>)
    ensures |r| == n
  {
    if n == 0 then [] else [act] + Alone(act, n - 1)
  }

  /** How far a client that owns the mutex is from releasing it, at most. */
  function ClientRank(a: ClientAt): nat {
    match a
    case Holding => 4
    case Granted => 3
    case Wanting => 2
    case _ => 1
  }

  /** A client that owns the mutex releases it within four of its own steps, either to wait for its answer or to
    * try again. */
  lemma {:induction false} ClientReleases(s: State, c: nat) returns (n: nat)
    requires |s.at| == |s.memory| && c < |s.at| && OwnsMutex(s.at[c])
    ensures 0 < n <= ClientRank(s.at[c]) && var r := Run(s, Alone(ClientStep(c), n));
            r.owner == None && c < |r.at| && (r.at[c].Waiting? || r.at[c].Contending?)
    decreases ClientRank(s.at[c])
  {
    var act := ClientStep(c);
    var t := Next(s, act);
    if s.at[c].Publishing? || s.at[c].Refused? {
      n := 1;
      assert Alone(act, 1) == [act];
      RunOne(s, act, []);
    } else {
      n := ClientReleases(t, c);
      RunOne(s, act, Alone(act, n));
      n := n + 1;
    }
  }

  function ServerRank(s: State): nat {
    match s.server
    case Yielding => 1
    case Testing => if s.chatWanted then 9 else 2
    case Clearing => 3
    case Booting => 4
    case Marking => 4
    case Answering => 5
    case Returning => 6
    case Chatting => 7
    case Reading => 8
    case _ => 0
  }

  lemma OwnerServes(s: State)
    requires FlagsOk(s) && s.owner == Some(Server)
    ensures ServerRank(s) > 0
    ensures s.server.Testing? && s.chatWanted ==> s.clientBuffer < |s.at|
    ensures InService(s.server) ==> s.clientBuffer < |s.at|
  {
  }

  /** The server, owning the mutex, releases it within nine of its own steps: it serves the request there is, if
    * any, and lets go. */
  lemma {:induction false} ServerReleases(s: State, reply: int) returns (n: nat)
    requires Orderly(s) && s.owner == Some(Server)
    ensures 0 < n <= ServerRank(s) && Run(s, Alone(ServerStep(reply), n)).owner == None
    decreases ServerRank(s)
  {
    hide Orderly, FlagsOk, ClientOk;
    var act := ServerStep(reply);
    OrderlyFlags(s);
    OwnerServes(s);
    var t := Next(s, act);
    if s.server.Yielding? {
      n := 1;
      assert Alone(act, 1) == [act];
      RunOne(s, act, []);
    } else {
      ServerKeepsOrderly(s, reply);
      ServerGoesOn(s, reply);
      n := ServerReleases(t, reply);
      RunOne(s, act, Alone(act, n));
      n := n + 1;
    }
  }

  lemma ServerGoesOn(s: State, reply: int)
    requires FlagsOk(s) && s.owner == Some(Server) && !s.server.Yielding?
    ensures var t := Next(s, ServerStep(reply));
            t == ServerNext(s, reply) && t.owner == Some(Server) && ServerRank(t) < ServerRank(s)
  {
  }
}
