/**
 The server's admission loop: it either takes a waiting client from the queue or reads the next
 connection request, tells the client its status and starts a process for every client it admits.

 The processes of admitted clients change the shared slots and the shared count of empty slots at
 any time; what the loop reads of them is an input here.
 */
module AdmissionServer {
  import opened Wrappers
  import opened AdmissionQueue

  const FULL := 0
  const QUEUED := 1
  const CONNECTED := 2

  datatype Request = Request(client: int, mode: int)

  /** What can be seen of the server from outside. */
  datatype Event =
    | Asked(client: int, mode: int)
    | Told(client: int, status: int)
    | Refused(client: int)
    | Forked(client: int)

  datatype State = State(slots: seq<int>, waiting: Waiting, log: seq<Event>)

  /** One round of the loop, with the count of empty slots and the request it would read; or the
      process of a disconnected client giving up its slot. */
  datatype Input = Round(empty: int, request: Option<Request>) | Release(client: int)

  // ---------------------------------------------------------------------------------------
  // The loop's steps.

  /** Index of the first slot that holds a value, or the number of slots. */
  function SlotOf(slots: seq<int>, x: int): (k: nat)
    ensures k <= |slots| && x !in slots[..k]
    ensures k < |slots| ==> slots[k] == x
  {
    if slots == [] || slots[0] == x then 0 else 1 + SlotOf(slots[1..], x)
  }

  /** Index of the first free slot, or the number of slots. */
  function FreeSlot(slots: seq<int>): (k: nat)
    ensures k <= |slots| && 0 !in slots[..k]
    ensures k < |slots| ==> slots[k] == 0
  {
    SlotOf(slots, 0)
  }

  /** The slots without a client. */
  function Without(slots: seq<int>, client: int): seq<int> {
    var k := SlotOf(slots, client);
    if k < |slots| then slots[k := 0] else slots
  }

  function Say(s: State, e: Event): State {
    s.(log := s.log + [e])
  }

  /** The state after the first half of a round, and the client that is to get a process. */
  datatype Decision = Decision(state: State, admitted: Option<int>)

  function Admit(s: State, client: int): Decision {
    Decision(Say(s, Told(client, CONNECTED)), Some(client))
  }

  /** A full queue loses the client, although it has been told that it is queued. */
  function Queued(s: State, client: int): State
    requires s.waiting.Valid()
  {
    var told := Say(s, Told(client, QUEUED));
    if s.waiting.rear == MAX_SIZE - 1 then Say(told, Refused(client))
    else told.(waiting := Put(s.waiting, client))
  }

  function Answer(s: State, r: Request): Decision
    requires s.waiting.Valid()
  {
    var k := FreeSlot(s.slots);
    var asked := Say(s, Asked(r.client, r.mode));
    if k < |s.slots| then Admit(asked.(slots := s.slots[k := r.client]), r.client)
    else if r.mode == 0 then Decision(Say(asked, Told(r.client, FULL)), None)
    else if r.mode == 1 then Decision(Queued(asked, r.client), None)
    else Admit(asked, r.client)
  }

  /** The first half of a round: dequeue a client or answer a request. */
  function Decide(s: State, empty: int, request: Option<Request>): (d: Decision)
    requires s.waiting.Valid()
    ensures d.state.waiting.Valid() && |d.state.slots| == |s.slots|
  {
    if s.waiting.clients != [] && empty > 0 then Admit(s.(waiting := Take(s.waiting)), s.waiting.clients[0])
    else if request.None? then Decision(s, None)
    else Answer(s, request.value)
  }

  /** The second half: `fork`, unless the round has been cut short. */
  function Start(d: Decision): State {
    if d.admitted.Some? then Say(d.state, Forked(d.admitted.value)) else d.state
  }

  function Step(s: State, input: Input): (s': State)
    requires s.waiting.Valid()
    ensures s'.waiting.Valid() && |s'.slots| == |s.slots|
  {
    match input
    case Release(client) => s.(slots := Without(s.slots, client))
    case Round(empty, request) => Start(Decide(s, empty, request))
  }

  function Run(maxClients: nat, inputs: seq<Input>): (s: State)
    ensures s.waiting.Valid() && |s.slots| == maxClients
    decreases |inputs|
  {
    if inputs == [] then State(seq(maxClients, _ => 0), NOBODY, [])
    else Step(Run(maxClients, inputs[..|inputs| - 1]), inputs[|inputs| - 1])
  }

  class Server {
    const connected: array<int>
    const queue: Queue
    var log: seq<Event>

    ghost predicate Valid()
      reads this, queue
    {
      queue.Valid()
    }

    ghost function View(): State
      requires Valid()
      reads this, queue, queue.items, connected
    {
      State(connected[..], queue.View(), log)
    }

    ghost predicate Separate() {
      connected != queue.items
    }

    constructor (maxClients: nat)
      ensures Valid() && Separate() && View() == Run(maxClients, [])
      ensures fresh(connected) && fresh(queue) && fresh(queue.items)
    {
      connected := new int[maxClients](_ => 0);
      queue := new Queue();
      log := [];
    }

    /** `add_client`. */
    method AddClient(client: int) returns (added: bool)
      requires Valid() && Separate()
      modifies connected
      ensures var slots := old(connected[..]);
              var k := FreeSlot(slots);
              added == (k < |slots|) && connected[..] == if added then slots[k := client] else slots
    {
      var i := 0;
      while i < connected.Length
        invariant i <= connected.Length && unchanged(connected)
        invariant 0 !in connected[..i]
      {
        if connected[i] == 0 {
          FirstSlot(connected[..], 0, i);
          connected[i] := client;
          return true;
        }
        i := i + 1;
      }
      FirstSlot(connected[..], 0, i);
      added := false;
    }

    /** `remove_client`. */
    method RemoveClient(client: int)
      requires Valid() && Separate()
      modifies connected
      ensures connected[..] == Without(old(connected[..]), client)
    {
      var i := 0;
      while i < connected.Length
        invariant i <= connected.Length && unchanged(connected)
        invariant client !in connected[..i]
      {
        if connected[i] == client {
          FirstSlot(connected[..], client, i);
          connected[i] := 0;
          return;
        }
        i := i + 1;
      }
      FirstSlot(connected[..], client, i);
    }

    /** `send_notification`. */
    method SendNotification(client: int, status: int)
      requires Valid()
      modifies this
      ensures Valid() && View() == Say(old(View()), Told(client, status))
    {
      log := log + [Told(client, status)];
    }

    method HandleRequest(r: Request) returns (admitted: Option<int>)
      requires Valid() && Separate()
      modifies this, connected, queue, queue.items
      ensures Valid() && Decision(View(), admitted) == Answer(old(View()), r)
    {
      log := log + [Asked(r.client, r.mode)];
      admitted := None;
      var canConnect := AddClient(r.client);
      if r.mode == 0 && !canConnect {
        SendNotification(r.client, FULL);
      } else if r.mode == 1 && !canConnect {
        SendNotification(r.client, QUEUED);
        var accepted := queue.Enqueue(r.client);
        if !accepted {
          log := log + [Refused(r.client)];
        }
      } else {
        SendNotification(r.client, CONNECTED);
        admitted := Some(r.client);
      }
    }

    /** One round of the main loop. */
    method ServeOnce(empty: int, request: Option<Request>)
      requires Valid() && Separate()
      modifies this, connected, queue, queue.items
      ensures Valid() && View() == Step(old(View()), Round(empty, request))
    {
      var admitted: Option<int> := None;
      if !queue.IsEmpty() && empty > 0 {
        var client := queue.Dequeue();
        SendNotification(client, CONNECTED);
        admitted := Some(client);
      } else if request.Some? {
        admitted := HandleRequest(request.value);
      }
      if admitted.Some? {
        log := log + [Forked(admitted.value)];
      }
    }

    /** The main loop over what it finds round by round. */
    method Serve(inputs: seq<Input>)
      requires Valid() && Separate() && View() == Run(connected.Length, [])
      modifies this, connected, queue, queue.items
      ensures Valid() && View() == Run(connected.Length, inputs)
    {
      var i := 0;
      while i < |inputs|
        invariant i <= |inputs| && Valid()
        invariant View() == Run(connected.Length, inputs[..i])
        decreases |inputs| - i
      {
        assert inputs[..i + 1][..i] == inputs[..i];
        if inputs[i].Round? {
          ServeOnce(inputs[i].empty, inputs[i].request);
        } else {
          RemoveClient(inputs[i].client);
        }
        i := i + 1;
      }
      assert inputs[..i] == inputs;
    }
  }

  lemma {:induction false} FirstSlot(slots: seq<int>, x: int, k: nat)
    requires k <= |slots| && x !in slots[..k] && (k < |slots| ==> slots[k] == x)
    ensures SlotOf(slots, x) == k
  {
    if k > 0 {
      assert slots[0] in slots[..k];
      assert slots[1..][..k - 1] == slots[..k][1..];
      FirstSlot(slots[1..], x, k - 1);
    }
  }

  // ---------------------------------------------------------------------------------------
  // The slots.

  /** The round reads a request: nobody waits, or no slot is counted as empty. */
  predicate Reads(s: State, input: Input) {
    input.Round? && (s.waiting.clients == [] || input.empty <= 0) && input.request.Some?
  }

  /** A request takes the first free slot for its client, whatever its mode; a disconnected client's
      first slot comes free; nothing else ever changes a slot. */
  lemma StepSlots(s: State, input: Input, k: nat)
    requires s.waiting.Valid() && k < |s.slots|
    ensures Step(s, input).slots[k] ==
            if Reads(s, input) && s.slots[k] == 0 && 0 !in s.slots[..k] then input.request.value.client
            else if input.Release? && s.slots[k] == input.client && input.client !in s.slots[..k] then 0
            else s.slots[k]
  {
    if Reads(s, input) {
      FirstOrNot(s.slots, 0, k);
    } else if input.Release? {
      FirstOrNot(s.slots, input.client, k);
    }
  }

  lemma FirstOrNot(slots: seq<int>, x: int, k: nat)
    requires k < |slots|
    ensures SlotOf(slots, x) == k <==> slots[k] == x && x !in slots[..k]
  {
    if slots[k] == x && x !in slots[..k] {
      FirstSlot(slots, x, k);
    }
  }

  /** Process numbers are not 0. */
  predicate RealClients(inputs: seq<Input>) {
    forall i <- inputs ::
      (i.Release? ==> i.client != 0) && (i.Round? && i.request.Some? ==> i.request.value.client != 0)
  }

  /** Requests so far that found a free slot. */
  function SlotsTaken(maxClients: nat, inputs: seq<Input>): nat
    decreases |inputs|
  {
    if inputs == [] then 0
    else
      var before, input := inputs[..|inputs| - 1], inputs[|inputs| - 1];
      var s := Run(maxClients, before);
      SlotsTaken(maxClients, before) + if Reads(s, input) && 0 in s.slots then 1 else 0
  }

  /** Disconnections so far of clients that had a slot. */
  function SlotsReleased(maxClients: nat, inputs: seq<Input>): nat
    decreases |inputs|
  {
    if inputs == [] then 0
    else
      var before, input := inputs[..|inputs| - 1], inputs[|inputs| - 1];
      var s := Run(maxClients, before);
      SlotsReleased(maxClients, before) + if input.Release? && input.client in s.slots then 1 else 0
  }

  function Free(slots: seq<int>): nat {
    multiset(slots)[0]
  }

  lemma OneSlot(slots: seq<int>, k: nat, x: int)
    requires k < |slots|
    ensures Free(slots[k := x]) == Free(slots) - (if slots[k] == 0 then 1 else 0) + (if x == 0 then 1 else 0)
  {
    assert slots == slots[..k] + [slots[k]] + slots[k + 1..];
    assert slots[k := x] == slots[..k] + [x] + slots[k + 1..];
  }

  /** A value is found exactly if it is there. */
  lemma SlotFound(slots: seq<int>, x: int)
    ensures SlotOf(slots, x) < |slots| <==> x in slots
  {
    var k := SlotOf(slots, x);
    assert k == |slots| ==> slots[..k] == slots;
  }

  lemma StepFree(s: State, input: Input)
    requires s.waiting.Valid() && RealClients([input])
    ensures Free(Step(s, input).slots) == Free(s.slots)
              - (if Reads(s, input) && 0 in s.slots then 1 else 0)
              + (if input.Release? && input.client in s.slots then 1 else 0)
  {
    assert input in [input];
    if Reads(s, input) {
      SlotFound(s.slots, 0);
      if 0 in s.slots {
        OneSlot(s.slots, FreeSlot(s.slots), input.request.value.client);
      }
    } else if input.Release? {
      SlotFound(s.slots, input.client);
      if input.client in s.slots {
        OneSlot(s.slots, SlotOf(s.slots, input.client), 0);
      }
    }
  }

  /** In every run, the free slots are all but those taken by requests, and those given back. */
  lemma {:induction false} FreeSlotsAddUp(maxClients: nat, inputs: seq<Input>)
    requires RealClients(inputs)
    ensures Free(Run(maxClients, inputs).slots) + SlotsTaken(maxClients, inputs)
            == maxClients + SlotsReleased(maxClients, inputs)
    decreases |inputs|
  {
    if inputs == [] {
      NoneTaken(maxClients);
    } else {
      var before, input := inputs[..|inputs| - 1], inputs[|inputs| - 1];
      FreeSlotsAddUp(maxClients, before);
      StepFree(Run(maxClients, before), input);
    }
  }

  lemma {:induction false} NoneTaken(n: nat)
    ensures Free(seq(n, _ => 0)) == n
  {
    if n > 0 {
      NoneTaken(n - 1);
      assert seq(n, _ => 0) == seq(n - 1, _ => 0) + [0];
    }
  }

  // ---------------------------------------------------------------------------------------
  // What one round sends.

  /** A request is answered 2 and gets a process if there is a free slot, or if it asks in another mode
      than 0 and 1; without a free slot the answer is 0 to mode 0 and 1 to mode 1. Mode 1 then waits
      last in the queue, or is refused by it. */
  lemma RequestAnswered(s: State, empty: int, request: Request)
    requires s.waiting.Valid() && (s.waiting.clients == [] || empty <= 0)
    ensures var s', client, mode := Step(s, Round(empty, Some(request))), request.client, request.mode;
            if 0 in s.slots || (mode != 0 && mode != 1) then
              && s'.log == s.log + [Asked(client, mode), Told(client, 2), Forked(client)]
              && s'.waiting == s.waiting
            else if mode == 0 then
              s'.log == s.log + [Asked(client, mode), Told(client, 0)] && s'.waiting == s.waiting
            else if s.waiting.rear < 1023 then
              && s'.log == s.log + [Asked(client, mode), Told(client, 1)]
              && s'.waiting.clients == s.waiting.clients + [client]
            else
              && s'.log == s.log + [Asked(client, mode), Told(client, 1), Refused(client)]
              && s'.waiting == s.waiting
  {
    SlotFound(s.slots, 0);
  }

  /** With somebody waiting and a slot counted as empty, a round reads no request: the client that has
      waited longest is told 2 and gets a process. */
  lemma LongestWaitingServed(s: State, empty: int, request: Option<Request>)
    requires s.waiting.Valid() && s.waiting.clients != [] && empty > 0
    ensures var s', client := Step(s, Round(empty, request)), s.waiting.clients[0];
            && s'.log == s.log + [Told(client, 2), Forked(client)]
            && s'.waiting.clients == s.waiting.clients[1..]
  {
  }

  // ---------------------------------------------------------------------------------------
  // What one client is told.

  /** `s`, with `x` added on a condition. */
  function With(s: seq<int>, added: bool, x: int): seq<int> {
    if added then s + [x] else s
  }

  /** The statuses sent to a client, in order. */
  function Statuses(log: seq<Event>, client: int): seq<int>
    decreases |log|
  {
    if log == [] then []
    else
      var e := log[|log| - 1];
      With(Statuses(log[..|log| - 1], client), e.Told? && e.client == client, if e.Told? then e.status else 0)
  }

  /** The modes of a client's requests, in order. */
  function Asks(log: seq<Event>, client: int): seq<int>
    decreases |log|
  {
    if log == [] then []
    else
      var e := log[|log| - 1];
      With(Asks(log[..|log| - 1], client), e.Asked? && e.client == client, if e.Asked? then e.mode else 0)
  }

  /** The clients told that they are connected, in order. */
  function Connected(log: seq<Event>): seq<int>
    decreases |log|
  {
    if log == [] then []
    else
      var e := log[|log| - 1];
      With(Connected(log[..|log| - 1]), e.Told? && e.status == CONNECTED, e.client)
  }

  /** The clients a process was started for, in order. */
  function Started(log: seq<Event>): seq<int>
    decreases |log|
  {
    if log == [] then []
    else
      var e := log[|log| - 1];
      With(Started(log[..|log| - 1]), e.Forked?, e.client)
  }

  /** The queue had no room for the client. */
  predicate WasRefused(log: seq<Event>, client: int)
    decreases |log|
  {
    log != [] && (log[|log| - 1] == Refused(client) || WasRefused(log[..|log| - 1], client))
  }

  /** One event more. */
  lemma LogMore(s: State, e: Event, client: int)
    ensures Statuses(Say(s, e).log, client) ==
            With(Statuses(s.log, client), e.Told? && e.client == client, if e.Told? then e.status else 0)
    ensures Asks(Say(s, e).log, client) ==
            With(Asks(s.log, client), e.Asked? && e.client == client, if e.Asked? then e.mode else 0)
    ensures WasRefused(Say(s, e).log, client) <==> e == Refused(client) || WasRefused(s.log, client)
  {
    assert Say(s, e).log[..|s.log|] == s.log;
  }

  /** What an admission adds. */
  lemma LogAdmit(s: State, admitted: int, client: int)
    ensures var log := Admit(s, admitted).state.log;
            && Statuses(log, client) == With(Statuses(s.log, client), admitted == client, CONNECTED)
            && Asks(log, client) == Asks(s.log, client)
            && (WasRefused(log, client) <==> WasRefused(s.log, client))
  {
    LogMore(s, Told(admitted, CONNECTED), client);
  }

  /** Starting a process tells nobody anything. */
  lemma LogStart(d: Decision, client: int)
    ensures Statuses(Start(d).log, client) == Statuses(d.state.log, client)
    ensures Asks(Start(d).log, client) == Asks(d.state.log, client)
    ensures WasRefused(Start(d).log, client) <==> WasRefused(d.state.log, client)
  {
    if d.admitted.Some? {
      LogMore(d.state, Forked(d.admitted.value), client);
    }
  }

  lemma LogQueued(s: State, queued: int, client: int)
    requires s.waiting.Valid()
    ensures var log := Queued(s, queued).log;
            && Statuses(log, client) == With(Statuses(s.log, client), queued == client, QUEUED)
            && Asks(log, client) == Asks(s.log, client)
            && (WasRefused(log, client) <==>
                 WasRefused(s.log, client) || (queued == client && s.waiting.rear == MAX_SIZE - 1))
  {
    LogMore(s, Told(queued, QUEUED), client);
    LogMore(Say(s, Told(queued, QUEUED)), Refused(queued), client);
  }

  /** The status a request is answered with. */
  function Reply(s: State, r: Request): int {
    if FreeSlot(s.slots) < |s.slots| then CONNECTED
    else if r.mode == 0 then FULL
    else if r.mode == 1 then QUEUED
    else CONNECTED
  }

  /** What the answer to a request adds. */
  lemma LogAnswer(s: State, r: Request, client: int)
    requires s.waiting.Valid()
    ensures var s', reply := Answer(s, r).state, Reply(s, r);
            && Statuses(s'.log, client) == With(Statuses(s.log, client), r.client == client, reply)
            && Asks(s'.log, client) == With(Asks(s.log, client), r.client == client, r.mode)
            && (WasRefused(s'.log, client) <==>
                 || WasRefused(s.log, client)
                 || (r.client == client && reply == QUEUED && s.waiting.rear == MAX_SIZE - 1))
  {
    var asked := Say(s, Asked(r.client, r.mode));
    LogMore(s, Asked(r.client, r.mode), client);
    if FreeSlot(s.slots) < |s.slots| {
      LogAdmit(asked.(slots := s.slots[FreeSlot(s.slots) := r.client]), r.client, client);
    } else if r.mode == 0 {
      LogMore(asked, Told(r.client, FULL), client);
    } else if r.mode == 1 {
      LogQueued(asked, r.client, client);
    } else {
      LogAdmit(asked, r.client, client);
    }
  }

  function InQueue(s: State, client: int): nat {
    multiset(s.waiting.clients)[client]
  }

  /** A client that has asked once, or not yet. */
  predicate ClientInv(s: State, client: int) {
    var told, modes := Statuses(s.log, client), Asks(s.log, client);
    && (|modes| == 0 ==> told == [] && InQueue(s, client) == 0 && !WasRefused(s.log, client))
    && (|modes| == 1 ==>
          if modes[0] == 0 then
            (told == [FULL] || told == [CONNECTED]) && InQueue(s, client) == 0 && !WasRefused(s.log, client)
          else if modes[0] == 1 then
            && (told == [CONNECTED] || told == [QUEUED] || told == [QUEUED, CONNECTED])
            && (InQueue(s, client) > 0 || WasRefused(s.log, client) <==> told == [QUEUED])
            && InQueue(s, client) + (if WasRefused(s.log, client) then 1 else 0) <= 1
          else told == [CONNECTED] && InQueue(s, client) == 0 && !WasRefused(s.log, client))
  }

  lemma AdmitKeepsClientInv(s: State, client: int)
    requires s.waiting.Valid() && s.waiting.clients != [] && ClientInv(s, client)
    ensures ClientInv(Admit(s.(waiting := Take(s.waiting)), s.waiting.clients[0]).state, client)
  {
    var head := s.waiting.clients[0];
    LogAdmit(s.(waiting := Take(s.waiting)), head, client);
    assert s.waiting.clients == [head] + s.waiting.clients[1..];
    assert Take(s.waiting).clients == s.waiting.clients[1..];
  }

  lemma AnswerKeepsClientInv(s: State, r: Request, client: int)
    requires s.waiting.Valid() && ClientInv(s, client)
    ensures ClientInv(Answer(s, r).state, client)
  {
    LogAnswer(s, r, client);
  }

  lemma RoundKeepsClientInv(s: State, empty: int, request: Option<Request>, client: int)
    requires s.waiting.Valid() && ClientInv(s, client)
    ensures ClientInv(Start(Decide(s, empty, request)), client)
  {
    if s.waiting.clients != [] && empty > 0 {
      AdmitKeepsClientInv(s, client);
    } else if request.Some? {
      AnswerKeepsClientInv(s, request.value, client);
    }
    LogStart(Decide(s, empty, request), client);
  }

  lemma {:induction false} RunKeepsClientInv(maxClients: nat, inputs: seq<Input>, client: int)
    ensures ClientInv(Run(maxClients, inputs), client)
    decreases |inputs|
  {
    if inputs != [] {
      var before := inputs[..|inputs| - 1];
      RunKeepsClientInv(maxClients, before, client);
      var s, input := Run(maxClients, before), inputs[|inputs| - 1];
      if input.Round? {
        RoundKeepsClientInv(s, input.empty, input.request, client);
      }
    }
  }

  /** In every run, a client that asks once, immediately, is told exactly that the server is full or
      that it is connected; one that is ready to wait is told exactly that it is connected, or that
      it is queued, or first the one and then the other. It stays with `queued` as long as it waits,
      and for ever if the queue refused it. */
  lemma ClientIsTold(maxClients: nat, inputs: seq<Input>, client: int)
    ensures var s := Run(maxClients, inputs);
            var told := Statuses(s.log, client);
            && (Asks(s.log, client) == [] ==> told == [])
            && (Asks(s.log, client) == [0] ==> told == [FULL] || told == [CONNECTED])
            && (Asks(s.log, client) == [1] ==>
                  && (told == [CONNECTED] || told == [QUEUED] || told == [QUEUED, CONNECTED])
                  && (told == [QUEUED] <==> client in s.waiting.clients || WasRefused(s.log, client)))
  {
    RunKeepsClientInv(maxClients, inputs, client);
  }

  lemma StepKeepsRefused(s: State, input: Input, client: int)
    requires s.waiting.Valid() && WasRefused(s.log, client)
    ensures WasRefused(Step(s, input).log, client)
  {
    if input.Round? {
      if s.waiting.clients != [] && input.empty > 0 {
        LogAdmit(s.(waiting := Take(s.waiting)), s.waiting.clients[0], client);
      } else if input.request.Some? {
        LogAnswer(s, input.request.value, client);
      }
      LogStart(Decide(s, input.empty, input.request), client);
    }
  }

  lemma {:induction false} RunKeepsRefused(maxClients: nat, inputs: seq<Input>, more: seq<Input>, client: int)
    requires WasRefused(Run(maxClients, inputs).log, client)
    ensures WasRefused(Run(maxClients, inputs + more).log, client)
    decreases |more|
  {
    if more == [] {
      assert inputs + more == inputs;
    } else {
      var before, input := more[..|more| - 1], more[|more| - 1];
      RunKeepsRefused(maxClients, inputs, before, client);
      assert inputs + more == inputs + before + [input];
      RunOneMore(maxClients, inputs + before, input);
      StepKeepsRefused(Run(maxClients, inputs + before), input, client);
    }
  }

  lemma RunOneMore(maxClients: nat, inputs: seq<Input>, input: Input)
    ensures Run(maxClients, inputs + [input]) == Step(Run(maxClients, inputs), input)
  {
    assert (inputs + [input])[..|inputs|] == inputs;
  }

  /** A client refused by the queue was told that it is queued, and will never be told anything else. */
  lemma RefusedForEver(maxClients: nat, inputs: seq<Input>, more: seq<Input>, client: int)
    requires WasRefused(Run(maxClients, inputs).log, client)
    requires |Asks(Run(maxClients, inputs + more).log, client)| <= 1
    ensures Statuses(Run(maxClients, inputs + more).log, client) == [QUEUED]
    ensures client !in Run(maxClients, inputs + more).waiting.clients
  {
    RunKeepsRefused(maxClients, inputs, more, client);
    RunKeepsClientInv(maxClients, inputs + more, client);
  }

  // ---------------------------------------------------------------------------------------
  // Exactly when clients are lost.

  /** What a round does to the queue. */
  function StepOps(s: State, input: Input): seq<Operation>
    requires s.waiting.Valid()
  {
    if input.Release? then []
    else if s.waiting.clients != [] && input.empty > 0 then [Operation.Dequeue]
    else if input.request.Some? && Reply(s, input.request.value) == QUEUED then
      [Operation.Enqueue(input.request.value.client)]
    else []
  }

  /** What a run does to the queue. */
  function QueueOps(maxClients: nat, inputs: seq<Input>): seq<Operation>
    decreases |inputs|
  {
    if inputs == [] then []
    else
      var before := inputs[..|inputs| - 1];
      QueueOps(maxClients, before) + StepOps(Run(maxClients, before), inputs[|inputs| - 1])
  }

  lemma PerformOne(ops: seq<Operation>, op: Operation)
    ensures PerformAll(ops + [op]) == Perform(PerformAll(ops), op)
  {
    assert (ops + [op])[..|ops|] == ops;
  }

  lemma StepIsOps(s: State, input: Input, ops: seq<Operation>)
    requires s.waiting.Valid() && s.waiting == PerformAll(ops)
    ensures Step(s, input).waiting == PerformAll(ops + StepOps(s, input))
  {
    assert ops + [] == ops;
    if StepOps(s, input) != [] {
      PerformOne(ops, StepOps(s, input)[0]);
    }
  }

  /** The server's queue is the array queue after the operations of the run. */
  lemma {:induction false} RunIsQueue(maxClients: nat, inputs: seq<Input>)
    ensures Run(maxClients, inputs).waiting == PerformAll(QueueOps(maxClients, inputs))
    decreases |inputs|
  {
    if inputs != [] {
      var before := inputs[..|inputs| - 1];
      RunIsQueue(maxClients, before);
      StepIsOps(Run(maxClients, before), inputs[|inputs| - 1], QueueOps(maxClients, before));
    }
  }

  ghost predicate AnyRefused(log: seq<Event>) {
    exists client :: WasRefused(log, client)
  }

  /** A round refuses a client exactly if it has to queue one and the last position has been used. */
  lemma StepRefuses(s: State, input: Input)
    requires s.waiting.Valid()
    ensures AnyRefused(Step(s, input).log) <==>
            AnyRefused(s.log)
            || (StepOps(s, input) != [] && StepOps(s, input)[0].Enqueue? && s.waiting.rear == MAX_SIZE - 1)
  {
    forall client
      ensures WasRefused(Step(s, input).log, client) <==>
              || WasRefused(s.log, client)
              || (StepOps(s, input) == [Operation.Enqueue(client)] && s.waiting.rear == MAX_SIZE - 1)
    {
      StepRefusesClient(s, input, client);
    }
    if StepOps(s, input) != [] && StepOps(s, input)[0].Enqueue? && s.waiting.rear == MAX_SIZE - 1 {
      assert WasRefused(Step(s, input).log, StepOps(s, input)[0].client);
    }
  }

  lemma StepRefusesClient(s: State, input: Input, client: int)
    requires s.waiting.Valid()
    ensures WasRefused(Step(s, input).log, client) <==>
            || WasRefused(s.log, client)
            || (StepOps(s, input) == [Operation.Enqueue(client)] && s.waiting.rear == MAX_SIZE - 1)
  {
    if input.Round? {
      if s.waiting.clients != [] && input.empty > 0 {
        LogAdmit(s.(waiting := Take(s.waiting)), s.waiting.clients[0], client);
      } else if input.request.Some? {
        LogAnswer(s, input.request.value, client);
      }
      LogStart(Decide(s, input.empty, input.request), client);
    }
  }

  lemma FitsStep(s: State, input: Input, ops: seq<Operation>)
    requires s.waiting.Valid() && s.waiting == PerformAll(ops)
    ensures Fits(ops + StepOps(s, input)) <==>
            Fits(ops) && !(StepOps(s, input) != [] && StepOps(s, input)[0].Enqueue? && s.waiting.rear == MAX_SIZE - 1)
  {
    assert ops + [] == ops;
    if StepOps(s, input) != [] {
      var op := StepOps(s, input)[0];
      assert (ops + [op])[..|ops|] == ops;
      if op.Dequeue? {
        FitsAfterDequeue(ops);
      } else if Fits(ops) {
        FitsUnlessFull(ops, op.client);
      }
    }
  }

  /** In a run, no client is lost if and only if never more than 1024 clients are queued between two
      moments at which nobody waits. */
  lemma {:induction false} NobodyLostIffFits(maxClients: nat, inputs: seq<Input>)
    ensures !AnyRefused(Run(maxClients, inputs).log) <==> Fits(QueueOps(maxClients, inputs))
    decreases |inputs|
  {
    if inputs != [] {
      var before, input := inputs[..|inputs| - 1], inputs[|inputs| - 1];
      NobodyLostIffFits(maxClients, before);
      RunIsQueue(maxClients, before);
      StepRefuses(Run(maxClients, before), input);
      FitsStep(Run(maxClients, before), input, QueueOps(maxClients, before));
    }
  }

  /** Clients 1, 2, 3 and so on arrive, all ready to wait, and none of them leaves. */
  function Arrivals(n: nat): seq<Input> {
    seq(n, i => Round(0, Some(Request(i + 1, 1))))
  }

  predicate FirstTaken(slots: seq<int>, k: nat) {
    k <= |slots| && (forall i | 0 <= i < k :: slots[i] != 0) && (forall i | k <= i < |slots| :: slots[i] == 0)
  }

  /** `n` clients have come and not left: they have taken the slots first, then places in the queue. */
  predicate Filled(s: State, n: nat) {
    && FirstTaken(s.slots, if n <= |s.slots| then n else |s.slots|)
    && s.waiting.rear == if n <= |s.slots| then -1 else n - |s.slots| - 1
  }

  lemma {:induction false} ArrivalsFill(maxClients: nat, n: nat)
    requires n <= maxClients + MAX_SIZE
    ensures Filled(Run(maxClients, Arrivals(n)), n)
  {
    if n == 0 {
      NobodyYet(maxClients);
    } else {
      ArrivalsFill(maxClients, n - 1);
      OneMoreFills(maxClients, n);
    }
  }

  lemma OneMoreFills(maxClients: nat, n: nat)
    requires 0 < n <= maxClients + MAX_SIZE && Filled(Run(maxClients, Arrivals(n - 1)), n - 1)
    ensures Filled(Run(maxClients, Arrivals(n)), n)
  {
    OneArrivalMore(maxClients, n);
    ArrivalFills(Run(maxClients, Arrivals(n - 1)), n);
  }

  lemma NobodyYet(maxClients: nat)
    ensures Filled(Run(maxClients, Arrivals(0)), 0)
  {
  }

  lemma ArrivalFills(s: State, n: nat)
    requires s.waiting.Valid() && 0 < n <= |s.slots| + MAX_SIZE && Filled(s, n - 1)
    ensures Filled(Step(s, Round(0, Some(Request(n, 1)))), n)
  {
    ArrivalTakes(s, n, if n - 1 <= |s.slots| then n - 1 else |s.slots|);
  }

  lemma OneArrivalMore(maxClients: nat, n: nat)
    requires n > 0
    ensures Run(maxClients, Arrivals(n)) == Step(Run(maxClients, Arrivals(n - 1)), Round(0, Some(Request(n, 1))))
  {
    assert Arrivals(n)[..n - 1] == Arrivals(n - 1);
  }

  /** One arrival takes the next slot, or the next place in the queue. */
  lemma ArrivalTakes(s: State, client: int, taken: nat)
    requires s.waiting.Valid() && FirstTaken(s.slots, taken) && client != 0
    requires s.waiting.rear < MAX_SIZE - 1
    ensures var s' := Step(s, Round(0, Some(Request(client, 1))));
            if taken < |s.slots| then FirstTaken(s'.slots, taken + 1) && s'.waiting == s.waiting
            else s'.slots == s.slots && s'.waiting.rear == s.waiting.rear + 1
  {
    FirstSlot(s.slots, 0, taken);
  }

  /** It does happen, whatever the number of slots: the client after those in the slots and 1024 waiting
      ones is told that it is queued, and lost. */
  lemma ClientsCanBeLost(maxClients: nat, more: seq<Input>)
    requires |Asks(Run(maxClients, Arrivals(maxClients + MAX_SIZE + 1) + more).log, maxClients + MAX_SIZE + 1)| <= 1
    ensures var n := maxClients + MAX_SIZE + 1;
            var s := Run(maxClients, Arrivals(n) + more);
            Statuses(s.log, n) == [QUEUED] && n !in s.waiting.clients
  {
    var n := maxClients + MAX_SIZE + 1;
    ArrivalsFill(maxClients, n - 1);
    OneArrivalMore(maxClients, n);
    var s := Run(maxClients, Arrivals(n - 1));
    FirstSlot(s.slots, 0, maxClients);
    LogAnswer(s, Request(n, 1), n);
    LogStart(Answer(s, Request(n, 1)), n);
    RefusedForEver(maxClients, Arrivals(n), more, n);
  }

  // ---------------------------------------------------------------------------------------
  // Processes, and the order of the queue.

  /** The clients told that they are connected after having been told that they are queued. */
  function Resumed(log: seq<Event>): seq<int>
    decreases |log|
  {
    if log == [] then []
    else
      var before, e := log[..|log| - 1], log[|log| - 1];
      With(Resumed(before), e.Told? && e.status == CONNECTED && QUEUED in Statuses(before, e.client), e.client)
  }

  /** The clients told that they are queued and not refused by the queue. */
  function Accepted(log: seq<Event>): seq<int>
    decreases |log|
  {
    if log == [] then []
    else
      var before, e := Accepted(log[..|log| - 1]), log[|log| - 1];
      if e.Told? && e.status == QUEUED then before + [e.client]
      else if e.Refused? && before != [] then before[..|before| - 1]
      else before
  }

  lemma OrderMore(s: State, e: Event)
    ensures var log, log' := s.log, Say(s, e).log;
            && Connected(log') == With(Connected(log), e.Told? && e.status == CONNECTED, e.client)
            && Started(log') == With(Started(log), e.Forked?, e.client)
            && Resumed(log') ==
                 With(Resumed(log), e.Told? && e.status == CONNECTED && QUEUED in Statuses(log, e.client), e.client)
            && Accepted(log') ==
                 if e.Told? && e.status == QUEUED then Accepted(log) + [e.client]
                 else if e.Refused? && Accepted(log) != [] then Accepted(log)[..|Accepted(log)| - 1]
                 else Accepted(log)
  {
    assert Say(s, e).log[..|s.log|] == s.log;
  }

  lemma OrderAdmit(s: State, client: int)
    ensures var log, log' := s.log, Admit(s, client).state.log;
            && Connected(log') == Connected(log) + [client]
            && Started(log') == Started(log)
            && Accepted(log') == Accepted(log)
            && Resumed(log') == With(Resumed(log), QUEUED in Statuses(log, client), client)
  {
    OrderMore(s, Told(client, CONNECTED));
  }

  lemma OrderStart(d: Decision)
    ensures var log, log' := d.state.log, Start(d).log;
            && Started(log') == With(Started(log), d.admitted.Some?, if d.admitted.Some? then d.admitted.value else 0)
            && Connected(log') == Connected(log) && Resumed(log') == Resumed(log) && Accepted(log') == Accepted(log)
  {
    if d.admitted.Some? {
      OrderMore(d.state, Forked(d.admitted.value));
    }
  }

  lemma OrderQueued(s: State, client: int)
    requires s.waiting.Valid()
    ensures var log, log' := s.log, Queued(s, client).log;
            && Connected(log') == Connected(log) && Started(log') == Started(log) && Resumed(log') == Resumed(log)
            && Accepted(log') == With(Accepted(log), s.waiting.rear != MAX_SIZE - 1, client)
  {
    OrderMore(s, Told(client, QUEUED));
    OrderMore(Say(s, Told(client, QUEUED)), Refused(client));
  }

  lemma OrderAnswer(s: State, r: Request)
    requires s.waiting.Valid()
    ensures var log, log', reply := s.log, Answer(s, r).state.log, Reply(s, r);
            && Connected(log') == With(Connected(log), reply == CONNECTED, r.client)
            && Started(log') == Started(log)
            && Resumed(log') == With(Resumed(log), reply == CONNECTED && QUEUED in Statuses(log, r.client), r.client)
            && Accepted(log') == With(Accepted(log), reply == QUEUED && s.waiting.rear != MAX_SIZE - 1, r.client)
  {
    var asked := Say(s, Asked(r.client, r.mode));
    OrderMore(s, Asked(r.client, r.mode));
    LogMore(s, Asked(r.client, r.mode), r.client);
    if FreeSlot(s.slots) < |s.slots| {
      OrderAdmit(asked.(slots := s.slots[FreeSlot(s.slots) := r.client]), r.client);
    } else if r.mode == 0 {
      OrderMore(asked, Told(r.client, FULL));
    } else if r.mode == 1 {
      OrderQueued(asked, r.client);
    } else {
      OrderAdmit(asked, r.client);
    }
  }

  /** A round starts a process exactly if it has told a client that it is connected, for that client. */
  lemma RoundStartsConnected(s: State, empty: int, request: Option<Request>)
    requires s.waiting.Valid()
    ensures var d := Decide(s, empty, request);
            && Connected(Start(d).log) == AndOne(Connected(s.log), d.admitted)
            && Started(Start(d).log) == AndOne(Started(s.log), d.admitted)
  {
    DecideConnects(s, empty, request);
    OrderStart(Decide(s, empty, request));
  }

  function AndOne(clients: seq<int>, client: Option<int>): seq<int> {
    if client.Some? then clients + [client.value] else clients
  }

  /** What the first half tells, the second half acts on. */
  lemma DecideConnects(s: State, empty: int, request: Option<Request>)
    requires s.waiting.Valid()
    ensures var d := Decide(s, empty, request);
            Connected(d.state.log) == AndOne(Connected(s.log), d.admitted) && Started(d.state.log) == Started(s.log)
  {
    if s.waiting.clients != [] && empty > 0 {
      OrderAdmit(s.(waiting := Take(s.waiting)), s.waiting.clients[0]);
    } else if request.Some? {
      OrderAnswer(s, request.value);
    }
  }

  /** In every run, exactly one process is started for every `connected` sent, in the same order. */
  lemma {:induction false} OneProcessPerAdmission(maxClients: nat, inputs: seq<Input>)
    ensures Started(Run(maxClients, inputs).log) == Connected(Run(maxClients, inputs).log)
    decreases |inputs|
  {
    if inputs != [] {
      var before := inputs[..|inputs| - 1];
      OneProcessPerAdmission(maxClients, before);
      var s, input := Run(maxClients, before), inputs[|inputs| - 1];
      if input.Round? {
        RoundStartsConnected(s, input.empty, input.request);
      }
    }
  }

  ghost predicate OneRequestEach(log: seq<Event>) {
    forall client :: |Asks(log, client)| <= 1
  }

  ghost predicate OrderInv(s: State) {
    && (forall client <- s.waiting.clients :: QUEUED in Statuses(s.log, client))
    && (OneRequestEach(s.log) ==> Accepted(s.log) == Resumed(s.log) + s.waiting.clients)
  }

  lemma AdmitKeepsOrder(s: State)
    requires s.waiting.Valid() && s.waiting.clients != [] && OrderInv(s)
    ensures OrderInv(Admit(s.(waiting := Take(s.waiting)), s.waiting.clients[0]).state)
  {
    var head, rest := s.waiting.clients[0], s.waiting.clients[1..];
    var s' := Admit(s.(waiting := Take(s.waiting)), head).state;
    forall client
      ensures Asks(s'.log, client) == Asks(s.log, client)
      ensures QUEUED in Statuses(s.log, client) ==> QUEUED in Statuses(s'.log, client)
    {
      LogAdmit(s.(waiting := Take(s.waiting)), head, client);
    }
    OrderAdmit(s.(waiting := Take(s.waiting)), head);
    assert s'.waiting.clients == rest;
    if OneRequestEach(s'.log) {
      assert OneRequestEach(s.log);
      assert s.waiting.clients == [head] + rest;
      assert Resumed(s.log) + ([head] + rest) == Resumed(s.log) + [head] + rest;
    }
  }

  lemma AnswerKeepsOrder(s: State, r: Request)
    requires s.waiting.Valid() && OrderInv(s) && ClientInv(s, r.client)
    ensures OrderInv(Answer(s, r).state)
  {
    var s' := Answer(s, r).state;
    forall client
      ensures |Asks(s.log, client)| <= |Asks(s'.log, client)|
      ensures QUEUED in Statuses(s.log, client) ==> QUEUED in Statuses(s'.log, client)
    {
      LogAnswer(s, r, client);
    }
    LogAnswer(s, r, r.client);
    if OneRequestEach(s'.log) {
      forall client
        ensures |Asks(s.log, client)| <= 1
      {
        assert |Asks(s'.log, client)| <= 1;
      }
      AnswerKeepsSequence(s, r);
    }
  }

  lemma AnswerKeepsSequence(s: State, r: Request)
    requires s.waiting.Valid() && ClientInv(s, r.client) && |Asks(Answer(s, r).state.log, r.client)| <= 1
    requires Accepted(s.log) == Resumed(s.log) + s.waiting.clients
    ensures var s' := Answer(s, r).state; Accepted(s'.log) == Resumed(s'.log) + s'.waiting.clients
  {
    LogAnswer(s, r, r.client);
    assert Asks(s.log, r.client) == [];
    OrderAnswer(s, r);
    var before, more := Resumed(s.log), [r.client];
    assert before + (s.waiting.clients + more) == before + s.waiting.clients + more;
  }

  lemma StartKeepsOrder(d: Decision)
    requires OrderInv(d.state)
    ensures OrderInv(Start(d))
  {
    OrderStart(d);
    forall client
      ensures Asks(Start(d).log, client) == Asks(d.state.log, client)
      ensures Statuses(Start(d).log, client) == Statuses(d.state.log, client)
    {
      LogStart(d, client);
    }
    if OneRequestEach(Start(d).log) {
      assert OneRequestEach(d.state.log);
    }
  }

  lemma {:induction false} RunKeepsOrder(maxClients: nat, inputs: seq<Input>)
    ensures OrderInv(Run(maxClients, inputs))
    decreases |inputs|
  {
    if inputs != [] {
      var before := inputs[..|inputs| - 1];
      RunKeepsOrder(maxClients, before);
      var s, input := Run(maxClients, before), inputs[|inputs| - 1];
      if input.Round? {
        if s.waiting.clients != [] && input.empty > 0 {
          AdmitKeepsOrder(s);
        } else if input.request.Some? {
          RunKeepsClientInv(maxClients, before, input.request.value.client);
          AnswerKeepsOrder(s, input.request.value);
        }
        StartKeepsOrder(Decide(s, input.empty, input.request));
      }
    }
  }

  /** If no client asks twice, the clients the queue accepted are, in that order, those that were told
      so far that their turn has come, followed by those still waiting. */
  lemma ServedInOrder(maxClients: nat, inputs: seq<Input>)
    requires OneRequestEach(Run(maxClients, inputs).log)
    ensures var s := Run(maxClients, inputs); Accepted(s.log) == Resumed(s.log) + s.waiting.clients
  {
    RunKeepsOrder(maxClients, inputs);
  }
}
