/**
 The version 1 message ratchet. Hashing is symbolic: each labelled hash is a
 constructor, so it is injective and labels never collide.
 */
module Ratchet {
  import opened Wrappers

  datatype Secret =
    | BaseKey(id: nat)
    | InitHash(of: Secret)
    | MsgHash(of: Secret)
    | ChainHash(of: Secret)

  /** One chain key for both directions, and the number of messages sent and received. */
  datatype State = State(ck: Secret, sendI: nat, recvI: nat)

  datatype Derived = Derived(msgKey: Secret, nextCk: Secret)

  function DeriveMsgKey(ck: Secret): Derived {
    Derived(MsgHash(ck), ChainHash(ck))
  }

  /** The chain key advanced `n` times. */
  function Chain(ck: Secret, n: nat): Secret {
    if n == 0 then ck else ChainHash(Chain(ck, n - 1))
  }

  lemma {:induction false} ChainAdds(ck: Secret, m: nat, n: nat)
    ensures Chain(Chain(ck, m), n) == Chain(ck, m + n)
  {
    if n > 0 { ChainAdds(ck, m, n - 1); }
  }

  lemma {:induction false} ChainIsInjective(ck: Secret, m: nat, n: nat)
    ensures Chain(InitHash(ck), m) == Chain(InitHash(ck), n) <==> m == n
  {
    if m > 0 && n > 0 { ChainIsInjective(ck, m - 1, n - 1); }
  }

  function Fresh(baseKey: Secret): State {
    State(InitHash(baseKey), 0, 0)
  }

  /** The chain position a received index stands for: a fraction is rounded up. */
  function Ceil(index: real): (position: int)
    ensures position as real - 1.0 < index <= position as real
  {
    if index.Floor as real == index then index.Floor else index.Floor + 1
  }

  /** A message index is within reach of a receiver: not behind it, and at most `maxSkip` ahead. */
  predicate InWindow(recvI: nat, targetI: Option<real>, maxSkip: int) {
    && targetI.Some? && recvI as real <= targetI.value
    && Ceil(targetI.value) <= recvI + if maxSkip < 0 then 0 else maxSkip
  }

  /** The window in numbers: from the next index to `maxSkip` past it, ends included, fractions too. */
  lemma WindowByNumbers(recvI: nat, targetI: Option<real>, maxSkip: int)
    ensures InWindow(recvI, targetI, maxSkip) <==>
            targetI.Some? && recvI as real <= targetI.value <= (if maxSkip > 0 then recvI + maxSkip else recvI) as real
  {
    var furthest := if maxSkip > 0 then recvI + maxSkip else recvI;
    if targetI.Some? {
      assert Ceil(targetI.value) <= furthest <==> targetI.value <= furthest as real;
    }
  }

  /** The state and key of a receive at an index within the window. */
  function Received(s: State, targetI: nat): (State, Secret)
    requires s.recvI <= targetI
  {
    var at := Chain(s.ck, targetI - s.recvI);
    (State(ChainHash(at), s.sendI, targetI + 1), MsgHash(at))
  }

  function Sent(s: State): (State, Secret) {
    (State(ChainHash(s.ck), s.sendI + 1, s.recvI), MsgHash(s.ck))
  }

  class Conversation {
    var stored: Option<State>

    function Current(baseKey: Secret): State
      reads this
    {
      if stored.Some? then stored.value else Fresh(baseKey)
    }

    constructor ()
      ensures stored == None
    {
      stored := None;
    }

    method GetOrInit(baseKey: Secret) returns (s: State)
      modifies this
      ensures s == old(Current(baseKey)) && stored == Some(s)
    {
      if stored.Some? { return stored.value; }
      s := State(InitHash(baseKey), 0, 0);
      stored := Some(s);
    }

    method NextSendKey(baseKey: Secret) returns (msgKey: Secret, index: nat)
      modifies this
      ensures (Current(baseKey), msgKey) == Sent(old(Current(baseKey)))
      ensures index == old(Current(baseKey)).sendI
    {
      var s := GetOrInit(baseKey);
      index := s.sendI;
      var derived := DeriveMsgKey(s.ck);
      stored := Some(State(derived.nextCk, s.sendI + 1, s.recvI));
      msgKey := derived.msgKey;
    }

    /** `targetI` is None for an index that is not a finite number; it need not be whole. */
    method TryRecvKey(baseKey: Secret, targetI: Option<real>, maxSkip: int) returns (msgKey: Option<Secret>)
      modifies this
      ensures msgKey.Some? <==> InWindow(old(Current(baseKey)).recvI, targetI, maxSkip)
      ensures msgKey.Some? ==> (Current(baseKey), msgKey.value) == Received(old(Current(baseKey)), Ceil(targetI.value))
      ensures msgKey.None? ==> Current(baseKey) == old(Current(baseKey))
    {
      var s := GetOrInit(baseKey);
      var derived := DeriveRecvKeyAtIndex(s.ck, s.recvI, targetI, maxSkip);
      if derived.None? { return None; }
      var (key, nextRecvI) := derived.value;
      stored := Some(State(key.nextCk, s.sendI, nextRecvI));
      return Some(key.msgKey);
    }

    /** Walks the chain forward to `targetI`, giving up after `maxSkip` steps. */
    static method DeriveRecvKeyAtIndex(ck: Secret, recvI: nat, targetI: Option<real>, maxSkip: int)
      returns (r: Option<(Derived, nat)>)
      ensures r.Some? <==> InWindow(recvI, targetI, maxSkip)
      ensures r.Some? ==> r.value == (DeriveMsgKey(Chain(ck, Ceil(targetI.value) - recvI)), Ceil(targetI.value) + 1)
    {
      if targetI.None? || targetI.value < recvI as real { return None; }
      var target := targetI.value;
      var steps, cursorCk, cursorI := 0, ck, recvI;
      while cursorI as real < target && steps < maxSkip
        invariant 0 <= steps && cursorI == recvI + steps <= Ceil(target)
        invariant steps <= if maxSkip < 0 then 0 else maxSkip
        invariant cursorCk == Chain(ck, steps)
      {
        var derived := DeriveMsgKey(cursorCk);
        cursorCk := derived.nextCk;
        cursorI := cursorI + 1;
        steps := steps + 1;
      }
      if (cursorI as real) < target { return None; }
      return Some((DeriveMsgKey(cursorCk), cursorI + 1));
    }
  }

  // ---- two parties ----

  /** A message in flight, with the receive count its sender had when sending it. */
  datatype Message = Message(fromA: bool, index: nat, key: Secret, senderRecvI: nat)

  datatype World = World(a: State, b: State, messages: seq<Message>)

  datatype Action =
    | Send(byA: bool)
    | Receive(byA: bool, targetI: Option<real>, maxSkip: int)

  function Party(w: World, isA: bool): State { if isA then w.a else w.b }

  function WithParty(w: World, isA: bool, s: State): World { if isA then w.(a := s) else w.(b := s) }

  function Act(w: World, action: Action): World {
    match action
    case Send(byA) =>
      var s := Party(w, byA);
      var (s', key) := Sent(s);
      WithParty(w, byA, s').(messages := w.messages + [Message(byA, s.sendI, key, s.recvI)])
    case Receive(byA, targetI, maxSkip) =>
      var s := Party(w, byA);
      if InWindow(s.recvI, targetI, maxSkip) then WithParty(w, byA, Received(s, Ceil(targetI.value)).0) else w
  }

  function RunOf(w: World, actions: seq<Action>): World
    decreases |actions|
  {
    if actions == [] then w else RunOf(Act(w, actions[0]), actions[1..])
  }

  function Start(baseKey: Secret): World { World(Fresh(baseKey), Fresh(baseKey), []) }

  /** Each party's chain has advanced once for each message it sent and each index it received past. */
  ghost predicate Advanced(s: State, baseKey: Secret) {
    s.ck == Chain(InitHash(baseKey), s.sendI + s.recvI)
  }

  ghost predicate Inv(w: World, baseKey: Secret) {
    && Advanced(w.a, baseKey) && Advanced(w.b, baseKey)
    && forall m | m in w.messages :: m.key == MsgHash(Chain(InitHash(baseKey), m.index + m.senderRecvI))
  }

  lemma ReceivedAdvances(s: State, baseKey: Secret, targetI: nat)
    requires Advanced(s, baseKey) && s.recvI <= targetI
    ensures Advanced(Received(s, targetI).0, baseKey)
    ensures Received(s, targetI).1 == MsgHash(Chain(InitHash(baseKey), s.sendI + targetI))
  {
    ChainAdds(InitHash(baseKey), s.sendI + s.recvI, targetI - s.recvI);
  }

  lemma {:induction false} RunAdvances(w: World, baseKey: Secret, actions: seq<Action>)
    requires Inv(w, baseKey)
    ensures Inv(RunOf(w, actions), baseKey)
    decreases |actions|
  {
    if actions != [] {
      match actions[0] {
        case Send(byA) =>
        case Receive(byA, targetI, maxSkip) =>
          if InWindow(Party(w, byA).recvI, targetI, maxSkip) {
            ReceivedAdvances(Party(w, byA), baseKey, Ceil(targetI.value));
          }
      }
      assert Inv(Act(w, actions[0]), baseKey);
      RunAdvances(Act(w, actions[0]), baseKey, actions[1..]);
    }
  }

  /**
   Agreement, exactly. After any run of sends and receives by both parties, a
   message within the other party's window is given the key it was sent under
   if and only if its sender had received as many, when sending it, as the
   receiver has now sent.
   */
  lemma AgreementIff(baseKey: Secret, actions: seq<Action>, m: Message, maxSkip: int)
    requires m in RunOf(Start(baseKey), actions).messages
    requires InWindow(Party(RunOf(Start(baseKey), actions), !m.fromA).recvI, Some(m.index as real), maxSkip)
    ensures var receiver := Party(RunOf(Start(baseKey), actions), !m.fromA);
            Received(receiver, m.index).1 == m.key <==> m.senderRecvI == receiver.sendI
  {
    RunAdvances(Start(baseKey), baseKey, actions);
    var receiver := Party(RunOf(Start(baseKey), actions), !m.fromA);
    ReceivedAdvances(receiver, baseKey, m.index);
    ChainIsInjective(baseKey, receiver.sendI + m.index, m.index + m.senderRecvI);
  }

  /** A conversation in which only A sends and only B receives. */
  ghost predicate OneWay(actions: seq<Action>) {
    forall action | action in actions :: action.byA == action.Send?
  }

  lemma {:induction false} OneWayKeeps(w: World, actions: seq<Action>)
    requires OneWay(actions)
    requires w.a.recvI == 0 && w.b.sendI == 0 && forall m | m in w.messages :: m.fromA && m.senderRecvI == 0
    ensures var t := RunOf(w, actions);
            t.a.recvI == 0 && t.b.sendI == 0 && forall m | m in t.messages :: m.fromA && m.senderRecvI == 0
    decreases |actions|
  {
    if actions != [] {
      assert actions[0] in actions;
      OneWayKeeps(Act(w, actions[0]), actions[1..]);
    }
  }

  /** So one-way traffic always agrees, however many messages are skipped within the window. */
  lemma OneWayAlwaysAgrees(baseKey: Secret, actions: seq<Action>, m: Message, maxSkip: int)
    requires OneWay(actions)
    requires m in RunOf(Start(baseKey), actions).messages
    requires InWindow(RunOf(Start(baseKey), actions).b.recvI, Some(m.index as real), maxSkip)
    ensures m.fromA && Received(RunOf(Start(baseKey), actions).b, m.index).1 == m.key
  {
    OneWayKeeps(Start(baseKey), actions);
    AgreementIff(baseKey, actions, m, maxSkip);
  }

  /** And messages that cross disagree: if both parties send first, neither can read the other. */
  lemma CrossingDisagrees(baseKey: Secret, maxSkip: int)
    ensures var w := RunOf(Start(baseKey), [Send(true), Send(false)]);
            && |w.messages| == 2
            && InWindow(w.b.recvI, Some(w.messages[0].index as real), maxSkip) && Received(w.b, w.messages[0].index).1 != w.messages[0].key
            && InWindow(w.a.recvI, Some(w.messages[1].index as real), maxSkip) && Received(w.a, w.messages[1].index).1 != w.messages[1].key
  {
    var actions := [Send(true), Send(false)];
    assert actions[1..] == [Send(false)] && [Send(false)][1..] == [];
    var w1 := Act(Start(baseKey), Send(true));
    var w2 := Act(w1, Send(false));
    assert RunOf(w1, [Send(false)]) == RunOf(w2, []) == w2;
    assert w2.messages[0] in w2.messages && w2.messages[1] in w2.messages;
    AgreementIff(baseKey, actions, w2.messages[0], maxSkip);
    AgreementIff(baseKey, actions, w2.messages[1], maxSkip);
  }

  /** A key is given out at most once: after a receive at `i`, no index up to `i`, whole or not, is in the window again. */
  lemma {:induction false} ReceivedIndexIsSpent(w: World, isA: bool, i: nat, actions: seq<Action>)
    requires i < Party(w, isA).recvI
    ensures i < Party(RunOf(w, actions), isA).recvI
    ensures forall index: real, maxSkip | index <= i as real :: !InWindow(Party(RunOf(w, actions), isA).recvI, Some(index), maxSkip)
    decreases |actions|
  {
    if actions != [] {
      ReceivedIndexIsSpent(Act(w, actions[0]), isA, i, actions[1..]);
    }
  }
}
