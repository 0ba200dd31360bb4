/**
 * The bookkeeping of the cacti actor system: the actor array, the live and
 * total counters, each actor's FIFO message queue and the tasks handed to
 * the thread pool. Every function of the library that takes the global
 * mutex is one atomic step on this state; a task run by the pool is split
 * at the points where it releases the mutex (TaskBegin, ProcessMessage,
 * TaskEnd).
 */
module Cacti {
  import opened Wrappers

  type ActorId = int

  /** A message: its type and its one data word (a role, an actor id, or NULL as 0). */
  datatype Message = Message(messageType: int, data: int)

  /** One slot of the actor array; `state` is None while it is NULL. */
  datatype Actor = Actor(id: ActorId, role: int, state: Option<int>, queue: seq<Message>, alive: bool, free: bool)

  /** What processing a message amounts to. */
  datatype Action = Spawn(role: int) | GoDie | Prompt(role: int, messageType: int)

  datatype JoinOutcome = NothingToJoin | MustWait | Joined

  /** An actor the join must wait for: alive, holding messages, or busy with one. */
  predicate Busy(a: Actor)
  {
    a.alive || |a.queue| > 0 || !a.free
  }

  function BusyCount(s: seq<Actor>): nat
  {
    if |s| == 0 then 0 else BusyCount(s[..|s| - 1]) + (if Busy(s[|s| - 1]) then 1 else 0)
  }

  /** Replacing one actor changes the count by that actor's contribution only. */
  lemma {:induction false} BusyCountUpdate(s: seq<Actor>, i: nat, a: Actor)
    requires i < |s|
    ensures BusyCount(s[i := a]) ==
      BusyCount(s) - (if Busy(s[i]) then 1 else 0) + (if Busy(a) then 1 else 0)
  {
    var n := |s| - 1;
    if i < n {
      assert s[i := a][..n] == s[..n][i := a];
      BusyCountUpdate(s[..n], i, a);
    } else {
      assert s[i := a][..n] == s[..n];
    }
  }

  lemma BusyCountAppend(s: seq<Actor>, a: Actor)
    ensures BusyCount(s + [a]) == BusyCount(s) + (if Busy(a) then 1 else 0)
  {
    assert (s + [a])[..|s|] == s;
  }

  /** With no busy actor left, every actor is dead, idle and has an empty queue. */
  lemma {:induction false} NoneBusy(s: seq<Actor>)
    requires BusyCount(s) == 0
    ensures forall i :: 0 <= i < |s| ==> !s[i].alive && s[i].queue == [] && s[i].free
  {
    if |s| > 0 {
      NoneBusy(s[..|s| - 1]);
      assert forall i :: 0 <= i < |s| - 1 ==> s[i] == s[..|s| - 1][i];
    }
  }

  /**
   * `process_message`: SPAWN and GODIE are handled by the system, every
   * other type runs the prompt of that index in the actor's role.
   */
  function Dispatch(msgSpawn: int, msgGodie: int, role: int, m: Message): (a: Action)
    ensures a.Spawn? <==> m.messageType == msgSpawn
    ensures a.GoDie? <==> m.messageType != msgSpawn && m.messageType == msgGodie
    ensures a.Spawn? ==> a.role == m.data
    ensures a.Prompt? ==> a == Prompt(role, m.messageType)
  {
    if m.messageType == msgSpawn then Spawn(m.data)
    else if m.messageType == msgGodie then GoDie
    else Prompt(role, m.messageType)
  }

  class ActorSystem {
    /** CAST_LIMIT, ACTOR_QUEUE_LIMIT and the reserved message types. */
    const castLimit: int
    const queueLimit: nat
    const msgSpawn: int
    const msgGodie: int
    const msgHello: int

    var actors: seq<Actor>
    var active: int
    var total: int
    /** One entry per task given to the thread pool and not yet started. */
    var tasks: multiset<ActorId>

    ghost predicate Valid()
      reads this
    {
      && total == |actors|
      && active == BusyCount(actors)
      && (forall i :: 0 <= i < |actors| ==> actors[i].id == i)
      && (forall i :: 0 <= i < |actors| ==> |actors[i].queue| <= queueLimit)
      && (forall i :: 0 <= i < |actors| ==> tasks[i] == |actors[i].queue|)
      && (forall x :: x in tasks ==> 0 <= x < |actors|)
    }

    constructor (castLimit: int, queueLimit: nat, msgSpawn: int, msgGodie: int, msgHello: int)
      ensures Valid()
      ensures this.castLimit == castLimit && this.queueLimit == queueLimit
      ensures this.msgSpawn == msgSpawn && this.msgGodie == msgGodie && this.msgHello == msgHello
      ensures actors == [] && active == 0 && total == 0 && tasks == multiset{}
    {
      this.castLimit := castLimit;
      this.queueLimit := queueLimit;
      this.msgSpawn := msgSpawn;
      this.msgGodie := msgGodie;
      this.msgHello := msgHello;
      actors := [];
      active := 0;
      total := 0;
      tasks := multiset{};
    }

    /**
     * `create_new_actor`: the next id, alive and free with a NULL state and
     * an empty queue, pushed at the end; `fatal` when the total passes the
     * limit, in which case the process ends before the live count grows.
     */
    method CreateNewActor(role: int) returns (actor: Actor, fatal: bool)
      requires Valid()
      modifies this
      ensures actor == Actor(old(|actors|), role, None, [], true, true)
      ensures actors == old(actors) + [actor]
      ensures total == old(total) + 1
      ensures fatal <==> total > castLimit
      ensures active == if fatal then old(active) else old(active) + 1
      ensures tasks == old(tasks)
      ensures !fatal ==> Valid()
    {
      actor := Actor(|actors|, role, None, [], true, true);
      BusyCountAppend(actors, actor);
      actors := actors + [actor];
      total := total + 1;
      fatal := total > castLimit;
      if !fatal {
        active := active + 1;
      }
    }

    /**
     * `send_message`: -2 for an id outside the array, -1 for a dead actor,
     * -3 for a full queue, and otherwise one message queued, one task
     * scheduled and 0.
     */
    method SendMessage(id: ActorId, m: Message) returns (code: int)
      requires Valid()
      modifies this
      ensures Valid()
      ensures code == -2 <==> !(0 <= id < |old(actors)|)
      ensures code == -1 <==> 0 <= id < |old(actors)| && !old(actors)[id].alive
      ensures code == -3 <==> 0 <= id < |old(actors)| && old(actors)[id].alive && |old(actors)[id].queue| >= queueLimit
      ensures code == 0 || code == -1 || code == -2 || code == -3
      ensures code != 0 ==> actors == old(actors) && tasks == old(tasks)
      ensures code == 0 ==> actors == old(actors)[id := old(actors)[id].(queue := old(actors)[id].queue + [m])]
      ensures code == 0 ==> tasks == old(tasks) + multiset{id}
      ensures active == old(active) && total == old(total)
    {
      if id < 0 || |actors| <= id {
        return -2;
      }
      var actor := actors[id];
      if !actor.alive {
        return -1;
      }
      if |actor.queue| >= queueLimit {
        return -3;
      }
      var updated := actor.(queue := actor.queue + [m]);
      BusyCountUpdate(actors, id, updated);
      actors := actors[id := updated];
      tasks := tasks + multiset{id};
      code := 0;
    }

    /**
     * The first half of `thread_pool_task`: the task waits while its actor
     * is busy (`started` false, nothing changes); otherwise it takes the
     * actor, marks it not free and dequeues the oldest message.
     */
    method TaskBegin(a: ActorId) returns (started: bool, m: Message)
      requires Valid() && a in tasks
      modifies this
      ensures Valid()
      ensures 0 <= a < |old(actors)|
      ensures started <==> old(actors)[a].free
      ensures !started ==> actors == old(actors) && tasks == old(tasks)
      ensures started ==> old(actors)[a].queue != [] && m == old(actors)[a].queue[0]
      ensures started ==> actors == old(actors)[a := old(actors)[a].(free := false, queue := old(actors)[a].queue[1..])]
      ensures started ==> tasks == old(tasks) - multiset{a}
      ensures active == old(active) && total == old(total)
    {
      var actor := actors[a];
      if !actor.free {
        started := false;
        m := Message(0, 0);
        return;
      }
      started := true;
      m := actor.queue[0];
      var updated := actor.(free := false, queue := actor.queue[1..]);
      BusyCountUpdate(actors, a, updated);
      actors := actors[a := updated];
      tasks := tasks - multiset{a};
    }

    /** `process_godie`: only the calling actor stops accepting messages. */
    method ProcessGoDie(self: ActorId)
      requires Valid() && 0 <= self < |actors| && !actors[self].free
      modifies this
      ensures Valid()
      ensures actors == old(actors)[self := old(actors)[self].(alive := false)]
      ensures active == old(active) && total == old(total) && tasks == old(tasks)
    {
      var updated := actors[self].(alive := false);
      BusyCountUpdate(actors, self, updated);
      actors := actors[self := updated];
    }

    /**
     * `process_spawn`: a new actor of the role in the message, greeted with
     * HELLO carrying the spawner's id; `fatal` when the cast limit is passed
     * or the greeting is refused.
     */
    method ProcessSpawn(self: ActorId, role: int) returns (fatal: bool)
      requires Valid()
      modifies this
      ensures !fatal ==> Valid()
      ensures fatal <==> old(total) + 1 > castLimit || queueLimit < 1
      ensures !fatal ==> actors == old(actors) + [Actor(old(|actors|), role, None, [Message(msgHello, self)], true, true)]
      ensures !fatal ==> tasks == old(tasks) + multiset{old(|actors|)}
      ensures !fatal ==> active == old(active) + 1 && total == old(total) + 1
    {
      var actor;
      actor, fatal := CreateNewActor(role);
      if fatal {
        return;
      }
      ghost var before := actors;
      var code := SendMessage(actor.id, Message(msgHello, self));
      fatal := code != 0;
      if !fatal {
        var greeted := actor.(queue := [Message(msgHello, self)]);
        assert before == old(actors) + [actor] && before[actor.id] == actor;
        assert actor.queue + [Message(msgHello, self)] == [Message(msgHello, self)];
        assert before[actor.id := greeted] == old(actors) + [greeted];
      }
    }

    /**
     * `process_message` for the actor that took `m`: spawning and dying
     * change the system; a prompt runs outside it and changes nothing here.
     */
    method ProcessMessage(self: ActorId, m: Message) returns (action: Action, fatal: bool)
      requires Valid() && 0 <= self < |actors| && !actors[self].free
      modifies this
      ensures action == Dispatch(msgSpawn, msgGodie, old(actors)[self].role, m)
      ensures !fatal ==> Valid()
      ensures fatal ==> action.Spawn?
      ensures action.Spawn? ==> (fatal <==> old(total) + 1 > castLimit || queueLimit < 1)
      ensures action.Spawn? && !fatal ==>
        && actors == old(actors) + [Actor(old(|actors|), action.role, None, [Message(msgHello, self)], true, true)]
        && tasks == old(tasks) + multiset{old(|actors|)}
        && active == old(active) + 1 && total == old(total) + 1
      ensures action.GoDie? ==> actors == old(actors)[self := old(actors)[self].(alive := false)] && tasks == old(tasks)
      ensures action.Prompt? ==> actors == old(actors) && tasks == old(tasks)
      ensures !action.Spawn? ==> active == old(active) && total == old(total)
    {
      action := Dispatch(msgSpawn, msgGodie, actors[self].role, m);
      fatal := false;
      match action {
        case Spawn(role) =>
          fatal := ProcessSpawn(self, role);
        case GoDie =>
          ProcessGoDie(self);
        case Prompt(_, _) =>
      }
    }

    /**
     * The second half of `thread_pool_task`: the live count drops by one
     * exactly when the actor is dead with an empty queue; the actor is free
     * again.
     */
    method TaskEnd(a: ActorId)
      requires Valid() && 0 <= a < |actors| && !actors[a].free
      modifies this
      ensures Valid()
      ensures actors == old(actors)[a := old(actors)[a].(free := true)]
      ensures active == old(active) - (if old(actors)[a].queue == [] && !old(actors)[a].alive then 1 else 0)
      ensures total == old(total) && tasks == old(tasks)
    {
      var updated := actors[a].(free := true);
      BusyCountUpdate(actors, a, updated);
      if |actors[a].queue| == 0 && !actors[a].alive {
        active := active - 1;
      }
      actors := actors[a := updated];
    }

    /**
     * `actor_system_create`: -1 when the cast limit allows no actor;
     * otherwise actor 0 of the given role, greeted with a HELLO without
     * data; `fatal` when that greeting is refused.
     */
    method SystemCreate(role: int) returns (code: int, id: ActorId, fatal: bool)
      requires Valid() && actors == []
      modifies this
      ensures castLimit < 1 ==> code == -1 && !fatal && actors == old(actors) && tasks == old(tasks)
      ensures castLimit >= 1 ==> code == 0 && id == 0
      ensures castLimit >= 1 ==> (fatal <==> queueLimit < 1)
      ensures !fatal ==> Valid()
      ensures castLimit >= 1 && !fatal ==> actors == [Actor(0, role, None, [Message(msgHello, 0)], true, true)]
      ensures castLimit >= 1 && !fatal ==> tasks == multiset{0} && active == 1 && total == 1
    {
      if castLimit < 1 {
        return -1, 0, false;
      }
      assert tasks == multiset{} by {
        forall x ensures tasks[x] == 0 {}
      }
      var first;
      first, fatal := CreateNewActor(role);
      id := first.id;
      var sent := SendMessage(first.id, Message(msgHello, 0));
      fatal := sent != 0;
      if !fatal {
        assert first.queue + [Message(msgHello, 0)] == [Message(msgHello, 0)];
        assert [first][0 := first.(queue := [Message(msgHello, 0)])] == [first.(queue := [Message(msgHello, 0)])];
      }
      code := 0;
    }

    /**
     * `actor_system_join`: an id the system never had returns at once; the
     * join waits while any actor is live; then the actors are freed and the
     * total reset. A finished join finds no queued message and no pending
     * task.
     */
    method Join(id: ActorId) returns (outcome: JoinOutcome)
      requires Valid()
      modifies this
      ensures Valid()
      ensures outcome == NothingToJoin <==> old(total) <= id
      ensures outcome == MustWait <==> id < old(total) && old(active) > 0
      ensures outcome != Joined ==> actors == old(actors) && tasks == old(tasks) && total == old(total)
      ensures outcome == Joined ==> old(tasks) == multiset{}
      ensures outcome == Joined ==> forall i :: 0 <= i < |old(actors)| ==> !old(actors)[i].alive && old(actors)[i].queue == []
      ensures outcome == Joined ==> actors == [] && total == 0
      ensures active == old(active)
    {
      if total <= id {
        return NothingToJoin;
      }
      if active > 0 {
        return MustWait;
      }
      NoneBusy(actors);
      assert tasks == multiset{} by {
        forall x ensures tasks[x] == 0
        {
          if 0 <= x < |actors| {
            assert tasks[x] == |actors[x].queue|;
          }
        }
      }
      actors := [];
      total := 0;
      outcome := Joined;
    }
  }
}
