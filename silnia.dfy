/**
 * The factorial program built on the actor system: a chain of actors, each
 * spawned by the previous one, passes a `factorial_t` triple along and
 * multiplies it by the next number until k reaches n. The handlers are
 * steps on the shared state array; what a handler sends or prints is
 * returned as a list of effects instead of being performed.
 */
module Silnia {
  import opened Wrappers

  /** Both `unsigned long long` and `unsigned long` are 64 bits wide. */
  const Word: int := 0x1_0000_0000_0000_0000

  type ActorId = int

  datatype Factorial = Factorial(kFactorial: nat, k: nat, n: nat)

  /** One slot of the state array; `factorial` is None while it is unset. */
  datatype ActorState = ActorState(hasFather: bool, hasSon: bool, fatherId: ActorId, sonId: ActorId,
                                   factorial: Option<Factorial>)

  datatype Msg = SpawnNormal | HelloAnswer(son: ActorId) | FactorialMsg(f: Factorial) | RecursiveGoDie | GoDie

  datatype Effect = Send(target: ActorId, msg: Msg) | Print(value: nat)

  function Fact(k: nat): nat
  {
    if k == 0 then 1 else k * Fact(k - 1)
  }

  /** The invariant of a triple: k has not passed n and the product is k! modulo 2^64. */
  predicate Accurate(f: Factorial)
  {
    f.k <= f.n < Word && f.kFactorial == Fact(f.k) % Word
  }

  /** The triple `first_process_hello` starts the chain with. */
  function Initial(n: nat): (f: Factorial)
    requires n < Word
    ensures Accurate(f) && f.k == 0 && f.n == n
  {
    Factorial(1, 0, n)
  }

  /** `k++; k_factorial *= k` on the copied triple, both in 64-bit arithmetic. */
  function Step(f: Factorial): Factorial
  {
    var k := (f.k + 1) % Word;
    Factorial((f.kFactorial * k) % Word, k, f.n)
  }

  lemma MulMod(a: nat, b: nat)
    ensures ((a % Word) * b) % Word == (a * b) % Word
  {
    var q := a / Word;
    assert a == q * Word + a % Word;
    assert a * b == (q * b) * Word + (a % Word) * b;
  }

  /** A step taken while k < n keeps the triple accurate and brings k one closer to n. */
  lemma StepPreserves(f: Factorial)
    requires Accurate(f) && f.k != f.n
    ensures Accurate(Step(f)) && Step(f).k == f.k + 1 && Step(f).n == f.n
  {
    var k := f.k + 1;
    assert k % Word == k;
    MulMod(Fact(f.k), k);
    assert Fact(k) == k * Fact(f.k);
    assert f.kFactorial * k == (Fact(f.k) % Word) * k;
  }

  /** The triple after `j` steps. */
  function Steps(f: Factorial, j: nat): Factorial
  {
    if j == 0 then f else Step(Steps(f, j - 1))
  }

  lemma {:induction false} StepsFromInitial(n: nat, j: nat)
    requires n < Word && j <= n
    ensures Accurate(Steps(Initial(n), j)) && Steps(Initial(n), j).k == j && Steps(Initial(n), j).n == n
  {
    if j > 0 {
      StepsFromInitial(n, j - 1);
      StepPreserves(Steps(Initial(n), j - 1));
    }
  }

  /** After n steps the chain stops and prints n! modulo 2^64. */
  lemma PrintsFactorial(n: nat)
    requires n < Word
    ensures Steps(Initial(n), n).k == Steps(Initial(n), n).n
    ensures Steps(Initial(n), n).kFactorial == Fact(n) % Word
  {
    StepsFromInitial(n, n);
  }

  class Program {
    /** `n_g`, parsed from the input. */
    const n: nat
    var states: seq<ActorState>

    /** Every triple stored in the array is accurate and about the input n. */
    ghost predicate Valid()
      reads this
    {
      && n < Word
      && forall i :: 0 <= i < |states| && states[i].factorial.Some? ==>
        Accurate(states[i].factorial.value) && states[i].factorial.value.n == n
    }

    /** A triple some actor of this run may send: accurate and about the input n. */
    ghost predicate Carried(f: Factorial)
      reads this
    {
      Accurate(f) && f.n == n
    }

    /** `global_init` after the input was read. */
    constructor (n: nat)
      requires n < Word
      ensures Valid() && this.n == n && states == []
    {
      this.n := n;
      states := [];
    }

    /** `first_process_hello`: a fatherless slot holding the initial triple; the actor then spawns a son. */
    method FirstProcessHello(self: ActorId) returns (stateId: nat, effects: seq<Effect>)
      requires Valid()
      modifies this
      ensures Valid()
      ensures stateId == old(|states|)
      ensures states == old(states) + [ActorState(false, false, 0, 0, Some(Initial(n)))]
      ensures effects == [Send(self, SpawnNormal)]
    {
      stateId := |states|;
      states := states + [ActorState(false, false, 0, 0, Some(Initial(n)))];
      effects := [Send(self, SpawnNormal)];
    }

    /** `process_hello`: a slot recording the father and no triple yet; the father is answered with this actor's id. */
    method ProcessHello(self: ActorId, father: ActorId) returns (stateId: nat, effects: seq<Effect>)
      requires Valid()
      modifies this
      ensures Valid()
      ensures stateId == old(|states|)
      ensures states == old(states) + [ActorState(true, false, father, 0, None)]
      ensures effects == [Send(father, HelloAnswer(self))]
    {
      stateId := |states|;
      states := states + [ActorState(true, false, father, 0, None)];
      effects := [Send(father, HelloAnswer(self))];
    }

    /**
     * `process_hello_answer`: the son is recorded and receives a copy of
     * this actor's triple, which is one the protocol may carry.
     */
    method ProcessHelloAnswer(stateId: nat, son: ActorId) returns (effects: seq<Effect>)
      requires Valid() && stateId < |states| && states[stateId].factorial.Some?
      modifies this
      ensures Valid()
      ensures states == old(states)[stateId := old(states)[stateId].(hasSon := true, sonId := son)]
      ensures effects == [Send(son, FactorialMsg(old(states)[stateId].factorial.value))]
      ensures Carried(old(states)[stateId].factorial.value)
    {
      var f := states[stateId].factorial.value;
      states := states[stateId := states[stateId].(hasSon := true, sonId := son)];
      effects := [Send(son, FactorialMsg(f))];
    }

    /**
     * `process_factorial`: at k == n the product is printed and the chain
     * is told to die; otherwise the next triple goes to this actor's slot
     * only, and a son is spawned to carry it on.
     */
    method ProcessFactorial(self: ActorId, stateId: nat, f: Factorial) returns (effects: seq<Effect>)
      requires Valid() && stateId < |states| && Carried(f)
      modifies this
      ensures Valid()
      ensures f.k == f.n ==> states == old(states) && effects == [Print(f.kFactorial), Send(self, RecursiveGoDie)]
      ensures f.k == f.n ==> f.kFactorial == Fact(n) % Word
      ensures f.k != f.n ==> states == old(states)[stateId := old(states)[stateId].(factorial := Some(Step(f)))]
      ensures f.k != f.n ==> Carried(Step(f)) && Step(f).k == f.k + 1
      ensures f.k != f.n ==> effects == [Send(self, SpawnNormal)]
    {
      if f.k == f.n {
        effects := [Print(f.kFactorial), Send(self, RecursiveGoDie)];
      } else {
        var next := Step(f);
        StepPreserves(f);
        states := states[stateId := states[stateId].(factorial := Some(next))];
        effects := [Send(self, SpawnNormal)];
      }
    }

    /** `process_recursive_godie`: pass the order to the father if there is one, then die. */
    method ProcessRecursiveGoDie(self: ActorId, stateId: nat) returns (effects: seq<Effect>)
      requires stateId < |states|
      ensures states[stateId].hasFather ==>
        effects == [Send(states[stateId].fatherId, RecursiveGoDie), Send(self, GoDie)]
      ensures !states[stateId].hasFather ==> effects == [Send(self, GoDie)]
    {
      effects := [];
      if states[stateId].hasFather {
        effects := [Send(states[stateId].fatherId, RecursiveGoDie)];
      }
      effects := effects + [Send(self, GoDie)];
    }
  }
}
