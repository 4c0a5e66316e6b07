/**
 Everything the container manager asks of its surroundings (liblxc, mount(2),
 dlopen, pthread_create, the monotonic clock) is answered by a World: a script
 of answers that is consumed one call at a time.  Quantifying over scripts
 quantifies over every behaviour of the surroundings.
 */
module Host {

  datatype World = World(script: nat -> int, pos: nat, clock: nat)

  /** The answer to the next external call. */
  function Ask(w: World): (int, World) {
    (w.script(w.pos), w.(pos := w.pos + 1))
  }

  /** A yes/no answer: zero means the call succeeded. */
  function Try(w: World): (bool, World) {
    var (a, w1) := Ask(w);
    (a == 0, w1)
  }

  /** The clock never runs backwards: each reading advances it by the (non-negative part of the) answer. */
  function Now(w: World): (nat, World) {
    var (a, w1) := Ask(w);
    var t := w.clock + if a > 0 then a else 0;
    (t, w1.(clock := t))
  }

  /** `w1` is reached from `w0` by consuming answers; time has not gone backwards. */
  ghost predicate Later(w0: World, w1: World) {
    w0.script == w1.script && w0.pos <= w1.pos && w0.clock <= w1.clock
  }

  /** The running process' handle on its surroundings. */
  class Kernel {
    var w: World

    constructor (w: World)
      ensures this.w == w
    {
      this.w := w;
    }

    method Call() returns (a: int)
      modifies this
      ensures (a, w) == Ask(old(w))
    {
      a := w.script(w.pos);
      w := w.(pos := w.pos + 1);
    }

    method CallOk() returns (ok: bool)
      modifies this
      ensures (ok, w) == Try(old(w))
    {
      var a := Call();
      ok := a == 0;
    }

    method GetCurrentTimeMs() returns (t: nat)
      modifies this
      ensures (t, w) == Now(old(w))
    {
      var a := Call();
      t := w.clock + if a > 0 then a else 0;
      w := w.(clock := t);
    }
  }
}
