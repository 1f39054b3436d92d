/** Python's module-level `random` generator, made explicit: an unbounded
    stream of draws in [0, 1) and a cursor into it. random.random() returns
    the next draw; random.choice(xs) uses the next draw to pick an index. */
module RandomSource {

  /** A value random.random() can return. */
  type Unit = u: real | 0.0 <= u < 1.0

  /** The index random.choice takes among n items for draw u:
      floor(u * n), the cell of [0, 1) split into n equal parts that holds u. */
  function Pick(u: Unit, n: nat): (k: nat)
    requires n > 0
    ensures k < n
    ensures k as real <= u * n as real < k as real + 1.0
  {
    assert 0.0 <= u * n as real < n as real;
    (u * n as real).Floor
  }

  /** random.choice(xs) on draw u. */
  function ChoiceOf<T>(xs: seq<T>, u: Unit): (x: T)
    requires xs != []
    ensures x in xs
  {
    xs[Pick(u, |xs|)]
  }

  /** The shared generator: the draws it will hand out and how many it
      has handed out so far. */
  class Rng {
    const draws: nat -> Unit
    var pos: nat

    constructor (draws: nat -> Unit, pos: nat)
      ensures this.draws == draws && this.pos == pos
    {
      this.draws := draws;
      this.pos := pos;
    }

    /** random.random(): consumes one draw. */
    method Random() returns (u: Unit)
      modifies this`pos
      ensures u == draws(old(pos)) && pos == old(pos) + 1
    {
      u := draws(pos);
      pos := pos + 1;
    }

    /** random.choice(xs): consumes one draw. */
    method Choice<T>(xs: seq<T>) returns (x: T)
      requires xs != []
      modifies this`pos
      ensures x == ChoiceOf(xs, draws(old(pos))) && pos == old(pos) + 1
    {
      var u := Random();
      x := xs[Pick(u, |xs|)];
    }
  }
}
