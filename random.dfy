/** The C library's random number generator, seen from the game.  After
    seeding, `rand()` returns a fixed sequence of values; `draw(i)` is the
    value of the (i+1)-th call and `drawn` counts the calls made so far.
    Every property of the model holds for every such sequence, hence for
    every seed. */
module Random {

  class Rng {
    const draw: nat -> nat
    var drawn: nat

    constructor (draw: nat -> nat)
      ensures this.draw == draw && drawn == 0
    {
      this.draw := draw;
      drawn := 0;
    }

    /** One call of rand(). */
    method Rand() returns (r: nat)
      modifies this
      ensures drawn == old(drawn) + 1
      ensures r == draw(old(drawn))
    {
      r := draw(drawn);
      drawn := drawn + 1;
    }
  }
}
