/** get_moto_measure: counting the turns of a motor whose encoder reports its angle modulo one
    turn. */
module Encoder {
  const TURN := 8192
  const HALF_TURN := 4096

  // What is kept of a motor: angle, round_cnt and offset_angle.
  datatype Count = Count(angle: int, rounds: int) {
    // Where the motor is, in steps of the encoder.
    function Position(): int { rounds * TURN + angle }

    // The next frame reports angle a.
    function Next(a: int): Count {
      if a - angle > HALF_TURN then Count(a, rounds - 1)
      else if a - angle < -HALF_TURN then Count(a, rounds + 1)
      else Count(a, rounds)
    }
  }

  // The angle the encoder reports for a position.
  function Angle(x: int): (a: int)
    ensures 0 <= a < TURN
  {
    x % TURN
  }

  // A step that the count follows: less than half a turn, or exactly half a turn in the
  // direction in which the reported angle does not wrap.
  predicate Follows(x: int, y: int) {
    && -HALF_TURN <= y - x <= HALF_TURN
    && (y - x == HALF_TURN ==> Angle(x) < HALF_TURN)
    && (y - x == -HALF_TURN ==> Angle(x) >= HALF_TURN)
  }

  // A count that is right stays right exactly if the motor makes such a step.
  lemma {:induction false} StepExactly(c: Count, x: int, y: int)
    requires c.Position() == x && c.angle == Angle(x)
    ensures c.Next(Angle(y)).Position() == y <==> Follows(x, y)
    ensures c.Next(Angle(y)).angle == Angle(y) && Angle(c.Next(Angle(y)).Position()) == Angle(y)
  {
    var a, b, p, q := Angle(x), Angle(y), x / TURN, y / TURN;
    assert x == p * TURN + a && y == q * TURN + b && c.rounds == p;
    var u := c.Next(b);
    assert u.Position() % TURN == b;
  }

  // The frames for a motor that goes through the positions xs.
  function Run(c: Count, xs: seq<int>): Count
    decreases |xs|
  {
    if xs == [] then c else Run(c.Next(Angle(xs[0])), xs[1..])
  }

  ghost predicate AllFollow(x: int, xs: seq<int>)
    decreases |xs|
  {
    xs == [] || (Follows(x, xs[0]) && AllFollow(xs[0], xs[1..]))
  }

  // Over any number of turns the count is the true position, not only modulo one turn.
  lemma {:induction false} TracksTurns(c: Count, x: int, xs: seq<int>)
    requires c.Position() == x && c.angle == Angle(x) && AllFollow(x, xs)
    ensures Run(c, xs).Position() == if xs == [] then x else xs[|xs| - 1]
    decreases |xs|
  {
    if xs != [] {
      StepExactly(c, x, xs[0]);
      TracksTurns(c.Next(Angle(xs[0])), xs[0], xs[1..]);
    }
  }

  // Whatever the motor does, the count is right modulo one turn.
  lemma {:induction false} RightModuloTurn(c: Count, x: int, xs: seq<int>)
    requires c.angle == Angle(x) && Angle(c.Position()) == Angle(x)
    ensures Angle(Run(c, xs).Position()) == Angle(if xs == [] then x else xs[|xs| - 1])
    decreases |xs|
  {
    if xs != [] {
      var u := c.Next(Angle(xs[0]));
      assert u.Position() % TURN == Angle(xs[0]);
      RightModuloTurn(u, xs[0], xs[1..]);
    }
  }

  // Exactly half a turn in the direction in which the angle wraps is counted the wrong way.
  lemma {:induction false} HalfTurnLost()
    ensures Count(5000, 0).Next(Angle(9096)).Position() == 904 == 9096 - TURN
  {
  }

  // --- get_moto_measure ---------------------------------------------------------------------------

  type Byte = b: int | 0 <= b < 256

  function Word(high: Byte, low: Byte): (w: int)
    ensures 0 <= w < 0x1_0000
  {
    (high as int) * 256 + low
  }

  // (int16_t)
  function Signed16(w: int): (s: int)
    requires 0 <= w < 0x1_0000
    ensures -0x8000 <= s < 0x8000 && (s - w) % 0x1_0000 == 0
  {
    if w >= 0x8000 then w - 0x1_0000 else w
  }

  // s is the 16 bit number of two bytes, the higher one first.
  ghost predicate Int16(s: int, high: Byte, low: Byte) {
    -0x8000 <= s < 0x8000 && (s - (256 * high as int + low as int)) % 0x1_0000 == 0
  }

  // g is c divided by -5, towards zero.
  ghost predicate MinusFifth(g: int, c: int) {
    && (c >= 0 ==> g <= 0) && (c <= 0 ==> g >= 0)
    && 5 * Size(g) <= Size(c) < 5 * Size(g) + 5
  }

  class Motor {
    var angle: int
    var lastAngle: int
    var realCurrent: int
    var speedRpm: int
    var givenCurrent: int
    var hall: int
    var roundCnt: int
    var offsetAngle: int
    var totalAngle: int

    ghost function Abs(): Count
      reads this
    {
      Count(angle, roundCnt)
    }

    constructor (offset: int)
      ensures Abs() == Count(0, 0) && offsetAngle == offset
    {
      angle, lastAngle, realCurrent, speedRpm, givenCurrent, hall := 0, 0, 0, 0, 0, 0;
      roundCnt, totalAngle, offsetAngle := 0, 0, offset;
    }

    method Measure(data: seq<Byte>)
      requires |data| == 8
      modifies this
      ensures Abs() == old(Abs()).Next(Word(data[0], data[1])) && lastAngle == old(angle)
                && offsetAngle == old(offsetAngle)
      ensures totalAngle + offsetAngle == Abs().Position()
      ensures angle == 256 * data[0] as int + data[1] as int
      ensures Int16(realCurrent, data[2], data[3]) && speedRpm == realCurrent && hall == data[6]
      // the current counts the other way round
      ensures exists c :: Int16(c, data[4], data[5]) && MinusFifth(givenCurrent, c)
    {
      lastAngle := angle;
      angle := Word(data[0], data[1]);
      realCurrent := Signed16(Word(data[2], data[3]));
      speedRpm := realCurrent;
      var c := Signed16(Word(data[4], data[5]));
      assert Int16(c, data[4], data[5]);
      givenCurrent := if c >= 0 then -(c / 5) else (-c) / 5;
      hall := data[6];
      if angle - lastAngle > HALF_TURN {
        roundCnt := roundCnt - 1;
      } else if angle - lastAngle < -HALF_TURN {
        roundCnt := roundCnt + 1;
      }
      totalAngle := roundCnt * TURN + angle - offsetAngle;
    }
  }

  function Size(x: int): nat { if x < 0 then -x else x }
}
