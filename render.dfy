/**
 * The two rendering decisions simulate.c makes per terminal: the colour of
 * its battery level (`get_battery_color`) and its position on the 800 x 600
 * canvas (`scale_coordinates`).
 */
module Render {

  /** The five colours of the battery palette, from full to empty. */
  datatype Color = Green | LightGreen | Orange | DarkOrange | Red {
    /** The colour as the hex string written into the drawing. */
    function Hex(): string {
      match this
      case Green => "#27ae60"
      case LightGreen => "#52c41a"
      case Orange => "#f39c12"
      case DarkOrange => "#e67e22"
      case Red => "#e74c3c"
    }

    /** The band's place on the palette: 0 for the fullest band, 4 for the emptiest. */
    function Rank(): nat {
      match this
      case Green => 0
      case LightGreen => 1
      case Orange => 2
      case DarkOrange => 3
      case Red => 4
    }
  }

  /** The battery levels at which the colour changes. */
  const BandFloors: seq<real> := [80.0, 60.0, 40.0, 20.0]

  /** `get_battery_color`: the first band, from the top, whose floor the level reaches. */
  function BatteryColor(battery: real): Color {
    if battery >= 80.0 then Green
    else if battery >= 60.0 then LightGreen
    else if battery >= 40.0 then Orange
    else if battery >= 20.0 then DarkOrange
    else Red
  }

  /** How many band floors a level stays below. */
  function FloorsMissed(battery: real, floors: seq<real>): (n: nat)
    ensures n <= |floors|
  {
    if floors == [] then 0
    else (if battery < floors[0] then 1 else 0) + FloorsMissed(battery, floors[1..])
  }

  /** The colour's rank is the number of band floors the level does not reach. */
  lemma {:induction false} ColorRankCountsMissedFloors(battery: real)
    ensures BatteryColor(battery).Rank() == FloorsMissed(battery, BandFloors)
  {
    assert BandFloors[1..] == [60.0, 40.0, 20.0];
    assert [60.0, 40.0, 20.0][1..] == [40.0, 20.0];
    assert [40.0, 20.0][1..] == [20.0];
    assert [20.0][1..] == [];
    var last := FloorsMissed(battery, [20.0]);
    assert last == if battery < 20.0 then 1 else 0;
    var two := FloorsMissed(battery, [40.0, 20.0]);
    assert two == (if battery < 40.0 then 1 else 0) + last;
    var three := FloorsMissed(battery, [60.0, 40.0, 20.0]);
    assert three == (if battery < 60.0 then 1 else 0) + two;
  }

  /** A fuller battery never gets a colour further down the palette. */
  lemma {:induction false} ColorMonotone(low: real, high: real)
    requires low <= high
    ensures BatteryColor(high).Rank() <= BatteryColor(low).Rank()
  {
  }

  const Margin := 50
  const CanvasWidth := 800
  const CanvasHeight := 600

  /** The C cast `(int)` of a double: truncation toward zero. */
  function TruncToInt(r: real): (n: int)
    ensures r >= 0.0 ==> n as real <= r < n as real + 1.0
    ensures r < 0.0 ==> n as real - 1.0 < r <= n as real
  {
    if r >= 0.0 then r.Floor else -((-r).Floor)
  }

  /**
   * `scale_coordinates`: a point of the unit square to canvas pixels, with
   * a 50-pixel margin on each side and the y axis turned downwards.
   */
  function ScaleCoordinates(x: real, y: real): (p: (int, int)) {
    (Margin + TruncToInt(x * (CanvasWidth - 2 * Margin) as real),
     Margin + TruncToInt((1.0 - y) * (CanvasHeight - 2 * Margin) as real))
  }

  /** A point of the unit square lands inside the margins: x in [50, 750], y in [50, 550]. */
  lemma {:induction false} ScaledInCanvas(x: real, y: real)
    requires 0.0 <= x <= 1.0 && 0.0 <= y <= 1.0
    ensures 50 <= ScaleCoordinates(x, y).0 <= 750
    ensures 50 <= ScaleCoordinates(x, y).1 <= 550
  {
  }

  /** The y axis is inverted: y = 1 is the top margin and y = 0 the bottom one. */
  lemma {:induction false} ScaledYInverted(x: real)
    ensures ScaleCoordinates(x, 1.0).1 == 50
    ensures ScaleCoordinates(x, 0.0).1 == 550
  {
  }

  /** Scaling keeps the order of x and reverses the order of y. */
  lemma {:induction false} ScaledMonotone(x1: real, y1: real, x2: real, y2: real)
    requires 0.0 <= x1 <= x2 && 0.0 <= y1 <= y2 <= 1.0
    ensures ScaleCoordinates(x1, y1).0 <= ScaleCoordinates(x2, y2).0
    ensures ScaleCoordinates(x1, y1).1 >= ScaleCoordinates(x2, y2).1
  {
  }
}
