/** The navigation marker (`DirectionIndicator`) drawn for a distant object:
    a colour that shifts from red (near) to blue (far), an edge-of-screen
    arrow with a distance label that appear only while the target is off
    screen, and an icon for the target's type. Its fields are never updated
    after construction, so it is a value here. */
module Indicators {
  import opened JsMath
  import opened Vectors

  /** `new DirectionIndicator(targetX, targetY, type, distance)`. */
  datatype DirectionIndicator = DirectionIndicator(target: Vector2, kind: string, distance: real)

  /** The distance at which the colour is fully red: 10 km. */
  const FullRange := 10000.0

  /** `normalizedDistance`: the distance as a fraction of 10 km, capped at 1. */
  function Normalized(distance: real): real
  {
    Min(distance / FullRange, 1.0)
  }

  /** The red channel, `Math.floor(255 * normalizedDistance)`. */
  function Red(distance: real): int
  {
    Floor(255.0 * Normalized(distance))
  }

  /** The blue channel, `Math.floor(255 * (1 - normalizedDistance))`. */
  function Blue(distance: real): int
  {
    Floor(255.0 * (1.0 - Normalized(distance)))
  }

  lemma NormalizedBounds(distance: real)
    requires distance >= 0.0
    ensures 0.0 <= Normalized(distance) <= 1.0
  {
  }

  /** For any distance a length can have, both channels are valid colour
      values in [0, 255]. */
  lemma ChannelBounds(distance: real)
    requires distance >= 0.0
    ensures 0 <= Red(distance) <= 255
    ensures 0 <= Blue(distance) <= 255
  {
    NormalizedBounds(distance);
    var n := Normalized(distance);
    FloorMonotone(0.0, 255.0 * n);
    FloorMonotone(255.0 * n, 255.0);
    FloorMonotone(0.0, 255.0 * (1.0 - n));
    FloorMonotone(255.0 * (1.0 - n), 255.0);
    FloorUnique(0.0, 0);
    FloorUnique(255.0, 255);
  }

  /** From 10 km on the marker is pure red, and at distance zero pure blue. */
  lemma ChannelEnds(distance: real)
    ensures distance >= FullRange ==> Red(distance) == 255 && Blue(distance) == 0
    ensures distance == 0.0 ==> Red(distance) == 0 && Blue(distance) == 255
  {
    if distance >= FullRange {
      assert distance / FullRange >= 1.0;
      assert Normalized(distance) == 1.0;
      FloorUnique(255.0, 255);
      FloorUnique(0.0, 0);
    }
    if distance == 0.0 {
      FloorUnique(255.0, 255);
      FloorUnique(0.0, 0);
    }
  }

  /** Moving farther away never makes the marker less red or more blue. */
  lemma ChannelsMonotone(d1: real, d2: real)
    requires d1 <= d2
    ensures Red(d1) <= Red(d2)
    ensures Blue(d1) >= Blue(d2)
  {
    assert d1 / FullRange <= d2 / FullRange;
    assert Normalized(d1) <= Normalized(d2);
    FloorMonotone(255.0 * Normalized(d1), 255.0 * Normalized(d2));
    FloorMonotone(255.0 * (1.0 - Normalized(d2)), 255.0 * (1.0 - Normalized(d1)));
  }

  /** The two channels always add up to 255, less one when `255 * n` falls
      between two integers: red plus blue is 255 exactly when `255 * n` is an
      integer, and 254 otherwise. */
  lemma ChannelSum(distance: real)
    ensures Red(distance) + Blue(distance) == 255 <==> IsInteger(255.0 * Normalized(distance))
    ensures Red(distance) + Blue(distance) == 254 <==> !IsInteger(255.0 * Normalized(distance))
  {
    var t := 255.0 * Normalized(distance);
    assert 255.0 * (1.0 - Normalized(distance)) == 255.0 - t;
    var k := Floor(t);
    if IsInteger(t) {
      FloorUnique(255.0 - t, 255 - k);
    } else {
      assert k as real < t;
      FloorUnique(255.0 - t, 254 - k);
    }
  }

  /** `onScreen`: the target's screen position, `target - camera` shifted by
      half the canvas, lies inside the canvas (edges included). */
  predicate OnScreen(target: Vector2, camera: Vector2, width: real, height: real)
  {
    var screenX := target.x - camera.x + width / 2.0;
    var screenY := target.y - camera.y + height / 2.0;
    screenX >= 0.0 && screenX <= width && screenY >= 0.0 && screenY <= height
  }

  /** A target is on screen exactly when it is at most half a canvas width
      and half a canvas height away from the camera. */
  lemma OnScreenCentred(target: Vector2, camera: Vector2, width: real, height: real)
    requires width >= 0.0 && height >= 0.0
    ensures OnScreen(target, camera, width, height) <==>
              Abs(target.x - camera.x) <= width / 2.0 && Abs(target.y - camera.y) <= height / 2.0
  {
  }

  /** The icon `draw` finishes with: a dot for an asteroid, a small box for a
      starship, and nothing for any other type. */
  datatype Icon = Dot | Box | NoIcon

  function IconOf(kind: string): Icon
  {
    if kind == "asteroid" then Dot else if kind == "starship" then Box else NoIcon
  }

  /** What one `draw` call puts on the canvas, without its geometry: the
      colour, whether the arrow and the distance label appear, the label's
      value in km (before `toFixed(1)`), and the icon. */
  datatype Drawing = Drawing(red: int, blue: int, arrow: bool, km: real, icon: Icon)

  /** `draw(ctx, shipPosition, camera, canvasWidth, canvasHeight)` as the
      drawing it produces; the arrow direction depends only on the ship
      position and is not modelled. */
  function Draw(d: DirectionIndicator, camera: Vector2, width: real, height: real): Drawing
  {
    Drawing(Red(d.distance), Blue(d.distance), !OnScreen(d.target, camera, width, height), d.distance / 1000.0,
            IconOf(d.kind))
  }

  /** The arrow and label appear exactly when the target is farther than half
      a canvas from the camera on some axis; the icon of an asteroid or a
      starship is drawn in every case; the colour is the distance colour. */
  lemma DrawShowsArrowOffScreen(d: DirectionIndicator, camera: Vector2, width: real, height: real)
    requires width >= 0.0 && height >= 0.0
    ensures Draw(d, camera, width, height).arrow <==>
              Abs(d.target.x - camera.x) > width / 2.0 || Abs(d.target.y - camera.y) > height / 2.0
    ensures d.kind == "asteroid" ==> Draw(d, camera, width, height).icon == Dot
    ensures d.kind == "starship" ==> Draw(d, camera, width, height).icon == Box
    ensures d.distance >= 0.0 ==> 0 <= Draw(d, camera, width, height).red <= 255 &&
                                  0 <= Draw(d, camera, width, height).blue <= 255
  {
    OnScreenCentred(d.target, camera, width, height);
    if d.distance >= 0.0 {
      ChannelBounds(d.distance);
    }
  }
}
