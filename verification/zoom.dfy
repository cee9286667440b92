/**
 * The zoom level of the main image. It moves in steps of 0.25 between 0.5
 * and 3 and starts (and resets) at 1, so every value it can take is a whole
 * number of quarters; it is kept here as that number, from 2 to 12.
 */
module Zoom {

  const MinQuarters: int := 2       // 0.5
  const MaxQuarters: int := 12      // 3
  const DefaultQuarters: int := 4   // 1

  /** The zoom factor a number of quarters stands for. */
  function Scale(quarters: int): real {
    quarters as real / 4.0
  }

  /** zoomIn: a quarter more while below 3. */
  function ZoomedIn(quarters: int): (r: int)
    ensures MinQuarters <= quarters <= MaxQuarters ==> MinQuarters <= r <= MaxQuarters
    ensures r == quarters <==> quarters >= MaxQuarters
    ensures r != quarters ==> Scale(r) == Scale(quarters) + 0.25
  {
    if quarters < MaxQuarters then quarters + 1 else quarters
  }

  /** zoomOut: a quarter less while above 0.5. */
  function ZoomedOut(quarters: int): (r: int)
    ensures MinQuarters <= quarters <= MaxQuarters ==> MinQuarters <= r <= MaxQuarters
    ensures r == quarters <==> quarters <= MinQuarters
    ensures r != quarters ==> Scale(r) == Scale(quarters) - 0.25
  {
    if quarters > MinQuarters then quarters - 1 else quarters
  }

  function ZoomInTimes(quarters: int, count: nat): int
    decreases count
  {
    if count == 0 then quarters else ZoomInTimes(ZoomedIn(quarters), count - 1)
  }

  function ZoomOutTimes(quarters: int, count: nat): int
    decreases count
  {
    if count == 0 then quarters else ZoomOutTimes(ZoomedOut(quarters), count - 1)
  }

  /** Repeated zoomIn climbs a quarter at a time and stops at 3. */
  lemma {:induction false} ZoomInTimesCaps(quarters: int, count: nat)
    requires MinQuarters <= quarters <= MaxQuarters
    ensures ZoomInTimes(quarters, count) == if quarters + count <= MaxQuarters then quarters + count else MaxQuarters
    decreases count
  {
    if count > 0 {
      ZoomInTimesCaps(ZoomedIn(quarters), count - 1);
    }
  }

  /** Repeated zoomOut descends a quarter at a time and stops at 0.5. */
  lemma {:induction false} ZoomOutTimesFloors(quarters: int, count: nat)
    requires MinQuarters <= quarters <= MaxQuarters
    ensures ZoomOutTimes(quarters, count) == if quarters - count >= MinQuarters then quarters - count else MinQuarters
    decreases count
  {
    if count > 0 {
      ZoomOutTimesFloors(ZoomedOut(quarters), count - 1);
    }
  }

  /** From 1: five zoomIn give 2.25, eight reach 3, a ninth changes nothing; six zoomOut stop at 0.5. */
  lemma ZoomFromDefault()
    ensures Scale(ZoomInTimes(DefaultQuarters, 5)) == 2.25
    ensures Scale(ZoomInTimes(DefaultQuarters, 8)) == 3.0
    ensures ZoomInTimes(DefaultQuarters, 9) == ZoomInTimes(DefaultQuarters, 8)
    ensures Scale(ZoomOutTimes(DefaultQuarters, 6)) == 0.5
  {
    ZoomInTimesCaps(DefaultQuarters, 5);
    ZoomInTimesCaps(DefaultQuarters, 8);
    ZoomInTimesCaps(DefaultQuarters, 9);
    ZoomOutTimesFloors(DefaultQuarters, 6);
  }

  /** Below the top, zoomOut undoes zoomIn; above the bottom, zoomIn undoes zoomOut. */
  lemma ZoomInOutInverse(quarters: int)
    requires MinQuarters <= quarters <= MaxQuarters
    ensures quarters < MaxQuarters ==> ZoomedOut(ZoomedIn(quarters)) == quarters
    ensures quarters > MinQuarters ==> ZoomedIn(ZoomedOut(quarters)) == quarters
  {
  }

  /** Every reachable level lies between 0.5 and 3. */
  lemma ScaleBounds(quarters: int)
    requires MinQuarters <= quarters <= MaxQuarters
    ensures 0.5 <= Scale(quarters) <= 3.0
  {
  }
}
