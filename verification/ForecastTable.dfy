/** The colour class of a wind-speed cell in the ten-day forecast table. */
module ForecastTable {

  datatype WindColour = Red | Orange | Yellow | Gray

  /** Speed thresholds in km/h. */
  const StrongWind: real := 30.0
  const ModerateWind: real := 20.0
  const LightWind: real := 10.0

  /** The cascade of comparisons the table applies to each wind speed. The
      four classes split the speeds into half-open bands with no overlap
      and no gap. */
  function ColourFor(speed: real): (c: WindColour)
    ensures c == Red <==> StrongWind <= speed
    ensures c == Orange <==> ModerateWind <= speed < StrongWind
    ensures c == Yellow <==> LightWind <= speed < ModerateWind
    ensures c == Gray <==> speed < LightWind
  {
    if speed >= StrongWind then Red
    else if speed >= ModerateWind then Orange
    else if speed >= LightWind then Yellow
    else Gray
  }

  /** How strong a colour class is, gray lowest. */
  function Severity(c: WindColour): nat {
    match c
    case Gray => 0
    case Yellow => 1
    case Orange => 2
    case Red => 3
  }

  /** A stronger wind never gets a milder colour. */
  lemma ColourMonotone(s1: real, s2: real)
    requires s1 <= s2
    ensures Severity(ColourFor(s1)) <= Severity(ColourFor(s2))
  {
  }

  /** The colour of every wind in a row of the table, in order: a cell
      is red exactly when its speed is strong, and a faster wind anywhere
      in the row is never shown milder than a slower one. */
  function WindColours(speeds: seq<real>): (cs: seq<WindColour>)
    ensures |cs| == |speeds|
    ensures forall i :: 0 <= i < |speeds| ==> cs[i] == ColourFor(speeds[i])
    ensures forall i :: 0 <= i < |speeds| ==> (cs[i] == Red <==> speeds[i] >= StrongWind)
    ensures forall i, j :: 0 <= i < |speeds| && 0 <= j < |speeds| && speeds[i] <= speeds[j] ==>
              Severity(cs[i]) <= Severity(cs[j])
  {
    var cs := seq(|speeds|, i requires 0 <= i < |speeds| => ColourFor(speeds[i]));
    assert forall i, j :: 0 <= i < |speeds| && 0 <= j < |speeds| && speeds[i] <= speeds[j] ==>
             Severity(ColourFor(speeds[i])) <= Severity(ColourFor(speeds[j]));
    cs
  }
}
