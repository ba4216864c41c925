/** The text classifications a `TextDisplay` makes of the sensor readings. */
module Displays {
  import opened Wrappers
  import opened EventTypes
  import opened Events

  const ColdText: string := "Cold "
  const WarmText: string := "Warm "
  const AllGoodText: string := "All good "
  const AlarmText: string := "Run for your lives"

  /** Below 20 degrees is cold; 20 and above is warm. */
  function TemperatureText(temperature: int): (text: string)
    ensures text == ColdText <==> temperature < 20
    ensures text == WarmText <==> temperature >= 20
  {
    if temperature < 20 then ColdText else WarmText
  }

  /** Below 36 is fine; 36 and above raises the alarm. */
  function WaterLevelText(level: int): (text: string)
    ensures text == AllGoodText <==> level < 36
    ensures text == AlarmText <==> level >= 36
  {
    if level < 36 then AllGoodText else AlarmText
  }

  /**
   * What `TextDisplay.inform` classifies: a reading for the two sensor
   * events, nothing for news.
   */
  function TextDisplayReport(e: Event): (r: Option<string>)
    ensures r.Some? <==> TypeOf(e) == TemperatureType || TypeOf(e) == WaterLevelType
    ensures TypeOf(e) == TemperatureType ==> r == Some(TemperatureText(e.temperature))
    ensures TypeOf(e) == WaterLevelType ==> r == Some(WaterLevelText(e.waterLevel))
  {
    match e
    case TemperatureEvent(_, t) => Some(TemperatureText(t))
    case WaterLevelEvent(_, l) => Some(WaterLevelText(l))
    case NewsEvent(_, _, _) => None
  }
}
