/** The forecast kinds of weather_terminal/core/forecast_type.py. */
module ForecastTypes {
  /** The four reporting periods; each member's value is the token the provider's URL uses. */
  datatype ForecastType = Today | FiveDays | TenDays | Weekend {

    /** `ForecastType.X.value`. */
    function Value(): string
    {
      match this
      case Today => "today"
      case FiveDays => "5day"
      case TenDays => "10day"
      case Weekend => "weekend"
    }
  }
}
