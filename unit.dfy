/** The display units of weather_terminal/core/unit.py. */
module Units {

  /** The units a temperature can be shown in; `auto()` under BaseEnum makes each value its own name. */
  datatype Unit = Celsius | Fahrenheit {

    function Value(): string
    {
      match this
      case Celsius => "CELSIUS"
      case Fahrenheit => "FAHRENHEIT"
    }
  }
}
