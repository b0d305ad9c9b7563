/** The configuration values the modelled code reads: the two date windows
    of the indicators configuration, with dates as integer day numbers.
 */
module Config {

  /** A `from_date`/`to_date` pair, both as day numbers. */
  datatype Window = Window(fromDate: int, toDate: int)

  /** `INDICATORS["covid_dates"]` and `INDICATORS["precovid_dates"]`. */
  datatype Dates = Dates(covid: Window, precovid: Window)

  /** Which of the two windows an activity sum ranges over. */
  datatype Period = Covid | Precovid

  function WindowOf(dates: Dates, p: Period): Window
  {
    match p
    case Covid => dates.covid
    case Precovid => dates.precovid
  }
}
