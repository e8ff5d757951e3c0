/** The entities the booking engine passes around, with only the fields the
    engine reads. */
module Records {
  import opened Wrappers

  /** A participant row of a sheet. `index` is the row's position after the
      header (1 for the first row below it), used for the write-back. Cells
      past the end of a short row are `undefined` in JavaScript: `None`. */
  datatype Athlete = Athlete(
    index: nat,
    firstname: Option<string>,
    lastname: Option<string>,
    email: Option<string>,
    phone: Option<string>)

  /** A pending booking request: one sheet of the spreadsheet. `day` and
      `time` are the first two words of the sheet title, `name` the rest,
      lower-cased; `date` is the `YYYY-MM-DD` text of the target date. */
  datatype Task = Task(
    sheetId: string,
    sheetName: string,
    day: string,
    date: string,
    time: string,
    name: string,
    athletes: seq<Athlete>)

  /** A course of the remote catalog. */
  datatype Course = Course(id: string, name: string)

  /** A bookable occurrence of a course, as the availability query reports it. */
  datatype Event = Event(id: string, day: string, time: string)
}
