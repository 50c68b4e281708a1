/** The values the stream manager keeps: one stream definition per row of the
    `.sii` file, and the status label shown beside a row. */
module Records {

  /** One stream definition. Every field is text, as in the program's
      dictionaries; the bitrate is checked to be an integer only by the
      validator. */
  datatype Stream = Stream(
    url: string,
    name: string,
    genre: string,
    language: string,
    bitrate: string,
    extra: string)

  /** The six fields in the order the `.sii` line lists them. */
  function Fields(s: Stream): (fs: seq<string>)
    ensures |fs| == 6
  {
    [s.url, s.name, s.genre, s.language, s.bitrate, s.extra]
  }

  /** The labels the program stores in its status map. */
  datatype Status = Working | NotResponding | Playing | Stopped
  {
    function Label(): string
    {
      match this
      case Working => "Working"
      case NotResponding => "Not Responding"
      case Playing => "Playing"
      case Stopped => "Stopped"
    }
  }
}
