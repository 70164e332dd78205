/** Small result types shared by the parser and the store. */
module Wrappers {

  datatype Option<+T> = None | Some(value: T)

  /** The errors the configuration store returns, with Go's messages. */
  datatype ConfError = SectionNotFound | KeyNotFound | IndexOutOfRange | ReadError(file: string)
  {
    function Message(): (m: string)
      ensures m != ""
      ensures ReadError? <==> |m| >= 5 && m[..5] == "open "
    {
      match this
      case SectionNotFound => var m := "section not found"; assert m[..5][0] == 's'; m
      case KeyNotFound => var m := "key not found"; assert m[..5][0] == 'k'; m
      case IndexOutOfRange => var m := "index out of range"; assert m[..5][0] == 'i'; m
      case ReadError(f) => "open " + f
    }
  }

  /** Different errors have different messages, so a caller comparing the
      text of the Go error tells the kinds apart, and a read error names its
      file. */
  lemma MessageDetermines(e1: ConfError, e2: ConfError)
    requires e1.Message() == e2.Message()
    ensures e1 == e2
  {
    if e1.ReadError? && e2.ReadError? {
      assert e1.file == e1.Message()[5..];
      assert e2.file == e2.Message()[5..];
    }
  }

  /** The outcome of a query: a value, a returned error, or a Go runtime panic
      (an index outside the slice). */
  datatype Answer<+T> = Ok(value: T) | Err(error: ConfError) | Panic
}
