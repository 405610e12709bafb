/** Shared vocabulary: optional values, results, the run-time faults of the
    Go program (which it reports by panicking), and the key events that
    the terminal library delivers. */
module Base {

  datatype Option<+T> = None | Some(value: T)

  /** A value, or the fault that makes the Go program panic instead. */
  datatype Result<+T> = Ok(value: T) | Failure(fault: Fault)

  datatype Fault =
    | IndexOutOfRange      // a slice index or slice bound outside the slice
    | MissingWordsFile     // os.Open of the word corpus failed: panic(err)
    | EmptyQuoteBucket     // rand.Intn(0) on a quote file with no non-empty line

  /** A key press as the screens see it. `Backspace` stands for both of the
      terminal library's backspace codes; `Other` for every key that no
      screen of the core distinguishes (escape, tab, control keys, ...). */
  datatype Key =
    | Rune(ch: char)
    | Backspace
    | Up
    | Down
    | Left
    | Right
    | Enter
    | Other
}
