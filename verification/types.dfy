/** The records that flow through the preparation pipeline, and its failures. */
module Types {

  datatype Option<T> = None | Some(value: T)

  /** The ways a run of the preparation script aborts. */
  datatype Error =
    | MalformedRow(line: nat)       // a metadata line with fewer than three tokens (IndexError)
    | MissingRatio(index: nat)      // the ratio list has no entry at `index` (IndexError)
    | ZeroRatioSum                  // the ratios sum to zero (ZeroDivisionError)
    | AudioReadError(path: string)  // the audio decoder could not read `path`

  datatype Result<T> = Ok(value: T) | Err(error: Error) {
    predicate IsFailure() { Err? }

    function PropagateFailure<U>(): Result<U>
      requires Err?
    {
      Err(error)
    }

    function Extract(): T
      requires Ok?
    {
      value
    }
  }

  /** One line of the speaker metadata table. */
  datatype MetaRow = MetaRow(speaker: string, region: string, sex: string)

  /** One audio file matched to its speaker's labels. */
  datatype AudioRecord = AudioRecord(path: string, region: string, sex: string)
}
