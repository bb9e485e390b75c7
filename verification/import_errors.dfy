/**
 * `DataProcessingError`: the import/export row error that hides the original
 * message behind a generic one and keeps only the database's `DETAIL:` part
 * of the traceback.
 */
module ImportErrors {
  import opened Wrappers
  import opened Text

  const GenericMessage := "An error occurred while processing the data. Please check your input."
  const NoTraceback := "No traceback available"
  const DetailMarker := "DETAIL:"

  /** The stored state of the error; `row` is always reset to an empty list. */
  datatype DataProcessingError = DataProcessingError(
    error: string,
    traceback: string,
    row: seq<string>,
    number: Option<int>)

  /** The stored traceback: the text after the last `DETAIL:`, or a fixed text when there is none at all. */
  function TrimTraceback(traceback: Option<string>): (r: string)
    ensures traceback.None? || traceback.value == "" ==> r == NoTraceback
    ensures traceback.Some? && traceback.value != "" && !IsInfix(DetailMarker, traceback.value) ==>
      r == traceback.value
    ensures traceback.Some? && IsInfix(DetailMarker, traceback.value) ==>
      exists i :: OccursAt(traceback.value, DetailMarker, i)
        && r == traceback.value[i + |DetailMarker|..]
        && forall j :: i < j ==> !OccursAt(traceback.value, DetailMarker, j)
  {
    if traceback.None? || traceback.value == "" then NoTraceback
    else RPartitionTail(traceback.value, DetailMarker)
  }

  /**
   * `DataProcessingError(error, traceback, row, number)`: the message is
   * replaced by the generic one, the traceback trimmed, the row emptied and
   * the number kept. The original message and row only reach the log.
   */
  function NewDataProcessingError(error: Option<string>, traceback: Option<string>, row: Option<int>,
                                  number: Option<int>): (e: DataProcessingError)
    ensures e.error == GenericMessage
    ensures e.traceback == TrimTraceback(traceback)
    ensures e.row == []
    ensures e.number == number
  {
    DataProcessingError(GenericMessage, TrimTraceback(traceback), [], number)
  }

  /** A traceback ending in `DETAIL:` is stored as the empty string, not as the fixed text. */
  lemma TrailingDetailStoresEmpty(prefix: string)
    ensures TrimTraceback(Some(prefix + DetailMarker)) == ""
  {
    var tb := prefix + DetailMarker;
    assert OccursAt(tb, DetailMarker, |prefix|);
    var r := TrimTraceback(Some(tb));
    var i :| OccursAt(tb, DetailMarker, i) && r == tb[i + |DetailMarker|..]
             && forall j :: i < j ==> !OccursAt(tb, DetailMarker, j);
    assert i == |prefix|;
  }
}
