/** The lock controller and the card reader together. */
module PanelReports {
  import opened Bytes
  import opened LineFramer
  import opened TagReports
  import opened DoorMachine
  import opened DoorSafety
  import opened DoorHistory

  /** In every run of the panel, the host reads one report for each non-empty run of bytes from the card reader.
    A report is a tag exactly when the reader is enabled as the byte that ends the run is taken, and the C string
    left in the buffer is ten bytes long. */
  lemma {:induction false} TagsAreReadWhileTheReaderIsOn(portd: Port, porte: Port, steps: seq<Step>)
    ensures var cards := CardsTaken(Start(portd, porte), steps);
            var runs := Runs(BytesOf(cards)).lines;
            var reports := ReadAll(Records([], Output(CHAR_BUFFER_SIZE, cards)));
            && |reports| == |runs|
            && forall i :: 0 <= i < |runs| ==>
                 && runs[i].at < |cards|
                 && (reports[i].Tag? <==> cards[runs[i].at].readerOn && CLength(Left(runs[i].bytes)) == TAG_LENGTH)
                 && (reports[i].Tag? ==> reports[i].code == Left(runs[i].bytes)[..TAG_LENGTH])
  {
    RunKeepsInv(portd, porte, steps);
    CardsTellTheHistory(portd, porte, steps);
    HostReadsOneReportPerRun(CHAR_BUFFER_SIZE, Exec(Start(portd, porte), steps).cards);
  }
}
