/// The progress loop both fetchers run over n_m3u8dl-re's stdout
/// (utils/process_m3u8.py:66-80, utils/process_mpd.py:51-64). The loop
/// assigns `stripped_output` only after a non-empty line but reads it on every
/// pass, so an end of stream seen before the first line, while the process is
/// still running, raises UnboundLocalError out of the fetcher.
module Stream {
  /**
   * One `readline()`: a line (never empty: readline returns '' only at end of
   * stream), or the end of stream together with whether the `poll()` that
   * follows found the process exited.
   */
  datatype Read = Line(text: string) | Eof(exited: bool)

  /** The loop raises exactly when its first read is an end of stream with the process still running. */
  predicate RaisesUnbound(output: seq<Read>)
  {
    |output| > 0 && output[0] == Eof(false)
  }

  /**
   * The loop over the reads: it stops at the first end of stream with the
   * process exited, and raises at the first pass that finds `stripped_output`
   * unassigned. `consumed` is the number of reads it takes.
   */
  method ReadOutput(output: seq<Read>) returns (raised: bool, consumed: nat)
    ensures raised <==> RaisesUnbound(output)
    ensures consumed <= |output|
    ensures raised ==> consumed == 1
    ensures !raised ==> consumed == |output| || (consumed > 0 && output[consumed - 1] == Eof(true))
    ensures forall i :: 0 <= i < consumed - 1 ==> output[i] != Eof(true)
  {
    var bound := false;  // whether `stripped_output` has been assigned
    raised, consumed := false, 0;
    while consumed < |output|
      invariant consumed <= |output|
      invariant bound <==> consumed > 0
      invariant consumed > 0 ==> output[0].Line?
      invariant forall i :: 0 <= i < consumed ==> output[i] != Eof(true)
    {
      var r := output[consumed];
      consumed := consumed + 1;
      if r == Eof(true) {
        return;
      }
      if r.Line? {
        bound := true;
      }
      if !bound {
        raised := true;
        return;
      }
    }
  }
}
