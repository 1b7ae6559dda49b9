/**
 The song record the wizard builds step by step and the project list
 stores. Only the fields the tempo and bar-grid engine reads or writes are
 modelled; the audio file itself is left out.
 */
module Songs {
  import opened Maybe

  /**
   `tempo` is absent until the tempo step commits one; `timeSignature` is
   the "N/M" string; `bars` are bar-start times in ms; `duration` is the
   audio length in ms.
   */
  datatype Song = Song(
    id: string,
    name: string,
    tempo: Option<nat>,
    timeSignature: string,
    downbeats: seq<real>,
    bars: seq<real>,
    duration: real)
}
