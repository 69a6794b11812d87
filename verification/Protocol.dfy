/** The records shared by the experiment runner, its resume path and the adjudication. */
module Protocol {
  const ARMS: seq<string> := ["C", "RP", "RK", "RM", "G"]

  datatype Plan = Plan(
    repetitions: int,
    discovery: seq<string>,
    hiddenConfirmation: seq<string>,
    unaffectedControls: seq<string>,
    versionDigests: map<string, string>,
    deltaMin: real)
  {
    function Affected(): seq<string> {
      discovery + hiddenConfirmation
    }
  }

  datatype ProbeRun = ProbeRun(
    probeId: string,
    repetition: int,
    recovered: bool,
    outputRef: string,
    outputDigest: string,
    answer: string)

  /** One trial of the frozen protocol. */
  datatype Key = Key(arm: string, probeId: string, repetition: int)
}
