/**
 * Value types shared by the decision pipeline: the actuator command and
 * proposal records, the action catalog configuration and the agent context
 * that one decision cycle reads.
 */
module Models {

  datatype Option<T> = None | Some(value: T)

  /** One actuator instruction: an action name and its numeric parameters. */
  datatype ActuatorCommand = ActuatorCommand(name: string, params: map<string, real>)

  /** A candidate action bundle with its confidence and priority. */
  datatype Proposal = Proposal(
    proposalId: string,
    sourceModuleId: string,
    confidence: real,
    priority: real,
    justification: string,
    proposedActions: seq<ActuatorCommand>)

  /** The declared `[min, max]` range of one parameter of a catalog action. */
  datatype Bounds = Bounds(vmin: real, vmax: real)

  /** One entry of the catalog's `actions` list. */
  datatype ActionSpec = ActionSpec(name: string, params: map<string, Bounds>)

  /** Health status: the `ok` flag and optional readings (an absent attribute reads as 0). */
  datatype BiosStatus = BiosStatus(
    ok: bool,
    temperature: Option<real>,
    powerDraw: Option<real>,
    utilization: Option<real>)

  /** The sensor dictionary; an absent key is `None`. */
  datatype SensorData = SensorData(
    distance: Option<real>,
    velocity: Option<real>,
    azimuth: Option<real>,
    hazardScore: Option<real>,
    actionHistory: Option<seq<real>>)

  /** What one decision cycle reads; `sensorData == None` stands for a missing or empty dictionary. */
  datatype AgentContext = AgentContext(
    fsmState: string,
    biosStatus: BiosStatus,
    sensorData: Option<SensorData>)

  function Min(a: int, b: int): int { if a <= b then a else b }
}
