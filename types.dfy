/** Values shared by every stage of the schedule-synthesis engine: relation
    types, precedence edges, phases, lifecycle states, the simulation
    profile tables and the synthesized status record. Dates are integer day
    numbers throughout. */
module ScheduleTypes {

  datatype Option<T> = None | Some(value: T)

  /** The four precedence relation types. */
  datatype RelType = FS | SS | FF | SF

  /** An incoming precedence edge held by its successor: the predecessor's
      id (ids are 1-based catalog positions), the relation type and the lag
      in days. */
  datatype Edge = Edge(pred: int, rel: RelType, lag: int)

  /** The eight phases, in the order the scheduler walks them
      ("Preparación del Terreno" … "Puesta en Marcha"). */
  datatype Phase =
    | SitePreparation          // Preparación del Terreno
    | Earthworks               // Movimiento de Tierra
    | Foundations              // Cimentaciones
    | MainStructures           // Estructuras Principales
    | MechanicalInstallations  // Instalaciones Mecánicas
    | ElectricalInstallations  // Instalaciones Eléctricas
    | FinishingAndTesting      // Acabados y Pruebas
    | Commissioning            // Puesta en Marcha

  const PhaseCount: nat := 8

  function PhaseIndex(p: Phase): (k: nat)
    ensures k < PhaseCount
  {
    match p
    case SitePreparation => 0
    case Earthworks => 1
    case Foundations => 2
    case MainStructures => 3
    case MechanicalInstallations => 4
    case ElectricalInstallations => 5
    case FinishingAndTesting => 6
    case Commissioning => 7
  }

  /** The phase at position `k` of the phase list. */
  function PhaseAt(k: nat): (p: Phase)
    requires k < PhaseCount
    ensures PhaseIndex(p) == k
  {
    if k == 0 then SitePreparation
    else if k == 1 then Earthworks
    else if k == 2 then Foundations
    else if k == 3 then MainStructures
    else if k == 4 then MechanicalInstallations
    else if k == 5 then ElectricalInstallations
    else if k == 6 then FinishingAndTesting
    else Commissioning
  }

  lemma PhaseIndexInjective(p: Phase, q: Phase)
    ensures PhaseIndex(p) == PhaseIndex(q) ==> p == q
  {
  }

  /** Phase risk factor, in percent (0.15 is 15). */
  function RiskPercent(p: Phase): int
  {
    match p
    case SitePreparation => 15
    case Earthworks => 30
    case Foundations => 25
    case MainStructures => 20
    case MechanicalInstallations => 35
    case ElectricalInstallations => 25
    case FinishingAndTesting => 30
    case Commissioning => 20
  }

  /** Coarse lifecycle state of a task. */
  datatype State = NotStarted | InProgress | Completed

  /** Number of entries of the delay-cause catalog. */
  const DelayCauseCount: nat := 8

  /** The five simulation profiles. */
  datatype Profile = Ahead | Normal | Late | Initial | Critical

  function DelayFactor(p: Profile): real
  {
    match p
    case Ahead => 0.1
    case Normal => 0.2
    case Late => 0.4
    case Initial => 0.15
    case Critical => 0.5
  }

  /** The range (low, high) of the completed share a profile draws from. */
  function CompletedRange(p: Profile): (real, real)
  {
    match p
    case Ahead => (0.60, 0.80)
    case Normal => (0.40, 0.60)
    case Late => (0.20, 0.40)
    case Initial => (0.05, 0.20)
    case Critical => (0.30, 0.45)
  }

  /** The range (low, high) of the in-progress share a profile draws from. */
  function InProgressRange(p: Profile): (real, real)
  {
    match p
    case Ahead => (0.05, 0.15)
    case Normal => (0.10, 0.20)
    case Late => (0.15, 0.30)
    case Initial => (0.05, 0.15)
    case Critical => (0.25, 0.35)
  }

  /** The four network styles ("Paralela", "Secuencial", "Mixta", "Compleja"). */
  datatype NetworkStyle = Parallel | Sequential | Mixed | Complex

  function MaxPredecessors(s: NetworkStyle): nat
  {
    match s
    case Parallel => 3
    case Sequential => 2
    case Mixed => 4
    case Complex => 5
  }

  /** Buffer-sizing strategies. */
  datatype BufferStrategy = Conservative | Moderate | Aggressive

  /** The buffer multiplier, in tenths (0.3 is 3). */
  function BufferTenths(b: BufferStrategy): nat
  {
    match b
    case Conservative => 3
    case Moderate => 2
    case Aggressive => 1
  }

  function MinBuffer(b: BufferStrategy): int
  {
    match b
    case Conservative => 3
    case Moderate => 2
    case Aggressive => 1
  }

  /** The configuration of one run. The shares are the ones the profile
      drew; they are inputs here. */
  datatype SimulationConfig = SimulationConfig(
    profile: Profile,
    completedShare: real,
    inProgressShare: real,
    strategy: BufferStrategy,
    style: NetworkStyle)

  /** The status label of a task ("Completada anticipadamente" …
      "No iniciada"). */
  datatype Label =
    | CompletedEarly        // Completada anticipadamente
    | CompletedLate         // Completada con retraso
    | CompletedOnTime       // Completada
    | InProgressLate        // En progreso (con retraso)
    | InProgressAhead       // En progreso (adelantada)
    | InProgressOnSchedule  // En progreso
    | NotYetStarted         // No iniciada
  {
    predicate IsCompleted() { CompletedEarly? || CompletedLate? || CompletedOnTime? }
    predicate IsInProgress() { InProgressLate? || InProgressAhead? || InProgressOnSchedule? }
  }

  /** The synthesized execution record of one task. `None` stands for the
      source's placeholder texts ("Pendiente", "En ejecución", "N/A"). */
  datatype Status = Status(
    kind: Label,
    actualStart: Option<int>,
    actualEnd: Option<int>,
    actualDuration: Option<int>,
    progress: int,
    actualCost: Option<int>,
    recordedDelay: int,
    overrun: Option<int>,
    cause: Option<nat>)

  /** One entry of the task catalog. */
  datatype CatalogEntry = CatalogEntry(phase: Phase, name: string, duration: int, cost: int)

  /** One row of the synthesized schedule. */
  datatype TaskRow = TaskRow(
    id: int,
    phase: Phase,
    name: string,
    duration: int,
    plannedStart: int,
    plannedEnd: int,
    preds: seq<Edge>,
    cost: int,
    riskPercent: int,
    state: State,
    status: Status,
    delayDays: int,
    bufferDays: int)

  function Max(a: int, b: int): int { if a >= b then a else b }
  function Min(a: int, b: int): int { if a <= b then a else b }

  /** Python's int() on a real: truncation toward zero. */
  function Trunc(x: real): (n: int)
    ensures x >= 0.0 ==> n as real <= x < n as real + 1.0
    ensures x < 0.0 ==> n as real - 1.0 < x <= n as real
  {
    if x >= 0.0 then x.Floor else -((-x).Floor)
  }
}
