/** What can happen to a single step, so that one proof covers every failure and every death of the process. */
module Faults {

  /** What happens to one step: it can fail or kill the process, before or after taking effect. */
  datatype Fate = Works | Fails | FailsLate | Dies | DiesLate

  /** The fates that the process survives, for code in which a death is a step of its own. */
  type Survived = fate: Fate | fate in {Works, Fails, FailsLate} witness Works

  /** How a piece of code ends: normally, with an exception, or with the process. */
  datatype Outcome = Done | Raised | Dead

  function OutcomeOf(fate: Fate): Outcome {
    match fate
    case Works => Done
    case Fails | FailsLate => Raised
    case Dies | DiesLate => Dead
  }

  predicate TakesEffect(fate: Fate) { fate in {Works, FailsLate, DiesLate} }
}
