/**
 * The timetable wizard (src/components/GenerateTimetable.jsx): four steps
 * walked forwards and backwards one at a time, and the data each step hands
 * back collected under its own key.
 */
module Wizard {
  import opened Values

  datatype WizardStep = WizardStep(number: nat, title: string)

  /** The four steps, numbered from 1. */
  const Steps: seq<WizardStep> := [
    WizardStep(1, "Department Timings"),
    WizardStep(2, "Enter Subjects"),
    WizardStep(3, "Practical Assignment"),
    WizardStep(4, "Theory Assignment")]

  /** The data the wizard starts with: no timings and three empty lists. */
  const InitialData: Record := map[
    "timings" := Null,
    "subjects" := List([]),
    "practicalAssignments" := List([]),
    "theoryAssignments" := List([])]

  /** A step number the wizard can show. */
  predicate InRange(step: int)
  {
    1 <= step <= |Steps|
  }

  /** `handleNext`: one step on, unless this is the last. */
  function Next(step: int): (r: int)
    ensures step < |Steps| ==> r == step + 1
    ensures step >= |Steps| ==> r == step
  {
    if step < |Steps| then step + 1 else step
  }

  /** `handlePrevious`: one step back, unless this is the first. */
  function Previous(step: int): (r: int)
    ensures step > 1 ==> r == step - 1
    ensures step <= 1 ==> r == step
  {
    if step > 1 then step - 1 else step
  }

  /** Both moves keep the step in range. */
  lemma MovesStayInRange(step: int)
    requires InRange(step)
    ensures InRange(Next(step)) && InRange(Previous(step))
  {
  }

  /** Going back undoes going on, and going on undoes going back, away from the ends. */
  lemma NextPreviousUndo(step: int)
    requires InRange(step)
    ensures step < |Steps| ==> Previous(Next(step)) == step
    ensures step > 1 ==> Next(Previous(step)) == step
  {
  }

  /** The step reached after pressing Next `n` times. */
  function Advance(step: int, n: nat): int
    decreases n
  {
    if n == 0 then step else Advance(Next(step), n - 1)
  }

  /** Pressing Next `n` times moves `n` steps on, stopping at the last. */
  lemma {:induction false} AdvanceStopsAtLast(step: int, n: nat)
    requires InRange(step)
    ensures Advance(step, n) == if step + n <= |Steps| then step + n else |Steps|
    decreases n
  {
    if n > 0 {
      AdvanceStopsAtLast(Next(step), n - 1);
    }
  }

  class GenerateTimetableView {
    var currentStep: int
    var formData: Record

    /** `steps[currentStep - 1]` always names a step. */
    predicate Valid()
      reads this
    {
      InRange(currentStep)
    }

    constructor ()
      ensures currentStep == 1 && formData == InitialData && Valid()
    {
      currentStep := 1;
      formData := InitialData;
    }

    /** The step shown, `steps[currentStep - 1]`. */
    function Current(): (s: WizardStep)
      reads this
      requires Valid()
      ensures s.number == currentStep
    {
      Steps[currentStep - 1]
    }

    method HandleNext()
      requires Valid()
      modifies this`currentStep
      ensures Valid()
      ensures currentStep == Next(old(currentStep))
    {
      if currentStep < |Steps| {
        currentStep := currentStep + 1;
      }
    }

    method HandlePrevious()
      requires Valid()
      modifies this`currentStep
      ensures Valid()
      ensures currentStep == Previous(old(currentStep))
    {
      if currentStep > 1 {
        currentStep := currentStep - 1;
      }
    }

    /** `handleStepData(stepName, data)`: only that key of the collected data changes. */
    method HandleStepData(stepName: string, data: Value)
      modifies this`formData
      ensures formData.Keys == old(formData).Keys + {stepName} && formData[stepName] == data
      ensures forall k :: k in old(formData) && k != stepName ==> formData[k] == old(formData)[k]
    {
      formData := formData[stepName := data];
    }
  }
}
