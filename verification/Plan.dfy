/**
 The compiled plan as the interpreter sees it: a list of execution steps, each
 carrying exactly one variant, over departments named by string ids.
 */
module Plan {
  import opened Wrappers

  type DeptId = string
  type NodeKey = string

  /** One execution step. A variant with an empty list is the source's "no populated variant". */
  datatype Step =
    | Sequential(departments: seq<DeptId>)
    | Parallel(branches: seq<ParallelBranch>)
    | Exclusive(choices: seq<ExclusiveBranch>)
    | SubWorkflow(steps: seq<Step>, errorPaths: seq<BoundaryPath>, timerPaths: seq<BoundaryPath>, messagePaths: seq<BoundaryPath>)

  datatype ParallelBranch = ParallelBranch(deptId: DeptId, steps: seq<Step>)

  /** The steps to run when a boundary event of a sub-workflow fires. */
  datatype BoundaryPath = BoundaryPath(steps: seq<Step>)

  /** An exclusive branch runs its steps, or, with none, its target; a revert goes back and selects again. */
  datatype ExclusiveBranch = ExclusiveBranch(steps: seq<Step>, target: DeptId, revertTo: DeptId, terminates: bool)

  /** A stage of a department, with the step lists of its boundary timer and boundary message, if any. */
  datatype Stage = Stage(id: string, timerPath: Option<seq<Step>>, messagePath: Option<seq<Step>>)

  datatype Department = Department(id: DeptId, stages: seq<Stage>)

  datatype CompiledPlan = CompiledPlan(steps: seq<Step>, departments: seq<Department>)

  /**
   Whether running `steps` can reach a sequential department `d`: gateways and sub-workflow plans are searched,
   boundary paths are not.
   */
  predicate StepsRun(steps: seq<Step>, d: DeptId)
  {
    steps != [] && (StepRunsDept(steps[0], d) || StepsRun(steps[1..], d))
  }

  predicate StepRunsDept(step: Step, d: DeptId)
  {
    match step
    case Sequential(ds) => d in ds
    case Parallel(bs) => BranchesRun(bs, d)
    case Exclusive(cs) => ChoicesRun(cs, d)
    case SubWorkflow(steps, _, _, _) => StepsRun(steps, d)
  }

  predicate BranchesRun(bs: seq<ParallelBranch>, d: DeptId)
  {
    bs != [] && (StepsRun(bs[0].steps, d) || BranchesRun(bs[1..], d))
  }

  predicate ChoicesRun(cs: seq<ExclusiveBranch>, d: DeptId)
  {
    cs != [] && (StepsRun(cs[0].steps, d) || ChoicesRun(cs[1..], d))
  }
}
