/** Optional values, results, and the errors the task-sampling engine raises. */
module Outcomes {

  datatype Option<+T> = None | Some(value: T)

  datatype Result<+T, +E> = Success(value: T) | Failure(error: E)

  /**
   * One constructor per exception the engine raises; `L` is the label type,
   * so that an error can name the tasks or the label it is about.
   */
  datatype Error<L> =
    | UnsupportedLabel(position: nat)       // a label `.item()` cannot reduce to a scalar
    | DuplicateClasses                      // LabelEncoder over a list with a repeated class
    | TooManyWays                           // fewer configured classes than ways
    | UnknownClasses                        // a configured class is not a dataset label
    | UnsupportedTasksType                  // `tasks` is none of None, int, list
    | MalformedTasks(invalid: seq<seq<L>>)  // the stored tasks that fail the task check
    | MissingShots                          // neither the call nor the generator gives shots
    | EmptyTaskList                         // a random pick from an empty task list
    | MalformedTask                         // an explicitly requested task fails the task check
    | DrawFailed(which: L)                  // a draw without replacement larger than the bucket
    | StopIteration                         // the iteration cursor is past the last task
    | FixedClassesUnsupported               // the N-shot sampler was given fixed classes
    | ShotsBelowOne                         // the N-shot sampler was given fewer than one shot
    | EmptyLabels                           // `max` of an empty label list
    | StackFailed                           // `torch.stack` of no rows, or of rows of unequal length
}
